/**
 The per-block uncle allowance drawn from sampled uncle counts, an integer empirical-Bernstein bound in thousandths
 (crates/core/src/checkpoint.rs).
 */
module UncleAllowance {
  import opened Words

  /** ln(3 / 1e-9) in thousandths. */
  const LN_3_OVER_DELTA: nat := 21_821
  const UNCLE_LIST_LIMIT: nat := 10
  const ALLOWANCE_CAP: nat := 1_000 + UNCLE_LIST_LIMIT * 1_000

  function Isqrt(n: nat): (r: nat)
    ensures r * r <= n < (r + 1) * (r + 1)
  {
    if n == 0 then 0
    else
      var r := Isqrt(n - 1);
      if (r + 1) * (r + 1) <= n then r + 1 else r
  }

  function InThousandths(uncles: seq<nat>): (r: seq<nat>)
    ensures |r| == |uncles|
  {
    if uncles == [] then [] else [uncles[0] * 1_000] + InThousandths(uncles[1..])
  }

  /** The sum of squared distances from `m`. */
  function SquaredDeviations(counts: seq<nat>, m: int): (r: nat) {
    if counts == [] then 0
    else
      var d := counts[0] - m;
      SquareNat(d);
      d * d + SquaredDeviations(counts[1..], m)
  }

  lemma {:induction false} SquareNat(d: int)
    ensures d * d >= 0
  {
  }

  function Mean(counts: seq<nat>): (r: nat)
    requires counts != []
  {
    FloorDiv(Sum(counts), |counts|)
  }

  /** Under the root: twice the unbiased variance times the confidence term, over `k`. */
  function VarianceRadicand(counts: seq<nat>): (r: nat)
    requires |counts| >= 2
  {
    var k := |counts|;
    FloorDiv(2 * FloorDiv(SquaredDeviations(counts, Mean(counts)), k - 1) * LN_3_OVER_DELTA, 1_000 * k)
  }

  function RangeTerm(k: nat): (r: nat)
    requires k > 0
  {
    FloorDiv(3 * (UNCLE_LIST_LIMIT * 1_000) * LN_3_OVER_DELTA, 1_000 * k)
  }

  /** `uncle_allowance_per_mille` over the sampled uncle counts. */
  function Allowance(uncles: seq<nat>): (r: nat) {
    var k := |uncles|;
    if k < 2 then ALLOWANCE_CAP
    else
      var counts := InThousandths(uncles);
      Min(1_000 + Mean(counts) + Isqrt(VarianceRadicand(counts)) + RangeTerm(k), ALLOWANCE_CAP)
  }

  ghost predicate WithinLimit(uncles: seq<nat>) {
    forall i :: 0 <= i < |uncles| ==> uncles[i] <= UNCLE_LIST_LIMIT
  }

  // ----- range and overflow

  lemma {:induction false} TotalBound(uncles: seq<nat>)
    requires WithinLimit(uncles)
    ensures Sum(InThousandths(uncles)) <= 10_000 * |uncles|
  {
    if uncles != [] {
      TotalBound(uncles[1..]);
      assert InThousandths(uncles)[1..] == InThousandths(uncles[1..]);
    }
  }

  lemma {:induction false} DeviationBound(c: int, m: int)
    requires 0 <= c <= 10_000 && 0 <= m <= 10_000
    ensures (c - m) * (c - m) <= 100_000_000
  {
    var d := if c >= m then c - m else m - c;
    assert (c - m) * (c - m) == d * d;
    MulLe(d, 10_000, d);
    MulLe(d, 10_000, 10_000);
  }

  lemma {:induction false} DeviationsBound(uncles: seq<nat>, m: int)
    requires WithinLimit(uncles) && 0 <= m <= 10_000
    ensures SquaredDeviations(InThousandths(uncles), m) <= 100_000_000 * |uncles|
  {
    if uncles != [] {
      DeviationsBound(uncles[1..], m);
      assert InThousandths(uncles)[1..] == InThousandths(uncles[1..]);
      DeviationBound(uncles[0] * 1_000, m);
    }
  }

  /**
   With at most ten uncles a sample and a sample count that fits a machine word, nothing the formula computes
   leaves 128 bits, and the result lies between one block and eleven.
   */
  lemma {:induction false} AllowanceFits(uncles: seq<nat>)
    requires WithinLimit(uncles) && |uncles| < 0x1_0000_0000_0000_0000
    ensures 1_000 <= Allowance(uncles) <= ALLOWANCE_CAP
    ensures |uncles| >= 2 ==>
              var k, counts := |uncles|, InThousandths(uncles);
              var ss := SquaredDeviations(counts, Mean(counts));
              && Sum(counts) < 0x1_0000_0000_0000_0000_0000_0000_0000_0000
              && ss < 0x1_0000_0000_0000_0000_0000_0000_0000_0000
              && 2 * (FloorDiv(ss, k - 1)) * LN_3_OVER_DELTA < 0x1_0000_0000_0000_0000_0000_0000_0000_0000
              && 1_000 * k < 0x1_0000_0000_0000_0000_0000_0000_0000_0000
              && 1_000 + Mean(counts) + Isqrt(VarianceRadicand(counts))
                 + RangeTerm(k) < 0x1_0000_0000_0000_0000_0000_0000_0000_0000
  {
    hide FloorDiv;
    if |uncles| >= 2 {
      var k, counts := |uncles|, InThousandths(uncles);
      TotalBound(uncles);
      MeanBound(uncles);
      DeviationsBound(uncles, Mean(counts));
      var ss := SquaredDeviations(counts, Mean(counts));
      var variance := FloorDiv(ss, k - 1);
      assert 100_000_000 * k <= 200_000_000 * (k - 1);
      DivBelow(ss, k - 1, 200_000_001);
      var n := 2 * variance * LN_3_OVER_DELTA;
      DivSmaller(n, 1_000 * k);
      RootSmaller(VarianceRadicand(counts));
      DivSmaller(3 * (UNCLE_LIST_LIMIT * 1_000) * LN_3_OVER_DELTA, 1_000 * k);
    }
  }

  lemma {:induction false} RootSmaller(n: nat)
    ensures Isqrt(n) <= n
  {
    var r := Isqrt(n);
    if r > 0 {
      MulLe(1, r, r);
    }
  }

  lemma {:induction false} MeanBound(uncles: seq<nat>)
    requires WithinLimit(uncles) && uncles != []
    ensures Mean(InThousandths(uncles)) <= 10_000
  {
    TotalBound(uncles);
    DivBelow(Sum(InThousandths(uncles)), |uncles|, 10_001);
  }

  // ----- where the cap binds

  function Zeros(k: nat): (r: seq<nat>)
    ensures |r| == k && forall i :: 0 <= i < k ==> r[i] == 0
  {
    seq(k, _ => 0)
  }

  lemma {:induction false} ZerosCount(k: nat, m: int)
    ensures Sum(InThousandths(Zeros(k))) == 0
    ensures SquaredDeviations(InThousandths(Zeros(k)), 0) == 0
  {
    if k > 0 {
      assert Zeros(k)[1..] == Zeros(k - 1);
      assert InThousandths(Zeros(k))[1..] == InThousandths(Zeros(k - 1));
      ZerosCount(k - 1, m);
    }
  }

  lemma {:induction false} RangeTermAtLeast(k: nat, q: nat)
    requires k > 0 && q * k <= 654_630
    ensures RangeTerm(k) >= q
  {
    assert q * (1_000 * k) == 1_000 * (q * k);
    DivAtLeast(654_630_000, 1_000 * k, q);
  }

  lemma {:induction false} RangeTermBelow(k: nat, q: nat)
    requires k > 0 && q * k > 654_630
    ensures RangeTerm(k) < q
  {
    assert q * (1_000 * k) == 1_000 * (q * k);
    DivBelow(654_630_000, 1_000 * k, q);
  }

  /** The allowance is the consensus worst case whatever was sampled exactly for up to 65 samples. */
  lemma {:induction false} CappedIff(k: nat)
    ensures k <= 65 <==> forall uncles :: |uncles| == k && WithinLimit(uncles) ==> Allowance(uncles) == ALLOWANCE_CAP
  {
    if k <= 65 {
      forall uncles | |uncles| == k && WithinLimit(uncles)
        ensures Allowance(uncles) == ALLOWANCE_CAP
      {
        if k >= 2 {
          RangeTermAtLeast(k, 10_000);
        }
      }
    } else {
      ZerosAllowance(k);
      RangeTermBelow(k, 10_000);
      assert WithinLimit(Zeros(k)) && Allowance(Zeros(k)) != ALLOWANCE_CAP;
    }
  }

  lemma {:induction false} ZerosAllowance(k: nat)
    requires k >= 2
    ensures Allowance(Zeros(k)) == Min(1_000 + RangeTerm(k), ALLOWANCE_CAP)
  {
    var counts := InThousandths(Zeros(k));
    ZerosCount(k, 0);
    DivSmaller(0, k);
    assert Mean(counts) == 0;
    DivSmaller(0, k - 1);
    DivSmaller(0, 1_000 * k);
    assert VarianceRadicand(counts) == 0;
    RootSmaller(0);
  }

  // ----- covering what was sampled

  /** What the sampled blocks weigh with their uncles, in thousandths of one block each. */
  function Sampled(uncles: seq<nat>): (r: nat) {
    1_000 * |uncles| + Sum(InThousandths(uncles))
  }

  lemma {:induction false} CoversSampled(uncles: seq<nat>)
    requires WithinLimit(uncles) && |uncles| <= 654_630
    ensures |uncles| * Allowance(uncles) >= Sampled(uncles)
  {
    hide FloorDiv, Isqrt, VarianceRadicand, RangeTerm;
    var k, counts := |uncles|, InThousandths(uncles);
    TotalBound(uncles);
    if k >= 2 && Allowance(uncles) != ALLOWANCE_CAP {
      RangeTermAtLeast(k, 1);
      var m := Mean(counts);
      assert Allowance(uncles) >= 1_001 + m;
      MulLe(1_001 + m, Allowance(uncles), k);
      assert (1_001 + m) * k == 1_000 * k + (m * k + k);
    }
  }

  function OneUncle(k: nat): (r: seq<nat>)
    requires k > 0
    ensures |r| == k
  {
    [1] + Zeros(k - 1)
  }

  /** One uncle among too many samples: every term of the allowance rounds to nothing. */
  lemma {:induction false} OneUncleUncovered(k: nat)
    requires k > 654_630
    ensures WithinLimit(OneUncle(k)) && k * Allowance(OneUncle(k)) < Sampled(OneUncle(k))
  {
    var u := OneUncle(k);
    var counts := InThousandths(u);
    assert u[1..] == Zeros(k - 1);
    assert counts[0] == 1_000 && counts[1..] == InThousandths(Zeros(k - 1));
    ZerosCount(k - 1, 0);
    DivBelow(1_000, k, 1);
    assert Mean(counts) == 0;
    assert SquaredDeviations(counts, 0) == 1_000_000;
    DivBelow(1_000_000, k - 1, 2);
    DivBelow(2 * FloorDiv(1_000_000, k - 1) * LN_3_OVER_DELTA, 1_000 * k, 1);
    assert VarianceRadicand(counts) == 0;
    RootSmaller(0);
    RangeTermBelow(k, 1);
    assert Allowance(u) == 1_000;
  }

  /**
   Spread over the samples, the allowance pays for every uncle sampled, despite the floors, exactly up to 654,630
   samples: beyond that the range term itself rounds to zero.
   */
  lemma {:induction false} CoversIff(k: nat)
    ensures k <= 654_630 <==> forall uncles :: |uncles| == k && WithinLimit(uncles) ==>
            k * Allowance(uncles) >= Sampled(uncles)
  {
    if k <= 654_630 {
      forall uncles | |uncles| == k && WithinLimit(uncles)
        ensures k * Allowance(uncles) >= Sampled(uncles)
      {
        CoversSampled(uncles);
      }
    } else {
      OneUncleUncovered(k);
    }
  }

  // ----- the floored mean

  function SumSquares(counts: seq<nat>): (r: nat) {
    if counts == [] then 0 else counts[0] * counts[0] + SumSquares(counts[1..])
  }

  lemma {:induction false} DeviationsExpand(counts: seq<nat>, m: int)
    ensures SquaredDeviations(counts, m) == SumSquares(counts) - 2 * m * Sum(counts) + |counts| * m * m
  {
    if counts != [] {
      var t := counts[1..];
      DeviationsExpand(t, m);
      ExpandStep(counts[0], m, Sum(t), |t|);
      assert |counts| == |t| + 1;
    }
  }

  lemma {:induction false} ExpandStep(c: int, m: int, t: int, k: int)
    ensures (c - m) * (c - m) - 2 * m * t + k * m * m == c * c - 2 * m * (c + t) + (k + 1) * m * m
  {
  }

  /**
   Squared deviations about the floored mean never fall below those about the true mean: scaled by the count they
   exceed `k` times the sum of squares less the square of the sum by exactly the square of what the floor dropped.
   */
  lemma {:induction false} FlooredMeanNeverUnderstates(counts: seq<nat>)
    requires counts != []
    ensures var k, total, m := |counts|, Sum(counts), Mean(counts);
            && k * SquaredDeviations(counts, m) ==
               k * SumSquares(counts) - total * total + (total - m * k) * (total - m * k)
            && k * SquaredDeviations(counts, m) >= k * SumSquares(counts) - total * total
  {
    var k, total, m := |counts|, Sum(counts), Mean(counts);
    hide FloorDiv, Mean;
    DeviationsExpand(counts, m);
    FlooredSquare(k, SumSquares(counts), m, total);
    SquareNat(total - m * k);
  }

  lemma {:induction false} FlooredSquare(k: int, sq: int, m: int, t: int)
    ensures k * (sq - 2 * m * t + k * m * m) == k * sq - t * t + (t - m * k) * (t - m * k)
  {
    var a := m * k;
    assert k * (2 * m * t) == 2 * a * t;
    assert k * (k * m * m) == a * a;
    assert (t - a) * (t - a) == t * t - 2 * a * t + a * a;
  }

  // ----- the bound itself

  lemma {:induction false} ThousandthsSums(uncles: seq<nat>)
    ensures Sum(InThousandths(uncles)) == 1_000 * Sum(uncles)
    ensures SumSquares(InThousandths(uncles)) == 1_000_000 * SumSquares(uncles)
  {
    if uncles != [] {
      ThousandthsSums(uncles[1..]);
      assert InThousandths(uncles)[1..] == InThousandths(uncles[1..]);
      assert (uncles[0] * 1_000) * (uncles[0] * 1_000) == 1_000_000 * (uncles[0] * uncles[0]);
    }
  }

  lemma {:induction false} RangeIs(k: nat)
    requires k > 0
    ensures RangeTerm(k) == FloorDiv(654_630, k)
  {
    hide FloorDiv, RangeTerm;
    var q := FloorDiv(654_630, k);
    RangeTermAtLeast(k, q);
    assert (q + 1) * k == q * k + k;
    RangeTermBelow(k, q + 1);
  }

  lemma {:induction false} Reassociate(x: int, y: int, z: int)
    ensures x * y * z == z * x * y == x * (z * y)
  {
  }

  lemma {:induction false} MulLeInt(a: int, b: int, d: nat)
    requires a <= b
    ensures d * a <= d * b
  {
  }

  /** What lies under both floors stays under when they are multiplied out. */
  lemma {:induction false} RootAtMost(ss: nat, a: nat, b: nat, v: nat, r: nat, sq: nat, c: nat)
    requires v * b <= ss && r * a <= c * v && sq <= r
    ensures a * b * sq <= c * ss
  {
    MulLe(sq, r, a);
    MulLe(sq * a, c * v, b);
    MulLeInt(v * b, ss, c);
    Reassociate(a, b, sq);
    Reassociate(c, b, v);
  }

  lemma {:induction false} RootAbove(least: int, a: nat, b: nat, v: nat, r: nat, up: nat, c: nat)
    requires b > 0 && least <= v * b && c * v < (r + 1) * a && r + 1 <= up
    ensures a * b * up > c * least
  {
    MulLe(r + 1, up, a);
    MulLe(c * v + 1, up * a, b);
    assert (c * v + 1) * b == c * v * b + b;
    MulLeInt(least, v * b, c);
    Reassociate(a, b, up);
    Reassociate(c, b, v);
  }

  /** A root of a floored quotient of a floored quotient, squared up and scaled back. */
  lemma {:induction false} RootBetween(ss: nat, k: nat, v: nat, r: nat, e: nat, c: nat)
    requires k >= 2 && v * (k - 1) <= ss <= v * (k - 1) + (k - 2)
    requires r * (1_000 * k) <= c * v < r * (1_000 * k) + 1_000 * k
    requires e * e <= r < (e + 1) * (e + 1)
    ensures 1_000 * k * (k - 1) * (e * e) <= c * ss
    ensures 1_000 * k * (k - 1) * ((e + 1) * (e + 1)) > c * (ss - (k - 2))
  {
    var a, sq, up := 1_000 * k, e * e, (e + 1) * (e + 1);
    RootAtMost(ss, a, k - 1, v, r, sq, c);
    assert c * v < (r + 1) * a by { OneMore(r, a); }
    RootAbove(ss - (k - 2), a, k - 1, v, r, up, c);
  }

  lemma {:induction false} OneMore(r: nat, a: nat)
    ensures (r + 1) * a == r * a + a
  {
  }

  /**
   The allowance is one block, the floored mean, a deviation term `e` and the range term, up to the cap. Twice the
   sampled variance times the confidence constant over `k` lies between `e` squared and the square of the next
   number, give or take what two floored divisions drop.
   */
  lemma {:induction false} AllowanceIsBernstein(uncles: seq<nat>) returns (e: nat)
    requires |uncles| >= 2
    ensures var k, total := |uncles|, 1_000 * Sum(uncles);
            var m := FloorDiv(total, k);
            var ss := 1_000_000 * SumSquares(uncles) - 2 * m * total + k * m * m;
            && Allowance(uncles) == Min(1_000 + m + e + FloorDiv(654_630, k), 11_000)
            && 1_000 * k * (k - 1) * (e * e) <= 2 * 21_821 * ss
            && 1_000 * k * (k - 1) * ((e + 1) * (e + 1)) > 2 * 21_821 * (ss - (k - 2))
  {
    var k, counts := |uncles|, InThousandths(uncles);
    var m := Mean(counts);
    var ss := SquaredDeviations(counts, m);
    var v := FloorDiv(ss, k - 1);
    var r := VarianceRadicand(counts);
    hide FloorDiv, SquaredDeviations, SumSquares, Sum, RangeTerm;
    ThousandthsSums(uncles);
    DeviationsExpand(counts, m);
    RangeIs(k);
    e := Isqrt(r);
    hide Isqrt;
    assert 2 * v * LN_3_OVER_DELTA == 2 * 21_821 * v;
    RootBetween(ss, k, v, r, e, 2 * 21_821);
  }
}
