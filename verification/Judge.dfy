/**
 The ceiling a checkpoint and a set of samples put on a peer's claimed total difficulty, and the verdict drawn from it
 (crates/core/src/checkpoint.rs).
 */
module Judge {
  import opened Words
  import opened WorkCeiling
  import opened UncleAllowance

  datatype Checkpoint = Checkpoint(number: nat, cumulative: U256, difficulty: U256)

  datatype Sample = Sample(number: nat, difficulty: U256, uncles: nat)

  datatype Verdict = Plausible(ceiling: U256) | Impossible(claimed: U256, ceiling: U256)

  function Uncles(samples: seq<Sample>): (r: seq<nat>)
    ensures |r| == |samples| && forall i :: 0 <= i < |samples| ==> r[i] == samples[i].uncles
  {
    if samples == [] then [] else [samples[0].uncles] + Uncles(samples[1..])
  }

  /** A gap's bound, scaled by the uncle allowance in thousandths. */
  function Scale(work: U256, allowance: U256): (r: U256) {
    DivSmaller(SatMul(work, allowance), 1_000);
    FloorDiv(SatMul(work, allowance), 1_000)
  }

  /** What the walk over the remaining samples, and then the tail up to `head`, makes of the running total. */
  function CeilingFrom(total: U256, at: nat, difficulty: U256, samples: seq<Sample>, head: nat, div: nat, min: U256,
                       allowance: U256): (r: U256)
    decreases samples
  {
    if samples == [] then
      if head > at then SatAdd(total, Scale(Bound(difficulty, MAX256, head - at, div, min), allowance)) else total
    else
      var s := samples[0];
      if s.number <= at then CeilingFrom(total, at, difficulty, samples[1..], head, div, min, allowance)
      else
        var total' := SatAdd(total, Scale(Bound(difficulty, s.difficulty, s.number - at, div, min), allowance));
        CeilingFrom(total', s.number, s.difficulty, samples[1..], head, div, min, allowance)
  }

  function Ceiling(cp: Checkpoint, samples: seq<Sample>, head: nat, div: nat, min: U256): (r: U256) {
    AllowanceIsWord(Uncles(samples));
    CeilingFrom(cp.cumulative, cp.number, cp.difficulty, samples, head, div, min, Allowance(Uncles(samples)))
  }

  lemma {:induction false} AllowanceIsWord(uncles: seq<nat>)
    ensures 1_000 <= Allowance(uncles) <= ALLOWANCE_CAP
  {
  }

  /** `ceiling_for`. */
  method CeilingFor(cp: Checkpoint, samples: seq<Sample>, head: nat, divisor: nat, min: U256) returns (total: U256)
    ensures total == Ceiling(cp, samples, head, divisor, min)
  {
    hide Bound, Allowance, Scale;
    AllowanceIsWord(Uncles(samples));
    var allowance: U256 := Allowance(Uncles(samples));
    total := cp.cumulative;
    var at := cp.number;
    var difficulty := cp.difficulty;
    for i := 0 to |samples|
      invariant CeilingFrom(total, at, difficulty, samples[i..], head, divisor, min, allowance) ==
                Ceiling(cp, samples, head, divisor, min)
    {
      var s := samples[i];
      assert samples[i..][1..] == samples[i + 1..];
      if s.number <= at {
        continue;
      }
      var work := Gap(difficulty, s.difficulty, s.number - at, divisor, min);
      total := SatAdd(total, Scale(work, allowance));
      at := s.number;
      difficulty := s.difficulty;
    }
    if head > at {
      var work := Gap(difficulty, MAX256, head - at, divisor, min);
      total := SatAdd(total, Scale(work, allowance));
    }
  }

  method Gap(from: U256, to: U256, span: nat, divisor: nat, min: U256) returns (work: U256)
    ensures work == Bound(from, to, span, divisor, min)
  {
    work := MaxWorkBetween(from, to, span, divisor, min);
  }

  function Verdicted(cp: Checkpoint, claimed: U256, samples: seq<Sample>, head: nat, div: nat,
                     min: U256): (r: Verdict) {
    var ceiling := Ceiling(cp, samples, head, div, min);
    if claimed > ceiling then Impossible(claimed, ceiling) else Plausible(ceiling)
  }

  /** `judge`. */
  method Verify(cp: Checkpoint, claimed: U256, samples: seq<Sample>, head: nat, divisor: nat, min: U256)
    returns (v: Verdict)
    ensures v == Verdicted(cp, claimed, samples, head, divisor, min)
  {
    var ceiling := CeilingFor(cp, samples, head, divisor, min);
    if claimed > ceiling {
      v := Impossible(claimed, ceiling);
    } else {
      v := Plausible(ceiling);
    }
  }

  // ----- an honest peer

  /** A block above the checkpoint: its own difficulty, and the work it adds with its uncles. */
  datatype Block = Block(difficulty: nat, work: nat)

  function Difficulties(chain: seq<Block>): (r: seq<nat>)
    ensures |r| == |chain|
    ensures forall i :: 0 <= i < |chain| ==> r[i] == chain[i].difficulty
  {
    seq(|chain|, i requires 0 <= i < |chain| => chain[i].difficulty)
  }

  function Works(chain: seq<Block>): (r: seq<nat>)
    ensures |r| == |chain|
    ensures forall i :: 0 <= i < |chain| ==> r[i] == chain[i].work
  {
    seq(|chain|, i requires 0 <= i < |chain| => chain[i].work)
  }

  /** The uncle-inclusive work of a stretch is within the allowance times its own difficulty. */
  ghost predicate GapCovered(chain: seq<Block>, lo: nat, hi: nat, allowance: nat)
    requires lo <= hi <= |chain|
  {
    1_000 * Sum(Works(chain)[lo..hi]) <= allowance * Sum(Difficulties(chain)[lo..hi])
  }

  /** Every gap the ceiling sums over is covered, heights counted from the checkpoint's. */
  ghost predicate GapsCovered(chain: seq<Block>, base: nat, at: nat, samples: seq<Sample>, head: nat, allowance: nat)
    decreases samples
  {
    if samples == [] then
      head > base + at ==> at <= head - base <= |chain| && GapCovered(chain, at, head - base, allowance)
    else
      var s := samples[0];
      if s.number <= base + at then GapsCovered(chain, base, at, samples[1..], head, allowance)
      else
        && s.number - base <= |chain|
        && GapCovered(chain, at, s.number - base, allowance)
        && GapsCovered(chain, base, s.number - base, samples[1..], head, allowance)
  }

  ghost predicate OnChain(cp: Checkpoint, chain: seq<Block>, samples: seq<Sample>) {
    forall i :: 0 <= i < |samples| && samples[i].number > cp.number ==>
      && samples[i].number - cp.number <= |chain|
      && chain[samples[i].number - cp.number - 1].difficulty == samples[i].difficulty
  }

  /** The work up to `head` on a chain whose total at the checkpoint is `total`. */
  function TotalAt(cp: Checkpoint, total: nat, chain: seq<Block>, head: nat): (r: nat)
    requires head <= cp.number + |chain|
  {
    if head <= cp.number then total else total + Sum(Works(chain)[..head - cp.number])
  }

  /**
   A peer whose chain obeys the retarget rule above a checkpoint that is not set too low, whose samples are blocks of
   that chain, and whose claim is no more than that chain carries at `head`.
   */
  ghost predicate Honest(cp: Checkpoint, total: nat, chain: seq<Block>, claimed: nat, samples: seq<Sample>, head: nat,
                         div: nat, min: U256)
    requires div >= 2
  {
    && total <= cp.cumulative
    && ValidChain(cp.difficulty, Difficulties(chain), div, min) && Fits(Difficulties(chain))
    && OnChain(cp, chain, samples)
    && head <= cp.number + |chain| && claimed <= TotalAt(cp, total, chain, head)
    && GapsCovered(chain, cp.number, 0, samples, head, Allowance(Uncles(samples)))
  }

  // ----- slices of a valid chain

  lemma {:induction false} ValidSlice(from: nat, ds: seq<nat>, lo: nat, hi: nat, div: nat, min: nat)
    requires div >= 2 && ValidChain(from, ds, div, min) && lo <= hi <= |ds|
    ensures ValidChain(Last(from, ds[..lo]), ds[lo..hi], div, min)
    decreases |ds|, hi
  {
    hide Retargets;
    if lo > 0 {
      ValidSlice(ds[0], ds[1..], lo - 1, hi - 1, div, min);
      assert ds[1..][lo - 1..hi - 1] == ds[lo..hi];
      assert Last(ds[0], ds[1..][..lo - 1]) == Last(from, ds[..lo]);
    } else if hi > 0 {
      ValidSlice(ds[0], ds[1..], 0, hi - 1, div, min);
      assert ds[0..hi][1..] == ds[1..][0..hi - 1];
    }
  }

  lemma {:induction false} SliceSum(s: seq<nat>, lo: nat, hi: nat)
    requires lo <= hi <= |s|
    ensures Sum(s[..hi]) == Sum(s[..lo]) + Sum(s[lo..hi])
  {
    assert s[..hi] == s[..lo] + s[lo..hi];
    SumConcat(s[..lo], s[lo..hi]);
  }

  // ----- one gap

  const CLAIM_LIMIT: nat := FloorDiv(MAX256, 1_000)

  /** Scaling after a saturating multiply still pays for the gap, or for any claim under the limit. */
  lemma {:induction false} ScalePays(own: nat, total: nat, bound: U256, allowance: U256)
    requires 1_000 <= allowance && 1_000 * total <= allowance * own
    requires own <= bound || bound == MAX256
    ensures total <= Scale(bound, allowance) || CLAIM_LIMIT <= Scale(bound, allowance)
  {
    hide FloorDiv;
    if bound * allowance > MAX256 {
      assert Scale(bound, allowance) == CLAIM_LIMIT;
    } else if own <= bound {
      MulLe(own, bound, allowance);
      DivAtLeast(bound * allowance, 1_000, total);
    } else {
      MulLe(1_000, allowance, bound);
    }
  }

  /** One covered gap of a valid chain is paid for by its scaled bound. */
  lemma {:induction false} GapPaid(cp: Checkpoint, chain: seq<Block>, lo: nat, hi: nat, to: U256, div: nat, min: U256,
                                   allowance: U256)
    requires div >= 2 && ValidChain(cp.difficulty, Difficulties(chain), div, min) && Fits(Difficulties(chain))
    requires lo < hi <= |chain| && GapCovered(chain, lo, hi, allowance) && 1_000 <= allowance
    requires chain[hi - 1].difficulty <= to
    ensures Last(cp.difficulty, Difficulties(chain)[..lo]) <= MAX256
    ensures var paid := Scale(Bound(Last(cp.difficulty, Difficulties(chain)[..lo]), to, hi - lo, div, min), allowance);
            Sum(Works(chain)[lo..hi]) <= paid || CLAIM_LIMIT <= paid
  {
    hide Scale, Bound;
    var ds := Difficulties(chain);
    var from := Last(cp.difficulty, ds[..lo]);
    ValidSlice(cp.difficulty, ds, lo, hi, div, min);
    BoundIsSound(from, ds[lo..hi], to, div, min);
    ScalePays(Sum(ds[lo..hi]), Sum(Works(chain)[lo..hi]), Bound(from, to, hi - lo, div, min), allowance);
  }

  // ----- the whole walk

  /** The chain's work up to `at` blocks above the checkpoint is in the running total, or the claim already is. */
  ghost predicate Paid(total: U256, atCheckpoint: nat, chain: seq<Block>, at: nat, claimed: nat)
    requires at <= |chain|
  {
    atCheckpoint + Sum(Works(chain)[..at]) <= total || claimed <= total
  }

  lemma {:induction false} PaidStep(total: U256, atCheckpoint: nat, chain: seq<Block>, at: nat, next: nat,
                                    claimed: nat, gain: U256)
    requires at <= next <= |chain| && Paid(total, atCheckpoint, chain, at, claimed) && claimed <= CLAIM_LIMIT
    requires Sum(Works(chain)[at..next]) <= gain || CLAIM_LIMIT <= gain
    ensures Paid(SatAdd(total, gain), atCheckpoint, chain, next, claimed)
  {
    hide FloorDiv;
    SliceSum(Works(chain), at, next);
    assert CLAIM_LIMIT <= MAX256;
  }

  lemma {:induction false} LastOfPrefix(cp: Checkpoint, chain: seq<Block>, n: nat)
    requires 0 < n <= |chain|
    ensures Last(cp.difficulty, Difficulties(chain)[..n]) == chain[n - 1].difficulty
  {
  }

  lemma {:induction false} TailCovers(cp: Checkpoint, atCheckpoint: nat, chain: seq<Block>, claimed: nat, total: U256,
                                      at: nat, difficulty: U256, head: nat, div: nat, min: U256, allowance: U256)
    requires div >= 2 && ValidChain(cp.difficulty, Difficulties(chain), div, min) && Fits(Difficulties(chain))
    requires head <= cp.number + |chain| && claimed <= TotalAt(cp, atCheckpoint, chain, head) && claimed <= CLAIM_LIMIT
    requires 1_000 <= allowance && GapsCovered(chain, cp.number, at, [], head, allowance)
    requires at <= |chain| && difficulty == Last(cp.difficulty, Difficulties(chain)[..at])
    requires Paid(total, atCheckpoint, chain, at, claimed)
    ensures claimed <= CeilingFrom(total, cp.number + at, difficulty, [], head, div, min, allowance)
  {
    hide Scale, Bound, ValidChain, FloorDiv;
    if head > cp.number + at {
      var hi := head - cp.number;
      GapPaid(cp, chain, at, hi, MAX256, div, min, allowance);
      PaidStep(total, atCheckpoint, chain, at, hi, claimed,
               Scale(Bound(difficulty, MAX256, hi - at, div, min), allowance));
    } else if head > cp.number {
      SliceSum(Works(chain), head - cp.number, at);
    }
  }

  /** The walk never loses sight of an honest claim. */
  lemma {:induction false} CeilingCovers(cp: Checkpoint, atCheckpoint: nat, chain: seq<Block>, claimed: nat,
                                         total: U256, at: nat, difficulty: U256, samples: seq<Sample>, head: nat,
                                         div: nat, min: U256, allowance: U256)
    requires div >= 2 && ValidChain(cp.difficulty, Difficulties(chain), div, min) && Fits(Difficulties(chain))
    requires OnChain(cp, chain, samples) && 1_000 <= allowance
             && GapsCovered(chain, cp.number, at, samples, head, allowance)
    requires head <= cp.number + |chain| && claimed <= TotalAt(cp, atCheckpoint, chain, head) && claimed <= CLAIM_LIMIT
    requires at <= |chain| && difficulty == Last(cp.difficulty, Difficulties(chain)[..at])
    requires Paid(total, atCheckpoint, chain, at, claimed)
    ensures claimed <= CeilingFrom(total, cp.number + at, difficulty, samples, head, div, min, allowance)
    decreases samples
  {
    hide Scale, Bound, ValidChain, Paid, GapCovered, FloorDiv;
    if samples == [] {
      TailCovers(cp, atCheckpoint, chain, claimed, total, at, difficulty, head, div, min, allowance);
    } else {
      var s := samples[0];
      if s.number <= cp.number + at {
        CeilingCovers(cp, atCheckpoint, chain, claimed, total, at, difficulty, samples[1..], head, div, min, allowance);
      } else {
        var next := s.number - cp.number;
        var gain := Scale(Bound(difficulty, s.difficulty, next - at, div, min), allowance);
        GapPaid(cp, chain, at, next, s.difficulty, div, min, allowance);
        PaidStep(total, atCheckpoint, chain, at, next, claimed, gain);
        LastOfPrefix(cp, chain, next);
        CeilingCovers(cp, atCheckpoint, chain, claimed, SatAdd(total, gain), next, s.difficulty, samples[1..], head,
                      div, min, allowance);
      }
    }
  }

  lemma {:induction false} HonestIsPlausible(cp: Checkpoint, total: nat, chain: seq<Block>, claimed: U256,
                                             samples: seq<Sample>, head: nat, div: nat, min: U256)
    requires div >= 2 && Honest(cp, total, chain, claimed, samples, head, div, min) && claimed <= CLAIM_LIMIT
    ensures Verdicted(cp, claimed, samples, head, div, min).Plausible?
  {
    hide ValidChain, Allowance, CeilingFrom, FloorDiv, GapsCovered;
    AllowanceIsWord(Uncles(samples));
    assert Sum(Works(chain)[..0]) == 0;
    CeilingCovers(cp, total, chain, claimed, cp.cumulative, 0, cp.difficulty, samples, head, div, min,
                  Allowance(Uncles(samples)));
  }

  // ----- beyond the limit

  /** The chain of one block, at the checkpoint's own difficulty and without uncles. */
  lemma {:induction false} OneBlockHonest(c: U256, div: nat, min: U256)
    requires div >= 2
    ensures Honest(Checkpoint(0, 0, c), 0, [Block(c, c)], c, [], 1, div, min)
  {
    hide Allowance;
    var chain := [Block(c, c)];
    var ds, ws := Difficulties(chain), Works(chain);
    assert ds == [c] && ws == [c] && ds[1..] == [];
    assert ValidChain(c, [], div, min) && ValidChain(c, ds, div, min);
    assert ds[0..1] == [c] && ws[0..1] == [c] && ws[..1] == [c];
    assert Sum([c]) == c + Sum([c][1..]) == c;
    assert TotalAt(Checkpoint(0, 0, c), 0, chain, 1) == c;
    AllowanceIsWord([]);
    assert Uncles([]) == [];
    MulLe(1_000, Allowance([]), c);
    assert GapCovered(chain, 0, 1, Allowance([]));
  }

  lemma {:induction false} OneBlockImpossible(c: U256, div: nat, min: U256)
    requires div >= 2 && c > CLAIM_LIMIT
    ensures Verdicted(Checkpoint(0, 0, c), c, [], 1, div, min).Impossible?
  {
    hide FloorDiv;
    var bound := Bound(c, MAX256, 1, div, min);
    assert bound >= c by {
      WorkUnfold(c, MAX256, 0, div, min);
      WorkNothing(Next(c, MAX256, div, min), MAX256, div, min);
    }
    assert Uncles([]) == [] && Allowance([]) == 11_000;
    MulLe(c, bound, 11_000);
    assert SatMul(bound, 11_000) == MAX256;
    assert Ceiling(Checkpoint(0, 0, c), [], 1, div, min) == Scale(bound, 11_000);
  }

  /**
   No honest claim is ever judged impossible exactly when it is at most a thousandth of the largest word. Above that,
   the multiplication saturates before the division and even a one-block chain can be refused.
   */
  lemma {:induction false} HonestClaimAcceptedIff(claimed: U256, div: nat, min: U256)
    requires div >= 2
    ensures claimed <= CLAIM_LIMIT <==>
            forall cp, total, chain, samples, head :: Honest(cp, total, chain, claimed, samples, head, div, min) ==>
              Verdicted(cp, claimed, samples, head, div, min).Plausible?
  {
    hide Honest, Verdicted, FloorDiv;
    if claimed <= CLAIM_LIMIT {
      forall cp, total, chain, samples, head | Honest(cp, total, chain, claimed, samples, head, div, min)
        ensures Verdicted(cp, claimed, samples, head, div, min).Plausible?
      {
        HonestIsPlausible(cp, total, chain, claimed, samples, head, div, min);
      }
    } else {
      OneBlockHonest(claimed, div, min);
      OneBlockImpossible(claimed, div, min);
    }
  }
}
