/** 256-bit unsigned words with the saturating operations the work ceiling uses. */
module Words {

  const MAX256: nat := 0xFFFFFFFF_FFFFFFFF_FFFFFFFF_FFFFFFFF_FFFFFFFF_FFFFFFFF_FFFFFFFF_FFFFFFFF

  type U256 = x: nat | x <= MAX256

  function Clip(x: nat): (r: U256) {
    if x <= MAX256 then x else MAX256
  }

  function SatAdd(a: U256, b: U256): (r: U256) {
    Clip(a + b)
  }

  function SatMul(a: U256, b: U256): (r: U256) {
    Clip(a * b)
  }

  function Min(a: int, b: int): (r: int) {
    if a <= b then a else b
  }

  function Max(a: int, b: int): (r: int) {
    if a >= b then a else b
  }

  function Sum(s: seq<nat>): (r: nat) {
    if s == [] then 0 else s[0] + Sum(s[1..])
  }

  lemma {:induction false} SumConcat(a: seq<nat>, b: seq<nat>)
    ensures Sum(a + b) == Sum(a) + Sum(b)
  {
    if a == [] {
      assert a + b == b;
    } else {
      assert (a + b)[1..] == a[1..] + b;
      SumConcat(a[1..], b);
    }
  }

  // ----- floor division

  lemma {:induction false} MulLe(a: nat, b: nat, d: nat)
    requires a <= b
    ensures a * d <= b * d
  {
  }

  lemma {:induction false} DivTimes(n: nat, d: nat)
    requires d > 0
    ensures n / d >= 0 && (n / d) * d <= n < (n / d) * d + d
  {
  }

  /** Division of unsigned words, which rounds down. */
  function FloorDiv(n: nat, d: nat): (q: nat)
    requires d > 0
    ensures q * d <= n < q * d + d
  {
    DivTimes(n, d);
    n / d
  }

  lemma {:induction false} DivAtLeast(n: nat, d: nat, q: nat)
    requires d > 0 && q * d <= n
    ensures FloorDiv(n, d) >= q
  {
    hide FloorDiv;
    if FloorDiv(n, d) < q {
      MulLe(FloorDiv(n, d) + 1, q, d);
    }
  }

  lemma {:induction false} DivBelow(n: nat, d: nat, q: nat)
    requires d > 0 && n < q * d
    ensures FloorDiv(n, d) < q
  {
    hide FloorDiv;
    if FloorDiv(n, d) >= q {
      MulLe(q, FloorDiv(n, d), d);
    }
  }

  lemma {:induction false} DivSmaller(n: nat, d: nat)
    requires d > 0
    ensures FloorDiv(n, d) <= n
  {
    hide FloorDiv;
    MulLe(1, d, FloorDiv(n, d));
  }
}
