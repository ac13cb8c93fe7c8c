/**
 The largest work a stretch of chain can carry between two known difficulties
 (crates/core/src/checkpoint.rs), measured against the consensus retarget rule
 (crates/core/src/validation/difficulty.rs).
 */
module WorkCeiling {
  import opened Words

  // ----- the consensus rule

  const TEN_MINUTES: nat := 600

  /** The difficulty a child must carry, as the validator computes it. */
  function ChildDifficulty(parent: nat, parentTime: nat, time: nat, uncles: nat, durationLimit: nat,
                           div: nat, min: nat, rskip97: bool): (r: nat)
    requires div >= 2
  {
    if !rskip97 && time - parentTime >= TEN_MINUTES then min
    else if time < parentTime then parent
    else
      var calcDur := (1 + uncles) * durationLimit;
      var delta := time - parentTime;
      if calcDur == delta then parent
      else
        var quotient := FloorDiv(parent, div);
        var fromParent :=
          if calcDur > delta then parent + quotient
          else if parent > quotient then parent - quotient
          else 0;
        if fromParent < min then min else fromParent
  }

  function Fall(d: nat, div: nat): (r: nat)
    requires div >= 2
    ensures r <= d
  {
    DivSmaller(d, div);
    d - FloorDiv(d, div)
  }

  /** One step of the retarget rule: unchanged, or one quotient either way and then clamped up. */
  ghost predicate Retargets(parent: nat, child: nat, div: nat, min: nat)
    requires div >= 2
  {
    || child == parent
    || child == Max(min, parent + FloorDiv(parent, div))
    || child == Max(min, Fall(parent, div))
  }

  /** With RSKIP97 active, the three outcomes of the retarget rule are all a miner can choose from. */
  lemma {:induction false} ValidatorRetargets(parent: nat, parentTime: nat, time: nat, uncles: nat,
                                              durationLimit: nat, div: nat, min: nat)
    requires div >= 2
    ensures var child := ChildDifficulty(parent, parentTime, time, uncles, durationLimit, div, min, true);
            Retargets(parent, child, div, min)
  {
    DivSmaller(parent, div);
    assert parent > 0 ==> FloorDiv(parent, div) < parent;
  }

  /** The ten-minute reset applies. */
  predicate Resets(parentTime: nat, time: nat, rskip97: bool) {
    !rskip97 && time >= parentTime + 600
  }

  /**
   Short of the reset, the difficulty rises exactly for a block sooner than the duration limit times one more than its
   uncles, and falls exactly for a later one, unless it is at the minimum already.
   */
  lemma {:induction false} RetargetDirection(parent: nat, parentTime: nat, time: nat, uncles: nat,
                                             durationLimit: nat, div: nat, min: nat, rskip97: bool)
    requires 2 <= div <= parent && min <= parent && !Resets(parentTime, time, rskip97)
    ensures var child := ChildDifficulty(parent, parentTime, time, uncles, durationLimit, div, min, rskip97);
            var due := parentTime + (1 + uncles) * durationLimit;
            && (child > parent <==> parentTime <= time < due)
            && (child < parent <==> time > due && min < parent)
  {
    hide FloorDiv;
    DivAtLeast(parent, div, 1);
    DivSmaller(parent, div);
  }

  lemma {:induction false} LaterIsNoHarder(parent: nat, parentTime: nat, time: nat, later: nat, uncles: nat,
                                           durationLimit: nat, div: nat, min: nat, rskip97: bool)
    requires div >= 2 && parentTime <= time <= later
    requires min <= parent || (!rskip97 && durationLimit >= 600)
    ensures ChildDifficulty(parent, parentTime, later, uncles, durationLimit, div, min, rskip97) <=
            ChildDifficulty(parent, parentTime, time, uncles, durationLimit, div, min, rskip97)
  {
    hide FloorDiv;
    DivSmaller(parent, div);
    MulLe(1, 1 + uncles, durationLimit);
  }

  /**
   A later block never needs more difficulty, exactly when the parent is not below the minimum, or the reset comes
   before the one time at which such a parent's difficulty is carried over unclamped.
   */
  lemma {:induction false} LaterIsNoHarderIff(parent: nat, durationLimit: nat, div: nat, min: nat, rskip97: bool)
    requires div >= 2
    ensures min <= parent || (!rskip97 && durationLimit >= 600) <==>
            forall start: nat, time: nat, later: nat, uncles: nat :: start <= time <= later ==>
              ChildDifficulty(parent, start, later, uncles, durationLimit, div, min, rskip97) <=
              ChildDifficulty(parent, start, time, uncles, durationLimit, div, min, rskip97)
  {
    hide ChildDifficulty;
    if min <= parent || (!rskip97 && durationLimit >= 600) {
      forall start: nat, time: nat, later: nat, uncles: nat | start <= time <= later
        ensures ChildDifficulty(parent, start, later, uncles, durationLimit, div, min, rskip97) <=
                ChildDifficulty(parent, start, time, uncles, durationLimit, div, min, rskip97)
      {
        LaterIsNoHarder(parent, start, time, later, uncles, durationLimit, div, min, rskip97);
      }
    } else {
      UnclampedThenClamped(parent, durationLimit, 0, durationLimit + 1, div, min, rskip97);
    }
  }

  /** A parent below the minimum passes its difficulty on at exactly the due time, and the minimum once it falls. */
  lemma {:induction false} UnclampedThenClamped(parent: nat, durationLimit: nat, uncles: nat, time: nat, div: nat,
                                                min: nat, rskip97: bool)
    requires div >= 2 && parent < min
    ensures var due := (1 + uncles) * durationLimit;
            !Resets(0, due, rskip97) ==>
              ChildDifficulty(parent, 0, due, uncles, durationLimit, div, min, rskip97) == parent
    ensures time > (1 + uncles) * durationLimit ==>
              ChildDifficulty(parent, 0, time, uncles, durationLimit, div, min, rskip97) == min
  {
    hide FloorDiv;
    DivSmaller(parent, div);
  }

  lemma {:induction false} UnclesNeverEase(parent: nat, parentTime: nat, time: nat, uncles: nat, more: nat,
                                           durationLimit: nat, div: nat, min: nat, rskip97: bool)
    requires div >= 2 && uncles <= more
    requires min <= parent || durationLimit == 0 || (!rskip97 && 2 * durationLimit >= 600)
    ensures ChildDifficulty(parent, parentTime, time, uncles, durationLimit, div, min, rskip97) <=
            ChildDifficulty(parent, parentTime, time, more, durationLimit, div, min, rskip97)
  {
    hide FloorDiv;
    DivSmaller(parent, div);
    MulLe(1 + uncles, 1 + more, durationLimit);
    if uncles < more {
      MulLe(2, 1 + more, durationLimit);
    }
  }

  /** More uncles never lower the difficulty demanded, under the same kind of condition. */
  lemma {:induction false} UnclesNeverEaseIff(parent: nat, durationLimit: nat, div: nat, min: nat, rskip97: bool)
    requires div >= 2
    ensures min <= parent || durationLimit == 0 || (!rskip97 && 2 * durationLimit >= 600) <==>
            forall start: nat, time: nat, uncles: nat, more: nat :: uncles <= more ==>
              ChildDifficulty(parent, start, time, uncles, durationLimit, div, min, rskip97) <=
              ChildDifficulty(parent, start, time, more, durationLimit, div, min, rskip97)
  {
    hide ChildDifficulty;
    if min <= parent || durationLimit == 0 || (!rskip97 && 2 * durationLimit >= 600) {
      forall start: nat, time: nat, uncles: nat, more: nat | uncles <= more
        ensures ChildDifficulty(parent, start, time, uncles, durationLimit, div, min, rskip97) <=
                ChildDifficulty(parent, start, time, more, durationLimit, div, min, rskip97)
      {
        UnclesNeverEase(parent, start, time, uncles, more, durationLimit, div, min, rskip97);
      }
    } else {
      UnclampedThenClamped(parent, durationLimit, 1, 2 * durationLimit, div, min, rskip97);
      UnclampedThenClamped(parent, durationLimit, 0, 2 * durationLimit, div, min, rskip97);
    }
  }

  /** What the upper bound uses of a step: it falls by at most one quotient, and rises by at most one unless clamped. */
  ghost predicate Bounded(parent: nat, child: nat, div: nat, min: nat)
    requires div >= 2
  {
    Fall(parent, div) <= child && child <= Max(min, parent + FloorDiv(parent, div))
  }

  /** `ds` are the difficulties of the blocks after one of difficulty `from`, each a step of the rule. */
  ghost predicate ValidChain(from: nat, ds: seq<nat>, div: nat, min: nat)
    requires div >= 2
    decreases ds
  {
    ds == [] || (Retargets(from, ds[0], div, min) && ValidChain(ds[0], ds[1..], div, min))
  }

  ghost predicate BoundedChain(from: nat, ds: seq<nat>, div: nat, min: nat)
    requires div >= 2
    decreases ds
  {
    ds == [] || (Bounded(from, ds[0], div, min) && BoundedChain(ds[0], ds[1..], div, min))
  }

  /** The relaxed rule: any move of at most one quotient, never below the minimum. */
  ghost predicate Relaxed(parent: nat, child: nat, div: nat, min: nat)
    requires div >= 2
  {
    Fall(parent, div) <= child <= parent + FloorDiv(parent, div) && min <= child
  }

  ghost predicate RelaxedChain(from: nat, ds: seq<nat>, div: nat, min: nat)
    requires div >= 2
    decreases ds
  {
    ds == [] || (Relaxed(from, ds[0], div, min) && RelaxedChain(ds[0], ds[1..], div, min))
  }

  ghost predicate Fits(ds: seq<nat>) {
    forall i :: 0 <= i < |ds| ==> ds[i] <= MAX256
  }

  function Last(from: nat, ds: seq<nat>): (r: nat) {
    if ds == [] then from else ds[|ds| - 1]
  }

  lemma {:induction false} ValidIsBounded(from: nat, ds: seq<nat>, div: nat, min: nat)
    requires div >= 2 && ValidChain(from, ds, div, min)
    ensures BoundedChain(from, ds, div, min)
    decreases ds
  {
    if ds != [] {
      DivSmaller(from, div);
      ValidIsBounded(ds[0], ds[1..], div, min);
    }
  }

  lemma {:induction false} RelaxedIsBounded(from: nat, ds: seq<nat>, div: nat, min: nat)
    requires div >= 2 && RelaxedChain(from, ds, div, min)
    ensures BoundedChain(from, ds, div, min)
    decreases ds
  {
    if ds != [] {
      RelaxedIsBounded(ds[0], ds[1..], div, min);
    }
  }

  // ----- the inverse of a maximal fall

  /** One step back from `y`: the checked product over `div - 1`, or the largest word when it overflows. */
  function Unfall(y: U256, div: nat): (r: U256)
    requires div >= 2
  {
    if y * div <= MAX256 then UnfallFits(y, div); FloorDiv(y * div, div - 1) else MAX256
  }

  lemma {:induction false} UnfallFits(y: nat, div: nat)
    requires div >= 2
    ensures 0 <= FloorDiv(y * div, div - 1) <= y * div
  {
    DivSmaller(y * div, div - 1);
  }

  lemma {:induction false} DivMono(x: nat, y: nat, div: nat)
    requires div >= 2 && x <= y
    ensures FloorDiv(x, div) <= FloorDiv(y, div) <= FloorDiv(x, div) + (y - x)
  {
    hide FloorDiv;
    var q := FloorDiv(x, div);
    DivAtLeast(y, div, q);
    MulLe(1, div, y - x);
    assert (q + (y - x) + 1) * div == q * div + (y - x) * div + div;
    DivBelow(y, div, q + (y - x) + 1);
  }

  /** The rounded inverse is exact: it is the largest difficulty one fall takes to `y` or below. */
  lemma {:induction false} UnfallExact(x: nat, y: nat, div: nat)
    requires div >= 2
    ensures Fall(x, div) <= y <==> x <= FloorDiv(y * div, div - 1)
  {
    hide FloorDiv;
    var k, q := div - 1, FloorDiv(x, div);
    assert x * div == x * k + x;
    if Fall(x, div) <= y {
      MulLe(x - q, y, div);
      assert (x - q) * div == x * div - q * div;
      DivAtLeast(y * div, k, x);
    }
    if x <= FloorDiv(y * div, k) && x > y {
      MulLe(x, FloorDiv(y * div, k), k);
      assert (x - y) * div == x * div - y * div;
      DivAtLeast(x, div, x - y);
    }
  }

  // ----- the two passes of the bound, as functions

  /** The ceiling on a block with `left` blocks still to come before the one of difficulty `to`. */
  function Cap(to: U256, left: nat, div: nat): (r: U256)
    requires div >= 2
  {
    if left == 0 then to else Unfall(Cap(to, left - 1, div), div)
  }

  /** One quotient up, saturating. */
  function Rise(d: U256, div: nat): (r: U256)
    requires div >= 2
  {
    DivSmaller(d, div);
    SatAdd(d, FloorDiv(d, div))
  }

  /** The highest difficulty the next block may take under a given ceiling. */
  function Next(d: U256, cap: U256, div: nat, min: U256): (r: U256)
    requires div >= 2
  {
    Max(min, Min(Rise(d, div), cap))
  }

  function Greedy(from: U256, to: U256, span: nat, div: nat, min: U256): (r: seq<nat>)
    requires div >= 2
    ensures |r| == span
    decreases span
  {
    if span == 0 then []
    else
      var d := Next(from, Cap(to, span - 1, div), div, min);
      [d] + Greedy(d, to, span - 1, div, min)
  }

  /** The unsaturated work of the greedy walk. */
  function Work(from: U256, to: U256, span: nat, div: nat, min: U256): (r: nat)
    requires div >= 2
    decreases span
  {
    if span == 0 then 0
    else
      var d := Next(from, Cap(to, span - 1, div), div, min);
      d + Work(d, to, span - 1, div, min)
  }

  lemma {:induction false} WorkUnfold(from: U256, to: U256, left: nat, div: nat, min: U256)
    requires div >= 2
    ensures var d := Next(from, Cap(to, left, div), div, min);
            Work(from, to, left + 1, div, min) == d + Work(d, to, left, div, min)
  {
  }

  lemma {:induction false} WorkNothing(from: U256, to: U256, div: nat, min: U256)
    requires div >= 2
    ensures Work(from, to, 0, div, min) == 0
  {
  }

  lemma {:induction false} WorkIsSum(from: U256, to: U256, span: nat, div: nat, min: U256)
    requires div >= 2
    ensures Work(from, to, span, div, min) == Sum(Greedy(from, to, span, div, min))
    decreases span
  {
    if span > 0 {
      var d := Next(from, Cap(to, span - 1, div), div, min);
      WorkIsSum(d, to, span - 1, div, min);
      assert Greedy(from, to, span, div, min)[1..] == Greedy(d, to, span - 1, div, min);
    }
  }

  // ----- the code

  /** The backward pass: `cap[i]` is the ceiling of the `i`-th block after `from`. */
  method BuildCaps(to: U256, span: nat, div: nat) returns (cap: seq<U256>)
    requires div >= 2
    ensures |cap| == span + 1
    ensures forall j :: 0 <= j <= span ==> cap[j] == Cap(to, span - j, div)
  {
    var a := new U256[span + 1](_ => 0);
    a[span] := to;
    var i := span;
    while i > 0
      invariant 0 <= i <= span
      invariant forall j :: i <= j <= span ==> a[j] == Cap(to, span - j, div)
    {
      i := i - 1;
      a[i] := Unfall(a[i + 1], div);
    }
    cap := a[..];
  }

  /** Saturating as it goes is the same as saturating at the end. */
  lemma {:induction false} AddStep(t: U256, d: U256, to: U256, left: nat, div: nat, min: U256)
    requires div >= 2 && left > 0
    ensures var e := Next(d, Cap(to, left - 1, div), div, min);
            Clip(t + Work(d, to, left, div, min)) == Clip(SatAdd(t, e) + Work(e, to, left - 1, div, min))
  {
  }

  /** `max_work_between`: fill `cap` backwards, then walk forwards under it. */
  method MaxWorkBetween(from: U256, to: U256, span: nat, divisor: nat, min: U256) returns (total: U256)
    ensures span == 0 || divisor < 2 ==> total == 0
    ensures span > 0 && divisor >= 2 ==> total == Clip(Work(from, to, span, divisor, min))
  {
    hide Work, Cap, Rise, Clip;
    if span == 0 || divisor < 2 {
      return 0;
    }
    var cap := BuildCaps(to, span, divisor);
    total := 0;
    var d: U256 := from;
    for step := 1 to span + 1
      invariant Clip(total + Work(d, to, span + 1 - step, divisor, min)) == Clip(Work(from, to, span, divisor, min))
    {
      AddStep(total, d, to, span + 1 - step, divisor, min);
      var next: U256 := Min(Rise(d, divisor), cap[step]);
      if next < min {
        next := min;
      }
      assert next == Next(d, Cap(to, span - step, divisor), divisor, min);
      d := next;
      total := SatAdd(total, d);
    }
    WorkNothing(d, to, divisor, min);
    ClipOfWord(total);
  }

  lemma {:induction false} ClipOfWord(t: U256)
    ensures Clip(t) == t
  {
  }

  // ----- the upper bound

  lemma {:induction false} UnfallCovers(x: nat, y: U256, div: nat)
    requires div >= 2 && x <= MAX256 && Fall(x, div) <= y
    ensures x <= Unfall(y, div)
  {
    UnfallExact(x, y, div);
  }

  /** A block from which the rule can still come down to `to` in time is under its ceiling. */
  lemma {:induction false} ChainUnderCap(d: nat, ds: seq<nat>, to: U256, div: nat, min: nat)
    requires div >= 2 && BoundedChain(d, ds, div, min) && Last(d, ds) <= to
    requires d <= MAX256 && Fits(ds)
    ensures d <= Cap(to, |ds|, div)
    decreases ds
  {
    if ds != [] {
      ChainUnderCap(ds[0], ds[1..], to, div, min);
      UnfallCovers(d, Cap(to, |ds| - 1, div), div);
    }
  }

  lemma {:induction false} RiseMono(x: nat, y: nat, div: nat)
    requires div >= 2 && x <= y
    ensures x + FloorDiv(x, div) <= y + FloorDiv(y, div)
  {
    DivMono(x, y, div);
  }

  /** The greedy step is above any bounded step taken from no higher and under the same ceiling. */
  lemma {:induction false} NextCovers(start: nat, from: U256, child: nat, cap: U256, div: nat, min: U256)
    requires div >= 2 && start <= from && Bounded(start, child, div, min) && child <= cap
    ensures child <= Next(from, cap, div, min)
  {
    RiseMono(start, from, div);
  }

  /** The greedy walk dominates every chain that starts no higher and ends at or below `to`. */
  lemma {:induction false} WorkCoversChain(start: nat, from: U256, ds: seq<nat>, to: U256, div: nat, min: U256)
    requires div >= 2 && start <= from && BoundedChain(start, ds, div, min) && Last(start, ds) <= to
    requires Fits(ds)
    ensures Sum(ds) <= Work(from, to, |ds|, div, min)
    decreases ds
  {
    if ds != [] {
      ChainUnderCap(ds[0], ds[1..], to, div, min);
      var d := Next(from, Cap(to, |ds| - 1, div), div, min);
      NextCovers(start, from, ds[0], Cap(to, |ds| - 1, div), div, min);
      WorkCoversChain(ds[0], d, ds[1..], to, div, min);
    }
  }

  /** The result of `max_work_between` on its own terms. */
  function Bound(from: U256, to: U256, span: nat, div: nat, min: U256): (r: U256) {
    if span == 0 || div < 2 then 0 else Clip(Work(from, to, span, div, min))
  }

  /** No chain obeying the retarget rule carries more than the bound, unless the bound is the largest word there is. */
  lemma {:induction false} BoundIsSound(from: U256, ds: seq<nat>, to: U256, div: nat, min: U256)
    requires div >= 2 && ValidChain(from, ds, div, min) && Last(from, ds) <= to && Fits(ds)
    ensures Sum(ds) <= Bound(from, to, |ds|, div, min) || Bound(from, to, |ds|, div, min) == MAX256
  {
    ValidIsBounded(from, ds, div, min);
    WorkCoversChain(from, from, ds, to, div, min);
    if ds == [] {
      assert Sum(ds) == 0;
    }
  }

  // ----- the bound is attained by the relaxed rule

  /** No step back from `to` overflows within the span. */
  ghost predicate CapsExact(to: U256, span: nat, div: nat)
    requires div >= 2
  {
    forall left :: 0 <= left < span ==> Cap(to, left, div) * div <= MAX256
  }

  lemma {:induction false} UnfallGrows(y: U256, div: nat)
    requires div >= 2
    ensures y <= Unfall(y, div)
  {
    UnfallCovers(y, y, div);
  }

  lemma {:induction false} CapAbove(to: U256, left: nat, div: nat)
    requires div >= 2
    ensures to <= Cap(to, left, div)
  {
    if left > 0 {
      CapAbove(to, left - 1, div);
      UnfallGrows(Cap(to, left - 1, div), div);
    }
  }

  lemma {:induction false} NextIsRelaxed(from: U256, cap: U256, div: nat, min: U256)
    requires div >= 2 && min <= from && min <= cap && cap * div <= MAX256 && from <= Unfall(cap, div)
    ensures Relaxed(from, Next(from, cap, div, min), div, min) && Next(from, cap, div, min) <= cap
  {
    UnfallExact(from, cap, div);
    DivSmaller(from, div);
  }

  /** The greedy walk is itself a chain of the relaxed rule that comes down to `to`. */
  lemma {:induction false} GreedyIsRelaxed(from: U256, to: U256, span: nat, div: nat, min: U256)
    requires div >= 2 && min <= from && min <= to && CapsExact(to, span, div) && from <= Cap(to, span, div)
    ensures RelaxedChain(from, Greedy(from, to, span, div, min), div, min)
    ensures Last(from, Greedy(from, to, span, div, min)) <= to
    decreases span
  {
    if span > 0 {
      hide Next, Unfall, Relaxed;
      var cap := Cap(to, span - 1, div);
      var d := Next(from, cap, div, min);
      CapAbove(to, span - 1, div);
      NextIsRelaxed(from, cap, div, min);
      GreedyIsRelaxed(d, to, span - 1, div, min);
      var ds := Greedy(from, to, span, div, min);
      assert ds[0] == d && ds[1..] == Greedy(d, to, span - 1, div, min);
      LastTail(from, ds);
    }
  }

  /** A way for the relaxed rule to get from `from` to `to` or below in `span` blocks. */
  ghost predicate Descends(from: nat, ds: seq<nat>, to: nat, span: nat, div: nat, min: nat)
    requires div >= 2
  {
    |ds| == span && RelaxedChain(from, ds, div, min) && Last(from, ds) <= to && Fits(ds)
  }

  /**
   Where no step overflows, the relaxed rule can get from `from` to `to` exactly when `from` is under the first
   ceiling, and then the work computed is the maximum over every way of doing so.
   */
  lemma {:induction false} BoundIsMaximum(from: U256, to: U256, span: nat, div: nat, min: U256)
    requires div >= 2 && min <= from && min <= to && CapsExact(to, span, div)
    ensures from <= Cap(to, span, div) <==> exists ds :: Descends(from, ds, to, span, div, min)
    ensures from <= Cap(to, span, div) ==>
              exists ds :: Descends(from, ds, to, span, div, min) && Sum(ds) == Work(from, to, span, div, min)
    ensures forall ds :: Descends(from, ds, to, span, div, min) ==> Sum(ds) <= Work(from, to, span, div, min)
  {
    forall ds | Descends(from, ds, to, span, div, min)
      ensures Sum(ds) <= Work(from, to, span, div, min) && from <= Cap(to, span, div)
    {
      RelaxedIsBounded(from, ds, div, min);
      WorkCoversChain(from, from, ds, to, div, min);
      ChainUnderCap(from, ds, to, div, min);
    }
    if from <= Cap(to, span, div) {
      GreedyIsRelaxed(from, to, span, div, min);
      GreedyFits(from, to, span, div, min);
      WorkIsSum(from, to, span, div, min);
      assert Descends(from, Greedy(from, to, span, div, min), to, span, div, min);
    }
  }

  lemma {:induction false} GreedyFits(from: U256, to: U256, span: nat, div: nat, min: U256)
    requires div >= 2
    ensures Fits(Greedy(from, to, span, div, min))
    decreases span
  {
    if span > 0 {
      GreedyFits(Next(from, Cap(to, span - 1, div), div, min), to, span - 1, div, min);
    }
  }

  // ----- a true sample in between never loosens the bound

  lemma {:induction false} CapSplit(to: U256, a: nat, b: nat, div: nat)
    requires div >= 2
    ensures Cap(Cap(to, b, div), a, div) == Cap(to, a + b, div)
  {
    if a > 0 {
      CapSplit(to, a - 1, b, div);
    }
  }

  lemma {:induction false} UnfallMono(x: U256, y: U256, div: nat)
    requires div >= 2 && x <= y
    ensures Unfall(x, div) <= Unfall(y, div)
  {
    if y * div <= MAX256 {
      assert x * div <= y * div by { MulLe(x, y, div); }
      UnfallExact(Unfall(x, div), x, div);
      UnfallCovers(Unfall(x, div), y, div);
    }
  }

  lemma {:induction false} CapMono(x: U256, y: U256, left: nat, div: nat)
    requires div >= 2 && x <= y
    ensures Cap(x, left, div) <= Cap(y, left, div)
  {
    if left > 0 {
      CapMono(x, y, left - 1, div);
      UnfallMono(Cap(x, left - 1, div), Cap(y, left - 1, div), div);
    }
  }

  lemma {:induction false} NextMono(d: U256, e: U256, cap: U256, cap': U256, div: nat, min: U256)
    requires div >= 2 && d <= e && cap <= cap'
    ensures Next(d, cap, div, min) <= Next(e, cap', div, min)
  {
    RiseMono(d, e, div);
  }

  lemma {:induction false} WorkMono(from: U256, from': U256, to: U256, to': U256, span: nat, div: nat, min: U256)
    requires div >= 2 && from <= from' && to <= to'
    ensures Work(from, to, span, div, min) <= Work(from', to', span, div, min)
    decreases span
  {
    if span > 0 {
      var cap, cap' := Cap(to, span - 1, div), Cap(to', span - 1, div);
      CapMono(to, to', span - 1, div);
      NextMono(from, from', cap, cap', div, min);
      WorkMono(Next(from, cap, div, min), Next(from', cap', div, min), to, to', span - 1, div, min);
    }
  }

  lemma {:induction false} LastTail(d: nat, ds: seq<nat>)
    requires ds != []
    ensures Last(d, ds) == Last(ds[0], ds[1..])
  {
  }

  /** One step of the joined walk stays above the shorter walk and above the chain. */
  lemma {:induction false} SplitStep(start: nat, low: U256, high: U256, ds: seq<nat>, b: U256, c: U256, rest: nat,
                                     div: nat, min: U256)
    requires div >= 2 && start <= high && low <= high && ds != []
    requires BoundedChain(start, ds, div, min) && Last(start, ds) == b && b <= Cap(c, rest, div) && Fits(ds)
    ensures Next(low, Cap(b, |ds| - 1, div), div, min) <= Next(high, Cap(c, |ds| - 1 + rest, div), div, min)
    ensures ds[0] <= Next(high, Cap(c, |ds| - 1 + rest, div), div, min)
  {
    var n := |ds| - 1;
    hide Next, Unfall, Cap, Bounded;
    CapMono(b, Cap(c, rest, div), n, div);
    CapSplit(c, n, rest, div);
    LastTail(start, ds);
    ChainUnderCap(ds[0], ds[1..], b, div, min);
    NextMono(low, high, Cap(b, n, div), Cap(c, n + rest, div), div, min);
    NextCovers(start, high, ds[0], Cap(c, n + rest, div), div, min);
  }

  /** The joined walk stays above both halves: `low` walks to `b`, `high` walks past it, and `ds` passes through `b`. */
  lemma {:induction false} WorkSplit(start: nat, low: U256, high: U256, ds: seq<nat>, b: U256, c: U256, rest: nat,
                                     div: nat, min: U256)
    requires div >= 2 && start <= high && low <= high
    requires BoundedChain(start, ds, div, min) && Last(start, ds) == b && b <= Cap(c, rest, div) && Fits(ds)
    ensures Work(low, b, |ds|, div, min) + Work(b, c, rest, div, min) <= Work(high, c, |ds| + rest, div, min)
    decreases ds
  {
    hide Next, Unfall, Cap, Bounded, Work;
    if ds == [] {
      WorkNothing(low, b, div, min);
      WorkMono(b, high, c, c, rest, div, min);
    } else {
      var n := |ds| - 1;
      var d := Next(low, Cap(b, n, div), div, min);
      var e := Next(high, Cap(c, n + rest, div), div, min);
      SplitStep(start, low, high, ds, b, c, rest, div, min);
      LastTail(start, ds);
      WorkSplit(ds[0], d, e, ds[1..], b, c, rest, div, min);
      WorkUnfold(low, b, n, div, min);
      WorkUnfold(high, c, n + rest, div, min);
    }
  }

  lemma {:induction false} ClipSum(x: nat, y: nat, z: nat)
    requires x + y <= z
    ensures SatAdd(Clip(x), Clip(y)) <= Clip(z)
  {
  }

  lemma {:induction false} BoundIsClip(from: U256, to: U256, span: nat, div: nat, min: U256)
    requires div >= 2
    ensures Bound(from, to, span, div, min) == Clip(Work(from, to, span, div, min))
  {
  }

  lemma {:induction false} WorkTightens(a: U256, first: seq<nat>, b: U256, second: seq<nat>, c: U256, div: nat,
                                        min: U256)
    requires div >= 2 && ValidChain(a, first, div, min) && Last(a, first) == b && Fits(first)
    requires ValidChain(b, second, div, min) && Last(b, second) <= c && Fits(second)
    ensures Work(a, b, |first|, div, min) + Work(b, c, |second|, div, min) <= Work(a, c, |first| + |second|, div, min)
  {
    hide Next, Unfall, Cap, Retargets, Bounded, Work;
    ValidIsBounded(a, first, div, min);
    ValidIsBounded(b, second, div, min);
    ChainUnderCap(b, second, c, div, min);
    WorkSplit(a, a, a, first, b, c, |second|, div, min);
  }

  /**
   On one valid chain through difficulties `a`, `b` and on to `c` or below, sampling `b` never loosens the bound.
   */
  lemma {:induction false} SampleTightens(a: U256, first: seq<nat>, b: U256, second: seq<nat>, c: U256, div: nat,
                                          min: U256)
    requires div >= 2 && ValidChain(a, first, div, min) && Last(a, first) == b && Fits(first)
    requires ValidChain(b, second, div, min) && Last(b, second) <= c && Fits(second)
    ensures SatAdd(Bound(a, b, |first|, div, min), Bound(b, c, |second|, div, min))
         <= Bound(a, c, |first| + |second|, div, min)
  {
    hide Work, Cap, Next, Unfall, Retargets, ValidChain, Clip, Bound;
    var n, m := |first|, |second|;
    WorkTightens(a, first, b, second, c, div, min);
    BoundIsClip(a, b, n, div, min);
    BoundIsClip(b, c, m, div, min);
    BoundIsClip(a, c, n + m, div, min);
    ClipSum(Work(a, b, n, div, min), Work(b, c, m, div, min), Work(a, c, n + m, div, min));
  }

  // ----- the ten-minute reset

  /** The header fields a miner chooses that the rule reads. */
  datatype Header = Header(time: nat, uncles: nat)

  /** The difficulties the validator demands of a run of headers. */
  function Demanded(from: nat, time: nat, headers: seq<Header>, limit: nat, div: nat, min: nat,
                    rskip97: bool): (r: seq<nat>)
    requires div >= 2
    ensures |r| == |headers|
    decreases headers
  {
    if headers == [] then []
    else
      var d := ChildDifficulty(from, time, headers[0].time, headers[0].uncles, limit, div, min, rskip97);
      [d] + Demanded(d, headers[0].time, headers[1..], limit, div, min, rskip97)
  }

  lemma {:induction false} DemandedIsValid(from: nat, time: nat, headers: seq<Header>, limit: nat, div: nat, min: nat)
    requires div >= 2
    ensures ValidChain(from, Demanded(from, time, headers, limit, div, min, true), div, min)
    decreases headers
  {
    if headers != [] {
      var h := headers[0];
      ValidatorRetargets(from, time, h.time, h.uncles, limit, div, min);
      var d := ChildDifficulty(from, time, h.time, h.uncles, limit, div, min, true);
      DemandedIsValid(d, h.time, headers[1..], limit, div, min);
      var ds := Demanded(from, time, headers, limit, div, min, true);
      assert ds[1..] == Demanded(d, h.time, headers[1..], limit, div, min, true);
    }
  }

  /** The bound holds for the work of the headers given, aimed at the last of them. */
  ghost predicate Holds(from: U256, ds: seq<nat>, div: nat, min: U256) {
    Fits(ds) ==>
      var b := Bound(from, Last(from, ds), |ds|, div, min);
      Sum(ds) <= b || b == MAX256
  }

  /** Every header is later than the one before it, as the timestamp rule wants them. */
  ghost predicate Ascending(time: nat, headers: seq<Header>)
    decreases headers
  {
    headers == [] || (headers[0].time > time && Ascending(headers[0].time, headers[1..]))
  }

  /** With RSKIP97 active the bound holds over every choice of timestamps and uncle counts. */
  lemma {:induction false} BoundHoldsWithoutReset(from: U256, time: nat, headers: seq<Header>, limit: nat, div: nat,
                                                  min: U256)
    requires div >= 2
    ensures Holds(from, Demanded(from, time, headers, limit, div, min, true), div, min)
  {
    var ds := Demanded(from, time, headers, limit, div, min, true);
    DemandedIsValid(from, time, headers, limit, div, min);
    if Fits(ds) {
      BoundIsSound(from, ds, Last(from, ds), div, min);
    }
  }

  /**
   Over every choice of uncle counts and ascending timestamps, the bound holds exactly when RSKIP97 is active. Before
   it, a block may fall to the minimum from any height, and a high block followed by such a fall carries more than the
   bound.
   */
  lemma {:induction false} BoundHoldsIffNoReset(limit: nat, div: nat, min: U256, rskip97: bool)
    requires div >= 2 && min * div <= MAX256 && 8 * min + 8 <= MAX256
    ensures rskip97 <==>
            forall from: U256, time: nat, headers :: Ascending(time, headers) ==>
              Holds(from, Demanded(from, time, headers, limit, div, min, rskip97), div, min)
  {
    if rskip97 {
      forall from: U256, time: nat, headers: seq<Header>
        ensures Holds(from, Demanded(from, time, headers, limit, div, min, true), div, min)
      {
        BoundHoldsWithoutReset(from, time, headers, limit, div, min);
      }
    } else {
      var from, time, headers := ResetBreaksBound(limit, div, min);
    }
  }

  lemma {:induction false} ResetBreaksBound(limit: nat, div: nat, min: U256)
    returns (from: U256, time: nat, headers: seq<Header>)
    requires div >= 2 && min * div <= MAX256 && 8 * min + 8 <= MAX256
    ensures Ascending(time, headers) && !Holds(from, Demanded(from, time, headers, limit, div, min, false), div, min)
  {
    hide Bound, ChildDifficulty;
    from, time := 4 * min + 2, 1;
    var first, second := Header(2, 0), Header(602, 0);
    headers := [first, second];
    assert headers[1..] == [second] && headers[1..][1..] == [];
    assert Ascending(602, []) && Ascending(2, [second]) && Ascending(1, headers);
    var d := ChildDifficulty(from, 1, 2, 0, limit, div, min, false);
    assert ChildDifficulty(d, 2, 602, 0, limit, div, min, false) == min by { ResetToMinimum(d, limit, div, min); }
    assert Demanded(d, 2, [second], limit, div, min, false) == [min] + Demanded(min, 602, [], limit, div, min, false);
    var ds := Demanded(from, 1, headers, limit, div, min, false);
    assert ds == [d, min];
    OneQuotientAtMost(from, limit, div, min);
    ResetBeatsBound(from, d, min, div);
  }

  lemma {:induction false} ResetToMinimum(d: nat, limit: nat, div: nat, min: nat)
    requires div >= 2
    ensures ChildDifficulty(d, 2, 602, 0, limit, div, min, false) == min
  {
  }

  /** The block before the fall is at least half its parent, and at most half as much again. */
  lemma {:induction false} OneQuotientAtMost(from: nat, limit: nat, div: nat, min: nat)
    requires div >= 2 && from == 4 * min + 2
    ensures 2 * min < ChildDifficulty(from, 1, 2, 0, limit, div, min, false) <= 6 * min + 3
  {
    hide FloorDiv;
    MulLe(2, div, 2 * min + 2);
    DivBelow(from, div, 2 * min + 2);
  }

  lemma {:induction false} ResetBeatsBound(from: U256, d: U256, min: U256, div: nat)
    requires div >= 2 && min * div <= MAX256 && 8 * min + 8 <= MAX256 && from == 4 * min + 2 && d > 2 * min
    ensures Sum([d, min]) > Bound(from, min, 2, div, min) && Bound(from, min, 2, div, min) < MAX256
  {
    assert Sum([d, min]) == d + min by {
      assert [d, min][1..] == [min] && [min][1..] == [];
      assert Sum([min]) == min;
    }
    var cap := Cap(min, 1, div);
    assert cap == Unfall(Cap(min, 0, div), div) == Unfall(min, div);
    UnfallAtMostDouble(min, div);
    var e := Next(from, cap, div, min);
    assert e <= 2 * min;
    LastStep(e, min, div);
  }

  lemma {:induction false} LastStep(d: U256, min: U256, div: nat)
    requires div >= 2
    ensures Work(d, min, 1, div, min) == min
  {
    assert Work(Next(d, min, div, min), min, 0, div, min) == 0;
  }

  lemma {:induction false} UnfallAtMostDouble(y: nat, div: nat)
    requires div >= 2
    ensures FloorDiv(y * div, div - 1) <= 2 * y
  {
    hide FloorDiv;
    var k := div - 1;
    MulLe(1, k, y + 1);
    assert (2 * y + 1) * k == y * k + (y + 1) * k && y * div == y * k + y;
    DivBelow(y * div, k, 2 * y + 1);
  }
}
