/**
 The ceiling from above: on samples a chain could carry it is exactly the heaviest work the relaxed rule allows, so a
 claim is refused if and only if it exceeds that (crates/core/src/checkpoint.rs).
 */
module JudgeExact {
  import opened Words
  import opened WorkCeiling
  import opened UncleAllowance
  import opened Judge

  /** The samples that count: each above the checkpoint and above every one that counted before it. */
  function Used(at: nat, samples: seq<Sample>): (r: seq<Sample>)
    ensures |r| <= |samples|
    decreases samples
  {
    if samples == [] then []
    else if samples[0].number <= at then Used(at, samples[1..])
    else [samples[0]] + Used(samples[0].number, samples[1..])
  }

  /** The last sampled height and difficulty before the `i`-th gap. */
  function Before(cp: Checkpoint, used: seq<Sample>, i: nat): (r: (nat, U256))
    requires i <= |used|
  {
    if i == 0 then (cp.number, cp.difficulty) else (used[i - 1].number, used[i - 1].difficulty)
  }

  /** A way down to `to` in `span` blocks that no other way outweighs. */
  ghost predicate Heaviest(from: nat, ds: seq<nat>, to: nat, span: nat, div: nat, min: nat)
    requires div >= 2
  {
    && Descends(from, ds, to, span, div, min)
    && forall es :: Descends(from, es, to, span, div, min) ==> Sum(es) <= Sum(ds)
  }

  /** Up by one whole quotient at every block, within a word. */
  ghost predicate Climbs(from: nat, ds: seq<nat>, div: nat)
    requires div >= 2
    decreases ds
  {
    ds == [] || (ds[0] == from + FloorDiv(from, div) <= MAX256 && Climbs(ds[0], ds[1..], div))
  }

  /** Some chain of the relaxed rule runs between the two difficulties, and no step back overflows on the way. */
  ghost predicate GapWalkable(from: U256, to: U256, span: nat, div: nat, min: U256)
    requires div >= 2
  {
    && min <= from && min <= to && CapsExact(to, span, div)
    && exists ds :: Descends(from, ds, to, span, div, min)
  }

  ghost predicate TailWalkable(from: U256, span: nat, div: nat, min: U256)
    requires div >= 2
  {
    min <= from && exists ds :: |ds| == span && Climbs(from, ds, div)
  }

  /** Blocks past the last sample. */
  function Tail(at: nat, head: nat): (r: nat) {
    if head > at then head - at else 0
  }

  ghost predicate WalkableAt(cp: Checkpoint, used: seq<Sample>, i: nat, div: nat, min: U256)
    requires div >= 2 && i < |used|
  {
    && Before(cp, used, i).0 < used[i].number
    && GapWalkable(Before(cp, used, i).1, used[i].difficulty, used[i].number - Before(cp, used, i).0, div, min)
  }

  ghost predicate Walkable(cp: Checkpoint, used: seq<Sample>, head: nat, div: nat, min: U256)
    requires div >= 2
  {
    && (forall i: nat :: i < |used| ==> WalkableAt(cp, used, i, div, min))
    && TailWalkable(Before(cp, used, |used|).1, Tail(Before(cp, used, |used|).0, head), div, min)
  }

  /** What a stretch of these difficulties is allowed, uncles included; the product is a word. */
  function Allowed(ds: seq<nat>, allowance: nat): (r: nat) {
    FloorDiv(Min(allowance * Sum(ds), MAX256), 1_000)
  }

  function AllowedAll(gaps: seq<seq<nat>>, allowance: nat): (r: nat) {
    if gaps == [] then 0 else Allowed(gaps[0], allowance) + AllowedAll(gaps[1..], allowance)
  }

  ghost predicate HeaviestAt(cp: Checkpoint, used: seq<Sample>, i: nat, ds: seq<nat>, div: nat, min: U256)
    requires div >= 2 && i < |used|
  {
    && Before(cp, used, i).0 < used[i].number
    && Heaviest(Before(cp, used, i).1, ds, used[i].difficulty, used[i].number - Before(cp, used, i).0, div, min)
  }

  /** One heaviest chain for every gap, and one for the tail. */
  ghost predicate HeaviestWalk(cp: Checkpoint, used: seq<Sample>, head: nat, gaps: seq<seq<nat>>, tail: seq<nat>,
                               div: nat, min: U256)
    requires div >= 2
  {
    && |gaps| == |used|
    && (forall i: nat :: i < |used| ==> HeaviestAt(cp, used, i, gaps[i], div, min))
    && Heaviest(Before(cp, used, |used|).1, tail, MAX256, Tail(Before(cp, used, |used|).0, head), div, min)
  }

  // ----- one gap

  lemma {:induction false} GapIsHeaviest(from: U256, to: U256, span: nat, div: nat, min: U256) returns (ds: seq<nat>)
    requires div >= 2 && GapWalkable(from, to, span, div, min)
    ensures Heaviest(from, ds, to, span, div, min) && Sum(ds) == Work(from, to, span, div, min)
  {
    hide Descends, CapsExact, Work, Cap;
    BoundIsMaximum(from, to, span, div, min);
    ds :| Descends(from, ds, to, span, div, min) && Sum(ds) == Work(from, to, span, div, min);
  }

  lemma {:induction false} FreeCap(left: nat, div: nat)
    requires div >= 2
    ensures Cap(MAX256, left, div) == MAX256
  {
    if left > 0 {
      FreeCap(left - 1, div);
      MulLe(2, div, MAX256);
    }
  }

  /** With nothing to come down to, the walk climbs at every block. */
  lemma {:induction false} ClimbIsWork(from: U256, ds: seq<nat>, div: nat, min: U256)
    requires div >= 2 && min <= from && Climbs(from, ds, div)
    ensures Sum(ds) == Work(from, MAX256, |ds|, div, min)
    ensures RelaxedChain(from, ds, div, min) && Fits(ds)
    decreases ds
  {
    hide Cap;
    if ds != [] {
      FreeCap(|ds| - 1, div);
      WorkUnfold(from, MAX256, |ds| - 1, div, min);
      DivSmaller(from, div);
      ClimbIsWork(ds[0], ds[1..], div, min);
      assert forall i :: 0 <= i < |ds| ==> ds[i] <= MAX256 by {
        assert forall i :: 1 <= i < |ds| ==> ds[i] == ds[1..][i - 1];
      }
    } else {
      WorkNothing(from, MAX256, div, min);
    }
  }

  lemma {:induction false} TailIsHeaviest(from: U256, span: nat, div: nat, min: U256) returns (ds: seq<nat>)
    requires div >= 2 && TailWalkable(from, span, div, min)
    ensures Heaviest(from, ds, MAX256, span, div, min) && Sum(ds) == Work(from, MAX256, span, div, min)
  {
    hide Work, Climbs;
    ds :| |ds| == span && Climbs(from, ds, div);
    ClimbIsWork(from, ds, div, min);
    assert Last(from, ds) <= MAX256;
    forall es | Descends(from, es, MAX256, span, div, min)
      ensures Sum(es) <= Sum(ds)
    {
      RelaxedIsBounded(from, es, div, min);
      WorkCoversChain(from, from, es, MAX256, div, min);
    }
  }

  /** Saturating the bound before scaling it is the same as saturating the product. */
  lemma {:induction false} ScaleIsAllowed(work: nat, ds: seq<nat>, allowance: U256)
    requires work == Sum(ds) && 1 <= allowance
    ensures Scale(Clip(work), allowance) == Allowed(ds, allowance)
  {
    hide FloorDiv;
    if work > MAX256 {
      MulLe(1, allowance, work);
      MulLe(1, allowance, MAX256);
    }
  }

  lemma {:induction false} GapPays(from: U256, to: U256, span: nat, div: nat, min: U256, ds: seq<nat>, allowance: U256)
    requires div >= 2 && Sum(ds) == Work(from, to, span, div, min) && 1 <= allowance && |ds| == span
    ensures Scale(Bound(from, to, span, div, min), allowance) == Allowed(ds, allowance)
  {
    hide Work, Scale, Allowed, Clip;
    if span == 0 {
      WorkNothing(from, to, div, min);
      ClipOfWord(0);
    }
    ScaleIsAllowed(Sum(ds), ds, allowance);
  }

  // ----- the whole walk

  /** A sample that does not count changes nothing. */
  lemma {:induction false} OnlyUsedCount(total: U256, at: nat, difficulty: U256, samples: seq<Sample>, head: nat,
                                         div: nat, min: U256, allowance: U256)
    ensures CeilingFrom(total, at, difficulty, samples, head, div, min, allowance) ==
            CeilingFrom(total, at, difficulty, Used(at, samples), head, div, min, allowance)
    decreases samples
  {
    hide Scale, Bound;
    if samples != [] {
      var s := samples[0];
      if s.number <= at {
        OnlyUsedCount(total, at, difficulty, samples[1..], head, div, min, allowance);
      } else {
        var total' := SatAdd(total, Scale(Bound(difficulty, s.difficulty, s.number - at, div, min), allowance));
        OnlyUsedCount(total', s.number, s.difficulty, samples[1..], head, div, min, allowance);
        assert Used(at, samples)[1..] == Used(s.number, samples[1..]);
      }
    }
  }

  lemma {:induction false} ClipTwice(a: nat, b: nat, c: nat)
    ensures Clip(Clip(a + b) + c) == Clip(a + b + c)
  {
  }

  lemma {:induction false} HeaviestLength(from: nat, ds: seq<nat>, to: nat, span: nat, div: nat, min: nat)
    requires div >= 2 && Heaviest(from, ds, to, span, div, min)
    ensures |ds| == span
  {
  }

  lemma {:induction false} AllowedNothing(ds: seq<nat>, allowance: nat)
    requires ds == []
    ensures Allowed(ds, allowance) == 0
  {
  }

  /** The checkpoint as the walk carries it past a sample. */
  function Moved(cp: Checkpoint, s: Sample): (r: Checkpoint) {
    Checkpoint(s.number, cp.cumulative, s.difficulty)
  }

  lemma {:induction false} BeforeShift(cp: Checkpoint, used: seq<Sample>, i: nat)
    requires i < |used|
    ensures Before(Moved(cp, used[0]), used[1..], i) == Before(cp, used, i + 1)
  {
  }

  lemma {:induction false} WalkableShift(cp: Checkpoint, used: seq<Sample>, i: nat, div: nat, min: U256)
    requires div >= 2 && i + 1 < |used|
    ensures WalkableAt(Moved(cp, used[0]), used[1..], i, div, min) == WalkableAt(cp, used, i + 1, div, min)
  {
    hide GapWalkable;
    BeforeShift(cp, used, i);
  }

  lemma {:induction false} HeaviestShift(cp: Checkpoint, used: seq<Sample>, i: nat, ds: seq<nat>, div: nat, min: U256)
    requires div >= 2 && i + 1 < |used|
    ensures HeaviestAt(Moved(cp, used[0]), used[1..], i, ds, div, min) == HeaviestAt(cp, used, i + 1, ds, div, min)
  {
    hide Heaviest;
    BeforeShift(cp, used, i);
  }

  lemma {:induction false} WalkableRest(cp: Checkpoint, used: seq<Sample>, head: nat, div: nat, min: U256)
    requires div >= 2 && used != [] && Walkable(cp, used, head, div, min)
    ensures cp.number < used[0].number
    ensures GapWalkable(cp.difficulty, used[0].difficulty, used[0].number - cp.number, div, min)
    ensures Walkable(Moved(cp, used[0]), used[1..], head, div, min)
  {
    hide GapWalkable, TailWalkable;
    assert WalkableAt(cp, used, 0, div, min);
    BeforeShift(cp, used, |used| - 1);
    forall i: nat | i < |used| - 1
      ensures WalkableAt(Moved(cp, used[0]), used[1..], i, div, min)
    {
      hide WalkableAt;
      WalkableShift(cp, used, i, div, min);
    }
  }

  lemma {:induction false} HeaviestWalkCons(cp: Checkpoint, used: seq<Sample>, head: nat, ds: seq<nat>,
                                            rest: seq<seq<nat>>, tail: seq<nat>, div: nat, min: U256)
    requires div >= 2 && used != [] && cp.number < used[0].number
    requires Heaviest(cp.difficulty, ds, used[0].difficulty, used[0].number - cp.number, div, min)
    requires HeaviestWalk(Moved(cp, used[0]), used[1..], head, rest, tail, div, min)
    ensures HeaviestWalk(cp, used, head, [ds] + rest, tail, div, min)
  {
    hide Heaviest;
    var gaps := [ds] + rest;
    assert HeaviestAt(cp, used, 0, ds, div, min);
    BeforeShift(cp, used, |used| - 1);
    forall i: nat | i < |used|
      ensures HeaviestAt(cp, used, i, gaps[i], div, min)
    {
      hide HeaviestAt;
      if i > 0 {
        HeaviestShift(cp, used, i - 1, rest[i - 1], div, min);
      }
    }
  }

  lemma {:induction false} AllowedCons(ds: seq<nat>, rest: seq<seq<nat>>, allowance: nat)
    ensures AllowedAll([ds] + rest, allowance) == Allowed(ds, allowance) + AllowedAll(rest, allowance)
  {
    assert ([ds] + rest)[1..] == rest;
  }

  lemma {:induction false} TailPays(total: U256, cp: Checkpoint, head: nat, div: nat, min: U256, allowance: U256)
    returns (tail: seq<nat>)
    requires div >= 2 && Walkable(cp, [], head, div, min) && 1 <= allowance
    ensures HeaviestWalk(cp, [], head, [], tail, div, min)
    ensures CeilingFrom(total, cp.number, cp.difficulty, [], head, div, min, allowance) ==
            Clip(total + Allowed(tail, allowance))
  {
    hide Scale, Bound, Heaviest, TailWalkable, Allowed, Work, Clip;
    var span := Tail(cp.number, head);
    tail := TailIsHeaviest(cp.difficulty, span, div, min);
    HeaviestLength(cp.difficulty, tail, MAX256, span, div, min);
    GapPays(cp.difficulty, MAX256, span, div, min, tail, allowance);
    if span == 0 {
      AllowedNothing(tail, allowance);
      ClipOfWord(total);
    }
  }

  /** The walk's total gains exactly what the heaviest chains of its gaps and of its tail are allowed. */
  lemma {:induction false} CeilingIsHeaviest(total: U256, cp: Checkpoint, used: seq<Sample>, head: nat, div: nat,
                                             min: U256, allowance: U256)
    returns (gaps: seq<seq<nat>>, tail: seq<nat>)
    requires div >= 2 && Walkable(cp, used, head, div, min) && 1 <= allowance
    ensures HeaviestWalk(cp, used, head, gaps, tail, div, min)
    ensures CeilingFrom(total, cp.number, cp.difficulty, used, head, div, min, allowance) ==
            Clip(total + AllowedAll(gaps, allowance) + Allowed(tail, allowance))
    decreases used
  {
    hide Scale, Bound, Heaviest, GapWalkable, Walkable, HeaviestWalk, Allowed, Work, Clip;
    if used == [] {
      gaps := [];
      tail := TailPays(total, cp, head, div, min, allowance);
    } else {
      hide AllowedAll;
      var s := used[0];
      WalkableRest(cp, used, head, div, min);
      var ds := GapIsHeaviest(cp.difficulty, s.difficulty, s.number - cp.number, div, min);
      HeaviestLength(cp.difficulty, ds, s.difficulty, s.number - cp.number, div, min);
      GapPays(cp.difficulty, s.difficulty, s.number - cp.number, div, min, ds, allowance);
      var total' := SatAdd(total, Scale(Bound(cp.difficulty, s.difficulty, s.number - cp.number, div, min), allowance));
      var rest;
      rest, tail := CeilingIsHeaviest(total', Moved(cp, s), used[1..], head, div, min, allowance);
      gaps := [ds] + rest;
      HeaviestWalkCons(cp, used, head, ds, rest, tail, div, min);
      AllowedCons(ds, rest, allowance);
      ClipTwice(total, Allowed(ds, allowance), AllowedAll(rest, allowance) + Allowed(tail, allowance));
    }
  }

  /**
   On samples a chain could carry, a claim is judged impossible if and only if it exceeds the checkpoint's total plus
   what is allowed for the heaviest chain of every gap and of the tail.
   */
  lemma {:induction false} ImpossibleIff(cp: Checkpoint, claimed: U256, samples: seq<Sample>, head: nat, div: nat,
                                         min: U256)
    returns (gaps: seq<seq<nat>>, tail: seq<nat>)
    requires div >= 2 && Walkable(cp, Used(cp.number, samples), head, div, min)
    ensures HeaviestWalk(cp, Used(cp.number, samples), head, gaps, tail, div, min)
    ensures var v := Verdicted(cp, claimed, samples, head, div, min);
            var most := cp.cumulative + AllowedAll(gaps, Allowance(Uncles(samples))) +
                        Allowed(tail, Allowance(Uncles(samples)));
            && (v.Impossible? <==> claimed > most)
            && (v.Impossible? ==> v.claimed == claimed && v.ceiling == most)
            && (v.Plausible? ==> v.ceiling == Min(most, MAX256))
  {
    hide Walkable, HeaviestWalk, Allowance, AllowedAll, Allowed, CeilingFrom;
    AllowanceIsWord(Uncles(samples));
    var allowance: U256 := Allowance(Uncles(samples));
    OnlyUsedCount(cp.cumulative, cp.number, cp.difficulty, samples, head, div, min, allowance);
    gaps, tail := CeilingIsHeaviest(cp.cumulative, cp, Used(cp.number, samples), head, div, min, allowance);
  }
}
