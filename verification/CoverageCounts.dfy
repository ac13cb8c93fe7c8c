/**
 What a replay reports at its end: how many blocks diverged, how many it could not judge, and where it stopped, read off
 what the sources hold for the blocks.
 */
module CoverageCounts {
  import opened Options
  import opened Coverage
  import opened CoverageRuns
  import opened CoverageVerdicts

  /** The two ways a replay counts a block against itself. */
  datatype Fault = Differing | Undecided

  /** A mismatch of a converted root, which proves nothing. */
  predicate Inconclusive(cfg: Config, r: Execution) {
    r.Runs? && Converted(cfg, r) && !r.rootMatches
  }

  /**
   A block differs when it can be tried and either does not run or shows a mismatch that proves something. It is
   undecided when something of it is missing, when there is no state to try it from, or when the only evidence is a
   converted root.
   */
  predicate Has(cfg: Config, seeded: bool, facts: seq<Facts>, i: nat, fault: Fault)
    requires i < |facts|
  {
    var f := facts[i];
    match fault
    case Differing =>
      && f.Complete? && Available(cfg, seeded, facts, i)
      && (f.run.Errs? || (!f.run.scratchLost && !Inconclusive(cfg, f.run) && !Clean(cfg, f)))
    case Undecided =>
      || f.Incomplete?
      || (f.Complete? &&
          (!Available(cfg, seeded, facts, i) ||
           (f.run.Runs? && !f.run.scratchLost && Inconclusive(cfg, f.run))))
  }

  /** How many of the first `i` blocks the replay gets to have this fault. */
  function Tally(cfg: Config, seeded: bool, facts: seq<Facts>, i: nat, fault: Fault): (n: nat)
    requires i <= |facts|
  {
    if i == 0 then 0
    else Tally(cfg, seeded, facts, i - 1, fault) +
         if Reached(cfg, seeded, facts, i - 1) && Has(cfg, seeded, facts, i - 1, fault) then 1 else 0
  }

  /** The replay gets to block `i` and stops there, having explained how it differs. */
  predicate StopsAt(cfg: Config, seeded: bool, facts: seq<Facts>, i: nat)
    requires i < |facts|
  {
    && Reached(cfg, seeded, facts, i)
    && var f := facts[i];
       f.Complete? && Available(cfg, seeded, facts, i) && f.run.Runs? && !f.run.scratchLost && Explained(cfg, f.run)
  }

  /** The replay stops before block `i`, the first it comes to with no failure to spare. */
  predicate StopsBefore(cfg: Config, seeded: bool, facts: seq<Facts>, i: nat)
    requires i < |facts|
  {
    && !Reached(cfg, seeded, facts, i) && (forall j :: 0 <= j < i ==> Reached(cfg, seeded, facts, j))
    && forall j :: 0 <= j < i ==> !Breaks(cfg, seeded, facts, j)
  }

  /** The replay gives up with an error: a read fails, or the scratch state is lost. */
  predicate BailsAt(cfg: Config, seeded: bool, facts: seq<Facts>, i: nat)
    requires i < |facts|
  {
    && Reached(cfg, seeded, facts, i)
    && var f := facts[i];
       f.Unreadable? || (f.Complete? && Available(cfg, seeded, facts, i) && f.run.Runs? && f.run.scratchLost)
  }

  // ----- one verdict

  predicate Bails(v: Verdict) {
    v.Aborted? || v.ScratchLost?
  }

  predicate Stops(v: Verdict) {
    v.Diverged? && v.explained
  }

  lemma {:induction false} WeighCounts(cfg: Config, r: Execution)
    ensures var v := Weigh(cfg, r);
            && (v.Diverged? <==>
                r.Errs? || (!r.scratchLost && !Inconclusive(cfg, r) && !Clean(cfg, Complete(true, r))))
            && (v.Unverifiable? <==> r.Runs? && !r.scratchLost && Inconclusive(cfg, r))
            && (Stops(v) <==> r.Runs? && !r.scratchLost && Explained(cfg, r))
            && (Bails(v) <==> r.Runs? && r.scratchLost)
  {
  }

  lemma {:induction false} JudgeCounts(cfg: Config, seeded: bool, facts: seq<Facts>, i: nat, carried: bool)
    requires i < |facts| && (cfg.sequential ==> carried == Carried(seeded, facts, i))
    requires Reached(cfg, seeded, facts, i)
    ensures var v := Judge(cfg, carried, facts[i]).0;
            && (v.Diverged? <==> Has(cfg, seeded, facts, i, Differing))
            && (v.Unverifiable? <==> Has(cfg, seeded, facts, i, Undecided))
            && (Stops(v) <==> StopsAt(cfg, seeded, facts, i))
            && (Bails(v) <==> BailsAt(cfg, seeded, facts, i))
  {
    hide Weigh, Explained, RootChecked, Inconclusive, Reached, Carried;
    var f := facts[i];
    if f.Complete? {
      WeighCounts(cfg, f.run);
      assert Clean(cfg, f) <==> Clean(cfg, Complete(true, f.run));
    }
  }

  lemma {:induction false} StepCounts(cfg: Config, s: Session, n: nat, f: Facts)
    requires s.phase == Going && !Full(cfg, s)
    ensures var t := Step(cfg, s, n, f);
            var v := Judge(cfg, s.carried, f).0;
            && t.diverged == s.diverged + (if v.Diverged? then 1 else 0)
            && t.unverifiable == s.unverifiable + (if v.Unverifiable? then 1 else 0)
            && t.stopped == (if Stops(v) then Some(n) else s.stopped)
            && t.phase == (if Bails(v) then Bailed else if Stops(v) then Over else Going)
  {
    hide Judge, Enter;
    var (v, onward) := Judge(cfg, s.carried, f);
    EnterOnlyWrites(cfg, s.(carried := onward), n, v);
  }

  // ----- the whole replay

  /** What the session says of a replay that got as far as it could. */
  ghost predicate Reports(cfg: Config, seeded: bool, targets: seq<nat>, facts: seq<Facts>, t: Session)
    requires |targets| == |facts|
  {
    && t.diverged == Tally(cfg, seeded, facts, |facts|, Differing)
    && t.unverifiable == Tally(cfg, seeded, facts, |facts|, Undecided)
    && (forall i :: 0 <= i < |facts| && StopsAt(cfg, seeded, facts, i) ==> t.stopped == Some(targets[i] as int))
    && (forall i :: 0 <= i < |facts| && StopsBefore(cfg, seeded, facts, i) ==>
          t.stopped.Some? && t.stopped.value + 1 == targets[i])
    && (t.stopped.Some? ==>
        exists i :: 0 <= i < |facts| && (StopsAt(cfg, seeded, facts, i) || StopsBefore(cfg, seeded, facts, i)))
    && (t.phase == Bailed <==> exists i :: 0 <= i < |facts| && BailsAt(cfg, seeded, facts, i))
  }

  /** Nothing counts after a block the replay does not get to. */
  lemma {:induction false} TallyStops(cfg: Config, seeded: bool, facts: seq<Facts>, k: nat, i: nat, fault: Fault)
    requires k <= i <= |facts| && forall j :: k <= j < i ==> !Reached(cfg, seeded, facts, j)
    ensures Tally(cfg, seeded, facts, i, fault) == Tally(cfg, seeded, facts, k, fault)
  {
    hide Reached, Has;
    if k < i {
      TallyStops(cfg, seeded, facts, k, i - 1, fault);
    }
  }

  /** The replay goes no further than block `k`: it breaks there, or has no failure to spare before it. */
  lemma {:induction false} NoFurther(cfg: Config, seeded: bool, facts: seq<Facts>, k: nat, j: nat)
    requires k < j < |facts| && (Breaks(cfg, seeded, facts, k) || !Reached(cfg, seeded, facts, k))
    ensures !Reached(cfg, seeded, facts, j)
  {
    hide Breaks;
    FailuresGrow(cfg, seeded, facts, k, j);
  }

  /** The replay has got to block `k`, counting as it went. */
  ghost predicate Counted(cfg: Config, seeded: bool, targets: seq<nat>, facts: seq<Facts>, s: Session, k: nat)
    requires |targets| == |facts| && k <= |facts|
  {
    && Before(cfg, seeded, targets, facts, s, k) && s.stopped == None
    && s.diverged == Tally(cfg, seeded, facts, k, Differing)
    && s.unverifiable == Tally(cfg, seeded, facts, k, Undecided)
    && (forall j :: 0 <= j < k ==> Reached(cfg, seeded, facts, j) && !Breaks(cfg, seeded, facts, j))
  }

  /** Block `k` is where the replay ends, if it ends before the last. */
  ghost predicate Last(cfg: Config, seeded: bool, facts: seq<Facts>, k: nat)
    requires k <= |facts|
  {
    && (forall j :: 0 <= j < k ==> Reached(cfg, seeded, facts, j) && !Breaks(cfg, seeded, facts, j))
    && (k < |facts| ==> Breaks(cfg, seeded, facts, k) || !Reached(cfg, seeded, facts, k))
  }

  lemma {:induction false} OnlyAtLast(cfg: Config, seeded: bool, facts: seq<Facts>, k: nat, i: nat)
    requires k <= |facts| && i < |facts| && Last(cfg, seeded, facts, k)
    ensures StopsAt(cfg, seeded, facts, i) || BailsAt(cfg, seeded, facts, i) || StopsBefore(cfg, seeded, facts, i) ==>
              i == k
    ensures i > k ==> !Reached(cfg, seeded, facts, i)
  {
    hide Reached, Available, Explained;
    if i > k {
      NoFurther(cfg, seeded, facts, k, i);
    }
  }

  lemma {:induction false} ReportsLast(cfg: Config, seeded: bool, targets: seq<nat>, facts: seq<Facts>, t: Session,
                                       k: nat)
    requires |targets| == |facts| && k <= |facts| && Last(cfg, seeded, facts, k)
    requires var j := if k < |facts| then k + 1 else k;
             && t.diverged == Tally(cfg, seeded, facts, j, Differing)
             && t.unverifiable == Tally(cfg, seeded, facts, j, Undecided)
    requires k == |facts| ==> t.stopped == None && t.phase != Bailed
    requires k < |facts| ==>
               && (t.phase == Bailed <==> BailsAt(cfg, seeded, facts, k))
               && (t.stopped.Some? <==> StopsAt(cfg, seeded, facts, k) || StopsBefore(cfg, seeded, facts, k))
               && (StopsAt(cfg, seeded, facts, k) ==> t.stopped == Some(targets[k] as int))
               && (StopsBefore(cfg, seeded, facts, k) ==> t.stopped.Some? && t.stopped.value + 1 == targets[k])
    ensures Reports(cfg, seeded, targets, facts, t)
  {
    hide Reached, Available, Explained, StopsAt, StopsBefore, BailsAt, Last, Tally, Breaks;
    forall i | 0 <= i < |facts|
      ensures StopsAt(cfg, seeded, facts, i) || BailsAt(cfg, seeded, facts, i) || StopsBefore(cfg, seeded, facts, i) ==>
                i == k
      ensures i > k ==> !Reached(cfg, seeded, facts, i)
    {
      OnlyAtLast(cfg, seeded, facts, k, i);
    }
    var j := if k < |facts| then k + 1 else k;
    TallyStops(cfg, seeded, facts, j, |facts|, Differing);
    TallyStops(cfg, seeded, facts, j, |facts|, Undecided);
  }

  lemma {:induction false} ReachedIff(cfg: Config, seeded: bool, targets: seq<nat>, facts: seq<Facts>, s: Session,
                                      k: nat)
    requires |targets| == |facts| && k <= |facts| && Counted(cfg, seeded, targets, facts, s, k)
    ensures Full(cfg, s) <==> !Reached(cfg, seeded, facts, k)
  {
    hide Breaks, Tally, Carried;
  }

  /** No failure to spare: the replay ends before block `k`. */
  lemma {:induction false} ReportsFull(cfg: Config, seeded: bool, targets: seq<nat>, facts: seq<Facts>, s: Session,
                                       k: nat)
    requires |targets| == |facts| && k < |facts| && Counted(cfg, seeded, targets, facts, s, k) && Full(cfg, s)
    ensures Reports(cfg, seeded, targets, facts, Step(cfg, s, targets[k], facts[k]))
  {
    hide Reached, Available, Explained, Breaks, Reports, Before;
    ReachedIff(cfg, seeded, targets, facts, s, k);
    ReportsLast(cfg, seeded, targets, facts, Step(cfg, s, targets[k], facts[k]), k);
  }

  lemma {:induction false} TryNext(cfg: Config, seeded: bool, targets: seq<nat>, facts: seq<Facts>, s: Session, k: nat)
    requires |targets| == |facts| && k < |facts| && Distinct(targets)
    requires Counted(cfg, seeded, targets, facts, s, k) && !Full(cfg, s)
    ensures var t := Step(cfg, s, targets[k], facts[k]);
            && t.diverged == Tally(cfg, seeded, facts, k + 1, Differing)
            && t.unverifiable == Tally(cfg, seeded, facts, k + 1, Undecided)
            && (t.phase == Bailed <==> BailsAt(cfg, seeded, facts, k))
            && (t.phase == Going <==> !Breaks(cfg, seeded, facts, k))
            && t.stopped == (if StopsAt(cfg, seeded, facts, k) then Some(targets[k] as int) else None)
            && !StopsBefore(cfg, seeded, facts, k)
            && (StopsAt(cfg, seeded, facts, k) ==> Breaks(cfg, seeded, facts, k))
  {
    hide Step, Judge, Reached, Has, Breaks, StopsAt, BailsAt, Carried;
    ReachedIff(cfg, seeded, targets, facts, s, k);
    StepCounts(cfg, s, targets[k], facts[k]);
    JudgeCounts(cfg, seeded, facts, k, s.carried);
    JudgeMeans(cfg, seeded, facts, k, s.carried);
  }

  lemma {:induction false} ReportsFrom(cfg: Config, seeded: bool, targets: seq<nat>, facts: seq<Facts>, s: Session,
                                       k: nat)
    requires |targets| == |facts| && k <= |facts| && Distinct(targets)
    requires Counted(cfg, seeded, targets, facts, s, k)
    ensures Reports(cfg, seeded, targets, facts, Walk(cfg, s, targets[k..], facts[k..]))
    decreases |facts| - k
  {
    hide Step, Reports, Reached, Breaks, Tally, StopsAt, StopsBefore, BailsAt, Full;
    if k == |facts| {
      ReportsLast(cfg, seeded, targets, facts, s, k);
    } else {
      var t := Step(cfg, s, targets[k], facts[k]);
      assert targets[k..][1..] == targets[k + 1..] && facts[k..][1..] == facts[k + 1..];
      ReachedIff(cfg, seeded, targets, facts, s, k);
      if Full(cfg, s) {
        ReportsFull(cfg, seeded, targets, facts, s, k);
        StepFull(cfg, s, targets[k], facts[k]);
      } else {
        TryNext(cfg, seeded, targets, facts, s, k);
        if Breaks(cfg, seeded, facts, k) {
          ReportsLast(cfg, seeded, targets, facts, t, k);
        } else {
          BeforeNext(cfg, seeded, targets, facts, s, k);
          CountedNext(cfg, seeded, targets, facts, s, t, k);
          ReportsFrom(cfg, seeded, targets, facts, t, k + 1);
        }
      }
    }
  }

  lemma {:induction false} CountedNext(cfg: Config, seeded: bool, targets: seq<nat>, facts: seq<Facts>, s: Session,
                                       t: Session, k: nat)
    requires |targets| == |facts| && k < |facts| && Counted(cfg, seeded, targets, facts, s, k)
    requires Reached(cfg, seeded, facts, k) && !Breaks(cfg, seeded, facts, k) && !StopsAt(cfg, seeded, facts, k)
    requires Before(cfg, seeded, targets, facts, t, k + 1)
    requires t.stopped == None && t.diverged == Tally(cfg, seeded, facts, k + 1, Differing)
             && t.unverifiable == Tally(cfg, seeded, facts, k + 1, Undecided)
    ensures Counted(cfg, seeded, targets, facts, t, k + 1)
  {
    hide Before, Reached, Breaks, StopsAt, Tally;
  }

  /**
   Over every replay: the divergence count is the number of blocks it got to that differ, the other the number it could
   not decide; it names the block whose difference it explained, or the one before the first it had no failure to spare
   for, and no other; and it ends in an error exactly when it got to a block that could not be read, or lost its state.
   */
  lemma {:induction false} SessionReports(cfg: Config, book: Book, seeded: bool, targets: seq<nat>, facts: seq<Facts>)
    requires |targets| == |facts| > 0 && Distinct(targets)
    ensures Reports(cfg, seeded, targets, facts, Replayed(cfg, book, seeded, targets, facts))
  {
    hide Walk, WriteCoverage, Reached, Breaks, Has, StopsAt, StopsBefore, BailsAt;
    var s := Opening(book, seeded);
    assert targets[0..] == targets && facts[0..] == facts;
    assert Counted(cfg, seeded, targets, facts, s, 0);
    ReportsFrom(cfg, seeded, targets, facts, s, 0);
  }
}
