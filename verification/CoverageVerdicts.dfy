/**
 Which blocks of a replay end up verified and which failed, read off what the sources hold for them.
 */
module CoverageVerdicts {
  import opened Coverage
  import opened CoverageRuns

  // ----- one block, from what is held for it and for those before it

  /** The root can only be compared by converting it, and is: a contiguous replay converts at the heights asked for. */
  predicate Converted(cfg: Config, r: Execution)
    requires r.Runs?
  {
    !r.unitrie && !r.translated && (cfg.contiguous ==> r.wanted)
  }

  /** The root is compared: nothing is skipped but a conversion a contiguous replay was not asked for. */
  predicate RootChecked(cfg: Config, r: Execution)
    requires r.Runs?
  {
    cfg.contiguous ==> r.unitrie || r.translated || r.wanted
  }

  /** Every comparison made came out equal. */
  predicate Clean(cfg: Config, f: Facts) {
    && f.Complete? && f.run.Runs? && !f.run.scratchLost
    && (RootChecked(cfg, f.run) ==> f.run.rootMatches) && f.run.receiptsMatch && f.run.gasMatches
  }

  /** A sequential replay still has its state: it was seeded, and every block it could try since has run. */
  predicate Carried(seeded: bool, facts: seq<Facts>, i: nat)
    requires i <= |facts|
  {
    seeded && forall j :: 0 <= j < i && facts[j].Complete? ==> facts[j].run.Runs? && !facts[j].run.scratchLost
  }

  predicate Available(cfg: Config, seeded: bool, facts: seq<Facts>, i: nat)
    requires i < |facts| && facts[i].Complete?
  {
    if cfg.sequential then Carried(seeded, facts, i) else facts[i].parentState
  }

  predicate Passes(cfg: Config, seeded: bool, facts: seq<Facts>, i: nat)
    requires i < |facts|
  {
    Clean(cfg, facts[i]) && Available(cfg, seeded, facts, i)
  }

  predicate Fails(cfg: Config, seeded: bool, facts: seq<Facts>, i: nat)
    requires i < |facts|
  {
    !facts[i].Unreadable? && !Passes(cfg, seeded, facts, i)
  }

  /** What `--explain` stops at: a state that differs and can be walked, or else receipts that do. */
  predicate Explained(cfg: Config, r: Execution)
    requires r.Runs?
  {
    cfg.explain &&
    if RootChecked(cfg, r) && !r.rootMatches then !Converted(cfg, r) && r.theirs else !r.receiptsMatch
  }

  /** The block ends the replay on the spot. */
  predicate Breaks(cfg: Config, seeded: bool, facts: seq<Facts>, i: nat)
    requires i < |facts|
  {
    var f := facts[i];
    f.Unreadable? ||
    (f.Complete? && f.run.Runs? && Available(cfg, seeded, facts, i) && (f.run.scratchLost || Explained(cfg, f.run)))
  }

  function Failures(cfg: Config, seeded: bool, facts: seq<Facts>, i: nat): (n: nat)
    requires i <= |facts|
  {
    if i == 0 then 0 else Failures(cfg, seeded, facts, i - 1) + if Fails(cfg, seeded, facts, i - 1) then 1 else 0
  }

  /** The replay gets to block `i`: nothing before it broke it off, and there are failures to spare. */
  predicate Reached(cfg: Config, seeded: bool, facts: seq<Facts>, i: nat)
    requires i <= |facts|
  {
    && (forall j :: 0 <= j < i ==> !Breaks(cfg, seeded, facts, j))
    && (cfg.maxFailures > 0 ==> Failures(cfg, seeded, facts, i) < cfg.maxFailures)
  }

  lemma {:induction false} FailuresGrow(cfg: Config, seeded: bool, facts: seq<Facts>, k: nat, i: nat)
    requires k <= i <= |facts|
    ensures Failures(cfg, seeded, facts, k) <= Failures(cfg, seeded, facts, i)
  {
    hide Fails;
    if k < i {
      FailuresGrow(cfg, seeded, facts, k, i - 1);
    }
  }

  // ----- the replay's own verdict is the same

  predicate Bad(v: Verdict) {
    v.Unverifiable? || v.Diverged? || v.ScratchLost?
  }

  predicate Ends(v: Verdict) {
    v.Aborted? || v.ScratchLost? || (v.Diverged? && v.explained)
  }

  lemma {:induction false} WeighMeans(cfg: Config, r: Execution)
    ensures var v, f := Weigh(cfg, r), Complete(true, r);
            && v != Aborted
            && (Bad(v) <==> !Clean(cfg, f))
            && (v == Verified <==> Clean(cfg, f) && RootChecked(cfg, r))
            && (Ends(v) <==> r.Runs? && (r.scratchLost || Explained(cfg, r)))
            && (v == ScratchLost <==> r.Runs? && r.scratchLost)
  {
  }

  lemma {:induction false} JudgeMeans(cfg: Config, seeded: bool, facts: seq<Facts>, i: nat, carried: bool)
    requires i < |facts| && (cfg.sequential ==> carried == Carried(seeded, facts, i))
    ensures var (v, onward) := Judge(cfg, carried, facts[i]);
            && (Bad(v) <==> Fails(cfg, seeded, facts, i))
            && (v == Verified <==> Passes(cfg, seeded, facts, i) && RootChecked(cfg, facts[i].run))
            && (Ends(v) <==> Breaks(cfg, seeded, facts, i))
            && (cfg.sequential && v != Aborted ==> onward == Carried(seeded, facts, i + 1))
  {
    hide Weigh, Explained, RootChecked;
    var f := facts[i];
    if f.Complete? {
      WeighMeans(cfg, f.run);
      assert Clean(cfg, f) <==> Clean(cfg, Complete(true, f.run));
    }
    CarriedNext(seeded, facts, i);
  }

  lemma {:induction false} CarriedNext(seeded: bool, facts: seq<Facts>, i: nat)
    requires i < |facts|
    ensures var f := facts[i];
            Carried(seeded, facts, i + 1) <==>
            Carried(seeded, facts, i) && (f.Complete? ==> f.run.Runs? && !f.run.scratchLost)
  {
  }

  // ----- what one step does to the two sets

  lemma {:induction false} StepSets(cfg: Config, s: Session, n: nat, f: Facts)
    requires s.phase == Going && !Full(cfg, s)
    ensures var t := Step(cfg, s, n, f);
            var (v, onward) := Judge(cfg, s.carried, f);
            && t.failed == (if Bad(v) then s.failed + {n} else s.failed)
            && t.verified == (if v == Verified then s.verified + {n} else s.verified)
            && (t.phase == Going <==> !Ends(v))
            && t.carried == onward
            && t.diverged + t.unverifiable == s.diverged + s.unverifiable + if Bad(v) && v != ScratchLost then 1 else 0
  {
    hide Judge, Enter;
    var (v, onward) := Judge(cfg, s.carried, f);
    EnterOnlyWrites(cfg, s.(carried := onward), n, v);
  }

  /** Only the blocks still to come are added to either set. */
  lemma {:induction false} WalkAdds(cfg: Config, s: Session, targets: seq<nat>, facts: seq<Facts>, b: nat)
    requires |targets| == |facts| && b !in targets
    ensures var t := Walk(cfg, s, targets, facts);
            (b in t.failed <==> b in s.failed) && (b in t.verified <==> b in s.verified)
    decreases |targets|
  {
    hide Step, Judge;
    if targets != [] && s.phase == Going {
      if !Full(cfg, s) {
        StepSets(cfg, s, targets[0], facts[0]);
      } else {
        StepFull(cfg, s, targets[0], facts[0]);
      }
      WalkAdds(cfg, Step(cfg, s, targets[0], facts[0]), targets[1..], facts[1..], b);
    }
  }

  lemma {:induction false} StepFull(cfg: Config, s: Session, n: nat, f: Facts)
    requires Full(cfg, s)
    ensures var t := Step(cfg, s, n, f);
            t.failed == s.failed && t.verified == s.verified && t.phase == Over
  {
  }

  // ----- a whole replay

  /** The session before block `k`. */
  ghost predicate Before(cfg: Config, seeded: bool, targets: seq<nat>, facts: seq<Facts>, s: Session, k: nat)
    requires |targets| == |facts| && k <= |facts|
  {
    && s.phase == Going
    && (cfg.sequential ==> s.carried == Carried(seeded, facts, k))
    && s.diverged + s.unverifiable == Failures(cfg, seeded, facts, k)
    && (forall j :: 0 <= j < k ==> !Breaks(cfg, seeded, facts, j))
    && (forall j :: k <= j < |targets| ==> targets[j] !in s.failed && targets[j] !in s.verified)
  }

  ghost predicate Distinct(targets: seq<nat>) {
    forall i, j :: 0 <= i < j < |targets| ==> targets[i] != targets[j]
  }

  lemma {:induction false} BeforeNext(cfg: Config, seeded: bool, targets: seq<nat>, facts: seq<Facts>, s: Session,
                                      k: nat)
    requires |targets| == |facts| && k < |facts| && Distinct(targets)
    requires Before(cfg, seeded, targets, facts, s, k) && !Full(cfg, s) && !Breaks(cfg, seeded, facts, k)
    ensures Before(cfg, seeded, targets, facts, Step(cfg, s, targets[k], facts[k]), k + 1)
  {
    hide Step, Judge, Carried, Fails, Breaks, Passes, Full;
    StepSets(cfg, s, targets[k], facts[k]);
    JudgeMeans(cfg, seeded, facts, k, s.carried);
  }

  /** Where block `i` ends up: in `failed` if it is reached and fails, in `verified` if it is reached and confirmed. */
  ghost predicate Settled(cfg: Config, seeded: bool, facts: seq<Facts>, i: nat, b: nat, t: Session)
    requires i < |facts|
  {
    && (b in t.failed <==> Reached(cfg, seeded, facts, i) && Fails(cfg, seeded, facts, i))
    && (b in t.verified <==>
        Reached(cfg, seeded, facts, i) && Passes(cfg, seeded, facts, i) && RootChecked(cfg, facts[i].run))
  }

  lemma {:induction false} SettledHere(cfg: Config, seeded: bool, targets: seq<nat>, facts: seq<Facts>, s: Session,
                                       k: nat)
    requires |targets| == |facts| && k < |facts| && Distinct(targets) && Before(cfg, seeded, targets, facts, s, k)
    ensures Settled(cfg, seeded, facts, k, targets[k], Walk(cfg, s, targets[k..], facts[k..]))
  {
    hide Step, Judge, Carried, Fails, Breaks, Passes;
    var n, t := targets[k], Step(cfg, s, targets[k], facts[k]);
    assert targets[k..][1..] == targets[k + 1..] && facts[k..][1..] == facts[k + 1..];
    if Full(cfg, s) {
      StepFull(cfg, s, n, facts[k]);
    } else {
      StepSets(cfg, s, n, facts[k]);
      JudgeMeans(cfg, seeded, facts, k, s.carried);
    }
    WalkAdds(cfg, t, targets[k + 1..], facts[k + 1..], n);
  }

  lemma {:induction false} SettledFrom(cfg: Config, seeded: bool, targets: seq<nat>, facts: seq<Facts>, s: Session,
                                       k: nat, i: nat)
    requires |targets| == |facts| && k <= i < |facts| && Distinct(targets) && Before(cfg, seeded, targets, facts, s, k)
    ensures Settled(cfg, seeded, facts, i, targets[i], Walk(cfg, s, targets[k..], facts[k..]))
    decreases i - k
  {
    hide Step, Judge, Carried, Fails, Breaks, Passes;
    if k == i {
      SettledHere(cfg, seeded, targets, facts, s, k);
    } else {
      var t := Step(cfg, s, targets[k], facts[k]);
      assert targets[k..][1..] == targets[k + 1..] && facts[k..][1..] == facts[k + 1..];
      if Full(cfg, s) {
        StepFull(cfg, s, targets[k], facts[k]);
        FailuresGrow(cfg, seeded, facts, k, i);
      } else if Breaks(cfg, seeded, facts, k) {
        StepSets(cfg, s, targets[k], facts[k]);
        JudgeMeans(cfg, seeded, facts, k, s.carried);
      } else {
        BeforeNext(cfg, seeded, targets, facts, s, k);
        SettledFrom(cfg, seeded, targets, facts, t, k + 1, i);
      }
    }
  }

  /**
   Over every replay, recorded or not: a block ends up failed exactly when the replay gets to it, it can be read, and
   some comparison differs, it does not run, or there is no state to run it from; and verified exactly when the replay
   gets to it and its root was compared and everything matched.
   */
  lemma {:induction false} SessionIff(cfg: Config, book: Book, seeded: bool, targets: seq<nat>, facts: seq<Facts>,
                                      i: nat)
    requires |targets| == |facts| > 0 && Distinct(targets) && i < |facts|
    ensures Settled(cfg, seeded, facts, i, targets[i], Replayed(cfg, book, seeded, targets, facts))
  {
    hide Walk, WriteCoverage, Reached, Fails, Passes;
    var s := Opening(book, seeded);
    assert targets[0..] == targets && facts[0..] == facts;
    assert Before(cfg, seeded, targets, facts, s, 0);
    SettledFrom(cfg, seeded, targets, facts, s, 0, i);
  }
}
