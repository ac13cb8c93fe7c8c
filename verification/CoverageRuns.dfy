/**
 What the record of a replay is worth: over every sequence of block outcomes, its spans are exactly the maximal runs of
 verified blocks.
 */
module CoverageRuns {
  import opened Options
  import opened Coverage

  /** Block `b` lies in a recorded span. */
  predicate Covered(cov: map<nat, nat>, b: nat) {
    exists a :: a in cov && a <= b <= cov[a]
  }

  /** Spans are not empty, end before `next`, and do not meet. */
  ghost predicate Apart(cov: map<nat, nat>, next: nat) {
    && (forall a :: a in cov ==> a <= cov[a] < next)
    && (forall a, b :: a in cov && b in cov && a < b ==> cov[a] < b)
  }

  predicate InRun(run: Option<nat>, next: nat, b: nat) {
    run.Some? && run.value <= b < next
  }

  /** Spans and the open run hold the verified blocks and no others. */
  ghost predicate Exact(s: Session, next: nat) {
    forall b :: b in s.verified <==> Covered(s.book.coverage, b) || InRun(s.run, next, b)
  }

  /** A run that goes on cannot have begun later or ended earlier. */
  ghost predicate Maximal(s: Session, next: nat) {
    && (forall a :: a in s.book.coverage ==> s.book.coverage[a] + 1 < next && s.book.coverage[a] + 1 !in s.verified)
    && (forall a :: a in s.book.coverage && a > 0 ==> a - 1 !in s.verified)
    && (s.run.Some? && s.run.value > 0 ==> s.run.value - 1 !in s.verified)
    && (s.run.None? && next > 0 ==> next - 1 !in s.verified)
  }

  ghost predicate RunFits(cfg: Config, s: Session, next: nat) {
    && (s.run.Some? ==> cfg.contiguous && s.run.value < next)
    && (s.run.Some? ==> forall a :: a in s.book.coverage ==> s.book.coverage[a] < s.run.value)
    && (Full(cfg, s) ==> s.run.None?)
  }

  ghost predicate GapsFit(s: Session, next: nat) {
    && (forall g :: g in s.book.gaps ==> g < next && g !in s.verified)
    && s.failed <= s.book.gaps
  }

  /** What holds before block `next` of a recorded session that began with an empty book. */
  ghost predicate Fits(cfg: Config, s: Session, next: nat) {
    && Apart(s.book.coverage, next)
    && RunFits(cfg, s, next)
    && Exact(s, next)
    && GapsFit(s, next)
    && (cfg.contiguous ==> Maximal(s, next))
  }

  // ----- one verdict

  function Entered(cfg: Config, s: Session, n: nat, v: Verdict): (t: Session) {
    Count(Enter(cfg, s, n, v), n, v)
  }

  /** A span written past all others covers its blocks and leaves the rest as it was. */
  lemma {:induction false} CoveredWritten(cov: map<nat, nat>, start: nat, end: nat, b: nat)
    requires start !in cov && start <= end
    ensures Covered(cov[start := end], b) <==> Covered(cov, b) || start <= b <= end
  {
    var c1 := cov[start := end];
    if Covered(cov, b) {
      var a :| a in cov && a <= b <= cov[a];
      assert a in c1 && c1[a] == cov[a];
    }
    assert start in c1 && c1[start] == end;
  }

  lemma {:induction false} ApartWritten(cov: map<nat, nat>, start: nat, end: nat, next: nat)
    requires Apart(cov, start) && start <= end < next
    ensures Apart(cov[start := end], next)
  {
  }

  /** A verified block of a contiguous replay opens a run, or extends it. */
  lemma {:induction false} VerifiedExtends(cfg: Config, s: Session, n: nat)
    requires cfg.recording && cfg.contiguous && Fits(cfg, s, n) && !Full(cfg, s)
    ensures Fits(cfg, Entered(cfg, s, n, Verified), n + 1)
  {
    hide Covered;
    var t := Entered(cfg, s, n, Verified);
    forall b ensures b in t.verified <==> Covered(t.book.coverage, b) || InRun(t.run, n + 1, b) {
      assert b in s.verified <==> Covered(s.book.coverage, b) || InRun(s.run, n, b);
    }
    NotYet(cfg, s, n);
  }

  /** Blocks from `next` on are not verified yet. */
  lemma {:induction false} NotYet(cfg: Config, s: Session, next: nat)
    requires Fits(cfg, s, next)
    ensures forall b :: b >= next ==> b !in s.verified
  {
    forall b | b >= next ensures b !in s.verified {
      assert !Covered(s.book.coverage, b);
    }
  }

  /** A listed block that verifies is a span of its own. */
  lemma {:induction false} VerifiedAlone(cfg: Config, s: Session, next: nat, n: nat)
    requires cfg.recording && !cfg.contiguous && Fits(cfg, s, next) && next <= n && !Full(cfg, s)
    ensures Fits(cfg, Entered(cfg, s, n, Verified), n + 1)
  {
    hide Covered;
    var t := Entered(cfg, s, n, Verified);
    NotYet(cfg, s, next);
    forall b ensures b in t.verified <==> Covered(t.book.coverage, b) || InRun(t.run, n + 1, b) {
      CoveredWritten(s.book.coverage, n, n, b);
      assert b in s.verified <==> Covered(s.book.coverage, b) || InRun(s.run, next, b);
    }
    ApartWritten(s.book.coverage, n, n, n + 1);
  }

  /** Writing the open run down covers what it held. */
  lemma {:induction false} WrittenFits(cfg: Config, s: Session, n: nat, b: nat)
    requires Fits(cfg, s, n) && s.run.Some?
    ensures var book := WriteCoverage(s.book, s.run.value, n - 1);
            && Apart(book.coverage, n)
            && (b in s.verified <==> Covered(book.coverage, b))
            && book.gaps == s.book.gaps
  {
    hide Covered;
    var a := s.run.value;
    CoveredWritten(s.book.coverage, a, n - 1, b);
    ApartWritten(s.book.coverage, a, n - 1, n);
    assert b in s.verified <==> Covered(s.book.coverage, b) || InRun(s.run, n, b);
    forall g | g in s.book.gaps ensures !(a <= g <= n - 1) {
      assert InRun(s.run, n, g) ==> g in s.verified;
    }
  }

  /** A closed run with the block that closed it noted. */
  lemma {:induction false} ClosedFits(cfg: Config, s: Session, n: nat, t: Session)
    requires cfg.contiguous && Fits(cfg, s, n)
    requires t.book == CloseRun(s.book, s.run, n) && t.run == None && t.verified == s.verified
    requires s.failed <= t.failed <= s.failed + {n}
    ensures Fits(cfg, t, n + 1)
  {
    hide Covered, WriteCoverage, CloseRun, Apart, Exact, Maximal, GapsFit;
    ClosedShape(cfg, s, n);
    ClosedExact(cfg, s, n, t);
    ClosedMaximal(cfg, s, n, t);
    ClosedGaps(cfg, s, n, t);
  }

  /** What closing a run leaves in the book. */
  lemma {:induction false} ClosedShape(cfg: Config, s: Session, n: nat)
    requires Fits(cfg, s, n)
    ensures var b := CloseRun(s.book, s.run, n);
            && b.coverage == (if s.run.Some? then s.book.coverage[s.run.value := n - 1] else s.book.coverage)
            && b.gaps == s.book.gaps + {n}
            && Apart(b.coverage, n + 1)
  {
    hide Covered, Exact, Maximal, WriteCoverage;
    if s.run.Some? {
      WrittenFits(cfg, s, n, 0);
      WrittenShape(s.book, s.run.value, n - 1);
    }
  }

  lemma {:induction false} ClosedExact(cfg: Config, s: Session, n: nat, t: Session)
    requires Fits(cfg, s, n)
    requires t.book == CloseRun(s.book, s.run, n) && t.run == None && t.verified == s.verified
    ensures Exact(t, n + 1)
  {
    hide Covered, WriteCoverage, Apart, Maximal, GapsFit;
    forall b ensures b in t.verified <==> Covered(t.book.coverage, b) || InRun(t.run, n + 1, b) {
      assert b in s.verified <==> Covered(s.book.coverage, b) || InRun(s.run, n, b);
      if s.run.Some? {
        WrittenFits(cfg, s, n, b);
      }
    }
  }

  lemma {:induction false} ClosedMaximal(cfg: Config, s: Session, n: nat, t: Session)
    requires cfg.contiguous && Fits(cfg, s, n)
    requires t.book == CloseRun(s.book, s.run, n) && t.run == None && t.verified == s.verified
    ensures Maximal(t, n + 1)
  {
    hide Covered, CloseRun, Apart, Exact, GapsFit;
    ClosedShape(cfg, s, n);
    NotYet(cfg, s, n);
  }

  lemma {:induction false} ClosedGaps(cfg: Config, s: Session, n: nat, t: Session)
    requires Fits(cfg, s, n) && t.book == CloseRun(s.book, s.run, n) && t.verified == s.verified
    requires s.failed <= t.failed <= s.failed + {n}
    ensures GapsFit(t, n + 1)
  {
    hide Covered, CloseRun, Apart, Exact, Maximal;
    ClosedShape(cfg, s, n);
    NotYet(cfg, s, n);
  }

  lemma {:induction false} WrittenShape(b: Book, start: nat, end: int)
    requires start <= end
    ensures WriteCoverage(b, start, end).coverage == b.coverage[start := end]
  {
  }

  /** A listed block that does not verify is only noted. */
  lemma {:induction false} NotedFits(cfg: Config, s: Session, next: nat, n: nat, t: Session)
    requires !cfg.contiguous && Fits(cfg, s, next) && next <= n
    requires t.book == CloseRun(s.book, s.run, n) && t.run == None && t.verified == s.verified
    requires s.failed <= t.failed <= s.failed + {n}
    ensures Fits(cfg, t, n + 1)
  {
    hide Covered;
    NotYet(cfg, s, next);
    forall b ensures b in t.verified <==> Covered(t.book.coverage, b) || InRun(t.run, n + 1, b) {
      assert b in s.verified <==> Covered(s.book.coverage, b) || InRun(s.run, next, b);
    }
  }

  /** An unchecked block with no run open leaves no trace. */
  lemma {:induction false} UncheckedFits(cfg: Config, s: Session, n: nat)
    requires cfg.recording && cfg.contiguous && Fits(cfg, s, n) && s.run.None?
    ensures Fits(cfg, Entered(cfg, s, n, Unchecked), n + 1)
  {
    hide Covered;
    NotYet(cfg, s, n);
    var t := Entered(cfg, s, n, Unchecked);
    forall b ensures b in t.verified <==> Covered(t.book.coverage, b) || InRun(t.run, n + 1, b) {
      assert b in s.verified <==> Covered(s.book.coverage, b) || InRun(s.run, n, b);
    }
  }

  /** Where the blocks may come from: one after the other, or at least in ascending order. */
  predicate Follows(cfg: Config, next: nat, n: nat) {
    if cfg.contiguous then n == next else n >= next
  }

  lemma {:induction false} VerdictFits(cfg: Config, s: Session, next: nat, n: nat, v: Verdict)
    requires cfg.recording && Fits(cfg, s, next) && Follows(cfg, next, n) && !Full(cfg, s)
    requires v != Aborted && (v == Unchecked ==> cfg.contiguous)
    ensures Fits(cfg, Entered(cfg, s, n, v), n + 1)
  {
    hide Fits, CloseRun, WriteCoverage;
    var t := Entered(cfg, s, n, v);
    if v == Verified {
      if cfg.contiguous {
        VerifiedExtends(cfg, s, n);
      } else {
        VerifiedAlone(cfg, s, next, n);
      }
    } else if v == Unchecked && s.run.None? {
      UncheckedFits(cfg, s, n);
    } else if cfg.contiguous {
      ClosedFits(cfg, s, n, t);
    } else {
      NotedFits(cfg, s, next, n, t);
    }
  }

  // ----- a whole replay

  /** In list mode a root is always compared, so only a range can hold unchecked blocks. */
  lemma {:induction false} ListsAreCompared(cfg: Config, carried: bool, f: Facts)
    ensures Judge(cfg, carried, f).0 == Unchecked ==> cfg.contiguous
  {
  }

  lemma {:induction false} CarriedIrrelevant(cfg: Config, s: Session, next: nat, carried: bool)
    requires Fits(cfg, s, next)
    ensures Fits(cfg, s.(carried := carried), next)
  {
    hide Covered;
    var t := s.(carried := carried);
    forall b ensures b in t.verified <==> Covered(t.book.coverage, b) || InRun(t.run, next, b) {
      assert b in s.verified <==> Covered(s.book.coverage, b) || InRun(s.run, next, b);
    }
  }

  /** Whether the replay goes on, and what an early end means: no run is open. */
  ghost predicate Proceeds(s: Session, t: Session) {
    && (t.phase == Going ==> t.stopped == s.stopped)
    && (t.phase == Over ==> t.run.None?)
  }

  lemma {:induction false} StepFits(cfg: Config, s: Session, next: nat, n: nat, f: Facts) returns (m: nat)
    requires cfg.recording && Fits(cfg, s, next) && Follows(cfg, next, n) && s.phase == Going
    ensures var t := Step(cfg, s, n, f);
            Fits(cfg, t, m) && Proceeds(s, t) && (t.phase == Going ==> m == n + 1)
  {
    hide Fits, CloseRun, WriteCoverage, Judge;
    var (v, carried) := Judge(cfg, s.carried, f);
    var u := s.(carried := carried);
    CarriedIrrelevant(cfg, s, next, carried);
    if Full(cfg, s) {
      m := next;
      StoppedFits(cfg, s, next, n);
    } else if v == Aborted {
      m := next;
      AbortedFits(cfg, u, next, n);
    } else {
      m := n + 1;
      ListsAreCompared(cfg, s.carried, f);
      VerdictFits(cfg, u, next, n, v);
    }
  }

  lemma {:induction false} StoppedFits(cfg: Config, s: Session, next: nat, n: nat)
    requires Fits(cfg, s, next) && Full(cfg, s)
    ensures s.run.None? && Fits(cfg, s.(stopped := Some(n - 1), phase := Over), next)
  {
    hide Covered;
    var t := s.(stopped := Some(n - 1), phase := Over);
    forall b ensures b in t.verified <==> Covered(t.book.coverage, b) || InRun(t.run, next, b) {
      assert b in s.verified <==> Covered(s.book.coverage, b) || InRun(s.run, next, b);
    }
  }

  lemma {:induction false} AbortedFits(cfg: Config, s: Session, next: nat, n: nat)
    requires Fits(cfg, s, next)
    ensures Fits(cfg, Entered(cfg, s, n, Aborted), next)
  {
    hide Covered;
    var t := Entered(cfg, s, n, Aborted);
    forall b ensures b in t.verified <==> Covered(t.book.coverage, b) || InRun(t.run, next, b) {
      assert b in s.verified <==> Covered(s.book.coverage, b) || InRun(s.run, next, b);
    }
  }

  /** The blocks of a replay, from `next` on. */
  ghost predicate Targets(cfg: Config, next: nat, targets: seq<nat>) {
    && (forall i :: 0 <= i < |targets| ==> targets[i] >= next)
    && (forall i, j :: 0 <= i < j < |targets| ==> targets[i] < targets[j])
    && (cfg.contiguous ==> forall i :: 0 <= i < |targets| ==> targets[i] == next + i)
  }

  lemma {:induction false} WalkFits(cfg: Config, s: Session, next: nat, targets: seq<nat>, facts: seq<Facts>)
    returns (m: nat)
    requires |targets| == |facts| && cfg.recording && Fits(cfg, s, next) && Targets(cfg, next, targets)
    requires s.phase == Going
    ensures var t := Walk(cfg, s, targets, facts);
            && Fits(cfg, t, m) && Proceeds(s, t)
            && (t.phase == Going ==> m == if targets == [] then next else targets[|targets| - 1] + 1)
    decreases |targets|
  {
    hide Fits, Step;
    if targets == [] {
      m := next;
    } else {
      var t := Step(cfg, s, targets[0], facts[0]);
      m := StepFits(cfg, s, next, targets[0], facts[0]);
      if t.phase == Going {
        m := WalkFits(cfg, t, targets[0] + 1, targets[1..], facts[1..]);
      } else {
        WalkOver(cfg, t, targets[1..], facts[1..]);
      }
    }
  }

  lemma {:induction false} WalkOver(cfg: Config, s: Session, targets: seq<nat>, facts: seq<Facts>)
    requires |targets| == |facts| && s.phase != Going
    ensures Walk(cfg, s, targets, facts) == s
  {
  }

  const EMPTY := Book(map[], {})

  /** The record a session leaves: spans apart, holding only verified blocks, and clear of the gaps. */
  ghost predicate Sound(r: Session) {
    var cov := r.book.coverage;
    && (forall a :: a in cov ==> a <= cov[a])
    && (forall a, b :: a in cov && b in cov && a < b ==> cov[a] < b)
    && (forall b :: Covered(cov, b) ==> b in r.verified)
    && (forall b :: Covered(cov, b) ==> b !in r.book.gaps)
    && r.failed <= r.book.gaps
  }

  /** Nothing verified is left out, and runs are recorded whole. */
  ghost predicate Whole(cfg: Config, r: Session) {
    var cov := r.book.coverage;
    && (forall b :: b in r.verified ==> Covered(cov, b))
    && (cfg.contiguous ==> forall a :: a in cov ==> cov[a] + 1 !in r.verified && (a > 0 ==> a - 1 !in r.verified))
  }

  lemma {:induction false} FitsSound(cfg: Config, s: Session, next: nat)
    requires Fits(cfg, s, next)
    ensures Sound(s) && (s.run.None? ==> Whole(cfg, s))
  {
    hide Covered;
    forall b ensures (Covered(s.book.coverage, b) ==> b in s.verified)
      && (s.run.None? && b in s.verified ==> Covered(s.book.coverage, b))
    {
      assert b in s.verified <==> Covered(s.book.coverage, b) || InRun(s.run, next, b);
    }
  }

  /** Closing the last run at the last block. */
  lemma {:induction false} EndFits(cfg: Config, s: Session, last: nat)
    requires Fits(cfg, s, last + 1) && s.run.Some? && s.stopped.None? && s.phase == Going
    ensures Sound(Ended(s, last)) && Whole(cfg, Ended(s, last))
  {
    hide Covered, WriteCoverage, Fits, Sound, Whole;
    var book := WriteCoverage(s.book, s.run.value, last);
    forall b ensures Covered(book.coverage, b) <==> b in s.verified {
      WrittenFits(cfg, s, last + 1, b);
    }
    EndSound(cfg, s, last, book);
    EndWhole(cfg, s, last, book);
  }

  lemma {:induction false} EndSound(cfg: Config, s: Session, last: nat, book: Book)
    requires Fits(cfg, s, last + 1) && s.run.Some?
    requires book == WriteCoverage(s.book, s.run.value, last)
    requires forall b :: Covered(book.coverage, b) <==> b in s.verified
    ensures Sound(s.(book := book, run := None))
  {
    hide Covered, WriteCoverage, Exact, Maximal, RunFits;
    WrittenFits(cfg, s, last + 1, 0);
  }

  lemma {:induction false} EndWhole(cfg: Config, s: Session, last: nat, book: Book)
    requires Fits(cfg, s, last + 1) && s.run.Some?
    requires book == WriteCoverage(s.book, s.run.value, last)
    requires forall b :: Covered(book.coverage, b) <==> b in s.verified
    ensures Whole(cfg, s.(book := book, run := None))
  {
    hide Covered, WriteCoverage, Exact, GapsFit, Apart;
    NotYet(cfg, s, last + 1);
    RunBegan(cfg, s, last);
    WrittenShape(s.book, s.run.value, last);
  }

  lemma {:induction false} RunBegan(cfg: Config, s: Session, last: nat)
    requires Fits(cfg, s, last + 1) && s.run.Some?
    ensures s.run.value <= last
  {
  }

  lemma {:induction false} OpeningFits(cfg: Config, seeded: bool, next: nat)
    ensures Fits(cfg, Opening(EMPTY, seeded), next)
  {
    var s := Opening(EMPTY, seeded);
    forall b ensures b in s.verified <==> Covered(s.book.coverage, b) || InRun(s.run, next, b) {
    }
  }

  /** A run still open when the session broke off: it is lost, though its blocks were verified. */
  ghost predicate Lost(r: Session) {
    r.run.Some? && r.phase == Bailed && r.run.value in r.verified && !Covered(r.book.coverage, r.run.value)
  }

  lemma {:induction false} FitsLost(cfg: Config, s: Session, next: nat)
    requires Fits(cfg, s, next) && s.run.Some? && s.phase == Bailed
    ensures Lost(s)
  {
    assert InRun(s.run, next, s.run.value);
    assert !Covered(s.book.coverage, s.run.value);
  }

  /**
   Over every sequence of outcomes of one recorded session, early stops and explained exits included: spans do not
   overlap, hold only verified blocks and no gap, and every failed block is a gap. They hold all verified blocks, in a
   range as maximal runs, unless an unreadable block broke the session off with a run open; that run is lost.
   */
  lemma {:induction false} RecordIsSound(cfg: Config, seeded: bool, targets: seq<nat>, facts: seq<Facts>)
    requires cfg.recording && |targets| == |facts| > 0 && Targets(cfg, targets[0], targets)
    ensures var r := Replayed(cfg, EMPTY, seeded, targets, facts);
            Sound(r) && if r.run.None? then Whole(cfg, r) else Lost(r)
  {
    hide Fits, Walk, Sound, Whole, Lost;
    var s := Opening(EMPTY, seeded);
    var last := targets[|targets| - 1];
    OpeningFits(cfg, seeded, targets[0]);
    var m := WalkFits(cfg, s, targets[0], targets, facts);
    var t := Walk(cfg, s, targets, facts);
    FitsSound(cfg, t, m);
    if t.run.Some? {
      if t.phase == Bailed {
        FitsLost(cfg, t, m);
      } else {
        EndFits(cfg, t, last);
      }
    }
  }

  /** The block is a gap, outside every span, and a run of verified blocks before it ends at the block before it. */
  ghost predicate EndsRunAt(r: Session, n: nat) {
    && n in r.book.gaps && !Covered(r.book.coverage, n)
    && (n > 0 && n - 1 in r.verified ==> exists a :: a in r.book.coverage && r.book.coverage[a] == n - 1)
  }

  lemma {:induction false} FitsFailure(cfg: Config, s: Session, next: nat, n: nat)
    requires Fits(cfg, s, next) && n in s.failed
    ensures EndsRunAt(s, n)
  {
    hide Maximal, Apart, RunFits;
    assert n < next && n !in s.verified;
    assert !Covered(s.book.coverage, n) && !InRun(s.run, next, n);
    if n > 0 && n - 1 in s.verified {
      assert Covered(s.book.coverage, n - 1) || InRun(s.run, next, n - 1);
    }
  }

  lemma {:induction false} SoundFailure(cfg: Config, r: Session, n: nat)
    requires Sound(r) && Whole(cfg, r) && n in r.failed
    ensures EndsRunAt(r, n)
  {
    if n > 0 && n - 1 in r.verified {
      var a :| a in r.book.coverage && a <= n - 1 <= r.book.coverage[a];
      assert !Covered(r.book.coverage, n);
    }
  }

  /** Over every session, those that broke off included, a failed block ends the run just before it. */
  lemma {:induction false} FailureEndsRun(cfg: Config, seeded: bool, targets: seq<nat>, facts: seq<Facts>, n: nat)
    requires cfg.recording && |targets| == |facts| > 0 && Targets(cfg, targets[0], targets)
    ensures var r := Replayed(cfg, EMPTY, seeded, targets, facts);
            n in r.failed ==> EndsRunAt(r, n)
  {
    hide Fits, Walk, Sound, Whole, EndsRunAt, Lost;
    var s := Opening(EMPTY, seeded);
    var r := Replayed(cfg, EMPTY, seeded, targets, facts);
    if n in r.failed {
      if r.phase == Bailed {
        OpeningFits(cfg, seeded, targets[0]);
        var m := WalkFits(cfg, s, targets[0], targets, facts);
        FitsFailure(cfg, Walk(cfg, s, targets, facts), m, n);
      } else {
        RecordIsSound(cfg, seeded, targets, facts);
        SoundFailure(cfg, r, n);
      }
    }
  }

  // ----- what verified means

  /** Among the blocks of the replay, one whose root was compared and matched, with its receipts and its gas. */
  predicate Confirmed(cfg: Config, f: Facts) {
    && f.Complete? && f.run.Runs? && !f.run.scratchLost
    && Compared(cfg, f.run) && f.run.rootMatches && f.run.receiptsMatch && f.run.gasMatches
  }

  lemma {:induction false} VerifiedIff(cfg: Config, carried: bool, f: Facts)
    ensures Judge(cfg, carried, f).0 == Verified <==>
            Confirmed(cfg, f) && if cfg.sequential then carried else f.parentState
  {
  }

  lemma {:induction false} VerifiedStep(cfg: Config, s: Session, n: nat, f: Facts)
    ensures s.verified <= Step(cfg, s, n, f).verified <= s.verified + {n}
    ensures n in Step(cfg, s, n, f).verified && n !in s.verified ==>
            Confirmed(cfg, f) && if cfg.sequential then s.carried else f.parentState
  {
    hide Judge, CloseRun, WriteCoverage, Confirmed;
    VerifiedIff(cfg, s.carried, f);
  }

  /** A replay verifies only blocks it was given and confirmed against the chain. */
  lemma {:induction false} VerifiedAreConfirmed(cfg: Config, s: Session, targets: seq<nat>, facts: seq<Facts>, b: nat)
    requires |targets| == |facts| && b in Walk(cfg, s, targets, facts).verified && b !in s.verified
    ensures exists i :: 0 <= i < |targets| && targets[i] == b && Confirmed(cfg, facts[i])
    decreases |targets|
  {
    hide Step, Confirmed;
    var t := Step(cfg, s, targets[0], facts[0]);
    VerifiedStep(cfg, s, targets[0], facts[0]);
    if b !in t.verified {
      VerifiedAreConfirmed(cfg, t, targets[1..], facts[1..], b);
      var i :| 0 <= i < |targets[1..]| && targets[1..][i] == b && Confirmed(cfg, facts[1..][i]);
      assert targets[i + 1] == b && Confirmed(cfg, facts[i + 1]);
    }
  }

  /** Every block in a recorded span was compared with the chain and matched. */
  lemma {:induction false} CoveredAreConfirmed(cfg: Config, seeded: bool, targets: seq<nat>, facts: seq<Facts>, b: nat)
    requires cfg.recording && |targets| == |facts| > 0 && Targets(cfg, targets[0], targets)
    requires Covered(Replayed(cfg, EMPTY, seeded, targets, facts).book.coverage, b)
    ensures exists i :: 0 <= i < |targets| && targets[i] == b && Confirmed(cfg, facts[i])
  {
    hide Walk, Covered, Confirmed;
    RecordIsSound(cfg, seeded, targets, facts);
    VerifiedAreConfirmed(cfg, Opening(EMPTY, seeded), targets, facts, b);
  }

  /** Once a sequential replay has lost its state it verifies nothing more. */
  lemma {:induction false} LostStateVerifiesNothing(cfg: Config, s: Session, targets: seq<nat>, facts: seq<Facts>)
    requires |targets| == |facts| && cfg.sequential && !s.carried
    ensures Walk(cfg, s, targets, facts).verified == s.verified
    decreases |targets|
  {
    hide Step;
    if targets != [] && s.phase == Going {
      VerifiedStep(cfg, s, targets[0], facts[0]);
      LostStays(cfg, s, targets[0], facts[0]);
      LostStateVerifiesNothing(cfg, Step(cfg, s, targets[0], facts[0]), targets[1..], facts[1..]);
    }
  }

  lemma {:induction false} LostStays(cfg: Config, s: Session, n: nat, f: Facts)
    requires cfg.sequential && !s.carried
    ensures !Step(cfg, s, n, f).carried && Step(cfg, s, n, f).verified == s.verified
  {
    hide CloseRun, WriteCoverage;
  }

  /** The replay stops in time: there are never more failures than it allows. */
  lemma {:induction false} FailuresBounded(cfg: Config, s: Session, targets: seq<nat>, facts: seq<Facts>)
    requires |targets| == |facts| && cfg.maxFailures > 0 && s.diverged + s.unverifiable <= cfg.maxFailures
    ensures var t := Walk(cfg, s, targets, facts);
            t.diverged + t.unverifiable <= cfg.maxFailures
    decreases |targets|
  {
    hide Judge, CloseRun, WriteCoverage;
    if targets != [] && s.phase == Going {
      FailuresBounded(cfg, Step(cfg, s, targets[0], facts[0]), targets[1..], facts[1..]);
    }
  }

  /** The counts are the failed blocks, but for the one at which a lost scratch store ended the session. */
  ghost predicate Counted(s: Session) {
    || s.diverged + s.unverifiable == |s.failed|
    || (s.phase == Bailed && s.diverged + s.unverifiable + 1 == |s.failed|)
  }

  /** Over every session the divergent and the unverifiable blocks are counted once each. */
  lemma {:induction false} CountsAreFailures(cfg: Config, s: Session, next: nat, targets: seq<nat>, facts: seq<Facts>)
    requires |targets| == |facts| && Targets(cfg, next, targets) && forall b :: b in s.failed ==> b < next
    requires s.diverged + s.unverifiable == |s.failed|
    ensures Counted(Walk(cfg, s, targets, facts))
    decreases |targets|
  {
    hide Step;
    if targets != [] && s.phase == Going {
      var t := Step(cfg, s, targets[0], facts[0]);
      CountStep(cfg, s, targets[0], facts[0]);
      if t.phase == Going {
        CountsAreFailures(cfg, t, targets[0] + 1, targets[1..], facts[1..]);
      } else {
        WalkOver(cfg, t, targets[1..], facts[1..]);
      }
    }
  }

  lemma {:induction false} CountStep(cfg: Config, s: Session, n: nat, f: Facts)
    requires s.diverged + s.unverifiable == |s.failed| && n !in s.failed && s.phase == Going
    ensures var t := Step(cfg, s, n, f);
            && s.failed <= t.failed <= s.failed + {n}
            && Counted(t) && (t.phase == Going ==> t.diverged + t.unverifiable == |t.failed|)
  {
    hide Judge, Enter;
    var (v, carried) := Judge(cfg, s.carried, f);
    EnterOnlyWrites(cfg, s.(carried := carried), n, v);
    assert |s.failed + {n}| == |s.failed| + 1;
  }

  /** Writing a verdict down changes the book and the open run, and nothing else. */
  lemma {:induction false} EnterOnlyWrites(cfg: Config, s: Session, n: nat, v: Verdict)
    ensures var t := Enter(cfg, s, n, v);
            t == s.(book := t.book, run := t.run)
  {
    hide CloseRun, WriteCoverage;
  }

  // ----- sessions after the first

  /** The same session over a store that already held `base`. */
  ghost predicate Overlays(base: map<nat, nat>, s: Session, e: Session) {
    && s == e.(book := s.book)
    && s.book.coverage == base + e.book.coverage
  }

  lemma {:induction false} OverWrites(base: map<nat, nat>, b: Book, e: Book, start: nat, end: int)
    requires b.coverage == base + e.coverage
    ensures WriteCoverage(b, start, end).coverage == base + WriteCoverage(e, start, end).coverage
  {
    if start <= end {
      assert (base + e.coverage)[start := end] == base + e.coverage[start := end];
    }
  }

  lemma {:induction false} OverCloses(base: map<nat, nat>, b: Book, e: Book, run: Option<nat>, n: nat)
    requires b.coverage == base + e.coverage
    ensures CloseRun(b, run, n).coverage == base + CloseRun(e, run, n).coverage
  {
    hide WriteCoverage;
    if run.Some? {
      OverWrites(base, b, e, run.value, n - 1);
    }
  }

  lemma {:induction false} OverEnters(cfg: Config, base: map<nat, nat>, s: Session, e: Session, n: nat, v: Verdict)
    requires Overlays(base, s, e)
    ensures Overlays(base, Enter(cfg, s, n, v), Enter(cfg, e, n, v))
  {
    hide WriteCoverage, CloseRun;
    OverWrites(base, s.book, e.book, n, n);
    OverCloses(base, s.book, e.book, s.run, n);
  }

  lemma {:induction false} OverCounts(base: map<nat, nat>, s: Session, e: Session, n: nat, v: Verdict)
    requires Overlays(base, s, e)
    ensures Overlays(base, Count(s, n, v), Count(e, n, v))
  {
  }

  lemma {:induction false} OverSteps(cfg: Config, base: map<nat, nat>, s: Session, e: Session, n: nat, f: Facts)
    requires Overlays(base, s, e)
    ensures Overlays(base, Step(cfg, s, n, f), Step(cfg, e, n, f))
  {
    hide Judge, Enter, Count;
    var (v, carried) := Judge(cfg, s.carried, f);
    var s1, e1 := s.(carried := carried), e.(carried := carried);
    OverEnters(cfg, base, s1, e1, n, v);
    OverCounts(base, Enter(cfg, s1, n, v), Enter(cfg, e1, n, v), n, v);
  }

  lemma {:induction false} OverWalks(cfg: Config, base: map<nat, nat>, s: Session, e: Session, targets: seq<nat>,
                                     facts: seq<Facts>)
    requires Overlays(base, s, e) && |targets| == |facts|
    ensures Overlays(base, Walk(cfg, s, targets, facts), Walk(cfg, e, targets, facts))
    decreases |targets|
  {
    hide Step;
    if targets != [] && s.phase == Going {
      OverSteps(cfg, base, s, e, targets[0], facts[0]);
      OverWalks(cfg, base, Step(cfg, s, targets[0], facts[0]), Step(cfg, e, targets[0], facts[0]), targets[1..],
                facts[1..]);
    }
  }

  /**
   A session over a store with earlier records lays its own spans over them: a span beginning at the same block is
   replaced, and every other one stays. So a block is covered afterwards exactly when this session covers it, or an
   earlier span does that begins where none of this session's begins.
   */
  lemma {:induction false} LaterSession(cfg: Config, book: Book, seeded: bool, targets: seq<nat>, facts: seq<Facts>,
                                        b: nat)
    requires |targets| == |facts| > 0
    ensures var r := Replayed(cfg, book, seeded, targets, facts);
            var own := Replayed(cfg, EMPTY, seeded, targets, facts).book.coverage;
            && r.book.coverage == book.coverage + own
            && (Covered(r.book.coverage, b) <==>
                Covered(own, b) || exists a :: a in book.coverage && a !in own && a <= b <= book.coverage[a])
  {
    hide Walk, WriteCoverage;
    var s, e := Opening(book, seeded), Opening(EMPTY, seeded);
    assert book.coverage == book.coverage + map[];
    OverWalks(cfg, book.coverage, s, e, targets, facts);
    var t, u := Walk(cfg, s, targets, facts), Walk(cfg, e, targets, facts);
    if t.run.Some? {
      var end := if t.stopped.Some? then t.stopped.value else targets[|targets| - 1];
      OverWrites(book.coverage, t.book, u.book, t.run.value, end);
    }
    CoveredOver(book.coverage, Replayed(cfg, EMPTY, seeded, targets, facts).book.coverage, b);
  }

  lemma {:induction false} CoveredOver(base: map<nat, nat>, own: map<nat, nat>, b: nat)
    ensures Covered(base + own, b) <==> Covered(own, b) || exists a :: a in base && a !in own && a <= b <= base[a]
  {
    var all := base + own;
    if Covered(own, b) {
      var a :| a in own && a <= b <= own[a];
      assert a in all && all[a] == own[a];
    }
    if a :| a in base && a !in own && a <= b <= base[a] {
      assert a in all && all[a] == base[a];
    }
  }

  /** Gaps under an earlier session's: its own, and those it did not cover. */
  ghost predicate GapsOver(base: set<nat>, b: Book, e: Book) {
    forall g :: g in b.gaps <==> g in e.gaps || (g in base && !Covered(e.coverage, g))
  }

  lemma {:induction false} GapsWrite(base: set<nat>, b: Book, e: Book, start: nat, end: int)
    requires GapsOver(base, b, e) && start !in e.coverage
    ensures GapsOver(base, WriteCoverage(b, start, end), WriteCoverage(e, start, end))
  {
    hide Covered;
    if start <= end {
      var b1, e1 := WriteCoverage(b, start, end), WriteCoverage(e, start, end);
      forall g ensures g in b1.gaps <==> g in e1.gaps || (g in base && !Covered(e1.coverage, g)) {
        if g >= 0 {
          CoveredWritten(e.coverage, start, end, g);
        }
        assert g in b.gaps <==> g in e.gaps || (g in base && !Covered(e.coverage, g));
      }
    }
  }

  lemma {:induction false} GapsClose(base: set<nat>, b: Book, e: Book, run: Option<nat>, n: nat)
    requires GapsOver(base, b, e) && (run.Some? ==> run.value !in e.coverage)
    ensures GapsOver(base, CloseRun(b, run, n), CloseRun(e, run, n))
  {
    hide Covered, WriteCoverage;
    if run.Some? {
      GapsWrite(base, b, e, run.value, n - 1);
    }
  }

  /** No span is ever written over in a session that began with an empty book. */
  lemma {:induction false} WritesFresh(cfg: Config, e: Session, next: nat, n: nat)
    requires Fits(cfg, e, next) && next <= n
    ensures n !in e.book.coverage && (e.run.Some? ==> e.run.value !in e.book.coverage)
  {
    hide Covered, Exact, Maximal, GapsFit;
  }

  /** Two sessions that differ in their books alone. */
  ghost predicate Alike(base: set<nat>, s: Session, e: Session) {
    s == e.(book := s.book) && GapsOver(base, s.book, e.book)
  }

  lemma {:induction false} GapsEnter(cfg: Config, base: set<nat>, s: Session, e: Session, n: nat, v: Verdict)
    requires Alike(base, s, e) && n !in e.book.coverage && (e.run.Some? ==> e.run.value !in e.book.coverage)
    ensures Alike(base, Enter(cfg, s, n, v), Enter(cfg, e, n, v))
  {
    hide CloseRun, WriteCoverage, GapsOver;
    GapsWrite(base, s.book, e.book, n, n);
    GapsClose(base, s.book, e.book, s.run, n);
  }

  lemma {:induction false} GapsCount(base: set<nat>, s: Session, e: Session, n: nat, v: Verdict)
    requires Alike(base, s, e)
    ensures Alike(base, Count(s, n, v), Count(e, n, v))
  {
    hide GapsOver;
  }

  lemma {:induction false} GapsStep(cfg: Config, base: set<nat>, s: Session, e: Session, next: nat, n: nat, f: Facts)
    requires Alike(base, s, e) && Fits(cfg, e, next) && next <= n
    ensures Alike(base, Step(cfg, s, n, f), Step(cfg, e, n, f))
  {
    hide Judge, Enter, Count, Fits, GapsOver;
    WritesFresh(cfg, e, next, n);
    var (v, carried) := Judge(cfg, s.carried, f);
    var s1, e1 := s.(carried := carried), e.(carried := carried);
    GapsEnter(cfg, base, s1, e1, n, v);
    GapsCount(base, Enter(cfg, s1, n, v), Enter(cfg, e1, n, v), n, v);
  }

  lemma {:induction false} GapsWalk(cfg: Config, base: set<nat>, s: Session, e: Session, next: nat, targets: seq<nat>,
                                    facts: seq<Facts>)
    requires |targets| == |facts| && cfg.recording && Targets(cfg, next, targets) && e.phase == Going
    requires Alike(base, s, e) && Fits(cfg, e, next)
    ensures Alike(base, Walk(cfg, s, targets, facts), Walk(cfg, e, targets, facts))
    decreases |targets|
  {
    hide Step, Fits, GapsOver;
    if targets != [] {
      var n := targets[0];
      var t, u := Step(cfg, s, n, facts[0]), Step(cfg, e, n, facts[0]);
      GapsStep(cfg, base, s, e, next, n, facts[0]);
      var m := StepFits(cfg, e, next, n, facts[0]);
      if u.phase == Going {
        GapsWalk(cfg, base, t, u, n + 1, targets[1..], facts[1..]);
      } else {
        WalkOver(cfg, t, targets[1..], facts[1..]);
        WalkOver(cfg, u, targets[1..], facts[1..]);
      }
    }
  }

  /** Gaps after a later session: those it leaves, and the earlier ones it does not cover. */
  lemma {:induction false} LaterGaps(cfg: Config, book: Book, seeded: bool, targets: seq<nat>, facts: seq<Facts>,
                                     g: nat)
    requires cfg.recording && |targets| == |facts| > 0 && Targets(cfg, targets[0], targets)
    ensures var r := Replayed(cfg, book, seeded, targets, facts);
            var own := Replayed(cfg, EMPTY, seeded, targets, facts);
            && r == own.(book := r.book)
            && (g in r.book.gaps <==> g in own.book.gaps || (g in book.gaps && !Covered(own.book.coverage, g)))
  {
    hide Walk, WriteCoverage, Fits, Covered;
    var s, e := Opening(book, seeded), Opening(EMPTY, seeded);
    OpeningFits(cfg, seeded, targets[0]);
    assert GapsOver(book.gaps, s.book, e.book) by { NothingCovered(book.gaps); }
    GapsWalk(cfg, book.gaps, s, e, targets[0], targets, facts);
    var t, u := Walk(cfg, s, targets, facts), Walk(cfg, e, targets, facts);
    var m := WalkFits(cfg, e, targets[0], targets, facts);
    if u.run.Some? && u.phase != Bailed {
      WritesFresh(cfg, u, m, m);
      var end := if u.stopped.Some? then u.stopped.value else targets[|targets| - 1];
      GapsWrite(book.gaps, t.book, u.book, u.run.value, end);
    }
  }

  lemma {:induction false} NothingCovered(base: set<nat>)
    ensures forall g: nat :: g in base ==> !Covered(map[], g)
  {
  }

  /**
   So across sessions a block can be both: one that fails now is a gap, and is still covered exactly if an earlier span
   covers it that begins where none of this session's does.
   */
  lemma {:induction false} FailedYetCovered(cfg: Config, book: Book, seeded: bool, targets: seq<nat>,
                                            facts: seq<Facts>, n: nat)
    requires cfg.recording && |targets| == |facts| > 0 && Targets(cfg, targets[0], targets)
    ensures var r := Replayed(cfg, book, seeded, targets, facts);
            var own := Replayed(cfg, EMPTY, seeded, targets, facts).book.coverage;
            n in r.failed ==>
            && n in r.book.gaps
            && (Covered(r.book.coverage, n) <==>
                exists a :: a in book.coverage && a !in own && a <= n <= book.coverage[a])
  {
    hide Replayed, Covered;
    LaterGaps(cfg, book, seeded, targets, facts, n);
    LaterSession(cfg, book, seeded, targets, facts, n);
    FailureEndsRun(cfg, seeded, targets, facts, n);
  }

  /** One block of an earlier span replayed again and found incomplete: it fails, is a gap, and stays covered. */
  lemma {:induction false} CoveredAndGap()
    ensures var cfg := Config(true, true, false, false, 10);
            var r := Replayed(cfg, Book(map[5 := 10], {}), false, [7], [Incomplete]);
            7 in r.failed && 7 in r.book.gaps && Covered(r.book.coverage, 7)
  {
    var cfg := Config(true, true, false, false, 10);
    var s := Opening(Book(map[5 := 10], {}), false);
    WalkOne(cfg, s, 7, Incomplete);
    var t := Step(cfg, s, 7, Incomplete);
    assert t.run == None && t.book == Book(map[5 := 10], {7}) && t.failed == {7};
    assert 5 in t.book.coverage && 5 <= 7 <= t.book.coverage[5];
  }

  /** So coverage can shrink: a second, shorter session from the same block takes the earlier span's place. */
  lemma {:induction false} ShorterSessionForgets(good: Facts)
    requires Confirmed(Config(true, true, false, false, 10), good) && good.parentState
    ensures var cfg := Config(true, true, false, false, 10);
            var r := Replayed(cfg, Book(map[5 := 10], {}), false, [5], [good]);
            Covered(map[5 := 10], 7) && !Covered(r.book.coverage, 7)
  {
    var cfg := Config(true, true, false, false, 10);
    var s := Opening(Book(map[5 := 10], {}), false);
    VerifiedIff(cfg, false, good);
    var t := Step(cfg, s, 5, good);
    assert t.run == Some(5) && t.phase == Going && t.stopped == None && t.book == s.book;
    assert [5][1..] == [] && [good][1..] == [];
    assert Walk(cfg, s, [5], [good]) == t by { WalkOne(cfg, s, 5, good); }
    assert Ended(t, 5).book.coverage == map[5 := 5];
    var whole: map<nat, nat> := map[5 := 10];
    assert 5 in whole && 5 <= 7 <= whole[5];
  }

  lemma {:induction false} WalkOne(cfg: Config, s: Session, n: nat, f: Facts)
    requires s.phase == Going
    ensures Walk(cfg, s, [n], [f]) == Step(cfg, s, n, f)
  {
    hide Step;
    var t := Step(cfg, s, n, f);
    assert [n][1..] == [] && [f][1..] == [];
    assert Walk(cfg, t, [], []) == t;
  }
}
