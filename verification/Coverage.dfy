/**
 A replay over a list of blocks that records which of them it verified: spans of verified blocks, and gaps for the
 blocks that ended them.
 */
module Coverage {
  import opened Options

  // ----- what replaying one block comes to

  datatype Execution =
    | Errs
    | Runs(scratchLost: bool, unitrie: bool, translated: bool, wanted: bool,
           rootMatches: bool, receiptsMatch: bool, gasMatches: bool, theirs: bool)

  /** What the sources hold for a block: a read fails, something is missing, or it can be run (given a state). */
  datatype Facts = Unreadable | Incomplete | Complete(parentState: bool, run: Execution)

  datatype Config = Config(recording: bool, contiguous: bool, sequential: bool, explain: bool, maxFailures: nat)

  datatype Verdict = Verified | Unchecked | Unverifiable | Diverged(explained: bool) | ScratchLost | Aborted

  predicate ViaOrchid(cfg: Config, r: Execution)
    requires r.Runs?
  {
    !r.unitrie && !r.translated && (!cfg.contiguous || r.wanted)
  }

  predicate Compared(cfg: Config, r: Execution)
    requires r.Runs?
  {
    r.unitrie || r.translated || ViaOrchid(cfg, r)
  }

  /** The verdict on an executed block. A mismatch through the older root's conversion is no verdict at all. */
  function Weigh(cfg: Config, r: Execution): (v: Verdict) {
    if r.Errs? then Diverged(false)
    else if r.scratchLost then ScratchLost
    else
      var stateOk := !Compared(cfg, r) || r.rootMatches;
      if ViaOrchid(cfg, r) && !stateOk then Unverifiable
      else if stateOk && r.receiptsMatch && r.gasMatches then (if Compared(cfg, r) then Verified else Unchecked)
      else Diverged(cfg.explain && (if stateOk then !r.receiptsMatch else r.theirs))
  }

  /** The verdict on a block, given whether a state is carried to it, and whether one is carried on. */
  function Judge(cfg: Config, carried: bool, f: Facts): (r: (Verdict, bool)) {
    match f
    case Unreadable => (Aborted, carried)
    case Incomplete => (Unverifiable, carried)
    case Complete(parentState, run) =>
      if cfg.sequential && !carried then (Unverifiable, false)
      else if !cfg.sequential && !parentState then (Unverifiable, carried)
      else
        var v := Weigh(cfg, run);
        (v, if cfg.sequential then run.Runs? && v != ScratchLost else carried)
  }

  // ----- the book

  datatype Book = Book(coverage: map<nat, nat>, gaps: set<nat>)

  /** Spans are kept under their first block; a block that verifies is no longer a gap. */
  function WriteCoverage(b: Book, start: nat, end: int): (r: Book) {
    if end < start then b
    else Book(b.coverage[start := end], set g | g in b.gaps && !(start <= g <= end))
  }

  /** Ends the open run just before the failed block, and notes the gap. */
  function CloseRun(b: Book, run: Option<nat>, failed: nat): (r: Book) {
    var b1 := if run.Some? then WriteCoverage(b, run.value, failed - 1) else b;
    Book(b1.coverage, b1.gaps + {failed})
  }

  datatype Phase = Going | Over | Bailed

  datatype Session = Session(
    book: Book, run: Option<nat>, carried: bool, diverged: nat, unverifiable: nat, stopped: Option<int>, phase: Phase,
    verified: set<nat>, failed: set<nat>)

  /** The verdict written into the book. */
  function Enter(cfg: Config, s: Session, n: nat, v: Verdict): (t: Session) {
    if !cfg.recording then s
    else
      match v
      case Verified =>
        if cfg.contiguous then s.(run := if s.run.Some? then s.run else Some(n))
        else s.(book := WriteCoverage(s.book, n, n))
      case Unchecked =>
        if !cfg.contiguous then s.(book := WriteCoverage(s.book, n, n))
        else if s.run.Some? then s.(book := CloseRun(s.book, s.run, n), run := None)
        else s
      case Aborted => s
      case _ => s.(book := CloseRun(s.book, s.run, n), run := None)
  }

  /** The verdict counted. */
  function Count(s: Session, n: nat, v: Verdict): (t: Session) {
    match v
    case Verified => s.(verified := s.verified + {n})
    case Unchecked => s
    case Unverifiable => s.(unverifiable := s.unverifiable + 1, failed := s.failed + {n})
    case Diverged(explained) =>
      s.(diverged := s.diverged + 1, failed := s.failed + {n}, stopped := if explained then Some(n) else s.stopped,
         phase := if explained then Over else s.phase)
    case ScratchLost => s.(failed := s.failed + {n}, phase := Bailed)
    case Aborted => s.(phase := Bailed)
  }

  predicate Full(cfg: Config, s: Session) {
    cfg.maxFailures > 0 && s.diverged + s.unverifiable >= cfg.maxFailures
  }

  function Step(cfg: Config, s: Session, n: nat, f: Facts): (t: Session) {
    if Full(cfg, s) then s.(stopped := Some(n - 1), phase := Over)
    else
      var (v, carried) := Judge(cfg, s.carried, f);
      Count(Enter(cfg, s.(carried := carried), n, v), n, v)
  }

  function Walk(cfg: Config, s: Session, targets: seq<nat>, facts: seq<Facts>): (t: Session)
    requires |targets| == |facts|
    decreases |targets|
  {
    if targets == [] || s.phase != Going then s
    else Walk(cfg, Step(cfg, s, targets[0], facts[0]), targets[1..], facts[1..])
  }

  /** The last run has no failing block to close it, so it is closed at the end, unless the replay bailed out. */
  function Ended(s: Session, last: nat): (t: Session) {
    if s.phase == Bailed || s.run.None? then s
    else
      var end := if s.stopped.Some? then s.stopped.value else last;
      s.(book := WriteCoverage(s.book, s.run.value, end), run := None)
  }

  function Opening(book: Book, seeded: bool): (s: Session) {
    Session(book, None, seeded, 0, 0, None, Going, {}, {})
  }

  function Replayed(cfg: Config, book: Book, seeded: bool, targets: seq<nat>, facts: seq<Facts>): (t: Session)
    requires |targets| == |facts| > 0
  {
    Ended(Walk(cfg, Opening(book, seeded), targets, facts), targets[|targets| - 1])
  }

  // ----- the replay itself

  /** The replay, together with the two tables of the store it records into. */
  class Replayer {
    const cfg: Config
    var coverage: map<nat, nat>
    var gaps: set<nat>
    var runStart: Option<nat>
    var carried: bool
    var diverged: nat
    var unverifiable: nat
    var stoppedAt: Option<int>
    var phase: Phase
    ghost var verified: set<nat>
    ghost var failed: set<nat>

    ghost function Tables(): (b: Book) reads this {
      Book(coverage, gaps)
    }

    ghost function Now(): (s: Session) reads this {
      Session(Tables(), runStart, carried, diverged, unverifiable, stoppedAt, phase, verified, failed)
    }

    constructor (cfg: Config, coverage: map<nat, nat>, gaps: set<nat>, seeded: bool)
      ensures this.cfg == cfg && Now() == Opening(Book(coverage, gaps), seeded)
    {
      this.cfg, this.coverage, this.gaps, carried := cfg, coverage, gaps, seeded;
      runStart, diverged, unverifiable, stoppedAt, phase, verified, failed := None, 0, 0, None, Going, {}, {};
    }

    method RecordSpan(start: nat, end: int)
      modifies `coverage, `gaps
      ensures Tables() == WriteCoverage(old(Tables()), start, end)
    {
      if end < start {
        return;
      }
      var b := start;
      while b <= end
        modifies `gaps
        invariant start <= b <= end + 1
        invariant gaps == set g | g in old(gaps) && !(start <= g < b)
        decreases end + 1 - b
      {
        gaps := gaps - {b};
        b := b + 1;
      }
      coverage := coverage[start := end];
    }

    method EndRun(n: nat)
      modifies `coverage, `gaps, `runStart
      ensures Tables() == CloseRun(old(Tables()), old(runStart), n) && runStart == None
    {
      if runStart.Some? {
        RecordSpan(runStart.value, n - 1);
      }
      runStart := None;
      gaps := gaps + {n};
    }

    method Record(n: nat, v: Verdict)
      modifies `coverage, `gaps, `runStart
      ensures Now() == Enter(cfg, old(Now()), n, v)
    {
      hide WriteCoverage, CloseRun;
      if !cfg.recording {
        return;
      }
      match v
      case Verified =>
        if cfg.contiguous {
          runStart := if runStart.Some? then runStart else Some(n);
        } else {
          RecordSpan(n, n);
        }
      case Unchecked =>
        if !cfg.contiguous {
          RecordSpan(n, n);
        } else if runStart.Some? {
          EndRun(n);
        }
      case Aborted =>
      case _ => EndRun(n);
    }

    method Block(n: nat, f: Facts)
      modifies this
      ensures Now() == Step(cfg, old(Now()), n, f)
    {
      hide Enter, Judge, Count;
      if cfg.maxFailures > 0 && diverged + unverifiable >= cfg.maxFailures {
        stoppedAt := Some(n - 1);
        phase := Over;
        return;
      }
      var (v, onward) := Judge(cfg, carried, f);
      carried := onward;
      Record(n, v);
      Tally(n, v);
    }

    method Tally(n: nat, v: Verdict)
      modifies `diverged, `unverifiable, `stoppedAt, `phase, `verified, `failed
      ensures Now() == Count(old(Now()), n, v)
    {
      match v
      case Verified =>
        verified := verified + {n};
      case Unchecked =>
      case Unverifiable =>
        unverifiable := unverifiable + 1;
        failed := failed + {n};
      case Diverged(explained) =>
        diverged := diverged + 1;
        failed := failed + {n};
        if explained {
          stoppedAt := Some(n);
          phase := Over;
        }
      case ScratchLost =>
        failed := failed + {n};
        phase := Bailed;
      case Aborted =>
        phase := Bailed;
    }

    method Replay(targets: seq<nat>, facts: seq<Facts>)
      requires |targets| == |facts| > 0 && phase == Going
      modifies this
      ensures Now() == Ended(Walk(cfg, old(Now()), targets, facts), targets[|targets| - 1])
    {
      hide Step, WriteCoverage;
      var i := 0;
      while i < |targets| && phase == Going
        invariant 0 <= i <= |targets|
        invariant Walk(cfg, Now(), targets[i..], facts[i..]) == Walk(cfg, old(Now()), targets, facts)
      {
        assert targets[i..][1..] == targets[i + 1..] && facts[i..][1..] == facts[i + 1..];
        Block(targets[i], facts[i]);
        i := i + 1;
      }
      if phase != Bailed && runStart.Some? {
        RecordSpan(runStart.value, if stoppedAt.Some? then stoppedAt.value else targets[|targets| - 1]);
        runStart := None;
      }
    }
  }
}
