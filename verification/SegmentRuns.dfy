/**
 What chunk claiming comes to over whole runs: no process is ever stuck, every chunk is settled, and settled once, and
 why the ids of the processes must differ.
 */
module SegmentRuns {
  import opened Options
  import opened Segments

  // ----- the order of a listing

  /** The order in which a listing is tried: by name, but the chunk beginning where the last one ended comes first. */
  ghost predicate ClaimOrder(list: seq<Stem>, prefer: Option<nat>) {
    if prefer.Some? && exists i :: 0 <= i < |list| && list[i].start == prefer then
      && list[0].start == prefer
      && (forall i :: 0 < i < |list| && list[i].start == prefer ==> list[0].name <= list[i].name)
      && (forall i, j :: 0 < i < j < |list| ==> list[i].name <= list[j].name)
    else
      forall i, j :: 0 <= i < j < |list| ==> list[i].name <= list[j].name
  }

  predicate Sorted(list: seq<Stem>) {
    forall i, j :: 0 <= i < j < |list| ==> list[i].name <= list[j].name
  }

  predicate Distinct(list: seq<Stem>) {
    forall i, j :: 0 <= i < j < |list| ==> list[i] != list[j]
  }

  /** The sequence with its element at `i` moved to the front. */
  function Fronted(list: seq<Stem>, i: nat): (r: seq<Stem>)
    requires i < |list|
  {
    [list[i]] + list[..i] + list[i + 1..]
  }

  lemma {:induction false} FrontedAt(list: seq<Stem>, i: nat, k: nat)
    requires i < |list| && k < |list|
    ensures |Fronted(list, i)| == |list|
    ensures Fronted(list, i)[k] == if k == 0 then list[i] else if k <= i then list[k - 1] else list[k]
  {
  }

  lemma {:induction false} FrontedMembers(list: seq<Stem>, i: nat)
    requires i < |list|
    ensures forall x :: x in Fronted(list, i) <==> x in list
  {
    assert list == list[..i] + [list[i]] + list[i + 1..];
  }

  lemma {:induction false} FrontedDistinct(list: seq<Stem>, i: nat)
    requires Distinct(list) && i < |list|
    ensures Distinct(Fronted(list, i))
  {
    hide Fronted;
    var r := Fronted(list, i);
    FrontedAt(list, i, 0);
    forall j, k | 0 <= j < k < |r| ensures r[j] != r[k] {
      FrontedAt(list, i, j);
      FrontedAt(list, i, k);
    }
  }

  lemma {:induction false} FrontedOrder(list: seq<Stem>, i: nat, prefer: Option<nat>)
    requires Sorted(list) && i < |list| && prefer.Some? && list[i].start == prefer
    requires forall k :: 0 <= k < i ==> list[k].start != prefer
    ensures ClaimOrder(Fronted(list, i), prefer)
  {
    hide Fronted;
    var r := Fronted(list, i);
    FrontedAt(list, i, 0);
    assert r[0].start == prefer;
    forall k | 0 < k < |r| && r[k].start == prefer ensures r[0].name <= r[k].name {
      FrontedAt(list, i, k);
    }
    forall j, k | 0 < j < k < |r| ensures r[j].name <= r[k].name {
      FrontedAt(list, i, j);
      FrontedAt(list, i, k);
    }
  }

  lemma {:induction false} FrontedKeeps(list: seq<Stem>, i: nat, prefer: Option<nat>)
    requires Sorted(list) && Distinct(list) && i < |list| && prefer.Some? && list[i].start == prefer
    requires forall k :: 0 <= k < i ==> list[k].start != prefer
    ensures ClaimOrder(Fronted(list, i), prefer) && Distinct(Fronted(list, i))
    ensures forall x :: x in Fronted(list, i) <==> x in list
  {
    hide Fronted, ClaimOrder, Distinct;
    FrontedMembers(list, i);
    FrontedDistinct(list, i);
    FrontedOrder(list, i, prefer);
  }

  /** How a sorted listing is put in the order in which it is tried. */
  method OrderClaims(todo: seq<Stem>, prefer: Option<nat>) returns (list: seq<Stem>)
    requires Sorted(todo) && Distinct(todo)
    ensures ClaimOrder(list, prefer) && Distinct(list) && forall x :: x in list <==> x in todo
  {
    list := todo;
    if prefer.Some? {
      var i := 0;
      while i < |todo| && todo[i].start != prefer
        invariant i <= |todo| && forall k :: 0 <= k < i ==> todo[k].start != prefer
      {
        i := i + 1;
      }
      if i < |todo| {
        list := Fronted(todo, i);
        FrontedKeeps(todo, i, prefer);
      }
    }
  }

  lemma {:induction false} SortStems(xs: set<Stem>) returns (r: seq<Stem>)
    ensures Sorted(r) && Distinct(r) && forall x :: x in r <==> x in xs
  {
    r := [];
    var left := xs;
    while left != {}
      invariant left <= xs && Sorted(r) && Distinct(r) && forall x :: x in r <==> x in xs - left
      invariant forall i, x :: 0 <= i < |r| && x in left ==> r[i].name <= x.name
      decreases left
    {
      var m := LeastStem(left);
      assert m !in r;
      r := r + [m];
      left := left - {m};
    }
  }

  lemma {:induction false} LeastStem(xs: set<Stem>) returns (m: Stem)
    requires xs != {}
    ensures m in xs && forall x :: x in xs ==> m.name <= x.name
    decreases xs
  {
    m :| m in xs;
    if xs != {m} {
      var n := LeastStem(xs - {m});
      m := if n.name < m.name then n else m;
    }
  }

  /** Every live process always has a next step, so no run is stuck before all have stopped. */
  lemma {:induction false} LiveCanStep(s: State, p: nat) returns (st: Step)
    requires p < |s.workers| && Live(s.workers[p])
    ensures st.p == p && !st.Start? && !st.Crash? && Enabled(s, st)
    ensures st.List? ==>
            && Lists(st.list, s.dir, Todo) && ClaimOrder(st.list, s.workers[p].phase.prefer)
            && NamesChunks(st.list, Stems(s.dir)) && MissesNone(s.dir, st)
  {
    match s.workers[p].phase
    case Reclaiming(_) => st := Reclaim(p);
    case Idle(prefer) =>
      var list := AnyListing(s.dir, prefer);
      st := List(p, list);
      assert forall i :: 0 <= i < |list| ==> File(list[i], Todo) in s.dir;
    case Trying(_) => st := Try(p);
    case Returning(_, _) => st := Return(p);
    case Running(_) => st := Finish(p);
  }

  lemma {:induction false} AnyListing(d: Dir, prefer: Option<nat>) returns (list: seq<Stem>)
    ensures Lists(list, d, Todo) && ClaimOrder(list, prefer)
  {
    var xs := set f | f in d && f.status == Todo :: f.stem;
    assert forall x :: x in xs <==> File(x, Todo) in d;
    list := SortStems(xs);
    if prefer.Some? && exists i :: 0 <= i < |list| && list[i].start == prefer {
      var i := FirstStart(list, prefer);
      FrontedKeeps(list, i, prefer);
      list := Fronted(list, i);
    }
  }

  lemma {:induction false} FirstStart(list: seq<Stem>, prefer: Option<nat>) returns (i: nat)
    requires exists i :: 0 <= i < |list| && list[i].start == prefer
    ensures i < |list| && list[i].start == prefer && forall k :: 0 <= k < i ==> list[k].start != prefer
  {
    i := 0;
    while list[i].start != prefer
      invariant i < |list| && forall k :: 0 <= k < i ==> list[k].start != prefer
      decreases |list| - i
    {
      i := i + 1;
    }
  }

  // ----- completeness

  /** A listing that leaves out no waiting chunk that could be run. */
  ghost predicate MissesNone(d: Dir, st: Step) {
    st.List? ==> forall x :: Parses(x) && File(x, Todo) in d ==> x in st.list
  }

  ghost predicate AllMissNone(s: State, steps: seq<Step>)
    decreases |steps|
  {
    steps == [] ||
    (Enabled(s, steps[0]) && MissesNone(s.dir, steps[0]) && AllMissNone(Next(s, steps[0]), steps[1..]))
  }

  /** The chunks waiting in the directory that a process could run are all still before it. */
  ghost predicate Aware(d: Dir, w: Worker) {
    match w.phase
    case Reclaiming(found) => found == []
    case Trying(list) => forall x :: Parses(x) && File(x, Todo) in d ==> x in list
    case Returning(stem, rest) => !Parses(stem) && forall x :: Parses(x) && File(x, Todo) in d ==> x in rest
    case Exhausted => forall x :: Parses(x) ==> File(x, Todo) !in d
    case _ => true
  }

  ghost predicate Owner(ws: seq<Worker>, p: nat, x: Stem, id: Id) {
    p < |ws| && ws[p].id == id && Held(ws[p]) == Some(x)
  }

  /** Every running file is being run. */
  ghost predicate Owned(s: State) {
    forall x, id :: File(x, Run(id)) in s.dir ==> exists p :: Owner(s.workers, p, x, id)
  }

  ghost predicate Orderly(s: State) {
    Owned(s) && forall p :: 0 <= p < |s.workers| ==> Aware(s.dir, s.workers[p])
  }

  lemma {:induction false} NothingToReclaim(s: State, st: Step)
    requires Owned(s) && Enabled(s, st) && Exclusive(s, st) && st.Start?
    ensures st.found == []
  {
    if st.found != [] {
      var x := st.found[0];
      assert x in st.found;
      LiveOwner(s, x, st.id);
    }
  }

  lemma {:induction false} LiveOwner(s: State, x: Stem, id: Id)
    requires Owned(s)
    ensures File(x, Run(id)) in s.dir ==>
            exists p :: 0 <= p < |s.workers| && Live(s.workers[p]) && s.workers[p].id == id
                && Held(s.workers[p]) == Some(x)
  {
    if File(x, Run(id)) in s.dir {
      var p: nat :| Owner(s.workers, p, x, id);
      assert Live(s.workers[p]);
    }
  }

  /** Without reclaiming, no chunk that parses becomes a waiting one. */
  lemma {:induction false} TodosShrink(d: Dir, w: Worker, st: Step, x: Stem)
    requires Aware(d, w) && Parses(x) && File(x, Todo) in Moved(d, Move(w, st))
    ensures File(x, Todo) in d
  {
  }

  lemma {:induction false} OthersAware(d: Dir, w: Worker, st: Step, v: Worker)
    requires Aware(d, w) && Aware(d, v)
    ensures Aware(Moved(d, Move(w, st)), v)
  {
    hide Moved, Move;
    forall x | Parses(x) && File(x, Todo) in Moved(d, Move(w, st)) ensures File(x, Todo) in d {
      TodosShrink(d, w, st, x);
    }
  }

  lemma {:induction false} SelfAware(d: Dir, w: Worker, st: Step)
    requires Aware(d, w) && Ready(d, w, st) && (st.Start? ==> st.found == []) && MissesNone(d, st)
    ensures Aware(Moved(d, Move(w, st)), Turn(d, w, st))
  {
  }

  lemma {:induction false} StepOwned(s: State, st: Step)
    requires Owned(s) && Enabled(s, st) && !st.Crash? && Aware(s.dir, s.workers[st.p])
    ensures Owned(Next(s, st))
  {
    hide Lists;
    var t := Next(s, st);
    forall x, id | File(x, Run(id)) in t.dir ensures exists p :: Owner(t.workers, p, x, id) {
      if File(x, Run(id)) in s.dir {
        var p: nat :| Owner(s.workers, p, x, id);
        assert Owner(t.workers, p, x, id);
      } else {
        assert Owner(t.workers, st.p, x, id);
      }
    }
  }

  lemma {:induction false} StepOrderly(s: State, st: Step)
    requires Orderly(s) && Enabled(s, st) && Exclusive(s, st) && MissesNone(s.dir, st) && !st.Crash?
    ensures Orderly(Next(s, st))
  {
    hide Aware, Owned, Ready, Moved, Move, Turn, MissesNone;
    var w := s.workers[st.p];
    if st.Start? {
      NothingToReclaim(s, st);
    }
    SelfAware(s.dir, w, st);
    StepOwned(s, st);
    forall q | 0 <= q < |s.workers| && q != st.p ensures Aware(Next(s, st).dir, s.workers[q]) {
      OthersAware(s.dir, w, st, s.workers[q]);
    }
  }

  lemma {:induction false} RunOrderly(s: State, steps: seq<Step>, t: State)
    requires Orderly(s) && Runs(s, steps, t) && AllExclusive(s, steps) && AllMissNone(s, steps)
    requires forall i :: 0 <= i < |steps| ==> !steps[i].Crash?
    ensures Orderly(t)
    decreases |steps|
  {
    hide Orderly, Ready, Exclusive, Next, MissesNone;
    if steps != [] {
      assert !steps[0].Crash?;
      StepOrderly(s, steps[0]);
      RunOrderly(Next(s, steps[0]), steps[1..], t);
    }
  }

  /**
   Without crashes and with listings that miss nothing waiting, once every process has stopped and one of them because
   it found nothing left, every chunk whose name parses has been settled. (If each stopped at a failure, chunks
   may be left waiting.)
   */
  lemma {:induction false} AllSettled(s: State, steps: seq<Step>, t: State, f: File)
    requires Orderly(s) && Runs(s, steps, t) && AllExclusive(s, steps) && AllMissNone(s, steps)
    requires forall i :: 0 <= i < |steps| ==> !steps[i].Crash?
    requires forall p :: 0 <= p < |t.workers| ==> !Live(t.workers[p])
    requires exists p :: 0 <= p < |t.workers| && t.workers[p].phase == Exhausted
    requires f in t.dir && Parses(f.stem)
    ensures f.status.Done? || f.status.Failed?
  {
    hide Runs, AllExclusive, AllMissNone;
    RunOrderly(s, steps, t);
    var p :| 0 <= p < |t.workers| && t.workers[p].phase == Exhausted;
    assert Aware(t.dir, t.workers[p]);
    assert f.status != Todo;
    LiveOwner(t, f.stem, if f.status.Run? then f.status.id else 0);
  }

  /**
   A crash loses nothing either: once a process started again under the same id is done reclaiming, no chunk is left
   running under that id but the one it holds.
   */
  lemma {:induction false} NothingLeftRunning(s: State, steps: seq<Step>, t: State, p: nat, x: Stem)
    requires Inv(s) && Runs(s, steps, t) && AllExclusive(s, steps)
    requires p < |t.workers| && Live(t.workers[p]) && !t.workers[p].phase.Reclaiming?
    ensures File(x, Run(t.workers[p].id)) in t.dir <==> Held(t.workers[p]) == Some(x)
  {
    hide Runs, AllExclusive;
    RunKeeps(s, steps, t);
    assert Holds(t.dir, t.workers[p]) && Accounted(t.dir, t.workers[p]);
  }

  // ----- each chunk is settled once

  /** The step ends a run of the chunk in this way. */
  predicate Settles(s: State, st: Step, x: Stem, done: bool) {
    st.p < |s.workers| && s.workers[st.p].phase == Running(x) && (if done then st.Finish? else st.Fail?)
  }

  ghost function Settlements(s: State, steps: seq<Step>, x: Stem, done: bool): (n: nat)
    requires AllExclusive(s, steps)
    decreases |steps|
  {
    if steps == [] then 0
    else (if Settles(s, steps[0], x, done) then 1 else 0) + Settlements(Next(s, steps[0]), steps[1..], x, done)
  }

  /** 1 if the chunk's file says it ended this way. */
  function Marked(d: Dir, x: Stem, done: bool): (n: nat) {
    if File(x, if done then Done else Failed) in d then 1 else 0
  }

  lemma {:induction false} SettleStep(s: State, st: Step, x: Stem, done: bool)
    requires Inv(s) && Enabled(s, st)
    ensures Marked(Next(s, st).dir, x, done) == Marked(s.dir, x, done) + if Settles(s, st, x, done) then 1 else 0
  {
    hide Lists, DistinctIds;
    var w := s.workers[st.p];
    assert Holds(s.dir, w);
  }

  /**
   Over every run a chunk comes to be done exactly when a run of it finishes, and failed exactly when one fails, and
   that happens at most once: no chunk is ever run to its end twice.
   */
  lemma {:induction false} SettledOnce(s: State, steps: seq<Step>, t: State, x: Stem)
    requires Inv(s) && Runs(s, steps, t) && AllExclusive(s, steps)
    ensures Settlements(s, steps, x, true) == Marked(t.dir, x, true) - Marked(s.dir, x, true)
    ensures Settlements(s, steps, x, false) == Marked(t.dir, x, false) - Marked(s.dir, x, false)
    ensures Settlements(s, steps, x, true) + Settlements(s, steps, x, false) <= 1
  {
    hide Runs, AllExclusive, Inv, Settlements;
    SettledCount(s, steps, t, x, true);
    SettledCount(s, steps, t, x, false);
    RunKeeps(s, steps, t);
    MarkedOnce(t, x);
  }

  lemma {:induction false} MarkedOnce(t: State, x: Stem)
    requires Inv(t)
    ensures Marked(t.dir, x, true) + Marked(t.dir, x, false) <= 1
  {
  }

  lemma {:induction false} SettledCount(s: State, steps: seq<Step>, t: State, x: Stem, done: bool)
    requires Inv(s) && Runs(s, steps, t) && AllExclusive(s, steps)
    ensures Settlements(s, steps, x, done) == Marked(t.dir, x, done) - Marked(s.dir, x, done)
    decreases |steps|
  {
    hide Inv, Ready, Exclusive, Next, Marked, Settles, Stems;
    if steps != [] {
      StepKeeps(s, steps[0]);
      SettleStep(s, steps[0], x, done);
      SettledCount(Next(s, steps[0]), steps[1..], t, x, done);
    }
  }

  // ----- what one process does in turn

  /** The first step of a process that has stopped, or never started, is a start. */
  lemma {:induction false} FirstIsStart(s: State, steps: seq<Step>, t: State, p: nat, j: nat)
    requires Runs(s, steps, t) && p < |s.workers| && !Live(s.workers[p]) && j < |steps| && steps[j].p == p
    ensures exists m :: 0 <= m <= j && steps[m].Start? && steps[m].p == p
    decreases |steps|
  {
    hide Move, Moved, Turn, Lists;
    if steps[0].p != p {
      FirstIsStart(Next(s, steps[0]), steps[1..], t, p, j - 1);
      var m :| 0 <= m <= j - 1 && steps[1..][m].Start? && steps[1..][m].p == p;
      assert steps[m + 1].Start? && steps[m + 1].p == p;
    } else {
      assert steps[0].Start?;
    }
  }

  /**
   A process that fails a chunk, or is killed, takes no further step before it is started again. So between two starts
   it fails one chunk at most, and settles none after it.
   */
  lemma {:induction false} FailureStops(s: State, steps: seq<Step>, t: State, i: nat, j: nat)
    requires Runs(s, steps, t) && i < j < |steps| && (steps[i].Fail? || steps[i].Crash?) && steps[j].p == steps[i].p
    ensures exists m :: i < m <= j && steps[m].Start? && steps[m].p == steps[i].p
    decreases |steps|
  {
    hide Move, Moved, Lists, Live;
    var rest, p := steps[1..], steps[i].p;
    if i > 0 {
      FailureStops(Next(s, steps[0]), rest, t, i - 1, j - 1);
      var m :| i - 1 < m <= j - 1 && rest[m].Start? && rest[m].p == p;
      assert steps[m + 1].Start? && steps[m + 1].p == p;
    } else {
      StoppedBy(s, steps[0]);
      FirstIsStart(Next(s, steps[0]), rest, t, p, j - 1);
      var m :| 0 <= m <= j - 1 && rest[m].Start? && rest[m].p == p;
      assert steps[m + 1].Start? && steps[m + 1].p == p;
    }
  }

  lemma {:induction false} StoppedBy(s: State, st: Step)
    requires Enabled(s, st) && (st.Fail? || st.Crash?)
    ensures !Live(Next(s, st).workers[st.p])
  {
  }

  lemma {:induction false} OthersLeave(s: State, steps: seq<Step>, t: State, p: nat)
    requires Runs(s, steps, t) && p < |s.workers| && forall i :: 0 <= i < |steps| ==> steps[i].p != p
    ensures p < |t.workers| && t.workers[p] == s.workers[p]
    decreases |steps|
  {
    hide Move, Moved, Turn, Ready;
    if steps != [] {
      assert steps[0].p != p;
      OthersLeave(Next(s, steps[0]), steps[1..], t, p);
    }
  }

  /**
   Having finished a chunk, whatever the others do meanwhile, a process lists the directory next, and tries the chunk
   that begins where that one ended before any other, if the listing has it.
   */
  lemma {:induction false} AdjacentFirst(s: State, p: nat, x: Stem, steps: seq<Step>, t: State, st: Step)
    requires p < |s.workers| && s.workers[p].phase == Running(x) && Parses(x)
    requires Runs(Next(s, Finish(p)), steps, t) && forall i :: 0 <= i < |steps| ==> steps[i].p != p
    requires st.p == p && !st.Crash? && Enabled(t, st)
    ensures st.List? && t.workers[p].phase.Idle?
    ensures ClaimOrder(st.list, t.workers[p].phase.prefer) &&
            (exists i :: 0 <= i < |st.list| && st.list[i].start == Some(x.end.value + 1)) ==>
              st.list[0].start == Some(x.end.value + 1)
  {
    hide Runs, Move, Moved;
    OthersLeave(Next(s, Finish(p)), steps, t, p);
  }

  /** Where all of this starts: one file for each chunk, and no process yet. */
  lemma {:induction false} FreshStart(d: Dir, ws: seq<Worker>)
    requires OneFile(d) && forall p :: 0 <= p < |ws| ==> ws[p].phase == Absent
    ensures Inv(State(d, ws)) && Sensible(ws)
    ensures (forall f :: f in d ==> !f.status.Run?) ==> Orderly(State(d, ws))
  {
    if forall f :: f in d ==> !f.status.Run? {
      assert forall x, id :: File(x, Run(id)) !in d;
    }
  }

  // ----- why ids must differ

  /** Two processes under one id: the second takes the first one's chunk for a leftover, and both run it. */
  lemma {:induction false} SharedIdRunsTwice(x: Stem, id: Id) returns (steps: seq<Step>, t: State)
    requires Parses(x)
    ensures var s := State({File(x, Todo)}, [Worker(id, Idle(None)), Worker(id, Absent)]);
            Inv(s) && Runs(s, steps, t)
    ensures t == State({File(x, Run(id))}, [Worker(id, Running(x)), Worker(id, Running(x))])
  {
    hide Inv, Runs;
    var todo, run := {File(x, Todo)}, {File(x, Run(id))};
    var v := Worker(id, Running(x));
    var s0 := State(todo, [Worker(id, Idle(None)), Worker(id, Absent)]);
    var s1 := State(todo, [Worker(id, Trying([x])), Worker(id, Absent)]);
    var s2 := State(run, [v, Worker(id, Absent)]);
    var s3 := State(run, [v, Worker(id, Reclaiming([x]))]);
    var s4 := State(todo, [v, Worker(id, Reclaiming([]))]);
    var s5 := State(todo, [v, Worker(id, Idle(None))]);
    var s6 := State(todo, [v, Worker(id, Trying([x]))]);
    t := State(run, [v, v]);
    assert [x][1..] == [] && todo - {File(x, Todo)} + run == run && run - {File(x, Run(id))} + todo == todo;
    assert Inv(s0) by { SharedStart(x, id); }
    RunsNone(t);
    steps := Prepend(s6, Try(1), t, [], t);
    steps := Prepend(s5, List(1, [x]), s6, steps, t);
    steps := Prepend(s4, Reclaim(1), s5, steps, t);
    steps := Prepend(s3, Reclaim(1), s4, steps, t);
    steps := Prepend(s2, Start(1, id, [x]), s3, steps, t);
    steps := Prepend(s1, Try(0), s2, steps, t);
    steps := Prepend(s0, List(0, [x]), s1, steps, t);
  }

  lemma {:induction false} SharedStart(x: Stem, id: Id)
    ensures Inv(State({File(x, Todo)}, [Worker(id, Idle(None)), Worker(id, Absent)]))
  {
  }

  lemma {:induction false} RunsNone(t: State)
    ensures Runs(t, [], t)
  {
  }

  lemma {:induction false} Prepend(s: State, st: Step, m: State, rest: seq<Step>, t: State) returns (steps: seq<Step>)
    requires Enabled(s, st) && Next(s, st) == m && Runs(m, rest, t)
    ensures steps == [st] + rest && Runs(s, steps, t)
  {
    steps := [st] + rest;
    assert steps[1..] == rest;
  }
}
