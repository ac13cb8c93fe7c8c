/**
 Chunk claiming by concurrent workers. A chunk is one file of a shared directory, and its state is the file's
 extension: waiting, run by a worker, done or failed. A worker takes a chunk by renaming its file, so there is no lock
 and no coordinator; it works from a listing that others may have overtaken, and may be killed at any point.

 Every process is a little program whose steps interleave with the others' in any order.
 */
module Segments {
  import opened Options

  /** A chunk's name: where it stands among the sorted names, and the bounds its name parses to, if it does. */
  datatype Stem = Stem(name: nat, start: Option<nat>, end: Option<nat>)

  type Id = nat

  datatype Status = Todo | Run(id: Id) | Done | Failed

  datatype File = File(stem: Stem, status: Status)

  type Dir = set<File>

  predicate Parses(s: Stem) {
    s.start.Some? && s.end.Some?
  }

  /** Renaming replaces whatever file bore the new name. */
  function Rename(d: Dir, from: File, to: File): (r: Dir) {
    d - {from} + {to}
  }

  /** Where a process stands. */
  datatype Phase =
    | Absent
    | Reclaiming(found: seq<Stem>)
    | Idle(prefer: Option<nat>)
    | Trying(list: seq<Stem>)
    | Returning(stem: Stem, rest: seq<Stem>)
    | Running(stem: Stem)
    | Exhausted
    | Halted
    | Dead

  datatype Worker = Worker(id: Id, phase: Phase)

  datatype State = State(dir: Dir, workers: seq<Worker>)

  predicate Live(w: Worker) {
    !w.phase.Absent? && !w.phase.Exhausted? && !w.phase.Halted? && !w.phase.Dead?
  }

  /** The chunk whose file the process has renamed to its own. */
  function Held(w: Worker): (r: Option<Stem>) {
    match w.phase
    case Returning(stem, _) => Some(stem)
    case Running(stem) => Some(stem)
    case _ => None
  }

  // ----- the steps

  datatype Step =
    | Start(p: nat, id: Id, found: seq<Stem>)
    | Reclaim(p: nat)
    | List(p: nat, list: seq<Stem>)
    | Try(p: nat)
    | Return(p: nat)
    | Finish(p: nat)
    | Fail(p: nat)
    | Crash(p: nat)

  ghost predicate Lists(stems: seq<Stem>, d: Dir, status: Status) {
    && (forall i, j :: 0 <= i < j < |stems| ==> stems[i] != stems[j])
    && (forall x :: x in stems <==> File(x, status) in d)
  }

  /**
   Whether the step is the process's next one. What it lists to try may be anything: a directory read while others
   rename in it is no snapshot. Its own running files no one else touches.
   */
  ghost predicate Ready(d: Dir, w: Worker, st: Step) {
    match st
    case Start(_, id, found) => !Live(w) && Lists(found, d, Run(id))
    case Reclaim(_) => w.phase.Reclaiming?
    case List(_, _) => w.phase.Idle?
    case Try(_) => w.phase.Trying?
    case Return(_) => w.phase.Returning?
    case Finish(_) => w.phase.Running?
    case Fail(_) => w.phase.Running?
    case Crash(_) => Live(w)
  }

  ghost predicate Enabled(s: State, st: Step) {
    st.p < |s.workers| && Ready(s.dir, s.workers[st.p], st)
  }

  /** The rename a step performs, if the file it starts from is there. */
  function Move(w: Worker, st: Step): (r: Option<(File, File)>) {
    match (st, w.phase)
    case (Reclaim(_), Reclaiming(found)) =>
      if found == [] then None else Some((File(found[0], Run(w.id)), File(found[0], Todo)))
    case (Try(_), Trying(list)) => if list == [] then None else Some((File(list[0], Todo), File(list[0], Run(w.id))))
    case (Return(_), Returning(stem, _)) => Some((File(stem, Run(w.id)), File(stem, Todo)))
    case (Finish(_), Running(stem)) => Some((File(stem, Run(w.id)), File(stem, Done)))
    case (Fail(_), Running(stem)) => Some((File(stem, Run(w.id)), File(stem, Failed)))
    case _ => None
  }

  function Moved(d: Dir, m: Option<(File, File)>): (r: Dir) {
    if m.Some? && m.value.0 in d then Rename(d, m.value.0, m.value.1) else d
  }

  /** Where the process stands afterwards. */
  function Turn(d: Dir, w: Worker, st: Step): (r: Worker) {
    match (st, w.phase)
    case (Start(_, id, found), _) => Worker(id, Reclaiming(found))
    case (Reclaim(_), Reclaiming(found)) => Worker(w.id, if found == [] then Idle(None) else Reclaiming(found[1..]))
    case (List(_, list), _) => Worker(w.id, Trying(list))
    case (Try(_), Trying(list)) =>
      Worker(w.id, if list == [] then Exhausted
                   else if File(list[0], Todo) !in d then Trying(list[1..])
                   else if Parses(list[0]) then Running(list[0])
                   else Returning(list[0], list[1..]))
    case (Return(_), Returning(_, rest)) => Worker(w.id, Trying(rest))
    case (Finish(_), Running(stem)) => Worker(w.id, Idle(if stem.end.Some? then Some(stem.end.value + 1) else None))
    case (Fail(_), _) => Worker(w.id, Halted)
    case (Crash(_), _) => Worker(w.id, Dead)
    case _ => w
  }

  function Next(s: State, st: Step): (t: State)
    requires st.p < |s.workers|
  {
    var w := s.workers[st.p];
    State(Moved(s.dir, Move(w, st)), s.workers[st.p := Turn(s.dir, w, st)])
  }

  /** A process is only started under an id no live process bears. */
  ghost predicate Exclusive(s: State, st: Step) {
    st.Start? ==> forall q :: 0 <= q < |s.workers| && q != st.p && Live(s.workers[q]) ==> s.workers[q].id != st.id
  }

  ghost predicate Runs(s: State, steps: seq<Step>, t: State)
    decreases |steps|
  {
    if steps == [] then s == t
    else Enabled(s, steps[0]) && Runs(Next(s, steps[0]), steps[1..], t)
  }

  ghost predicate AllExclusive(s: State, steps: seq<Step>)
    decreases |steps|
  {
    steps == [] ||
    (Enabled(s, steps[0]) && Exclusive(s, steps[0]) && AllExclusive(Next(s, steps[0]), steps[1..]))
  }

  // ----- what every step keeps

  function Stems(d: Dir): (r: set<Stem>) {
    set f | f in d :: f.stem
  }

  /** No chunk has two files. */
  ghost predicate OneFile(d: Dir) {
    forall f, g :: f in d && g in d && f.stem == g.stem ==> f == g
  }

  /** What a process holds is its own running file. */
  ghost predicate Holds(d: Dir, w: Worker) {
    Held(w).Some? ==> File(Held(w).value, Run(w.id)) in d
  }

  /** A file running under a live process's id is the one it holds, or one it has yet to reclaim. */
  ghost predicate Accounted(d: Dir, w: Worker) {
    Live(w) ==> forall x :: File(x, Run(w.id)) in d ==>
      Held(w) == Some(x) || (w.phase.Reclaiming? && x in w.phase.found)
  }

  ghost predicate DistinctIds(ws: seq<Worker>) {
    forall p, q :: 0 <= p < q < |ws| && Live(ws[p]) && Live(ws[q]) ==> ws[p].id != ws[q].id
  }

  ghost predicate Inv(s: State) {
    && OneFile(s.dir)
    && DistinctIds(s.workers)
    && forall p :: 0 <= p < |s.workers| ==> Holds(s.dir, s.workers[p]) && Accounted(s.dir, s.workers[p])
  }

  /** A move keeps the chunk and only changes the extension. */
  lemma {:induction false} MovedKeeps(d: Dir, m: Option<(File, File)>)
    requires OneFile(d) && (m.Some? ==> m.value.0.stem == m.value.1.stem && m.value.0 != m.value.1)
    ensures OneFile(Moved(d, m)) && Stems(Moved(d, m)) == Stems(d) && |Moved(d, m)| == |d|
  {
    if m.Some? && m.value.0 in d {
      var (from, to) := m.value;
      var r := Rename(d, from, to);
      assert to !in d;
      assert |r| == |d|;
      forall x ensures x in Stems(r) <==> x in Stems(d) {
        if x in Stems(d) {
          var f :| f in d && f.stem == x;
          assert f == from || f in r;
          assert to in r;
        }
      }
    }
  }

  lemma {:induction false} MoveShape(w: Worker, st: Step)
    ensures var m := Move(w, st);
            m.Some? ==> m.value.0.stem == m.value.1.stem && m.value.0 != m.value.1
  {
  }

  /** The other processes' holdings are untouched: a move starts from a waiting file or from one's own. */
  lemma {:induction false} OthersKeep(d: Dir, w: Worker, st: Step, v: Worker)
    requires OneFile(d) && Holds(d, v) && Accounted(d, v)
    requires Live(v) ==> v.id != w.id || Move(w, st).None?
    ensures Holds(Moved(d, Move(w, st)), v) && Accounted(Moved(d, Move(w, st)), v)
  {
    hide OneFile;
  }

  lemma {:induction false} SelfKeeps(d: Dir, w: Worker, st: Step)
    requires OneFile(d) && Holds(d, w) && Accounted(d, w) && Ready(d, w, st)
    ensures Holds(Moved(d, Move(w, st)), Turn(d, w, st)) && Accounted(Moved(d, Move(w, st)), Turn(d, w, st))
  {
  }

  lemma {:induction false} IdsKept(d: Dir, w: Worker, st: Step)
    requires Ready(d, w, st)
    ensures Live(Turn(d, w, st)) ==> Turn(d, w, st).id == (if st.Start? then st.id else w.id) && (st.Start? || Live(w))
    ensures Move(w, st).Some? ==> Live(w)
  {
  }

  /** Every step of every process keeps the invariant, and the set of chunks. */
  lemma {:induction false} StepKeeps(s: State, st: Step)
    requires Inv(s) && Enabled(s, st) && Exclusive(s, st)
    ensures Inv(Next(s, st)) && Stems(Next(s, st).dir) == Stems(s.dir) && |Next(s, st).dir| == |s.dir|
  {
    hide Holds, Accounted, Turn, Move, Ready, OneFile, Moved, Stems;
    var w := s.workers[st.p];
    var t := Next(s, st);
    MoveShape(w, st);
    MovedKeeps(s.dir, Move(w, st));
    IdsKept(s.dir, w, st);
    SelfKeeps(s.dir, w, st);
    forall q | 0 <= q < |t.workers| ensures Holds(t.dir, t.workers[q]) && Accounted(t.dir, t.workers[q]) {
      if q != st.p {
        assert Live(s.workers[q]) && Live(w) ==> s.workers[q].id != w.id;
        OthersKeep(s.dir, w, st, s.workers[q]);
      }
    }
  }

  lemma {:induction false} RunKeeps(s: State, steps: seq<Step>, t: State)
    requires Inv(s) && Runs(s, steps, t) && AllExclusive(s, steps)
    ensures Inv(t) && Stems(t.dir) == Stems(s.dir) && |t.dir| == |s.dir|
    decreases |steps|
  {
    hide Inv, Ready, Exclusive, Next, Stems;
    if steps != [] {
      StepKeeps(s, steps[0]);
      RunKeeps(Next(s, steps[0]), steps[1..], t);
    }
  }

  /**
   Whatever the interleaving, the crashes and the restarts: each chunk is in exactly one file, none is lost, and no two
   processes run the same one.
   */
  lemma {:induction false} ChunksSafe(s: State, steps: seq<Step>, t: State, x: Stem, p: nat, q: nat)
    requires Inv(s) && Runs(s, steps, t) && AllExclusive(s, steps)
    ensures x in Stems(s.dir) <==> exists f :: f in t.dir && f.stem == x
    ensures forall f, g :: f in t.dir && g in t.dir && f.stem == x && g.stem == x ==> f == g
    ensures p < |t.workers| && q < |t.workers| && t.workers[p].phase == Running(x) == t.workers[q].phase ==> p == q
  {
    hide Runs, AllExclusive;
    RunKeeps(s, steps, t);
    assert x in Stems(t.dir) <==> exists f :: f in t.dir && f.stem == x;
    if p < |t.workers| && q < |t.workers| && t.workers[p].phase == Running(x) == t.workers[q].phase {
      assert Holds(t.dir, t.workers[p]) && Holds(t.dir, t.workers[q]);
      assert File(x, Run(t.workers[p].id)) == File(x, Run(t.workers[q].id));
    }
  }

  // ----- termination

  /** The chunks still to be settled. */
  function Pending(d: Dir): (r: set<File>) {
    set f | f in d && Open(f)
  }

  predicate Open(f: File) {
    Parses(f.stem) && !f.status.Done? && !f.status.Failed?
  }

  /** How many steps a process can take before it must settle a chunk or stop, with `n` chunks in the directory. */
  function Left(w: Worker, n: nat): (r: nat) {
    match w.phase
    case Reclaiming(found) => 2 * n + 3 + |found|
    case Idle(_) => 2 * n + 2
    case Trying(list) => 2 * |list| + 1
    case Returning(_, rest) => 2 * |rest| + 2
    case _ => 0
  }

  function TotalLeft(ws: seq<Worker>, n: nat): (r: nat) {
    if ws == [] then 0 else Left(ws[0], n) + TotalLeft(ws[1..], n)
  }

  function Measure(s: State): (r: nat) {
    (2 * |s.dir| + 3) * |Pending(s.dir)| + TotalLeft(s.workers, |s.dir|)
  }

  lemma {:induction false} TotalUpdate(ws: seq<Worker>, p: nat, w: Worker, n: nat)
    requires p < |ws|
    ensures TotalLeft(ws[p := w], n) == TotalLeft(ws, n) - Left(ws[p], n) + Left(w, n)
  {
    hide Left;
    if p == 0 {
      assert ws[p := w][1..] == ws[1..];
    } else {
      TotalUpdate(ws[1..], p - 1, w, n);
      assert ws[p := w][1..] == ws[1..][p - 1 := w];
    }
  }

  /** A listing names chunks of the directory, in whatever state, and none twice. */
  ghost predicate NamesChunks(list: seq<Stem>, stems: set<Stem>) {
    && (forall i, j :: 0 <= i < j < |list| ==> list[i] != list[j])
    && (forall i :: 0 <= i < |list| ==> list[i] in stems)
  }

  /** So it is no longer than the directory. */
  lemma {:induction false} ListingFits(list: seq<Stem>, d: Dir)
    requires NamesChunks(list, Stems(d))
    ensures |list| <= |d|
  {
    if list != [] {
      var n := |list| - 1;
      assert list[n] in Stems(d);
      var f :| f in d && f.stem == list[n];
      forall i | 0 <= i < n ensures list[..n][i] in Stems(d - {f}) {
        assert list[i] in Stems(d);
        var g :| g in d && g.stem == list[i];
        assert g in d - {f};
      }
      ListingFits(list[..n], d - {f});
      assert |d - {f}| == |d| - 1;
    }
  }

  lemma {:induction false} PendingMoves(d: Dir, from: File, to: File)
    requires from in d && to !in d
    ensures |Pending(Rename(d, from, to))| ==
            |Pending(d)| - (if Open(from) then 1 else 0) + (if Open(to) then 1 else 0)
  {
    hide Open;
    var r, kept := Rename(d, from, to), Pending(d) - {from};
    assert |kept| == |Pending(d)| - if Open(from) then 1 else 0;
    if Open(to) {
      assert Pending(r) == kept + {to};
    } else {
      assert Pending(r) == kept;
    }
  }

  lemma {:induction false} NameFree(d: Dir, from: File, to: File)
    requires OneFile(d) && from in d && from.stem == to.stem && from != to
    ensures to !in d
  {
  }

  /** What a step costs: a settled chunk buys its process a new listing, every other step uses one up. */
  lemma {:induction false} StepPays(d: Dir, w: Worker, st: Step)
    requires OneFile(d) && Holds(d, w) && Ready(d, w, st) && !st.Start? && !st.Crash?
    requires w.phase.Running? ==> Parses(w.phase.stem)
    requires st.List? ==> NamesChunks(st.list, Stems(d))
    ensures var d1, w1 := Moved(d, Move(w, st)), Turn(d, w, st);
            if st.Finish? || st.Fail? then |Pending(d1)| == |Pending(d)| - 1 && Left(w1, |d|) <= 2 * |d| + 2
            else |Pending(d1)| == |Pending(d)| && Left(w1, |d|) < Left(w, |d|)
  {
    hide Pending, OneFile, NamesChunks, Stems, Lists, Rename;
    var m := Move(w, st);
    if m.Some? && m.value.0 in d {
      NameFree(d, m.value.0, m.value.1);
      PendingMoves(d, m.value.0, m.value.1);
    }
    if st.List? {
      ListingFits(st.list, d);
    }
  }

  /** A process only ever runs chunks whose names parse. */
  ghost predicate Sensible(ws: seq<Worker>) {
    forall p :: 0 <= p < |ws| && ws[p].phase.Running? ==> Parses(ws[p].phase.stem)
  }

  lemma {:induction false} StepSensible(s: State, st: Step)
    requires Sensible(s.workers) && Enabled(s, st)
    ensures Sensible(Next(s, st).workers)
  {
    hide Moved, Move;
  }

  lemma {:induction false} MeasureFalls(s: State, st: Step)
    requires Inv(s) && Sensible(s.workers) && Enabled(s, st) && !st.Start? && !st.Crash?
    requires st.List? ==> NamesChunks(st.list, Stems(s.dir))
    ensures Measure(Next(s, st)) < Measure(s)
  {
    hide Pending, TotalLeft, Left, NamesChunks, Stems, Turn, Move, Moved, Ready, Holds, Accounted, OneFile;
    var w := s.workers[st.p];
    var n := |s.dir|;
    MoveShape(w, st);
    MovedKeeps(s.dir, Move(w, st));
    StepPays(s.dir, w, st);
    TotalUpdate(s.workers, st.p, Turn(s.dir, w, st), n);
    if st.Finish? || st.Fail? {
      var k := |Pending(s.dir)|;
      assert (2 * n + 3) * (k - 1) == (2 * n + 3) * k - (2 * n + 3);
    }
  }

  ghost predicate Undisturbed(steps: seq<Step>) {
    forall i :: 0 <= i < |steps| ==> !steps[i].Start? && !steps[i].Crash?
  }

  /** Every listing of the run names chunks of the directory, be it out of date or incomplete. */
  ghost predicate NamingChunks(steps: seq<Step>, stems: set<Stem>) {
    forall i :: 0 <= i < |steps| && steps[i].List? ==> NamesChunks(steps[i].list, stems)
  }

  /** Without crashes and restarts, no run is longer than the measure. */
  lemma {:induction false} RunsEnd(s: State, steps: seq<Step>, t: State)
    requires Inv(s) && Sensible(s.workers) && Runs(s, steps, t) && Undisturbed(steps)
    requires NamingChunks(steps, Stems(s.dir))
    ensures |steps| + Measure(t) <= Measure(s)
    decreases |steps|
  {
    hide Inv, Ready, Next, Measure, Sensible, Stems, NamesChunks;
    if steps != [] {
      assert !steps[0].Start? && !steps[0].Crash?;
      assert steps[0].List? ==> NamesChunks(steps[0].list, Stems(s.dir));
      StepKeeps(s, steps[0]);
      StepSensible(s, steps[0]);
      MeasureFalls(s, steps[0]);
      RunsEnd(Next(s, steps[0]), steps[1..], t);
    }
  }
}
