/**
 The polling watcher: it walks the executed chain forward, looks again at recent heights whose block was replaced,
 and hands every alert it finds to the mailers once.

 Between two sweeps the chain may change in any way, so a sweep is given a fresh world: the head, which block is
 canonical at each height, which reads fail, and what examining each block turns up.
 */
module Watcher {
  import opened Options
  import Movement

  type Hash = nat
  type Key = string

  const RECHECK_DEPTH: nat := 128
  const MAX_REMEMBERED: nat := 50000

  // ----- what one sweep sees

  /** What re-executing a block comes to. */
  datatype Replayed = NoState | Failed | Found(keys: seq<Key>)

  datatype World = World(
    head: nat,
    canonical: map<nat, Hash>,
    unreadable: set<nat>,
    missing: set<Hash>,
    pegouts: map<Hash, seq<Key>>,
    replaying: bool,
    maxCatchup: nat,
    filter: nat,
    movements: map<Hash, nat>,
    replays: map<Hash, Replayed>)

  /** The alerts a block gives, and the reasons for which the contract watch did not, or could not cheaply, look. */
  datatype Exam = Exam(keys: seq<Key>, tooFar: bool, noState: bool, unrecorded: bool)

  function Examine(w: World, number: nat, hash: Hash): (e: Exam) {
    var pegs := if hash in w.pegouts then w.pegouts[hash] else [];
    if !w.replaying then Exam(pegs, false, false, false)
    else if w.head - number > w.maxCatchup then Exam(pegs, true, false, false)
    else
      var recorded := if hash in w.movements then Some(w.movements[hash]) else None;
      var decision := Movement.Decide(recorded, w.filter);
      if decision == Movement.Skip then Exam(pegs, false, false, false)
      else
        match (if hash in w.replays then w.replays[hash] else Failed)
        case NoState => Exam(pegs, false, true, decision == Movement.NotRecorded)
        case Failed => Exam(pegs, false, false, decision == Movement.NotRecorded)
        case Found(keys) => Exam(pegs + keys, false, false, decision == Movement.NotRecorded)
  }

  /** The height's canonical block can be read. */
  predicate Readable(w: World, number: nat) {
    number !in w.unreadable && number in w.canonical && w.canonical[number] !in w.missing
  }

  function Floor(head: nat): (f: nat) {
    if head >= RECHECK_DEPTH then head - RECHECK_DEPTH else 0
  }

  // ----- the mail

  datatype Slot = TooFar | Stateless | Unrecorded

  datatype Event =
    | Delivered(key: Key)
    | Forgotten
    | Withdrawn(number: nat, key: Key)
    | Skipped(slot: Slot, from: nat, to: nat)

  datatype Mail = Mail(seen: set<Key>, log: seq<Event>)

  function Deliver(m: Mail, key: Key): (r: Mail) {
    var m1 := if |m.seen| >= MAX_REMEMBERED then Mail({}, m.log + [Forgotten]) else m;
    if key in m1.seen then m1 else Mail(m1.seen + {key}, m1.log + [Delivered(key)])
  }

  function DeliverAll(m: Mail, keys: seq<Key>): (r: Mail) {
    if keys == [] then m else Deliver(DeliverAll(m, keys[..|keys| - 1]), keys[|keys| - 1])
  }

  /** The alerts of a replaced block that its replacement does not contain. */
  function Gone(before: seq<Key>, after: seq<Key>): (r: seq<Key>) {
    if before == [] then []
    else
      var n := |before| - 1;
      Gone(before[..n], after) + if before[n] in after then [] else [before[n]]
  }

  function Notices(number: nat, keys: seq<Key>): (r: seq<Event>) {
    if keys == [] then [] else Notices(number, keys[..|keys| - 1]) + [Withdrawn(number, keys[|keys| - 1])]
  }

  function Withdraw(m: Mail, number: nat, keys: seq<Key>): (r: Mail) {
    Mail(m.seen, m.log + Notices(number, keys))
  }

  // ----- the skip ranges

  type Span = Option<(nat, nat)>

  function NoteSkip(slot: Span, number: nat): (r: Span) {
    match slot
    case Some((from, _)) => Some((from, number))
    case None => Some((number, number))
  }

  datatype Spans = Spans(tooFar: Span, noState: Span, unrecorded: Span)

  const NO_SPANS := Spans(None, None, None)

  function Note(ss: Spans, number: nat, e: Exam): (r: Spans) {
    Spans(if e.tooFar then NoteSkip(ss.tooFar, number) else ss.tooFar,
          if e.noState then NoteSkip(ss.noState, number) else ss.noState,
          if e.unrecorded then NoteSkip(ss.unrecorded, number) else ss.unrecorded)
  }

  function Line(slot: Slot, span: Span): (r: seq<Event>) {
    if span.Some? then [Skipped(slot, span.value.0, span.value.1)] else []
  }

  /** What the sweep says at its end, in the order it says it. */
  function Lines(ss: Spans): (r: seq<Event>) {
    Line(Unrecorded, ss.unrecorded) + Line(TooFar, ss.tooFar) + Line(Stateless, ss.noState)
  }

  // ----- the sweep as a function of the watcher's state

  datatype Examined = Examined(hash: Hash, observed: seq<Key>)

  /** `trail` lists the heights examined in the present sweep, in order; `spans` what was noted of them. */
  datatype State = State(next: nat, examined: map<nat, Examined>, mail: Mail, spans: Spans, trail: seq<nat>)

  /** One block examined, or nothing at all when it cannot be read. */
  function Process(s: State, w: World, number: nat): (r: Option<State>) {
    if !Readable(w, number) then None
    else
      var hash := w.canonical[number];
      var e := Examine(w, number, hash);
      Some(State(s.next, s.examined[number := Examined(hash, e.keys)], DeliverAll(s.mail, e.keys),
                 Note(s.spans, number, e), s.trail + [number]))
  }

  predicate Differs(w: World, examined: map<nat, Examined>, number: nat) {
    number in examined && number !in w.unreadable && number in w.canonical
        && w.canonical[number] != examined[number].hash
  }

  /** The examined heights from `from` up whose block was replaced, in order. */
  function Replaced(w: World, examined: map<nat, Examined>, from: nat, end: nat): (r: seq<nat>) {
    if end <= from then []
    else Replaced(w, examined, from, end - 1) + if Differs(w, examined, end - 1) then [end - 1] else []
  }

  function Recheck(s: State, w: World, number: nat): (r: State) {
    match Process(s, w, number)
    case None => s
    case Some(t) =>
      var before := if number in s.examined then s.examined[number].observed else [];
      t.(mail := Withdraw(t.mail, number, Gone(before, t.examined[number].observed)))
  }

  function RecheckAll(s: State, w: World, numbers: seq<nat>): (r: State) {
    if numbers == [] then s
    else Recheck(RecheckAll(s, w, numbers[..|numbers| - 1]), w, numbers[|numbers| - 1])
  }

  /** Forward to the head, stopping at the first block that cannot be read. */
  function Forward(s: State, w: World): (r: State)
    decreases w.head + 1 - s.next
  {
    if s.next > w.head then s
    else
      match Process(s, w, s.next)
      case None => s
      case Some(t) => Forward(t.(next := s.next + 1), w)
  }

  function Retain(examined: map<nat, Examined>, floor: nat): (r: map<nat, Examined>) {
    map n | n in examined && n >= floor :: examined[n]
  }

  /** Where the sweep stands when its blocks are done, before it forgets and reports. */
  function Walked(s: State, w: World): (r: State) {
    var blank := s.(spans := NO_SPANS, trail := []);
    Forward(RecheckAll(blank, w, Replaced(w, s.examined, Floor(w.head), s.next)), w)
  }

  function Finish(s: State, w: World): (r: State) {
    var examined := if s.next > w.head then Retain(s.examined, Floor(w.head)) else s.examined;
    State(s.next, examined, Mail(s.mail.seen, s.mail.log + Lines(s.spans)), NO_SPANS, s.trail)
  }

  function Sweep(s: State, w: World): (r: State) {
    Finish(Walked(s, w), w)
  }

  /** Every examined height lies behind the next block. */
  ghost predicate Behind(s: State) {
    forall n :: n in s.examined ==> n < s.next
  }

  lemma {:induction false} RecheckAllBehind(s: State, w: World, numbers: seq<nat>)
    requires Behind(s) && forall i :: 0 <= i < |numbers| ==> numbers[i] < s.next
    ensures RecheckAll(s, w, numbers).next == s.next && Behind(RecheckAll(s, w, numbers))
  {
    hide DeliverAll, Examine, Note, Gone;
    if numbers != [] {
      var n := |numbers| - 1;
      RecheckAllBehind(s, w, numbers[..n]);
      var t := RecheckAll(s, w, numbers[..n]);
      assert RecheckAll(s, w, numbers) == Recheck(t, w, numbers[n]);
      assert Recheck(t, w, numbers[n]).examined.Keys <= t.examined.Keys + {numbers[n]};
    }
  }

  lemma {:induction false} ReplacedMembers(w: World, examined: map<nat, Examined>, from: nat, end: nat, n: nat)
    ensures n in Replaced(w, examined, from, end) <==> from <= n < end && Differs(w, examined, n)
    decreases end
  {
    hide Differs;
    if from < end {
      ReplacedMembers(w, examined, from, end - 1, n);
    }
  }

  lemma {:induction false} ForwardBehind(s: State, w: World)
    requires Behind(s)
    ensures Behind(Forward(s, w))
    decreases w.head + 1 - s.next
  {
    hide DeliverAll, Examine, Note;
    if s.next <= w.head {
      var t := Process(s, w, s.next);
      if t.Some? {
        ForwardBehind(t.value.(next := s.next + 1), w);
      }
    }
  }

  lemma {:induction false} SweepBehind(s: State, w: World)
    requires Behind(s)
    ensures Behind(Sweep(s, w))
  {
    hide RecheckAll, Replaced, Forward, Lines;
    var numbers := Replaced(w, s.examined, Floor(w.head), s.next);
    forall i | 0 <= i < |numbers| ensures numbers[i] < s.next {
      ReplacedMembers(w, s.examined, Floor(w.head), s.next, numbers[i]);
    }
    var blank := s.(spans := NO_SPANS, trail := []);
    RecheckAllBehind(blank, w, numbers);
    ForwardBehind(RecheckAll(blank, w, numbers), w);
  }

  // ----- the watcher itself

  class PegoutWatcher {
    var nextBlock: nat
    var examined: map<nat, Examined>
    var observed: seq<Key>
    var seen: set<Key>
    var log: seq<Event>
    var skippedTooFar: Span
    var skippedNoState: Span
    var unrecorded: Span
    ghost var trail: seq<nat>

    ghost predicate Valid() reads this {
      forall n :: n in examined ==> n < nextBlock
    }

    ghost function Now(): (s: State) reads this {
      State(nextBlock, examined, Mail(seen, log), Spans(skippedTooFar, skippedNoState, unrecorded), trail)
    }

    constructor (start: nat)
      ensures Valid() && Now() == Initial(start)
    {
      nextBlock, examined, observed, seen, log := start, map[], [], {}, [];
      skippedTooFar, skippedNoState, unrecorded, trail := None, None, None, [];
    }

    method DeliverOne(key: Key)
      modifies `seen, `log
      ensures Mail(seen, log) == Deliver(old(Mail(seen, log)), key)
    {
      if |seen| >= MAX_REMEMBERED {
        log := log + [Forgotten];
        seen := {};
      }
      if key in seen {
        return;
      }
      seen := seen + {key};
      log := log + [Delivered(key)];
    }

    method Report(keys: seq<Key>)
      modifies `seen, `log, `observed
      ensures Mail(seen, log) == DeliverAll(old(Mail(seen, log)), keys)
      ensures observed == old(observed) + keys
    {
      for i := 0 to |keys|
        invariant Mail(seen, log) == DeliverAll(old(Mail(seen, log)), keys[..i])
        invariant observed == old(observed) + keys[..i]
      {
        assert keys[..i + 1][..i] == keys[..i];
        observed := observed + [keys[i]];
        DeliverOne(keys[i]);
      }
      assert keys[..|keys|] == keys;
    }

    method ProcessBlock(w: World, number: nat) returns (ok: bool)
      modifies this
      ensures var after := Process(old(Now()), w, number);
              ok == after.Some? && Now() == if ok then after.value else old(Now())
    {
      hide DeliverAll, Examine;
      if number in w.unreadable || number !in w.canonical {
        return false;
      }
      var hash := w.canonical[number];
      if hash in w.missing {
        return false;
      }
      observed := [];
      var e := Examine(w, number, hash);
      if e.tooFar {
        skippedTooFar := NoteSkip(skippedTooFar, number);
      }
      if e.unrecorded {
        unrecorded := NoteSkip(unrecorded, number);
      }
      if e.noState {
        skippedNoState := NoteSkip(skippedNoState, number);
      }
      Report(e.keys);
      assert [] + e.keys == e.keys;
      examined := examined[number := Examined(hash, observed)];
      observed := [];
      trail := trail + [number];
      return true;
    }

    method RecheckReorged(w: World)
      requires Valid()
      modifies this
      ensures Now() == RecheckAll(old(Now()), w, Replaced(w, old(examined), Floor(w.head), old(nextBlock)))
    {
      hide Process, Gone;
      var floor := Floor(w.head);
      var changed := CollectReplaced(w, floor);
      for i := 0 to |changed|
        invariant Now() == RecheckAll(old(Now()), w, changed[..i])
      {
        assert changed[..i + 1][..i] == changed[..i];
        var number := changed[i];
        RecheckOne(w, number);
      }
      assert changed[..|changed|] == changed;
    }

    method CollectReplaced(w: World, floor: nat) returns (changed: seq<nat>)
      ensures changed == Replaced(w, examined, floor, nextBlock)
    {
      changed := [];
      var number := floor;
      while number < nextBlock
        invariant floor <= number && (number <= nextBlock || number == floor)
        invariant changed == Replaced(w, examined, floor, number)
      {
        if Differs(w, examined, number) {
          changed := changed + [number];
        }
        number := number + 1;
      }
    }

    method RecheckOne(w: World, number: nat)
      modifies this
      ensures Now() == Recheck(old(Now()), w, number)
    {
      hide DeliverAll, Examine, Gone;
      var before := if number in examined then examined[number].observed else [];
      var ok := ProcessBlock(w, number);
      if !ok {
        return;
      }
      var gone := FindWithdrawn(before, examined[number].observed);
      label processed:
      for i := 0 to |gone|
        modifies `log
        invariant log == old@processed(log) + Notices(number, gone[..i])
      {
        assert gone[..i + 1][..i] == gone[..i];
        log := log + [Withdrawn(number, gone[i])];
      }
      assert gone[..|gone|] == gone;
    }

    method FindWithdrawn(before: seq<Key>, after: seq<Key>) returns (r: seq<Key>)
      ensures r == Gone(before, after)
    {
      r := [];
      for i := 0 to |before|
        invariant r == Gone(before[..i], after)
      {
        assert before[..i + 1][..i] == before[..i];
        if before[i] !in after {
          r := r + [before[i]];
        }
      }
      assert before[..|before|] == before;
    }

    method ReportSkipped()
      modifies this
      ensures Now() == old(Now().(mail := Mail(seen, log + Lines(Now().spans)), spans := NO_SPANS))
    {
      if unrecorded.Some? {
        log := log + [Skipped(Unrecorded, unrecorded.value.0, unrecorded.value.1)];
        unrecorded := None;
      }
      if skippedTooFar.Some? {
        log := log + [Skipped(TooFar, skippedTooFar.value.0, skippedTooFar.value.1)];
        skippedTooFar := None;
      }
      if skippedNoState.Some? {
        log := log + [Skipped(Stateless, skippedNoState.value.0, skippedNoState.value.1)];
        skippedNoState := None;
      }
    }

    method SweepOnce(w: World)
      requires Valid()
      modifies this
      ensures Valid() && Now() == Sweep(old(Now()), w)
    {
      hide Process, Lines, RecheckAll, Replaced;
      SweepBehind(Now(), w);
      skippedTooFar, skippedNoState, unrecorded := None, None, None;
      trail := [];
      RecheckReorged(w);
      label rechecked:
      while nextBlock <= w.head
        invariant Forward(Now(), w) == Forward(old@rechecked(Now()), w)
        decreases w.head + 1 - nextBlock
      {
        var n := nextBlock;
        var ok := ProcessBlock(w, n);
        if !ok {
          ReportSkipped();
          return;
        }
        nextBlock := n + 1;
      }
      examined := Retain(examined, Floor(w.head));
      ReportSkipped();
    }
  }

  function Initial(start: nat): (s: State) {
    State(start, map[], Mail({}, []), NO_SPANS, [])
  }
}
