/**
 What the watcher tells its owner over whole runs: each alert once, every skipped block named, every alert of a
 replaced block that did not come back withdrawn.
 */
module WatchMail {
  import opened Options
  import opened Watcher
  import opened WatchRuns

  // ----- delivery
  //
  // Delivered means handed to the sinks. A key is remembered before they run, and a sink that fails is not tried again.

  /** The alerts delivered since the last time they were forgotten. */
  function Since(log: seq<Event>): (keys: set<Key>) {
    if log == [] then {}
    else
      var n := |log| - 1;
      match log[n]
      case Delivered(key) => Since(log[..n]) + {key}
      case Forgotten => {}
      case _ => Since(log[..n])
  }

  /** Nothing is delivered that was delivered since the last forgetting, and forgetting waits for a full memory. */
  predicate Once(log: seq<Event>) {
    log == [] ||
    var n := |log| - 1;
    && Once(log[..n])
    && (log[n].Delivered? ==> log[n].key !in Since(log[..n]))
    && (log[n].Forgotten? ==> |Since(log[..n])| == 50_000)
  }

  predicate Faithful(m: Mail) {
    m.seen == Since(m.log) && |m.seen| <= 50_000 && Once(m.log)
  }

  lemma {:induction false} LogStep(log: seq<Event>, e: Event)
    ensures Since(log + [e]) ==
            match e { case Delivered(key) => Since(log) + {key} case Forgotten => {} case _ => Since(log) }
    ensures Once(log + [e]) <==>
            && Once(log)
            && (e.Delivered? ==> e.key !in Since(log))
            && (e.Forgotten? ==> |Since(log)| == 50_000)
  {
    assert (log + [e])[..|log|] == log;
  }

  /** `b` continues `a` without withdrawing anything. */
  ghost predicate Extends(a: seq<Event>, b: seq<Event>) {
    a <= b && forall i :: |a| <= i < |b| ==> !b[i].Withdrawn?
  }

  lemma {:induction false} SinceDelivered(log: seq<Event>, key: Key)
    requires key in Since(log)
    ensures Delivered(key) in log
  {
    var n := |log| - 1;
    assert log == log[..n] + [log[n]];
    if !(log[n].Delivered? && log[n].key == key) {
      SinceDelivered(log[..n], key);
    }
  }

  lemma {:induction false} DeliverFaithful(m: Mail, key: Key)
    requires Faithful(m)
    ensures var r := Deliver(m, key);
            Faithful(r) && Extends(m.log, r.log) && Delivered(key) in r.log
  {
    hide Since, Once;
    LogStep(m.log, Forgotten);
    var full := |m.seen| >= MAX_REMEMBERED;
    LogStep(if full then m.log + [Forgotten] else m.log, Delivered(key));
    SinceDelivered(Deliver(m, key).log, key);
  }

  lemma {:induction false} DeliverAllFaithful(m: Mail, keys: seq<Key>)
    requires Faithful(m)
    ensures var r := DeliverAll(m, keys);
            && Faithful(r)
            && Extends(m.log, r.log)
            && forall i :: 0 <= i < |keys| ==> Delivered(keys[i]) in r.log
  {
    hide Faithful, Deliver;
    if keys != [] {
      var n := |keys| - 1;
      DeliverAllFaithful(m, keys[..n]);
      var t := DeliverAll(m, keys[..n]);
      DeliverFaithful(t, keys[n]);
      forall i | 0 <= i < |keys| ensures Delivered(keys[i]) in Deliver(t, keys[n]).log {
        if i < n {
          assert keys[i] == keys[..n][i];
        }
      }
    }
  }

  /** Notices and skip lines deliver nothing. */
  ghost predicate Quiet(es: seq<Event>) {
    forall i :: 0 <= i < |es| ==> !es[i].Delivered? && !es[i].Forgotten?
  }

  lemma {:induction false} QuietKeeps(log: seq<Event>, es: seq<Event>)
    requires Quiet(es)
    ensures Since(log + es) == Since(log) && (Once(log + es) <==> Once(log))
  {
    hide Since, Once;
    if es == [] {
      assert log + es == log;
    } else {
      var n := |es| - 1;
      QuietKeeps(log, es[..n]);
      LogStep(log + es[..n], es[n]);
      assert log + es == log + es[..n] + [es[n]];
    }
  }

  lemma {:induction false} NoticesQuiet(number: nat, keys: seq<Key>)
    ensures Quiet(Notices(number, keys))
  {
    if keys != [] {
      NoticesQuiet(number, keys[..|keys| - 1]);
    }
  }

  /** The log is in order, and every alert observed in an examined block has been delivered. */
  ghost predicate Told(s: State) {
    && Faithful(s.mail)
    && forall h, k :: h in s.examined && k in s.examined[h].observed ==> Delivered(k) in s.mail.log
  }

  lemma {:induction false} ProcessTells(s: State, w: World, n: nat)
    requires Told(s) && Readable(w, n)
    ensures Told(Process(s, w, n).value) && Extends(s.mail.log, Process(s, w, n).value.mail.log)
  {
    hide DeliverAll, Examine, Note, Faithful;
    var keys := Examine(w, n, w.canonical[n]).keys;
    DeliverAllFaithful(s.mail, keys);
    var t := Process(s, w, n).value;
    forall h, k | h in t.examined && k in t.examined[h].observed ensures Delivered(k) in t.mail.log {
      if h == n {
        var i :| 0 <= i < |keys| && keys[i] == k;
      } else {
        assert Delivered(k) in s.mail.log;
      }
    }
  }

  lemma {:induction false} RecheckTells(s: State, w: World, n: nat)
    requires Told(s)
    ensures Told(Recheck(s, w, n))
  {
    hide Process, Since, Once, Gone, Notices;
    if Readable(w, n) {
      ProcessTells(s, w, n);
      ReadableProcess(s, w, n);
      var t := Process(s, w, n).value;
      var before := if n in s.examined then s.examined[n].observed else [];
      var gone := Gone(before, t.examined[n].observed);
      NoticesQuiet(n, gone);
      QuietKeeps(t.mail.log, Notices(n, gone));
    } else {
      ReadableProcess(s, w, n);
    }
  }

  lemma {:induction false} ReadableProcess(s: State, w: World, n: nat)
    ensures Process(s, w, n).Some? <==> Readable(w, n)
    ensures Readable(w, n) ==> n in Process(s, w, n).value.examined && Process(s, w, n).value.next == s.next
  {
    hide DeliverAll, Examine, Note;
  }

  lemma {:induction false} RecheckAllTells(s: State, w: World, ns: seq<nat>)
    requires Told(s)
    ensures Told(RecheckAll(s, w, ns))
  {
    hide Told, Recheck;
    if ns != [] {
      var n := |ns| - 1;
      RecheckAllTells(s, w, ns[..n]);
      RecheckTells(RecheckAll(s, w, ns[..n]), w, ns[n]);
    }
  }

  lemma {:induction false} ForwardTells(s: State, w: World)
    requires Told(s)
    ensures Told(Forward(s, w)) && Extends(s.mail.log, Forward(s, w).mail.log)
    decreases w.head + 1 - s.next
  {
    hide Process, Faithful;
    if s.next <= w.head {
      ReadableProcess(s, w, s.next);
      if Readable(w, s.next) {
        ProcessTells(s, w, s.next);
        var t := Process(s, w, s.next).value;
        ForwardTells(t.(next := s.next + 1), w);
      }
    }
  }

  lemma {:induction false} WalkedTells(s: State, w: World)
    requires Told(s)
    ensures Told(Walked(s, w))
  {
    hide RecheckAll, Forward, Replaced, Faithful;
    var blank := s.(spans := NO_SPANS, trail := []);
    var ns := Replaced(w, s.examined, Floor(w.head), s.next);
    RecheckAllTells(blank, w, ns);
    ForwardTells(RecheckAll(blank, w, ns), w);
  }

  lemma {:induction false} SweepTells(s: State, w: World)
    requires Told(s)
    ensures Told(Sweep(s, w))
  {
    hide Walked, Since, Once;
    WalkedTells(s, w);
    var r := Walked(s, w);
    QuietKeeps(r.mail.log, Lines(r.spans));
  }

  /**
   Over any run every alert observed in an examined block was handed to the sinks, and none was twice between two
   forgettings; at most 50,000 are remembered, and they are forgotten only when there are that many.
   */
  lemma {:induction false} RunTells(start: nat, ws: seq<World>)
    ensures Told(Run(start, ws))
  {
    hide Sweep;
    if ws != [] {
      RunTells(start, ws[..|ws| - 1]);
      SweepTells(Run(start, ws[..|ws| - 1]), ws[|ws| - 1]);
    }
  }

  /** The same, of two places in the log. */
  lemma {:induction false} RepeatNeedsForgetting(log: seq<Event>, i: nat, j: nat, key: Key)
    requires Once(log) && i < j < |log| && log[i] == Delivered(key) == log[j]
    ensures exists m :: i < m < j && log[m] == Forgotten
  {
    if j == |log| - 1 {
      DeliveredSince(log[..j], i, key);
      var m :| i < m < j && log[..j][m] == Forgotten;
      assert log[m] == Forgotten;
    } else {
      var n := |log| - 1;
      RepeatNeedsForgetting(log[..n], i, j, key);
      var m :| i < m < j && log[..n][m] == Forgotten;
      assert log[m] == Forgotten;
    }
  }

  lemma {:induction false} DeliveredSince(log: seq<Event>, i: nat, key: Key)
    requires i < |log| && log[i] == Delivered(key)
    ensures key in Since(log) || exists m :: i < m < |log| && log[m] == Forgotten
  {
    var n := |log| - 1;
    if i < n {
      DeliveredSince(log[..n], i, key);
      if key !in Since(log[..n]) {
        var m :| i < m < n && log[..n][m] == Forgotten;
        assert log[m] == Forgotten;
      } else {
        assert log[n].Forgotten? ==> log[n] == Forgotten;
      }
    }
  }

  // ----- withdrawals

  lemma {:induction false} GoneMembers(before: seq<Key>, after: seq<Key>, k: Key)
    ensures k in Gone(before, after) <==> k in before && k !in after
  {
    if before != [] {
      var n := |before| - 1;
      GoneMembers(before[..n], after, k);
      assert before == before[..n] + [before[n]];
    }
  }

  lemma {:induction false} NoticesMembers(number: nat, keys: seq<Key>, h: nat, k: Key)
    ensures Withdrawn(h, k) in Notices(number, keys) <==> h == number && k in keys
  {
    if keys != [] {
      var n := |keys| - 1;
      NoticesMembers(number, keys[..n], h, k);
      assert keys == keys[..n] + [keys[n]];
    }
  }

  /** The log grew from `a` to `b`, and among what was added is `e`. */
  ghost predicate Added(a: seq<Event>, b: seq<Event>, e: Event) {
    a <= b && e in b[|a|..]
  }

  lemma {:induction false} AddedThrough(a: seq<Event>, b: seq<Event>, c: seq<Event>, e: Event)
    requires a <= b <= c
    ensures Added(a, c, e) <==> Added(a, b, e) || Added(b, c, e)
  {
    assert c[|a|..] == b[|a|..] + c[|b|..];
  }

  /** One recheck withdraws exactly what was observed of the old block and is not in the new one. */
  lemma {:induction false} RecheckWithdraws(s: State, w: World, n: nat, h: nat, k: Key)
    requires Told(s) && n in s.examined
    ensures var r := Recheck(s, w, n);
            && s.mail.log <= r.mail.log
            && (h != n ==> (h in r.examined <==> h in s.examined))
            && (h != n && h in s.examined ==> r.examined[h] == s.examined[h])
            && n in r.examined
            && (Added(s.mail.log, r.mail.log, Withdrawn(h, k)) <==>
                h == n && Readable(w, n) && k in s.examined[n].observed && k !in r.examined[n].observed)
  {
    hide DeliverAll, Examine, Note, Faithful, Gone, Notices, Readable;
    ReadableProcess(s, w, n);
    if Readable(w, n) {
      ProcessTells(s, w, n);
      var t := Process(s, w, n).value;
      var gone := Gone(s.examined[n].observed, t.examined[n].observed);
      GoneMembers(s.examined[n].observed, t.examined[n].observed, k);
      NoticesMembers(n, gone, h, k);
      var after := t.mail.log + Notices(n, gone);
      assert after[|t.mail.log|..] == Notices(n, gone);
      AddedThrough(s.mail.log, t.mail.log, after, Withdrawn(h, k));
    }
  }

  lemma {:induction false} RecheckAllWithdraws(s: State, w: World, ns: seq<nat>, h: nat, k: Key)
    requires Told(s)
    requires forall i :: 0 <= i < |ns| ==> ns[i] in s.examined
    requires forall i, j :: 0 <= i < j < |ns| ==> ns[i] < ns[j]
    ensures var r := RecheckAll(s, w, ns);
            && s.mail.log <= r.mail.log
            && (h in ns ==> h in r.examined)
            && (Added(s.mail.log, r.mail.log, Withdrawn(h, k)) <==>
                h in ns && Readable(w, h) && k in s.examined[h].observed && k !in r.examined[h].observed)
  {
    hide Told, Recheck, Readable, Added;
    if ns != [] {
      var n := |ns| - 1;
      var m := ns[n];
      RecheckAllWithdraws(s, w, ns[..n], h, k);
      var t := RecheckAll(s, w, ns[..n]);
      RecheckAllTells(s, w, ns[..n]);
      RecheckAllHeights(s, w, ns[..n], m);
      RecheckWithdraws(t, w, m, h, k);
      AddedThrough(s.mail.log, t.mail.log, Recheck(t, w, m).mail.log, Withdrawn(h, k));
      assert ns == ns[..n] + [m];
      assert m !in ns[..n];
    } else {
      AddedNothing(s.mail.log, Withdrawn(h, k));
    }
  }

  lemma {:induction false} AddedNothing(a: seq<Event>, e: Event)
    ensures !Added(a, a, e)
  {
    assert a[|a|..] == [];
  }

  ghost predicate Ascends(ns: seq<nat>, end: nat) {
    && (forall i :: 0 <= i < |ns| ==> ns[i] < end)
    && (forall i, j :: 0 <= i < j < |ns| ==> ns[i] < ns[j])
  }

  lemma {:induction false} ReplacedAscends(w: World, examined: map<nat, Examined>, from: nat, end: nat)
    ensures Ascends(Replaced(w, examined, from, end), end)
    decreases end
  {
    hide Differs;
    if from < end {
      ReplacedAscends(w, examined, from, end - 1);
    }
  }

  /**
   A sweep withdraws an alert exactly when it had been observed at a recent height, that height's block was replaced
   and could be read again, and the new block does not contain it.
   */
  lemma {:induction false} WithdrawnIff(s: State, w: World, h: nat, k: Key)
    requires Behind(s) && Told(s)
    ensures var r := Walked(s, w);
            Added(s.mail.log, Sweep(s, w).mail.log, Withdrawn(h, k)) <==>
            && h >= Floor(w.head) && Differs(w, s.examined, h) && Readable(w, h)
            && k in s.examined[h].observed && h in r.examined && k !in r.examined[h].observed
  {
    hide Told, RecheckAll, Forward, Replaced, Added, Readable, Lines;
    var ns := Replaced(w, s.examined, Floor(w.head), s.next);
    var blank := s.(spans := NO_SPANS, trail := []);
    var t := RecheckAll(blank, w, ns);
    var r := Walked(s, w);
    BlankTold(s);
    ReplacedAscends(w, s.examined, Floor(w.head), s.next);
    forall i | 0 <= i < |ns| ensures ns[i] in s.examined {
      ReplacedMembers(w, s.examined, Floor(w.head), s.next, ns[i]);
    }
    ReplacedMembers(w, s.examined, Floor(w.head), s.next, h);
    RecheckAllWithdraws(blank, w, ns, h, k);
    RecheckAllHeights(blank, w, ns, h);
    RecheckAllTells(blank, w, ns);
    ForwardTells(t, w);
    ForwardHeights(t, w, h);
    NoneWithdrawn(t.mail.log, r.mail.log, h, k);
    AddedThrough(s.mail.log, t.mail.log, r.mail.log, Withdrawn(h, k));
    LinesWithdrawNothing(r.mail.log, r.spans, h, k);
    AddedThrough(s.mail.log, r.mail.log, r.mail.log + Lines(r.spans), Withdrawn(h, k));
  }

  lemma {:induction false} BlankTold(s: State)
    requires Told(s)
    ensures Told(s.(spans := NO_SPANS, trail := []))
  {
    hide Faithful;
  }

  lemma {:induction false} NoneWithdrawn(a: seq<Event>, b: seq<Event>, h: nat, k: Key)
    requires Extends(a, b)
    ensures !Added(a, b, Withdrawn(h, k))
  {
    forall i | 0 <= i < |b| - |a| ensures !b[|a|..][i].Withdrawn? {
    }
  }

  lemma {:induction false} LinesWithdrawNothing(log: seq<Event>, ss: Spans, h: nat, k: Key)
    ensures log <= log + Lines(ss) && !Added(log, log + Lines(ss), Withdrawn(h, k))
  {
    assert (log + Lines(ss))[|log|..] == Lines(ss);
  }

  // ----- skip ranges

  /** No further behind the head than the contract watch catches up. */
  predicate Near(w: World, n: nat) {
    n + w.maxCatchup >= w.head
  }

  /** What was recorded as the block executed is within the filter. */
  predicate Filtered(w: World, c: Hash) {
    c in w.movements && w.movements[c] <= w.filter
  }

  /** Examining the block at this height is noted under this slot. */
  predicate SkipsAt(w: World, n: nat, slot: Slot) {
    && n in w.canonical && w.replaying
    && var c := w.canonical[n];
       match slot
       case TooFar => !Near(w, n)
       case Stateless => Near(w, n) && !Filtered(w, c) && c in w.replays && w.replays[c] == NoState
       case Unrecorded => Near(w, n) && c !in w.movements
  }

  function PegoutsAt(w: World, c: Hash): (keys: seq<Key>) {
    if c in w.pegouts then w.pegouts[c] else []
  }

  /** What replaying the block gives, when the contract watch comes to replay it. */
  function ReplayAt(w: World, n: nat, c: Hash): (keys: seq<Key>) {
    if w.replaying && Near(w, n) && !Filtered(w, c) && c in w.replays && w.replays[c].Found? then w.replays[c].keys
    else []
  }

  /** An examination gives the peg-outs and then the replay, and is noted for exactly the reasons there are. */
  lemma {:induction false} ExamineGives(w: World, n: nat)
    requires n in w.canonical
    ensures var c := w.canonical[n];
            var e := Examine(w, n, c);
            && e.keys == PegoutsAt(w, c) + ReplayAt(w, n, c)
            && e.tooFar == SkipsAt(w, n, TooFar) && e.noState == SkipsAt(w, n, Stateless)
            && e.unrecorded == SkipsAt(w, n, Unrecorded)
  {
    var pegs := PegoutsAt(w, w.canonical[n]);
    assert pegs + [] == pegs;
  }

  function SpanOf(ss: Spans, slot: Slot): (span: Span) {
    match slot
    case TooFar => ss.tooFar
    case Stateless => ss.noState
    case Unrecorded => ss.unrecorded
  }

  /** The span covers every skipped block of the trail, and begins and ends at one. */
  ghost predicate Names(w: World, trail: seq<nat>, span: Span, slot: Slot) {
    && (forall i :: 0 <= i < |trail| && SkipsAt(w, trail[i], slot) ==>
          span.Some? && span.value.0 <= trail[i] <= span.value.1)
    && (span.Some? ==>
          && span.value.0 in trail && SkipsAt(w, span.value.0, slot)
          && span.value.1 in trail && SkipsAt(w, span.value.1, slot))
  }

  lemma {:induction false} NameStep(w: World, trail: seq<nat>, span: Span, slot: Slot, n: nat)
    requires Ascends(trail, n) && Names(w, trail, span, slot)
    ensures Names(w, trail + [n], if SkipsAt(w, n, slot) then NoteSkip(span, n) else span, slot)
  {
    hide SkipsAt;
  }

  ghost predicate NotedUpTo(w: World, s: State, slot: Slot, end: nat) {
    Ascends(s.trail, end) && Names(w, s.trail, SpanOf(s.spans, slot), slot)
  }

  lemma {:induction false} ProcessNotes(s: State, w: World, n: nat, slot: Slot)
    requires Readable(w, n) && NotedUpTo(w, s, slot, n)
    ensures NotedUpTo(w, Process(s, w, n).value, slot, n + 1)
  {
    hide DeliverAll, Examine, Names, SkipsAt;
    ExamineGives(w, n);
    NameStep(w, s.trail, SpanOf(s.spans, slot), slot, n);
  }

  lemma {:induction false} RecheckNotes(s: State, w: World, n: nat, slot: Slot)
    requires NotedUpTo(w, s, slot, n)
    ensures NotedUpTo(w, Recheck(s, w, n), slot, n + 1)
  {
    hide Process, Names, Gone, Notices;
    ReadableProcess(s, w, n);
    if Readable(w, n) {
      ProcessNotes(s, w, n, slot);
    }
  }

  lemma {:induction false} RecheckAllNotes(s: State, w: World, ns: seq<nat>, end: nat, slot: Slot)
    requires s.trail == [] && s.spans == NO_SPANS && Ascends(ns, end)
    ensures NotedUpTo(w, RecheckAll(s, w, ns), slot, end)
  {
    hide Recheck, SkipsAt;
    if ns != [] {
      var n := |ns| - 1;
      RecheckAllNotes(s, w, ns[..n], ns[n], slot);
      RecheckNotes(RecheckAll(s, w, ns[..n]), w, ns[n], slot);
    }
  }

  lemma {:induction false} ForwardNotes(s: State, w: World, slot: Slot)
    requires NotedUpTo(w, s, slot, s.next)
    ensures NotedUpTo(w, Forward(s, w), slot, Forward(s, w).next)
    decreases w.head + 1 - s.next
  {
    hide Process, Names;
    if s.next <= w.head {
      ReadableProcess(s, w, s.next);
      if Readable(w, s.next) {
        ProcessNotes(s, w, s.next, slot);
        ForwardNotes(Process(s, w, s.next).value.(next := s.next + 1), w, slot);
      }
    }
  }

  lemma {:induction false} RecheckAllTrail(s: State, w: World, ns: seq<nat>, h: nat)
    ensures h in RecheckAll(s, w, ns).trail <==> h in s.trail || (h in ns && Readable(w, h))
  {
    hide DeliverAll, Examine, Note, Gone, Notices, Readable;
    if ns != [] {
      var n := |ns| - 1;
      RecheckAllTrail(s, w, ns[..n], h);
      assert ns == ns[..n] + [ns[n]];
    }
  }

  lemma {:induction false} ForwardTrail(s: State, w: World, h: nat)
    ensures h in Forward(s, w).trail <==> h in s.trail || s.next <= h < Forward(s, w).next
    decreases w.head + 1 - s.next
  {
    hide DeliverAll, Examine, Note, Readable;
    if s.next <= w.head {
      var t := Process(s, w, s.next);
      if t.Some? {
        var u := t.value.(next := s.next + 1);
        ForwardTrail(u, w, h);
        ForwardHeights(u, w, h);
      }
    }
  }

  /** The heights a sweep examines: those replaced and readable again, and those it walks forward over. */
  lemma {:induction false} WalkedTrail(s: State, w: World, h: nat)
    requires Behind(s)
    ensures var r := Walked(s, w);
            h in r.trail <==>
            s.next <= h < r.next || (Floor(w.head) <= h < s.next && Differs(w, s.examined, h) && Readable(w, h))
  {
    hide RecheckAll, Forward, Replaced, Readable, Differs;
    var ns := Replaced(w, s.examined, Floor(w.head), s.next);
    var blank := s.(spans := NO_SPANS, trail := []);
    ReplacedMembers(w, s.examined, Floor(w.head), s.next, h);
    forall i | 0 <= i < |ns| ensures ns[i] in s.examined {
      DiffersExamined(w, s.examined, ns[i]);
      ReplacedMembers(w, s.examined, Floor(w.head), s.next, ns[i]);
    }
    RecheckAllHeights(blank, w, ns, h);
    RecheckAllTrail(blank, w, ns, h);
    ForwardTrail(RecheckAll(blank, w, ns), w, h);
  }

  lemma {:induction false} DiffersExamined(w: World, examined: map<nat, Examined>, n: nat)
    ensures Differs(w, examined, n) ==> n in examined
  {
  }

  /**
   Every block a sweep examined without the contract watch is inside the range it reports for that reason, and a range
   begins and ends at such a block. It rests on the heights being noted in ascending order.
   */
  lemma {:induction false} SkipsNamed(s: State, w: World, slot: Slot, h: nat)
    requires Behind(s) && Told(s)
    ensures var r := Walked(s, w);
            var span := SpanOf(r.spans, slot);
            && (h in r.trail && SkipsAt(w, h, slot) ==> span.Some? && span.value.0 <= h <= span.value.1)
            && (span.Some? ==>
                && span.value.0 in r.trail && SkipsAt(w, span.value.0, slot)
                && span.value.1 in r.trail && SkipsAt(w, span.value.1, slot)
                && Added(s.mail.log, Sweep(s, w).mail.log, Skipped(slot, span.value.0, span.value.1)))
  {
    hide RecheckAll, Forward, Replaced, Told, Lines, Added, SkipsAt;
    var ns := Replaced(w, s.examined, Floor(w.head), s.next);
    var blank := s.(spans := NO_SPANS, trail := []);
    ReplacedAscends(w, s.examined, Floor(w.head), s.next);
    RecheckAllNotes(blank, w, ns, s.next, slot);
    RecheckAllNext(blank, w, ns);
    ForwardNotes(RecheckAll(blank, w, ns), w, slot);
    LineAdded(s, w, slot);
  }

  lemma {:induction false} RecheckAllNext(s: State, w: World, ns: seq<nat>)
    ensures RecheckAll(s, w, ns).next == s.next
  {
    hide DeliverAll, Examine, Note, Gone, Notices, Readable;
    if ns != [] {
      RecheckAllNext(s, w, ns[..|ns| - 1]);
    }
  }

  lemma {:induction false} LineAdded(s: State, w: World, slot: Slot)
    requires Behind(s) && Told(s)
    ensures var span := SpanOf(Walked(s, w).spans, slot);
            span.Some? ==> Added(s.mail.log, Sweep(s, w).mail.log, Skipped(slot, span.value.0, span.value.1))
  {
    hide RecheckAll, Forward, Replaced, Told, Lines, Added;
    var ns := Replaced(w, s.examined, Floor(w.head), s.next);
    var blank := s.(spans := NO_SPANS, trail := []);
    BlankTold(s);
    ReplacedAscends(w, s.examined, Floor(w.head), s.next);
    forall i | 0 <= i < |ns| ensures ns[i] in s.examined {
      ReplacedMembers(w, s.examined, Floor(w.head), s.next, ns[i]);
    }
    RecheckAllWithdraws(blank, w, ns, 0, "");
    RecheckAllTells(blank, w, ns);
    ForwardTells(RecheckAll(blank, w, ns), w);
    var r := Walked(s, w);
    var span := SpanOf(r.spans, slot);
    if span.Some? {
      LineAmong(r.mail.log, r.spans, slot);
      AddedThrough(s.mail.log, r.mail.log, r.mail.log + Lines(r.spans), Skipped(slot, span.value.0, span.value.1));
    }
  }

  lemma {:induction false} LineAmong(log: seq<Event>, ss: Spans, slot: Slot)
    requires SpanOf(ss, slot).Some?
    ensures var span := SpanOf(ss, slot).value;
            log <= log + Lines(ss) && Added(log, log + Lines(ss), Skipped(slot, span.0, span.1))
  {
    assert (log + Lines(ss))[|log|..] == Lines(ss);
  }

  // ----- what a sweep remembers of each height

  /** What examining the canonical block at a height leaves: its peg-outs, then what its replay gives. */
  function ExaminedNow(w: World, n: nat): (e: Examined)
    requires n in w.canonical
  {
    var c := w.canonical[n];
    Examined(c, PegoutsAt(w, c) + ReplayAt(w, n, c))
  }

  /** The heights of the trail hold what the present sweep found there, and all others what they held before. */
  ghost predicate Updates(before: State, w: World, s: State) {
    && (forall i :: 0 <= i < |s.trail| ==>
          s.trail[i] in w.canonical && s.trail[i] in s.examined && s.examined[s.trail[i]] == ExaminedNow(w, s.trail[i]))
    && (forall h :: h !in s.trail ==> (h in s.examined <==> h in before.examined))
    && (forall h :: h !in s.trail && h in s.examined && h in before.examined ==> s.examined[h] == before.examined[h])
  }

  lemma {:induction false} ProcessUpdates(before: State, s: State, w: World, n: nat)
    requires Updates(before, w, s) && Readable(w, n)
    ensures Updates(before, w, Process(s, w, n).value)
  {
    hide DeliverAll, Examine, Note, PegoutsAt, ReplayAt, SkipsAt;
    ExamineGives(w, n);
    var t := Process(s, w, n).value;
    assert t.trail == s.trail + [n] && t.examined == s.examined[n := ExaminedNow(w, n)];
  }

  lemma {:induction false} RecheckAllUpdates(before: State, s: State, w: World, ns: seq<nat>)
    requires Updates(before, w, s)
    ensures Updates(before, w, RecheckAll(s, w, ns))
  {
    hide Process, Gone, Notices, ExaminedNow;
    if ns != [] {
      var n := |ns| - 1;
      var t := RecheckAll(s, w, ns[..n]);
      RecheckAllUpdates(before, s, w, ns[..n]);
      ReadableProcess(t, w, ns[n]);
      if Readable(w, ns[n]) {
        ProcessUpdates(before, t, w, ns[n]);
      }
    }
  }

  lemma {:induction false} ForwardUpdates(before: State, s: State, w: World)
    requires Updates(before, w, s)
    ensures Updates(before, w, Forward(s, w))
    decreases w.head + 1 - s.next
  {
    hide Process, ExaminedNow;
    if s.next <= w.head {
      ReadableProcess(s, w, s.next);
      if Readable(w, s.next) {
        ProcessUpdates(before, s, w, s.next);
        ForwardUpdates(before, Process(s, w, s.next).value.(next := s.next + 1), w);
      }
    }
  }

  lemma {:induction false} WalkedUpdates(s: State, w: World)
    ensures Updates(s, w, Walked(s, w))
  {
    hide RecheckAll, Forward, Replaced, ExaminedNow;
    var blank := s.(spans := NO_SPANS, trail := []);
    var ns := Replaced(w, s.examined, Floor(w.head), s.next);
    RecheckAllUpdates(s, blank, w, ns);
    ForwardUpdates(s, RecheckAll(blank, w, ns), w);
  }

  /**
   What a sweep observes at a height it examines is the block's peg-outs, whatever the contract watch decides, and
   after them the alerts of its replay exactly when the watch is on, the block is near enough, it is recorded above
   the filter or not at all, and it was replayed.
   */
  lemma {:induction false} ObservedIs(s: State, w: World, h: nat)
    requires h in Walked(s, w).trail
    ensures h in w.canonical && h in Walked(s, w).examined
    ensures var c, e := w.canonical[h], Walked(s, w).examined[h];
            && e.hash == c
            && e.observed ==
               (if c in w.pegouts then w.pegouts[c] else []) +
               (if && w.replaying && w.head - h <= w.maxCatchup
                   && (c in w.movements ==> w.movements[c] > w.filter)
                   && c in w.replays && w.replays[c].Found?
                then w.replays[c].keys else [])
  {
    hide Walked;
    WalkedUpdates(s, w);
    var r := Walked(s, w);
    var i :| 0 <= i < |r.trail| && r.trail[i] == h;
  }

  /** Everything observed in a block a sweep examines is with the sinks when the sweep ends. */
  lemma {:induction false} ObservedIsDelivered(s: State, w: World, h: nat, k: Key)
    requires Told(s) && h in Walked(s, w).trail
    ensures h in Walked(s, w).examined
    ensures k in Walked(s, w).examined[h].observed ==> Delivered(k) in Sweep(s, w).mail.log
  {
    hide Walked, Faithful, Lines;
    ObservedIs(s, w, h);
    WalkedTells(s, w);
    assert Sweep(s, w).mail.log == Walked(s, w).mail.log + Lines(Walked(s, w).spans);
  }

  /** Peg-out checks run on every block a sweep examines: each is observed there and handed to the sinks. */
  lemma {:induction false} PegoutsAlwaysTold(s: State, w: World, h: nat, k: Key)
    requires Told(s) && h in Walked(s, w).trail
    requires h in w.canonical && w.canonical[h] in w.pegouts && k in w.pegouts[w.canonical[h]]
    ensures h in Walked(s, w).examined && k in Walked(s, w).examined[h].observed
    ensures Delivered(k) in Sweep(s, w).mail.log
  {
    hide Walked, Told, Sweep;
    ObservedIs(s, w, h);
    ObservedIsDelivered(s, w, h, k);
  }

  /**
   Nothing is left out quietly: of every block a sweep examines while the contract watch is on, each alert its replay
   would find is handed to the sinks, or a line names a range of skipped blocks around it, or nothing recorded in the
   block moved above the filter.
   */
  lemma {:induction false} NothingQuietlyMissed(s: State, w: World, h: nat, keys: seq<Key>, k: Key)
    requires Behind(s) && Told(s) && w.replaying && h in Walked(s, w).trail && h in w.canonical && k in keys
    requires var c := w.canonical[h]; c in w.replays && w.replays[c] == Found(keys)
    ensures var c, span, log := w.canonical[h], Walked(s, w).spans.tooFar, Sweep(s, w).mail.log;
            || Delivered(k) in log
            || (span.Some? && span.value.0 <= h <= span.value.1
                && Added(s.mail.log, log, Skipped(TooFar, span.value.0, span.value.1)))
            || (c in w.movements && w.movements[c] <= w.filter)
  {
    hide Walked, Sweep, Told, Added, Behind;
    ObservedIs(s, w, h);
    ObservedIsDelivered(s, w, h, k);
    SkipsNamed(s, w, TooFar, h);
  }

  // ----- when a withdrawal is true

  /** The alert is in none of the blocks the watcher holds, which a failed read may have left behind the chain. */
  ghost predicate NowhereNow(r: State, k: Key) {
    forall h :: h in r.examined ==> k !in r.examined[h].observed
  }

  /** The height has a canonical block, and neither reading which it is nor finding its header fails. */
  predicate Stored(w: World, n: nat) {
    n !in w.unreadable && n in w.canonical && w.canonical[n] !in w.missing
  }

  /**
   The sweep examines the height: at most 128 blocks below the head, seen as another block before and stored, or on an
   unbroken stored way to the head.
   */
  ghost predicate Examines(s: State, w: World, n: nat) {
    || (&& w.head <= n + 128 && n < s.next && Stored(w, n)
        && n in s.examined && s.examined[n].hash != w.canonical[n])
    || (s.next <= n <= w.head && forall m :: s.next <= m <= n ==> Stored(w, m))
  }

  /** How far the walk forward gets is decided by what can be read. */
  lemma {:induction false} ForwardReaches(s: State, w: World, n: nat)
    requires s.next <= n
    ensures n < Forward(s, w).next <==> n <= w.head && forall m :: s.next <= m <= n ==> Readable(w, m)
    decreases w.head + 1 - s.next
  {
    hide DeliverAll, Examine, Note, Readable;
    if s.next <= w.head {
      ReadableProcess(s, w, s.next);
      if Readable(w, s.next) {
        var t := Process(s, w, s.next).value.(next := s.next + 1);
        if n > s.next {
          ForwardReaches(t, w, n);
        } else {
          ForwardHeights(t, w, 0);
        }
      }
    }
  }

  /** What a sweep examines, said of the watcher and the world before it. */
  lemma {:induction false} TrailIff(s: State, w: World, n: nat)
    requires Behind(s)
    ensures n in Walked(s, w).trail <==> Examines(s, w, n)
  {
    hide RecheckAll, Forward, Replaced;
    WalkedTrail(s, w, n);
    assert forall m :: Stored(w, m) == Readable(w, m);
    var ns := Replaced(w, s.examined, Floor(w.head), s.next);
    var blank := s.(spans := NO_SPANS, trail := []);
    RecheckAllNext(blank, w, ns);
    if s.next <= n {
      ForwardReaches(RecheckAll(blank, w, ns), w, n);
    }
  }

  /** Another height gives it: in the block the sweep will find there, or there before and not looked at again. */
  ghost predicate Elsewhere(s: State, w: World, h: nat, k: Key, other: nat) {
    && other != h
    && if Examines(s, w, other) then other in w.canonical && k in ExaminedNow(w, other).observed
       else other in s.examined && k in s.examined[other].observed
  }

  /**
   A withdrawal says that the transfer did not happen. Measured against the blocks the watcher holds after the sweep, it
   is true exactly when no other height gives the alert: one that a reorganisation moved is withdrawn all the same.
   */
  lemma {:induction false} WithdrawalTrueIff(s: State, w: World, h: nat, k: Key)
    requires Behind(s) && Told(s) && Added(s.mail.log, Sweep(s, w).mail.log, Withdrawn(h, k))
    ensures NowhereNow(Walked(s, w), k) <==> forall other: nat :: !Elsewhere(s, w, h, k, other)
  {
    hide Walked, ExaminedNow, Added, Told, Sweep, Behind, Examines;
    var r := Walked(s, w);
    WithdrawnIff(s, w, h, k);
    WalkedUpdates(s, w);
    forall other: nat
      ensures Elsewhere(s, w, h, k, other) <==> other in r.examined && k in r.examined[other].observed
    {
      ElsewhereHolds(s, w, r, h, k, other);
    }
  }

  lemma {:induction false} ElsewhereHolds(s: State, w: World, r: State, h: nat, k: Key, other: nat)
    requires Behind(s) && r == Walked(s, w) && Updates(s, w, r) && h in r.examined && k !in r.examined[h].observed
    ensures Elsewhere(s, w, h, k, other) <==> other in r.examined && k in r.examined[other].observed
  {
    hide Walked, ExaminedNow, Examines;
    TrailIff(s, w, other);
    if other in r.trail {
      var i :| 0 <= i < |r.trail| && r.trail[i] == other;
      assert r.examined[other] == ExaminedNow(w, other);
    }
  }

  /** A watcher that saw the alert at height 1, and a reorganisation that moves it to height 2. */
  function SawAt1(k: Key): (s: State) {
    State(3, map[1 := Examined(10, [k]), 2 := Examined(20, [])], Mail({k}, [Delivered(k)]), NO_SPANS, [])
  }

  function MovedTo2(k: Key): (w: World) {
    World(2, map[1 := 11, 2 := 21], {}, {}, map[21 := [k]], false, 0, 0, map[], map[])
  }

  lemma {:induction false} SawAt1Told(k: Key)
    ensures Behind(SawAt1(k)) && Told(SawAt1(k))
  {
    assert [Delivered(k)] == [] + [Delivered(k)];
    LogStep([], Delivered(k));
  }

  /** The sweep withdraws the alert, although it holds the block that now gives it. */
  lemma {:induction false} MovedIsWithdrawn(k: Key)
    ensures var s, w := SawAt1(k), MovedTo2(k);
            && Behind(s) && Told(s)
            && Added(s.mail.log, Sweep(s, w).mail.log, Withdrawn(1, k))
            && 2 in Walked(s, w).examined && Walked(s, w).examined[2] == Examined(21, [k])
  {
    hide Walked, Sweep, Added, Told;
    var s, w := SawAt1(k), MovedTo2(k);
    var r := Walked(s, w);
    SawAt1Told(k);
    WalkedTrail(s, w, 1);
    WalkedTrail(s, w, 2);
    WalkedUpdates(s, w);
    var i :| 0 <= i < |r.trail| && r.trail[i] == 1;
    var j :| 0 <= j < |r.trail| && r.trail[j] == 2;
    assert r.examined[1] == ExaminedNow(w, 1) && r.examined[2] == ExaminedNow(w, 2);
    WithdrawnIff(s, w, 1, k);
  }
}
