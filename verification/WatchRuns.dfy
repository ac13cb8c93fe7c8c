/**
 What the watcher guarantees over whole runs: sweep after sweep, with the chain changing in any way between them.
 */
module WatchRuns {
  import opened Options
  import opened Watcher

  /** The watcher after a run of sweeps. */
  function Run(start: nat, ws: seq<World>): (s: State) {
    if ws == [] then Initial(start) else Sweep(Run(start, ws[..|ws| - 1]), ws[|ws| - 1])
  }

  // ----- heights

  lemma {:induction false} RecheckAllHeights(s: State, w: World, ns: seq<nat>, h: nat)
    requires forall i :: 0 <= i < |ns| ==> ns[i] in s.examined
    ensures var r := RecheckAll(s, w, ns);
            && r.next == s.next
            && (h in r.examined <==> h in s.examined)
            && (h in s.examined && (h !in ns || !Readable(w, h)) ==> r.examined[h] == s.examined[h])
            && (h in ns && Readable(w, h) ==> h in r.examined && r.examined[h].hash == w.canonical[h])
  {
    hide DeliverAll, Examine, Note, Gone, Notices, Readable;
    if ns != [] {
      var n := |ns| - 1;
      RecheckAllHeights(s, w, ns[..n], h);
      assert ns == ns[..n] + [ns[n]];
      assert ns[n] in s.examined;
      RecheckAllHeights(s, w, ns[..n], ns[n]);
    }
  }

  lemma {:induction false} ForwardHeights(s: State, w: World, h: nat)
    ensures var r := Forward(s, w);
            && s.next <= r.next
            && (r.next <= w.head ==> !Readable(w, r.next))
            && (s.next <= h < r.next ==> h in r.examined && Readable(w, h) && r.examined[h].hash == w.canonical[h])
            && (!(s.next <= h < r.next) ==>
                (h in r.examined <==> h in s.examined) && (h in s.examined ==> r.examined[h] == s.examined[h]))
    decreases w.head + 1 - s.next
  {
    hide DeliverAll, Examine, Note;
    if s.next <= w.head {
      var t := Process(s, w, s.next);
      if t.Some? {
        ForwardHeights(t.value.(next := s.next + 1), w, h);
      }
    }
  }

  /** What a sweep's walk does to one height: who is examined, and that whatever can be read is up to date. */
  lemma {:induction false} WalkedHeights(s: State, w: World, h: nat)
    requires Behind(s)
    ensures var r := Walked(s, w);
            && s.next <= r.next
            && (r.next <= w.head ==> !Readable(w, r.next))
            && (h in r.examined <==> h in s.examined || s.next <= h < r.next)
            && (h in r.examined && h >= Floor(w.head) && Readable(w, h) ==> r.examined[h].hash == w.canonical[h])
            && (h in s.examined && !Readable(w, h) ==> r.examined[h] == s.examined[h])
  {
    hide RecheckAll, Forward, Replaced;
    var ns := Replaced(w, s.examined, Floor(w.head), s.next);
    var blank := s.(spans := NO_SPANS, trail := []);
    forall i | 0 <= i < |ns| ensures ns[i] in s.examined {
      ReplacedMembers(w, s.examined, Floor(w.head), s.next, ns[i]);
    }
    ReplacedMembers(w, s.examined, Floor(w.head), s.next, h);
    RecheckAllHeights(blank, w, ns, h);
    ForwardHeights(RecheckAll(blank, w, ns), w, h);
  }

  /**
   After any sweep, whether or not something failed in it: the next block is past the head unless it stands at a block
   that cannot be read, and every height examined and still in reach holds the canonical hash if its block can be read.
   What was examined before, or on the way, is kept, and forgotten only by a sweep that reaches the head, from more
   than 128 blocks below it.
   */
  lemma {:induction false} SweepSettles(s: State, w: World, h: nat)
    requires Behind(s)
    ensures var r := Sweep(s, w);
            && (r.next <= w.head ==> !Readable(w, r.next))
            && (h in r.examined && h + 128 >= w.head && Readable(w, h) ==> r.examined[h].hash == w.canonical[h])
            && (h in r.examined <==>
                (h in s.examined || s.next <= h < r.next) && (r.next <= w.head || h + 128 >= w.head))
  {
    hide Walked, Lines;
    WalkedHeights(s, w, h);
  }

  function HighestHead(ws: seq<World>): (h: nat)
    ensures forall i :: 0 <= i < |ws| ==> ws[i].head <= h
    ensures ws == [] || exists i :: 0 <= i < |ws| && ws[i].head == h
  {
    if ws == [] then 0
    else
      var n := |ws| - 1;
      var rest := HighestHead(ws[..n]);
      assert ws == ws[..n] + [ws[n]];
      if ws[n].head > rest || n == 0 then ws[n].head
      else
        assert exists i :: 0 <= i < n && ws[..n][i].head == rest;
        rest
  }

  /** Every height from `start` on is examined before the next block is reached, and forgotten only below the floor. */
  ghost predicate Watches(start: nat, s: State, floor: nat) {
    && (forall h :: h in s.examined ==> start <= h < s.next)
    && (forall h :: start <= h < s.next && h >= floor ==> h in s.examined)
    && start <= s.next
  }

  lemma {:induction false} SweepWatches(start: nat, s: State, w: World, floor: nat)
    requires Watches(start, s, floor)
    ensures Watches(start, Sweep(s, w), if Floor(w.head) > floor then Floor(w.head) else floor)
  {
    hide Walked, Lines;
    var r := Walked(s, w);
    forall h | h in r.examined ensures start <= h < r.next {
      WalkedHeights(s, w, h);
    }
    forall h | start <= h < r.next && h >= floor ensures h in r.examined {
      WalkedHeights(s, w, h);
    }
    WalkedHeights(s, w, 0);
  }

  lemma {:induction false} RunWatches(start: nat, ws: seq<World>)
    ensures Watches(start, Run(start, ws), Floor(HighestHead(ws)))
  {
    hide Sweep;
    if ws != [] {
      var n := |ws| - 1;
      RunWatches(start, ws[..n]);
      SweepWatches(start, Run(start, ws[..n]), ws[n], Floor(HighestHead(ws[..n])));
    }
  }

  /** No read fails in a sweep: not where it looks again, and not on its way to the head. */
  ghost predicate ErrorFree(s: State, w: World) {
    && (forall h :: h in s.examined && h >= Floor(w.head) && h in w.canonical ==> Readable(w, h))
    && (forall h :: s.next <= h <= w.head ==> Readable(w, h))
  }

  /**
   The watcher's promise: after a sweep without errors it is past the head, and every height it has been told to watch,
   from the recheck depth below the highest head ever seen up to the present head, was examined as the block that is
   canonical now, however the chain moved in between.
   */
  lemma {:induction false} SweepAgrees(start: nat, ws: seq<World>, h: nat)
    requires ws != [] && ErrorFree(Run(start, ws[..|ws| - 1]), ws[|ws| - 1])
    ensures var w := ws[|ws| - 1];
            var r := Run(start, ws);
            && r.next > w.head
            && (start <= h <= w.head && h + 128 >= HighestHead(ws) ==>
                h in r.examined && (h in w.canonical ==> r.examined[h].hash == w.canonical[h]))
  {
    hide Sweep;
    var n := |ws| - 1;
    var s, w := Run(start, ws[..n]), ws[n];
    RunWatches(start, ws[..n]);
    RunWatches(start, ws);
    AdvancesFully(s, w);
    AgreesAt(s, w, h);
  }

  lemma {:induction false} AdvancesFully(s: State, w: World)
    requires Behind(s) && ErrorFree(s, w)
    ensures Sweep(s, w).next > w.head
  {
    hide Walked, Lines, Readable;
    WalkedHeights(s, w, 0);
  }

  lemma {:induction false} AgreesAt(s: State, w: World, h: nat)
    requires Behind(s) && ErrorFree(s, w)
    ensures var r := Sweep(s, w);
            h in r.examined && Floor(w.head) <= h <= w.head && h in w.canonical ==> r.examined[h].hash == w.canonical[h]
  {
    hide Walked, Lines, Readable;
    WalkedHeights(s, w, h);
  }
}
