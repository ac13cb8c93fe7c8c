/**
 What the comparison alarms would do if their timers stood still while no peer is known, as a comment of the source has
 it, and exactly when that makes a difference. The code resets the timers instead.

 A timer is read only when a reading is taken, so standing still can be understood in several ways: the time up to a
 reading without peers may count or not, and so may the time from one. The results hold for each of them.
 */
module HealthPause {
  import opened Options
  import opened Health

  // ----- timers that stand still

  /**
   Which stretches between two ticks count, besides those between two that say something. `Clock(true, false, false)`
   stops when peers are lost and goes on when one is back; `Clock(true, true, true)` runs on and only skips the tick.
   */
  datatype Clock = Clock(leaving: bool, without: bool, returning: bool)

  predicate Counts(c: Clock, from: bool, to: bool) {
    if from then to || c.leaving else if to then c.returning else c.without
  }

  /** What the timer gained from tick `s` to tick `i`. */
  function Ran(c: Clock, ts: seq<Tick>, known: seq<bool>, s: nat, i: nat): (r: nat)
    requires |known| == |ts| && i < |ts|
    decreases i
  {
    if i <= s then 0
    else
      Ran(c, ts, known, s, i - 1)
      + if Counts(c, known[i - 1], known[i]) then Elapsed(ts[i - 1].at, ts[i].at) else 0
  }

  /** From tick `s` to tick `i` the condition held on every tick that said something, these two among them. */
  ghost predicate Held(ts: seq<Tick>, known: seq<bool>, s: nat, i: nat)
    requires |known| == |ts| && i < |ts|
  {
    s <= i && known[s] && known[i] && forall m :: s <= m <= i && known[m] ==> ts[m].holding
  }

  /** The timer has run for the waiting time. */
  ghost predicate RanOut(c: Clock, ts: seq<Tick>, known: seq<bool>, t: Thresholds, i: nat)
    requires |known| == |ts| && i < |ts|
  {
    exists s :: 0 <= s <= i && Held(ts, known, s, i) && Ran(c, ts, known, s, i) >= t.forSecs
  }

  /** The alarm sends: its timer has run out, and no earlier sending of its own fell within the cooldown. */
  ghost predicate PausedFires(c: Clock, ts: seq<Tick>, known: seq<bool>, t: Thresholds, i: nat)
    requires |known| == |ts| && i < |ts|
    decreases i
  {
    && RanOut(c, ts, known, t, i)
    && forall m :: 0 <= m < i && PausedFires(c, ts, known, t, m) ==> ts[i].at - ts[m].at >= t.cooldownSecs
  }

  /** A tick that says nothing is not taken for one on which the condition held. */
  ghost predicate Fit(ts: seq<Tick>, known: seq<bool>) {
    |known| == |ts| && Ordered(ts) && forall i :: 0 <= i < |ts| && ts[i].holding ==> known[i]
  }

  // ----- against the timer that is reset

  /** The wait of the code's timer is over. */
  predicate Waited(ts: seq<Tick>, t: Thresholds, i: nat)
    requires i < |ts|
  {
    exists j :: 0 <= j <= i && Throughout(ts, j, i) && ts[i].at - ts[j].at >= t.forSecs
  }

  predicate AllKnown(known: seq<bool>, j: nat, i: nat)
    requires i < |known|
  {
    forall m :: j <= m <= i ==> known[m]
  }

  /** Some tick that says nothing falls within the waiting time before tick `i`. */
  ghost predicate Interrupted(ts: seq<Tick>, known: seq<bool>, t: Thresholds, i: nat)
    requires |known| == |ts| && i < |ts|
  {
    forall j :: 0 <= j <= i && ts[i].at - ts[j].at >= t.forSecs ==> !AllKnown(known, j, i)
  }

  /** Where every tick says something, every second counts. */
  lemma {:induction false} RanThroughout(c: Clock, ts: seq<Tick>, known: seq<bool>, s: nat, i: nat)
    requires Fit(ts, known) && s <= i < |ts| && AllKnown(known, s, i)
    ensures Ran(c, ts, known, s, i) == ts[i].at - ts[s].at
    decreases i
  {
    if s < i {
      RanThroughout(c, ts, known, s, i - 1);
    }
  }

  lemma {:induction false} WaitedRanOut(c: Clock, ts: seq<Tick>, known: seq<bool>, t: Thresholds, i: nat)
    requires Fit(ts, known) && i < |ts| && Waited(ts, t, i)
    ensures RanOut(c, ts, known, t, i) && !Interrupted(ts, known, t, i)
  {
    hide Ran;
    var j :| 0 <= j <= i && Throughout(ts, j, i) && ts[i].at - ts[j].at >= t.forSecs;
    assert AllKnown(known, j, i);
    RanThroughout(c, ts, known, j, i);
    assert Held(ts, known, j, i);
  }

  /** A timer that ran out without an interruption ran out on the code's own terms. */
  lemma {:induction false} UninterruptedWaited(c: Clock, ts: seq<Tick>, known: seq<bool>, t: Thresholds, i: nat)
    requires Fit(ts, known) && i < |ts| && RanOut(c, ts, known, t, i) && !Interrupted(ts, known, t, i)
    ensures Waited(ts, t, i)
  {
    hide Ran;
    var s :| 0 <= s <= i && Held(ts, known, s, i) && Ran(c, ts, known, s, i) >= t.forSecs;
    var j :| 0 <= j <= i && ts[i].at - ts[j].at >= t.forSecs && AllKnown(known, j, i);
    var k := if j >= s then j else s;
    if j < s {
      assert AllKnown(known, s, i);
      RanThroughout(c, ts, known, s, i);
    }
    forall m | k <= m <= i ensures ts[m].holding {
      assert known[m];
    }
    assert Throughout(ts, k, i);
  }

  ghost predicate Agree(c: Clock, ts: seq<Tick>, known: seq<bool>, t: Thresholds, n: nat)
    requires |known| == |ts| && n <= |ts|
  {
    forall i :: 0 <= i < n ==> (FiresAt(ts, t, i) <==> PausedFires(c, ts, known, t, i))
  }

  /** Where they agreed so far, they agree again exactly unless the standing timer sends after an interruption. */
  lemma {:induction false} NextAgrees(c: Clock, ts: seq<Tick>, known: seq<bool>, t: Thresholds, i: nat)
    requires Fit(ts, known) && i < |ts| && Agree(c, ts, known, t, i)
    ensures (FiresAt(ts, t, i) <==> PausedFires(c, ts, known, t, i)) <==>
            !(PausedFires(c, ts, known, t, i) && Interrupted(ts, known, t, i))
  {
    hide FiresAt, RanOut, Interrupted, Throughout;
    FiresIff(ts, t, i);
    assert CooledDown(ts, t, i) <==>
           forall m :: 0 <= m < i && PausedFires(c, ts, known, t, m) ==> ts[i].at - ts[m].at >= t.cooldownSecs;
    if Waited(ts, t, i) {
      WaitedRanOut(c, ts, known, t, i);
    } else if RanOut(c, ts, known, t, i) && !Interrupted(ts, known, t, i) {
      UninterruptedWaited(c, ts, known, t, i);
    }
  }

  lemma {:induction false} AgreeUpTo(c: Clock, ts: seq<Tick>, known: seq<bool>, t: Thresholds, n: nat)
    requires Fit(ts, known) && n <= |ts|
    ensures Agree(c, ts, known, t, n) <==>
            forall i :: 0 <= i < n && PausedFires(c, ts, known, t, i) ==> !Interrupted(ts, known, t, i)
  {
    hide FiresAt, PausedFires, Interrupted, Ordered;
    if n > 0 {
      AgreeUpTo(c, ts, known, t, n - 1);
      if Agree(c, ts, known, t, n - 1) {
        NextAgrees(c, ts, known, t, n - 1);
      }
    }
  }

  // ----- the two comparison alarms

  /** At which readings a peer was known. */
  function Peered(h: seq<Reading>): (ks: seq<bool>)
    ensures |ks| == |h|
  {
    seq(|h|, i requires 0 <= i < |h| => h[i].sample.bestPeer.Some?)
  }

  ghost predicate PausedBehind(c: Clock, h: seq<Reading>, t: Thresholds, i: nat)
    requires i < |h|
  {
    PausedFires(c, BehindTicks(h, t), Peered(h), t, i)
  }

  ghost predicate PausedAhead(c: Clock, h: seq<Reading>, t: Thresholds, i: nat)
    requires i < |h|
  {
    PausedFires(c, AheadTicks(h, t), Peered(h), t, i)
  }

  /** From every reading at least the waiting time before `i`, some reading up to `i` had no peer. */
  ghost predicate PeerlessWithin(h: seq<Reading>, t: Thresholds, i: nat)
    requires i < |h|
  {
    forall j :: 0 <= j <= i && h[i].at - h[j].at >= t.forSecs ==>
      exists m :: j <= m <= i && h[m].sample.bestPeer.None?
  }

  lemma {:induction false} PeerlessInterrupts(h: seq<Reading>, ts: seq<Tick>, t: Thresholds, i: nat)
    requires |ts| == |h| && i < |h| && forall k :: 0 <= k < |h| ==> ts[k].at == h[k].at
    ensures PeerlessWithin(h, t, i) <==> Interrupted(ts, Peered(h), t, i)
  {
    forall j | 0 <= j <= i
      ensures AllKnown(Peered(h), j, i) <==> !exists m :: j <= m <= i && h[m].sample.bestPeer.None?
    {
      assert forall m :: j <= m <= i ==> (Peered(h)[m] <==> !h[m].sample.bestPeer.None?);
    }
  }

  /**
   Over every history, and however standing still is understood: resetting the behind timer without peers and letting it
   stand still raise the same alerts exactly when no alert of the latter has a peerless reading within its wait.
   */
  lemma {:induction false} BehindPauseIff(c: Clock, h: seq<Reading>, t: Thresholds)
    requires InOrder(h)
    ensures (forall i :: 0 <= i < |h| ==> (RaisesBehind(h, t, i) <==> PausedBehind(c, h, t, i))) <==>
            (forall i :: 0 <= i < |h| && PausedBehind(c, h, t, i) ==> !PeerlessWithin(h, t, i))
  {
    hide RaisesBehind, FiresAt, PausedFires, EverInSync, PeerlessWithin, Interrupted;
    var ts, known := BehindTicks(h, t), Peered(h);
    assert Fit(ts, known);
    AgreeUpTo(c, ts, known, t, |ts|);
    forall i | 0 <= i < |h|
      ensures (RaisesBehind(h, t, i) <==> FiresAt(ts, t, i))
              && (PeerlessWithin(h, t, i) <==> Interrupted(ts, known, t, i))
    {
      RaisesAreFirings(h, t, i);
      PeerlessInterrupts(h, ts, t, i);
    }
  }

  lemma {:induction false} AheadPauseIff(c: Clock, h: seq<Reading>, t: Thresholds)
    requires InOrder(h)
    ensures (forall i :: 0 <= i < |h| ==> (RaisesAhead(h, t, i) <==> PausedAhead(c, h, t, i))) <==>
            (forall i :: 0 <= i < |h| && PausedAhead(c, h, t, i) ==> !PeerlessWithin(h, t, i))
  {
    hide RaisesAhead, FiresAt, PausedFires, PeerlessWithin, Interrupted;
    var ts, known := AheadTicks(h, t), Peered(h);
    assert Fit(ts, known);
    AgreeUpTo(c, ts, known, t, |ts|);
    forall i | 0 <= i < |h|
      ensures (RaisesAhead(h, t, i) <==> FiresAt(ts, t, i))
              && (PeerlessWithin(h, t, i) <==> Interrupted(ts, known, t, i))
    {
      RaisesAreFirings(h, t, i);
      PeerlessInterrupts(h, ts, t, i);
    }
  }

  // ----- a history that tells them apart

  const WAITS := Thresholds(10, 600, 0)

  function BehindAt(at: nat): (r: Reading) {
    Reading(Sample(100, 100, Some(200), 1), at)
  }

  /** In sync, behind for a while, without peers, and behind again for a while. */
  const LOST_PEERS: seq<Reading> := [
    Reading(Sample(100, 100, Some(100), 1), 0), BehindAt(1), BehindAt(400),
    Reading(Sample(100, 100, None, 0), 500), BehindAt(700), BehindAt(950)]

  /** Every timer that stands still sends at the last reading, after 399 and 250 seconds; the code's ran for 250. */
  lemma {:induction false} ResetDelays(c: Clock)
    ensures InOrder(LOST_PEERS) && PausedBehind(c, LOST_PEERS, WAITS, 5) && !RaisesBehind(LOST_PEERS, WAITS, 5)
  {
    hide RaisesBehind, PausedFires, EverInSync, BehindNow;
    LostPeersTicks();
    LostPeersPaused(c, BehindTicks(LOST_PEERS, WAITS), Peered(LOST_PEERS));
    LostPeersReset();
  }

  lemma {:induction false} LostPeersTicks()
    ensures var ts := BehindTicks(LOST_PEERS, WAITS);
            && Ordered(ts) && Peered(LOST_PEERS) == [true, true, true, false, true, true]
            && ts[1] == Tick(true, 1) && ts[2] == Tick(true, 400)
            && ts[4] == Tick(true, 700) && ts[5] == Tick(true, 950)
  {
    var h := LOST_PEERS;
    assert InSync(h[0].sample, WAITS);
    assert EverInSync(h, WAITS, 2) && EverInSync(h, WAITS, 3) && EverInSync(h, WAITS, 5) && EverInSync(h, WAITS, 6);
  }

  lemma {:induction false} LostPeersReset()
    ensures InOrder(LOST_PEERS) && !RaisesBehind(LOST_PEERS, WAITS, 5)
  {
    hide RaisesBehind, EverInSync;
    var h := LOST_PEERS;
    BehindIff(h, WAITS, 5);
    assert !BehindNow(h[3].sample, WAITS);
    forall j | 0 <= j <= 5 && BehindFrom(h, WAITS, j, 5) ensures j >= 4 {
    }
  }

  lemma {:induction false} LostPeersPaused(c: Clock, ts: seq<Tick>, known: seq<bool>)
    requires |ts| == 6 && Ordered(ts) && known == [true, true, true, false, true, true]
    requires ts[1] == Tick(true, 1) && ts[2] == Tick(true, 400) && ts[4] == Tick(true, 700) && ts[5] == Tick(true, 950)
    ensures PausedFires(c, ts, known, WAITS, 5)
  {
    assert Ran(c, ts, known, 1, 1) == 0;
    assert Ran(c, ts, known, 1, 2) == 399;
    assert Ran(c, ts, known, 1, 3) >= 399;
    assert Ran(c, ts, known, 1, 4) >= 399;
    assert Ran(c, ts, known, 1, 5) >= 649;
    assert Held(ts, known, 1, 5);
  }
}
