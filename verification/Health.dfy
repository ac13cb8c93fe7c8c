/**
 The node health alarms (crates/alerts/src/health.rs): three timers and cooldowns and the latch that arms one of them,
 specified against the whole history of readings.
 */
module Health {
  import opened Options

  datatype Thresholds = Thresholds(blockGap: nat, forSecs: nat, cooldownSecs: nat)

  datatype Sample = Sample(executed: nat, best: nat, bestPeer: Option<nat>, peerCount: nat)

  datatype Alert =
    | NodeStalled(executed: nat, best: nat, stalledSecs: nat, peerCount: nat, bestPeer: Option<nat>)
    | NodeBehindPeers(best: nat, executed: nat, peer: nat, behindBy: nat, peerCount: nat, forSecs: nat)
    | NodeAheadOfPeers(best: nat, executed: nat, peer: nat, aheadBy: nat, peerCount: nat, forSecs: nat)

  // ----- one alarm

  /** When the condition last became true, and when the alarm last sent. */
  datatype Alarm = Alarm(since: Option<nat>, lastSent: Option<nat>)

  const QUIET := Alarm(None, None)

  /** `Instant::duration_since`, which never goes negative. */
  function Elapsed(from: nat, now: nat): (d: nat) {
    if from <= now then now - from else 0
  }

  predicate Cool(a: Alarm, now: nat, t: Thresholds) {
    a.lastSent.None? || Elapsed(a.lastSent.value, now) >= t.cooldownSecs
  }

  /** `fire_if_cool`, as the alarm it leaves; it fires exactly when the alarm is cool. */
  function Fired(a: Alarm, now: nat, t: Thresholds): (b: Alarm) {
    if Cool(a, now, t) then a.(lastSent := Some(now)) else a
  }

  function Since(a: Alarm, now: nat): (s: nat) {
    if a.since.Some? then a.since.value else now
  }

  predicate StepFires(a: Alarm, holding: bool, now: nat, t: Thresholds) {
    holding && Elapsed(Since(a, now), now) >= t.forSecs && Cool(a, now, t)
  }

  /** `step`, as the alarm it leaves. */
  function Stepped(a: Alarm, holding: bool, now: nat, t: Thresholds): (b: Alarm) {
    if !holding then a.(since := None)
    else Alarm(Some(Since(a, now)), if StepFires(a, holding, now, t) then Some(now) else a.lastSent)
  }

  class AlarmState {
    var since: Option<nat>
    var lastSent: Option<nat>

    function View(): (a: Alarm)
      reads this
    {
      Alarm(since, lastSent)
    }

    constructor ()
      ensures View() == QUIET
    {
      since, lastSent := None, None;
    }

    method FireIfCool(now: nat, t: Thresholds) returns (fire: bool)
      modifies this
      ensures fire == Cool(old(View()), now, t) && View() == Fired(old(View()), now, t)
    {
      if lastSent.Some? {
        if Elapsed(lastSent.value, now) < t.cooldownSecs {
          return false;
        }
      }
      lastSent := Some(now);
      return true;
    }

    method Step(holding: bool, now: nat, t: Thresholds) returns (fire: bool)
      modifies this
      ensures fire == StepFires(old(View()), holding, now, t) && View() == Stepped(old(View()), holding, now, t)
    {
      if !holding {
        since := None;
        return false;
      }
      if since.None? {
        since := Some(now);
      }
      if Elapsed(since.value, now) < t.forSecs {
        return false;
      }
      if lastSent.Some? {
        if Elapsed(lastSent.value, now) < t.cooldownSecs {
          return false;
        }
      }
      lastSent := Some(now);
      return true;
    }
  }

  // ----- an alarm over a history of ticks

  datatype Tick = Tick(holding: bool, at: nat)

  predicate Ordered(ts: seq<Tick>) {
    forall i, j :: 0 <= i < j < |ts| ==> ts[i].at <= ts[j].at
  }

  function AlarmAfter(ts: seq<Tick>, t: Thresholds): (a: Alarm) {
    if ts == [] then QUIET
    else
      var last := ts[|ts| - 1];
      Stepped(AlarmAfter(ts[..|ts| - 1], t), last.holding, last.at, t)
  }

  predicate FiresAt(ts: seq<Tick>, t: Thresholds, i: nat)
    requires i < |ts|
  {
    StepFires(AlarmAfter(ts[..i], t), ts[i].holding, ts[i].at, t)
  }

  /** The condition held on every tick from `j` to `i`. */
  predicate Throughout(ts: seq<Tick>, j: nat, i: nat)
    requires i < |ts|
  {
    j <= i && forall m :: j <= m <= i ==> ts[m].holding
  }

  /** Tick `s` begins the unbroken run that reaches the last tick. */
  predicate BeginsRun(ts: seq<Tick>, s: nat) {
    s < |ts| && Throughout(ts, s, |ts| - 1) && (s > 0 ==> !ts[s - 1].holding)
  }

  /** The alarm remembers when the unbroken run of its condition began. */
  ghost predicate RemembersRun(a: Alarm, ts: seq<Tick>) {
    && (a.since.Some? <==> ts != [] && ts[|ts| - 1].holding)
    && (a.since.Some? ==> exists s :: 0 <= s < |ts| && BeginsRun(ts, s) && a.since.value == ts[s].at)
  }

  /** Tick `l` is the latest of the first `n` that fired. */
  predicate LatestFiring(ts: seq<Tick>, t: Thresholds, l: nat, n: nat)
    requires n <= |ts|
  {
    l < n && FiresAt(ts, t, l) && forall m :: l < m < n ==> !FiresAt(ts, t, m)
  }

  /** The alarm remembers the latest firing. */
  ghost predicate RemembersSent(a: Alarm, ts: seq<Tick>, t: Thresholds) {
    && (a.lastSent.None? ==> forall m :: 0 <= m < |ts| ==> !FiresAt(ts, t, m))
    && (a.lastSent.Some? ==> exists l :: 0 <= l < |ts| && LatestFiring(ts, t, l, |ts|) && a.lastSent.value == ts[l].at)
  }

  lemma {:induction false} FiresInPrefix(ts: seq<Tick>, t: Thresholds, n: nat, i: nat)
    requires i < n <= |ts|
    ensures FiresAt(ts[..n], t, i) == FiresAt(ts, t, i)
  {
    hide AlarmAfter, StepFires;
    assert ts[..n][..i] == ts[..i];
  }

  lemma {:induction false} AlarmRemembers(ts: seq<Tick>, t: Thresholds)
    ensures RemembersRun(AlarmAfter(ts, t), ts) && RemembersSent(AlarmAfter(ts, t), ts, t)
  {
    if ts != [] {
      var n := |ts| - 1;
      AlarmRemembers(ts[..n], t);
      RunNext(AlarmAfter(ts[..n], t), ts, t);
      SentNext(AlarmAfter(ts[..n], t), ts, t);
    }
  }

  lemma {:induction false} RunNext(a: Alarm, ts: seq<Tick>, t: Thresholds)
    requires ts != [] && RemembersRun(a, ts[..|ts| - 1])
    ensures RemembersRun(Stepped(a, ts[|ts| - 1].holding, ts[|ts| - 1].at, t), ts)
  {
    hide StepFires;
    var n := |ts| - 1;
    var before, last := ts[..n], ts[n];
    if last.holding {
      var s := if a.since.Some?
               then var s :| 0 <= s < n && BeginsRun(before, s) && a.since.value == before[s].at; s
               else n;
      assert s > 0 ==> ts[s - 1] == before[s - 1];
      assert BeginsRun(ts, s) && Since(a, last.at) == ts[s].at;
    }
  }

  lemma {:induction false} SentNext(a: Alarm, ts: seq<Tick>, t: Thresholds)
    requires ts != [] && a == AlarmAfter(ts[..|ts| - 1], t) && RemembersSent(a, ts[..|ts| - 1], t)
    ensures RemembersSent(Stepped(a, ts[|ts| - 1].holding, ts[|ts| - 1].at, t), ts, t)
  {
    hide AlarmAfter, Cool, Elapsed;
    var n := |ts| - 1;
    var before, last := ts[..n], ts[n];
    forall m | 0 <= m < n ensures FiresAt(before, t, m) == FiresAt(ts, t, m) { FiresInPrefix(ts, t, n, m); }
    if FiresAt(ts, t, n) {
      assert LatestFiring(ts, t, n, n + 1);
    } else if a.lastSent.Some? {
      var l :| 0 <= l < n && LatestFiring(before, t, l, n) && a.lastSent.value == before[l].at;
      assert LatestFiring(ts, t, l, n + 1);
    }
  }

  /** No earlier firing fell within the cooldown. */
  predicate CooledDown(ts: seq<Tick>, t: Thresholds, i: nat)
    requires i < |ts|
  {
    forall m :: 0 <= m < i && FiresAt(ts, t, m) ==> ts[i].at - ts[m].at >= t.cooldownSecs
  }

  /**
   Over a time-ordered history an alarm fires exactly when its condition held on every tick over at least the waiting
   time, and no earlier firing fell within the cooldown.
   */
  lemma {:induction false} FiresIff(ts: seq<Tick>, t: Thresholds, i: nat)
    requires Ordered(ts) && i < |ts|
    ensures FiresAt(ts, t, i) <==>
            (exists j :: 0 <= j <= i && Throughout(ts, j, i) && ts[i].at - ts[j].at >= t.forSecs)
                && CooledDown(ts, t, i)
  {
    hide AlarmAfter;
    var before, a := ts[..i], AlarmAfter(ts[..i], t);
    AlarmRemembers(before, t);
    forall m | 0 <= m < i ensures FiresAt(before, t, m) == FiresAt(ts, t, m) { FiresInPrefix(ts, t, i, m); }
    CoolIff(ts, t, i);
    if ts[i].holding {
      RunLasts(ts, t, i);
    }
  }

  lemma {:induction false} CoolIff(ts: seq<Tick>, t: Thresholds, i: nat)
    requires Ordered(ts) && i < |ts| && RemembersSent(AlarmAfter(ts[..i], t), ts[..i], t)
    ensures Cool(AlarmAfter(ts[..i], t), ts[i].at, t) <==> CooledDown(ts, t, i)
  {
    hide AlarmAfter, StepFires, Throughout;
    var before, a := ts[..i], AlarmAfter(ts[..i], t);
    forall m | 0 <= m < i ensures FiresAt(before, t, m) == FiresAt(ts, t, m) { FiresInPrefix(ts, t, i, m); }
    if a.lastSent.Some? {
      var l :| 0 <= l < i && LatestFiring(before, t, l, i) && a.lastSent.value == before[l].at;
      assert FiresAt(ts, t, l);
      forall m | 0 <= m < i && FiresAt(ts, t, m) ensures ts[m].at <= ts[l].at {
        assert m <= l;
      }
    }
  }

  lemma {:induction false} RunLasts(ts: seq<Tick>, t: Thresholds, i: nat)
    requires Ordered(ts) && i < |ts| && RemembersRun(AlarmAfter(ts[..i], t), ts[..i]) && ts[i].holding
    ensures Elapsed(Since(AlarmAfter(ts[..i], t), ts[i].at), ts[i].at) >= t.forSecs <==>
            exists j :: 0 <= j <= i && Throughout(ts, j, i) && ts[i].at - ts[j].at >= t.forSecs
  {
    hide AlarmAfter, FiresAt;
    var before, a := ts[..i], AlarmAfter(ts[..i], t);
    var s := if a.since.Some?
             then var s :| 0 <= s < i && BeginsRun(before, s) && a.since.value == before[s].at; s
             else i;
    assert Throughout(ts, s, i) && Since(a, ts[i].at) == ts[s].at;
    assert s > 0 ==> !ts[s - 1].holding;
    forall j | 0 <= j <= i && Throughout(ts, j, i) ensures ts[i].at - ts[j].at <= ts[i].at - ts[s].at {
      assert j >= s;
    }
  }

  // ----- the monitor

  datatype Reading = Reading(sample: Sample, at: nat)

  datatype Monitor = Monitor(stalled: Alarm, behind: Alarm, ahead: Alarm, lastExecuted: Option<nat>,
                             executedSince: nat, caughtUp: bool)

  const FRESH := Monitor(QUIET, QUIET, QUIET, None, 0, false)

  function Gap(a: nat, b: nat): (g: nat) {
    if a >= b then a - b else 0
  }

  predicate BehindNow(s: Sample, t: Thresholds): (b: bool)
    ensures b <==> s.bestPeer.Some? && s.bestPeer.value > s.best + t.blockGap
  {
    s.bestPeer.Some? && Gap(s.bestPeer.value, s.best) > t.blockGap
  }

  predicate AheadNow(s: Sample, t: Thresholds): (b: bool)
    ensures b <==> s.bestPeer.Some? && s.bestPeer.value + t.blockGap < s.best
  {
    s.bestPeer.Some? && Gap(s.best, s.bestPeer.value) > t.blockGap
  }

  predicate InSync(s: Sample, t: Thresholds): (b: bool)
    ensures b <==> s.bestPeer.Some? && s.bestPeer.value <= s.best + t.blockGap
  {
    s.bestPeer.Some? && !BehindNow(s, t)
  }

  function PeerOr0(s: Sample): (p: nat) {
    if s.bestPeer.Some? then s.bestPeer.value else 0
  }

  /** The executed height is the one last seen, and has been for long enough. */
  predicate StalledNow(m: Monitor, r: Reading, t: Thresholds) {
    m.lastExecuted == Some(r.sample.executed) && Elapsed(m.executedSince, r.at) >= t.forSecs
  }

  function Observed(m: Monitor, r: Reading, t: Thresholds): (n: Monitor) {
    var s := r.sample;
    var caughtUp := m.caughtUp || InSync(s, t);
    Monitor(
      if StalledNow(m, r, t) then Fired(m.stalled, r.at, t) else m.stalled,
      Stepped(m.behind, BehindNow(s, t) && caughtUp, r.at, t),
      Stepped(m.ahead, AheadNow(s, t), r.at, t),
      Some(s.executed),
      if m.lastExecuted == Some(s.executed) then m.executedSince else r.at,
      caughtUp)
  }

  predicate StalledFires(m: Monitor, r: Reading, t: Thresholds) {
    StalledNow(m, r, t) && Cool(m.stalled, r.at, t)
  }

  predicate BehindFires(m: Monitor, r: Reading, t: Thresholds) {
    StepFires(m.behind, BehindNow(r.sample, t) && (m.caughtUp || InSync(r.sample, t)), r.at, t)
  }

  predicate AheadFires(m: Monitor, r: Reading, t: Thresholds) {
    StepFires(m.ahead, AheadNow(r.sample, t), r.at, t)
  }

  /** The alerts one reading raises. */
  function Raised(m: Monitor, r: Reading, t: Thresholds): (out: seq<Alert>) {
    var s := r.sample;
    (if StalledFires(m, r, t)
     then [NodeStalled(s.executed, s.best, Elapsed(m.executedSince, r.at), s.peerCount, s.bestPeer)] else [])
    + (if BehindFires(m, r, t)
       then [NodeBehindPeers(s.best, s.executed, PeerOr0(s), Gap(PeerOr0(s), s.best), s.peerCount, t.forSecs)] else [])
    + (if AheadFires(m, r, t)
       then [NodeAheadOfPeers(s.best, s.executed, PeerOr0(s), Gap(s.best, PeerOr0(s)), s.peerCount, t.forSecs)] else [])
  }

  class HealthMonitor {
    const t: Thresholds
    const stalled: AlarmState
    const behind: AlarmState
    const ahead: AlarmState
    var lastExecuted: Option<nat>
    var executedSince: Option<nat>
    var caughtUpOnce: bool

    ghost predicate Valid()
      reads this
    {
      stalled != behind && stalled != ahead && behind != ahead && (lastExecuted.Some? <==> executedSince.Some?)
    }

    ghost function View(): (m: Monitor)
      reads this, stalled, behind, ahead
    {
      Monitor(stalled.View(), behind.View(), ahead.View(), lastExecuted,
              if executedSince.Some? then executedSince.value else 0, caughtUpOnce)
    }

    constructor (t: Thresholds)
      ensures Valid() && View() == FRESH && this.t == t
      ensures fresh(stalled) && fresh(behind) && fresh(ahead)
    {
      this.t := t;
      stalled := new AlarmState();
      behind := new AlarmState();
      ahead := new AlarmState();
      lastExecuted, executedSince, caughtUpOnce := None, None, false;
    }

    /** `observe`. */
    method Observe(s: Sample, now: nat) returns (out: seq<Alert>)
      requires Valid()
      modifies this, stalled, behind, ahead
      ensures Valid() && View() == Observed(old(View()), Reading(s, now), t)
      ensures out == Raised(old(View()), Reading(s, now), t)
    {
      hide StepFires, Stepped, Cool, Fired, Elapsed, Gap;
      out := [];
      var moved := lastExecuted != Some(s.executed);
      if moved {
        lastExecuted := Some(s.executed);
        executedSince := Some(now);
      }
      var stalledFor := if executedSince.Some? then Elapsed(executedSince.value, now) else 0;
      if !moved && stalledFor >= t.forSecs {
        var fire := stalled.FireIfCool(now, t);
        if fire {
          out := out + [NodeStalled(s.executed, s.best, stalledFor, s.peerCount, s.bestPeer)];
        }
      }
      var behindNow, aheadNow := false, false;
      if s.bestPeer.Some? {
        behindNow := Gap(s.bestPeer.value, s.best) > t.blockGap;
        aheadNow := Gap(s.best, s.bestPeer.value) > t.blockGap;
      }
      if s.bestPeer.Some? && !behindNow {
        caughtUpOnce := true;
      }
      var fire := behind.Step(behindNow && caughtUpOnce, now, t);
      if fire {
        out := out + [NodeBehindPeers(s.best, s.executed, PeerOr0(s), Gap(PeerOr0(s), s.best), s.peerCount, t.forSecs)];
      }
      fire := ahead.Step(aheadNow, now, t);
      if fire {
        out := out + [NodeAheadOfPeers(s.best, s.executed, PeerOr0(s), Gap(s.best, PeerOr0(s)), s.peerCount,
                                       t.forSecs)];
      }
    }
  }

  // ----- the monitor over a history

  function MonitorAfter(h: seq<Reading>, t: Thresholds): (m: Monitor) {
    if h == [] then FRESH else Observed(MonitorAfter(h[..|h| - 1], t), h[|h| - 1], t)
  }

  /** What the monitor raises at one reading of a history. */
  function RaisedAt(h: seq<Reading>, t: Thresholds, i: nat): (out: seq<Alert>)
    requires i < |h|
  {
    Raised(MonitorAfter(h[..i], t), h[i], t)
  }

  predicate InOrder(h: seq<Reading>) {
    forall i, j :: 0 <= i < j < |h| ==> h[i].at <= h[j].at
  }

  predicate EverInSync(h: seq<Reading>, t: Thresholds, n: nat)
    requires n <= |h|
  {
    exists l :: 0 <= l < n && InSync(h[l].sample, t)
  }

  /** The executed height has not changed from reading `j` to reading `i`. */
  predicate Unmoved(h: seq<Reading>, j: nat, i: nat)
    requires i < |h|
  {
    j <= i && forall m :: j <= m <= i ==> h[m].sample.executed == h[i].sample.executed
  }

  predicate StuckAt(h: seq<Reading>, t: Thresholds, i: nat)
    requires i < |h|
  {
    exists j :: 0 <= j < i && Unmoved(h, j, i) && h[i].at - h[j].at >= t.forSecs
  }

  function BehindTicks(h: seq<Reading>, t: Thresholds): (ts: seq<Tick>)
    ensures |ts| == |h|
  {
    seq(|h|, i requires 0 <= i < |h| => Tick(BehindNow(h[i].sample, t) && EverInSync(h, t, i + 1), h[i].at))
  }

  function AheadTicks(h: seq<Reading>, t: Thresholds): (ts: seq<Tick>)
    ensures |ts| == |h|
  {
    seq(|h|, i requires 0 <= i < |h| => Tick(AheadNow(h[i].sample, t), h[i].at))
  }

  function StallTicks(h: seq<Reading>, t: Thresholds): (ts: seq<Tick>)
    ensures |ts| == |h|
  {
    seq(|h|, i requires 0 <= i < |h| => Tick(StuckAt(h, t, i), h[i].at))
  }

  /** The stall measures its own duration, so its alarm adds no wait. */
  function AtOnce(t: Thresholds): (u: Thresholds) {
    t.(forSecs := 0)
  }

  /** Reading `s` is the one at which the last executed height was first seen in its unbroken run. */
  predicate FirstSeen(h: seq<Reading>, s: nat) {
    s < |h| && Unmoved(h, s, |h| - 1) && (s > 0 ==> h[s - 1].sample.executed != h[s].sample.executed)
  }

  /** Each component of the monitor depends on the history only through its own ticks. */
  ghost predicate Tracks(m: Monitor, h: seq<Reading>, t: Thresholds) {
    && m.behind == AlarmAfter(BehindTicks(h, t), t)
    && m.ahead == AlarmAfter(AheadTicks(h, t), t)
    && m.stalled.lastSent == AlarmAfter(StallTicks(h, t), AtOnce(t)).lastSent
    && m.caughtUp == EverInSync(h, t, |h|)
    && (h == [] ==> m.lastExecuted == None)
    && (h != [] ==> m.lastExecuted == Some(h[|h| - 1].sample.executed))
    && (h != [] ==> exists s :: 0 <= s < |h| && FirstSeen(h, s) && m.executedSince == h[s].at)
  }

  // ticks of a prefix are a prefix of the ticks

  lemma {:induction false} SyncInPrefix(h: seq<Reading>, t: Thresholds, n: nat, k: nat)
    requires k <= n <= |h|
    ensures EverInSync(h[..n], t, k) == EverInSync(h, t, k)
  {
    hide InSync;
    if l :| 0 <= l < k && InSync(h[l].sample, t) {
      assert h[..n][l] == h[l];
    }
  }

  lemma {:induction false} StuckInPrefix(h: seq<Reading>, t: Thresholds, n: nat, i: nat)
    requires i < n <= |h|
    ensures StuckAt(h[..n], t, i) == StuckAt(h, t, i)
  {
    forall j | 0 <= j <= i ensures Unmoved(h[..n], j, i) == Unmoved(h, j, i) {
    }
    if j :| 0 <= j < i && Unmoved(h, j, i) && h[i].at - h[j].at >= t.forSecs {
      assert Unmoved(h[..n], j, i) && h[..n][i].at - h[..n][j].at >= t.forSecs;
    }
  }

  lemma {:induction false} TicksInPrefix(h: seq<Reading>, t: Thresholds, n: nat)
    requires n <= |h|
    ensures BehindTicks(h[..n], t) == BehindTicks(h, t)[..n]
    ensures AheadTicks(h[..n], t) == AheadTicks(h, t)[..n]
    ensures StallTicks(h[..n], t) == StallTicks(h, t)[..n]
  {
    hide EverInSync, StuckAt, BehindNow, AheadNow;
    forall i | 0 <= i < n
      ensures BehindTicks(h[..n], t)[i] == BehindTicks(h, t)[i] && StallTicks(h[..n], t)[i] == StallTicks(h, t)[i]
    {
      SyncInPrefix(h, t, n, i + 1);
      StuckInPrefix(h, t, n, i);
    }
  }

  lemma {:induction false} AlarmUnfold(ts: seq<Tick>, t: Thresholds)
    requires ts != []
    ensures AlarmAfter(ts, t) == Stepped(AlarmAfter(ts[..|ts| - 1], t), ts[|ts| - 1].holding, ts[|ts| - 1].at, t)
  {
  }

  lemma {:induction false} MonitorTracks(h: seq<Reading>, t: Thresholds)
    requires InOrder(h)
    ensures Tracks(MonitorAfter(h, t), h, t)
  {
    hide Tracks, Observed;
    if h == [] {
      TracksNothing(h, t);
    } else {
      var n := |h| - 1;
      MonitorTracks(h[..n], t);
      TracksNext(MonitorAfter(h[..n], t), h, t);
    }
  }

  lemma {:induction false} TracksNothing(h: seq<Reading>, t: Thresholds)
    requires h == []
    ensures Tracks(FRESH, h, t)
  {
    assert BehindTicks(h, t) == [] && AheadTicks(h, t) == [] && StallTicks(h, t) == [];
  }

  /** The latch: a history has been in sync once some reading of it was. */
  lemma {:induction false} LatchNext(h: seq<Reading>, t: Thresholds)
    requires h != []
    ensures EverInSync(h, t, |h|) == (EverInSync(h[..|h| - 1], t, |h| - 1) || InSync(h[|h| - 1].sample, t))
  {
    hide InSync;
    var n := |h| - 1;
    SyncInPrefix(h, t, n, n);
    if l :| 0 <= l < n && InSync(h[l].sample, t) {
      assert EverInSync(h, t, n + 1);
    }
    if InSync(h[n].sample, t) {
      assert EverInSync(h, t, n + 1);
    }
  }

  lemma {:induction false} TracksNext(m: Monitor, h: seq<Reading>, t: Thresholds)
    requires h != [] && InOrder(h) && Tracks(m, h[..|h| - 1], t)
    ensures Tracks(Observed(m, h[|h| - 1], t), h, t)
  {
    hide AlarmAfter, Stepped, BehindNow, AheadNow, InSync, EverInSync, StuckAt, StalledNow, FirstSeen;
    var n := |h| - 1;
    var r := h[n];
    TicksInPrefix(h, t, n);
    LatchNext(h, t);
    AlarmUnfold(BehindTicks(h, t), t);
    AlarmUnfold(AheadTicks(h, t), t);
    AlarmUnfold(StallTicks(h, t), AtOnce(t));
    StalledIff(m, h, t);
    FiredIsStep(m.stalled, AlarmAfter(StallTicks(h, t)[..n], AtOnce(t)), StuckAt(h, t, n), r.at, t);
    FirstSeenNext(m, h, t);
  }

  /** Firing when cool leaves the same last-sent time as stepping an alarm that does not wait. */
  lemma {:induction false} FiredIsStep(a: Alarm, b: Alarm, ready: bool, now: nat, t: Thresholds)
    requires a.lastSent == b.lastSent
    ensures (if ready then Fired(a, now, t) else a).lastSent == Stepped(b, ready, now, AtOnce(t)).lastSent
  {
  }

  lemma {:induction false} FirstSeenNext(m: Monitor, h: seq<Reading>, t: Thresholds)
    requires h != [] && (|h| == 1 ==> m.lastExecuted == None)
    requires |h| > 1 ==> m.lastExecuted == Some(h[|h| - 2].sample.executed)
    requires |h| > 1 ==> exists s :: 0 <= s < |h| - 1 && FirstSeen(h[..|h| - 1], s) && m.executedSince == h[s].at
    ensures var since := if m.lastExecuted == Some(h[|h| - 1].sample.executed) then m.executedSince else h[|h| - 1].at;
            exists s :: 0 <= s < |h| && FirstSeen(h, s) && since == h[s].at
  {
    var n := |h| - 1;
    if m.lastExecuted == Some(h[n].sample.executed) {
      var s :| 0 <= s < n && FirstSeen(h[..n], s) && m.executedSince == h[s].at;
      SeenOn(h, s);
    } else {
      assert FirstSeen(h, n);
    }
  }

  lemma {:induction false} SeenOn(h: seq<Reading>, s: nat)
    requires |h| > 1 && FirstSeen(h[..|h| - 1], s) && h[|h| - 2].sample.executed == h[|h| - 1].sample.executed
    ensures FirstSeen(h, s)
  {
    var n := |h| - 1;
    assert h[..n][|h[..n]| - 1] == h[n - 1];
    forall k | s <= k <= n ensures h[k].sample.executed == h[n].sample.executed {
      if k < n {
        assert h[..n][k] == h[k];
      }
    }
    assert s > 0 ==> h[..n][s - 1] == h[s - 1];
    assert h[..n][s] == h[s];
  }

  /** The monitor finds the node stalled exactly when its height has not moved for long enough. */
  lemma {:induction false} StalledIff(m: Monitor, h: seq<Reading>, t: Thresholds)
    requires h != [] && InOrder(h) && Tracks(m, h[..|h| - 1], t)
    ensures StalledNow(m, h[|h| - 1], t) <==> StuckAt(h, t, |h| - 1)
  {
    hide AlarmAfter, EverInSync;
    var n := |h| - 1;
    if m.lastExecuted == Some(h[n].sample.executed) {
      var s :| 0 <= s < n && FirstSeen(h[..n], s) && m.executedSince == h[..n][s].at;
      SeenOn(h, s);
      forall j | 0 <= j < n && Unmoved(h, j, n) ensures s <= j {
      }
    } else if n > 0 {
      assert h[..n][|h[..n]| - 1] == h[n - 1];
    }
  }

  // ----- when each alarm sends

  predicate RaisesStalled(h: seq<Reading>, t: Thresholds, i: nat)
    requires i < |h|
  {
    exists a :: a in RaisedAt(h, t, i) && a.NodeStalled?
  }

  predicate RaisesBehind(h: seq<Reading>, t: Thresholds, i: nat)
    requires i < |h|
  {
    exists a :: a in RaisedAt(h, t, i) && a.NodeBehindPeers?
  }

  predicate RaisesAhead(h: seq<Reading>, t: Thresholds, i: nat)
    requires i < |h|
  {
    exists a :: a in RaisedAt(h, t, i) && a.NodeAheadOfPeers?
  }

  lemma {:induction false} RaisedKinds(m: Monitor, r: Reading, t: Thresholds)
    ensures (exists a :: a in Raised(m, r, t) && a.NodeStalled?) <==> StalledFires(m, r, t)
    ensures (exists a :: a in Raised(m, r, t) && a.NodeBehindPeers?) <==> BehindFires(m, r, t)
    ensures (exists a :: a in Raised(m, r, t) && a.NodeAheadOfPeers?) <==> AheadFires(m, r, t)
  {
    hide StalledFires, BehindFires, AheadFires, Gap, Elapsed, PeerOr0;
    var out := Raised(m, r, t);
    if StalledFires(m, r, t) { assert out[0].NodeStalled?; }
    if AheadFires(m, r, t) { assert out[|out| - 1].NodeAheadOfPeers?; }
    if BehindFires(m, r, t) { assert out[if StalledFires(m, r, t) then 1 else 0].NodeBehindPeers?; }
  }

  /** What the monitor raises at a reading is what each alarm's own ticks make fire there. */
  lemma {:induction false} RaisesAreFirings(h: seq<Reading>, t: Thresholds, i: nat)
    requires InOrder(h) && i < |h|
    ensures RaisesBehind(h, t, i) <==> FiresAt(BehindTicks(h, t), t, i)
    ensures RaisesAhead(h, t, i) <==> FiresAt(AheadTicks(h, t), t, i)
    ensures RaisesStalled(h, t, i) <==> FiresAt(StallTicks(h, t), AtOnce(t), i)
  {
    hide MonitorAfter, AlarmAfter, BehindNow, AheadNow, InSync, EverInSync, StuckAt, Raised;
    var m, past := MonitorAfter(h[..i], t), h[..i + 1];
    MonitorTracks(h[..i], t);
    RaisedKinds(m, h[i], t);
    TicksInPrefix(h, t, i);
    assert past[..i] == h[..i];
    LatchNext(past, t);
    SyncInPrefix(h, t, i + 1, i + 1);
    StalledIff(m, past, t);
    StuckInPrefix(h, t, i + 1, i);
  }

  /** The figures an alert carries, read off the samples. */
  ghost predicate Figures(h: seq<Reading>, t: Thresholds, i: nat, a: Alert)
    requires i < |h|
  {
    var s := h[i].sample;
    && a.best == s.best && a.executed == s.executed && a.peerCount == s.peerCount
    && match a
       case NodeStalled(_, _, secs, _, bestPeer) =>
         bestPeer == s.bestPeer && exists j :: 0 <= j < i && FirstSeen(h[..i + 1], j) && secs == h[i].at - h[j].at
       case NodeBehindPeers(_, _, peer, behindBy, _, forSecs) =>
         s.bestPeer == Some(peer) && behindBy == peer - s.best && behindBy > t.blockGap && forSecs == t.forSecs
       case NodeAheadOfPeers(_, _, peer, aheadBy, _, forSecs) =>
         s.bestPeer == Some(peer) && aheadBy == s.best - peer && aheadBy > t.blockGap && forSecs == t.forSecs
  }

  /** How long the height has stood still is counted from the reading that first showed it. */
  lemma {:induction false} StalledSince(h: seq<Reading>, t: Thresholds, i: nat) returns (j: nat)
    requires InOrder(h) && i < |h| && StalledNow(MonitorAfter(h[..i], t), h[i], t)
    ensures j < i && FirstSeen(h[..i + 1], j)
    ensures Elapsed(MonitorAfter(h[..i], t).executedSince, h[i].at) == h[i].at - h[j].at
  {
    hide MonitorAfter, AlarmAfter, EverInSync, FirstSeen;
    var m, past := MonitorAfter(h[..i], t), h[..i];
    MonitorTracks(past, t);
    j :| 0 <= j < i && FirstSeen(past, j) && m.executedSince == past[j].at;
    assert h[..i + 1][..i] == past;
    SeenOn(h[..i + 1], j);
  }

  /** Every alert raised carries the figures of its own reading, each in its own place. */
  lemma {:induction false} AlertFigures(h: seq<Reading>, t: Thresholds, i: nat, a: Alert)
    requires InOrder(h) && i < |h| && a in RaisedAt(h, t, i)
    ensures Figures(h, t, i, a)
  {
    hide MonitorAfter, Elapsed, Cool, FirstSeen;
    if a.NodeStalled? {
      var j := StalledSince(h, t, i);
    }
  }

  /** The node was more than the gap behind its best peer at every reading from `j` to `i`. */
  predicate BehindFrom(h: seq<Reading>, t: Thresholds, j: nat, i: nat)
    requires i < |h|
  {
    j <= i && forall m :: j <= m <= i ==> BehindNow(h[m].sample, t)
  }

  predicate AheadFrom(h: seq<Reading>, t: Thresholds, j: nat, i: nat)
    requires i < |h|
  {
    j <= i && forall m :: j <= m <= i ==> AheadNow(h[m].sample, t)
  }

  /**
   The behind alarm sends exactly when the node was more than the gap behind at every reading over at least the waiting
   time, some earlier reading was in sync, and no earlier behind alert fell within the cooldown.
   */
  lemma {:induction false} BehindIff(h: seq<Reading>, t: Thresholds, i: nat)
    requires InOrder(h) && i < |h|
    ensures RaisesBehind(h, t, i) <==>
            && (exists j :: 0 <= j <= i && BehindFrom(h, t, j, i) && h[i].at - h[j].at >= t.forSecs)
            && EverInSync(h, t, i)
            && forall m :: 0 <= m < i && RaisesBehind(h, t, m) ==> h[i].at - h[m].at >= t.cooldownSecs
  {
    hide RaisesBehind, FiresAt, BehindNow, InSync, Throughout, BehindFrom, EverInSync;
    var ts := BehindTicks(h, t);
    FiresIff(ts, t, i);
    forall m | 0 <= m <= i ensures RaisesBehind(h, t, m) <==> FiresAt(ts, t, m) { RaisesAreFirings(h, t, m); }
    forall j | 0 <= j <= i ensures Throughout(ts, j, i) <==> BehindFrom(h, t, j, i) && EverInSync(h, t, i) {
      ArmedThroughout(h, t, j, i);
    }
  }

  lemma {:induction false} ArmedThroughout(h: seq<Reading>, t: Thresholds, j: nat, i: nat)
    requires j <= i < |h|
    ensures Throughout(BehindTicks(h, t), j, i) <==> BehindFrom(h, t, j, i) && EverInSync(h, t, i)
  {
    var ts := BehindTicks(h, t);
    if Throughout(ts, j, i) {
      assert ts[i].holding;
      var l :| 0 <= l < i + 1 && InSync(h[l].sample, t);
      assert l != i;
      forall m | j <= m <= i ensures BehindNow(h[m].sample, t) { assert ts[m].holding; }
    }
    if BehindFrom(h, t, j, i) && EverInSync(h, t, i) {
      var l :| 0 <= l < i && InSync(h[l].sample, t);
      assert l < j;
      forall m | j <= m <= i ensures ts[m].holding { assert EverInSync(h, t, m + 1); }
    }
  }

  /** The ahead alarm needs no arming. */
  lemma {:induction false} AheadIff(h: seq<Reading>, t: Thresholds, i: nat)
    requires InOrder(h) && i < |h|
    ensures RaisesAhead(h, t, i) <==>
            && (exists j :: 0 <= j <= i && AheadFrom(h, t, j, i) && h[i].at - h[j].at >= t.forSecs)
            && forall m :: 0 <= m < i && RaisesAhead(h, t, m) ==> h[i].at - h[m].at >= t.cooldownSecs
  {
    hide RaisesAhead, FiresAt, AheadNow, Throughout, AheadFrom;
    var ts := AheadTicks(h, t);
    FiresIff(ts, t, i);
    forall m | 0 <= m <= i ensures RaisesAhead(h, t, m) <==> FiresAt(ts, t, m) { RaisesAreFirings(h, t, m); }
    forall j | 0 <= j <= i ensures Throughout(ts, j, i) <==> AheadFrom(h, t, j, i) { AheadThroughout(h, t, j, i); }
  }

  lemma {:induction false} AheadThroughout(h: seq<Reading>, t: Thresholds, j: nat, i: nat)
    requires j <= i < |h|
    ensures Throughout(AheadTicks(h, t), j, i) <==> AheadFrom(h, t, j, i)
  {
    hide AheadNow;
    var ts := AheadTicks(h, t);
    if Throughout(ts, j, i) {
      forall m | j <= m <= i ensures AheadNow(h[m].sample, t) { assert ts[m].holding; }
    }
  }

  /** The stall alarm times the height itself: no second wait, and the first reading can never be one. */
  lemma {:induction false} StalledSendsIff(h: seq<Reading>, t: Thresholds, i: nat)
    requires InOrder(h) && i < |h|
    ensures RaisesStalled(h, t, i) <==>
            && StuckAt(h, t, i)
            && forall m :: 0 <= m < i && RaisesStalled(h, t, m) ==> h[i].at - h[m].at >= t.cooldownSecs
  {
    hide RaisesStalled, FiresAt, StuckAt;
    var ts := StallTicks(h, t);
    FiresIff(ts, AtOnce(t), i);
    forall m | 0 <= m <= i ensures RaisesStalled(h, t, m) <==> FiresAt(ts, AtOnce(t), m) { RaisesAreFirings(h, t, m); }
    if StuckAt(h, t, i) {
      assert Throughout(ts, i, i);
    }
  }

  /** Two alerts of one kind are never closer than the cooldown, however often the condition clears in between. */
  lemma {:induction false} CooldownApart(h: seq<Reading>, t: Thresholds, m: nat, i: nat)
    requires InOrder(h) && m < i < |h|
    ensures RaisesBehind(h, t, m) && RaisesBehind(h, t, i) ==> h[i].at - h[m].at >= t.cooldownSecs
    ensures RaisesAhead(h, t, m) && RaisesAhead(h, t, i) ==> h[i].at - h[m].at >= t.cooldownSecs
    ensures RaisesStalled(h, t, m) && RaisesStalled(h, t, i) ==> h[i].at - h[m].at >= t.cooldownSecs
  {
    hide RaisesBehind, RaisesAhead, RaisesStalled, StuckAt, EverInSync, BehindFrom, AheadFrom;
    BehindIff(h, t, i);
    AheadIff(h, t, i);
    StalledSendsIff(h, t, i);
  }

  /**
   The alarms are independent: histories that agree on when readings came, and on what one alarm looks at, raise that
   alarm at the same readings, whatever the others did.
   */
  lemma {:induction false} AlarmsIndependent(h: seq<Reading>, g: seq<Reading>, t: Thresholds, i: nat)
    requires InOrder(h) && InOrder(g) && |h| == |g| && i < |h| && forall m :: 0 <= m < |h| ==> h[m].at == g[m].at
    ensures (forall m :: 0 <= m < |h| ==> h[m].sample.executed == g[m].sample.executed) ==>
            RaisesStalled(h, t, i) == RaisesStalled(g, t, i)
    ensures (forall m :: 0 <= m < |h| ==>
             h[m].sample.best == g[m].sample.best && h[m].sample.bestPeer == g[m].sample.bestPeer) ==>
              RaisesBehind(h, t, i) == RaisesBehind(g, t, i) && RaisesAhead(h, t, i) == RaisesAhead(g, t, i)
  {
    hide RaisesBehind, RaisesAhead, RaisesStalled, FiresAt;
    RaisesAreFirings(h, t, i);
    RaisesAreFirings(g, t, i);
    if forall m :: 0 <= m < |h| ==> h[m].sample.executed == g[m].sample.executed {
      SameStallTicks(h, g, t);
    }
    if forall m :: 0 <= m < |h| ==>
        h[m].sample.best == g[m].sample.best && h[m].sample.bestPeer == g[m].sample.bestPeer {
      SamePeerTicks(h, g, t);
    }
  }

  lemma {:induction false} SameStallTicks(h: seq<Reading>, g: seq<Reading>, t: Thresholds)
    requires |h| == |g| && forall m :: 0 <= m < |h| ==>
             h[m].at == g[m].at && h[m].sample.executed == g[m].sample.executed
    ensures StallTicks(h, t) == StallTicks(g, t)
  {
    forall i | 0 <= i < |h| ensures StuckAt(h, t, i) == StuckAt(g, t, i) {
      forall j | 0 <= j <= i ensures Unmoved(h, j, i) == Unmoved(g, j, i) {}
      if j :| 0 <= j < i && Unmoved(h, j, i) && h[i].at - h[j].at >= t.forSecs { assert Unmoved(g, j, i); }
      if j :| 0 <= j < i && Unmoved(g, j, i) && g[i].at - g[j].at >= t.forSecs { assert Unmoved(h, j, i); }
    }
  }

  lemma {:induction false} SamePeerTicks(h: seq<Reading>, g: seq<Reading>, t: Thresholds)
    requires |h| == |g|
    requires forall m :: 0 <= m < |h| ==>
             h[m].at == g[m].at && h[m].sample.best == g[m].sample.best && h[m].sample.bestPeer == g[m].sample.bestPeer
    ensures BehindTicks(h, t) == BehindTicks(g, t) && AheadTicks(h, t) == AheadTicks(g, t)
  {
    hide Gap;
    forall m | 0 <= m < |h| ensures InSync(h[m].sample, t) == InSync(g[m].sample, t) {}
    forall i | 0 <= i < |h| ensures BehindTicks(h, t)[i] == BehindTicks(g, t)[i] {
      if l :| 0 <= l < i + 1 && InSync(h[l].sample, t) { assert InSync(g[l].sample, t); }
      if l :| 0 <= l < i + 1 && InSync(g[l].sample, t) { assert InSync(h[l].sample, t); }
      assert EverInSync(h, t, i + 1) == EverInSync(g, t, i + 1);
    }
  }
}
