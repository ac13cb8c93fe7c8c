/**
 Which blocks are worth re-executing (crates/alerts/src/movement.rs): the bounded log of what execution saw move, the
 decision drawn from it, and what a skipped block can and cannot have contained.
 */
module Movement {
  import opened Options
  import opened Transfers

  type BlockHash = nat

  datatype Replay = Moved | NotRecorded | Skip

  /** `decide`. */
  function Decide(recorded: Option<nat>, filter: nat): (r: Replay) {
    match recorded
    case None => NotRecorded
    case Some(moved) => if moved > filter then Replay.Moved else Skip
  }

  /** So a filter of zero does not re-execute every block: one in which nothing moved is skipped, and only that one. */
  lemma {:induction false} ZeroFilterSkipsIff(recorded: Option<nat>)
    ensures Decide(recorded, 0) == Skip <==> recorded == Some(0)
  {
  }

  // ----- the log

  datatype Record = Record(block: BlockHash, largest: nat)

  /** Every block recorded, most recent first, each with what was last recorded of it. */
  function Recent(history: seq<Record>): (rs: seq<Record>) {
    if history == [] then []
    else
      var last := history[|history| - 1];
      [last] + Without(Recent(history[..|history| - 1]), last.block)
  }

  function Without(rs: seq<Record>, block: BlockHash): (r: seq<Record>) {
    if rs == [] then [] else (if rs[0].block == block then [] else [rs[0]]) + Without(rs[1..], block)
  }

  function Take(rs: seq<Record>, n: nat): (r: seq<Record>) {
    if |rs| <= n then rs else rs[..n]
  }

  function Peek(rs: seq<Record>, block: BlockHash): (r: Option<nat>) {
    if rs == [] then None else if rs[0].block == block then Some(rs[0].largest) else Peek(rs[1..], block)
  }

  ghost predicate Distinct(rs: seq<Record>) {
    forall i, j :: 0 <= i < j < |rs| ==> rs[i].block != rs[j].block
  }

  lemma {:induction false} WithoutMember(rs: seq<Record>, block: BlockHash, r: Record)
    ensures r in Without(rs, block) <==> r in rs && r.block != block
  {
    if rs != [] {
      WithoutMember(rs[1..], block, r);
    }
  }

  lemma {:induction false} WithoutDistinct(rs: seq<Record>, block: BlockHash)
    requires Distinct(rs)
    ensures Distinct(Without(rs, block)) && |Without(rs, block)| <= |rs|
  {
    if rs != [] {
      WithoutDistinct(rs[1..], block);
      var w := Without(rs[1..], block);
      forall i | 0 <= i < |w| ensures w[i].block != rs[0].block {
        WithoutMember(rs[1..], block, w[i]);
        assert w[i] in rs[1..];
      }
    }
  }

  lemma {:induction false} RecentDistinct(history: seq<Record>)
    ensures Distinct(Recent(history))
  {
    if history != [] {
      var n := |history| - 1;
      RecentDistinct(history[..n]);
      var rest := Recent(history[..n]);
      var w := Without(rest, history[n].block);
      WithoutDistinct(rest, history[n].block);
      forall i | 0 <= i < |w| ensures w[i].block != history[n].block { WithoutMember(rest, history[n].block, w[i]); }
    }
  }

  /** Without a block that is not there. */
  lemma {:induction false} WithoutAbsent(rs: seq<Record>, block: BlockHash)
    requires forall i :: 0 <= i < |rs| ==> rs[i].block != block
    ensures Without(rs, block) == rs
  {
    if rs != [] {
      WithoutAbsent(rs[1..], block);
    }
  }

  predicate Has(rs: seq<Record>, block: BlockHash) {
    exists i :: 0 <= i < |rs| && rs[i].block == block
  }

  lemma {:induction false} TakeCons(rs: seq<Record>, n: nat)
    requires rs != [] && n > 0
    ensures Take(rs, n) == [rs[0]] + Take(rs[1..], n - 1)
  {
  }

  lemma {:induction false} HasCons(r: Record, rs: seq<Record>, block: BlockHash)
    ensures Has([r] + rs, block) <==> r.block == block || Has(rs, block)
  {
    var all := [r] + rs;
    if r.block == block { assert all[0].block == block; }
    if i :| 0 <= i < |rs| && rs[i].block == block { assert all[i + 1].block == block; }
    if i :| 0 <= i < |all| && all[i].block == block && i > 0 { assert rs[i - 1].block == block; }
  }

  lemma {:induction false} WithoutCons(r: Record, rs: seq<Record>, block: BlockHash)
    ensures Without([r] + rs, block) == (if r.block == block then [] else [r]) + Without(rs, block)
  {
    assert ([r] + rs)[1..] == rs;
  }

  lemma {:induction false} AbsentUnchanged(rs: seq<Record>, block: BlockHash)
    requires !Has(rs, block)
    ensures Without(rs, block) == rs
  {
    WithoutAbsent(rs, block);
  }

  lemma {:induction false} HeadDistinct(rs: seq<Record>, n: nat)
    requires rs != [] && Distinct(rs)
    ensures Distinct(rs[1..]) && !Has(rs[1..], rs[0].block) && !Has(Take(rs[1..], n), rs[0].block)
  {
  }

  /** What the cache makes of a record: a known block moves to the front, otherwise the oldest makes room. */
  function PutFront(entries: seq<Record>, r: Record, capacity: nat): (es: seq<Record>)
    requires capacity >= 1
  {
    [r] + if Has(entries, r.block) then Without(entries, r.block) else Take(entries, capacity - 1)
  }

  /** Forgetting the oldest and then recording is recording and then forgetting the oldest. */
  lemma {:induction false} TakeWithout(rs: seq<Record>, block: BlockHash, n: nat)
    requires Distinct(rs)
    ensures Take(Without(rs, block), n) ==
            if Has(Take(rs, n + 1), block) then Without(Take(rs, n + 1), block) else Take(rs, n)
    decreases |rs|
  {
    hide Without, Has, Distinct, Take;
    if rs == [] {
      EmptyTake(block, n);
    } else {
      var r, tail := rs[0], rs[1..];
      assert rs == [r] + tail;
      HeadDistinct(rs, n);
      TakeCons(rs, n + 1);
      WithoutCons(r, tail, block);
      WithoutCons(r, Take(tail, n), block);
      HasCons(r, Take(tail, n), block);
      if r.block == block {
        AbsentUnchanged(tail, block);
        AbsentUnchanged(Take(tail, n), block);
        assert [] + tail == tail && [] + Take(tail, n) == Take(tail, n);
      } else if n > 0 {
        TakeWithout(tail, block, n - 1);
        TakeCons(rs, n);
        var w := [r] + Without(tail, block);
        TakeCons(w, n);
        assert w[1..] == Without(tail, block);
      } else {
        TakeNone(tail, block);
        TakeNone(rs, block);
        TakeNone(Without(rs, block), block);
      }
    }
  }

  lemma {:induction false} EmptyTake(block: BlockHash, n: nat)
    ensures Without([], block) == [] && Take([], n) == [] && Take([], n + 1) == [] && !Has([], block)
  {
  }

  lemma {:induction false} TakeNone(rs: seq<Record>, block: BlockHash)
    ensures Take(rs, 0) == [] && Without([], block) == [] && !Has([], block)
  {
  }

  lemma {:induction false} PutKeeps(history: seq<Record>, r: Record, capacity: nat)
    requires capacity >= 1
    ensures PutFront(Take(Recent(history), capacity), r, capacity) == Take(Recent(history + [r]), capacity)
  {
    hide Without, Has, Take, Recent;
    var rs := Recent(history);
    RecentDistinct(history);
    RecentStep(history, r);
    TakeWithout(rs, r.block, capacity - 1);
    TakeCons(Recent(history + [r]), capacity);
    assert Recent(history + [r])[1..] == Without(rs, r.block);
    TakeTwice(rs, capacity);
  }

  lemma {:induction false} TakeTwice(rs: seq<Record>, n: nat)
    requires n >= 1
    ensures Take(Take(rs, n), n - 1) == Take(rs, n - 1) && |Take(rs, n)| <= n
  {
  }

  class MovementLog {
    var entries: seq<Record>
    const capacity: nat
    ghost var history: seq<Record>

    /** The log holds the most recently recorded blocks, as many as fit. */
    ghost predicate Valid()
      reads this
    {
      capacity >= 1 && entries == Take(Recent(history), capacity)
    }

    constructor (capacity: nat)
      ensures Valid() && history == [] && this.capacity == (if capacity >= 1 then capacity else 1)
    {
      this.capacity := if capacity >= 1 then capacity else 1;
      entries, history := [], [];
    }

    /** `record`: the cache moves a known block to the front, and drops the oldest to make room for a new one. */
    method Put(block: BlockHash, largest: nat)
      requires Valid()
      modifies this
      ensures Valid() && history == old(history) + [Record(block, largest)]
    {
      hide Without, Recent;
      var r := Record(block, largest);
      PutKeeps(history, r, capacity);
      if Has(entries, block) {
        entries := [r] + Without(entries, block);
      } else {
        if |entries| == capacity {
          entries := entries[..capacity - 1];
        }
        entries := [r] + entries;
      }
      history := history + [r];
    }

    /** `largest_movement`: a look that does not refresh. */
    method LargestMovement(block: BlockHash) returns (r: Option<nat>)
      requires Valid()
      ensures r == Peek(entries, block)
    {
      var i := 0;
      while i < |entries|
        invariant 0 <= i <= |entries| && Peek(entries, block) == Peek(entries[i..], block)
      {
        if entries[i].block == block {
          return Some(entries[i].largest);
        }
        assert entries[i..][1..] == entries[i + 1..];
        i := i + 1;
      }
      return None;
    }
  }

  lemma {:induction false} RecentStep(history: seq<Record>, r: Record)
    ensures Recent(history + [r]) == [r] + Without(Recent(history), r.block)
  {
    assert (history + [r])[..|history|] == history;
  }

  // ----- what a decision to skip rests on

  /** What was last recorded of a block, if anything ever was. */
  function Latest(history: seq<Record>, block: BlockHash): (r: Option<nat>) {
    if history == [] then None
    else
      var last := history[|history| - 1];
      if last.block == block then Some(last.largest) else Latest(history[..|history| - 1], block)
  }

  lemma {:induction false} PeekMember(rs: seq<Record>, block: BlockHash, v: nat)
    requires Distinct(rs)
    ensures Peek(rs, block) == Some(v) <==> Record(block, v) in rs
    ensures Peek(rs, block).None? <==> !Has(rs, block)
  {
    if rs != [] {
      HeadDistinct(rs, 0);
      PeekMember(rs[1..], block, v);
      assert rs == [rs[0]] + rs[1..];
      HasCons(rs[0], rs[1..], block);
    }
  }

  lemma {:induction false} RecentIsLatest(history: seq<Record>, block: BlockHash, v: nat)
    ensures Record(block, v) in Recent(history) <==> Latest(history, block) == Some(v)
  {
    if history != [] {
      var n := |history| - 1;
      RecentIsLatest(history[..n], block, v);
      WithoutMember(Recent(history[..n]), history[n].block, Record(block, v));
    }
  }

  /**
   A block is skipped exactly when the log still holds it and what was last recorded of it is within the filter. One
   never recorded, or since forgotten, is never taken for a block in which nothing moved.
   */
  lemma {:induction false} SkipIff(history: seq<Record>, capacity: nat, block: BlockHash, filter: nat)
    requires capacity >= 1
    ensures var entries := Take(Recent(history), capacity);
            && (Decide(Peek(entries, block), filter) == Skip <==>
                Has(entries, block) && Latest(history, block).Some? && Latest(history, block).value <= filter)
            && (Decide(Peek(entries, block), filter) == Moved <==>
                Has(entries, block) && Latest(history, block).Some? && Latest(history, block).value > filter)
            && (!Has(entries, block) ==> Decide(Peek(entries, block), filter) == NotRecorded)
            && (Latest(history, block).None? ==> Decide(Peek(entries, block), filter) == NotRecorded)
  {
    hide Recent, Latest, Peek, Has;
    var rs := Recent(history);
    var entries := Take(rs, capacity);
    RecentDistinct(history);
    assert Distinct(entries);
    var found := Peek(entries, block);
    PeekMember(entries, block, if found.Some? then found.value else 0);
    if found.Some? {
      assert Record(block, found.value) in rs;
      RecentIsLatest(history, block, found.value);
    }
  }

  // ----- net figures

  /** An account's balance change over the transfers. */
  function Net(a: Address, ts: seq<Transfer>): (n: int) {
    if ts == [] then 0
    else (if ts[0].to == a then ts[0].value else 0) - (if ts[0].from == a then ts[0].value else 0) + Net(a, ts[1..])
  }

  /** What flows into a set of accounts, less what flows out. */
  ghost function NetOf(us: set<Address>, ts: seq<Transfer>): (n: int) {
    if ts == [] then 0
    else
      (if ts[0].to in us then ts[0].value else 0) - (if ts[0].from in us then ts[0].value else 0) + NetOf(us, ts[1..])
  }

  lemma {:induction false} NetOfSplit(us: set<Address>, a: Address, ts: seq<Transfer>)
    requires a in us
    ensures NetOf(us, ts) == NetOf(us - {a}, ts) + Net(a, ts)
  {
    if ts != [] {
      NetOfSplit(us, a, ts[1..]);
    }
  }

  lemma {:induction false} NetOfNone(ts: seq<Transfer>)
    ensures NetOf({}, ts) == 0
  {
    if ts != [] {
      NetOfNone(ts[1..]);
    }
  }

  function Abs(n: int): (a: nat) {
    if n >= 0 then n else -n
  }

  /** The net of a set is the sum of its members' nets, so at most the filter for each of them. */
  lemma {:induction false} NetOfBounded(us: set<Address>, ts: seq<Transfer>, filter: nat)
    requires forall a :: a in us ==> Abs(Net(a, ts)) <= filter
    ensures Abs(NetOf(us, ts)) <= filter * |us|
    decreases us
  {
    hide Net, NetOf;
    if us == {} {
      NetOfNone(ts);
    } else {
      var a :| a in us;
      NetOfBounded(us - {a}, ts, filter);
      NetOfSplit(us, a, ts);
      assert |us| == |us - {a}| + 1;
      OneMore(filter, |us - {a}|);
    }
  }

  lemma {:induction false} OneMore(filter: nat, n: nat)
    ensures filter * (n + 1) == filter * n + filter
  {
  }

  /** The accounts' nets added up, one account after the other. */
  ghost function NetSum(us: set<Address>, ts: seq<Transfer>): (n: int) {
    if us == {} then 0
    else
      var a :| a in us;
      Net(a, ts) + NetSum(us - {a}, ts)
  }

  /** However they are added up, the nets of a set's accounts make its flow. */
  lemma {:induction false} NetSumIsFlow(us: set<Address>, ts: seq<Transfer>)
    ensures NetSum(us, ts) == NetOf(us, ts)
    decreases us
  {
    hide Net, NetOf;
    if us == {} {
      NetOfNone(ts);
    } else {
      var a :| a in us && NetSum(us, ts) == Net(a, ts) + NetSum(us - {a}, ts);
      NetSumIsFlow(us - {a}, ts);
      NetOfSplit(us, a, ts);
    }
  }

  lemma {:induction false} FlowCancels(us: set<Address>, ts: seq<Transfer>)
    requires forall i :: 0 <= i < |ts| ==> ts[i].from in us && ts[i].to in us
    ensures NetOf(us, ts) == 0
  {
    if ts != [] {
      FlowCancels(us, ts[1..]);
    }
  }

  /** Nets conserve: over the accounts of any transfer list they sum to zero, and nobody else has one. */
  lemma {:induction false} NetsCancel(ts: seq<Transfer>, a: Address)
    ensures NetSum(Accounts(ts), ts) == 0
    ensures a !in Accounts(ts) ==> Net(a, ts) == 0
  {
    hide NetSum, NetOf;
    FlowCancels(Accounts(ts), ts);
    NetSumIsFlow(Accounts(ts), ts);
    Bystander(ts, a);
  }

  lemma {:induction false} Bystander(ts: seq<Transfer>, a: Address)
    ensures a !in Accounts(ts) ==> Net(a, ts) == 0
  {
    if ts != [] && a !in Accounts(ts) {
      var rest := ts[1..];
      assert ts[0].from in Accounts(ts) && ts[0].to in Accounts(ts);
      assert forall i :: 0 <= i < |rest| ==> rest[i] == ts[i + 1];
      assert a !in Accounts(rest);
      Bystander(rest, a);
    }
  }

  // ----- upstream accounts

  function Accounts(ts: seq<Transfer>): (us: set<Address>) {
    (set i | 0 <= i < |ts| :: ts[i].from) + (set i | 0 <= i < |ts| :: ts[i].to)
  }

  predicate Edge(ts: seq<Transfer>, a: Address, b: Address) {
    exists i :: 0 <= i < |ts| && ts[i].from == a && ts[i].to == b
  }

  /** A chain of accounts, each paying the next. */
  ghost predicate Chain(ts: seq<Transfer>, p: seq<Address>) {
    p != [] && forall i :: 0 <= i < |p| - 1 ==> Edge(ts, p[i], p[i + 1])
  }

  ghost predicate Reaches(ts: seq<Transfer>, a: Address, b: Address) {
    exists p :: Chain(ts, p) && p[0] == a && p[|p| - 1] == b
  }

  ghost predicate Acyclic(ts: seq<Transfer>) {
    forall i :: 0 <= i < |ts| ==> !Reaches(ts, ts[i].to, ts[i].from)
  }

  /** The accounts from which value can have come to `a`, itself included. */
  ghost function Upstream(ts: seq<Transfer>, a: Address): (us: set<Address>) {
    set u | u in Accounts(ts) && Reaches(ts, u, a)
  }

  lemma {:induction false} ReachesSelf(ts: seq<Transfer>, a: Address)
    ensures Reaches(ts, a, a)
  {
    assert Chain(ts, [a]);
  }

  lemma {:induction false} ReachesBack(ts: seq<Transfer>, i: nat, a: Address)
    requires i < |ts| && Reaches(ts, ts[i].to, a)
    ensures Reaches(ts, ts[i].from, a)
  {
    var p :| Chain(ts, p) && p[0] == ts[i].to && p[|p| - 1] == a;
    var q := [ts[i].from] + p;
    forall k | 0 <= k < |q| - 1 ensures Edge(ts, q[k], q[k + 1]) {
      if k > 0 {
        assert Edge(ts, p[k - 1], p[k]);
      }
    }
    assert Chain(ts, q) && q[0] == ts[i].from && q[|q| - 1] == a;
  }

  /** Value only ever enters a closed set from inside it, so its net is at most minus any payment out of it. */
  lemma {:induction false} OutflowOnly(us: set<Address>, ts: seq<Transfer>, k: nat)
    requires forall i :: 0 <= i < |ts| && ts[i].to in us ==> ts[i].from in us
    requires k < |ts| ==> ts[k].from in us && ts[k].to !in us
    ensures NetOf(us, ts) + (if k < |ts| then ts[k].value else 0) <= 0
  {
    if ts != [] {
      OutflowOnly(us, ts[1..], if k > 0 then k - 1 else |ts|);
    }
  }

  /** Nothing that transfer k paid can have come back to its sender. */
  ghost predicate OffCycle(ts: seq<Transfer>, k: nat)
    requires k < |ts|
  {
    !Reaches(ts, ts[k].to, ts[k].from)
  }

  /** Every account nets within the filter. */
  ghost predicate WithinFilter(ts: seq<Transfer>, filter: nat) {
    forall a :: a in Accounts(ts) ==> Abs(Net(a, ts)) <= filter
  }

  /**
   What skipping a block guarantees: in a block in which every account nets within the filter, a transfer on no cycle is
   at most the filter times the number of accounts upstream of its sender, whatever the rest of the block does.
   */
  lemma {:induction false} FilterGuarantee(ts: seq<Transfer>, filter: nat, k: nat)
    requires k < |ts| && OffCycle(ts, k) && WithinFilter(ts, filter)
    ensures ts[k].value <= filter * |Upstream(ts, ts[k].from)|
  {
    hide Reaches, Net, NetOf;
    var s := ts[k].from;
    var us := Upstream(ts, s);
    ReachesSelf(ts, s);
    forall i | 0 <= i < |ts| && ts[i].to in us ensures ts[i].from in us {
      ReachesBack(ts, i, s);
    }
    OutflowOnly(us, ts, k);
    NetOfBounded(us, ts, filter);
  }

  /** The largest movement of a block, as execution records it. */
  ghost predicate IsLargest(m: nat, ts: seq<Transfer>) {
    && WithinFilter(ts, m)
    && (m == 0 || exists a :: a in Accounts(ts) && Abs(Net(a, ts)) == m)
  }

  /** A transfer of a skipped block that is on no cycle is within the bound. */
  lemma {:induction false} SkippedBlockIsQuiet(ts: seq<Transfer>, largest: nat, filter: nat, k: nat)
    requires k < |ts| && OffCycle(ts, k) && IsLargest(largest, ts) && Decide(Some(largest), filter) == Skip
    ensures ts[k].value <= filter * |Upstream(ts, ts[k].from)|
  {
    hide Net;
    FilterGuarantee(ts, filter, k);
  }

  // ----- only a cycle escapes the bound

  /** The same payments between the same accounts, for other amounts. */
  ghost predicate SameParties(ts: seq<Transfer>, us: seq<Transfer>) {
    |us| == |ts| && forall i :: 0 <= i < |ts| ==> us[i].from == ts[i].from && us[i].to == ts[i].to
  }

  function Emptied(ts: seq<Transfer>): (us: seq<Transfer>)
    ensures |us| == |ts|
    ensures forall i :: 0 <= i < |ts| ==> us[i] == ts[i].(value := 0)
  {
    if ts == [] then [] else [ts[0].(value := 0)] + Emptied(ts[1..])
  }

  lemma {:induction false} EmptiedNet(a: Address, ts: seq<Transfer>)
    ensures Net(a, Emptied(ts)) == 0
  {
    if ts != [] {
      EmptiedNet(a, ts[1..]);
      assert Emptied(ts)[1..] == Emptied(ts[1..]);
    }
  }

  function Raised(us: seq<Transfer>, i: nat, v: nat): (r: seq<Transfer>)
    requires i < |us|
  {
    us[i := us[i].(value := us[i].value + v)]
  }

  /** `v` at `to` and missing at `from`. */
  function Shift(a: Address, from: Address, to: Address, v: nat): (n: int) {
    (if a == to then v else 0) - (if a == from then v else 0)
  }

  lemma {:induction false} RaisedNet(a: Address, us: seq<Transfer>, i: nat, v: nat)
    requires i < |us|
    ensures Net(a, Raised(us, i, v)) == Net(a, us) + Shift(a, us[i].from, us[i].to, v)
  {
    var r := Raised(us, i, v);
    if i == 0 {
      assert r[1..] == us[1..];
    } else {
      RaisedNet(a, us[1..], i - 1, v);
      assert r[1..] == Raised(us[1..], i - 1, v);
    }
  }

  /** `v` carried along a chain: it is taken from the first account and reaches the last, and no payment shrinks. */
  lemma {:induction false} Carried(ts: seq<Transfer>, us: seq<Transfer>, p: seq<Address>, v: nat)
    returns (r: seq<Transfer>)
    requires SameParties(ts, us) && Chain(ts, p)
    ensures SameParties(ts, r) && forall i :: 0 <= i < |us| ==> r[i].value >= us[i].value
    ensures forall a :: Net(a, r) == Net(a, us) + Shift(a, p[0], p[|p| - 1], v)
    decreases |p|
  {
    hide Net;
    var n := |p| - 1;
    if n == 0 {
      r := us;
    } else {
      assert Edge(ts, p[n - 1], p[n]);
      var i :| 0 <= i < |ts| && ts[i].from == p[n - 1] && ts[i].to == p[n];
      assert Chain(ts, p[..n]);
      var q := Carried(ts, us, p[..n], v);
      r := Raised(q, i, v);
      forall a ensures Net(a, r) == Net(a, us) + Shift(a, p[0], p[n], v) {
        RaisedNet(a, q, i, v);
        assert p[..n][0] == p[0] && p[..n][n - 1] == p[n - 1];
      }
    }
  }

  /** Any amount can be carried round a cycle without moving any balance. */
  lemma {:induction false} RoundTheCycle(ts: seq<Transfer>, k: nat, v: nat) returns (us: seq<Transfer>)
    requires k < |ts| && !OffCycle(ts, k)
    ensures SameParties(ts, us) && us[k].value >= v && forall a :: Net(a, us) == 0
  {
    hide Net;
    var p :| Chain(ts, p) && p[0] == ts[k].to && p[|p| - 1] == ts[k].from;
    var empty := Emptied(ts);
    var there := Carried(ts, empty, p, v);
    us := Raised(there, k, v);
    forall a ensures Net(a, us) == 0 {
      EmptiedNet(a, ts);
      RaisedNet(a, there, k, v);
    }
  }

  /** Within the filter, transfer k of these payments is never above the bound, whatever the amounts. */
  ghost predicate Bounded(ts: seq<Transfer>, filter: nat, k: nat)
    requires k < |ts|
  {
    forall us: seq<Transfer> :: SameParties(ts, us) && WithinFilter(us, filter) ==>
      us[k].value <= filter * |Upstream(ts, ts[k].from)|
  }

  lemma {:induction false} SameUpstream(ts: seq<Transfer>, us: seq<Transfer>, a: Address, b: Address)
    requires SameParties(ts, us)
    ensures Reaches(ts, a, b) <==> Reaches(us, a, b)
    ensures Accounts(ts) == Accounts(us)
  {
    forall x, y ensures Edge(ts, x, y) <==> Edge(us, x, y) {
      if Edge(ts, x, y) {
        var i :| 0 <= i < |ts| && ts[i].from == x && ts[i].to == y;
        assert us[i].from == x && us[i].to == y;
      }
      if Edge(us, x, y) {
        var i :| 0 <= i < |us| && us[i].from == x && us[i].to == y;
        assert ts[i].from == x && ts[i].to == y;
      }
    }
    forall p ensures Chain(ts, p) <==> Chain(us, p) {
    }
    assert (set i | 0 <= i < |ts| :: ts[i].from) == (set i | 0 <= i < |us| :: us[i].from);
    assert (set i | 0 <= i < |ts| :: ts[i].to) == (set i | 0 <= i < |us| :: us[i].to);
  }

  /**
   The guarantee is exact in the shape of the block: the filter bounds a transfer, whatever the amounts, if and only if
   the transfer is on no cycle.
   */
  lemma {:induction false} BoundedIff(ts: seq<Transfer>, filter: nat, k: nat)
    requires k < |ts|
    ensures Bounded(ts, filter, k) <==> OffCycle(ts, k)
  {
    hide Reaches, Net, Accounts;
    if OffCycle(ts, k) {
      forall us: seq<Transfer> | SameParties(ts, us) && WithinFilter(us, filter)
        ensures us[k].value <= filter * |Upstream(ts, ts[k].from)|
      {
        forall a ensures Reaches(ts, a, ts[k].from) <==> Reaches(us, a, ts[k].from) {
          SameUpstream(ts, us, a, ts[k].from);
        }
        SameUpstream(ts, us, ts[k].to, ts[k].from);
        assert Upstream(us, us[k].from) == Upstream(ts, ts[k].from);
        FilterGuarantee(us, filter, k);
      }
    } else {
      var us := RoundTheCycle(ts, k, filter * |Upstream(ts, ts[k].from)| + 1);
    }
  }

  /** Cycles are what the filter gives up: a loan repaid within the block is skipped at every filter. */
  lemma {:induction false} CycleEscapes(a: Address, b: Address, amount: nat, filter: nat)
    requires a != b
    ensures var ts := [Transfer(a, b, amount, Call, "0"), Transfer(b, a, amount, Call, "1")];
            !Acyclic(ts) && IsLargest(0, ts) && Decide(Some(0), filter) == Skip
  {
    var ts := [Transfer(a, b, amount, Call, "0"), Transfer(b, a, amount, Call, "1")];
    assert ts[1..] == [ts[1]] && ts[1..][1..] == [];
    assert forall x :: Net(x, ts[1..]) == (if a == x then amount else 0) - (if b == x then amount else 0) + Net(x, []);
    assert forall x :: Net(x, ts) == 0;
    assert Edge(ts, b, a) by { assert ts[1].from == b && ts[1].to == a; }
    assert Chain(ts, [b, a]);
    assert Reaches(ts, ts[0].to, ts[0].from);
  }

  lemma {:induction false} ChainClimbs(ts: seq<Transfer>, p: seq<Address>)
    requires Chain(ts, p) && forall i :: 0 <= i < |ts| ==> ts[i].from < ts[i].to
    ensures p[0] <= p[|p| - 1]
  {
    var n := |p| - 1;
    if n > 0 {
      assert Edge(ts, p[n - 1], p[n]);
      assert Chain(ts, p[..n]);
      ChainClimbs(ts, p[..n]);
    }
  }

  /** Payments that only ever go to a later account cannot come back. */
  lemma {:induction false} AscendingAcyclic(ts: seq<Transfer>)
    requires forall i :: 0 <= i < |ts| ==> ts[i].from < ts[i].to
    ensures Acyclic(ts)
  {
    hide Chain;
    forall i | 0 <= i < |ts| ensures !Reaches(ts, ts[i].to, ts[i].from) {
      forall p | Chain(ts, p) ensures p != [] && p[0] <= p[|p| - 1] {
        assert p != [] by { ChainNonempty(ts, p); }
        ChainClimbs(ts, p);
      }
    }
  }

  lemma {:induction false} ChainNonempty(ts: seq<Transfer>, p: seq<Address>)
    requires Chain(ts, p)
    ensures p != []
  {
  }

  // ----- the bound is attained

  /** Accounts 0 to m-1 each pay the hub. */
  function Payers(m: nat, hub: Address, filter: nat): (ts: seq<Transfer>)
    ensures |ts| == m
    ensures forall i :: 0 <= i < m ==> ts[i] == Transfer(i, hub, filter, Call, "")
  {
    if m == 0 then [] else Payers(m - 1, hub, filter) + [Transfer(m - 1, hub, filter, Call, "")]
  }

  /** The receiver pays m accounts from `first` on. */
  function Shares(m: nat, receiver: Address, first: Address, filter: nat): (ts: seq<Transfer>)
    ensures |ts| == m
    ensures forall i :: 0 <= i < m ==> ts[i] == Transfer(receiver, first + i, filter, Call, "")
  {
    if m == 0 then []
    else Shares(m - 1, receiver, first, filter) + [Transfer(receiver, first + m - 1, filter, Call, "")]
  }

  /** Gathered from n-1 accounts, passed on as one payment together with the hub's own share, and shared out again. */
  function Gathered(n: nat, filter: nat): (ts: seq<Transfer>)
    requires n >= 1
  {
    Payers(n - 1, n - 1, filter) + [Transfer(n - 1, n, filter * n, Call, "")] + Shares(n - 1, n, n + 1, filter)
  }

  lemma {:induction false} NetConcat(a: Address, xs: seq<Transfer>, ys: seq<Transfer>)
    ensures Net(a, xs + ys) == Net(a, xs) + Net(a, ys)
  {
    if xs == [] {
      assert xs + ys == ys;
    } else {
      NetConcat(a, xs[1..], ys);
      assert (xs + ys)[1..] == xs[1..] + ys;
    }
  }

  lemma {:induction false} NetOne(a: Address, t: Transfer)
    ensures Net(a, [t]) == (if t.to == a then t.value else 0) - (if t.from == a then t.value else 0)
  {
    assert [t][1..] == [];
  }

  lemma {:induction false} PayersNet(a: Address, m: nat, hub: Address, filter: nat)
    requires m <= hub
    ensures Net(a, Payers(m, hub, filter)) == if a == hub then filter * m else if a < m then 0 - filter as int else 0
  {
    hide Net;
    if m == 0 {
      NetNone(a);
    } else {
      var t := Transfer(m - 1, hub, filter, Call, "");
      PayersNet(a, m - 1, hub, filter);
      NetConcat(a, Payers(m - 1, hub, filter), [t]);
      NetOne(a, t);
      OneMore(filter, m - 1);
    }
  }

  lemma {:induction false} SharesNet(a: Address, m: nat, receiver: Address, first: Address, filter: nat)
    requires receiver < first
    ensures Net(a, Shares(m, receiver, first, filter)) ==
            if a == receiver then 0 - filter * m else if first <= a < first + m then filter else 0
  {
    hide Net;
    if m == 0 {
      NetNone(a);
    } else {
      var t := Transfer(receiver, first + m - 1, filter, Call, "");
      SharesNet(a, m - 1, receiver, first, filter);
      NetConcat(a, Shares(m - 1, receiver, first, filter), [t]);
      NetOne(a, t);
      OneMore(filter, m - 1);
    }
  }

  lemma {:induction false} NetNone(a: Address)
    ensures Net(a, []) == 0
  {
  }

  /** Everyone gives or takes one filter, and no more. */
  lemma {:induction false} GatheredNet(a: Address, n: nat, filter: nat)
    requires n >= 1
    ensures Net(a, Gathered(n, filter)) == if a < n then 0 - filter as int else if a < 2 * n then filter else 0
  {
    hide Net, Payers, Shares;
    var t := Transfer(n - 1, n, filter * n, Call, "");
    var xs, ys := Payers(n - 1, n - 1, filter), Shares(n - 1, n, n + 1, filter);
    PayersNet(a, n - 1, n - 1, filter);
    SharesNet(a, n - 1, n, n + 1, filter);
    NetOne(a, t);
    NetConcat(a, xs, [t]);
    NetConcat(a, xs + [t], ys);
    OneMore(filter, n - 1);
  }

  lemma {:induction false} GatheredClimbs(n: nat, filter: nat)
    requires n >= 1
    ensures var ts := Gathered(n, filter);
            && |ts| == 2 * n - 1 && ts[n - 1] == Transfer(n - 1, n, filter * n, Call, "")
            && (forall i :: 0 <= i < |ts| ==> ts[i].from < ts[i].to)
            && (forall i :: 0 <= i < n - 1 ==> ts[i].from == i && ts[i].to == n - 1)
  {
    hide Payers, Shares;
  }

  function FirstAccounts(n: nat): (us: set<Address>)
    ensures |us| == n
    ensures forall u: Address :: u in us <==> u < n
  {
    if n == 0 then {} else FirstAccounts(n - 1) + {n - 1}
  }

  /** The accounts upstream of the hub are its payers and itself. */
  lemma {:induction false} GatheredUpstream(n: nat, filter: nat)
    requires n >= 1
    ensures Upstream(Gathered(n, filter), n - 1) == FirstAccounts(n)
  {
    hide Gathered, Chain;
    var ts := Gathered(n, filter);
    GatheredClimbs(n, filter);
    ReachesSelf(ts, n - 1);
    forall u: Address ensures u in Upstream(ts, n - 1) <==> u in FirstAccounts(n) {
      if u < n - 1 {
        assert ts[u].from == u && ts[u].to == n - 1;
        ReachesBack(ts, u, n - 1);
      } else if u == n - 1 {
        assert ts[n - 1].from == u;
      } else if Reaches(ts, u, n - 1) {
        ReachesClimbs(ts, u, n - 1);
      }
    }
  }

  lemma {:induction false} ReachesClimbs(ts: seq<Transfer>, a: Address, b: Address)
    requires Reaches(ts, a, b) && forall i :: 0 <= i < |ts| ==> ts[i].from < ts[i].to
    ensures a <= b
  {
    var p :| Chain(ts, p) && p[0] == a && p[|p| - 1] == b;
    ChainClimbs(ts, p);
  }

  /**
   No better bound can be had, with or without a cycle: for every number of upstream accounts and every filter there is
   a block without cycles, skipped at that filter, with a transfer of exactly the filter times that number.
   */
  lemma {:induction false} BoundIsAttained(n: nat, filter: nat)
    requires n >= 1
    ensures var ts := Gathered(n, filter);
            && Acyclic(ts) && IsLargest(filter, ts) && Decide(Some(filter), filter) == Skip
            && n - 1 < |ts| && |Upstream(ts, ts[n - 1].from)| == n && ts[n - 1].value == filter * n
  {
    hide Gathered, Net, Acyclic, Upstream;
    var ts := Gathered(n, filter);
    GatheredClimbs(n, filter);
    AscendingAcyclic(ts);
    GatheredUpstream(n, filter);
    forall a ensures Abs(Net(a, ts)) <= filter {
      GatheredNet(a, n, filter);
    }
    GatheredNet(n - 1, n, filter);
    assert ts[n - 1].from in Accounts(ts);
  }

  /** Transfer k of a skipped block, on no cycle, its sender with n accounts upstream. */
  ghost predicate Passes(ts: seq<Transfer>, largest: nat, filter: nat, k: nat, n: nat) {
    && k < |ts| && OffCycle(ts, k) && |Upstream(ts, ts[k].from)| == n
    && IsLargest(largest, ts) && filter > 0 && Decide(Some(largest), filter) == Skip
  }

  /**
   When a skipped block hides no transfer above the filter that is on no cycle: exactly for senders to whom nothing was
   paid. With a second account upstream, payments gathered and shared out again hide one of twice the filter.
   */
  lemma {:induction false} HidesNothingIff(n: nat)
    ensures n <= 1 <==>
            forall ts: seq<Transfer>, largest: nat, filter: nat, k: nat :: Passes(ts, largest, filter, k, n) ==>
              ts[k].value <= filter
  {
    hide IsLargest, Upstream, Gathered, Reaches;
    if n <= 1 {
      forall ts: seq<Transfer>, largest: nat, filter: nat, k: nat | Passes(ts, largest, filter, k, n)
        ensures ts[k].value <= filter
      {
        SkippedBlockIsQuiet(ts, largest, filter, k);
        assert filter * n <= filter;
      }
    } else {
      BoundIsAttained(n, 1);
      assert Passes(Gathered(n, 1), 1, 1, n - 1, n);
    }
  }
}
