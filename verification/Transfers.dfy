/** Value movements read out of a call tree (crates/alerts/src/value.rs). */
module Transfers {
  import opened Options
  import opened Strings

  type Address = nat

  datatype SubtraceKind = CallFrame | CreateFrame | SuicideFrame

  datatype CallKind = PlainCall | CallCode | DelegateCall | StaticCall

  datatype Subtrace = Subtrace(kind: SubtraceKind, callKind: Option<CallKind>, caller: Address, owner: Address,
                               value: nat, created: Option<Address>, error: Option<string>, reverted: bool,
                               subs: seq<Subtrace>)

  datatype TransferKind = Transaction | Call | Create | SelfDestruct

  datatype Transfer = Transfer(from: Address, to: Address, value: nat, kind: TransferKind, path: string)

  /** `moved`: the two addresses a frame moved value between. */
  function Moved(s: Subtrace): (r: Option<(Address, Address)>) {
    if s.value == 0 then None
    else
      match s.kind
      case CallFrame => if s.callKind == Some(PlainCall) then Some((s.caller, s.owner)) else None
      case CreateFrame => Some((s.caller, if s.created.Some? then s.created.value else s.owner))
      case SuicideFrame => Some((s.caller, s.owner))
  }

  predicate Undone(s: Subtrace) {
    s.reverted || s.error.Some?
  }

  function KindOf(s: Subtrace): (k: TransferKind) {
    match s.kind
    case CallFrame => Call
    case CreateFrame => Create
    case SuicideFrame => SelfDestruct
  }

  /** The transfer a frame makes on its own account, at a given path. */
  function Own(s: Subtrace, path: string): (ts: seq<Transfer>) {
    var m := Moved(s);
    if m.Some? && m.value.0 != m.value.1 then [Transfer(m.value.0, m.value.1, s.value, KindOf(s), path)] else []
  }

  function Extend(prefix: string, i: nat): (path: string) {
    if prefix == "" then Decimal(i) else prefix + "." + Decimal(i)
  }

  // ----- the walk

  /** The transfers of sibling frames, the first of them at index `first`. */
  function Walked(subs: seq<Subtrace>, first: nat, prefix: string): (ts: seq<Transfer>)
    decreases subs
  {
    if subs == [] then [] else WalkedFrame(subs[0], Extend(prefix, first)) + Walked(subs[1..], first + 1, prefix)
  }

  function WalkedFrame(s: Subtrace, path: string): (ts: seq<Transfer>)
    decreases s
  {
    if Undone(s) then [] else Own(s, path) + Walked(s.subs, 0, path)
  }

  /** `walk`. */
  method Walk(subs: seq<Subtrace>, prefix: string, out: seq<Transfer>) returns (all: seq<Transfer>)
    ensures all == out + Walked(subs, 0, prefix)
    decreases subs
  {
    hide WalkedFrame, Extend;
    all := out;
    assert subs[0..] == subs;
    for i := 0 to |subs|
      invariant all + Walked(subs[i..], i, prefix) == out + Walked(subs, 0, prefix)
    {
      assert subs[i..][0] == subs[i] && subs[i..][1..] == subs[i + 1..];
      ghost var before, frame, rest := all, WalkedFrame(subs[i], Extend(prefix, i)),
          Walked(subs[i + 1..], i + 1, prefix);
      all := WalkFrame(subs[i], Extend(prefix, i), all);
      assert before + (frame + rest) == all + rest;
    }
  }

  method WalkFrame(sub: Subtrace, path: string, out: seq<Transfer>) returns (all: seq<Transfer>)
    ensures all == out + WalkedFrame(sub, path)
    decreases sub
  {
    hide Walked;
    all := out;
    if sub.reverted || sub.error.Some? {
      return;
    }
    var m := Moved(sub);
    if m.Some? {
      var (from, to) := m.value;
      if from != to {
        all := all + [Transfer(from, to, sub.value, KindOf(sub), path)];
      }
    }
    assert all == out + Own(sub, path);
    all := Walk(sub.subs, path, all);
    assert all == out + (Own(sub, path) + Walked(sub.subs, 0, path));
  }

  /** `transfers_in_transaction`. */
  method TransfersInTransaction(sender: Address, destination: Address, value: nat, success: bool,
                                trace: seq<Subtrace>) returns (ts: seq<Transfer>)
    ensures ts == AllTransfers(sender, destination, value, success, trace)
  {
    if !success {
      return [];
    }
    ts := [];
    if value != 0 && sender != destination {
      ts := [Transfer(sender, destination, value, Transaction, "")];
    }
    ts := Walk(trace, "", ts);
  }

  function AllTransfers(sender: Address, destination: Address, value: nat, success: bool,
                        trace: seq<Subtrace>): (ts: seq<Transfer>) {
    if !success then []
    else
      var moves := value != 0 && sender != destination;
      (if moves then [Transfer(sender, destination, value, Transaction, "")] else []) + Walked(trace, 0, "")
  }

  // ----- positions in the call tree, independently of the walk

  /** A frame's position: the index taken at each level from the top. */
  type Position = seq<nat>

  ghost predicate InTree(subs: seq<Subtrace>, pos: Position)
    decreases |pos|
  {
    pos != [] && pos[0] < |subs| && (|pos| > 1 ==> InTree(subs[pos[0]].subs, pos[1..]))
  }

  function FrameAt(subs: seq<Subtrace>, pos: Position): (s: Subtrace)
    requires InTree(subs, pos)
    decreases |pos|
  {
    if |pos| == 1 then subs[pos[0]] else FrameAt(subs[pos[0]].subs, pos[1..])
  }

  /** Neither the frame nor any frame above it was undone. */
  predicate Stands(subs: seq<Subtrace>, pos: Position)
    requires InTree(subs, pos)
    decreases |pos|
  {
    && !subs[pos[0]].reverted && subs[pos[0]].error.None?
    && (|pos| > 1 ==> Stands(subs[pos[0]].subs, pos[1..]))
  }

  /** The dotted decimal path of a position below `prefix`. */
  function Dotted(prefix: string, pos: Position): (path: string)
    decreases |pos|
  {
    if pos == [] then prefix else Dotted(Extend(prefix, pos[0]), pos[1..])
  }

  /**
   The transfer is the one this frame made: a positive value, from its caller to someone else. A call must be a plain
   one, to the owner; a creation pays the created address, or the owner where none is given; a self-destruct pays the
   owner.
   */
  predicate Makes(s: Subtrace, t: Transfer) {
    && t.value == s.value && s.value > 0 && t.from == s.caller && t.from != t.to
    && match t.kind
       case Call => s.kind == CallFrame && s.callKind == Some(PlainCall) && t.to == s.owner
       case Create => s.kind == CreateFrame && (s.created == Some(t.to) || (s.created == None && t.to == s.owner))
       case SelfDestruct => s.kind == SuicideFrame && t.to == s.owner
       case Transaction => false
  }

  /** The frame at this position stands, and this is the transfer it made. */
  ghost predicate MadeAt(subs: seq<Subtrace>, pos: Position, t: Transfer) {
    InTree(subs, pos) && Stands(subs, pos) && Makes(FrameAt(subs, pos), t) && t.path == Dotted("", pos)
  }

  lemma {:induction false} OwnMakes(s: Subtrace, path: string)
    ensures |Own(s, path)| <= 1 && |Own(s, path)| == |Own(s, "")|
    ensures forall t :: t in Own(s, path) <==> Makes(s, t) && t.path == path
  {
    forall t | Makes(s, t) && t.path == path ensures t in Own(s, path) {
      assert Own(s, path) == [t];
    }
  }

  /** Pre-order: a frame before the frames it opened, and earlier siblings first. */
  predicate Precedes(a: Position, b: Position) {
    if b == [] then false
    else if a == [] then true
    else if a[0] == b[0] then Precedes(a[1..], b[1..])
    else a[0] < b[0]
  }

  lemma {:induction false} PrecedesIrreflexive(a: Position, b: Position)
    requires Precedes(a, b)
    ensures a != b
  {
    if a != [] && a[0] == b[0] {
      PrecedesIrreflexive(a[1..], b[1..]);
      assert a[1..] != b[1..];
    }
  }

  // ----- the positions the walk reports, in its own order

  function Positions(subs: seq<Subtrace>, first: nat, at: Position): (ps: seq<Position>)
    decreases subs
  {
    if subs == [] then [] else FramePositions(subs[0], at + [first]) + Positions(subs[1..], first + 1, at)
  }

  function FramePositions(s: Subtrace, at: Position): (ps: seq<Position>)
    decreases s
  {
    if Undone(s) then [] else (if Own(s, "") != [] then [at] else []) + Positions(s.subs, 0, at)
  }

  /** `at` is the top of the tree or a frame of it that stands. */
  ghost predicate Reached(root: seq<Subtrace>, at: Position) {
    at == [] || (InTree(root, at) && Stands(root, at))
  }

  ghost function Kids(root: seq<Subtrace>, at: Position): (subs: seq<Subtrace>)
    requires Reached(root, at)
  {
    if at == [] then root else FrameAt(root, at).subs
  }

  lemma {:induction false} StepDown(root: seq<Subtrace>, at: Position, i: nat)
    requires Reached(root, at) && i < |Kids(root, at)|
    ensures InTree(root, at + [i]) && FrameAt(root, at + [i]) == Kids(root, at)[i]
    ensures Stands(root, at + [i]) <==> !Undone(Kids(root, at)[i])
    ensures Dotted("", at + [i]) == Extend(Dotted("", at), i)
    decreases |at|
  {
    DottedStep("", at, i);
    if at != [] {
      StepDeeper(root, at, i);
    }
  }

  lemma {:induction false} StepDeeper(root: seq<Subtrace>, at: Position, i: nat)
    requires InTree(root, at) && i < |FrameAt(root, at).subs|
    ensures InTree(root, at + [i]) && FrameAt(root, at + [i]) == FrameAt(root, at).subs[i]
    ensures Stands(root, at + [i]) <==> Stands(root, at) && !Undone(FrameAt(root, at).subs[i])
    decreases |at|
  {
    var down := at + [i];
    assert down[0] == at[0] && down[1..] == at[1..] + [i];
    if |at| > 1 {
      StepDeeper(root[at[0]].subs, at[1..], i);
    } else {
      assert down[1..] == [i];
    }
  }

  lemma {:induction false} DottedStep(prefix: string, at: Position, i: nat)
    ensures Dotted(prefix, at + [i]) == Extend(Dotted(prefix, at), i)
    decreases |at|
  {
    hide Extend;
    var down := at + [i];
    if at == [] {
      assert down == [i] && down[1..] == [];
    } else {
      assert down[0] == at[0] && down[1..] == at[1..] + [i];
      DottedStep(Extend(prefix, at[0]), at[1..], i);
    }
  }

  /** The list of transfers is the list of payments at these positions. */
  ghost predicate Matches(root: seq<Subtrace>, ts: seq<Transfer>, ps: seq<Position>) {
    && |ts| == |ps|
    && forall i :: 0 <= i < |ps| ==> MadeAt(root, ps[i], ts[i])
  }

  lemma {:induction false} MatchesConcat(root: seq<Subtrace>, ts: seq<Transfer>, ps: seq<Position>, us: seq<Transfer>,
                                         qs: seq<Position>)
    requires Matches(root, ts, ps) && Matches(root, us, qs)
    ensures Matches(root, ts + us, ps + qs)
  {
    hide MadeAt;
  }

  lemma {:induction false} WalkMatches(root: seq<Subtrace>, at: Position, subs: seq<Subtrace>, first: nat)
    requires Reached(root, at) && first <= |Kids(root, at)| && subs == Kids(root, at)[first..]
    ensures Matches(root, Walked(subs, first, Dotted("", at)), Positions(subs, first, at))
    decreases subs
  {
    hide Reached, Matches, Extend, Dotted;
    if subs == [] {
      MatchesNothing(root);
    } else {
      assert subs[0] == Kids(root, at)[first] && subs[1..] == Kids(root, at)[first + 1..];
      FrameMatches(root, at, first, subs[0]);
      WalkMatches(root, at, subs[1..], first + 1);
      StepDown(root, at, first);
      MatchesConcat(root, WalkedFrame(subs[0], Dotted("", at + [first])), FramePositions(subs[0], at + [first]),
                    Walked(subs[1..], first + 1, Dotted("", at)), Positions(subs[1..], first + 1, at));
    }
  }

  lemma {:induction false} MatchesNothing(root: seq<Subtrace>)
    ensures Matches(root, [], [])
  {
  }

  lemma {:induction false} FrameMatches(root: seq<Subtrace>, at: Position, i: nat, s: Subtrace)
    requires Reached(root, at) && i < |Kids(root, at)| && s == Kids(root, at)[i]
    ensures Matches(root, WalkedFrame(s, Dotted("", at + [i])), FramePositions(s, at + [i]))
    decreases s
  {
    hide Matches, Dotted, Walked, Positions, InTree, Stands, FrameAt;
    StepDown(root, at, i);
    var down := at + [i];
    if Undone(s) {
      MatchesNothing(root);
    } else {
      assert s.subs[0..] == s.subs;
      WalkMatches(root, down, s.subs, 0);
      OwnMatches(root, down, s);
      MatchesConcat(root, Own(s, Dotted("", down)), if Own(s, "") != [] then [down] else [],
                    Walked(s.subs, 0, Dotted("", down)), Positions(s.subs, 0, down));
    }
  }

  lemma {:induction false} OwnMatches(root: seq<Subtrace>, at: Position, s: Subtrace)
    requires InTree(root, at) && Stands(root, at) && FrameAt(root, at) == s
    ensures Matches(root, Own(s, Dotted("", at)), if Own(s, "") != [] then [at] else [])
  {
    hide InTree, Stands, FrameAt, Dotted, Own, Makes;
    OwnMakes(s, Dotted("", at));
    var ts := Own(s, Dotted("", at));
    if |ts| == 1 {
      assert ts[0] in ts && MadeAt(root, at, ts[0]);
    }
  }

  // ----- every payment is reported

  lemma {:induction false} WalkFinds(root: seq<Subtrace>, at: Position, subs: seq<Subtrace>, first: nat, pos: Position,
                                     t: Transfer)
    requires Reached(root, at) && first <= |Kids(root, at)| && subs == Kids(root, at)[first..]
    requires MadeAt(root, pos, t) && at < pos && pos[|at|] >= first
    ensures pos in Positions(subs, first, at)
    decreases subs
  {
    hide Makes, Stands, Own, Dotted;
    var i := pos[|at|];
    Branches(root, at, pos);
    if i == first {
      assert subs[0] == Kids(root, at)[first];
      FrameFinds(root, at, first, subs[0], pos, t);
    } else {
      assert subs[1..] == Kids(root, at)[first + 1..];
      WalkFinds(root, at, subs[1..], first + 1, pos, t);
    }
  }

  /** A position below `at` goes through one of its children. */
  lemma {:induction false} Branches(root: seq<Subtrace>, at: Position, pos: Position)
    requires Reached(root, at) && InTree(root, pos) && at < pos
    ensures pos[|at|] < |Kids(root, at)|
  {
    if at != [] {
      BranchesDeeper(root, at, pos);
    }
  }

  lemma {:induction false} BranchesDeeper(root: seq<Subtrace>, at: Position, pos: Position)
    requires InTree(root, at) && InTree(root, pos) && at < pos
    ensures pos[|at|] < |FrameAt(root, at).subs|
    ensures Stands(root, pos) ==> Stands(root, at)
    decreases |at|
  {
    assert at[0] == pos[0] && at[1..] <= pos[1..];
    if |at| > 1 {
      BranchesDeeper(root[at[0]].subs, at[1..], pos[1..]);
      assert pos[1..][|at[1..]|] == pos[|at|];
    }
  }

  lemma {:induction false} FrameFinds(root: seq<Subtrace>, at: Position, i: nat, s: Subtrace, pos: Position,
                                      t: Transfer)
    requires Reached(root, at) && i < |Kids(root, at)| && s == Kids(root, at)[i]
    requires MadeAt(root, pos, t) && at + [i] <= pos
    ensures pos in FramePositions(s, at + [i])
    decreases s
  {
    hide InTree, Stands, FrameAt, Makes, Own, Dotted;
    StepDown(root, at, i);
    var down := at + [i];
    if pos == down {
      OwnMakes(s, t.path);
    } else {
      BranchesDeeper(root, down, pos);
      assert s.subs[0..] == s.subs;
      WalkFinds(root, down, s.subs, 0, pos, t);
    }
  }

  // ----- in pre-order

  ghost predicate InPreorder(ps: seq<Position>) {
    forall i, j :: 0 <= i < j < |ps| ==> Precedes(ps[i], ps[j])
  }

  lemma {:induction false} PrecedesAfter(p: Position, a: Position, b: Position)
    ensures Precedes(p + a, p + b) == Precedes(a, b)
  {
    if p == [] {
      assert p + a == a && p + b == b;
    } else {
      assert (p + a)[1..] == p[1..] + a && (p + b)[1..] == p[1..] + b;
      PrecedesAfter(p[1..], a, b);
    }
  }

  /** Every reported position lies below `at`, through child `first` or a later one. */
  ghost predicate Through(ps: seq<Position>, at: Position, first: nat) {
    forall i :: 0 <= i < |ps| ==> at < ps[i] && ps[i][|at|] >= first
  }

  lemma {:induction false} PositionsThrough(subs: seq<Subtrace>, first: nat, at: Position)
    ensures Through(Positions(subs, first, at), at, first)
    decreases subs
  {
    hide FramePositions;
    if subs != [] {
      FrameThrough(subs[0], at + [first]);
      PositionsThrough(subs[1..], first + 1, at);
      var own := FramePositions(subs[0], at + [first]);
      forall i | 0 <= i < |own| ensures at < own[i] && own[i][|at|] == first {
        assert at + [first] <= own[i];
        assert own[i][|at|] == (at + [first])[|at|];
      }
    }
  }

  lemma {:induction false} FrameThrough(s: Subtrace, at: Position)
    ensures forall i :: 0 <= i < |FramePositions(s, at)| ==> at <= FramePositions(s, at)[i]
    decreases s
  {
    hide Positions, Own;
    PositionsThrough(s.subs, 0, at);
  }

  lemma {:induction false} PositionsOrdered(subs: seq<Subtrace>, first: nat, at: Position)
    ensures InPreorder(Positions(subs, first, at))
    decreases subs
  {
    hide FramePositions, Precedes;
    if subs != [] {
      var own, rest := FramePositions(subs[0], at + [first]), Positions(subs[1..], first + 1, at);
      FrameOrdered(subs[0], at + [first]);
      PositionsOrdered(subs[1..], first + 1, at);
      FrameThrough(subs[0], at + [first]);
      PositionsThrough(subs[1..], first + 1, at);
      forall i, j | 0 <= i < |own| && 0 <= j < |rest| ensures Precedes(own[i], rest[j]) {
        EarlierSibling(at, first, own[i], rest[j]);
      }
    }
  }

  lemma {:induction false} EarlierSibling(at: Position, i: nat, a: Position, b: Position)
    requires at + [i] <= a && at < b && b[|at|] > i
    ensures Precedes(a, b)
  {
    var x, y := a[|at|..], b[|at|..];
    assert a == at + x && b == at + y;
    assert x[0] == (at + [i])[|at|];
    PrecedesAfter(at, x, y);
  }

  lemma {:induction false} FrameOrdered(s: Subtrace, at: Position)
    ensures InPreorder(FramePositions(s, at))
    decreases s
  {
    hide Positions, Precedes, Own;
    PositionsOrdered(s.subs, 0, at);
    PositionsThrough(s.subs, 0, at);
    var ps := Positions(s.subs, 0, at);
    forall i | 0 <= i < |ps| ensures Precedes(at, ps[i]) {
      var y := ps[i][|at|..];
      assert ps[i] == at + y && at == at + [];
      PrecedesAfter(at, [], y);
      assert Precedes([], y) by { FirstOfAll(y); }
    }
  }

  lemma {:induction false} FirstOfAll(y: Position)
    requires y != []
    ensures Precedes([], y)
  {
  }

  // ----- the paths

  lemma {:induction false} DotMeansPrefix(p: string, i: nat)
    ensures Lacks(Extend(p, i), '.') <==> p == ""
  {
    hide Decimal;
    DecimalLacks(i, '.');
    if p != "" {
      assert Extend(p, i)[|p|] == '.';
    }
  }

  /** A path below a dotted prefix is cut apart in only one way. */
  lemma {:induction false} ExtendInjective(p: string, i: nat, q: string, j: nat)
    requires Extend(p, i) == Extend(q, j)
    ensures p == q && i == j
  {
    hide Decimal;
    DotMeansPrefix(p, i);
    DotMeansPrefix(q, j);
    if p != "" {
      DecimalLacks(i, '.');
      DecimalLacks(j, '.');
      CutLast(p, Decimal(i), q, Decimal(j), '.');
    }
    DecimalInjective(i, j);
  }

  lemma {:induction false} DottedInjective(a: Position, b: Position)
    requires Dotted("", a) == Dotted("", b)
    ensures a == b
    decreases |a| + |b|
  {
    hide Extend, Dotted;
    if a != [] && b != [] {
      var x, i, y, j := a[..|a| - 1], a[|a| - 1], b[..|b| - 1], b[|b| - 1];
      assert a == x + [i] && b == y + [j];
      DottedStep("", x, i);
      DottedStep("", y, j);
      ExtendInjective(Dotted("", x), i, Dotted("", y), j);
      DottedInjective(x, y);
    } else {
      DottedNonempty(a);
      DottedNonempty(b);
    }
  }

  /** A path spelled out: the last index in decimal, after the path above it and a dot unless it is the first. */
  lemma {:induction false} DottedIs(at: Position, i: nat)
    ensures Dotted("", at + [i]) == (if at == [] then "" else Dotted("", at) + ".") + Decimal(i)
  {
    hide Decimal, Dotted;
    DottedStep("", at, i);
    DottedNonempty(at);
    assert "" + Decimal(i) == Decimal(i);
  }

  lemma {:induction false} DottedNonempty(a: Position)
    ensures Dotted("", a) == "" <==> a == []
  {
    hide Extend;
    if a != [] {
      var x, i := a[..|a| - 1], a[|a| - 1];
      assert a == x + [i];
      DottedStep("", x, i);
      ExtendNonempty(Dotted("", x), i);
    }
  }

  lemma {:induction false} ExtendNonempty(p: string, i: nat)
    ensures Extend(p, i) != ""
  {
  }

  // ----- what a transaction moved

  /**
   The transfers found below a transaction are exactly those the standing frames made, in pre-order, and the paths they
   carry are all different and never empty.
   */
  lemma {:induction false} WalkIsExact(trace: seq<Subtrace>)
    ensures var ts, ps := Walked(trace, 0, ""), Positions(trace, 0, []);
            && Matches(trace, ts, ps) && InPreorder(ps)
            && (forall pos, t :: MadeAt(trace, pos, t) ==> pos in ps && t in ts)
            && (forall i :: 0 <= i < |ts| ==> ts[i].path != "")
            && (forall i, j :: 0 <= i < j < |ts| ==> ts[i].path != ts[j].path)
  {
    hide Walked, Positions, MadeAt, Dotted, Precedes;
    var ts, ps := Walked(trace, 0, ""), Positions(trace, 0, []);
    assert trace[0..] == trace;
    assert Dotted("", []) == "" by { DottedNonempty([]); }
    WalkMatches(trace, [], trace, 0);
    PositionsOrdered(trace, 0, []);
    PositionsThrough(trace, 0, []);
    forall pos, t | MadeAt(trace, pos, t) ensures pos in ps && t in ts {
      assert pos != [] by { MadeInTree(trace, pos, t); }
      WalkFinds(trace, [], trace, 0, pos, t);
      var i :| 0 <= i < |ps| && ps[i] == pos;
      MadeOnce(trace, pos, t, ts[i]);
      assert ts[i] in ts;
    }
    forall i | 0 <= i < |ts| ensures ts[i].path != "" {
      DottedNonempty(ps[i]);
      MadePath(trace, ps[i], ts[i]);
    }
    forall i, j | 0 <= i < j < |ts| ensures ts[i].path != ts[j].path {
      PrecedesIrreflexive(ps[i], ps[j]);
      MadePath(trace, ps[i], ts[i]);
      MadePath(trace, ps[j], ts[j]);
      if ts[i].path == ts[j].path {
        DottedInjective(ps[i], ps[j]);
      }
    }
  }

  lemma {:induction false} MadePath(subs: seq<Subtrace>, pos: Position, t: Transfer)
    requires MadeAt(subs, pos, t)
    ensures t.path == Dotted("", pos)
  {
  }

  /** A frame makes one transfer at most. */
  lemma {:induction false} MadeOnce(subs: seq<Subtrace>, pos: Position, t: Transfer, u: Transfer)
    requires MadeAt(subs, pos, t) && MadeAt(subs, pos, u)
    ensures t == u
  {
    hide InTree, Stands, FrameAt, Dotted;
  }

  lemma {:induction false} MadeInTree(subs: seq<Subtrace>, pos: Position, t: Transfer)
    requires MadeAt(subs, pos, t)
    ensures pos != []
  {
  }

  /**
   What a transaction moved, said of the frames alone: nothing if it failed, and otherwise its own value, first and
   under the empty path, if positive and paid to someone else, and every transfer a standing frame made. Each is listed
   once.
   */
  lemma {:induction false} AllTransfersIff(sender: Address, destination: Address, value: nat, success: bool,
                                           trace: seq<Subtrace>, t: Transfer)
    ensures var ts := AllTransfers(sender, destination, value, success, trace);
            && (t in ts <==>
                && success
                && (|| (value > 0 && sender != destination
                        && t == Transfer(sender, destination, value, Transaction, "") == ts[0])
                    || exists pos :: MadeAt(trace, pos, t)))
            && (forall i, j :: 0 <= i < j < |ts| ==> ts[i].path != ts[j].path)
  {
    hide Walked, MadeAt;
    var below := Walked(trace, 0, "");
    WalkedIff(trace, t);
    if success {
      var own := if value != 0 && sender != destination then [Transfer(sender, destination, value, Transaction, "")]
                 else [];
      PathsApart(trace, own);
      assert AllTransfers(sender, destination, value, success, trace) == own + below;
    }
  }

  lemma {:induction false} WalkedIff(trace: seq<Subtrace>, t: Transfer)
    ensures t in Walked(trace, 0, "") <==> exists pos :: MadeAt(trace, pos, t)
  {
    hide Walked, MadeAt, Positions;
    WalkIsExact(trace);
    var ts, ps := Walked(trace, 0, ""), Positions(trace, 0, []);
    if t in ts {
      var i :| 0 <= i < |ts| && ts[i] == t;
      assert MadeAt(trace, ps[i], t);
    }
  }

  lemma {:induction false} PathsApart(trace: seq<Subtrace>, own: seq<Transfer>)
    requires |own| <= 1 && forall i :: 0 <= i < |own| ==> own[i].path == ""
    ensures var ts := own + Walked(trace, 0, "");
            forall i, j :: 0 <= i < j < |ts| ==> ts[i].path != ts[j].path
  {
    hide Walked, Matches, Positions;
    WalkIsExact(trace);
  }
}
