/**
 Gas in RSK call trees and the single-pass estimator (crates/execution/src/gas_estimator.rs), under the RSK call rule
 (crates/execution/src/rsk_instructions.rs): the callee's gas is the lesser of what remains and what was requested plus
 the stipend, all of it charged to the caller and the unspent part handed back.
 */
module Gas {
  import opened Options

  const STIPEND_CALL: nat := 2_300

  /** A frame that never reads its remaining gas: opcodes with fixed costs, calls and creations. */
  datatype Code =
    | Stop
    | Spend(cost: nat, next: Code)
    | Call(cost: nat, requested: nat, transfers: bool, callee: Code, next: Code)
    | Create(cost: nat, endowed: bool, init: Code, next: Code)

  function Least(a: nat, b: nat): (r: nat) {
    if a <= b then a else b
  }

  function Most(a: nat, b: nat): (r: nat) {
    if a >= b then a else b
  }

  function Stipend(transfers: bool): (r: nat) {
    if transfers then STIPEND_CALL else 0
  }

  /** What remains of `gas` when the frame and every frame below it succeed; nothing if any runs out. */
  function Run(code: Code, gas: nat): (left: Option<nat>)
    ensures left.Some? ==> left.value <= gas
  {
    match code
    case Stop => Some(gas)
    case Spend(cost, next) => if gas < cost then None else Run(next, gas - cost)
    case Call(cost, requested, transfers, callee, next) =>
      if gas < cost + Stipend(transfers) then None
      else
        var allowance := Least(gas - cost, requested + Stipend(transfers));
        var back := Run(callee, allowance);
        if back.None? then None else Run(next, gas - cost - allowance + back.value)
    case Create(cost, endowed, init, next) =>
      if gas < cost then None
      else
        var back := Run(init, gas - cost);
        if back.None? then None else Run(next, back.value)
  }

  // ----- the smallest limit, in closed form

  /** What the frame and everything below it spends. */
  function Used(code: Code): (u: nat) {
    match code
    case Stop => 0
    case Spend(cost, next) => cost + Used(next)
    case Call(cost, _, _, callee, next) => cost + Used(callee) + Used(next)
    case Create(cost, _, init, next) => cost + Used(init) + Used(next)
  }

  /** The least gas the frame can be given. */
  function Need(code: Code): (n: nat) {
    match code
    case Stop => 0
    case Spend(cost, next) => cost + Need(next)
    case Call(cost, _, transfers, callee, next) =>
      cost + Most(Stipend(transfers), Most(Need(callee), Used(callee) + Need(next)))
    case Create(cost, _, init, next) => cost + Most(Need(init), Used(init) + Need(next))
  }

  /** No call asks for less than its callee needs. */
  predicate Feasible(code: Code) {
    match code
    case Stop => true
    case Spend(_, next) => Feasible(next)
    case Call(_, requested, transfers, callee, next) =>
      Need(callee) <= requested + Stipend(transfers) && Feasible(callee) && Feasible(next)
    case Create(_, _, init, next) => Feasible(init) && Feasible(next)
  }

  /** Some call below the root frame's entry carries value. */
  predicate MovesValue(code: Code) {
    match code
    case Stop => false
    case Spend(_, next) => MovesValue(next)
    case Call(_, _, transfers, callee, next) => transfers || MovesValue(callee) || MovesValue(next)
    case Create(_, endowed, init, next) => endowed || MovesValue(init) || MovesValue(next)
  }

  lemma {:induction false} UsedWithinNeed(code: Code)
    ensures Used(code) <= Need(code) <= Used(code) + (if MovesValue(code) then STIPEND_CALL else 0)
  {
    match code
    case Stop =>
    case Spend(_, next) => UsedWithinNeed(next);
    case Call(_, _, _, callee, next) => UsedWithinNeed(callee); UsedWithinNeed(next);
    case Create(_, _, init, next) => UsedWithinNeed(init); UsedWithinNeed(next);
  }

  ghost predicate Threshold(code: Code, gas: nat) {
    && (Run(code, gas).Some? <==> Feasible(code) && Need(code) <= gas)
    && (Run(code, gas).Some? ==> Run(code, gas).value == gas - Used(code))
  }

  /** Success is monotone in the limit with a known threshold, and what is spent does not depend on the limit. */
  lemma {:induction false} RunIff(code: Code, gas: nat)
    ensures Run(code, gas).Some? <==> Feasible(code) && Need(code) <= gas
    ensures Run(code, gas).Some? ==> Run(code, gas).value == gas - Used(code)
    decreases code, 1
  {
    if code.Call? {
      RunIffCall(code, gas);
    } else if code.Create? {
      RunIffCreate(code, gas);
    } else if code.Spend? && gas >= code.cost {
      RunIff(code.next, gas - code.cost);
    }
  }

  lemma {:induction false} CallForms(code: Code, gas: nat)
    requires code.Call?
    ensures gas >= code.cost ==>
              var allowance := Least(gas - code.cost, code.requested + Stipend(code.transfers));
              Run(code, gas) ==
              if gas < code.cost + Stipend(code.transfers) || Run(code.callee, allowance).None? then None
                              else Run(code.next, gas - code.cost - allowance + Run(code.callee, allowance).value)
    ensures gas < code.cost ==> Run(code, gas).None?
    ensures Used(code) == code.cost + Used(code.callee) + Used(code.next)
    ensures Need(code) == code.cost
            + Most(Stipend(code.transfers), Most(Need(code.callee), Used(code.callee) + Need(code.next)))
    ensures Feasible(code) <==>
            && Need(code.callee) <= code.requested + Stipend(code.transfers)
            && Feasible(code.callee) && Feasible(code.next)
  {
  }

  lemma {:induction false} RunIffCall(code: Code, gas: nat)
    requires code.Call?
    ensures Threshold(code, gas)
    decreases code, 0
  {
    hide Run, Need, Used, Feasible, MovesValue;
    var Call(cost, requested, transfers, callee, next) := code;
    CallForms(code, gas);
    UsedWithinNeed(callee);
    if gas >= cost + Stipend(transfers) {
      var allowance := Least(gas - cost, requested + Stipend(transfers));
      RunIff(callee, allowance);
      if Run(callee, allowance).Some? {
        RunIff(next, gas - cost - Used(callee));
      }
    }
  }

  lemma {:induction false} RunIffCreate(code: Code, gas: nat)
    requires code.Create?
    ensures Threshold(code, gas)
    decreases code, 0
  {
    var Create(cost, endowed, init, next) := code;
    UsedWithinNeed(init);
    if gas >= cost {
      RunIff(init, gas - cost);
      if Run(init, gas - cost).Some? {
        RunIff(next, gas - cost - Used(init));
      }
    }
  }

  // ----- what an inspector sees

  /** A frame as executed: each opcode leaves some gas, and a call or creation opens a frame with a limit of its own. */
  datatype Trace = Done | Ran(left: nat, next: Trace) | Opened(value: bool, limit: nat, inner: Trace, next: Trace)

  datatype Event = Before(limit: nat) | After(limit: nat, left: nat) | Enter(value: bool) | Leave

  function Events(t: Trace, limit: nat): (es: seq<Event>) {
    match t
    case Done => []
    case Ran(left, next) => [Before(limit), After(limit, left)] + Events(next, limit)
    case Opened(value, inside, inner, next) => [Enter(value)] + Events(inner, inside) + [Leave] + Events(next, limit)
  }

  /** The root frame is announced like any other. */
  function Transaction(value: bool, limit: nat, t: Trace): (es: seq<Event>) {
    [Enter(value)] + Events(t, limit) + [Leave]
  }

  /**
   The bracketing the interpreter keeps: no opcode leaves more than the frame's limit, and a frame is only opened by an
   opcode that has just charged its whole allowance. `held` is what the frame had committed after that opcode.
   */
  predicate Bracketed(t: Trace, limit: nat, held: Option<nat>) {
    match t
    case Done => true
    case Ran(left, next) => left <= limit && Bracketed(next, limit, Some(limit - left))
    case Opened(_, inside, inner, next) =>
      held.Some? && inside <= held.value && Bracketed(inner, inside, None) && Bracketed(next, limit, None)
  }

  /** The frame's own high-water mark of committed gas. */
  function Peak(t: Trace, limit: nat): (p: nat) {
    match t
    case Done => 0
    case Ran(left, next) => Most(if left <= limit then limit - left else 0, Peak(next, limit))
    case Opened(_, _, _, next) => Peak(next, limit)
  }

  /** The greatest mark of any frame in the trace, each against its own limit. */
  function DeepPeak(t: Trace, limit: nat): (p: nat) {
    match t
    case Done => 0
    case Ran(left, next) => Most(if left <= limit then limit - left else 0, DeepPeak(next, limit))
    case Opened(_, inside, inner, next) => Most(DeepPeak(inner, inside), DeepPeak(next, limit))
  }

  predicate Stepped(t: Trace) {
    match t
    case Done => false
    case Ran(_, _) => true
    case Opened(_, _, _, next) => Stepped(next)
  }

  predicate ValueBelow(t: Trace) {
    match t
    case Done => false
    case Ran(_, next) => ValueBelow(next)
    case Opened(value, _, inner, next) => value || ValueBelow(inner) || ValueBelow(next)
  }

  /** The frame opened another with nothing left of its own; `left` is what its last opcode left. */
  predicate HandedOver(t: Trace, left: Option<nat>) {
    match t
    case Done => false
    case Ran(l, next) => HandedOver(next, Some(l))
    case Opened(_, _, _, next) => left == Some(0) || HandedOver(next, left)
  }

  lemma {:induction false} DeepPeakBounded(t: Trace, limit: nat, held: Option<nat>)
    requires Bracketed(t, limit, held) && (held.Some? ==> held.value <= limit)
    ensures DeepPeak(t, limit) <= limit
    ensures var h := if held.Some? then held.value else 0; Most(h, DeepPeak(t, limit)) == Most(h, Peak(t, limit))
  {
    match t
    case Done =>
    case Ran(left, next) => DeepPeakBounded(next, limit, Some(limit - left));
    case Opened(_, inside, inner, next) =>
      DeepPeakBounded(inner, inside, None);
      DeepPeakBounded(next, limit, None);
  }

  /** The root frame's own mark is the greatest of any frame's. */
  lemma {:induction false} RootPeakDominates(t: Trace, limit: nat)
    requires Bracketed(t, limit, None)
    ensures DeepPeak(t, limit) == Peak(t, limit) <= limit
  {
    DeepPeakBounded(t, limit, None);
  }

  // ----- the inspector

  const ROOT_DEPTH: nat := 1

  datatype Seen = Seen(depth: nat, rootLimit: nat, rootRemaining: nat, stepped: bool, maxCommitted: nat,
                       movedAll: bool, callWithValue: bool)

  const NOTHING_SEEN := Seen(0, 0, 0, false, 0, false, false)

  function Next(i: Seen, e: Event): (j: Seen) {
    match e
    case Before(limit) =>
      if i.depth == ROOT_DEPTH && i.rootLimit == 0 then i.(rootLimit := limit, stepped := true) else i
    case After(limit, left) =>
      if i.depth != ROOT_DEPTH then i
      else
        var rootLimit := if i.rootLimit == 0 then limit else i.rootLimit;
        var committed := if left <= rootLimit then rootLimit - left else 0;
        i.(stepped := true, rootLimit := rootLimit, maxCommitted := Most(committed, i.maxCommitted),
           rootRemaining := left)
    case Enter(value) =>
      i.(callWithValue := i.callWithValue || (value && i.depth >= ROOT_DEPTH),
         movedAll := i.movedAll || (i.depth == ROOT_DEPTH && i.stepped && i.rootRemaining == 0),
         depth := i.depth + 1)
    case Leave => i.(depth := if i.depth == 0 then 0 else i.depth - 1)
  }

  function Watch(i: Seen, es: seq<Event>): (j: Seen)
    decreases es
  {
    if es == [] then i else Watch(Next(i, es[0]), es[1..])
  }

  class EstimationInspector {
    var depth: nat
    var rootLimit: nat
    var rootRemaining: nat
    var stepped: bool
    var maxCommitted: nat
    var movedAll: bool
    var callWithValue: bool

    function View(): (i: Seen)
      reads this
    {
      Seen(depth, rootLimit, rootRemaining, stepped, maxCommitted, movedAll, callWithValue)
    }

    constructor ()
      ensures View() == NOTHING_SEEN
    {
      depth, rootLimit, rootRemaining, stepped := 0, 0, 0, false;
      maxCommitted, movedAll, callWithValue := 0, false, false;
    }

    method Step(limit: nat)
      modifies this
      ensures View() == Next(old(View()), Before(limit))
    {
      if depth == ROOT_DEPTH && rootLimit == 0 {
        rootLimit := limit;
        stepped := true;
      }
    }

    method StepEnd(limit: nat, remaining: nat)
      modifies this
      ensures View() == Next(old(View()), After(limit, remaining))
    {
      if depth != ROOT_DEPTH {
        return;
      }
      stepped := true;
      if rootLimit == 0 {
        rootLimit := limit;
      }
      var committed := if remaining <= rootLimit then rootLimit - remaining else 0;
      if committed > maxCommitted {
        maxCommitted := committed;
      }
      rootRemaining := remaining;
    }

    method EnterFrame(value: bool)
      modifies this
      ensures View() == Next(old(View()), Enter(value))
    {
      if value && depth >= ROOT_DEPTH {
        callWithValue := true;
      }
      if depth == ROOT_DEPTH && stepped && rootRemaining == 0 {
        movedAll := true;
      }
      depth := depth + 1;
    }

    method LeaveFrame()
      modifies this
      ensures View() == Next(old(View()), Leave)
    {
      depth := if depth == 0 then 0 else depth - 1;
    }
  }

  lemma {:induction false} WatchConcat(i: Seen, a: seq<Event>, b: seq<Event>)
    ensures Watch(i, a + b) == Watch(Watch(i, a), b)
    decreases a
  {
    hide Next;
    if a == [] {
      assert a + b == b;
    } else {
      assert (a + b)[1..] == a[1..] + b;
      WatchConcat(Next(i, a[0]), a[1..], b);
    }
  }

  lemma {:induction false} WatchOne(i: Seen, e: Event, es: seq<Event>)
    ensures Watch(i, [e] + es) == Watch(Next(i, e), es)
  {
    hide Next;
    assert ([e] + es)[1..] == es;
  }

  /** Below the root only the value flag can change, and the depth comes back. */
  lemma {:induction false} WatchNested(i: Seen, t: Trace, limit: nat)
    requires i.depth > ROOT_DEPTH
    ensures Watch(i, Events(t, limit)) == i.(callWithValue := i.callWithValue || ValueBelow(t))
    decreases t
  {
    hide Watch;
    match t
    case Done => WatchNone(i);
    case Ran(left, next) =>
      WatchStep(i, limit, left, Events(next, limit));
      WatchNested(i, next, limit);
    case Opened(value, inside, inner, next) =>
      WatchOpened(i, value, Events(inner, inside), Events(next, limit));
      var entered := Next(i, Enter(value));
      WatchNested(entered, inner, inside);
      WatchNested(i.(callWithValue := i.callWithValue || value || ValueBelow(inner)), next, limit);
  }

  lemma {:induction false} WatchNone(i: Seen)
    ensures Watch(i, []) == i
  {
  }

  lemma {:induction false} WatchStep(i: Seen, limit: nat, left: nat, es: seq<Event>)
    ensures Watch(i, [Before(limit), After(limit, left)] + es) ==
            Watch(Next(Next(i, Before(limit)), After(limit, left)), es)
  {
    hide Watch, Next;
    assert [Before(limit), After(limit, left)] + es == [Before(limit)] + ([After(limit, left)] + es);
    WatchOne(i, Before(limit), [After(limit, left)] + es);
    WatchOne(Next(i, Before(limit)), After(limit, left), es);
  }

  lemma {:induction false} WatchOpened(i: Seen, value: bool, inner: seq<Event>, es: seq<Event>)
    ensures Watch(i, [Enter(value)] + inner + [Leave] + es) ==
            Watch(Next(Watch(Next(i, Enter(value)), inner), Leave), es)
  {
    hide Watch, Next;
    assert [Enter(value)] + inner + [Leave] + es == [Enter(value)] + (inner + ([Leave] + es));
    WatchOne(i, Enter(value), inner + ([Leave] + es));
    WatchConcat(Next(i, Enter(value)), inner, [Leave] + es);
    WatchOne(Watch(Next(i, Enter(value)), inner), Leave, es);
  }

  /** The root frame under the inspector. */
  lemma {:induction false} WatchRoot(i: Seen, t: Trace, limit: nat, held: Option<nat>)
    requires Bracketed(t, limit, held) && i.depth == ROOT_DEPTH
    requires i.rootLimit == limit || (i.rootLimit == 0 && !i.stepped)
    requires held.Some? ==> i.stepped && held.value <= limit && i.rootRemaining == limit - held.value
    ensures var j := Watch(i, Events(t, limit));
            && j.depth == ROOT_DEPTH && j.stepped == (i.stepped || Stepped(t))
            && j.maxCommitted == Most(i.maxCommitted, Peak(t, limit))
            && j.callWithValue == (i.callWithValue || ValueBelow(t))
            && j.movedAll == (i.movedAll || HandedOver(t, if i.stepped then Some(i.rootRemaining) else None))
    decreases t
  {
    hide Watch;
    match t
    case Done => WatchNone(i);
    case Ran(left, next) =>
      WatchStep(i, limit, left, Events(next, limit));
      WatchRoot(Next(Next(i, Before(limit)), After(limit, left)), next, limit, Some(limit - left));
    case Opened(value, inside, inner, next) =>
      WatchOpened(i, value, Events(inner, inside), Events(next, limit));
      WatchNested(Next(i, Enter(value)), inner, inside);
      WatchRoot(Next(Watch(Next(i, Enter(value)), Events(inner, inside)), Leave), next, limit, None);
  }

  /**
   After any well-bracketed transaction: the depth is back where it started, the recorded peak is the greatest of any
   frame, the value flag says whether some frame below the root carried value, and the other flag whether the root ever
   opened a frame with nothing left.
   */
  lemma {:induction false} InspectorIsExact(value: bool, limit: nat, t: Trace)
    requires Bracketed(t, limit, None)
    ensures var j := Watch(NOTHING_SEEN, Transaction(value, limit, t));
            && j.depth == 0 && j.stepped == Stepped(t)
            && j.maxCommitted == DeepPeak(t, limit)
            && j.callWithValue == ValueBelow(t)
            && j.movedAll == HandedOver(t, None)
  {
    hide Watch;
    var es := Events(t, limit);
    var root := Next(NOTHING_SEEN, Enter(value));
    assert [Enter(value)] + es + [Leave] + [] == [Enter(value)] + es + [Leave];
    WatchOpened(NOTHING_SEEN, value, es, []);
    WatchRoot(root, t, limit, None);
    WatchNone(Next(Watch(root, es), Leave));
    RootPeakDominates(t, limit);
  }

  // ----- the estimate

  /** What a run of the code leaves for the inspector to see. */
  function TraceOf(code: Code, gas: nat): (t: Trace)
    requires Run(code, gas).Some?
    decreases code
  {
    match code
    case Stop => Ran(gas, Done)
    case Spend(cost, next) => Ran(gas - cost, TraceOf(next, gas - cost))
    case Call(cost, requested, transfers, callee, next) =>
      var allowance := Least(gas - cost, requested + Stipend(transfers));
      var left := gas - cost - allowance;
      Ran(left, Opened(transfers, allowance, TraceOf(callee, allowance),
                       TraceOf(next, left + Run(callee, allowance).value)))
    case Create(cost, endowed, init, next) =>
      Ran(0, Opened(endowed, gas - cost, TraceOf(init, gas - cost), TraceOf(next, Run(init, gas - cost).value)))
  }

  /** The most the frame ever holds committed, counted from the gas it has now. */
  function Commit(code: Code, gas: nat): (c: nat)
    requires Run(code, gas).Some?
    decreases code
  {
    match code
    case Stop => 0
    case Spend(cost, next) => cost + Commit(next, gas - cost)
    case Call(cost, requested, transfers, callee, next) =>
      var allowance := Least(gas - cost, requested + Stipend(transfers));
      RunIff(callee, allowance);
      cost + Most(allowance, Used(callee) + Commit(next, gas - cost - allowance + Run(callee, allowance).value))
    case Create(cost, endowed, init, next) =>
      cost + Most(gas - cost, Used(init) + Commit(next, Run(init, gas - cost).value))
  }

  /** Some opcode of the frame hands over everything it has left. */
  predicate GivesAll(code: Code, gas: nat)
    requires Run(code, gas).Some?
    decreases code
  {
    match code
    case Stop => false
    case Spend(cost, next) => GivesAll(next, gas - cost)
    case Call(cost, requested, transfers, callee, next) =>
      var allowance := Least(gas - cost, requested + Stipend(transfers));
      allowance == gas - cost || GivesAll(next, gas - cost - allowance + Run(callee, allowance).value)
    case Create(_, _, _, _) => true
  }

  /** The allowance of every call and creation, in the order they are entered. */
  function Allowances(code: Code, gas: nat): (list: seq<nat>)
    requires Run(code, gas).Some?
    decreases code
  {
    match code
    case Stop => []
    case Spend(cost, next) => Allowances(next, gas - cost)
    case Call(cost, requested, transfers, callee, next) =>
      var allowance := Least(gas - cost, requested + Stipend(transfers));
      [allowance] + Allowances(callee, allowance)
          + Allowances(next, gas - cost - allowance + Run(callee, allowance).value)
    case Create(cost, endowed, init, next) =>
      [gas - cost] + Allowances(init, gas - cost) + Allowances(next, Run(init, gas - cost).value)
  }

  // ----- one opcode of each kind, unfolded

  lemma {:induction false} StopShape(gas: nat)
    ensures Run(Stop, gas).Some? && TraceOf(Stop, gas) == Ran(gas, Done) && Commit(Stop, gas) == 0
            && !GivesAll(Stop, gas)
    ensures !MovesValue(Stop) && Used(Stop) == 0 && Allowances(Stop, gas) == []
  {
  }

  lemma {:induction false} SpendShape(code: Code, gas: nat)
    requires code.Spend? && Run(code, gas).Some?
    ensures gas >= code.cost && Run(code.next, gas - code.cost).Some?
    ensures TraceOf(code, gas) == Ran(gas - code.cost, TraceOf(code.next, gas - code.cost))
    ensures Commit(code, gas) == code.cost + Commit(code.next, gas - code.cost)
    ensures GivesAll(code, gas) <==> GivesAll(code.next, gas - code.cost)
    ensures MovesValue(code) <==> MovesValue(code.next)
    ensures Used(code) == code.cost + Used(code.next)
    ensures Allowances(code, gas) == Allowances(code.next, gas - code.cost)
  {
  }

  /** The two runs a successful call is made of. */
  lemma {:induction false} CallRuns(code: Code, gas: nat)
    requires code.Call? && Run(code, gas).Some?
    ensures gas >= code.cost + Stipend(code.transfers)
    ensures var allowance := Least(gas - code.cost, code.requested + Stipend(code.transfers));
            && Run(code.callee, allowance).Some?
            && Run(code.next, gas - code.cost - allowance + Run(code.callee, allowance).value).Some?
  {
  }

  lemma {:induction false} CallFigures(code: Code, gas: nat)
    requires code.Call? && Run(code, gas).Some?
    ensures gas >= code.cost + Stipend(code.transfers)
    ensures var allowance := Least(gas - code.cost, code.requested + Stipend(code.transfers));
            var rest := gas - code.cost - allowance;
            && Run(code.callee, allowance).Some?
            && var after := rest + Run(code.callee, allowance).value;
            && Run(code.next, after).Some?
            && Commit(code, gas) == code.cost + Most(allowance, Used(code.callee) + Commit(code.next, after))
            && (GivesAll(code, gas) <==> rest == 0 || GivesAll(code.next, after))
  {
    hide Run, TraceOf, Allowances, MovesValue, Need, Feasible, Used;
    CallRuns(code, gas);
  }

  lemma {:induction false} CallLists(code: Code, gas: nat)
    requires code.Call? && Run(code, gas).Some?
    ensures gas >= code.cost + Stipend(code.transfers)
    ensures var allowance := Least(gas - code.cost, code.requested + Stipend(code.transfers));
            var rest := gas - code.cost - allowance;
            && Run(code.callee, allowance).Some?
            && var after := rest + Run(code.callee, allowance).value;
            && Run(code.next, after).Some?
            && TraceOf(code, gas) ==
               Ran(rest, Opened(code.transfers, allowance, TraceOf(code.callee, allowance), TraceOf(code.next, after)))
            && Allowances(code, gas) == [allowance] + Allowances(code.callee, allowance) + Allowances(code.next, after)
  {
    hide Run, Commit, GivesAll, MovesValue, Used, Need, Feasible;
    CallRuns(code, gas);
  }

  lemma {:induction false} CallShape(code: Code, gas: nat)
    requires code.Call? && Run(code, gas).Some?
    ensures gas >= code.cost + Stipend(code.transfers)
    ensures var allowance := Least(gas - code.cost, code.requested + Stipend(code.transfers));
            var rest := gas - code.cost - allowance;
            && Run(code.callee, allowance).Some?
            && var after := rest + Run(code.callee, allowance).value;
            && Run(code.next, after).Some?
            && TraceOf(code, gas) ==
               Ran(rest, Opened(code.transfers, allowance, TraceOf(code.callee, allowance), TraceOf(code.next, after)))
            && Commit(code, gas) == code.cost + Most(allowance, Used(code.callee) + Commit(code.next, after))
            && (GivesAll(code, gas) <==> rest == 0 || GivesAll(code.next, after))
            && Allowances(code, gas) == [allowance] + Allowances(code.callee, allowance) + Allowances(code.next, after)
    ensures MovesValue(code) <==> code.transfers || MovesValue(code.callee) || MovesValue(code.next)
    ensures Used(code) == code.cost + Used(code.callee) + Used(code.next)
  {
    hide Run, TraceOf, Allowances, Commit, GivesAll;
    CallRuns(code, gas);
    CallFigures(code, gas);
    CallLists(code, gas);
  }

  lemma {:induction false} CreateShape(code: Code, gas: nat)
    requires code.Create? && Run(code, gas).Some?
    ensures gas >= code.cost && GivesAll(code, gas)
    ensures var inside := gas - code.cost;
            && Run(code.init, inside).Some?
            && var after := Run(code.init, inside).value;
            && Run(code.next, after).Some?
            && TraceOf(code, gas) ==
               Ran(0, Opened(code.endowed, inside, TraceOf(code.init, inside), TraceOf(code.next, after)))
            && Commit(code, gas) == code.cost + Most(inside, Used(code.init) + Commit(code.next, after))
            && Allowances(code, gas) == [inside] + Allowances(code.init, inside) + Allowances(code.next, after)
    ensures MovesValue(code) <==> code.endowed || MovesValue(code.init) || MovesValue(code.next)
    ensures Used(code) == code.cost + Used(code.init) + Used(code.next)
  {
  }

  /** What the trace of a run shows of the code it ran. */
  ghost predicate Faithful(code: Code, gas: nat, limit: nat, held: Option<nat>, left: Option<nat>)
    requires Run(code, gas).Some? && gas <= limit
  {
    var t := TraceOf(code, gas);
    && Bracketed(t, limit, held) && Stepped(t)
    && Peak(t, limit) == limit - gas + Commit(code, gas)
    && ValueBelow(t) == MovesValue(code)
    && HandedOver(t, left) == GivesAll(code, gas)
  }

  lemma {:induction false} TraceMeans(code: Code, gas: nat, limit: nat, held: Option<nat>, left: Option<nat>)
    requires Run(code, gas).Some? && gas <= limit
    ensures Faithful(code, gas, limit, held, left)
    decreases code, 1
  {
    hide Run, TraceOf, Commit, GivesAll, MovesValue, Used, Allowances, Need, Feasible;
    match code
    case Stop =>
      StopShape(gas);
      var end := Done;
      assert Bracketed(end, limit, Some(limit - gas)) && Peak(end, limit) == 0 && !ValueBelow(end)
          && !HandedOver(end, Some(gas));
    case Spend(cost, next) =>
      SpendShape(code, gas);
      TraceMeans(next, gas - cost, limit, Some(limit - (gas - cost)), Some(gas - cost));
    case Call(_, _, _, _, _) => TraceMeansCall(code, gas, limit, held, left);
    case Create(_, _, _, _) => TraceMeansCreate(code, gas, limit, held, left);
  }

  lemma {:induction false} TraceMeansCall(code: Code, gas: nat, limit: nat, held: Option<nat>, left: Option<nat>)
    requires code.Call? && Run(code, gas).Some? && gas <= limit
    ensures Faithful(code, gas, limit, held, left)
    decreases code, 0
  {
    hide Run, TraceOf, Commit, GivesAll, MovesValue, Used, Allowances, Need, Feasible, Bracketed, Peak, ValueBelow,
         HandedOver;
    CallShape(code, gas);
    var Call(cost, requested, transfers, callee, next) := code;
    var allowance := Least(gas - cost, requested + Stipend(transfers));
    var rest := gas - cost - allowance;
    RunIff(callee, allowance);
    var back := Run(callee, allowance).value;
    TraceMeans(callee, allowance, allowance, None, None);
    TraceMeans(next, rest + back, limit, None, Some(rest));
    OpenedForms(limit, held, rest, transfers, allowance, TraceOf(callee, allowance), TraceOf(next, rest + back));
  }

  lemma {:induction false} OpenedForms(limit: nat, held: Option<nat>, rest: nat, value: bool, inside: nat,
                                       inner: Trace, next: Trace)
    requires rest <= limit
    ensures var t := Ran(rest, Opened(value, inside, inner, next));
            && (Bracketed(t, limit, held) <==>
                inside <= limit - rest && Bracketed(inner, inside, None) && Bracketed(next, limit, None))
            && Peak(t, limit) == Most(limit - rest, Peak(next, limit))
            && (ValueBelow(t) <==> value || ValueBelow(inner) || ValueBelow(next))
            && (forall left :: HandedOver(t, left) <==> rest == 0 || HandedOver(next, Some(rest)))
            && Stepped(t)
  {
    assert Bracketed(Opened(value, inside, inner, next), limit, Some(limit - rest)) <==>
           inside <= limit - rest && Bracketed(inner, inside, None) && Bracketed(next, limit, None);
    assert ValueBelow(Opened(value, inside, inner, next)) <==> value || ValueBelow(inner) || ValueBelow(next);
    assert HandedOver(Opened(value, inside, inner, next), Some(rest)) <==> rest == 0 || HandedOver(next, Some(rest));
    assert Peak(Opened(value, inside, inner, next), limit) == Peak(next, limit);
  }

  lemma {:induction false} TraceMeansCreate(code: Code, gas: nat, limit: nat, held: Option<nat>, left: Option<nat>)
    requires code.Create? && Run(code, gas).Some? && gas <= limit
    ensures Faithful(code, gas, limit, held, left)
    decreases code, 0
  {
    hide Run, TraceOf, Commit, GivesAll, MovesValue, Used, Allowances, Need, Feasible, Bracketed, Peak, ValueBelow,
         HandedOver;
    CreateShape(code, gas);
    var Create(cost, endowed, init, next) := code;
    RunIff(init, gas - cost);
    var back := Run(init, gas - cost).value;
    TraceMeans(init, gas - cost, gas - cost, None, None);
    TraceMeans(next, back, limit, None, Some(0));
    OpenedForms(limit, held, 0, endowed, gas - cost, TraceOf(init, gas - cost), TraceOf(next, back));
  }

  const MAX64: nat := 0xFFFF_FFFF_FFFF_FFFF

  datatype Telemetry = Telemetry(gasUsed: nat, refunded: nat, maxCommitted: nat, movedAll: bool, callWithValue: bool)

  /** `into_telemetry`. */
  function IntoTelemetry(i: Seen, gasUsed: nat, refunded: nat): (t: Telemetry) {
    Telemetry(gasUsed, refunded, if i.stepped then i.maxCommitted else 0, i.movedAll, i.callWithValue)
  }

  function SatAdd64(a: nat, b: nat): (r: nat) {
    Least(a + b, MAX64)
  }

  /** The estimate before it is clamped to the cap. */
  function Unclamped(t: Telemetry): (e: nat) {
    var base := Most(if t.movedAll then SatAdd64(t.gasUsed, t.refunded) else t.maxCommitted, t.gasUsed);
    if t.callWithValue then SatAdd64(base, STIPEND_CALL) else base
  }

  function Estimate(t: Telemetry, cap: nat): (e: nat) {
    Least(Unclamped(t), cap)
  }

  /** What measuring one execution reports. The root frame runs on what the intrinsic cost leaves of the cap. */
  function Measure(code: Code, cap: nat, intrinsic: nat, refunded: nat, value: bool): (t: Telemetry)
    requires intrinsic <= cap && Run(code, cap - intrinsic).Some?
  {
    var limit := cap - intrinsic;
    var seen := Watch(NOTHING_SEEN, Transaction(value, limit, TraceOf(code, limit)));
    IntoTelemetry(seen, intrinsic + Used(code), refunded)
  }

  lemma {:induction false} MeasureMeans(code: Code, cap: nat, intrinsic: nat, refunded: nat, value: bool)
    requires intrinsic <= cap && Run(code, cap - intrinsic).Some?
    ensures Measure(code, cap, intrinsic, refunded, value)
         == Telemetry(intrinsic + Used(code), refunded, Commit(code, cap - intrinsic),
                      GivesAll(code, cap - intrinsic), MovesValue(code))
  {
    hide Run, Watch, Peak, DeepPeak, Commit, GivesAll, MovesValue, Bracketed, Stepped, ValueBelow, HandedOver, Events;
    var limit := cap - intrinsic;
    TraceMeans(code, limit, limit, None, None);
    InspectorIsExact(value, limit, TraceOf(code, limit));
    RootPeakDominates(TraceOf(code, limit), limit);
  }

  /** A transaction that runs no code, with or without value, is estimated at what it spends. */
  lemma {:induction false} PlainTransferEstimate(value: bool, limit: nat, gasUsed: nat, refunded: nat, cap: nat)
    ensures var seen := Watch(NOTHING_SEEN, Transaction(value, limit, Done));
            Estimate(IntoTelemetry(seen, gasUsed, refunded), cap) == Least(gasUsed, cap)
  {
    hide Watch, Transaction;
    InspectorIsExact(value, limit, Done);
  }

  /**
   Re-running at any limit from the estimate up to the cap succeeds and spends exactly what the measuring run spent,
   whether or not everything was handed over and whatever the intrinsic cost.
   */
  lemma {:induction false} EstimateIsSound(code: Code, cap: nat, intrinsic: nat, refunded: nat, value: bool, limit: nat)
    requires intrinsic <= cap <= MAX64 && Run(code, cap - intrinsic).Some?
    requires Estimate(Measure(code, cap, intrinsic, refunded, value), cap) <= limit <= cap
    ensures intrinsic <= limit && Run(code, limit - intrinsic) == Some(limit - intrinsic - Used(code))
  {
    hide Run, Used, Commit, GivesAll, MovesValue, Need, Feasible, Measure;
    MeasureMeans(code, cap, intrinsic, refunded, value);
    RunIff(code, cap - intrinsic);
    UsedWithinNeed(code);
    assert intrinsic + Used(code) <= limit;
    RunIff(code, limit - intrinsic);
  }

  // ----- what the peak guarantees beyond success

  /** A smaller limit at which every frame succeeds on the very allowance it had at the larger one. */
  predicate SameRun(code: Code, gas: nat, limit: nat)
    requires Run(code, gas).Some?
  {
    Run(code, limit).Some? && Allowances(code, limit) == Allowances(code, gas)
  }

  /** The peak never exceeds what the frame was given, and reaches it exactly where everything is handed over. */
  lemma {:induction false} CommitWithin(code: Code, gas: nat)
    requires Run(code, gas).Some?
    ensures Commit(code, gas) <= gas
    ensures GivesAll(code, gas) ==> Commit(code, gas) == gas
    decreases code
  {
    hide Run, TraceOf, Commit, GivesAll, MovesValue, Used, Allowances, Need, Feasible;
    match code
    case Stop => StopShape(gas);
    case Spend(cost, next) =>
      SpendShape(code, gas);
      CommitWithin(next, gas - cost);
    case Call(cost, requested, transfers, callee, next) =>
      CallShape(code, gas);
      var allowance := Least(gas - cost, requested + Stipend(transfers));
      RunIff(callee, allowance);
      CommitWithin(next, gas - cost - allowance + Run(callee, allowance).value);
    case Create(cost, _, init, next) =>
      CreateShape(code, gas);
      RunIff(init, gas - cost);
      CommitWithin(next, Run(init, gas - cost).value);
  }

  /** A frame that hands everything over somewhere hands over less there on any smaller limit. */
  lemma {:induction false} HandedOverShrinks(code: Code, gas: nat, limit: nat)
    requires Run(code, gas).Some? && GivesAll(code, gas) && limit < gas
    ensures !SameRun(code, gas, limit)
    decreases code, 1
  {
    hide Run, TraceOf, Commit, GivesAll, MovesValue, Used, Allowances, Need, Feasible;
    if Run(code, limit).Some? {
      match code
      case Stop => StopShape(gas);
      case Spend(cost, next) =>
        SpendShape(code, gas);
        SpendShape(code, limit);
        HandedOverShrinks(next, gas - cost, limit - cost);
      case Call(_, _, _, _, _) => HandedOverShrinksCall(code, gas, limit);
      case Create(cost, _, _, _) =>
        CreateShape(code, gas);
        CreateShape(code, limit);
        assert Allowances(code, gas)[0] == gas - cost && Allowances(code, limit)[0] == limit - cost;
    }
  }

  lemma {:induction false} HandedOverShrinksCall(code: Code, gas: nat, limit: nat)
    requires code.Call? && Run(code, gas).Some? && GivesAll(code, gas) && limit < gas && Run(code, limit).Some?
    ensures Allowances(code, limit) != Allowances(code, gas)
    decreases code, 0
  {
    hide Run, TraceOf, Commit, GivesAll, MovesValue, Used, Allowances, Need, Feasible;
    var Call(cost, requested, transfers, callee, next) := code;
    var asked := requested + Stipend(transfers);
    CallShape(code, gas);
    CallShape(code, limit);
    FirstAllowance(code, gas);
    FirstAllowance(code, limit);
    if limit - cost >= asked {
      var back := Run(callee, asked).value;
      HandedOverShrinks(next, gas - cost - asked + back, limit - cost - asked + back);
      AllowancesCall(code, gas, limit, asked);
    }
  }

  /**
   The peak is exactly the smallest limit of the root frame at which every callee receives the allowance it was measured
   with. (Where everything is handed over, that is the limit it was measured at.)
   */
  lemma {:induction false} PeakIsLeast(code: Code, gas: nat, limit: nat)
    requires Run(code, gas).Some? && limit <= gas
    ensures SameRun(code, gas, limit) <==> Commit(code, gas) <= limit
  {
    hide Run, Commit, GivesAll, Allowances;
    CommitWithin(code, gas);
    if !GivesAll(code, gas) {
      PeakIsLeastKept(code, gas, limit);
    } else if limit < gas {
      HandedOverShrinks(code, gas, limit);
    }
  }

  lemma {:induction false} PeakIsLeastKept(code: Code, gas: nat, limit: nat)
    requires Run(code, gas).Some? && !GivesAll(code, gas) && limit <= gas
    ensures SameRun(code, gas, limit) <==> Commit(code, gas) <= limit
    decreases code, 1
  {
    match code
    case Stop =>
    case Spend(cost, next) =>
      if limit >= cost { PeakIsLeastKept(next, gas - cost, limit - cost); }
    case Call(_, _, _, _, _) => PeakIsLeastCall(code, gas, limit);
    case Create(_, _, _, _) => assert false;
  }

  lemma {:induction false} PeakIsLeastCall(code: Code, gas: nat, limit: nat)
    requires code.Call? && Run(code, gas).Some? && !GivesAll(code, gas) && limit <= gas
    ensures SameRun(code, gas, limit) <==> Commit(code, gas) <= limit
    decreases code, 0
  {
    hide Used, Run, Commit, GivesAll, Allowances, TraceOf, MovesValue, Need, Feasible;
    var Call(cost, requested, transfers, callee, next) := code;
    var allowance := requested + Stipend(transfers);
    CallForms(code, gas);
    CallForms(code, limit);
    CallShape(code, gas);
    RunIff(callee, allowance);
    var tail := Run(callee, allowance).value;
    if limit >= cost + allowance {
      PeakIsLeastKept(next, gas - cost - allowance + tail, limit - cost - allowance + tail);
      if Run(code, limit).Some? {
        AllowancesCall(code, gas, limit, allowance);
      }
    } else if Run(code, limit).Some? {
      FirstAllowance(code, gas);
      FirstAllowance(code, limit);
    }
  }

  lemma {:induction false} FirstAllowance(code: Code, gas: nat)
    requires code.Call? && Run(code, gas).Some?
    ensures gas >= code.cost
    ensures Allowances(code, gas) != []
            && Allowances(code, gas)[0] == Least(gas - code.cost, code.requested + Stipend(code.transfers))
  {
    hide Run, TraceOf, Commit, GivesAll, MovesValue, Used, Allowances, Need, Feasible;
    CallShape(code, gas);
  }

  lemma {:induction false} AllowancesCall(code: Code, gas: nat, limit: nat, allowance: nat)
    requires code.Call? && Run(code, gas).Some? && Run(code, limit).Some?
             && allowance == code.requested + Stipend(code.transfers)
    requires gas - code.cost >= allowance && limit - code.cost >= allowance
    ensures var back := Run(code.callee, allowance).value;
            Allowances(code, gas) == Allowances(code, limit) <==>
            Allowances(code.next, gas - code.cost - allowance + back) ==
                Allowances(code.next, limit - code.cost - allowance + back)
  {
    hide Run, TraceOf, Commit, GivesAll, MovesValue, Used, Allowances, Need, Feasible;
    CallShape(code, gas);
    CallShape(code, limit);
    var back := Run(code.callee, allowance).value;
    var front := [allowance] + Allowances(code.callee, allowance);
    var x, y := Allowances(code.next, gas - code.cost - allowance + back),
        Allowances(code.next, limit - code.cost - allowance + back);
    assert Allowances(code, gas) == front + x && Allowances(code, limit) == front + y;
    assert x == (front + x)[|front|..] && y == (front + y)[|front|..];
  }

  lemma {:induction false} CommitCoversUse(code: Code, gas: nat)
    requires Run(code, gas).Some?
    ensures Used(code) <= Commit(code, gas)
    decreases code
  {
    hide Run, TraceOf, Commit, GivesAll, MovesValue, Used, Allowances, Need, Feasible;
    match code
    case Stop => StopShape(gas);
    case Spend(cost, next) =>
      SpendShape(code, gas);
      CommitCoversUse(next, gas - cost);
    case Call(cost, requested, transfers, callee, next) =>
      CallShape(code, gas);
      var allowance := Least(gas - cost, requested + Stipend(transfers));
      CommitCoversUse(next, gas - cost - allowance + Run(callee, allowance).value);
    case Create(cost, _, init, next) =>
      CreateShape(code, gas);
      CommitCoversUse(next, Run(init, gas - cost).value);
  }

  /** What a value-moving tree is given on top. */
  function Slack(code: Code): (r: nat) {
    if MovesValue(code) then STIPEND_CALL else 0
  }

  /** The intrinsic cost left out of the peak does not show: the slack makes up for it, or use is the larger figure. */
  predicate Covered(code: Code, cap: nat, intrinsic: nat)
    requires intrinsic <= cap && Run(code, cap - intrinsic).Some?
  {
    intrinsic <= Slack(code) || Commit(code, cap - intrinsic) <= Used(code) + Slack(code)
  }

  /**
   Over every tree: the estimate preserves every allowance exactly when it reaches the cap, or nothing is handed over
   whole and the intrinsic cost is covered: the peak is measured against the root frame's own limit, and that cost is
   not added back to it. Where something is handed over whole, only the cap itself will do.
   */
  lemma {:induction false} EstimateKeepsAllowancesIff(code: Code, cap: nat, intrinsic: nat, refunded: nat, value: bool)
    requires intrinsic <= cap <= MAX64 && Run(code, cap - intrinsic).Some?
    ensures var t := Measure(code, cap, intrinsic, refunded, value);
            var e := Estimate(t, cap);
            && intrinsic <= e
            && (SameRun(code, cap - intrinsic, e - intrinsic) <==>
                Unclamped(t) >= cap || (!t.movedAll && Covered(code, cap, intrinsic)))
  {
    hide Run, Used, Commit, GivesAll, MovesValue, Measure, SameRun;
    MeasureMeans(code, cap, intrinsic, refunded, value);
    var e := Estimate(Measure(code, cap, intrinsic, refunded, value), cap);
    UsedWithin(code, cap - intrinsic);
    CommitCoversUse(code, cap - intrinsic);
    CommitWithin(code, cap - intrinsic);
    PeakIsLeast(code, cap - intrinsic, e - intrinsic);
  }

  lemma {:induction false} UsedWithin(code: Code, gas: nat)
    requires Run(code, gas).Some?
    ensures Used(code) <= gas
  {
    RunIff(code, gas);
  }

  /**
   How far above what the run spent the estimate lies, within the cap: by the refund where something is handed over
   whole, and elsewhere by what the smallest limit that keeps every allowance exceeds the spending; in both cases by one
   stipend more where value moves.
   */
  lemma {:induction false} EstimateDistance(code: Code, cap: nat, intrinsic: nat, refunded: nat, value: bool, kept: nat)
    requires intrinsic <= cap <= MAX64 && Run(code, cap - intrinsic).Some?
    requires kept <= cap - intrinsic && SameRun(code, cap - intrinsic, kept)
    requires kept > 0 ==> !SameRun(code, cap - intrinsic, kept - 1)
    ensures var spent := intrinsic + Used(code);
            var e := Estimate(Measure(code, cap, intrinsic, refunded, value), cap);
            var slack := if MovesValue(code) then 2_300 else 0;
            && spent <= cap
            && e == Least(cap, spent + slack + if GivesAll(code, cap - intrinsic) then refunded
                                               else if kept > spent then kept - spent else 0)
  {
    hide Run, Used, Commit, GivesAll, MovesValue, Measure, SameRun;
    MeasureMeans(code, cap, intrinsic, refunded, value);
    UsedWithin(code, cap - intrinsic);
    PeakIsLeast(code, cap - intrinsic, kept);
    if kept > 0 {
      PeakIsLeast(code, cap - intrinsic, kept - 1);
    }
  }

  // ----- how close the estimate comes to the smallest limit

  /** The smallest limit at which the transaction succeeds. */
  function LeastLimit(code: Code, intrinsic: nat): (l: nat) {
    intrinsic + Need(code)
  }

  lemma {:induction false} LeastLimitIff(code: Code, intrinsic: nat, limit: nat)
    requires Feasible(code) && intrinsic <= limit
    ensures Run(code, limit - intrinsic).Some? <==> LeastLimit(code, intrinsic) <= limit
  {
    RunIff(code, limit - intrinsic);
  }

  /** The need is the use and the whole slack, and the figure the estimate starts from is the use. */
  predicate Tight(code: Code, t: Telemetry) {
    && Need(code) == Used(code) + Slack(code)
    && if t.movedAll then t.refunded == 0 else t.maxCommitted <= t.gasUsed
  }

  /**
   The estimate is never below the smallest limit, and is it exactly when the cap is, or when the last stipend is needed
   in full and neither the peak nor a refund lifts the estimate above the gas used.
   */
  lemma {:induction false} EstimateIsLeastIff(code: Code, cap: nat, intrinsic: nat, refunded: nat, value: bool)
    requires intrinsic <= cap <= MAX64 && Run(code, cap - intrinsic).Some?
    ensures var t := Measure(code, cap, intrinsic, refunded, value);
            && LeastLimit(code, intrinsic) <= Estimate(t, cap)
            && (Estimate(t, cap) == LeastLimit(code, intrinsic) <==>
                cap == LeastLimit(code, intrinsic) || Tight(code, t))
  {
    hide Run, Used, Commit, GivesAll, MovesValue, Measure, Need, Feasible;
    MeasureMeans(code, cap, intrinsic, refunded, value);
    RunIff(code, cap - intrinsic);
    UsedWithinNeed(code);
  }

  const GENEROUS := Call(700, 100_000, false, Stop, Stop)

  lemma {:induction false} GenerousRuns(gas: nat)
    requires gas >= 700
    ensures Run(GENEROUS, gas) == Some(gas - 700) && Allowances(GENEROUS, gas) == [Least(gas - 700, 100_000)]
    ensures gas > 100_700 ==> Commit(GENEROUS, gas) == 100_700 && !GivesAll(GENEROUS, gas)
    ensures Used(GENEROUS) == 700 && !MovesValue(GENEROUS)
  {
    var allowance := Least(gas - 700, 100_000);
    assert Run(Stop, allowance) == Some(allowance) && Run(Stop, gas - 700) == Some(gas - 700);
    assert Allowances(Stop, allowance) == [] && Allowances(Stop, gas - 700) == [];
    assert Commit(Stop, gas - 700) == 0 && !GivesAll(Stop, gas - 700) && Used(Stop) == 0 && !MovesValue(Stop);
  }

  /**
   A call that asks for 100,000 and uses none of it, under an intrinsic cost of 21,000: at the estimate the callee gets
   less.
   */
  lemma {:induction false} IntrinsicShortfall()
    ensures Run(GENEROUS, 1_000_000).Some?
    ensures var e := Unclamped(Measure(GENEROUS, 1_021_000, 21_000, 0, false));
            && e == 100_700 && Run(GENEROUS, e - 21_000).Some?
            && Allowances(GENEROUS, 1_000_000) == [100_000] && Allowances(GENEROUS, e - 21_000) == [79_000]
  {
    hide Run, Allowances, Commit, GivesAll, Used, MovesValue, Measure, GENEROUS;
    GenerousRuns(1_000_000);
    GenerousRuns(79_700);
    MeasureMeans(GENEROUS, 1_021_000, 21_000, 0, false);
  }

  /** The same call succeeds at 21,700, far below its estimate. */
  lemma {:induction false} EstimateIsNotLeast()
    ensures Run(GENEROUS, 1_000_000).Some?
    ensures LeastLimit(GENEROUS, 21_000) == 21_700 && Run(GENEROUS, 700).Some?
    ensures Estimate(Measure(GENEROUS, 1_021_000, 21_000, 0, false), 1_021_000) == 100_700
  {
    hide Run, Allowances, Commit, GivesAll, Used, MovesValue, Measure, GENEROUS, Need;
    GenerousRuns(1_000_000);
    GenerousRuns(700);
    assert Need(GENEROUS) == 700 by { GenerousNeed(); }
    MeasureMeans(GENEROUS, 1_021_000, 21_000, 0, false);
  }

  lemma {:induction false} GenerousNeed()
    ensures Need(GENEROUS) == 700
  {
    assert Need(Stop) == 0 && Used(Stop) == 0;
  }
}
