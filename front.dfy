/** The user-facing pieces of a transition table: events, guards and
    actions with their combinators, and the transition record itself
    together with what firing it does. */
module Front {
  import opened Mp

  /** The C++ type of an event; transitions are grouped by it. */
  type EventKind = nat

  /** An event value: its type and the data a guard or action may read. */
  datatype Event = Event(kind: EventKind, payload: int)

  /** What running user code leaves behind, in the order it happened:
      a user guard was asked, or a user action ran, on an event. */
  datatype Effect = Checked(guard: nat, event: Event) | Ran(action: nat, event: Event)

  /** A guard: `detail::always`, a user predicate (a callable that takes no
      argument is one whose predicate ignores the event), or a combination
      built with `and`, `or`, `not`. */
  datatype Guard =
    | Always
    | Check(id: nat, pred: Event -> bool)
    | And(lhs: Guard, rhs: Guard)
    | Or(lhs: Guard, rhs: Guard)
    | Not(operand: Guard)

  /** An action: `detail::none`, a user callable, or two actions joined by
      the comma operator. */
  datatype Action =
    | NoAction
    | Act(id: nat)
    | Then(first: Action, second: Action)

  /** The truth of a guard, leaving evaluation order aside. */
  predicate Holds(g: Guard, e: Event) {
    match g
    case Always => true
    case Check(_, pred) => pred(e)
    case And(l, r) => Holds(l, e) && Holds(r, e)
    case Or(l, r) => Holds(l, e) || Holds(r, e)
    case Not(t) => !Holds(t, e)
  }

  /** The result of invoking a guard and the user guards it asked, in order. */
  datatype Verdict = Verdict(holds: bool, effects: seq<Effect>)

  /** `invoke(guard, event)`: `and` stops after a false left side, `or`
      after a true one, `not` negates. Its answer is the guard's truth and
      it runs no action. */
  function EvalGuard(g: Guard, e: Event): (v: Verdict)
    ensures v.holds == Holds(g, e)
    ensures ActionsOf(v.effects) == []
  {
    match g
    case Always => Verdict(true, [])
    case Check(id, pred) => Verdict(pred(e), [Checked(id, e)])
    case And(l, r) =>
      var a := EvalGuard(l, e);
      if !a.holds then a
      else var b := EvalGuard(r, e); ActionsOfConcat(a.effects, b.effects); Verdict(b.holds, a.effects + b.effects)
    case Or(l, r) =>
      var a := EvalGuard(l, e);
      if a.holds then a
      else var b := EvalGuard(r, e); ActionsOfConcat(a.effects, b.effects); Verdict(b.holds, a.effects + b.effects)
    case Not(t) =>
      var a := EvalGuard(t, e);
      Verdict(!a.holds, a.effects)
  }

  /** The user actions an action calls, left to right. */
  function Callees(a: Action): seq<nat> {
    match a
    case NoAction => []
    case Act(id) => [id]
    case Then(first, second) => Callees(first) + Callees(second)
  }

  /** `invoke(action, event)`: every user action it holds runs once, left
      to right, on the event, and nothing but actions runs. */
  function RunAction(a: Action, e: Event): (r: seq<Effect>)
    ensures ActionsOf(r) == r
    ensures |r| == |Callees(a)|
  {
    match a
    case NoAction => []
    case Act(id) => [Ran(id, e)]
    case Then(first, second) =>
      var x, y := RunAction(first, e), RunAction(second, e);
      ActionsOfConcat(x, y);
      x + y
  }

  /** The k-th effect of an action is its k-th user action running on the event. */
  lemma {:induction false} RunActionCalls(a: Action, e: Event, k: nat)
    requires k < |Callees(a)|
    ensures RunAction(a, e)[k] == Ran(Callees(a)[k], e)
  {
    match a
    case Act(_) =>
    case Then(first, second) =>
      if k < |Callees(first)| {
        RunActionCalls(first, e, k);
      } else {
        RunActionCalls(second, e, k - |Callees(first)|);
      }
  }

  /** The actions among some effects, in order. */
  function ActionsOf(effects: seq<Effect>): seq<Effect> {
    if effects == [] then []
    else (if effects[0].Ran? then [effects[0]] else []) + ActionsOf(effects[1..])
  }

  lemma {:induction false} ActionsOfConcat(a: seq<Effect>, b: seq<Effect>)
    ensures ActionsOf(a + b) == ActionsOf(a) + ActionsOf(b)
    decreases |a|
  {
    if a == [] {
      assert a + b == b;
    } else {
      assert (a + b)[1..] == a[1..] + b;
      ActionsOfConcat(a[1..], b);
    }
  }

  /** `and` with a false left side does not invoke its right side. */
  lemma AndShortCircuits(l: Guard, r: Guard, e: Event)
    requires !Holds(l, e)
    ensures EvalGuard(And(l, r), e) == EvalGuard(l, e)
    ensures !EvalGuard(And(l, r), e).holds
  {
  }

  /** `or` with a true left side does not invoke its right side. */
  lemma OrShortCircuits(l: Guard, r: Guard, e: Event)
    requires Holds(l, e)
    ensures EvalGuard(Or(l, r), e) == EvalGuard(l, e)
    ensures EvalGuard(Or(l, r), e).holds
  {
  }

  /** Otherwise `and` and `or` invoke both sides, left first, and answer
      with the right side. */
  lemma BothSidesEvaluated(l: Guard, r: Guard, e: Event)
    ensures Holds(l, e) ==>
      EvalGuard(And(l, r), e) == Verdict(Holds(r, e), EvalGuard(l, e).effects + EvalGuard(r, e).effects)
    ensures !Holds(l, e) ==>
      EvalGuard(Or(l, r), e) == Verdict(Holds(r, e), EvalGuard(l, e).effects + EvalGuard(r, e).effects)
  {
  }

  /** `not` negates and asks exactly what its operand asks. */
  lemma NotNegates(g: Guard, e: Event)
    ensures EvalGuard(Not(g), e) == Verdict(!EvalGuard(g, e).holds, EvalGuard(g, e).effects)
  {
  }

  /** The comma operator always runs both actions, the left one first. */
  lemma CommaRunsBoth(a: Action, b: Action, e: Event)
    ensures RunAction(Then(a, b), e) == RunAction(a, e) + RunAction(b, e)
    ensures Callees(Then(a, b)) == Callees(a) + Callees(b)
  {
  }

  /** A row of the transition table. `dst` of size 0 is an internal
      transition. */
  datatype Transition = Transition(
    src: FixedString,
    event: EventKind,
    guard: Guard,
    action: Action,
    dst: FixedString)

  /** The outcome of trying a transition in some state. */
  datatype Fired = Fired(fired: bool, state: bv32, effects: seq<Effect>)

  /** The state a transition leaves behind when it fires. */
  function Target(t: Transition, state: bv32): bv32 {
    if t.dst.Size() > 0 then t.dst.hash else state
  }

  /** `transition::operator()`: invokes the guard; only if it holds, runs
      the action once and, unless the destination is empty, moves to it. */
  function Fire(t: Transition, e: Event, state: bv32): (f: Fired)
    ensures f.fired == Holds(t.guard, e)
    ensures ActionsOf(f.effects) == if f.fired then RunAction(t.action, e) else []
    ensures f.state == if f.fired && t.dst.Size() > 0 then t.dst.hash else state
  {
    var v := EvalGuard(t.guard, e);
    if v.holds then
      var acts := RunAction(t.action, e);
      ActionsOfConcat(v.effects, acts);
      Fired(true, Target(t, state), v.effects + acts)
    else
      Fired(false, state, v.effects)
  }
}
