/** `useSafeDispatch` and the run function `useAsync` returns
    (src/exercise/02.js), as a state machine driven by events.

    React's refs, effects and callback memoisation are abstracted to one
    `mounted` flag (the ref `useSafeDispatch` keeps) next to the reducer
    state. A promise handed to the run function is remembered as a waiting
    call; its settlement is an event of its own that may arrive at any
    later point of the trace, including after the component unmounted. */
module AsyncHook {
  import opened Wrappers
  import opened JsValues
  import opened AsyncReducer

  /** One instance of the hook: the mounted flag, the reducer state, the
      run calls whose promise has not settled yet, and the id the next
      call receives. */
  datatype Machine = Machine(mounted: bool, state: State, waiting: set<nat>, nextCall: nat)

  /** How a promise settled: fulfilled with a value or rejected with a
      reason. */
  datatype Outcome = Fulfilled(value: Value) | Rejected(reason: Value)

  /** What can happen to the hook: the safe-dispatch effect runs or is
      cleaned up, the run function is called with some arguments, or the
      promise of an earlier run call settles. */
  datatype Event =
    | Mount
    | Unmount
    | Run(args: seq<Value>)
    | Settle(call: nat, outcome: Outcome)

  /** What a step can throw: the reducer's unhandled-action error, or the
      TypeError of calling `.then` on a value that has none. */
  datatype Fault = Unhandled(cause: ReducerError) | NotAFunction(receiver: Value)

  /** The machine after a step, and what the step threw, if anything. */
  datatype StepResult = StepResult(machine: Machine, raised: Option<Fault>)

  /** The hook on its first render: the ref starts `false` because the
      effect has not run yet, and no call is waiting. */
  function Start(initial: State): (m: Machine)
    ensures !m.mounted && m.state == initial
    ensures m.waiting == {}
  {
    Machine(false, initial, {}, 0)
  }

  /** The dispatch `useSafeDispatch` returns: forwards the action to the
      reducer while mounted and does nothing otherwise. Only the state can
      change, and only while mounted. */
  function SafeDispatch(m: Machine, a: Action): (r: Result<Machine, ReducerError>)
    ensures !m.mounted ==> r == Ok(m)
    ensures r.Err? <==> m.mounted && !Recognised(a.kind)
    ensures r.Ok? ==> r.value.mounted == m.mounted && r.value.waiting == m.waiting && r.value.nextCall == m.nextCall
    ensures m.mounted && r.Ok? ==> Str(r.value.state.status) == a.kind
    ensures m.mounted ==> (r.Ok? <==> Reduce(m.state, a).Ok?)
    ensures m.mounted && r.Ok? ==> r.value.state == Reduce(m.state, a).value
  {
    if !m.mounted then Ok(m)
    else
      match Reduce(m.state, a)
      case Ok(s) => Ok(m.(state := s))
      case Err(e) => Err(e)
  }

  /** The two callbacks the run function passes to `.then`. */
  function Handler(o: Outcome): (a: Action)
    ensures Recognised(a.kind)
    ensures o.Fulfilled? ==> a.kind == Str(RESOLVED) && a.data == o.value
    ensures o.Rejected? ==> a.kind == Str(REJECTED) && a.error == o.reason
    ensures forall s :: Reduce(s, a) == Ok(SettledState(o))
  {
    match o
    case Fulfilled(v) => ResolvedAction(v)
    case Rejected(e) => RejectedAction(e)
  }

  /** The state a settlement leads to once its action is applied. */
  function SettledState(o: Outcome): State
  {
    match o
    case Fulfilled(v) => State(RESOLVED, v, Null)
    case Rejected(e) => State(REJECTED, Null, e)
  }

  /** The run function called with `args`: nothing without an argument or
      with a falsy one; otherwise `pending` is dispatched and the callbacks
      are attached to the argument, which throws when it has no `then`. */
  function RunCall(m: Machine, args: seq<Value>): (r: StepResult)
    ensures |args| == 0 || !Truthy(args[0]) ==> r == StepResult(m, None)
    ensures r.machine.mounted == m.mounted
    ensures |args| > 0 && Truthy(args[0]) ==>
      r.machine.state == (if m.mounted then State(PENDING, Null, Null) else m.state)
    ensures |args| > 0 && Thenable(args[0]) ==>
      && r.raised == None
      && r.machine.waiting == m.waiting + {m.nextCall}
      && r.machine.nextCall == m.nextCall + 1
    ensures |args| > 0 && Truthy(args[0]) && !Thenable(args[0]) ==>
      && r.raised == Some(NotAFunction(args[0]))
      && r.machine.waiting == m.waiting
      && r.machine.nextCall == m.nextCall
  {
    if |args| == 0 then StepResult(m, None)
    else if !Truthy(args[0]) then StepResult(m, None)
    else
      match SafeDispatch(m, PendingAction())
      case Err(e) => StepResult(m, Some(Unhandled(e)))
      case Ok(m1) =>
        if Thenable(args[0]) then
          StepResult(m1.(waiting := m1.waiting + {m1.nextCall}, nextCall := m1.nextCall + 1), None)
        else
          StepResult(m1, Some(NotAFunction(args[0])))
  }

  /** The promise of run call `call` settles. A promise settles once, so a
      call that is not waiting (settled already, or never made) changes
      nothing; otherwise the matching callback dispatches exactly one
      action through the mounted guard. */
  function SettleCall(m: Machine, call: nat, o: Outcome): (r: StepResult)
    ensures r.raised == None
    ensures call !in m.waiting ==> r.machine == m
    ensures call in m.waiting ==> r.machine.waiting == m.waiting - {call}
    ensures r.machine.mounted == m.mounted && r.machine.nextCall == m.nextCall
    ensures call in m.waiting && m.mounted ==> r.machine.state == SettledState(o)
    ensures !m.mounted ==> r.machine.state == m.state
  {
    if call !in m.waiting then StepResult(m, None)
    else
      var m0 := m.(waiting := m.waiting - {call});
      match SafeDispatch(m0, Handler(o))
      case Err(e) => StepResult(m0, Some(Unhandled(e)))
      case Ok(m1) => StepResult(m1, None)
  }

  /** One event. The only fault a step can raise is the missing `then`:
      the run function and its callbacks dispatch recognised actions only,
      so the reducer's default branch is never reached. While unmounted,
      no event other than `Mount` changes the state. */
  function Step(m: Machine, e: Event): (r: StepResult)
    ensures r.raised.Some? ==> r.raised.value.NotAFunction?
    ensures !m.mounted && !e.Mount? ==> r.machine.state == m.state
    ensures r.machine.state != m.state ==> r.machine.mounted && r.machine.state.status != IDLE
  {
    match e
    case Mount => StepResult(m.(mounted := true), None)
    case Unmount => StepResult(m.(mounted := false), None)
    case Run(args) => RunCall(m, args)
    case Settle(call, o) => SettleCall(m, call, o)
  }

  /** The machine after every event of `t`, in order. */
  function Exec(m: Machine, t: seq<Event>): Machine
    decreases |t|
  {
    if |t| == 0 then m else Exec(Step(m, t[0]).machine, t[1..])
  }
}
