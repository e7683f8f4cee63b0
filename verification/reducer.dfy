/** `pokemonInfoReducer` and the initial state `useAsync` hands to
    `React.useReducer` (src/exercise/02.js). */
module AsyncReducer {
  import opened Wrappers
  import opened JsValues

  const IDLE: string := "idle"
  const PENDING: string := "pending"
  const RESOLVED: string := "resolved"
  const REJECTED: string := "rejected"

  /** The reducer's record `{status, data, error}`. */
  datatype State = State(status: string, data: Value, error: Value)

  /** A dispatched action `{type, data, error}`; a field the object literal
      leaves out reads as `Undefined`. */
  datatype Action = Action(kind: Value, data: Value, error: Value)

  /** What the reducer throws: `Error("Unhandled action type: " + type)`. */
  datatype ReducerError = UnhandledActionType(kind: Value)

  /** The three actions `useAsync` dispatches. */
  function PendingAction(): Action
  {
    Action(Str(PENDING), Undefined, Undefined)
  }

  function ResolvedAction(data: Value): Action
  {
    Action(Str(RESOLVED), data, Undefined)
  }

  function RejectedAction(error: Value): Action
  {
    Action(Str(REJECTED), Undefined, error)
  }

  /** The action types the reducer's switch has a case for. */
  predicate Recognised(kind: Value)
  {
    kind in {Str(PENDING), Str(RESOLVED), Str(REJECTED)}
  }

  /** The statuses the component's render switch has a case for. */
  predicate KnownStatus(status: string)
  {
    status in {IDLE, PENDING, RESOLVED, REJECTED}
  }

  /** The shape every state the reducer produces has: a known status, never
      both a payload and an error, neither while idle or pending, no error
      once resolved and no payload once rejected. */
  predicate Consistent(s: State)
  {
    && KnownStatus(s.status)
    && (s.data == Null || s.error == Null)
    && ((s.status == IDLE || s.status == PENDING) ==> s.data == Null && s.error == Null)
    && (s.status == RESOLVED ==> s.error == Null)
    && (s.status == REJECTED ==> s.data == Null)
  }

  /** `pokemonInfoReducer(state, action)`: the next state, or the error the
      default branch throws. The previous state is never consulted. */
  function Reduce(s: State, a: Action): (r: Result<State, ReducerError>)
    ensures r.Ok? <==> Recognised(a.kind)
    ensures r.Err? ==> r.error == UnhandledActionType(a.kind)
    ensures r.Ok? ==> Str(r.value.status) == a.kind && r.value.status != IDLE
    ensures r.Ok? ==> Consistent(r.value)
    ensures r.Ok? && a.kind == Str(RESOLVED) ==> r.value.data == a.data
    ensures r.Ok? && a.kind == Str(REJECTED) ==> r.value.error == a.error
  {
    if a.kind == Str(PENDING) then Ok(State(PENDING, Null, Null))
    else if a.kind == Str(RESOLVED) then Ok(State(RESOLVED, a.data, Null))
    else if a.kind == Str(REJECTED) then Ok(State(REJECTED, Null, a.error))
    else Err(UnhandledActionType(a.kind))
  }

  /** The next state depends on the action alone. */
  lemma ReduceIgnoresState(s1: State, s2: State, a: Action)
    ensures Reduce(s1, a) == Reduce(s2, a)
  {
  }

  /** Applying the same recognised action twice is the same as applying it
      once. */
  lemma ReduceIdempotent(s: State, a: Action)
    requires Recognised(a.kind)
    ensures Reduce(Reduce(s, a).value, a) == Reduce(s, a)
  {
    ReduceIgnoresState(s, Reduce(s, a).value, a);
  }

  /** Each of the three actions `useAsync` builds is recognised and lands
      in the status of the same name, carrying its payload or error. */
  lemma DispatchedActionsRecognised(s: State, v: Value)
    ensures Reduce(s, PendingAction()) == Ok(State(PENDING, Null, Null))
    ensures Reduce(s, ResolvedAction(v)) == Ok(State(RESOLVED, v, Null))
    ensures Reduce(s, RejectedAction(v)) == Ok(State(REJECTED, Null, v))
  {
  }

  /** The fields of the object spread `...defaultValue`; an absent field
      keeps the hook's default. Keys other than these three are not
      modelled. */
  datatype Overrides = Overrides(status: Option<string>, data: Option<Value>, error: Option<Value>)

  /** The idle state with nothing loaded. */
  function IdleState(): State
  {
    State(IDLE, Null, Null)
  }

  /** `{status: 'idle', data: null, error: null, ...defaultValue}`: every
      field the overrides carry replaces the default, and only those. */
  function InitialState(o: Overrides): (s: State)
    ensures o.status.Some? ==> s.status == o.status.value
    ensures o.data.Some? ==> s.data == o.data.value
    ensures o.error.Some? ==> s.error == o.error.value
    ensures o.status.None? ==> s.status == IdleState().status
    ensures o.data.None? ==> s.data == IdleState().data
    ensures o.error.None? ==> s.error == IdleState().error
  {
    var d := IdleState();
    State(o.status.GetOr(d.status), o.data.GetOr(d.data), o.error.GetOr(d.error))
  }

  /** The spread yields the idle state exactly when every override it
      carries agrees with the default; that state is consistent. */
  lemma InitialIdleIff(o: Overrides)
    ensures InitialState(o) == IdleState() <==>
      && o.status in {None, Some(IDLE)}
      && o.data in {None, Some(Null)}
      && o.error in {None, Some(Null)}
    ensures Consistent(IdleState())
  {
  }
}
