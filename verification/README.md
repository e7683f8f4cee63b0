# Async request state machine of the `useAsync` exercise

This project models the core of `src/exercise/02.js`, an exercise from a React
custom-hooks workshop, in Dafny. It covers:

- `pokemonInfoReducer`: a pure reducer over the record `{status, data, error}`.
  It knows three actions (`pending`, `resolved`, `rejected`) and throws
  `Unhandled action type` for any other.
- `useSafeDispatch`: a wrapper that forwards a dispatch only while a "mounted"
  ref is true.
- `useAsync`: builds the initial state `{status: 'idle', data: null, error: null, ...defaultValue}`.
  It returns a run function that ignores a missing or falsy argument. Otherwise it
  dispatches `pending` and attaches `resolved`/`rejected` dispatches to the
  promise.
- `PokemonInfo`'s switch on `status`, including its "This should be impossible"
  branch.

The model has these modules:

- `JsValues` (`js_values.dfy`): the JavaScript values involved and their truthiness.
- `AsyncReducer` (`reducer.dfy`): the state, the actions, the reducer and the
  initial state.
- `AsyncHook` (`async_hook.dfy`): the hook as a state machine. A `Machine` holds
  the mounted flag, the reducer state and the run calls whose promise has not
  settled. It steps over the events `Mount`, `Unmount`, `Run(args)` and
  `Settle(call, outcome)`. A promise settling is an event of its own, so it can
  come at any later point, including after an unmount.
- `HookTraces` (`traces.dfy`): invariants over arbitrary event traces.
- `PokemonInfo` (`pokemon_info.dfy`): the render switch and lifecycle scenarios.

A stronger reading of the state's shape does not hold of the code: "once
settled, exactly one of `data`/`error` is non-null". The reducer copies
`action.data` and `action.error` verbatim, so a promise fulfilled with `null`
gives `resolved` with both fields null. `AsyncReducer.DispatchedActionsRecognised`
with `v := Null` shows this. The model follows the code. What the code does
guarantee, and what is proved, is that the two are never both non-null.

## Model

| member | source | states |
|---|---|---|
| JsValues.FalsyValues | src/exercise/02.js:58-61 | the values the run function's `!arguments[0]` test rejects are exactly undefined, null, false, 0, NaN and the empty string |
| AsyncReducer.Reduce | src/exercise/02.js:27-45 | the reducer succeeds exactly on the three recognised action types and otherwise throws the unhandled-type error naming the type; on success the status names the action, the state is consistent (never both data and error, both null when pending), a resolved state carries the action's data and a rejected one its error, and the status is never idle |
| AsyncReducer.ReduceIgnoresState | src/exercise/02.js:27-45 | the next state depends on the action alone, never on the previous state |
| AsyncReducer.ReduceIdempotent | src/exercise/02.js:27-45 | applying a recognised action twice equals applying it once |
| AsyncReducer.DispatchedActionsRecognised | src/exercise/02.js:62-70 | the `pending`, `resolved(data)` and `rejected(error)` actions the run function builds lead to pending with both fields null, resolved with the data and a null error, and rejected with the error and null data, from any state |
| AsyncReducer.InitialState | src/exercise/02.js:48-53 | the initial state takes each field from the `defaultValue` spread when present, else idle/null/null |
| AsyncReducer.InitialIdleIff | src/exercise/02.js:48-53 | the spread gives the idle state exactly when every override agrees with the default, and that state is consistent |
| AsyncHook.Start | src/exercise/02.js:15-15 | before the effect runs the mounted ref is false; the state is the initial one and no call is waiting |
| AsyncHook.SafeDispatch | src/exercise/02.js:14-25 | unmounted, the dispatch is a no-op; mounted, it fails exactly when the reducer does and otherwise the new state is the reducer's result for the whole action (status, data and error); the mounted flag and the waiting calls never change |
| AsyncHook.Handler | src/exercise/02.js:63-70 | fulfilment dispatches `resolved` carrying the value and rejection dispatches `rejected` carrying the reason; from any state the reducer turns that action into the matching settled state |
| AsyncHook.RunCall | src/exercise/02.js:56-73 | with no argument or a falsy one nothing changes and nothing is thrown; with a truthy one the state becomes pending while mounted (and stays as it was otherwise); a promise registers exactly one new waiting call; a truthy non-thenable throws the missing-`then` TypeError after the dispatch |
| AsyncHook.SettleCall | src/exercise/02.js:63-70 | settling a waiting call removes it and, while mounted, sets the state to resolved-with-value or rejected-with-reason; a call that is not waiting changes nothing; while unmounted the state never changes |
| AsyncHook.Step | src/exercise/02.js:14-75 | no event ever reaches the reducer's unhandled-type branch; while unmounted only `Mount` can matter to the state; any state change happens while mounted and leaves a non-idle status |
| HookTraces.StepPreservesInv | src/exercise/02.js:27-45 | one event keeps the state consistent and every waiting call id below the next one |
| HookTraces.ExecPreservesInv | src/exercise/02.js:27-53 | from a consistent start, every trace keeps data and error never both non-null and the status one of idle/pending/resolved/rejected |
| HookTraces.RunAddsOneWaitingCall | src/exercise/02.js:62-70 | under the invariant, the next call id is unused, so each run call with a promise attaches exactly one new pair of callbacks |
| HookTraces.ExecNeverIdleAgain | src/exercise/02.js:27-45 | once the status has left idle, no trace brings it back |
| HookTraces.AppliedLeavesIdle | src/exercise/02.js:56-70 | an event that applies an action (run with a truthy argument or settlement of a waiting call, while mounted) leaves a consistent, non-idle state |
| HookTraces.ExecIdleOnlyBeforeFirstAction | src/exercise/02.js:27-53 | if any event of a trace applied an action, the trace ends in a non-idle status |
| HookTraces.UnmountedFreezesState | src/exercise/02.js:22-24 | while unmounted and until a remount, no run call or settlement changes the state |
| HookTraces.AfterUnmountStateFrozen | src/exercise/02.js:16-23 | after an unmount, any later events short of a remount, late settlements included, leave the state as it was |
| HookTraces.RunThenSettle | src/exercise/02.js:62-70 | mounted, running with a promise dispatches pending at once; settling that call dispatches exactly the matching resolved/rejected action; a second settlement of the same call changes nothing |
| PokemonInfo.Render | src/exercise/02.js:94-105 | rendering throws exactly for rejected (rethrowing the stored error) or an unknown status (the impossible error); idle shows the submit prompt, pending shows the fallback for the given name, and the data view appears exactly for resolved and shows the stored data |
| PokemonInfo.Initial | src/exercise/02.js:78-80 | the component's `{status: 'idle'}` default gives the idle, unmounted, invariant-satisfying start |
| PokemonInfo.ImpossibleBranchUnreachable | src/exercise/02.js:94-105 | after any trace from the component's start, rendering never takes the "This should be impossible" branch |
| PokemonInfo.LookupSucceeds | src/exercise/02.js:77-105 | mount, run, fulfil: the render goes prompt, then fallback with the name, then data view of the payload |
| PokemonInfo.LookupFails | src/exercise/02.js:99-100 | mount, run, reject: the render throws the rejection reason |
| PokemonInfo.LookupSettlesAfterUnmount | src/exercise/02.js:14-25 | a lookup settling after unmount leaves the component pending |

## Left out

- React runtime: refs, effect scheduling (the guard's effect re-runs after every render, which nets out to "true while mounted"), `useCallback` identity and re-rendering. These are abstracted to the mounted flag and the state record.
- React's dispatch queue: a dispatched action is applied at once. React runs the reducer later and would raise its error during render. Here that error is a step fault, and it is proved never to occur.
- Promise asynchrony: each settlement is an explicit event. The outcomes of two run calls given the same promise are not forced to agree, so the model allows more traces than the program.
- Thenables other than native promises: a truthy object is either a native promise, which settles once, or has no `then`. A custom thenable that calls its callbacks more than once is not modelled. JavaScript numbers are integers plus `NaN`. Negative zero and big-integer zero are not modelled.
- AsyncReducer.InitialState: the `...defaultValue` spread is modelled for the three known keys with string/value overrides only; extra keys and non-string statuses are not modelled.
- The error message text `Unhandled action type: ...`: the error carries the offending type value instead of the formatted string. `PokemonInfo.Render`'s "This should be impossible" error is the constant `ImpossibleStatus`, without its message text.
- The effect in `PokemonInfo` (src/exercise/02.js:83-92): its empty-name guard and the `setTimeout`/`clearTimeout` that schedules the run call. This is timer plumbing; the model takes the run call itself as an event.
- `fetchPokemon`, `PokemonForm`, `PokemonDataView`, `PokemonInfoFallback` and `PokemonErrorBoundary`: network and UI code imported from `../pokemon`, which is not part of this model.
- The JSX of `App` and `AppWithUnmountCheckbox` (src/exercise/02.js:108-148): form state and rendering only.
- Remounting: `Unmount` models the component unmounting, for example when the checkbox of `AppWithUnmountCheckbox` (src/exercise/02.js:145) is cleared. A `Mount` after an `Unmount` on the same machine stands for the guard's effect re-running on the same instance. A real remount creates a new instance with a fresh ref and a fresh idle state, which is a fresh `PokemonInfo.Initial()`. The model therefore admits extra traces that the program cannot produce: a settlement from before an unmount that lands after a later `Mount` on the same machine. The trace lemmas are safety properties, so these extra traces only make them stronger.
- The unmount of `PokemonInfo` that follows when `PokemonErrorBoundary` catches the error rethrown at src/exercise/02.js:100 is not modelled as an event of its own. It would be an `Unmount`.
- `src/exercise/03.js`: a counter kept in `useState` and shared through React context, with a null-context error. It has no logic of its own.
