/** The status switch of the `PokemonInfo` component and the hook instance
    it creates (src/exercise/02.js). */
module PokemonInfo {
  import opened Wrappers
  import opened JsValues
  import opened AsyncReducer
  import opened AsyncHook
  import opened HookTraces

  /** What the component renders for a state that does not throw. */
  datatype View =
    | SubmitPrompt
    | Fallback(name: string)
    | DataView(pokemon: Value)

  /** What rendering throws: the rejection reason, rethrown for the
      enclosing error boundary, or the "This should be impossible" error
      of the default branch. */
  datatype Thrown = ThrownValue(value: Value) | ImpossibleStatus

  /** The switch on `status` at the end of `PokemonInfo`. */
  function Render(s: State, pokemonName: string): (r: Result<View, Thrown>)
    ensures r.Err? <==> s.status == REJECTED || !KnownStatus(s.status)
    ensures r == Err(ImpossibleStatus) <==> !KnownStatus(s.status)
    ensures s.status == REJECTED ==> r == Err(ThrownValue(s.error))
    ensures r.Ok? && r.value.DataView? <==> s.status == RESOLVED
    ensures r.Ok? && r.value.DataView? ==> r.value.pokemon == s.data
    ensures s.status == IDLE ==> r == Ok(SubmitPrompt)
    ensures s.status == PENDING ==> r == Ok(Fallback(pokemonName))
  {
    if s.status == IDLE then Ok(SubmitPrompt)
    else if s.status == PENDING then Ok(Fallback(pokemonName))
    else if s.status == REJECTED then Err(ThrownValue(s.error))
    else if s.status == RESOLVED then Ok(DataView(s.data))
    else Err(ImpossibleStatus)
  }

  /** The argument `PokemonInfo` passes to `useAsync`: `{status: 'idle'}`. */
  function Defaults(): Overrides
  {
    Overrides(Some(IDLE), None, None)
  }

  /** The component's hook instance on first render: idle, nothing loaded,
      not yet mounted. */
  function Initial(): (m: Machine)
    ensures m.state == IdleState() && !m.mounted
    ensures Inv(m)
  {
    Start(InitialState(Defaults()))
  }

  /** Whatever happens to the component, the default branch of its render
      switch is never taken. */
  lemma ImpossibleBranchUnreachable(t: seq<Event>, pokemonName: string)
    ensures !Render(Exec(Initial(), t).state, pokemonName).Err?
         || Render(Exec(Initial(), t).state, pokemonName).error.ThrownValue?
  {
    ExecPreservesInv(Initial(), t);
  }

  /** Submitting a name whose lookup succeeds: the component goes from the
      prompt to the fallback to the data view showing the payload. */
  lemma LookupSucceeds(pokemonName: string, p: nat, payload: Value)
    ensures Render(Exec(Initial(), [Mount]).state, pokemonName) == Ok(SubmitPrompt)
    ensures Render(Exec(Initial(), [Mount, Run([Promise(p)])]).state, pokemonName) == Ok(Fallback(pokemonName))
    ensures Render(Exec(Initial(), [Mount, Run([Promise(p)]), Settle(0, Fulfilled(payload))]).state, pokemonName)
         == Ok(DataView(payload))
  {
    ExecSnoc(Initial(), [], Mount);
    ExecSnoc(Initial(), [Mount], Run([Promise(p)]));
    ExecSnoc(Initial(), [Mount, Run([Promise(p)])], Settle(0, Fulfilled(payload)));
  }

  /** Submitting a name whose lookup fails: the fallback is followed by a
      render that throws the rejection reason to the error boundary. */
  lemma LookupFails(pokemonName: string, p: nat, reason: Value)
    ensures Render(Exec(Initial(), [Mount, Run([Promise(p)]), Settle(0, Rejected(reason))]).state, pokemonName)
         == Err(ThrownValue(reason))
  {
    ExecSnoc(Initial(), [], Mount);
    ExecSnoc(Initial(), [Mount], Run([Promise(p)]));
    ExecSnoc(Initial(), [Mount, Run([Promise(p)])], Settle(0, Rejected(reason)));
  }

  /** Unmounting while the lookup is in flight: its late settlement leaves
      the component pending. */
  lemma LookupSettlesAfterUnmount(p: nat, o: Outcome)
    ensures Exec(Initial(), [Mount, Run([Promise(p)]), Unmount, Settle(0, o)]).state == State(PENDING, Null, Null)
  {
    ExecSnoc(Initial(), [], Mount);
    ExecSnoc(Initial(), [Mount], Run([Promise(p)]));
    ExecSnoc(Initial(), [Mount, Run([Promise(p)])], Unmount);
    ExecSnoc(Initial(), [Mount, Run([Promise(p)]), Unmount], Settle(0, o));
    assert [] + [Mount] == [Mount];
    assert [Mount] + [Run([Promise(p)])] == [Mount, Run([Promise(p)])];
    assert [Mount, Run([Promise(p)])] + [Unmount] == [Mount, Run([Promise(p)]), Unmount];
    assert [Mount, Run([Promise(p)]), Unmount] + [Settle(0, o)] == [Mount, Run([Promise(p)]), Unmount, Settle(0, o)];
  }
}
