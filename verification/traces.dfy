/** What holds of the hook over every sequence of events. */
module HookTraces {
  import opened JsValues
  import opened AsyncReducer
  import opened AsyncHook

  /** The invariant of a hook instance: its state is consistent and every
      waiting call has an id below the next one handed out. */
  predicate Inv(m: Machine)
  {
    && Consistent(m.state)
    && (forall c :: c in m.waiting ==> c < m.nextCall)
  }

  /** No event breaks the invariant. */
  lemma StepPreservesInv(m: Machine, e: Event)
    requires Inv(m)
    ensures Inv(Step(m, e).machine)
  {
  }

  /** No sequence of events breaks the invariant: in particular the payload
      and the error are never both non-null, and the status is always one
      the render switch knows. */
  lemma {:induction false} ExecPreservesInv(m: Machine, t: seq<Event>)
    requires Inv(m)
    ensures Inv(Exec(m, t))
    ensures Exec(m, t).state.data == Null || Exec(m, t).state.error == Null
    ensures KnownStatus(Exec(m, t).state.status)
    decreases |t|
  {
    if |t| > 0 {
      StepPreservesInv(m, t[0]);
      ExecPreservesInv(Step(m, t[0]).machine, t[1..]);
    }
  }

  /** Running a trace in two pieces is running it whole. */
  lemma {:induction false} ExecAppend(m: Machine, t: seq<Event>, u: seq<Event>)
    ensures Exec(m, t + u) == Exec(Exec(m, t), u)
    decreases |t|
  {
    if |t| > 0 {
      assert (t + u)[0] == t[0];
      assert (t + u)[1..] == t[1..] + u;
      ExecAppend(Step(m, t[0]).machine, t[1..], u);
    } else {
      assert t + u == u;
    }
  }

  /** Under the invariant, the id the next run call receives is not taken,
      so a run call with a promise adds exactly one waiting call. */
  lemma RunAddsOneWaitingCall(m: Machine, p: nat)
    requires Inv(m)
    ensures m.nextCall !in m.waiting
    ensures |Step(m, Run([Promise(p)])).machine.waiting| == |m.waiting| + 1
  {
  }

  /** Running a trace with one more event is one more step. */
  lemma ExecSnoc(m: Machine, t: seq<Event>, e: Event)
    ensures Exec(m, t + [e]) == Step(Exec(m, t), e).machine
  {
    ExecAppend(m, t, [e]);
    assert [e][1..] == [];
  }

  /** Once the status has left idle, no sequence of events brings it back. */
  lemma {:induction false} ExecNeverIdleAgain(m: Machine, t: seq<Event>)
    requires m.state.status != IDLE
    ensures Exec(m, t).state.status != IDLE
    decreases |t|
  {
    if |t| > 0 {
      ExecNeverIdleAgain(Step(m, t[0]).machine, t[1..]);
    }
  }

  /** Whether event `e` makes the hook apply an action to its state: a run
      call with a truthy argument, or the settlement of a waiting call,
      while mounted. */
  predicate Applies(m: Machine, e: Event)
  {
    && m.mounted
    && match e
       case Run(args) => |args| > 0 && Truthy(args[0])
       case Settle(call, _) => call in m.waiting
       case _ => false
  }

  /** An applied action always moves the state to the status it names. */
  lemma AppliedLeavesIdle(m: Machine, e: Event)
    requires Applies(m, e)
    ensures Step(m, e).machine.state.status != IDLE
    ensures Consistent(Step(m, e).machine.state)
  {
  }

  /** If the `i`-th event of a trace applied an action, the status at the
      end of the trace is not idle. */
  lemma {:induction false} ExecIdleOnlyBeforeFirstAction(m: Machine, t: seq<Event>, i: nat)
    requires i < |t|
    requires Applies(Exec(m, t[..i]), t[i])
    ensures Exec(m, t).state.status != IDLE
  {
    var before := Exec(m, t[..i]);
    AppliedLeavesIdle(before, t[i]);
    calc {
      Exec(m, t);
      { assert t == t[..i] + ([t[i]] + t[i+1..]); ExecAppend(m, t[..i], [t[i]] + t[i+1..]); }
      Exec(before, [t[i]] + t[i+1..]);
      { ExecAppend(before, [t[i]], t[i+1..]); }
      Exec(Exec(before, [t[i]]), t[i+1..]);
    }
    assert Exec(before, [t[i]]) == Step(before, t[i]).machine by {
      assert [t[i]][1..] == [];
    }
    ExecNeverIdleAgain(Step(before, t[i]).machine, t[i+1..]);
  }

  /** While unmounted, and until the next `Mount`, nothing any event does
      reaches the state: dispatches from run calls and from settlements
      are all swallowed by the guard. */
  lemma {:induction false} UnmountedFreezesState(m: Machine, t: seq<Event>)
    requires !m.mounted
    requires forall i :: 0 <= i < |t| ==> !t[i].Mount?
    ensures Exec(m, t).state == m.state
    ensures !Exec(m, t).mounted
    decreases |t|
  {
    if |t| > 0 {
      UnmountedFreezesState(Step(m, t[0]).machine, t[1..]);
    }
  }

  /** After an unmount, whatever follows short of a remount, late promise
      settlements included, leaves the state as it was at the unmount. */
  lemma AfterUnmountStateFrozen(m: Machine, t: seq<Event>)
    requires forall i :: 0 <= i < |t| ==> !t[i].Mount?
    ensures Exec(m, [Unmount] + t).state == m.state
  {
    ExecAppend(m, [Unmount], t);
    assert Exec(m, [Unmount]) == m.(mounted := false) by {
      assert [Unmount][1..] == [];
    }
    UnmountedFreezesState(m.(mounted := false), t);
  }

  /** While mounted, calling the run function with a promise dispatches
      `pending` at once; settling that call's promise then dispatches the
      one action matching the outcome, and a second settlement of the same
      call dispatches nothing. */
  lemma RunThenSettle(m: Machine, p: nat, o: Outcome, o2: Outcome)
    requires m.mounted
    ensures Step(m, Run([Promise(p)])).machine.state == State(PENDING, Null, Null)
    ensures var m1 := Step(m, Run([Promise(p)])).machine;
            var m2 := Step(m1, Settle(m.nextCall, o)).machine;
            && m2.state == SettledState(o)
            && m.nextCall !in m2.waiting
            && Step(m2, Settle(m.nextCall, o2)).machine == m2
  {
  }
}
