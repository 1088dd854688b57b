/** What a dispatch of an action is bound to do: scripts are carried out, and propagation is heeded. */
module ActionLaws {
  import opened Actions

  // ---------- Who has the last word on propagation ----------

  /** The last thing the script says about propagation is this, and it dispatches nothing after that. */
  ghost predicate LastSays(script: Script, word: Op) {
    exists k :: 0 <= k < |script.ops| && script.ops[k] == word && OnlyRegistersFrom(script, k + 1)
  }

  ghost predicate OnlyRegistersFrom(script: Script, from: nat) {
    forall j :: from <= j < |script.ops| ==> script.ops[j].Register?
  }

  /** A script that ends by stopping leaves propagation off, one that ends by propagating leaves it on, and one
      that only registers leaves it as it was. */
  lemma LastWord(script: Script, state: State, depth: nat)
    ensures var after := AfterScript(script, state, depth).state;
            && (LastSays(script, StopPropagation) ==> !after.propagates)
            && (LastSays(script, Propagate) ==> after.propagates)
            && (OnlyRegistersFrom(script, 0) ==> after.propagates == state.propagates)
  {
    forall k | 0 <= k <= |script.ops| && OnlyRegistersFrom(script, k)
      ensures AfterScript(script, state, depth).state.propagates == AfterOps(script, k, state, depth).state.propagates
    {
      RegistersKeepWord(script, k, |script.ops|, state, depth);
    }
    forall k | 0 <= k < |script.ops|
      ensures script.ops[k].StopPropagation? ==> !AfterOps(script, k + 1, state, depth).state.propagates
      ensures script.ops[k].Propagate? ==> AfterOps(script, k + 1, state, depth).state.propagates
    {
    }
  }

  lemma {:induction false} RegistersKeepWord(script: Script, from: nat, count: nat, state: State, depth: nat)
    requires from <= count <= |script.ops| && OnlyRegistersFrom(script, from)
    ensures AfterOps(script, count, state, depth).state.propagates == AfterOps(script, from, state, depth).state.propagates
    decreases count
  {
    if from < count {
      RegistersKeepWord(script, from, count - 1, state, depth);
      assert script.ops[count - 1].Register?;
    }
  }

  /** The bubble calls, the first of them the `turn`-th of its dispatch, leave propagation as their scripts say. */
  ghost predicate Heeded(op: Op, calls: seq<Event>, turn: nat)
    requires op.Dispatch?
  {
    forall t :: 0 <= t < |calls| ==> HeededAt(op, calls[t], turn + t)
  }

  /** A listener without a script does nothing. */
  ghost predicate HeededAt(op: Op, call: Event, turn: nat)
    requires op.Dispatch?
  {
    call.Called? &&
    if turn >= |op.reactions| then call.propagates
    else
      && (LastSays(op.reactions[turn], StopPropagation) ==> !call.propagates)
      && (LastSays(op.reactions[turn], Propagate) || OnlyRegistersFrom(op.reactions[turn], 0) ==> call.propagates)
  }

  lemma {:induction false} CallsHeed(op: Op, list: seq<Listener>, rest: nat, state: State, depth: nat)
    requires op.Dispatch? && rest <= |list|
    ensures Heeded(op, Calls(AfterCalls(op, list, rest, state, depth).events, depth), |list| - rest)
    decreases rest
  {
    if rest == 0 || !state.propagates {
      assert Calls([], depth) == [];
    } else {
      CallsHeed(op, list, rest - 1, AfterCall(op, list[rest - 1], |list| - rest, state, depth).state, depth);
      CallThenHeeded(op, list, rest, state, depth);
    }
  }

  lemma CallThenHeeded(op: Op, list: seq<Listener>, rest: nat, state: State, depth: nat)
    requires op.Dispatch? && 0 < rest <= |list| && state.propagates
    requires var called := AfterCall(op, list[rest - 1], |list| - rest, state, depth);
             Heeded(op, Calls(AfterCalls(op, list, rest - 1, called.state, depth).events, depth), |list| - (rest - 1))
    ensures Heeded(op, Calls(AfterCalls(op, list, rest, state, depth).events, depth), |list| - rest)
  {
    var called := AfterCall(op, list[rest - 1], |list| - rest, state, depth);
    CallHeeds(op, list[rest - 1], |list| - rest, state, depth);
    FirstThenRest(op, list, rest, state, depth);
    HeededThenRest(op, called, AfterCalls(op, list, rest - 1, called.state, depth), |list| - rest, depth);
  }

  lemma FirstThenRest(op: Op, list: seq<Listener>, rest: nat, state: State, depth: nat)
    requires op.Dispatch? && 0 < rest <= |list| && state.propagates
    ensures var called := AfterCall(op, list[rest - 1], |list| - rest, state, depth);
            AfterCalls(op, list, rest, state, depth) == Then(called, AfterCalls(op, list, rest - 1, called.state, depth))
  {
  }

  lemma CallHeeds(op: Op, listener: Listener, turn: nat, state: State, depth: nat)
    requires op.Dispatch? && state.propagates
    ensures var called := AfterCall(op, listener, turn, state, depth);
            var calls := Calls(called.events, depth);
            |calls| == 1 && HeededAt(op, calls[0], turn)
  {
    OneCallOnly(op, listener, turn, state, depth);
    if turn < |op.reactions| {
      LastWord(op.reactions[turn], state, depth + 1);
    }
  }

  lemma HeededThenRest(op: Op, called: Outcome, others: Outcome, turn: nat, depth: nat)
    requires op.Dispatch?
    requires |Calls(called.events, depth)| == 1 && HeededAt(op, Calls(called.events, depth)[0], turn)
    requires Heeded(op, Calls(others.events, depth), turn + 1)
    ensures Heeded(op, Calls(Then(called, others).events, depth), turn)
  {
    CallsConcat(called.events, others.events, depth);
    HeededThenHeeded(op, Calls(called.events, depth)[0], Calls(others.events, depth), turn);
  }

  lemma HeededThenHeeded(op: Op, call: Event, others: seq<Event>, turn: nat)
    requires op.Dispatch? && HeededAt(op, call, turn) && Heeded(op, others, turn + 1)
    ensures Heeded(op, [call] + others, turn)
  {
    var calls := [call] + others;
    forall t | 0 <= t < |calls| ensures HeededAt(op, calls[t], turn + t) {
      assert t > 0 ==> calls[t] == others[t - 1] && HeededAt(op, others[t - 1], turn + 1 + (t - 1));
    }
  }

  /** A dispatch that is answered by these calls, in order: capture calls, then `bubbles`. */
  ghost predicate Answered(op: Op, state: State, depth: nat, bubbles: seq<Event>)
    requires op.Dispatch?
  {
    var list := ListOf(state.table, op.action);
    && Calls(AfterDispatch(op, state, depth).events, depth) == Captures(list, op.action, depth) + bubbles
    && InReverse(bubbles, list, |list|, op.action, depth, true, AfterDispatch(op, state, depth).state.propagates)
    && Heeded(op, bubbles, 0)
  }

  lemma DispatchHeeds(op: Op, state: State, depth: nat) returns (bubbles: seq<Event>)
    requires op.Dispatch?
    ensures Answered(op, state, depth, bubbles)
  {
    var list := ListOf(state.table, op.action);
    OnlyCaptures(list, op.action, depth, op.action);
    bubbles := [];
    if op.action in state.table {
      var taken := State(state.table - {op.action}, true);
      var bubbled := AfterCalls(op, list, |list|, taken, depth);
      bubbles := Calls(bubbled.events, depth);
      CallsConcat(Captures(list, op.action, depth), bubbled.events, depth);
      CallsInReverse(op, list, |list|, taken, depth);
      CallsHeed(op, list, |list|, taken, depth);
    }
  }

  /**
   * The call of a listener whose script ends by stopping leaves propagation off and is the last bubble call of its
   * dispatch; one whose script ends by propagating, or says nothing, leaves it on, and the next listener is
   * called, if there is one.
   */
  lemma StopEndsDispatch(op: Op, state: State, depth: nat, bubbles: seq<Event>, t: nat)
    requires op.Dispatch? && Answered(op, state, depth, bubbles) && t < |bubbles|
    ensures t < |op.reactions| && LastSays(op.reactions[t], StopPropagation) ==> !bubbles[t].propagates && t == |bubbles| - 1
    ensures t >= |op.reactions| || LastSays(op.reactions[t], Propagate) || OnlyRegistersFrom(op.reactions[t], 0) ==>
              bubbles[t].propagates && (t + 1 < |bubbles| || t + 1 == |ListOf(state.table, op.action)|)
  {
    var list := ListOf(state.table, op.action);
    assert HeededAt(op, bubbles[t], 0 + t);
    assert IsTurn(bubbles, t, list, |list|, op.action, depth);
  }

  // ---------- What a script is bound to do ----------

  /** What every operation does to the lists: each grows by what was registered for it, and by nothing else. */
  ghost predicate AllGrown(before: State, after: State, events: seq<Event>) {
    forall about :: Grown(before.table, after.table, events, about)
  }

  /** What each operation comes to. */
  ghost predicate Does(op: Op, before: State, after: State, events: seq<Event>, depth: nat)
    decreases op, 2
  {
    && AllGrown(before, after, events)
    && match op
       case Register(action, listener) => events == [Registered(action, listener)] && after.propagates == before.propagates
       case StopPropagation => events == [] && !after.propagates
       case Propagate => events == [] && after.propagates
       case Dispatch(_, _) =>
         exists bodies: seq<seq<Event>>, states: seq<State> :: Played(op, before, bodies, states, depth)
           && after.propagates == states[|bodies|].propagates
           && events == Captured(op.action, ListOf(before.table, op.action), depth)
                        + Turns(op.action, ListOf(before.table, op.action), bodies, states, |bodies|, depth)
  }

  /** One capture call of each listener, in order. */
  ghost function Captured(action: ActionType, list: seq<Listener>, depth: nat): seq<Event> {
    seq(|list|, k requires 0 <= k < |list| => Called(action, list[k], Capture, depth, true))
  }

  /** The first `n` bubble calls from the end of the list, each behind what it did. */
  ghost function Turns(action: ActionType, list: seq<Listener>, bodies: seq<seq<Event>>, states: seq<State>, n: nat, depth: nat): seq<Event>
    requires n <= |bodies| <= |list| && |bodies| < |states|
  {
    if n == 0 then []
    else
      Turns(action, list, bodies, states, n - 1, depth) + bodies[n - 1]
        + [Called(action, list[|list| - n], Bubble, depth, states[n].propagates)]
  }

  /**
   * The bubble phase of a dispatch: it starts with propagation on and with nothing in the list of the
   * dispatched action, so that a nested dispatch of it calls only those registered meanwhile; the `t`-th
   * listener from the end does what the `t`-th script says; and it goes on until one leaves propagation off.
   */
  ghost predicate Played(op: Op, before: State, bodies: seq<seq<Event>>, states: seq<State>, depth: nat)
    requires op.Dispatch?
    decreases op, 1
  {
    && |states| == |bodies| + 1 && |bodies| <= |ListOf(before.table, op.action)|
    && states[0].propagates && ListOf(states[0].table, op.action) == []
    && (forall other :: other != op.action ==> ListOf(states[0].table, other) == ListOf(before.table, other))
    && (forall t :: 0 <= t < |bodies| ==> TurnDone(op, t, states[t], bodies[t], states[t + 1], depth))
    && (|bodies| == |ListOf(before.table, op.action)| || !states[|bodies|].propagates)
  }

  /** With propagation on, a listener does what its script says; one without a script does nothing. */
  ghost predicate TurnDone(op: Op, t: nat, before: State, body: seq<Event>, after: State, depth: nat)
    requires op.Dispatch?
    decreases op, 0
  {
    && before.propagates
    && if t < |op.reactions| then DoesInTurn(op.reactions[t], before, after, body, depth + 1)
       else body == [] && after == before
  }

  /** All operations of the script, each from where the one before it ended. */
  ghost predicate DoesInTurn(script: Script, before: State, after: State, events: seq<Event>, depth: nat)
    decreases script, 1
  {
    exists stages: seq<Outcome> ::
      && |stages| == |script.ops| + 1
      && stages[0] == Outcome(before, []) && stages[|script.ops|] == Outcome(after, events)
      && forall k :: 0 <= k < |script.ops| ==> StageDone(script, k, stages[k], stages[k + 1], depth)
  }

  /** The `k`-th operation leads from one stage to the next. */
  ghost predicate StageDone(script: Script, k: nat, before: Outcome, after: Outcome, depth: nat)
    requires k < |script.ops|
    decreases script, 0
  {
    && before.events <= after.events
    && Does(script.ops[k], before.state, after.state, after.events[|before.events|..], depth)
  }

  /** Every script is carried out: operation by operation, each dispatch calling its listeners, each of which does
      what it is scripted to do. */
  lemma {:induction false} ScriptIsDone(script: Script, state: State, depth: nat)
    ensures var after := AfterScript(script, state, depth); DoesInTurn(script, state, after.state, after.events, depth)
    decreases script, |script.ops| + 1
  {
    var stages := Stages(script, |script.ops|, state, depth);
  }

  lemma {:induction false} Stages(script: Script, count: nat, state: State, depth: nat) returns (stages: seq<Outcome>)
    requires count <= |script.ops|
    ensures |stages| == count + 1 && stages[0] == Outcome(state, []) && stages[count] == AfterOps(script, count, state, depth)
    ensures forall k :: 0 <= k < count ==> StageDone(script, k, stages[k], stages[k + 1], depth)
    decreases script, count
  {
    if count == 0 {
      stages := [Outcome(state, [])];
    } else {
      var shorter := Stages(script, count - 1, state, depth);
      StageIsDone(script, count - 1, shorter[count - 1], depth);
      stages := shorter + [AfterOps(script, count, state, depth)];
    }
  }

  lemma {:induction false} StageIsDone(script: Script, k: nat, before: Outcome, depth: nat)
    requires k < |script.ops|
    ensures StageDone(script, k, before, Then(before, AfterOp(script.ops[k], before.state, depth)), depth)
    decreases script, 0
  {
    var done := AfterOp(script.ops[k], before.state, depth);
    OpIsDone(script.ops[k], before.state, depth);
    assert Then(before, done).events[|before.events|..] == done.events;
  }

  lemma {:induction false} OpIsDone(op: Op, state: State, depth: nat)
    ensures var after := AfterOp(op, state, depth); Does(op, state, after.state, after.events, depth)
    decreases op, 3
  {
    var after := AfterOp(op, state, depth);
    forall about ensures Grown(state.table, after.state.table, after.events, about) {
      OpLosesNothing(op, state, depth, about);
    }
    if op.Dispatch? {
      DispatchIsDone(op, state, depth);
    }
  }

  lemma {:induction false} DispatchIsDone(op: Op, state: State, depth: nat)
    requires op.Dispatch? && AllGrown(state, AfterDispatch(op, state, depth).state, AfterDispatch(op, state, depth).events)
    ensures var after := AfterDispatch(op, state, depth); Does(op, state, after.state, after.events, depth)
    decreases op, 2
  {
    var list, after := ListOf(state.table, op.action), AfterDispatch(op, state, depth);
    CapturesAre(list, op.action, depth);
    var taken := State(state.table - {op.action}, true);
    var bodies, states := CallsAreDone(op, list, [], [taken], depth);
    assert Turns(op.action, list, [], [taken], 0, depth) == [];
    assert Played(op, state, bodies, states, depth);
    assert op.action !in state.table ==> bodies == [];
  }

  lemma {:induction false} CapturesAre(list: seq<Listener>, action: ActionType, depth: nat)
    ensures Captures(list, action, depth) == Captured(action, list, depth)
    decreases |list|
  {
    if list != [] {
      CapturesAre(list[..|list| - 1], action, depth);
    }
  }

  /** The bubble phase from a turn on, continued from the turns before it. */
  ghost predicate PlayedFrom(op: Op, list: seq<Listener>, start: State, bodies: seq<seq<Event>>, states: seq<State>, depth: nat)
    requires op.Dispatch?
  {
    && |states| == |bodies| + 1 && |bodies| <= |list| && states[0] == start
    && forall t :: 0 <= t < |bodies| ==> TurnDone(op, t, states[t], bodies[t], states[t + 1], depth)
  }

  lemma {:induction false} CallsAreDone(op: Op, list: seq<Listener>, bodies: seq<seq<Event>>, states: seq<State>, depth: nat)
    returns (allBodies: seq<seq<Event>>, allStates: seq<State>)
    requires op.Dispatch? && states != [] && PlayedFrom(op, list, states[0], bodies, states, depth)
    ensures PlayedFrom(op, list, states[0], allBodies, allStates, depth)
    ensures |allBodies| == |list| || !allStates[|allBodies|].propagates
    ensures Continues(op, list, bodies, states, allBodies, allStates, AfterCalls(op, list, |list| - |bodies|, states[|bodies|], depth), depth)
    decreases op, 1, |list| - |bodies|
  {
    var n := |bodies|;
    if n == |list| || !states[n].propagates {
      allBodies, allStates := bodies, states;
    } else {
      var called, body := FirstCall(op, list, n, states[n], depth);
      OneTurnMore(op, list, bodies, states, called.state, body, depth);
      var longer, further := bodies + [body], states + [called.state];
      allBodies, allStates := CallsAreDone(op, list, longer, further, depth);
      ContinuesOneBack(op, list, bodies, states, longer, further, allBodies, allStates, called,
                       AfterCalls(op, list, |list| - (n + 1), called.state, depth), depth);
    }
  }

  lemma ContinuesOneBack(op: Op, list: seq<Listener>, bodies: seq<seq<Event>>, states: seq<State>,
                         longer: seq<seq<Event>>, further: seq<State>, allBodies: seq<seq<Event>>, allStates: seq<State>,
                         called: Outcome, rest: Outcome, depth: nat)
    requires op.Dispatch? && |bodies| < |longer| <= |list| && |bodies| < |states| && |longer| < |further|
    requires |allBodies| <= |list| && |allBodies| < |allStates|
    requires Continues(op, list, longer, further, allBodies, allStates, rest, depth)
    requires Turns(op.action, list, longer, further, |longer|, depth)
             == Turns(op.action, list, bodies, states, |bodies|, depth) + called.events
    ensures Continues(op, list, bodies, states, allBodies, allStates, Then(called, rest), depth)
  {
    Regroup(Turns(op.action, list, bodies, states, |bodies|, depth), called.events, rest.events);
  }

  /** The turns before and what happened in the `rest` of the phase make up all the turns. */
  ghost predicate Continues(op: Op, list: seq<Listener>, bodies: seq<seq<Event>>, states: seq<State>,
                            allBodies: seq<seq<Event>>, allStates: seq<State>, rest: Outcome, depth: nat)
    requires op.Dispatch? && |bodies| <= |list| && |bodies| < |states| && |allBodies| <= |list| && |allBodies| < |allStates|
  {
    && rest.state == allStates[|allBodies|]
    && Turns(op.action, list, bodies, states, |bodies|, depth) + rest.events
       == Turns(op.action, list, allBodies, allStates, |allBodies|, depth)
  }

  lemma {:induction false} FirstCall(op: Op, list: seq<Listener>, n: nat, state: State, depth: nat)
    returns (called: Outcome, body: seq<Event>)
    requires op.Dispatch? && n < |list| && state.propagates
    ensures AfterCalls(op, list, |list| - n, state, depth)
            == Then(called, AfterCalls(op, list, |list| - (n + 1), called.state, depth))
    ensures called.events == body + [Called(op.action, list[|list| - n - 1], Bubble, depth, called.state.propagates)]
    ensures TurnDone(op, n, state, body, called.state, depth)
    decreases op, 0, 1
  {
    called := AfterCall(op, list[|list| - n - 1], n, state, depth);
    body := called.events[..|called.events| - 1];
    CallIsDone(op, list[|list| - n - 1], n, state, depth);
  }

  lemma Regroup(a: seq<Event>, b: seq<Event>, c: seq<Event>)
    ensures a + (b + c) == a + b + c
  {
  }

  lemma OneTurnMore(op: Op, list: seq<Listener>, bodies: seq<seq<Event>>, states: seq<State>, next: State, body: seq<Event>, depth: nat)
    requires op.Dispatch? && states != [] && PlayedFrom(op, list, states[0], bodies, states, depth)
    requires |bodies| < |list| && TurnDone(op, |bodies|, states[|bodies|], body, next, depth)
    ensures PlayedFrom(op, list, states[0], bodies + [body], states + [next], depth)
    ensures Turns(op.action, list, bodies + [body], states + [next], |bodies| + 1, depth)
            == Turns(op.action, list, bodies, states, |bodies|, depth)
               + (body + [Called(op.action, list[|list| - |bodies| - 1], Bubble, depth, next.propagates)])
  {
    var longer, further := bodies + [body], states + [next];
    assert forall t :: 0 <= t <= |bodies| ==> further[t] == states[t];
    assert forall t :: 0 <= t < |bodies| ==> longer[t] == bodies[t];
    TurnsBefore(op.action, list, bodies, states, longer, further, |bodies|, depth);
  }

  lemma {:induction false} TurnsBefore(action: ActionType, list: seq<Listener>, bodies: seq<seq<Event>>, states: seq<State>,
                                       longer: seq<seq<Event>>, further: seq<State>, n: nat, depth: nat)
    requires |bodies| < |states| && |longer| <= |list| && |longer| < |further|
    requires n <= |bodies| && bodies <= longer && states <= further
    ensures Turns(action, list, longer, further, n, depth) == Turns(action, list, bodies, states, n, depth)
  {
    if n > 0 {
      TurnsBefore(action, list, bodies, states, longer, further, n - 1, depth);
    }
  }

  lemma {:induction false} CallIsDone(op: Op, listener: Listener, turn: nat, state: State, depth: nat)
    requires op.Dispatch?
    ensures var called := AfterCall(op, listener, turn, state, depth);
            && called.events != []
            && called.events[|called.events| - 1] == Called(op.action, listener, Bubble, depth, called.state.propagates)
            && var body := called.events[..|called.events| - 1];
               if turn < |op.reactions| then DoesInTurn(op.reactions[turn], state, called.state, body, depth + 1)
               else body == [] && called.state == state
    decreases op, 0, 0
  {
    if turn < |op.reactions| {
      var reacted := AfterScript(op.reactions[turn], state, depth + 1);
      ScriptIsDone(op.reactions[turn], state, depth + 1);
      var called := AfterCall(op, listener, turn, state, depth);
      assert called.events[..|called.events| - 1] == reacted.events;
    }
  }

  /** A registration adds its listener to the end of its list, and to no other. */
  lemma RegisterAdds(action: ActionType, listener: Listener, state: State, depth: nat, about: ActionType)
    ensures var after := AfterOp(Register(action, listener), state, depth);
            && ListOf(after.state.table, about) == ListOf(state.table, about) + (if about == action then [listener] else [])
            && after.events == [Registered(action, listener)] && after.state.propagates == state.propagates
  {
    assert ListOf(state.table, about) + [] == ListOf(state.table, about);
  }

  /** What a script registers is registered when its listener is called. */
  lemma CallRegisters(op: Op, listener: Listener, turn: nat, state: State, depth: nat, k: nat)
    requires op.Dispatch? && turn < |op.reactions| && k < |op.reactions[turn].ops| && op.reactions[turn].ops[k].Register?
    ensures var register := op.reactions[turn].ops[k];
            Registered(register.action, register.listener) in AfterCall(op, listener, turn, state, depth).events
  {
    RegistersAt(op.reactions[turn], k, |op.reactions[turn].ops|, state, depth + 1);
  }

  lemma {:induction false} RegistersAt(script: Script, k: nat, count: nat, state: State, depth: nat)
    requires k < count <= |script.ops| && script.ops[k].Register?
    ensures Registered(script.ops[k].action, script.ops[k].listener) in AfterOps(script, count, state, depth).events
    decreases count
  {
    if k < count - 1 {
      RegistersAt(script, k, count - 1, state, depth);
    } else {
      var before := AfterOps(script, k, state, depth).events;
      assert AfterOps(script, count, state, depth).events == before + [Registered(script.ops[k].action, script.ops[k].listener)];
    }
  }
}
