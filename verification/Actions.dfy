/** Dispatch of actions to the global listeners, the same action from within a listener included. */
module Actions {
  // A listener may register listeners, turn propagation off and on, and dispatch again. What the listeners
  // do is given as a finite tree: each dispatch comes with the scripts that the listeners it invokes in the
  // bubble phase will carry out. So a run of any listeners, whatever state decides what they do, is some tree.

  type ActionType = nat
  type Listener = nat

  datatype Phase = Capture | Bubble

  datatype Script = Script(ops: seq<Op>)

  datatype Op =
    | Register(action: ActionType, listener: Listener)
    | StopPropagation
    | Propagate
    | Dispatch(action: ActionType, reactions: seq<Script>)

  /**
   * What happened: a listener was registered, or a call of a listener, made by a dispatch nested
   * `depth` deep, returned and left propagation on or off.
   */
  datatype Event =
    | Registered(action: ActionType, listener: Listener)
    | Called(action: ActionType, called: Listener, phase: Phase, depth: nat, propagates: bool)

  // ---------- What a log says ----------

  /** The listeners registered for an action type, in order. */
  ghost function Registrations(log: seq<Event>, action: ActionType): seq<Listener> {
    FirstRegistrations(log, |log|, action)
  }

  ghost function FirstRegistrations(log: seq<Event>, n: nat, action: ActionType): seq<Listener>
    requires n <= |log|
  {
    if n == 0 then [] else FirstRegistrations(log, n - 1, action) + Registration(log[n - 1], action)
  }

  ghost function Registration(event: Event, action: ActionType): seq<Listener> {
    if event.Registered? && event.action == action then [event.listener] else []
  }

  /** The calls made by dispatches nested exactly this deep, in the order of their return. */
  ghost function Calls(log: seq<Event>, depth: nat): seq<Event> {
    FirstCalls(log, |log|, depth)
  }

  ghost function FirstCalls(log: seq<Event>, n: nat, depth: nat): seq<Event>
    requires n <= |log|
  {
    if n == 0 then [] else FirstCalls(log, n - 1, depth) + Call(log[n - 1], depth)
  }

  ghost function Call(event: Event, depth: nat): seq<Event> {
    if event.Called? && event.depth == depth then [event] else []
  }

  /** No call of the log was made by a dispatch nested less deep. */
  ghost predicate AtLeast(log: seq<Event>, depth: nat) {
    forall event <- log :: event.Called? ==> depth <= event.depth
  }

  lemma RegistrationsConcat(a: seq<Event>, b: seq<Event>, action: ActionType)
    ensures Registrations(a + b, action) == Registrations(a, action) + Registrations(b, action)
  {
    RegistrationsThen(a, b, |b|, action);
  }

  lemma {:induction false} RegistrationsThen(a: seq<Event>, b: seq<Event>, n: nat, action: ActionType)
    requires n <= |b|
    ensures FirstRegistrations(a + b, |a| + n, action) == Registrations(a, action) + FirstRegistrations(b, n, action)
  {
    if n == 0 {
      RegistrationsBefore(a, b, |a|, action);
    } else {
      RegistrationsThen(a, b, n - 1, action);
      assert (a + b)[|a| + n - 1] == b[n - 1];
    }
  }

  lemma {:induction false} RegistrationsBefore(a: seq<Event>, b: seq<Event>, n: nat, action: ActionType)
    requires n <= |a|
    ensures FirstRegistrations(a + b, n, action) == FirstRegistrations(a, n, action)
  {
    if n > 0 {
      RegistrationsBefore(a, b, n - 1, action);
    }
  }

  lemma CallsConcat(a: seq<Event>, b: seq<Event>, depth: nat)
    ensures Calls(a + b, depth) == Calls(a, depth) + Calls(b, depth)
  {
    CallsThen(a, b, |b|, depth);
  }

  lemma {:induction false} CallsThen(a: seq<Event>, b: seq<Event>, n: nat, depth: nat)
    requires n <= |b|
    ensures FirstCalls(a + b, |a| + n, depth) == Calls(a, depth) + FirstCalls(b, n, depth)
  {
    if n == 0 {
      CallsBefore(a, b, |a|, depth);
    } else {
      CallsThen(a, b, n - 1, depth);
      assert (a + b)[|a| + n - 1] == b[n - 1];
    }
  }

  lemma {:induction false} CallsBefore(a: seq<Event>, b: seq<Event>, n: nat, depth: nat)
    requires n <= |a|
    ensures FirstCalls(a + b, n, depth) == FirstCalls(a, n, depth)
  {
    if n > 0 {
      CallsBefore(a, b, n - 1, depth);
    }
  }

  lemma AtLeastConcat(a: seq<Event>, b: seq<Event>, depth: nat)
    requires AtLeast(a, depth) && AtLeast(b, depth)
    ensures AtLeast(a + b, depth)
  {
  }

  lemma NoCallsAbove(log: seq<Event>, depth: nat)
    requires AtLeast(log, depth + 1)
    ensures Calls(log, depth) == []
  {
    NoFirstCallsAbove(log, |log|, depth);
  }

  lemma {:induction false} NoFirstCallsAbove(log: seq<Event>, n: nat, depth: nat)
    requires AtLeast(log, depth + 1) && n <= |log|
    ensures FirstCalls(log, n, depth) == []
  {
    if n > 0 {
      assert log[n - 1] in log;
      NoFirstCallsAbove(log, n - 1, depth);
    }
  }

  lemma OneCall(event: Event, depth: nat)
    ensures Calls([event], depth) == Call(event, depth)
    ensures event.Called? && event.depth == depth ==> AtLeast([event], depth)
  {
    assert FirstCalls([event], 0, depth) == [];
  }

  lemma OneRegistration(event: Event, action: ActionType)
    ensures Registrations([event], action) == Registration(event, action)
  {
    assert FirstRegistrations([event], 0, action) == [];
  }

  // ---------- The lists ----------

  function ListOf(table: map<ActionType, seq<Listener>>, action: ActionType): seq<Listener> {
    if action in table then table[action] else []
  }

  /** The list of `about` grew by the listeners registered for it meanwhile, in order, and nothing else. */
  ghost predicate Grown(before: map<ActionType, seq<Listener>>, after: map<ActionType, seq<Listener>>,
                        log: seq<Event>, about: ActionType)
  {
    ListOf(after, about) == ListOf(before, about) + Registrations(log, about)
  }

  lemma GrownThenGrown(a: map<ActionType, seq<Listener>>, b: map<ActionType, seq<Listener>>,
                       c: map<ActionType, seq<Listener>>, first: seq<Event>, second: seq<Event>,
                       about: ActionType)
    requires Grown(a, b, first, about) && Grown(b, c, second, about)
    ensures Grown(a, c, first + second, about)
  {
    RegistrationsConcat(first, second, about);
    Reassociate(ListOf(a, about), Registrations(first, about), Registrations(second, about));
  }

  lemma Reassociate(x: seq<Listener>, y: seq<Listener>, z: seq<Listener>)
    ensures (x + y) + z == x + (y + z)
  {
  }

  /** Taking a list out, letting the lists grow, and putting it back in front loses nothing. */
  lemma TakenAndReturned(table: map<ActionType, seq<Listener>>, action: ActionType,
                         between: map<ActionType, seq<Listener>>, log: seq<Event>, about: ActionType)
    requires action in table
    requires Grown(table - {action}, between, log, about)
    ensures Grown(table, between[action := table[action] + ListOf(between, action)], log, about)
  {
    if about == action {
      assert ListOf(between, action) == [] + Registrations(log, action) == Registrations(log, action);
    }
  }

  // ---------- What one dispatch calls ----------

  /** The calls of the capture phase: every listener in order. */
  ghost function Captures(list: seq<Listener>, action: ActionType, depth: nat): seq<Event> {
    if list == [] then []
    else Captures(list[..|list| - 1], action, depth) + [Called(action, list[|list| - 1], Capture, depth, true)]
  }

  /**
   * The calls of a bubble phase with the listeners before `rest` still to be called: from the last
   * of them on, each in turn, until one leaves propagation off; `before` and `after` say whether it
   * is on around the phase.
   */
  ghost predicate InReverse(calls: seq<Event>, list: seq<Listener>, rest: nat, action: ActionType, depth: nat,
                            before: bool, after: bool)
    requires rest <= |list|
  {
    && |calls| <= (if before then rest else 0)
    && (forall k :: 0 <= k < |calls| ==> IsTurn(calls, k, list, rest, action, depth))
    && after == (if calls == [] then before else calls[|calls| - 1].Called? && calls[|calls| - 1].propagates)
    && (|calls| < rest ==> !after)
  }

  /** The `k`-th call is of the `k`-th listener from behind, and leaves propagation on if another follows. */
  ghost predicate IsTurn(calls: seq<Event>, k: nat, list: seq<Listener>, rest: nat, action: ActionType, depth: nat)
    requires k < |calls| <= rest <= |list|
  {
    && IsBubble(calls[k], list[rest - 1 - k], action, depth)
    && (k < |calls| - 1 ==> calls[k].propagates)
  }

  ghost predicate IsBubble(event: Event, listener: Listener, action: ActionType, depth: nat) {
    event.Called? && event == Called(action, listener, Bubble, depth, event.propagates)
  }

  /** Either a listener stopped the bubble phase or it ran to the front of the list. */
  ghost predicate Dispatched(calls: seq<Event>, list: seq<Listener>, action: ActionType, depth: nat, propagates: bool) {
    exists bubbles ::
      && calls == Captures(list, action, depth) + bubbles
      && InReverse(bubbles, list, |list|, action, depth, true, propagates)
  }

  // ---------- Capture calls in a log ----------

  lemma OneMoreCapture(log: seq<Event>, list: seq<Listener>, k: nat, action: ActionType, depth: nat)
    requires k < |list|
    ensures log + Captures(list[..k + 1], action, depth)
            == log + Captures(list[..k], action, depth) + [Called(action, list[k], Capture, depth, true)]
  {
    assert list[..k + 1][..k] == list[..k];
  }

  lemma {:induction false} CallsOfCaptures(list: seq<Listener>, action: ActionType, depth: nat)
    ensures Calls(Captures(list, action, depth), depth) == Captures(list, action, depth)
    ensures AtLeast(Captures(list, action, depth), depth)
    decreases |list|
  {
    if list != [] {
      var shorter, last := list[..|list| - 1], Called(action, list[|list| - 1], Capture, depth, true);
      CallsOfCaptures(shorter, action, depth);
      CallsConcat(Captures(shorter, action, depth), [last], depth);
      OneCall(last, depth);
    }
  }

  lemma {:induction false} CapturesRegisterNothing(list: seq<Listener>, action: ActionType, depth: nat, other: ActionType)
    ensures Registrations(Captures(list, action, depth), other) == []
    decreases |list|
  {
    if list != [] {
      var shorter, last := list[..|list| - 1], Called(action, list[|list| - 1], Capture, depth, true);
      CapturesRegisterNothing(shorter, action, depth, other);
      RegistrationsConcat(Captures(shorter, action, depth), [last], other);
      OneRegistration(last, other);
    }
  }

  lemma OnlyCaptures(list: seq<Listener>, action: ActionType, depth: nat, about: ActionType)
    ensures var captures := Captures(list, action, depth);
            Calls(captures, depth) == captures && AtLeast(captures, depth) && Registrations(captures, about) == []
  {
    CallsOfCaptures(list, action, depth);
    CapturesRegisterNothing(list, action, depth, about);
  }

  lemma TableRestored(table: map<ActionType, seq<Listener>>, action: ActionType)
    requires action in table
    ensures (table - {action})[action := table[action] + ListOf(table - {action}, action)] == table
  {
    assert table[action] + [] == table[action];
  }

  // ---------- What a run does ----------

  /** The lists and the propagation flag. */
  datatype State = State(table: map<ActionType, seq<Listener>>, propagates: bool)

  /** The state reached, and what happened on the way. */
  datatype Outcome = Outcome(state: State, events: seq<Event>)

  ghost function AfterOps(script: Script, count: nat, state: State, depth: nat): Outcome
    requires count <= |script.ops|
    decreases script, count
  {
    if count == 0 then Outcome(state, [])
    else
      var before := AfterOps(script, count - 1, state, depth);
      Then(before, AfterOp(script.ops[count - 1], before.state, depth))
  }

  ghost function Then(first: Outcome, second: Outcome): Outcome {
    Outcome(second.state, first.events + second.events)
  }

  ghost function AfterScript(script: Script, state: State, depth: nat): Outcome
    decreases script, |script.ops| + 1
  {
    AfterOps(script, |script.ops|, state, depth)
  }

  ghost function AfterOp(op: Op, state: State, depth: nat): Outcome
    decreases op, 3
  {
    match op
    case Register(action, listener) =>
      Outcome(state.(table := state.table[action := ListOf(state.table, action) + [listener]]),
              [Registered(action, listener)])
    case StopPropagation => Outcome(state.(propagates := false), [])
    case Propagate => Outcome(state.(propagates := true), [])
    case Dispatch(_, _) => AfterDispatch(op, state, depth)
  }

  ghost function AfterDispatch(op: Op, state: State, depth: nat): Outcome
    requires op.Dispatch?
    decreases op, 2
  {
    var list := ListOf(state.table, op.action);
    var captures := Captures(list, op.action, depth);
    if op.action !in state.table then Outcome(state.(propagates := true), captures)
    else
      var bubbled := AfterCalls(op, list, |list|, State(state.table - {op.action}, true), depth);
      Outcome(PutBack(bubbled.state, op.action, list), captures + bubbled.events)
  }

  ghost function PutBack(state: State, action: ActionType, list: seq<Listener>): State {
    state.(table := state.table[action := list + ListOf(state.table, action)])
  }

  /** The rest of the bubble phase, with the listeners before `rest` still to be called. */
  ghost function AfterCalls(op: Op, list: seq<Listener>, rest: nat, state: State, depth: nat): Outcome
    requires op.Dispatch? && rest <= |list|
    decreases op, 1, rest
  {
    if rest == 0 || !state.propagates then Outcome(state, [])
    else
      var called := AfterCall(op, list[rest - 1], |list| - rest, state, depth);
      Then(called, AfterCalls(op, list, rest - 1, called.state, depth))
  }

  /** One call in the bubble phase, the `turn`-th of its dispatch. */
  ghost function AfterCall(op: Op, listener: Listener, turn: nat, state: State, depth: nat): Outcome
    requires op.Dispatch?
    decreases op, 0
  {
    var reacted := if turn < |op.reactions| then AfterScript(op.reactions[turn], state, depth + 1) else Outcome(state, []);
    Outcome(reacted.state, reacted.events + [Called(op.action, listener, Bubble, depth, reacted.state.propagates)])
  }

  // ---------- What every run keeps ----------

  /** What happened is about dispatches this deep, and the list of `about` grew by what was registered for it. */
  ghost predicate LostNothing(before: State, outcome: Outcome, depth: nat, about: ActionType) {
    && AtLeast(outcome.events, depth)
    && Grown(before.table, outcome.state.table, outcome.events, about)
  }

  lemma NothingHappened(before: State, after: State, depth: nat, about: ActionType)
    requires before.table == after.table
    ensures LostNothing(before, Outcome(after, []), depth, about)
  {
  }

  lemma StillNothingLost(state: State, first: Outcome, second: Outcome, depth: nat, about: ActionType)
    requires LostNothing(state, first, depth, about) && LostNothing(first.state, second, depth, about)
    ensures LostNothing(state, Then(first, second), depth, about)
  {
    AtLeastConcat(first.events, second.events, depth);
    GrownThenGrown(state.table, first.state.table, second.state.table, first.events, second.events, about);
  }

  lemma {:induction false} OpsLoseNothing(script: Script, count: nat, state: State, depth: nat, about: ActionType)
    requires count <= |script.ops|
    ensures LostNothing(state, AfterOps(script, count, state, depth), depth, about)
    decreases script, count
  {
    if count == 0 {
      NothingHappened(state, state, depth, about);
    } else {
      var before := AfterOps(script, count - 1, state, depth);
      OpsLoseNothing(script, count - 1, state, depth, about);
      OpLosesNothing(script.ops[count - 1], before.state, depth, about);
      StillNothingLost(state, before, AfterOp(script.ops[count - 1], before.state, depth), depth, about);
    }
  }

  lemma {:induction false} OpLosesNothing(op: Op, state: State, depth: nat, about: ActionType)
    ensures LostNothing(state, AfterOp(op, state, depth), depth, about)
    decreases op, 3
  {
    match op
    case Register(action, listener) =>
      ListenerRegistered(action, listener, state, depth, about);
    case Dispatch(_, _) =>
      DispatchLosesNothing(op, state, depth, about);
    case _ =>
      NothingHappened(state, AfterOp(op, state, depth).state, depth, about);
  }

  lemma ListenerRegistered(action: ActionType, listener: Listener, state: State, depth: nat, about: ActionType)
    ensures LostNothing(state, AfterOp(Register(action, listener), state, depth), depth, about)
  {
    OneRegistration(Registered(action, listener), about);
  }

  /**
   * A dispatch loses no listener and doubles none: afterwards every list, the dispatched one
   * included, is what it was before followed by what was registered meanwhile, in order.
   */
  lemma {:induction false} DispatchLosesNothing(op: Op, state: State, depth: nat, about: ActionType)
    requires op.Dispatch?
    ensures LostNothing(state, AfterDispatch(op, state, depth), depth, about)
    decreases op, 2
  {
    var list := ListOf(state.table, op.action);
    OnlyCaptures(list, op.action, depth, about);
    if op.action in state.table {
      var taken := State(state.table - {op.action}, true);
      var bubbled := AfterCalls(op, list, |list|, taken, depth);
      CallsLoseNothing(op, list, |list|, taken, depth, about);
      TakenAndReturned(state.table, op.action, bubbled.state.table, bubbled.events, about);
      StillNothingLost(state, Outcome(state, Captures(list, op.action, depth)),
                       Outcome(PutBack(bubbled.state, op.action, list), bubbled.events), depth, about);
    }
  }

  lemma {:induction false} CallsLoseNothing(op: Op, list: seq<Listener>, rest: nat, state: State, depth: nat, about: ActionType)
    requires op.Dispatch? && rest <= |list|
    ensures LostNothing(state, AfterCalls(op, list, rest, state, depth), depth, about)
    decreases op, 1, rest
  {
    if rest == 0 || !state.propagates {
      NothingHappened(state, state, depth, about);
    } else {
      var called := AfterCall(op, list[rest - 1], |list| - rest, state, depth);
      CallLosesNothing(op, list[rest - 1], |list| - rest, state, depth, about);
      CallsLoseNothing(op, list, rest - 1, called.state, depth, about);
      StillNothingLost(state, called, AfterCalls(op, list, rest - 1, called.state, depth), depth, about);
    }
  }

  /** A call loses nothing, and leaves exactly one event at its own depth. */
  lemma {:induction false} CallLosesNothing(op: Op, listener: Listener, turn: nat, state: State, depth: nat, about: ActionType)
    requires op.Dispatch?
    ensures var called := AfterCall(op, listener, turn, state, depth);
            && LostNothing(state, called, depth, about)
            && Calls(called.events, depth) == [Called(op.action, listener, Bubble, depth, called.state.propagates)]
    decreases op, 0
  {
    var reacted := Outcome(state, []);
    if turn < |op.reactions| {
      reacted := AfterScript(op.reactions[turn], state, depth + 1);
      OpsLoseNothing(op.reactions[turn], |op.reactions[turn].ops|, state, depth + 1, about);
    } else {
      NothingHappened(state, state, depth + 1, about);
    }
    CallLogged(state, reacted, Called(op.action, listener, Bubble, depth, reacted.state.propagates), depth, about);
  }

  lemma CallLogged(state: State, reacted: Outcome, event: Event, depth: nat, about: ActionType)
    requires LostNothing(state, reacted, depth + 1, about) && event.Called? && event.depth == depth
    ensures LostNothing(state, Outcome(reacted.state, reacted.events + [event]), depth, about)
    ensures Calls(reacted.events + [event], depth) == [event]
  {
    NoCallsAbove(reacted.events, depth);
    CallsConcat(reacted.events, [event], depth);
    OneCall(event, depth);
    OneRegistration(event, about);
    StillNothingLost(state, reacted, Outcome(reacted.state, [event]), depth, about);
  }

  // ---------- Whom a dispatch calls ----------

  lemma OneCallOnly(op: Op, listener: Listener, turn: nat, state: State, depth: nat)
    requires op.Dispatch?
    ensures var called := AfterCall(op, listener, turn, state, depth);
            Calls(called.events, depth) == [Called(op.action, listener, Bubble, depth, called.state.propagates)]
  {
    CallLosesNothing(op, listener, turn, state, depth, op.action);
  }

  /** The bubble phase calls the listeners in reverse until one stops it. */
  lemma {:induction false} CallsInReverse(op: Op, list: seq<Listener>, rest: nat, state: State, depth: nat)
    requires op.Dispatch? && rest <= |list|
    ensures var after := AfterCalls(op, list, rest, state, depth);
            InReverse(Calls(after.events, depth), list, rest, op.action, depth, state.propagates, after.state.propagates)
    decreases rest
  {
    if rest == 0 || !state.propagates {
      assert Calls([], depth) == [];
    } else {
      CallsInReverse(op, list, rest - 1, AfterCall(op, list[rest - 1], |list| - rest, state, depth).state, depth);
      CallThenRest(op, list, rest, state, depth);
    }
  }

  lemma CallThenRest(op: Op, list: seq<Listener>, rest: nat, state: State, depth: nat)
    requires op.Dispatch? && 0 < rest <= |list| && state.propagates
    requires var called := AfterCall(op, list[rest - 1], |list| - rest, state, depth);
             var after := AfterCalls(op, list, rest - 1, called.state, depth);
             InReverse(Calls(after.events, depth), list, rest - 1, op.action, depth, called.state.propagates, after.state.propagates)
    ensures var after := AfterCalls(op, list, rest, state, depth);
            InReverse(Calls(after.events, depth), list, rest, op.action, depth, true, after.state.propagates)
  {
    var called := AfterCall(op, list[rest - 1], |list| - rest, state, depth);
    OneCallOnly(op, list[rest - 1], |list| - rest, state, depth);
    var others, whole := AfterCalls(op, list, rest - 1, called.state, depth), AfterCalls(op, list, rest, state, depth);
    CallInFront(called, others, whole, list, rest, op.action, depth);
  }

  lemma CallInFront(called: Outcome, after: Outcome, whole: Outcome, list: seq<Listener>, rest: nat,
                    action: ActionType, depth: nat)
    requires 0 < rest <= |list| && whole == Then(called, after)
    requires Calls(called.events, depth) == [Called(action, list[rest - 1], Bubble, depth, called.state.propagates)]
    requires InReverse(Calls(after.events, depth), list, rest - 1, action, depth, called.state.propagates, after.state.propagates)
    ensures InReverse(Calls(whole.events, depth), list, rest, action, depth, true, whole.state.propagates)
  {
    var call, others := Called(action, list[rest - 1], Bubble, depth, called.state.propagates), Calls(after.events, depth);
    CallsConcat(called.events, after.events, depth);
    var calls := [call] + others;
    forall k | 0 <= k < |calls|
      ensures IsTurn(calls, k, list, rest, action, depth)
    {
      assert k > 0 ==> IsTurn(others, k - 1, list, rest - 1, action, depth);
    }
  }

  /**
   * A dispatch calls the listeners of its list as it was at the start: all in order for the
   * capture phase, then from the last on until one of them leaves propagation off. Whether it is on
   * at the end is up to the last one called; what it was before makes no difference.
   */
  lemma DispatchCalls(op: Op, state: State, depth: nat)
    requires op.Dispatch?
    ensures var after := AfterDispatch(op, state, depth);
            Dispatched(Calls(after.events, depth), ListOf(state.table, op.action), op.action, depth, after.state.propagates)
    ensures forall on: bool :: AfterDispatch(op, State(state.table, on), depth) == AfterDispatch(op, state, depth)
  {
    var list := ListOf(state.table, op.action);
    if op.action !in state.table {
      NoListeners(op.action, depth);
    } else {
      var taken := State(state.table - {op.action}, true);
      CallsInReverse(op, list, |list|, taken, depth);
      CapturesThenBubbles(AfterCalls(op, list, |list|, taken, depth), list, op.action, depth);
    }
  }

  /** A listener that turns propagation off and then dispatches has turned it off in vain: the nested
      dispatch decides, and leaves it on when its own listeners do nothing. */
  lemma StopIsLost(op: Op, state: State, depth: nat)
    requires op.Dispatch?
    ensures AfterScript(Script([StopPropagation, op]), state, depth).state == AfterDispatch(op, state, depth).state
    ensures op.reactions == [] ==> AfterScript(Script([StopPropagation, op]), state, depth).state.propagates
  {
    DispatchCalls(op, state, depth);
    var script, off := Script([StopPropagation, op]), State(state.table, false);
    assert AfterOps(script, 0, state, depth).state == state;
    assert AfterOps(script, 1, state, depth).state == off;
    assert AfterOps(script, 2, state, depth).state == AfterOp(op, off, depth).state;
    var list := ListOf(state.table, op.action);
    if op.reactions == [] && op.action in state.table {
      SilentCalls(op, list, |list|, State(state.table - {op.action}, true), depth);
    }
  }

  lemma {:induction false} SilentCalls(op: Op, list: seq<Listener>, rest: nat, state: State, depth: nat)
    requires op.Dispatch? && op.reactions == [] && rest <= |list| && state.propagates
    ensures AfterCalls(op, list, rest, state, depth).state.propagates
  {
    if rest > 0 {
      SilentCalls(op, list, rest - 1, AfterCall(op, list[rest - 1], |list| - rest, state, depth).state, depth);
    }
  }

  lemma NoListeners(action: ActionType, depth: nat)
    ensures Dispatched(Calls(Captures([], action, depth), depth), [], action, depth, true)
  {
    assert InReverse([], [], 0, action, depth, true, true);
    assert Captures([], action, depth) + [] == [];
  }

  lemma CapturesThenBubbles(bubbled: Outcome, list: seq<Listener>, action: ActionType, depth: nat)
    requires InReverse(Calls(bubbled.events, depth), list, |list|, action, depth, true, bubbled.state.propagates)
    ensures Dispatched(Calls(Captures(list, action, depth) + bubbled.events, depth), list, action, depth, bubbled.state.propagates)
  {
    CallsOfCaptures(list, action, depth);
    CallsConcat(Captures(list, action, depth), bubbled.events, depth);
  }

  lemma OneMoreOp(start: seq<Event>, before: seq<Event>, after: seq<Event>, script: Script, i: nat, state: State, depth: nat)
    requires i < |script.ops| && before == start + AfterOps(script, i, state, depth).events
    requires after == before + AfterOp(script.ops[i], AfterOps(script, i, state, depth).state, depth).events
    ensures after == start + AfterOps(script, i + 1, state, depth).events
  {
  }

  // ---------- The dispatcher ----------

  class Dispatcher {
    var propagateEvent: bool
    var globalActionListeners: map<ActionType, seq<Listener>>
    ghost var log: seq<Event>

    constructor ()
      ensures Now() == State(map[], true) && log == []
    {
      propagateEvent := true;
      globalActionListeners := map[];
      log := [];
    }

    ghost function Now(): State
      reads this`globalActionListeners, this`propagateEvent
    {
      State(globalActionListeners, propagateEvent)
    }

    /** The state is the outcome's, and the log was extended by its events. */
    twostate predicate Came(outcome: Outcome)
      reads this
    {
      Now() == outcome.state && log == old(log) + outcome.events
    }

    /** The list for this action type as it is now. */
    function Current(action: ActionType): seq<Listener>
      reads this`globalActionListeners
    {
      ListOf(globalActionListeners, action)
    }

    method OnAction(action: ActionType, listener: Listener)
      modifies this`globalActionListeners, this`log
      ensures Came(AfterOp(Register(action, listener), old(Now()), 0))
      ensures Current(action) == old(Current(action)) + [listener]
      ensures forall other :: other != action ==> Current(other) == old(Current(other))
    {
      globalActionListeners := globalActionListeners[action := Current(action) + [listener]];
      log := log + [Registered(action, listener)];
    }

    /** Calls a listener: those registered through `OnAction` react in the bubble phase only. */
    method Invoke(listener: Listener, phase: Phase, op: Op, turn: nat, ghost depth: nat)
      requires op.Dispatch?
      modifies this
      ensures phase == Bubble ==> Came(AfterCall(op, listener, turn, old(Now()), depth))
      ensures phase == Capture ==>
                && globalActionListeners == old(globalActionListeners) && propagateEvent == old(propagateEvent)
                && log == old(log) + [Called(op.action, listener, Capture, depth, propagateEvent)]
      decreases op, 0
    {
      if phase == Bubble && turn < |op.reactions| {
        RunScript(op.reactions[turn], depth + 1);
      }
      log := log + [Called(op.action, listener, phase, depth, propagateEvent)];
    }

    /** Performs the operations of a script in order. */
    method RunScript(script: Script, ghost depth: nat)
      modifies this
      ensures Came(AfterScript(script, old(Now()), depth))
      decreases script, 0
    {
      for i := 0 to |script.ops|
        invariant Came(AfterOps(script, i, old(Now()), depth))
      {
        ghost var logged := log;
        Perform(script.ops[i], depth);
        OneMoreOp(old(log), logged, log, script, i, old(Now()), depth);
      }
    }

    method Perform(op: Op, ghost depth: nat)
      modifies this
      ensures Came(AfterOp(op, old(Now()), depth))
      decreases op, 4
    {
      match op
      case Register(action, listener) => OnAction(action, listener);
      case StopPropagation => propagateEvent := false;
      case Propagate => propagateEvent := true;
      case Dispatch(_, _) => DispatchGlobalAction(op, depth);
    }

    /** Dispatches an action to the listeners of its type, with their list out of the table meanwhile. */
    method DispatchGlobalAction(op: Op, ghost depth: nat)
      requires op.Dispatch?
      modifies this
      ensures Came(AfterDispatch(op, old(Now()), depth))
      decreases op, 3
    {
      propagateEvent := true;
      if op.action in globalActionListeners {
        var taken := globalActionListeners[op.action];
        globalActionListeners := globalActionListeners - {op.action};
        CallCaptures(op, taken, depth);
        PutBack(op.action, taken);
        TableRestored(old(globalActionListeners), op.action);
      }
      assert globalActionListeners == old(globalActionListeners) && propagateEvent;
      assert log == old(log) + Captures(old(Current(op.action)), op.action, depth);
      if propagateEvent && op.action in globalActionListeners {
        var taken := globalActionListeners[op.action];
        globalActionListeners := globalActionListeners - {op.action};
        CallBubbles(op, taken, depth);
        PutBack(op.action, taken);
      }
    }

    method CallCaptures(op: Op, taken: seq<Listener>, ghost depth: nat)
      requires op.Dispatch? && propagateEvent
      modifies this
      ensures propagateEvent && globalActionListeners == old(globalActionListeners)
      ensures log == old(log) + Captures(taken, op.action, depth)
      decreases op, 2
    {
      var k := 0;
      while k < |taken| && propagateEvent
        invariant 0 <= k <= |taken|
        invariant propagateEvent && globalActionListeners == old(globalActionListeners)
        invariant log == old(log) + Captures(taken[..k], op.action, depth)
      {
        Invoke(taken[k], Capture, op, 0, depth);
        OneMoreCapture(old(log), taken, k, op.action, depth);
        k := k + 1;
      }
      assert taken[..k] == taken;
    }

    method CallBubbles(op: Op, taken: seq<Listener>, ghost depth: nat)
      requires op.Dispatch?
      modifies this
      ensures Came(AfterCalls(op, taken, |taken|, old(Now()), depth))
      decreases op, 2
    {
      var rest := |taken|;
      while 0 < rest && propagateEvent
        invariant 0 <= rest <= |taken|
        invariant AfterCalls(op, taken, rest, Now(), depth).state == AfterCalls(op, taken, |taken|, old(Now()), depth).state
        invariant log + AfterCalls(op, taken, rest, Now(), depth).events
                  == old(log) + AfterCalls(op, taken, |taken|, old(Now()), depth).events
      {
        Invoke(taken[rest - 1], Bubble, op, |taken| - rest, depth);
        rest := rest - 1;
      }
    }

    /** Puts a list back in front of what was registered while it was out. */
    method PutBack(action: ActionType, taken: seq<Listener>)
      modifies this`globalActionListeners
      ensures globalActionListeners == old(globalActionListeners)[action := taken + old(Current(action))]
    {
      globalActionListeners := globalActionListeners[action := taken + Current(action)];
    }
  }

  /** From the start, whatever the listeners did, each list holds its registrations, each once and in order. */
  lemma EveryRegistrationOnce(script: Script, action: ActionType)
    ensures var end := AfterScript(script, State(map[], true), 0);
            ListOf(end.state.table, action) == Registrations(end.events, action)
  {
    var start := State(map[], true);
    var end := AfterScript(script, start, 0);
    OpsLoseNothing(script, |script.ops|, start, 0, action);
  }

  /** A whole run from the start. */
  method Run(script: Script) returns (dispatcher: Dispatcher)
    ensures fresh(dispatcher)
    ensures Outcome(dispatcher.Now(), dispatcher.log) == AfterScript(script, State(map[], true), 0)
    ensures forall action :: dispatcher.Current(action) == Registrations(dispatcher.log, action)
  {
    dispatcher := new Dispatcher();
    dispatcher.RunScript(script, 0);
    assert dispatcher.log == AfterScript(script, State(map[], true), 0).events;
    forall action ensures dispatcher.Current(action) == Registrations(dispatcher.log, action) {
      EveryRegistrationOnce(script, action);
    }
  }
}
