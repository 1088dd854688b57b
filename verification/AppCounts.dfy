/** Everything owed is done exactly once: counting the steps of a log against what its steps owe. */
module AppCounts {
  import opened Options
  import opened AppRuns
  import opened AppLaws

  // ---------- Counting ----------

  /** The sum of `f` over the first `n` elements. */
  ghost function Total<T>(s: seq<T>, n: nat, f: T -> multiset<Due>): multiset<Due>
    requires n <= |s|
  {
    if n == 0 then multiset{} else Total(s, n - 1, f) + f(s[n - 1])
  }

  lemma TotalConcat<T>(a: seq<T>, b: seq<T>, f: T -> multiset<Due>)
    ensures Total(a + b, |a + b|, f) == Total(a, |a|, f) + Total(b, |b|, f)
  {
    TotalThen(a, b, |b|, f);
  }

  lemma {:induction false} TotalThen<T>(a: seq<T>, b: seq<T>, n: nat, f: T -> multiset<Due>)
    requires n <= |b|
    ensures Total(a + b, |a| + n, f) == Total(a, |a|, f) + Total(b, n, f)
  {
    if n == 0 {
      TotalBefore(a, b, |a|, f);
    } else {
      TotalThen(a, b, n - 1, f);
      assert (a + b)[|a| + n - 1] == b[n - 1];
    }
  }

  lemma {:induction false} TotalBefore<T>(a: seq<T>, b: seq<T>, n: nat, f: T -> multiset<Due>)
    requires n <= |a|
    ensures Total(a + b, n, f) == Total(a, n, f)
  {
    if n > 0 {
      TotalBefore(a, b, n - 1, f);
    }
  }

  lemma TotalOne<T>(x: T, f: T -> multiset<Due>)
    ensures Total([x], 1, f) == f(x)
  {
    assert Total([x], 0, f) == multiset{};
  }

  /** What is counted: starting actions, queueing effects other than notifications, opening and closing windows. */
  ghost function Counted(dues: seq<Due>): multiset<Due> {
    Total(dues, |dues|, CountedOne)
  }

  ghost function CountedOne(due: Due): multiset<Due> {
    if due.Enqueue? && IsNotification(due.effect) then multiset{} else multiset{due}
  }

  ghost function DoneBy(step: Step): multiset<Due> {
    match step
    case Started(action, stack, _) => multiset{Perform(action, stack)}
    case Queued(effect) => if IsNotification(effect) then multiset{} else multiset{Enqueue(effect)}
    case Opened(window) => multiset{Open(window)}
    case Closed(window, _, _, _) => multiset{Close(window)}
    case _ => multiset{}
  }

  ghost function OwedBy(step: Step): multiset<Due> {
    Counted(Owed(step))
  }

  /** What was done in a log. */
  ghost function Done(log: seq<Step>): multiset<Due> {
    Total(log, |log|, DoneBy)
  }

  /** What the steps of a log owe altogether. */
  ghost function OwedIn(log: seq<Step>): multiset<Due> {
    Total(log, |log|, OwedBy)
  }

  /** Between two moments, what was done is `dues` and what the steps in between owe, each exactly once. */
  ghost predicate Exactly(dues: seq<Due>, before: seq<Step>, after: seq<Step>) {
    && before <= after
    && Balances(Done(before), OwedIn(before), Done(after), OwedIn(after), Counted(dues))
  }

  ghost predicate Balances(done: multiset<Due>, owed: multiset<Due>, done': multiset<Due>, owed': multiset<Due>, dues: multiset<Due>) {
    done' + owed == done + owed' + dues
  }

  lemma BalancesThenBalances(d0: multiset<Due>, o0: multiset<Due>, d1: multiset<Due>, o1: multiset<Due>,
                             d2: multiset<Due>, o2: multiset<Due>, a: multiset<Due>, b: multiset<Due>)
    requires Balances(d0, o0, d1, o1, a) && Balances(d1, o1, d2, o2, b)
    ensures Balances(d0, o0, d2, o2, a + b)
  {
    forall due ensures (d2 + o0)[due] == (d0 + o2 + (a + b))[due] {
      assert (d1 + o0)[due] == (d0 + o1 + a)[due] && (d2 + o1)[due] == (d1 + o2 + b)[due];
    }
  }

  /** One step done, what it owes taken on, and that done as well. */
  lemma BalancesAfterStep(d0: multiset<Due>, o0: multiset<Due>, d2: multiset<Due>, o2: multiset<Due>,
                          done: multiset<Due>, owed: multiset<Due>)
    requires Balances(d0 + done, o0 + owed, d2, o2, owed)
    ensures Balances(d0, o0, d2, o2, done)
  {
    forall due ensures (d2 + o0)[due] == (d0 + o2 + done)[due] {
      assert (d2 + (o0 + owed))[due] == (d0 + done + o2 + owed)[due];
    }
  }

  lemma OneMore(log: seq<Step>, step: Step)
    ensures Done(log + [step]) == Done(log) + DoneBy(step)
    ensures OwedIn(log + [step]) == OwedIn(log) + OwedBy(step)
  {
    TotalConcat(log, [step], DoneBy);
    TotalOne(step, DoneBy);
    TotalConcat(log, [step], OwedBy);
    TotalOne(step, OwedBy);
  }

  lemma ExactThenExact(a: seq<Due>, b: seq<Due>, before: seq<Step>, between: seq<Step>, after: seq<Step>)
    requires Exactly(a, before, between) && Exactly(b, between, after)
    ensures Exactly(a + b, before, after)
  {
    TotalConcat(a, b, CountedOne);
    BalancesThenBalances(Done(before), OwedIn(before), Done(between), OwedIn(between), Done(after), OwedIn(after),
                         Counted(a), Counted(b));
  }

  lemma ExactThenNothing(a: seq<Due>, before: seq<Step>, between: seq<Step>, after: seq<Step>)
    requires Exactly(a, before, between) && Exactly([], between, after)
    ensures Exactly(a, before, after)
  {
    ExactThenExact(a, [], before, between, after);
    assert a + [] == a;
  }

  lemma NothingDone(log: seq<Step>)
    ensures Exactly([], log, log)
  {
  }

  /** A step that is not counted and owes nothing. */
  lemma Uncounted(log: seq<Step>, step: Step)
    requires DoneBy(step) == multiset{} && Owed(step) == []
    ensures Exactly([], log, log + [step])
  {
    OneMore(log, step);
  }

  /** A step, and after it exactly what it owes. */
  lemma ExactlyFrom(due: Due, before: seq<Step>, step: Step, after: seq<Step>)
    requires DoneBy(step) == CountedOne(due) && Exactly(Owed(step), before + [step], after)
    ensures Exactly([due], before, after)
  {
    OneMore(before, step);
    TotalOne(due, CountedOne);
    BalancesAfterStep(Done(before), OwedIn(before), Done(after), OwedIn(after), DoneBy(step), Counted(Owed(step)));
  }

  /** The same for a step that is not counted itself. */
  lemma OccasionExact(before: seq<Step>, step: Step, dues: seq<Due>, after: seq<Step>)
    requires DoneBy(step) == multiset{} && Owed(step) == dues && Exactly(dues, before + [step], after)
    ensures Exactly([], before, after)
  {
    OneMore(before, step);
    BalancesAfterStep(Done(before), OwedIn(before), Done(after), OwedIn(after), multiset{}, Counted(dues));
  }

  // ---------- User code ----------

  lemma PushExact(s: State, effect: Effect)
    ensures Exactly(if IsNotification(effect) then [] else [Enqueue(effect)], s.log, s.Push(effect).log)
  {
    if s.queue.Pending(effect) {
      NothingDone(s.log);
    } else if IsNotification(effect) {
      Uncounted(s.log, Queued(effect));
    } else {
      NothingDone(s.log + [Queued(effect)]);
      ExactlyFrom(Enqueue(effect), s.log, Queued(effect), s.log + [Queued(effect)]);
    }
  }

  lemma {:induction false} ScriptExact(script: seq<Action>, s: State)
    requires s.updates > 0
    ensures Exactly(Runs(script, s.windows.stack), s.log, AfterScript(script, s).log)
    decreases |s.handlers|, ScriptWeight(script), 0
  {
    if script == [] {
      NothingDone(s.log);
    } else {
      var next := AfterAction(script[0], s);
      ActionExact(script[0], s);
      ScriptExact(script[1..], next);
      ExactThenExact([Perform(script[0], s.windows.stack)], Runs(script[1..], s.windows.stack), s.log, next.log,
                     AfterScript(script[1..], next).log);
    }
  }

  lemma {:induction false} ActionExact(action: Action, s: State)
    requires s.updates > 0
    ensures Exactly([Perform(action, s.windows.stack)], s.log, AfterAction(action, s).log)
    decreases |s.handlers|, Weight(action), 11
  {
    var step := Started(action, s.windows.stack, Holds(action, s));
    StartedExact(action, s.Note(step));
    ExactlyFrom(Perform(action, s.windows.stack), s.log, step, AfterAction(action, s).log);
  }

  lemma {:induction false} StartedExact(action: Action, s: State)
    requires s.updates > 0
    ensures Exactly(ActionDues(action, s.windows.stack, Holds(action, s)), s.log, AfterStarted(action, s).log)
    decreases |s.handlers|, Weight(action), 10
  {
    if IsSimple(action) {
      SimpleExact(action, s);
    } else {
      StartedIsFinished(action, s);
      InnerExact(action, s.Begin());
    }
  }

  lemma SimpleExact(action: Action, s: State)
    requires IsSimple(action)
    ensures Exactly(ActionDues(action, s.windows.stack, None), s.log, AfterSimple(action, s).log)
  {
    SimpleInTwo(action, s);
    SimpleDues(action, s);
    ActedLogs(action, s);
    if Pushes(action, s).Some? {
      PushExact(Acted(action, s), Pushes(action, s).value);
    } else {
      NothingDone(s.log);
    }
  }

  lemma ActedLogs(action: Action, s: State)
    requires IsSimple(action)
    ensures Acted(action, s).log == s.log
  {
  }

  lemma {:induction false} InnerExact(action: Action, s: State)
    requires s.updates > 0 && IsEntry(action)
    ensures Exactly(ActionDues(action, s.windows.stack, Holds(action, s)), s.log, AfterInner(action, s).log)
    decreases |s.handlers|, Weight(action), 9
  {
    match action
    case CreateEntity(created, construct) => CreatingExact(created, construct, s);
    case Update(body) => ScriptExact(body, s);
    case UpdateWindow(id, callback) => UpdatingExact(id, callback, s);
    case OpenWindow(create, opening) => OpeningExact(create, opening, s);
  }

  lemma {:induction false} CreatingExact(created: EntityId, construct: seq<Action>, s: State)
    requires s.updates > 0
    ensures Exactly(ActionDues(CreateEntity(created, construct), s.windows.stack, None), s.log,
                    AfterCreating(created, construct, s).log)
    decreases |s.handlers|, ScriptWeight(construct), 8
  {
    var built, effect := AfterScript(construct, s), EntityCreated(created, Top(s.windows.stack));
    ScriptExact(construct, s);
    PushExact(built, effect);
    ExactThenExact(Runs(construct, s.windows.stack), [Enqueue(effect)], s.log, built.log, built.Push(effect).log);
  }

  // ---------- Windows ----------

  lemma FrontOf<T>(s: seq<T>, last: T)
    ensures Front(s + [last]) == s
  {
  }

  lemma {:induction false} UpdatingExact(id: WindowId, callback: Callback, s: State)
    requires s.updates > 0
    ensures Exactly(UpdateDues(id, callback, s), s.log, AfterUpdating(id, callback, s).log)
    decreases |s.handlers|, ScriptWeight(callback.body), 8
  {
    if s.windows.Free(id) {
      HeldExact(id, callback, s);
    } else {
      NothingDone(s.log);
    }
  }

  lemma {:induction false} HeldExact(id: WindowId, callback: Callback, s: State)
    requires s.updates > 0 && s.windows.Free(id)
    ensures Exactly(HeldDues(id, s.windows.slots[id].value, callback, s.windows.stack), s.log, AfterHeld(id, callback, s).log)
    decreases |s.handlers|, ScriptWeight(callback.body), 7
  {
    var window, taken := s.windows.slots[id].value, s.(windows := s.windows.Take(id));
    ScriptExact(callback.body, taken);
    var ran := AfterScript(callback.body, taken);
    var left := ran.(windows := ran.windows.Leave());
    FrontOf(s.windows.stack, window.handle);
    var code := Runs(callback.body, s.windows.stack + [window.handle]);
    if Closes(window, callback) {
      ClosingExact(id, callback, left);
      ExactThenExact(code, [Close(id)], s.log, ran.log, AfterClosing(id, callback, left).log);
    } else {
      assert code + [] == code;
    }
  }

  lemma {:induction false} ClosingExact(id: WindowId, asked: Callback, s: State)
    requires s.updates > 0
    ensures Exactly([Close(id)], s.log, AfterClosing(id, asked, s).log)
    decreases |s.handlers|, 0, 5
  {
    CallbacksExact(s.Answer(), Closing(id, asked, s));
    ExactlyFrom(Close(id), s.log, Closed(id, asked, s.Answer(), s.windows.stack), AfterClosing(id, asked, s).log);
  }

  lemma {:induction false} CallbacksExact(callbacks: seq<Callback>, s: State)
    requires s.updates > 0
    ensures Exactly(RunsAll(callbacks, s.windows.stack), s.log, AfterCallbacks(callbacks, s).log)
    decreases |s.handlers|, CallbacksWeight(callbacks), 0
  {
    if callbacks == [] {
      NothingDone(s.log);
    } else {
      var next := AfterScript(callbacks[0].body, s);
      ScriptExact(callbacks[0].body, s);
      CallbacksExact(callbacks[1..], next);
      ExactThenExact(Runs(callbacks[0].body, s.windows.stack), RunsAll(callbacks[1..], s.windows.stack), s.log, next.log,
                     AfterCallbacks(callbacks[1..], next).log);
    }
  }

  lemma {:induction false} OpeningExact(create: seq<Action>, opening: Opening, s: State)
    requires s.updates > 0
    ensures Exactly(OpeningDues(create, opening, s), s.log, AfterOpening(create, opening, s).log)
    decreases |s.handlers|, ScriptWeight(create) + OpeningWeight(opening), 8
  {
    var reserved := s.(windows := s.windows.Reserve());
    ScriptExact(create, reserved);
    var created := AfterScript(create, reserved);
    CreatedExact(opening, s.windows.next, created);
    ExactThenExact(Runs(create, s.windows.stack),
                   BuildDues(opening, OpeningWindow(opening, s.windows.next), s.windows.stack),
                   s.log, created.log, AfterCreated(opening, s.windows.next, created).log);
    assert AfterOpening(create, opening, s) == AfterCreated(opening, s.windows.next, created);
  }

  lemma {:induction false} CreatedExact(opening: Opening, id: WindowId, created: State)
    requires created.updates > 0
    ensures Exactly(BuildDues(opening, OpeningWindow(opening, id), created.windows.stack), created.log,
                    AfterCreated(opening, id, created).log)
    decreases |created.handlers|, OpeningWeight(opening), 7
  {
    if opening.Succeeds? {
      BuildExact(id, opening.build, opening.draw, created);
      ThenOpened(CodeDues(opening.build, opening.draw, id, created.windows.stack), created.log,
                 AfterBuild(id, opening.build, opening.draw, created).log, Window(id, opening.removes));
    } else {
      NothingDone(created.log);
    }
  }

  lemma ThenOpened(dues: seq<Due>, before: seq<Step>, between: seq<Step>, window: Window)
    requires Exactly(dues, before, between)
    ensures Exactly(dues + [Open(window)], before, between + [Opened(window)])
  {
    NothingDone(between + [Opened(window)]);
    ExactlyFrom(Open(window), between, Opened(window), between + [Opened(window)]);
    ExactThenExact(dues, [Open(window)], before, between, between + [Opened(window)]);
  }

  lemma {:induction false} BuildExact(id: WindowId, build: seq<Action>, draw: seq<Action>, s: State)
    requires s.updates > 0
    ensures Exactly(CodeDues(build, draw, id, s.windows.stack), s.log, AfterBuild(id, build, draw, s).log)
    decreases |s.handlers|, ScriptWeight(build) + ScriptWeight(draw), 6
  {
    var entered := s.(windows := s.windows.(stack := s.windows.stack + [id]));
    ScriptExact(build, entered);
    var built := AfterScript(build, entered);
    FrontOf(s.windows.stack, id);
    var exited := built.(windows := built.windows.(stack := Front(built.windows.stack)));
    PushExact(exited, Defer);
    ScriptExact(draw, exited.Push(Defer));
    var r := AfterScript(draw, exited.Push(Defer));
    ExactThenExact([Enqueue(Defer)], Runs(draw, s.windows.stack), built.log, exited.Push(Defer).log, r.log);
    ExactThenExact(Runs(build, s.windows.stack + [id]), [Enqueue(Defer)] + Runs(draw, s.windows.stack), s.log, built.log, r.log);
  }

  // ---------- The flush ----------

  lemma ReleaseCounted(before: seq<Step>, entity: EntityId, callbacks: seq<Callback>, after: seq<Step>)
    requires Exactly(RunsAll(callbacks, []), before + [Released(entity, callbacks)], after)
    ensures Exactly([], before, after)
  {
    OccasionExact(before, Released(entity, callbacks), RunsAll(callbacks, []), after);
  }

  lemma DeliveryCounted(before: seq<Step>, effect: Effect, callbacks: seq<Callback>, after: seq<Step>)
    requires !InWindow(effect) && Exactly(RunsAll(callbacks, []), before + [Delivered(effect, callbacks, None)], after)
    ensures Exactly([], before, after)
  {
    OccasionExact(before, Delivered(effect, callbacks, None), RunsAll(callbacks, []), after);
  }

  lemma DeliveryCountedInWindow(before: seq<Step>, effect: Effect, callbacks: seq<Callback>, id: WindowId,
                                found: Option<Window>, after: seq<Step>)
    requires effect.EntityCreated? && effect.window == Some(id)
    requires Exactly(RunsReached(callbacks, id, found), before + [Delivered(effect, callbacks, found)], after)
    ensures Exactly([], before, after)
  {
    OccasionExact(before, Delivered(effect, callbacks, found), RunsReached(callbacks, id, found), after);
  }

  lemma ReleaseFirstExact(s: State)
    requires s.updates > 0 && s.windows.stack == [] && s.dropped != []
    ensures Exactly([], s.log, AfterReleaseFirst(s).log)
  {
    ReleasedExact(s);
    ReleaseCounted(s.log, s.dropped[0], s.Answer(), AfterReleaseFirst(s).log);
  }

  lemma ReleasedExact(s: State)
    requires s.updates > 0 && s.windows.stack == [] && s.dropped != []
    ensures Exactly(RunsAll(s.Answer(), []), Releasing(s).log, AfterReleaseFirst(s).log)
  {
    CallbacksExact(s.Answer(), Releasing(s));
  }

  lemma {:induction false} ReleaseExact(behaviour: seq<seq<Callback>>, s: State)
    requires Valid(behaviour, s) && InFlush(s)
    ensures Exactly([], s.log, AfterRelease(s).log)
    decreases |s.handlers|, |s.dropped|
  {
    if s.dropped == [] {
      NothingDone(s.log);
    } else {
      var next := AfterReleaseFirst(s);
      NoneUpdated(s.windows, SumOf(s.log));
      ReleaseFirstExact(s);
      ReleaseFirstWent(behaviour, s);
      ReleaseExact(behaviour, next);
      ExactThenNothing([], s.log, next.log, AfterRelease(next).log);
    }
  }

  lemma ObservedExact(behaviour: seq<seq<Callback>>, callback: Callback, id: WindowId, s: State)
    requires Valid(behaviour, s) && s.updates > 0 && s.windows.leases == []
    ensures Exactly(ReachedOnce(callback, id, s.windows.Slot(id)), s.log, AfterObserver(callback, id, s).log)
  {
    NoneUpdated(s.windows, SumOf(s.log));
    DuesReached(id, callback, s);
    UpdatedExact(id, callback, s);
    ThenMissed(ReachedOnce(callback, id, s.windows.Slot(id)), s.log, AfterUpdateWindow(id, callback, s).log, id);
  }

  lemma ThenMissed(dues: seq<Due>, before: seq<Step>, between: seq<Step>, id: WindowId)
    requires Exactly(dues, before, between)
    ensures Exactly(dues, before, between + [Missed(id)])
  {
    Uncounted(between, Missed(id));
    ExactThenNothing(dues, before, between, between + [Missed(id)]);
  }

  lemma UpdatedExact(id: WindowId, callback: Callback, s: State)
    requires s.updates > 0
    ensures Exactly(UpdateDues(id, callback, s), s.log, AfterUpdateWindow(id, callback, s).log)
  {
    UpdatingExact(id, callback, s.Begin());
    UpdateIsFinished(id, callback, s);
  }

  lemma UpdateIsFinished(id: WindowId, callback: Callback, s: State)
    requires s.updates > 0
    ensures AfterUpdateWindow(id, callback, s).log == AfterUpdating(id, callback, s.Begin()).log
  {
    var inner := AfterInner(UpdateWindow(id, callback), s.Begin());
    assert inner.updates == s.updates + 1;
    assert AfterUpdateWindow(id, callback, s) == AfterFinish(inner);
  }

  lemma {:induction false} CallbacksInWindowExact(behaviour: seq<seq<Callback>>, callbacks: seq<Callback>, id: WindowId, s: State)
    requires Valid(behaviour, s) && s.updates > 0 && s.windows.leases == [] && id < s.windows.next
    ensures Exactly(RunsReached(callbacks, id, s.windows.Slot(id)), s.log, AfterCallbacksInWindow(callbacks, id, s).log)
    decreases |callbacks|
  {
    if callbacks == [] {
      NothingDone(s.log);
    } else {
      var found, next := s.windows.Slot(id), AfterObserver(callbacks[0], id, s);
      ObservedWent(behaviour, callbacks[0], id, s);
      ObservedExact(behaviour, callbacks[0], id, s);
      CallbacksInWindowExact(behaviour, callbacks[1..], id, next);
      var r := AfterCallbacksInWindow(callbacks[1..], id, next);
      assert AfterCallbacksInWindow(callbacks, id, s) == r;
      ExactThenExact(ReachedOnce(callbacks[0], id, found), RunsReached(callbacks[1..], id, Left(found, callbacks[0])),
                     s.log, next.log, r.log);
      ReachedNext(callbacks, id, found);
    }
  }

  lemma DeliverExact(behaviour: seq<seq<Callback>>, s: State)
    requires Valid(behaviour, s) && InFlush(s) && s.dropped == [] && s.queue.effects != []
    ensures Exactly([], s.log, AfterDeliver(s).log)
  {
    var effect := s.queue.effects[0];
    if effect.RefreshWindows? {
      Uncounted(s.log, Delivered(effect, [], None));
    } else if InWindow(effect) {
      DeliverExactInWindow(behaviour, s, effect.window.value);
    } else {
      NoneUpdated(s.windows, SumOf(s.log));
      DeliverExactAnywhere(s);
    }
  }

  lemma DeliverExactInWindow(behaviour: seq<seq<Callback>>, s: State, id: WindowId)
    requires Valid(behaviour, s) && InFlush(s) && s.dropped == [] && s.queue.effects != []
    requires s.queue.effects[0].EntityCreated? && s.queue.effects[0].window == Some(id)
    ensures Exactly([], s.log, AfterDeliver(s).log)
  {
    DeliveringValid(behaviour, s);
    assert s.queue.effects[0] in s.queue.effects;
    CallbacksInWindowExact(behaviour, s.Answer(), id, Delivering(s));
    DeliveryCountedInWindow(s.log, s.queue.effects[0], s.Answer(), id, s.windows.Slot(id), AfterDeliver(s).log);
  }

  lemma DeliverExactAnywhere(s: State)
    requires s.updates > 0 && s.windows.stack == [] && s.queue.effects != []
    requires !s.queue.effects[0].RefreshWindows? && !InWindow(s.queue.effects[0])
    ensures Exactly([], s.log, AfterDeliver(s).log)
  {
    AnsweredExactAnywhere(s);
    DeliveryCounted(s.log, s.queue.effects[0], s.Answer(), AfterDeliver(s).log);
  }

  lemma AnsweredExactAnywhere(s: State)
    requires s.updates > 0 && s.windows.stack == [] && s.queue.effects != []
    requires !s.queue.effects[0].RefreshWindows? && !InWindow(s.queue.effects[0])
    ensures Exactly(RunsAll(s.Answer(), []), Delivering(s).log, AfterDeliver(s).log)
  {
    CallbacksExact(s.Answer(), Delivering(s));
  }

  lemma {:induction false} FlushExact(behaviour: seq<seq<Callback>>, s: State)
    requires Valid(behaviour, s) && InFlush(s)
    ensures Exactly([], s.log, AfterFlush(s).log)
    decreases |s.handlers|, |s.queue.effects|
  {
    var released := AfterRelease(s);
    ReleaseExact(behaviour, s);
    ReleaseWent(behaviour, s);
    if released.queue.effects != [] {
      var delivered := AfterDeliver(released);
      DeliverExact(behaviour, released);
      DeliverWent(behaviour, released);
      FlushExact(behaviour, delivered);
      ExactThenNothing([], s.log, released.log, delivered.log);
      ExactThenNothing([], s.log, delivered.log, AfterFlush(delivered).log);
    }
  }

  // ---------- Whole runs ----------

  lemma EntryExact(behaviour: seq<seq<Callback>>, entry: Action, s: State)
    requires Valid(behaviour, s) && s.updates == 0 && IsEntry(entry)
    ensures Exactly([Perform(entry, [])], s.log, AfterAction(entry, s).log)
  {
    NoneUpdated(s.windows, SumOf(s.log));
    var step := Started(entry, [], Holds(entry, s));
    HoldsTruly(behaviour, entry, s);
    NoteValid(behaviour, s, step);
    EntryStartedExact(behaviour, entry, s.Note(step));
    ExactlyFrom(Perform(entry, []), s.log, step, AfterAction(entry, s).log);
  }

  lemma EntryStartedExact(behaviour: seq<seq<Callback>>, entry: Action, s: State)
    requires Valid(behaviour, s) && s.updates == 0 && IsEntry(entry)
    ensures Exactly(ActionDues(entry, s.windows.stack, Holds(entry, s)), s.log, AfterStarted(entry, s).log)
  {
    var begun := s.Begin();
    BeginValid(behaviour, s);
    InnerKept(behaviour, entry, begun);
    InnerExact(entry, begun);
    StartedIsFinished(entry, s);
    FinishExact(behaviour, AfterInner(entry, begun));
    ExactThenNothing(ActionDues(entry, s.windows.stack, Holds(entry, s)), s.log, AfterInner(entry, begun).log,
                     AfterStarted(entry, s).log);
  }

  lemma FinishExact(behaviour: seq<seq<Callback>>, s: State)
    requires Valid(behaviour, s) && s.updates == 1 && !s.flushing && s.windows.leases == []
    ensures Exactly([], s.log, AfterFinish(s).log)
  {
    var flushing := s.(flushing := true).Note(Flushing);
    FlushBegins(behaviour, s);
    Uncounted(s.log, Flushing);
    FlushExact(behaviour, flushing);
    ExactThenNothing([], s.log, flushing.log, AfterFlush(flushing).log);
  }

  /**
   * Over any run from the start: every action was started with these windows being updated, every effect other
   * than a notification queued, and every window opened and closed, exactly as often as an entry or a step of
   * the log calls for it.
   */
  lemma EntriesExact(behaviour: seq<seq<Callback>>, entries: seq<Action>)
    requires AllEntries(entries)
    ensures var log := AfterEntries(entries, Initial(behaviour)).log;
            Done(log) == OwedIn(log) + Counted(Entered(entries))
  {
    EntriesBalance(behaviour, entries);
    var log := AfterEntries(entries, Initial(behaviour)).log;
    assert Done(log) + OwedIn([]) == Done(log) && Done([]) + OwedIn(log) == OwedIn(log);
  }

  lemma {:induction false} EntriesBalance(behaviour: seq<seq<Callback>>, entries: seq<Action>)
    requires AllEntries(entries)
    ensures Exactly(Entered(entries), [], AfterEntries(entries, Initial(behaviour)).log)
    decreases |entries|
  {
    if entries == [] {
      NothingDone([]);
    } else {
      var front, entry := entries[..|entries| - 1], entries[|entries| - 1];
      var before := AfterEntries(front, Initial(behaviour));
      EntriesBalance(behaviour, front);
      EntriesGoWell(behaviour, front);
      EntryExact(behaviour, entry, before);
      ExactThenExact(Entered(front), [Perform(entry, [])], [], before.log, AfterAction(entry, before).log);
    }
  }
}
