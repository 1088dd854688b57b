/** What every run of the application context keeps, and what its log says. */
module AppLaws {
  import opened Options
  import opened AppRuns

  // ---------- What is due ----------

  /** What must follow: an action starts with these windows being updated, or something is done. */
  datatype Due =
    | Perform(action: Action, stack: seq<WindowId>)
    | Enqueue(effect: Effect)
    | Open(filled: Window)
    | Close(closed: WindowId)

  ghost predicate Meets(step: Step, due: Due) {
    match due
    case Perform(action, stack) => step.Started? && step.action == action && step.stack == stack
    case Enqueue(effect) => step.Queued? && step.queued == effect
    case Open(window) => step.Opened? && step.filled == window
    case Close(window) => step.Closed? && step.closed == window
  }

  /** All of `dues` is met in the log, in order; other things may happen in between. */
  ghost predicate InOrder(dues: seq<Due>, log: seq<Step>)
    decreases |dues|
  {
    dues == [] || exists k :: 0 <= k < |log| && MetAt(dues, log, k)
  }

  ghost predicate MetAt(dues: seq<Due>, log: seq<Step>, k: nat)
    requires dues != [] && k < |log|
    decreases |dues|, 0
  {
    Meets(log[k], dues[0]) && InOrder(dues[1..], log[k + 1..])
  }

  lemma InOrderLater(dues: seq<Due>, before: seq<Step>, log: seq<Step>)
    requires InOrder(dues, log)
    ensures InOrder(dues, before + log)
  {
    if dues != [] {
      var k :| 0 <= k < |log| && MetAt(dues, log, k);
      assert (before + log)[|before| + k + 1..] == log[k + 1..];
      assert MetAt(dues, before + log, |before| + k);
    }
  }

  lemma {:induction false} InOrderConcat(a: seq<Due>, b: seq<Due>, s: seq<Step>, t: seq<Step>)
    requires InOrder(a, s) && InOrder(b, t)
    ensures InOrder(a + b, s + t)
    decreases |a|
  {
    if a == [] {
      assert a + b == b;
      InOrderLater(b, s, t);
    } else {
      var k :| 0 <= k < |s| && MetAt(a, s, k);
      InOrderConcat(a[1..], b, s[k + 1..], t);
      assert (a + b)[1..] == a[1..] + b;
      assert (s + t)[k + 1..] == s[k + 1..] + t;
      assert MetAt(a + b, s + t, k);
    }
  }

  /** Between two moments with these logs, all of `dues` was met in order. */
  ghost predicate Met(dues: seq<Due>, before: seq<Step>, after: seq<Step>) {
    before <= after && InOrder(dues, after[|before|..])
  }

  lemma MetThenMet(a: seq<Due>, b: seq<Due>, before: seq<Step>, between: seq<Step>, after: seq<Step>)
    requires Met(a, before, between) && Met(b, between, after)
    ensures Met(a + b, before, after)
  {
    InOrderConcat(a, b, between[|before|..], after[|between|..]);
    assert after[|before|..] == between[|before|..] + after[|between|..];
  }

  lemma NothingDue(before: seq<Step>, after: seq<Step>)
    requires before <= after
    ensures Met([], before, after)
  {
  }

  lemma MetThenMore(a: seq<Due>, before: seq<Step>, between: seq<Step>, after: seq<Step>)
    requires Met(a, before, between) && between <= after
    ensures Met(a, before, after)
  {
    NothingDue(between, after);
    MetThenMet(a, [], before, between, after);
    assert a + [] == a;
  }

  lemma MoreThenMet(a: seq<Due>, before: seq<Step>, between: seq<Step>, after: seq<Step>)
    requires before <= between && Met(a, between, after)
    ensures Met(a, before, after)
  {
    NothingDue(before, between);
    MetThenMet([], a, before, between, after);
    assert [] + a == a;
  }

  lemma MetByOne(due: Due, step: Step, before: seq<Step>)
    requires Meets(step, due)
    ensures Met([due], before, before + [step])
  {
    assert (before + [step])[|before|..] == [step];
    assert MetAt([due], [step], 0);
  }

  // ---------- What each step of the log owes ----------

  ghost function Runs(script: seq<Action>, stack: seq<WindowId>): seq<Due> {
    if script == [] then [] else [Perform(script[0], stack)] + Runs(script[1..], stack)
  }

  ghost function RunsAll(callbacks: seq<Callback>, stack: seq<WindowId>): seq<Due> {
    if callbacks == [] then [] else Runs(callbacks[0].body, stack) + RunsAll(callbacks[1..], stack)
  }

  /** The observers of a new entity that find its window: up to the first update that closes it, if it is
      open at all. */
  ghost function RunsReached(callbacks: seq<Callback>, window: WindowId, found: Option<Window>): seq<Due> {
    if callbacks == [] || found.None? then []
    else HeldDues(window, found.value, callbacks[0], []) + RunsReached(callbacks[1..], window, Left(found, callbacks[0]))
  }

  /** An update of a window runs its callback with the window on the stack, and closes it if it was asked to
      close. */
  ghost function HeldDues(id: WindowId, window: Window, callback: Callback, stack: seq<WindowId>): seq<Due> {
    Runs(callback.body, stack + [window.handle]) + if Closes(window, callback) then [Close(id)] else []
  }

  ghost function OpenDues(create: seq<Action>, opening: Opening, window: Window, stack: seq<WindowId>): seq<Due> {
    Runs(create, stack) + BuildDues(opening, window, stack)
  }

  ghost function BuildDues(opening: Opening, window: Window, stack: seq<WindowId>): seq<Due> {
    if opening.Succeeds? then CodeDues(opening.build, opening.draw, window.handle, stack) + [Open(window)] else []
  }

  /** The root view is built with the window on the stack; then a deferred call is queued and the window is drawn. */
  ghost function CodeDues(build: seq<Action>, draw: seq<Action>, id: WindowId, stack: seq<WindowId>): seq<Due> {
    Runs(build, stack + [id]) + ([Enqueue(Defer)] + Runs(draw, stack))
  }

  /** The window being updated, the innermost one. */
  ghost function Innermost(stack: seq<WindowId>): Option<WindowId> {
    if stack == [] then None else Some(stack[|stack| - 1])
  }

  /** What a started action is bound to do, besides what depends on the queue. */
  ghost function ActionDues(action: Action, stack: seq<WindowId>, held: Option<Window>): seq<Due> {
    match action
    case EmitEvent(source) => [Enqueue(Emit(source))]
    case RefreshAll => [Enqueue(RefreshWindows)]
    case DeferCall => [Enqueue(Defer)]
    case CreateEntity(created, construct) => Runs(construct, stack) + [Enqueue(EntityCreated(created, Innermost(stack)))]
    case Update(body) => Runs(body, stack)
    case UpdateWindow(id, callback) => if held.Some? then HeldDues(id, held.value, callback, stack) else []
    case OpenWindow(create, opening) => if held.Some? then OpenDues(create, opening, held.value, stack) else []
    case _ => []
  }

  ghost function Owed(step: Step): seq<Due> {
    match step
    case Started(action, stack, held) => ActionDues(action, stack, held)
    case Closed(_, _, callbacks, stack) => RunsAll(callbacks, stack)
    case Released(_, callbacks) => RunsAll(callbacks, [])
    case Delivered(effect, callbacks, found) =>
      if InWindow(effect) then RunsReached(callbacks, effect.window.value, found) else RunsAll(callbacks, [])
    case _ => []
  }

  /** Everything that a step from `from` on owes has been done, in order, after it. */
  ghost predicate Settled(log: seq<Step>, from: nat) {
    forall k :: from <= k < |log| ==> SettledAt(log, k)
  }

  ghost predicate SettledAt(log: seq<Step>, k: nat)
    requires k < |log|
  {
    InOrder(Owed(log[k]), log[k + 1..]) && ToldAt(log, k)
  }

  /** The notification that a step calls for is under way by then, or is queued at once. */
  ghost predicate ToldAt(log: seq<Step>, k: nat)
    requires k < |log|
  {
    var told := Tells(SumOf(log[..k]), log[k]);
    told.Some? ==> told.value in Outstanding(SumOf(log[..k])) || (k + 1 < |log| && log[k + 1] == Queued(told.value))
  }

  /** Whose observers a step must tell: those of a global that is set, and those of an entity that is notified,
      unless there are windows showing it and all of them are drawing. */
  ghost function Tells(sum: Sum, step: Step): Option<Effect> {
    if !step.Started? then None
    else
      match step.action
      case SetGlobal(globalType) => Some(NotifyGlobalObservers(globalType))
      case NotifyEntity(entity) => if entity !in sum.released && IsToldOf(sum.facts, entity) then Some(Notify(entity)) else None
      case _ => None
  }

  ghost predicate IsToldOf(facts: Facts, entity: EntityId) {
    || (forall w <- facts.tracked :: !Showing(facts, w, entity))
    || (exists w <- facts.tracked :: Showing(facts, w, entity) && w !in facts.drawing)
  }

  /** The effects queued and not delivered yet. */
  ghost function Outstanding(sum: Sum): seq<Effect> {
    if |sum.delivered| <= |sum.accepted| then sum.accepted[|sum.delivered|..] else []
  }

  lemma SettledAtStill(before: seq<Step>, after: seq<Step>, k: nat)
    requires before <= after && k < |before| && SettledAt(before, k)
    ensures SettledAt(after, k)
  {
    assert Met(Owed(before[k]), before[..k + 1], before);
    MetThenMore(Owed(before[k]), before[..k + 1], before, after);
    assert after[|before[..k + 1]|..] == after[k + 1..];
    assert after[..k] == before[..k];
  }

  lemma SettledThenSettled(a: seq<Step>, b: seq<Step>, c: seq<Step>)
    requires a <= b <= c && Settled(b, |a|) && Settled(c, |b|)
    ensures Settled(c, |a|)
  {
    forall k | |a| <= k < |c| ensures SettledAt(c, k) {
      if k < |b| {
        SettledAtStill(b, c, k);
      }
    }
  }

  /** A step that owes `dues`, followed by a settled stretch that meets them. */
  lemma SettledFrom(before: seq<Step>, step: Step, after: seq<Step>)
    requires Met(Owed(step), before + [step], after) && Settled(after, |before| + 1)
    requires |before| < |after| && ToldAt(after, |before|)
    ensures Settled(after, |before|)
  {
    forall k | |before| <= k < |after| ensures SettledAt(after, k) {
      if k == |before| {
        assert after[k] == (before + [step])[k];
      }
    }
  }

  lemma NothingOwed(before: seq<Step>, step: Step)
    requires Owed(step) == [] && !step.Started?
    ensures Settled(before + [step], |before|)
  {
  }

  /** Most steps notify nobody. */
  lemma TellsNobody(before: seq<Step>, step: Step, after: seq<Step>)
    requires before + [step] <= after
    requires step.Started? ==> !step.action.SetGlobal? && !step.action.NotifyEntity?
    ensures |before| < |after| && ToldAt(after, |before|)
  {
    assert after[|before|] == (before + [step])[|before|];
  }

  // ---------- What a log adds up to ----------

  /** The observers that do not find their window. */
  ghost function Misses(callbacks: seq<Callback>, id: WindowId, found: Option<Window>): seq<WindowId> {
    if callbacks == [] then []
    else (if found.Some? then [] else [id]) + Misses(callbacks[1..], id, Left(found, callbacks[0]))
  }

  datatype Sum = Sum(
    accepted: seq<Effect>,
    delivered: seq<Effect>,
    missed: seq<WindowId>,
    /** The misses that the deliveries account for. */
    unreached: seq<WindowId>,
    filled: set<WindowId>,
    /** Windows that were asked to close while being opened. */
    flagged: set<WindowId>,
    closed: set<WindowId>,
    released: set<EntityId>,
    flushes: nat,
    /** How many effects, releases and closings there were for handlers to answer. */
    occasions: nat,
    /** Windows closed and not recorded since. */
    untracked: set<WindowId>,
    /** Entities released and not recorded since. */
    forgotten: set<EntityId>,
    facts: Facts,
    /** The notification that the last step may have given rise to. */
    cause: Option<Effect>)

  datatype Facts = Facts(
    /** What each window was last said to show, until it was closed. */
    tracked: map<WindowId, set<EntityId>>,
    /** The window that an entity was created in or shown in last, until either is gone. */
    current: map<EntityId, WindowId>,
    /** The windows last said to be drawing. */
    drawing: set<WindowId>,
    /** The windows that were open at a refresh. */
    refreshed: set<WindowId>,
    /** The views of entities that were notified while the window showed them. */
    dirtied: set<(WindowId, EntityId)>,
    /** The entities whose last handle is gone. */
    dropped: set<EntityId>)

  const NOTHING := Sum([], [], [], [], {}, {}, {}, {}, 0, 0, {}, {}, Facts(map[], map[], {}, {}, {}, {}), None)

  ghost function Add(sum: Sum, step: Step): Sum {
    AddStep(sum, step).(facts := FactsAfter(sum, step), cause := CauseOf(sum, step))
  }

  ghost function AddStep(sum: Sum, step: Step): Sum {
    match step
    case Started(action, _, _) =>
      if action.RecordAccess? then
        sum.(untracked := sum.untracked - {action.window}, forgotten := sum.forgotten - action.entities)
      else sum
    case Queued(effect) => sum.(accepted := sum.accepted + [effect])
    case Opened(window) =>
      sum.(filled := sum.filled + {window.handle},
           flagged := if window.removed then sum.flagged + {window.handle} else sum.flagged)
    case Closed(window, _, _, _) =>
      sum.(closed := sum.closed + {window}, untracked := sum.untracked + {window}, occasions := sum.occasions + 1)
    case Flushing => sum.(flushes := sum.flushes + 1)
    case Released(entity, _) =>
      sum.(released := sum.released + {entity}, forgotten := sum.forgotten + {entity}, occasions := sum.occasions + 1)
    case Delivered(effect, callbacks, found) =>
      sum.(delivered := sum.delivered + [effect], occasions := sum.occasions + if effect.RefreshWindows? then 0 else 1,
           unreached := if InWindow(effect) then sum.unreached + Misses(callbacks, effect.window.value, found) else sum.unreached,
           forgotten := if InWindow(effect) then sum.forgotten - {effect.entity} else sum.forgotten)
    case Missed(window) => sum.(missed := sum.missed + [window])
  }

  ghost function FactsAfter(sum: Sum, step: Step): Facts {
    var facts := sum.facts;
    match step
    case Started(action, _, _) => FactsAfterAction(facts, action)
    case Closed(window, _, _, _) => FactsWithout(facts, window)
    case Released(entity, _) => facts.(current := facts.current - {entity})
    case Delivered(effect, _, _) =>
      if effect.RefreshWindows? then facts.(refreshed := facts.refreshed + (sum.filled - sum.closed))
      else if InWindow(effect) then facts.(current := facts.current[effect.entity := effect.window.value])
      else facts
    case _ => facts
  }

  /** A closed window shows nothing; what it showed last has no current window any more if it was this one. */
  ghost function FactsWithout(facts: Facts, window: WindowId): Facts {
    facts.(tracked := facts.tracked - {window},
           current := map e | e in facts.current && !(facts.current[e] == window && Showing(facts, window, e)) :: facts.current[e])
  }

  ghost function FactsAfterAction(facts: Facts, action: Action): Facts {
    match action
    case RecordAccess(window, entities) =>
      facts.(tracked := facts.tracked[window := entities],
             current := map e | e in facts.current.Keys + entities :: if e in entities then window else facts.current[e])
    case SetDrawing(window, drawing) => facts.(drawing := if drawing then facts.drawing + {window} else facts.drawing - {window})
    case DropEntity(entity) => facts.(dropped := facts.dropped + {entity})
    case NotifyEntity(entity) =>
      facts.(dirtied := facts.dirtied + set w | w in facts.tracked && entity in facts.tracked[w] :: (w, entity))
    case _ => facts
  }

  ghost predicate Showing(facts: Facts, window: WindowId, entity: EntityId) {
    window in facts.tracked && entity in facts.tracked[window]
  }

  ghost function CauseOf(sum: Sum, step: Step): Option<Effect> {
    if step.Started? && step.action.SetGlobal? then Some(NotifyGlobalObservers(step.action.globalType))
    else if step.Started? && step.action.NotifyEntity?
            && (step.action.entity in sum.released || IsToldOf(sum.facts, step.action.entity)) then Some(Notify(step.action.entity))
    else None
  }

  ghost function SumOf(log: seq<Step>): Sum {
    if log == [] then NOTHING else Add(SumOf(log[..|log| - 1]), log[|log| - 1])
  }

  lemma SumStep(log: seq<Step>, step: Step)
    ensures SumOf(log + [step]) == Add(SumOf(log), step)
  {
    assert (log + [step])[..|log|] == log;
  }

  // ---------- Invariants ----------

  /** How often `effect` is queued. */
  ghost function Copies(effects: seq<Effect>, effect: Effect): nat {
    multiset(effects)[effect]
  }

  ghost predicate NotifiedOnce(queue: Queue, e: EntityId) {
    Copies(queue.effects, Notify(e)) == if e in queue.notifications then 1 else 0
  }

  ghost predicate GlobalOnce(queue: Queue, g: GlobalType) {
    Copies(queue.effects, NotifyGlobalObservers(g)) == if g in queue.globals then 1 else 0
  }

  /** An entity or global has one queued notification if it is pending and none otherwise. */
  ghost predicate QueueOk(queue: Queue) {
    (forall e :: NotifiedOnce(queue, e)) && (forall g :: GlobalOnce(queue, g))
  }

  ghost predicate Agrees(index: Index, released: set<EntityId>, w: WindowId, e: EntityId) {
    && (w in index.Listed(e) ==> e in index.Shown(w))
    && (e in index.Shown(w) && e !in released ==> w in index.Listed(e))
  }

  /** The two sides of the index agree, except that a released entity may have lost its entry. */
  ghost predicate IndexOk(index: Index, released: set<EntityId>) {
    forall w, e :: Agrees(index, released, w, e)
  }

  /** Closed windows and released entities are out of the index until they are recorded again. */
  ghost predicate ForgottenOk(index: Index, sum: Sum) {
    && (forall w :: w in sum.untracked ==> w !in index.tracked)
    && (forall e :: e in sum.forgotten ==> index.Listed(e) == {} && e !in index.current)
  }

  ghost predicate Distinct(ids: seq<WindowId>) {
    forall i, j :: 0 <= i < j < |ids| ==> ids[i] != ids[j]
  }

  ghost predicate SlotOk(windows: Windows, sum: Sum, w: WindowId) {
    && (w in windows.slots ==> w < windows.next && (windows.slots[w].None? <==> w in windows.leases))
    && (w in windows.slots && windows.slots[w].Some? ==> windows.slots[w].value == Window(w, w in sum.flagged))
    && (w in windows.leases ==> w in windows.slots && (w in sum.filled ==> w in windows.stack))
    && (w in windows.stack ==> w in windows.leases)
    // The slots are those of the windows opened and not closed, and of those being opened.
    && (w in windows.slots <==> (w in sum.filled && w !in sum.closed) || (w in windows.leases && w !in sum.filled))
    && (w in sum.filled ==> w < windows.next)
    && (w in sum.closed || w in sum.flagged ==> w in sum.filled)
  }

  /** A window is in its slot exactly when no running update or open holds it; none is held twice. */
  ghost predicate WindowsOk(windows: Windows, sum: Sum) {
    && (forall w :: SlotOk(windows, sum, w)) && Distinct(windows.leases) && Distinct(windows.stack)
    && windows.handles == sum.filled - sum.closed
  }

  /** What is shown where, what is drawing and what is to be drawn anew is as the log says last. */
  ghost predicate Remembers(s: State, facts: Facts) {
    && s.index.tracked == facts.tracked && s.index.current == facts.current
    && s.drawing == facts.drawing && s.refreshing == facts.refreshed
  }

  ghost predicate IsDirtyIn(dirty: map<WindowId, set<EntityId>>, w: WindowId, e: EntityId) {
    w in dirty && e in dirty[w]
  }

  ghost predicate DirtyOk(dirty: map<WindowId, set<EntityId>>, released: set<EntityId>, dirtied: set<(WindowId, EntityId)>,
                          w: WindowId, e: EntityId) {
    e !in released ==> (IsDirtyIn(dirty, w, e) <==> (w, e) in dirtied)
  }

  /** The views marked are those of unreleased entities notified while shown there. */
  ghost predicate DirtiesOk(dirty: map<WindowId, set<EntityId>>, released: set<EntityId>, dirtied: set<(WindowId, EntityId)>) {
    forall w, e :: DirtyOk(dirty, released, dirtied, w, e)
  }

  /** An entity whose last handle is gone is either released or waiting to be, once. */
  ghost predicate DropsOk(dropped: seq<EntityId>, released: set<EntityId>, gone: set<EntityId>) {
    && Distinct(dropped)
    && (forall e :: e in gone <==> e in released || e in dropped)
    && (forall e <- dropped :: e !in released)
  }

  /** New entities are announced with a window that has existed; a missed window is not there. */
  ghost predicate AnnouncedOk(effects: seq<Effect>, windows: Windows, sum: Sum) {
    && (forall effect <- effects :: InWindow(effect) ==> effect.window.value < windows.next)
    && (forall w <- sum.missed :: w < windows.next && w !in windows.slots)
  }

  /** The callbacks for occasion `n`; no more once the list is used up. */
  ghost function Nth(behaviour: seq<seq<Callback>>, n: nat): seq<Callback> {
    if n < |behaviour| then behaviour[n] else []
  }

  ghost function From(behaviour: seq<seq<Callback>>, n: nat): seq<seq<Callback>> {
    if n <= |behaviour| then behaviour[n..] else []
  }

  /** Each step of the log tells the truth about what came before. */
  ghost predicate Truthful(behaviour: seq<seq<Callback>>, log: seq<Step>) {
    log == [] || (Truthful(behaviour, log[..|log| - 1]) && TruthfulNext(behaviour, SumOf(log[..|log| - 1]), log[|log| - 1]))
  }

  /** The window, if it is open. */
  ghost function OpenNow(sum: Sum, id: WindowId): Option<Window> {
    if id in sum.filled - sum.closed then Some(Window(id, id in sum.flagged)) else None
  }

  ghost predicate IsNotification(effect: Effect) {
    effect.Notify? || effect.NotifyGlobalObservers?
  }

  ghost predicate TruthfulNext(behaviour: seq<seq<Callback>>, sum: Sum, step: Step) {
    match step
    // An update holds its window exactly if that is open and not being updated already.
    case Started(action, stack, held) =>
      && (action.UpdateWindow? ==> held == if action.id !in stack then OpenNow(sum, action.id) else None)
      && (action.OpenWindow? ==> held.Some? && held.value.handle !in sum.filled)
    // A window is closed only if the callback that held it asked for that, or the code that opened it.
    case Closed(window, asked, callbacks, _) =>
      && (asked.removes || window in sum.flagged)
      && window in sum.filled - sum.closed && callbacks == Nth(behaviour, sum.occasions)
    // An entity is released once, after its last handle is gone.
    case Released(entity, callbacks) => entity in sum.facts.dropped - sum.released && callbacks == Nth(behaviour, sum.occasions)
    // A notification is queued for the step right before it only.
    case Queued(effect) => IsNotification(effect) ==> sum.cause == Some(effect)
    // Effects are delivered in the order they were queued, each to the next callbacks, and only when every
    // entity whose last handle is gone has been released.
    case Delivered(effect, callbacks, found) =>
      && sum.facts.dropped <= sum.released
      && callbacks == (if effect.RefreshWindows? then [] else Nth(behaviour, sum.occasions))
      && sum.delivered + [effect] <= sum.accepted
      && found == if InWindow(effect) then OpenNow(sum, effect.window.value) else None
    case _ => true
  }

  ghost predicate Valid(behaviour: seq<seq<Callback>>, s: State) {
    && QueueOk(s.queue)
    && IndexOk(s.index, s.released)
    && ForgottenOk(s.index, SumOf(s.log))
    && WindowsOk(s.windows, SumOf(s.log))
    && AnnouncedOk(s.queue.effects, s.windows, SumOf(s.log))
    && Truthful(behaviour, s.log)
    && LogOk(behaviour, s)
    && Remembers(s, SumOf(s.log).facts)
    && DirtiesOk(s.dirty, s.released, SumOf(s.log).facts.dirtied)
    && DropsOk(s.dropped, s.released, SumOf(s.log).facts.dropped)
  }

  /** Nothing queued is lost, the releases are those logged, and the handlers left are the rest of all. */
  ghost predicate LogOk(behaviour: seq<seq<Callback>>, s: State) {
    && SumOf(s.log).accepted == SumOf(s.log).delivered + s.queue.effects
    && s.released == SumOf(s.log).released
    && s.handlers == From(behaviour, SumOf(s.log).occasions)
    && (s.updates == 0 ==> s.windows.leases == [] && !s.flushing)
  }

  lemma TruthfulStep(behaviour: seq<seq<Callback>>, log: seq<Step>, step: Step)
    requires Truthful(behaviour, log) && TruthfulNext(behaviour, SumOf(log), step)
    ensures Truthful(behaviour, log + [step])
  {
    assert (log + [step])[..|log|] == log;
  }

  // ---------- Queue ----------

  lemma CopiesPush(effects: seq<Effect>, pushed: Effect, effect: Effect)
    ensures Copies(effects + [pushed], effect) == Copies(effects, effect) + if pushed == effect then 1 else 0
  {
  }

  lemma CopiesPop(effects: seq<Effect>, effect: Effect)
    requires effects != []
    ensures Copies(effects, effect) == Copies(effects[1..], effect) + if effects[0] == effect then 1 else 0
  {
    assert effects == [effects[0]] + effects[1..];
  }

  lemma PushQueueOk(queue: Queue, effect: Effect)
    requires QueueOk(queue) && !queue.Pending(effect)
    ensures QueueOk(queue.Push(effect))
  {
    forall e ensures NotifiedOnce(queue.Push(effect), e) {
      assert NotifiedOnce(queue, e);
      CopiesPush(queue.effects, effect, Notify(e));
    }
    forall g ensures GlobalOnce(queue.Push(effect), g) {
      assert GlobalOnce(queue, g);
      CopiesPush(queue.effects, effect, NotifyGlobalObservers(g));
    }
  }

  lemma PopQueueOk(queue: Queue)
    requires QueueOk(queue) && queue.effects != []
    ensures QueueOk(queue.Pop())
  {
    forall e ensures NotifiedOnce(queue.Pop(), e) {
      assert NotifiedOnce(queue, e);
      CopiesPop(queue.effects, Notify(e));
    }
    forall g ensures GlobalOnce(queue.Pop(), g) {
      assert GlobalOnce(queue, g);
      CopiesPop(queue.effects, NotifyGlobalObservers(g));
    }
  }

  /** A pending notification is in the queue. */
  lemma PendingIsQueued(queue: Queue, effect: Effect)
    requires QueueOk(queue)
    ensures effect.Notify? || effect.NotifyGlobalObservers? ==> (queue.Pending(effect) <==> effect in queue.effects)
  {
    assert Copies(queue.effects, effect) > 0 <==> effect in queue.effects;
    if effect.Notify? {
      assert NotifiedOnce(queue, effect.emitter);
    } else if effect.NotifyGlobalObservers? {
      assert GlobalOnce(queue, effect.globalType);
    }
  }

  // ---------- Index ----------

  lemma RecordOk(index: Index, released: set<EntityId>, window: WindowId, entities: set<EntityId>)
    requires IndexOk(index, released)
    ensures IndexOk(index.Record(window, entities), released)
  {
    forall w, e ensures Agrees(index.Record(window, entities), released, w, e) {
      assert Agrees(index, released, w, e);
    }
  }

  lemma ForgetWindowOk(index: Index, released: set<EntityId>, window: WindowId)
    requires IndexOk(index, released)
    ensures IndexOk(index.ForgetWindow(window), released)
  {
    forall w, e ensures Agrees(index.ForgetWindow(window), released, w, e) {
      assert Agrees(index, released, w, e);
    }
  }

  lemma ForgetEntityOk(index: Index, released: set<EntityId>, entity: EntityId)
    requires IndexOk(index, released)
    ensures IndexOk(index.ForgetEntity(entity), released + {entity})
  {
    forall w, e ensures Agrees(index.ForgetEntity(entity), released + {entity}, w, e) {
      assert Agrees(index, released, w, e);
    }
  }

  /** For an unreleased entity the windows invalidated are exactly those that a scan of all windows finds. */
  lemma LiveIsShown(index: Index, released: set<EntityId>, entity: EntityId, w: WindowId)
    requires IndexOk(index, released)
    ensures w in index.Live(entity) ==> entity in index.Shown(w)
    ensures entity !in released ==> (w in index.Live(entity) <==> entity in index.Shown(w))
  {
    assert Agrees(index, released, w, entity);
  }

  // ---------- Elementary changes keep the invariants ----------

  /** The actions that change nothing but the queue before any other code runs. */
  predicate JustQueues(action: Action) {
    action.EmitEvent? || action.RefreshAll? || action.DeferCall? || action.SetGlobal? || !IsSimple(action)
  }

  /** A step that adds nothing but itself. */
  lemma NoteValid(behaviour: seq<seq<Callback>>, s: State, step: Step)
    requires Valid(behaviour, s) && TruthfulNext(behaviour, SumOf(s.log), step)
    requires (step.Started? && JustQueues(step.action)) || step.Flushing?
    ensures Valid(behaviour, s.Note(step))
    ensures step.Started? && step.action.SetGlobal? ==> SumOf(s.Note(step).log).cause == Some(NotifyGlobalObservers(step.action.globalType))
  {
    SumStep(s.log, step);
    TruthfulStep(behaviour, s.log, step);
    SameSlots(s.windows, SumOf(s.log), SumOf(s.Note(step).log));
  }

  /** The slots are judged by the windows opened and closed only. */
  lemma SameSlots(windows: Windows, before: Sum, after: Sum)
    requires WindowsOk(windows, before)
    requires before.filled == after.filled && before.closed == after.closed && before.flagged == after.flagged
    ensures WindowsOk(windows, after)
  {
    forall w ensures SlotOk(windows, after, w) {
      assert SlotOk(windows, before, w);
    }
  }

  lemma PushValid(behaviour: seq<seq<Callback>>, s: State, effect: Effect)
    requires Valid(behaviour, s) && (InWindow(effect) ==> effect.window.value < s.windows.next)
    requires IsNotification(effect) ==> SumOf(s.log).cause == Some(effect)
    ensures Valid(behaviour, s.Push(effect))
  {
    if !s.queue.Pending(effect) {
      SumStep(s.log, Queued(effect));
      TruthfulStep(behaviour, s.log, Queued(effect));
      PushQueueOk(s.queue, effect);
      SameSlots(s.windows, SumOf(s.log), SumOf(s.Push(effect).log));
    }
  }

  /** Taking the listed windows out and putting them back changes nothing but an empty entry. */
  lemma RelistedOk(index: Index, released: set<EntityId>, sum: Sum, entity: EntityId)
    requires IndexOk(index, released) && ForgottenOk(index, sum)
    ensures var relisted := index.(windows := index.windows[entity := index.Listed(entity)]);
            IndexOk(relisted, released) && ForgottenOk(relisted, sum)
  {
    var relisted := index.(windows := index.windows[entity := index.Listed(entity)]);
    forall w, e ensures Agrees(relisted, released, w, e) {
      assert Agrees(index, released, w, e);
    }
    forall e | e in sum.forgotten ensures relisted.Listed(e) == {} && e !in relisted.current {
      assert index.Listed(e) == {};
    }
  }

  /** Recording what a window shows, once the log says so. */
  lemma RecordForgottenOk(index: Index, sum: Sum, window: WindowId, entities: set<EntityId>)
    requires ForgottenOk(index, sum) && window !in sum.untracked && entities !! sum.forgotten
    ensures ForgottenOk(index.Record(window, entities), sum)
  {
    forall e | e in sum.forgotten ensures index.Record(window, entities).Listed(e) == {} && e !in index.Record(window, entities).current {
      assert index.Listed(e) == {};
    }
  }

  lemma ForgetWindowForgottenOk(index: Index, sum: Sum, after: Sum, window: WindowId)
    requires ForgottenOk(index, sum) && after.untracked == sum.untracked + {window} && after.forgotten == sum.forgotten
    ensures ForgottenOk(index.ForgetWindow(window), after)
  {
    forall e | e in after.forgotten ensures index.ForgetWindow(window).Listed(e) == {} && e !in index.ForgetWindow(window).current {
      assert index.Listed(e) == {};
    }
  }

  lemma ForgetEntityForgottenOk(index: Index, sum: Sum, after: Sum, entity: EntityId)
    requires ForgottenOk(index, sum) && after.untracked == sum.untracked && after.forgotten == sum.forgotten + {entity}
    ensures ForgottenOk(index.ForgetEntity(entity), after)
  {
    forall e | e in after.forgotten ensures index.ForgetEntity(entity).Listed(e) == {} && e !in index.ForgetEntity(entity).current {
      assert e != entity ==> index.Listed(e) == {};
    }
  }

  /** A simple action, noted, up to the notification that it may queue. */
  ghost function Acted(action: Action, s: State): State
    requires IsSimple(action)
  {
    match action
    case NotifyEntity(entity) =>
      s.(index := s.index.(windows := s.index.windows[entity := s.index.Listed(entity)]),
         dirty := Dirtied(s.dirty, s.index.Live(entity), entity))
    case DropEntity(_) => AfterSimple(action, s)
    case RecordAccess(_, _) => AfterSimple(action, s)
    case SetDrawing(_, _) => AfterSimple(action, s)
    case _ => s
  }

  ghost function StepOf(action: Action, s: State): Step {
    Started(action, s.windows.stack, Holds(action, s))
  }

  /** A step that the log knows of, with what it changed. */
  lemma ActedValid(behaviour: seq<seq<Callback>>, s: State, after: State, step: Step)
    requires Valid(behaviour, s) && step.Started? && IsSimple(step.action)
    requires after.log == s.log + [step] && after.queue == s.queue && after.windows == s.windows && after.released == s.released
    requires after.handlers == s.handlers && after.updates == s.updates && after.flushing == s.flushing
    requires IndexOk(after.index, s.released) && ForgottenOk(after.index, SumOf(after.log)) && Remembers(after, SumOf(after.log).facts)
    requires DirtiesOk(after.dirty, s.released, SumOf(after.log).facts.dirtied)
    requires DropsOk(after.dropped, s.released, SumOf(after.log).facts.dropped)
    ensures Valid(behaviour, after)
  {
    SumStep(s.log, step);
    TruthfulStep(behaviour, s.log, step);
    SameSlots(s.windows, SumOf(s.log), SumOf(after.log));
  }

  lemma SimpleStep(log: seq<Step>, step: Step)
    requires step.Started? && IsSimple(step.action)
    ensures SumOf(log + [step]).facts == FactsAfterAction(SumOf(log).facts, step.action)
    ensures !step.action.RecordAccess? ==>
      SumOf(log + [step]).untracked == SumOf(log).untracked && SumOf(log + [step]).forgotten == SumOf(log).forgotten
  {
    SumStep(log, step);
  }

  lemma NotifiedValid(behaviour: seq<seq<Callback>>, s: State, entity: EntityId)
    requires Valid(behaviour, s)
    ensures Valid(behaviour, Acted(NotifyEntity(entity), s.Note(StepOf(NotifyEntity(entity), s))))
  {
    var step := StepOf(NotifyEntity(entity), s);
    var after := Acted(NotifyEntity(entity), s.Note(step));
    SimpleStep(s.log, step);
    RelistedOk(s.index, s.released, SumOf(s.log), entity);
    DirtiedOk(s.index, s.released, s.dirty, SumOf(s.log).facts, entity);
    ActedValid(behaviour, s, after, step);
  }

  /** The windows that show an unreleased entity are those that the log says. */
  lemma DirtiedOk(index: Index, released: set<EntityId>, dirty: map<WindowId, set<EntityId>>, facts: Facts, entity: EntityId)
    requires IndexOk(index, released) && DirtiesOk(dirty, released, facts.dirtied) && index.tracked == facts.tracked
    ensures DirtiesOk(Dirtied(dirty, index.Live(entity), entity), released, FactsAfterAction(facts, NotifyEntity(entity)).dirtied)
  {
    var after, dirtied := Dirtied(dirty, index.Live(entity), entity), FactsAfterAction(facts, NotifyEntity(entity)).dirtied;
    forall w, e ensures DirtyOk(after, released, dirtied, w, e) {
      assert DirtyOk(dirty, released, facts.dirtied, w, e);
      LiveIsShown(index, released, entity, w);
    }
  }

  lemma DroppedValid(behaviour: seq<seq<Callback>>, s: State, entity: EntityId)
    requires Valid(behaviour, s)
    ensures Valid(behaviour, Acted(DropEntity(entity), s.Note(StepOf(DropEntity(entity), s))))
  {
    var step := StepOf(DropEntity(entity), s);
    var after := Acted(DropEntity(entity), s.Note(step));
    SimpleStep(s.log, step);
    if entity !in s.released && entity !in s.dropped {
      DistinctPush(s.dropped, entity);
    }
    ActedValid(behaviour, s, after, step);
  }

  lemma RecordedValid(behaviour: seq<seq<Callback>>, s: State, window: WindowId, entities: set<EntityId>)
    requires Valid(behaviour, s)
    ensures var action := RecordAccess(window, entities); Valid(behaviour, Acted(action, s.Note(StepOf(action, s))))
  {
    var step := StepOf(RecordAccess(window, entities), s);
    var after := Acted(RecordAccess(window, entities), s.Note(step));
    SumStep(s.log, step);
    RecordOk(s.index, s.released, window, entities);
    RecordForgottenOk(s.index, SumOf(after.log), window, entities);
    ActedValid(behaviour, s, after, step);
  }

  lemma DrawingValid(behaviour: seq<seq<Callback>>, s: State, window: WindowId, drawing: bool)
    requires Valid(behaviour, s)
    ensures var action := SetDrawing(window, drawing); Valid(behaviour, Acted(action, s.Note(StepOf(action, s))))
  {
    var step := StepOf(SetDrawing(window, drawing), s);
    var now := if drawing then s.drawing + {window} else s.drawing - {window};
    SimpleStep(s.log, step);
    SetDrawingIs(s.Note(step), window, drawing);
    assert SumOf(s.log + [step]).facts == SumOf(s.log).facts.(drawing := now);
    ActedValid(behaviour, s, s.Note(step).(drawing := now), step);
  }

  lemma SetDrawingIs(s: State, window: WindowId, drawing: bool)
    ensures Acted(SetDrawing(window, drawing), s) == s.(drawing := if drawing then s.drawing + {window} else s.drawing - {window})
  {
  }

  lemma SimpleValid(behaviour: seq<seq<Callback>>, s: State, action: Action)
    requires Valid(behaviour, s) && IsSimple(action)
    ensures Valid(behaviour, Acted(action, s.Note(StepOf(action, s))))
  {
    match action
    case NotifyEntity(entity) => NotifiedValid(behaviour, s, entity);
    case DropEntity(dropped) => DroppedValid(behaviour, s, dropped);
    case RecordAccess(window, entities) => RecordedValid(behaviour, s, window, entities);
    case SetDrawing(window, drawing) => DrawingValid(behaviour, s, window, drawing);
    case _ => NoteValid(behaviour, s, StepOf(action, s));
  }

  // ---------- Slots ----------

  lemma DistinctPush(ids: seq<WindowId>, id: WindowId)
    requires Distinct(ids) && id !in ids
    ensures Distinct(ids + [id])
  {
  }

  lemma DistinctPop(ids: seq<WindowId>, id: WindowId)
    requires Distinct(ids + [id])
    ensures Distinct(ids) && id !in ids
  {
    var longer := ids + [id];
    forall i, j | 0 <= i < j < |ids| ensures ids[i] != ids[j] {
      assert longer[i] != longer[j];
    }
    forall i | 0 <= i < |ids| ensures ids[i] != id {
      assert longer[i] != longer[|ids|];
    }
  }

  lemma TakeOk(windows: Windows, sum: Sum, id: WindowId)
    requires WindowsOk(windows, sum) && windows.Free(id)
    ensures WindowsOk(windows.Take(id), sum)
    ensures windows.slots[id].value == Window(id, id in sum.flagged)
    ensures id !in windows.leases && id !in windows.stack && id in sum.filled - sum.closed
  {
    assert SlotOk(windows, sum, id);
    forall w ensures SlotOk(windows.Take(id), sum, w) {
      assert SlotOk(windows, sum, w);
    }
    DistinctPush(windows.leases, id);
    DistinctPush(windows.stack, id);
  }

  /** Leaving the innermost update and putting its window back. */
  lemma ReturnOk(windows: Windows, sum: Sum, id: WindowId, stack: seq<WindowId>, leases: seq<WindowId>)
    requires WindowsOk(windows, sum) && windows.stack == stack + [id] && windows.leases == leases + [id]
    requires id in sum.filled
    ensures WindowsOk(windows.Leave().Fill(id, Window(id, id in sum.flagged)), sum)
    ensures windows.Leave().stack == stack && windows.Leave().leases == leases
    ensures windows.Leave().Fill(id, Window(id, id in sum.flagged)).Free(id)
  {
    assert SlotOk(windows, sum, id);
    DistinctPop(leases, id);
    DistinctPop(stack, id);
    var after := windows.Leave().Fill(id, Window(id, id in sum.flagged));
    assert Front(stack + [id]) == stack && Front(leases + [id]) == leases;
    forall w ensures SlotOk(after, sum, w) {
      assert SlotOk(windows, sum, w);
    }
  }

  /** Leaving the innermost update and closing its window. */
  lemma CloseOk(windows: Windows, sum: Sum, after: Sum, id: WindowId, stack: seq<WindowId>, leases: seq<WindowId>)
    requires WindowsOk(windows, sum) && windows.stack == stack + [id] && windows.leases == leases + [id]
    requires id in sum.filled && after.filled == sum.filled && after.closed == sum.closed + {id} && after.flagged == sum.flagged
    ensures WindowsOk(windows.Leave().Close(id), after)
    ensures windows.Leave().stack == stack && windows.Leave().leases == leases
    ensures id !in sum.closed
  {
    assert SlotOk(windows, sum, id);
    DistinctPop(leases, id);
    DistinctPop(stack, id);
    assert Front(stack + [id]) == stack && Front(leases + [id]) == leases;
    forall w ensures SlotOk(windows.Leave().Close(id), after, w) {
      assert SlotOk(windows, sum, w);
    }
  }

  lemma ReserveOk(windows: Windows, sum: Sum)
    requires WindowsOk(windows, sum)
    ensures WindowsOk(windows.Reserve(), sum)
    ensures windows.next !in windows.stack && windows.next !in sum.filled
  {
    assert SlotOk(windows, sum, windows.next);
    forall w ensures SlotOk(windows.Reserve(), sum, w) {
      assert SlotOk(windows, sum, w);
    }
    DistinctPush(windows.leases, windows.next);
  }

  /** The window being opened is the window being updated while its root view is built. */
  lemma EnterOk(windows: Windows, sum: Sum, id: WindowId)
    requires WindowsOk(windows, sum) && id in windows.leases && id !in windows.stack
    ensures WindowsOk(windows.(stack := windows.stack + [id]), sum)
  {
    forall w ensures SlotOk(windows.(stack := windows.stack + [id]), sum, w) {
      assert SlotOk(windows, sum, w);
    }
    DistinctPush(windows.stack, id);
  }

  lemma ExitOk(windows: Windows, sum: Sum, id: WindowId, stack: seq<WindowId>)
    requires WindowsOk(windows, sum) && windows.stack == stack + [id] && id !in sum.filled
    ensures Front(windows.stack) == stack
    ensures WindowsOk(windows.(stack := stack), sum)
  {
    DistinctPop(stack, id);
    assert Front(stack + [id]) == stack;
    forall w ensures SlotOk(windows.(stack := stack), sum, w) {
      assert SlotOk(windows, sum, w);
    }
  }

  lemma SettleOk(windows: Windows, sum: Sum, after: Sum, id: WindowId, removed: bool, leases: seq<WindowId>)
    requires WindowsOk(windows, sum) && windows.leases == leases + [id] && id !in windows.stack
    requires id !in sum.filled && after.filled == sum.filled + {id} && after.closed == sum.closed
    requires after.flagged == if removed then sum.flagged + {id} else sum.flagged
    ensures WindowsOk(windows.Settle(id, removed), after) && windows.Settle(id, removed).leases == leases
  {
    assert SlotOk(windows, sum, id);
    DistinctPop(leases, id);
    assert Front(leases + [id]) == leases;
    forall w ensures SlotOk(windows.Settle(id, removed), after, w) {
      assert SlotOk(windows, sum, w);
    }
  }

  lemma AbandonOk(windows: Windows, sum: Sum, id: WindowId, leases: seq<WindowId>)
    requires WindowsOk(windows, sum) && windows.leases == leases + [id] && id !in windows.stack && id !in sum.filled
    ensures WindowsOk(windows.Abandon(id), sum) && windows.Abandon(id).leases == leases
  {
    DistinctPop(leases, id);
    assert Front(leases + [id]) == leases;
    forall w ensures SlotOk(windows.Abandon(id), sum, w) {
      assert SlotOk(windows, sum, w);
    }
  }

  /** An update holds its window exactly if that is open and not being updated already. */
  lemma FreeIsOpen(windows: Windows, sum: Sum, id: WindowId)
    requires WindowsOk(windows, sum)
    ensures windows.Slot(id) == if id !in windows.stack then OpenNow(sum, id) else None
    ensures windows.leases == [] ==> windows.Slot(id) == OpenNow(sum, id) && (windows.Free(id) <==> id in windows.slots)
  {
    assert SlotOk(windows, sum, id);
  }

  // ---------- What a stretch of the run keeps ----------

  /** The invariants hold again, and all that was owed on the way is done. */
  ghost predicate Went(behaviour: seq<seq<Callback>>, before: State, after: State) {
    && Valid(behaviour, after)
    && before.log <= after.log && Settled(after.log, |before.log|)
    && SumOf(after.log).flushes == SumOf(before.log).flushes
    && (forall e <- before.dropped :: e in after.dropped || e in after.released)
    // Only windows that were not there before were opened.
    && (forall w <- SumOf(after.log).filled :: w in SumOf(before.log).filled || before.windows.next <= w)
    && (forall w <- SumOf(after.log).flagged :: w in SumOf(before.log).flagged || before.windows.next <= w)
  }

  /** User code inside an update delivers nothing, releases nothing and misses nothing. */
  ghost predicate Calm(before: State, after: State) {
    && SumOf(after.log).delivered == SumOf(before.log).delivered
    && SumOf(after.log).released == SumOf(before.log).released
    && SumOf(after.log).missed == SumOf(before.log).missed
    && SumOf(after.log).unreached == SumOf(before.log).unreached
    && before.dropped <= after.dropped
  }

  ghost predicate Kept(behaviour: seq<seq<Callback>>, before: State, after: State) {
    Went(behaviour, before, after) && Calm(before, after)
  }

  lemma WentThenWent(behaviour: seq<seq<Callback>>, a: State, b: State, c: State)
    requires Went(behaviour, a, b) && Went(behaviour, b, c) && b.released <= c.released && a.windows.next <= b.windows.next
    ensures Went(behaviour, a, c)
  {
    SettledThenSettled(a.log, b.log, c.log);
  }

  lemma KeptThenKept(behaviour: seq<seq<Callback>>, a: State, b: State, c: State)
    requires Kept(behaviour, a, b) && Kept(behaviour, b, c) && b.released <= c.released && a.windows.next <= b.windows.next
    ensures Kept(behaviour, a, c)
  {
    WentThenWent(behaviour, a, b, c);
  }

  /** A change that logs nothing. */
  lemma KeptSilently(behaviour: seq<seq<Callback>>, before: State, after: State)
    requires Valid(behaviour, after) && after.log == before.log && before.dropped <= after.dropped
    ensures Kept(behaviour, before, after)
  {
  }

  /** A change that logs one step that owes nothing and counts for nothing here. */
  lemma KeptNoting(behaviour: seq<seq<Callback>>, before: State, after: State, step: Step)
    requires Valid(behaviour, after) && after.log == before.log + [step] && before.dropped <= after.dropped
    requires step.Queued?
    ensures Kept(behaviour, before, after)
  {
    NothingOwed(before.log, step);
    SumStep(before.log, step);
  }

  /** A started action or a closing does not count as any of these. */
  lemma CalmStep(log: seq<Step>, step: Step)
    requires step.Started? || step.Closed?
    ensures var before, after := SumOf(log), SumOf(log + [step]);
            && after.flushes == before.flushes && after.delivered == before.delivered && after.released == before.released
            && after.missed == before.missed && after.unreached == before.unreached
            && after.filled == before.filled && after.flagged == before.flagged
  {
    SumStep(log, step);
  }

  /** A stretch after a step that was noted first. */
  lemma KeptFrom(behaviour: seq<seq<Callback>>, before: State, noted: State, after: State, step: Step)
    requires noted.log == before.log + [step] && before.dropped <= noted.dropped && (step.Started? || step.Closed?)
    requires Kept(behaviour, noted, after) && Met(Owed(step), noted.log, after.log) && noted.released <= after.released
    requires |before.log| < |after.log| && ToldAt(after.log, |before.log|)
    requires before.windows.next == noted.windows.next
    ensures Kept(behaviour, before, after)
  {
    SettledFrom(before.log, step, after.log);
    CalmStep(before.log, step);
  }

  // ---------- Simple actions ----------

  lemma PushKept(behaviour: seq<seq<Callback>>, s: State, effect: Effect)
    requires Valid(behaviour, s) && (InWindow(effect) ==> effect.window.value < s.windows.next)
    requires IsNotification(effect) ==> SumOf(s.log).cause == Some(effect)
    ensures Kept(behaviour, s, s.Push(effect))
    ensures !IsNotification(effect) ==> Met([Enqueue(effect)], s.log, s.Push(effect).log)
    ensures effect in s.Push(effect).queue.effects
    ensures s.Push(effect).log == s.log + (if IsNotification(effect) && effect in s.queue.effects then [] else [Queued(effect)])
  {
    PushValid(behaviour, s, effect);
    PendingIsQueued(s.queue, effect);
    if s.queue.Pending(effect) {
      KeptSilently(behaviour, s, s.Push(effect));
    } else {
      KeptNoting(behaviour, s, s.Push(effect), Queued(effect));
      MetByOne(Enqueue(effect), Queued(effect), s.log);
    }
  }

  /** What a simple action queues, if anything. */
  ghost function Pushes(action: Action, s: State): Option<Effect>
    requires IsSimple(action)
  {
    match action
    case EmitEvent(source) => Some(Emit(source))
    case RefreshAll => Some(RefreshWindows)
    case DeferCall => Some(Defer)
    case SetGlobal(globalType) => Some(NotifyGlobalObservers(globalType))
    case NotifyEntity(entity) =>
      if s.index.Live(entity) == {} || s.index.Live(entity) - s.drawing != {} then Some(Notify(entity)) else None
    case _ => None
  }

  lemma SimpleInTwo(action: Action, s: State)
    requires IsSimple(action)
    ensures AfterSimple(action, s) == if Pushes(action, s).Some? then Acted(action, s).Push(Pushes(action, s).value) else Acted(action, s)
  {
  }

  /** Of an unreleased entity it is told exactly when the log says so, of a released one no more than it allows. */
  lemma PushesIsTold(behaviour: seq<seq<Callback>>, s: State, entity: EntityId)
    requires Valid(behaviour, s)
    ensures var pushes := Pushes(NotifyEntity(entity), s) == Some(Notify(entity));
            && (pushes ==> entity in SumOf(s.log).released || IsToldOf(SumOf(s.log).facts, entity))
            && (entity !in SumOf(s.log).released && IsToldOf(SumOf(s.log).facts, entity) ==> pushes)
  {
    if entity !in s.released {
      forall w ensures w in s.index.Live(entity) <==> Showing(SumOf(s.log).facts, w, entity) {
        LiveIsShown(s.index, s.released, entity, w);
      }
      ToldByLive(s.index.Live(entity), s.drawing, SumOf(s.log).facts, entity);
    }
  }

  lemma ToldByLive(live: set<WindowId>, drawing: set<WindowId>, facts: Facts, entity: EntityId)
    requires forall w :: w in live <==> Showing(facts, w, entity)
    requires drawing == facts.drawing
    ensures live == {} || live - drawing != {} <==> IsToldOf(facts, entity)
  {
    if live - drawing != {} {
      var w :| w in live - drawing;
      assert Showing(facts, w, entity) && w !in facts.drawing;
    } else if live != {} {
      var w :| w in live;
      assert Showing(facts, w, entity);
      forall v | v in facts.tracked && Showing(facts, v, entity) ensures v in facts.drawing {
        assert v !in live - drawing;
      }
    }
  }

  /** What a simple action tells is under way or queued right after it. */
  lemma SimpleTells(behaviour: seq<seq<Callback>>, s: State, action: Action, after: State)
    requires Valid(behaviour, s) && IsSimple(action)
    requires var pushes := Pushes(action, s);
             after.log == s.log + [StepOf(action, s)] +
               (if pushes.None? || (IsNotification(pushes.value) && pushes.value in s.queue.effects) then [] else [Queued(pushes.value)])
    ensures |s.log| < |after.log| && ToldAt(after.log, |s.log|)
  {
    var step := StepOf(action, s);
    assert after.log[..|s.log|] == s.log && after.log[|s.log|] == step;
    assert Outstanding(SumOf(s.log)) == s.queue.effects;
    if action.NotifyEntity? {
      PushesIsTold(behaviour, s, action.entity);
    }
  }

  lemma PushedKept(behaviour: seq<seq<Callback>>, s: State, action: Action, acted: State)
    requires Valid(behaviour, s) && IsSimple(action) && Pushes(action, s).Some?
    requires Valid(behaviour, acted) && acted.log == s.log + [StepOf(action, s)] && acted.queue == s.queue
    ensures var effect := Pushes(action, s).value; var after := acted.Push(effect);
            && Kept(behaviour, acted, after)
            && (!IsNotification(effect) ==> Met([Enqueue(effect)], acted.log, after.log))
            && after.log == acted.log + (if IsNotification(effect) && effect in s.queue.effects then [] else [Queued(effect)])
  {
    SumStep(s.log, StepOf(action, s));
    if action.NotifyEntity? {
      PushesIsTold(behaviour, s, action.entity);
    }
    PushKept(behaviour, acted, Pushes(action, s).value);
  }

  lemma SimpleDues(action: Action, s: State)
    requires IsSimple(action)
    ensures var pushes := Pushes(action, s);
            ActionDues(action, s.windows.stack, None)
            == if pushes.Some? && !IsNotification(pushes.value) then [Enqueue(pushes.value)] else []
  {
  }

  /** What follows once an action has changed what it changes. */
  lemma ThenPushed(behaviour: seq<seq<Callback>>, s: State, action: Action, acted: State, after: State)
    requires Valid(behaviour, s) && IsSimple(action)
    requires Valid(behaviour, acted) && acted.log == s.log + [StepOf(action, s)] && acted.queue == s.queue
    requires after == if Pushes(action, s).Some? then acted.Push(Pushes(action, s).value) else acted
    ensures Kept(behaviour, acted, after) && Met(ActionDues(action, s.windows.stack, None), acted.log, after.log)
    ensures |s.log| < |after.log| && ToldAt(after.log, |s.log|)
  {
    SimpleDues(action, s);
    if Pushes(action, s).Some? {
      PushedKept(behaviour, s, action, acted);
    } else {
      KeptSilently(behaviour, acted, acted);
      assert after.log == s.log + [StepOf(action, s)] + [];
    }
    if ActionDues(action, s.windows.stack, None) == [] {
      NothingDue(acted.log, after.log);
    }
    SimpleTells(behaviour, s, action, after);
  }

  lemma ActedIs(action: Action, s: State)
    requires IsSimple(action)
    ensures var noted := s.Note(StepOf(action, s)); var acted := Acted(action, noted);
            && acted.log == noted.log && acted.queue == s.queue && s.dropped <= acted.dropped && acted.windows == s.windows
            && acted.released == s.released && Pushes(action, noted) == Pushes(action, s)
            && AfterAction(action, s) == AfterSimple(action, noted)
  {
  }

  /** A simple action does what it says: it changes what the log knows of, and queues what it must. */
  lemma SimpleKept(behaviour: seq<seq<Callback>>, s: State, action: Action)
    requires Valid(behaviour, s) && IsSimple(action)
    ensures Kept(behaviour, s, AfterAction(action, s))
    ensures Met(ActionDues(action, s.windows.stack, None), s.log + [StepOf(action, s)], AfterAction(action, s).log)
  {
    var noted := s.Note(StepOf(action, s));
    ActedIs(action, s);
    SimpleValid(behaviour, s, action);
    SimpleInTwo(action, noted);
    ThenPushed(behaviour, s, action, Acted(action, noted), AfterAction(action, s));
    SimplyKept(behaviour, s, action, Acted(action, noted), AfterAction(action, s));
  }

  lemma SimplyKept(behaviour: seq<seq<Callback>>, s: State, action: Action, acted: State, after: State)
    requires IsSimple(action) && acted.log == s.log + [StepOf(action, s)] && s.dropped <= acted.dropped && acted.windows == s.windows
    requires Kept(behaviour, acted, after) && Met(ActionDues(action, s.windows.stack, None), acted.log, after.log)
    requires |s.log| < |after.log| && ToldAt(after.log, |s.log|) && acted.released <= after.released
    ensures Kept(behaviour, s, after)
  {
    KeptFrom(behaviour, s, acted, after, StepOf(action, s));
  }

  // ---------- User code ----------

  lemma {:induction false} ScriptKept(behaviour: seq<seq<Callback>>, script: seq<Action>, s: State)
    requires Valid(behaviour, s) && s.updates > 0
    ensures Kept(behaviour, s, AfterScript(script, s))
    ensures Met(Runs(script, s.windows.stack), s.log, AfterScript(script, s).log)
    decreases |s.handlers|, ScriptWeight(script), 0
  {
    if script == [] {
      KeptSilently(behaviour, s, s);
      NothingDue(s.log, s.log);
    } else {
      var next := AfterAction(script[0], s);
      ActionKept(behaviour, script[0], s);
      ScriptKept(behaviour, script[1..], next);
      var r := AfterScript(script[1..], next);
      KeptThenKept(behaviour, s, next, r);
      MetThenMet([Perform(script[0], s.windows.stack)], Runs(script[1..], s.windows.stack), s.log, next.log, r.log);
    }
  }

  lemma {:induction false} ActionKept(behaviour: seq<seq<Callback>>, action: Action, s: State)
    requires Valid(behaviour, s) && s.updates > 0
    ensures Kept(behaviour, s, AfterAction(action, s))
    ensures Met([Perform(action, s.windows.stack)], s.log, AfterAction(action, s).log)
    decreases |s.handlers|, Weight(action), 10
  {
    var step := Started(action, s.windows.stack, Holds(action, s));
    var noted := s.Note(step);
    var r := AfterStarted(action, noted);
    if IsSimple(action) {
      SimpleKept(behaviour, s, action);
    } else {
      HoldsTruly(behaviour, action, s);
      NoteValid(behaviour, s, step);
      StartedKept(behaviour, action, noted);
      TellsNobody(s.log, step, r.log);
      KeptFrom(behaviour, s, noted, r, step);
    }
    MetByOne(Perform(action, s.windows.stack), step, s.log);
    MetThenMore([Perform(action, s.windows.stack)], s.log, noted.log, r.log);
  }

  lemma HoldsTruly(behaviour: seq<seq<Callback>>, action: Action, s: State)
    requires Valid(behaviour, s)
    ensures TruthfulNext(behaviour, SumOf(s.log), Started(action, s.windows.stack, Holds(action, s)))
  {
    if action.UpdateWindow? {
      FreeIsOpen(s.windows, SumOf(s.log), action.id);
    } else if action.OpenWindow? {
      ReserveOk(s.windows, SumOf(s.log));
    }
  }

  lemma {:induction false} StartedKept(behaviour: seq<seq<Callback>>, action: Action, s: State)
    requires Valid(behaviour, s) && s.updates > 0 && !IsSimple(action)
    ensures Kept(behaviour, s, AfterStarted(action, s))
    ensures Met(ActionDues(action, s.windows.stack, Holds(action, s)), s.log, AfterStarted(action, s).log)
    decreases |s.handlers|, Weight(action), 9
  {
    match action
    case CreateEntity(created, construct) => CreateKept(behaviour, created, construct, s);
    case Update(body) => UpdateKept(behaviour, body, s);
    case UpdateWindow(id, callback) => UpdateWindowKept(behaviour, id, callback, s);
    case OpenWindow(create, opening) => OpenKept(behaviour, create, opening, s);
  }

  /** Inside an update, beginning and ending another one changes the counter only. */
  lemma BeginValid(behaviour: seq<seq<Callback>>, s: State)
    requires Valid(behaviour, s)
    ensures Valid(behaviour, s.Begin())
  {
  }

  lemma EndKept(behaviour: seq<seq<Callback>>, before: State, s: State)
    requires Kept(behaviour, before.Begin(), s) && s.updates == before.updates + 1 && before.updates > 0
    ensures AfterFinish(s) == s.End() && Kept(behaviour, before, s.End())
  {
  }

  lemma {:induction false} UpdateKept(behaviour: seq<seq<Callback>>, body: seq<Action>, s: State)
    requires Valid(behaviour, s) && s.updates > 0
    ensures Kept(behaviour, s, AfterUpdate(body, s))
    ensures Met(Runs(body, s.windows.stack), s.log, AfterUpdate(body, s).log)
    decreases |s.handlers|, ScriptWeight(body), 8
  {
    BeginValid(behaviour, s);
    ScriptKept(behaviour, body, s.Begin());
    EndKept(behaviour, s, AfterScript(body, s.Begin()));
  }

  lemma {:induction false} CreateKept(behaviour: seq<seq<Callback>>, created: EntityId, construct: seq<Action>, s: State)
    requires Valid(behaviour, s) && s.updates > 0
    ensures Kept(behaviour, s, AfterCreate(created, construct, s))
    ensures Met(ActionDues(CreateEntity(created, construct), s.windows.stack, None), s.log, AfterCreate(created, construct, s).log)
    decreases |s.handlers|, ScriptWeight(construct), 8
  {
    BeginValid(behaviour, s);
    CreatedKept(behaviour, created, construct, s.Begin());
    EndKept(behaviour, s, AfterCreating(created, construct, s.Begin()));
  }

  lemma {:induction false} CreatedKept(behaviour: seq<seq<Callback>>, created: EntityId, construct: seq<Action>, s: State)
    requires Valid(behaviour, s) && s.updates > 0
    ensures var r := AfterCreating(created, construct, s);
            && Kept(behaviour, s, r)
            && Met(ActionDues(CreateEntity(created, construct), s.windows.stack, None), s.log, r.log)
    decreases |s.handlers|, ScriptWeight(construct), 7
  {
    ScriptKept(behaviour, construct, s);
    AnnouncedKept(behaviour, s, AfterScript(construct, s), created, Runs(construct, s.windows.stack));
  }

  lemma AnnouncedKept(behaviour: seq<seq<Callback>>, before: State, built: State, created: EntityId, dues: seq<Due>)
    requires Kept(behaviour, before, built) && Met(dues, before.log, built.log)
    requires before.released <= built.released && before.windows.next <= built.windows.next
    ensures var effect := EntityCreated(created, Top(built.windows.stack));
            Kept(behaviour, before, built.Push(effect)) && Met(dues + [Enqueue(effect)], before.log, built.Push(effect).log)
  {
    var effect := EntityCreated(created, Top(built.windows.stack));
    TopIsKnown(built.windows, SumOf(built.log));
    PushKept(behaviour, built, effect);
    KeptThenKept(behaviour, before, built, built.Push(effect));
    MetThenMet(dues, [Enqueue(effect)], before.log, built.log, built.Push(effect).log);
  }

  lemma TopIsKnown(windows: Windows, sum: Sum)
    requires WindowsOk(windows, sum)
    ensures windows.stack != [] ==> windows.stack[|windows.stack| - 1] < windows.next
  {
    if windows.stack != [] {
      assert SlotOk(windows, sum, windows.stack[|windows.stack| - 1]);
    }
  }

  // ---------- Windows ----------

  /** Windows once opened or closed stay opened or closed. */
  lemma {:induction false} SumGrows(before: seq<Step>, after: seq<Step>)
    requires before <= after
    ensures SumOf(before).filled <= SumOf(after).filled && SumOf(before).closed <= SumOf(after).closed
    ensures SumOf(before).flagged <= SumOf(after).flagged
    decreases |after|
  {
    if |before| == |after| {
      assert before == after;
    } else {
      SumGrows(before, after[..|after| - 1]);
      AddGrows(SumOf(after[..|after| - 1]), after[|after| - 1]);
    }
  }

  lemma AddGrows(sum: Sum, step: Step)
    ensures sum.filled <= Add(sum, step).filled && sum.closed <= Add(sum, step).closed && sum.flagged <= Add(sum, step).flagged
    ensures sum.missed <= Add(sum, step).missed && sum.accepted <= Add(sum, step).accepted && sum.delivered <= Add(sum, step).delivered
  {
  }

  lemma ChangeWindows(behaviour: seq<seq<Callback>>, s: State, windows: Windows)
    requires Valid(behaviour, s) && s.updates > 0
    requires WindowsOk(windows, SumOf(s.log)) && s.windows.next <= windows.next
    requires forall w <- windows.slots :: w in s.windows.slots || s.windows.next <= w
    ensures Valid(behaviour, s.(windows := windows))
  {
  }

  /** The window comes back to its slot unless it was asked to close, by the callback or while it was opened. */
  lemma {:induction false} UpdateWindowKept(behaviour: seq<seq<Callback>>, id: WindowId, callback: Callback, s: State)
    requires Valid(behaviour, s) && s.updates > 0
    ensures Kept(behaviour, s, AfterUpdateWindow(id, callback, s))
    ensures Met(UpdateDues(id, callback, s), s.log, AfterUpdateWindow(id, callback, s).log)
    ensures AfterUpdateWindow(id, callback, s).windows.Slot(id) == Left(s.windows.Slot(id), callback)
    decreases |s.handlers|, ScriptWeight(callback.body), 9
  {
    BeginValid(behaviour, s);
    UpdatingKept(behaviour, id, callback, s.Begin());
    EndKept(behaviour, s, AfterUpdating(id, callback, s.Begin()));
  }

  ghost function UpdateDues(id: WindowId, callback: Callback, s: State): seq<Due> {
    ActionDues(UpdateWindow(id, callback), s.windows.stack, s.windows.Slot(id))
  }

  /** An update of a window, without its end. */
  ghost function AfterUpdating(id: WindowId, callback: Callback, s: State): State {
    if s.windows.Free(id) then AfterHeld(id, callback, s) else s
  }

  lemma {:induction false} UpdatingKept(behaviour: seq<seq<Callback>>, id: WindowId, callback: Callback, s: State)
    requires Valid(behaviour, s) && s.updates > 0
    ensures Kept(behaviour, s, AfterUpdating(id, callback, s))
    ensures Met(UpdateDues(id, callback, s), s.log, AfterUpdating(id, callback, s).log)
    ensures AfterUpdating(id, callback, s).windows.Slot(id) == Left(s.windows.Slot(id), callback)
    decreases |s.handlers|, ScriptWeight(callback.body), 8
  {
    if s.windows.Free(id) {
      HeldKept(behaviour, id, callback, s);
    } else {
      KeptSilently(behaviour, s, s);
      NothingDue(s.log, s.log);
    }
  }

  lemma {:induction false} HeldKept(behaviour: seq<seq<Callback>>, id: WindowId, callback: Callback, s: State)
    requires Valid(behaviour, s) && s.updates > 0 && s.windows.Free(id)
    ensures Kept(behaviour, s, AfterHeld(id, callback, s))
    ensures Met(HeldDues(id, s.windows.slots[id].value, callback, s.windows.stack), s.log, AfterHeld(id, callback, s).log)
    ensures AfterHeld(id, callback, s).windows.Slot(id) == Left(s.windows.Slot(id), callback)
    decreases |s.handlers|, ScriptWeight(callback.body), 7
  {
    var window, taken := s.windows.slots[id].value, s.(windows := s.windows.Take(id));
    TakeOk(s.windows, SumOf(s.log), id);
    ChangeWindows(behaviour, s, taken.windows);
    ScriptKept(behaviour, callback.body, taken);
    var ran := AfterScript(callback.body, taken);
    StillFlagged(behaviour, s, ran, id);
    HeldEnded(behaviour, window, callback, s, ran, Runs(callback.body, s.windows.stack + [id]));
    assert AfterHeld(id, callback, s) == AfterRan(window, callback, ran);
  }

  /** Leaving the update, with the window put back or closed. */
  ghost function AfterRan(window: Window, callback: Callback, ran: State): State {
    var left := ran.(windows := ran.windows.Leave());
    if Closes(window, callback) then AfterClosing(window.handle, callback, left)
    else left.(windows := left.windows.Fill(window.handle, window))
  }

  lemma {:induction false} HeldEnded(behaviour: seq<seq<Callback>>, window: Window, callback: Callback, before: State, ran: State,
                                     dues: seq<Due>)
    requires Kept(behaviour, before, ran) && Met(dues, before.log, ran.log) && ran.updates > 0
    requires window.handle in SumOf(ran.log).filled && (window.removed <==> window.handle in SumOf(ran.log).flagged)
    requires ran.windows.stack == before.windows.stack + [window.handle] && ran.windows.leases == before.windows.leases + [window.handle]
    requires before.released <= ran.released && before.windows.next <= ran.windows.next
    ensures var r := AfterRan(window, callback, ran);
            && Kept(behaviour, before, r)
            && Met(dues + if Closes(window, callback) then [Close(window.handle)] else [], before.log, r.log)
            && r.windows.Slot(window.handle) == Left(Some(window), callback)
    decreases |ran.handlers|, 0, 6
  {
    var r := AfterRan(window, callback, ran);
    if Closes(window, callback) {
      ClosedKept(behaviour, window.handle, callback, ran, before.windows.stack, before.windows.leases);
      MetThenMet(dues, [Close(window.handle)], before.log, ran.log, r.log);
    } else {
      ReturnedKept(behaviour, window, ran, before.windows.stack, before.windows.leases);
      assert dues + [] == dues;
    }
    KeptThenKept(behaviour, before, ran, r);
  }

  /** Whether an open window is to close when next updated is settled by its opening. */
  lemma StillFlagged(behaviour: seq<seq<Callback>>, before: State, after: State, id: WindowId)
    requires Valid(behaviour, before) && Went(behaviour, before, after) && id in SumOf(before.log).filled
    ensures id in SumOf(after.log).filled && (id in SumOf(after.log).flagged <==> id in SumOf(before.log).flagged)
  {
    SumGrows(before.log, after.log);
    assert SlotOk(before.windows, SumOf(before.log), id);
  }

  lemma ReturnedKept(behaviour: seq<seq<Callback>>, window: Window, ran: State,
                     stack: seq<WindowId>, leases: seq<WindowId>)
    requires Valid(behaviour, ran) && ran.updates > 0 && window.handle in SumOf(ran.log).filled
    requires window.removed <==> window.handle in SumOf(ran.log).flagged
    requires ran.windows.stack == stack + [window.handle] && ran.windows.leases == leases + [window.handle]
    ensures var r := ran.(windows := ran.windows.Leave().Fill(window.handle, window));
            Kept(behaviour, ran, r) && r.windows.Slot(window.handle) == Some(window)
  {
    ReturnOk(ran.windows, SumOf(ran.log), window.handle, stack, leases);
    ChangeWindows(behaviour, ran, ran.windows.Leave().Fill(window.handle, window));
    KeptSilently(behaviour, ran, ran.(windows := ran.windows.Leave().Fill(window.handle, window)));
  }

  lemma {:induction false} ClosedKept(behaviour: seq<seq<Callback>>, id: WindowId, asked: Callback, ran: State,
                                      stack: seq<WindowId>, leases: seq<WindowId>)
    requires Valid(behaviour, ran) && ran.updates > 0 && id in SumOf(ran.log).filled
    requires asked.removes || id in SumOf(ran.log).flagged
    requires ran.windows.stack == stack + [id] && ran.windows.leases == leases + [id]
    ensures var r := AfterClosing(id, asked, ran.(windows := ran.windows.Leave()));
            && Kept(behaviour, ran, r) && Met([Close(id)], ran.log, r.log)
            && !r.windows.Free(id) && ran.released <= r.released
    decreases |ran.handlers|, 0, 5
  {
    var left := ran.(windows := ran.windows.Leave());
    var closing := Closing(id, asked, left);
    var step := Step.Closed(id, asked, ran.Answer(), left.windows.stack);
    ClosingValid(behaviour, id, asked, ran, stack, leases);
    CallbacksKept(behaviour, ran.Answer(), closing);
    var r := AfterCallbacks(ran.Answer(), closing);
    TellsNobody(ran.log, step, r.log);
    KeptFrom(behaviour, ran, closing, r, step);
    MetByOne(Close(id), step, ran.log);
    MetThenMore([Close(id)], ran.log, closing.log, r.log);
    SumStep(ran.log, step);
    SumGrows(closing.log, r.log);
    ClosedIsGone(r.windows, SumOf(r.log), id);
  }

  lemma ClosedIsGone(windows: Windows, sum: Sum, id: WindowId)
    requires WindowsOk(windows, sum) && id in sum.closed
    ensures id !in windows.slots && !windows.Free(id)
  {
    assert SlotOk(windows, sum, id);
  }

  lemma ClosedStep(log: seq<Step>, step: Step)
    requires step.Closed?
    ensures SumOf(log + [step]) == SumOf(log).(closed := SumOf(log).closed + {step.closed}, untracked := SumOf(log).untracked + {step.closed},
                                               occasions := SumOf(log).occasions + 1,
                                               facts := FactsWithout(SumOf(log).facts, step.closed), cause := None)
  {
    SumStep(log, step);
  }

  lemma ClosedFacts(index: Index, facts: Facts, id: WindowId)
    requires index.tracked == facts.tracked && index.current == facts.current
    ensures index.ForgetWindow(id).tracked == FactsWithout(facts, id).tracked
    ensures index.ForgetWindow(id).current == FactsWithout(facts, id).current
  {
  }

  /** The window is closed and forgotten before any observer of that runs. */
  lemma ClosingValid(behaviour: seq<seq<Callback>>, id: WindowId, asked: Callback, ran: State,
                     stack: seq<WindowId>, leases: seq<WindowId>)
    requires Valid(behaviour, ran) && ran.updates > 0 && id in SumOf(ran.log).filled
    requires asked.removes || id in SumOf(ran.log).flagged
    requires ran.windows.stack == stack + [id] && ran.windows.leases == leases + [id]
    ensures var closing := Closing(id, asked, ran.(windows := ran.windows.Leave()));
            Valid(behaviour, closing) && closing.windows.stack == stack && id !in closing.windows.slots
  {
    var step := Step.Closed(id, asked, ran.Answer(), ran.windows.Leave().stack);
    ClosedStep(ran.log, step);
    ClosedFacts(ran.index, SumOf(ran.log).facts, id);
    CloseOk(ran.windows, SumOf(ran.log), SumOf(ran.log + [step]), id, stack, leases);
    AnswerIsNext(behaviour, ran);
    TruthfulStep(behaviour, ran.log, step);
    ForgetWindowOk(ran.index, ran.released, id);
    ForgetWindowForgottenOk(ran.index, SumOf(ran.log), SumOf(ran.log + [step]), id);
  }

  /** The callbacks for an occasion are the next ones in the list. */
  lemma AnswerIsNext(behaviour: seq<seq<Callback>>, s: State)
    requires LogOk(behaviour, s)
    ensures s.Answer() == Nth(behaviour, SumOf(s.log).occasions)
    ensures s.Answered().handlers == From(behaviour, SumOf(s.log).occasions + 1)
  {
  }

  lemma {:induction false} CallbacksKept(behaviour: seq<seq<Callback>>, callbacks: seq<Callback>, s: State)
    requires Valid(behaviour, s) && s.updates > 0
    ensures Kept(behaviour, s, AfterCallbacks(callbacks, s))
    ensures Met(RunsAll(callbacks, s.windows.stack), s.log, AfterCallbacks(callbacks, s).log)
    decreases |s.handlers|, CallbacksWeight(callbacks), 0
  {
    if callbacks == [] {
      KeptSilently(behaviour, s, s);
      NothingDue(s.log, s.log);
    } else {
      var next := AfterScript(callbacks[0].body, s);
      ScriptKept(behaviour, callbacks[0].body, s);
      CallbacksKept(behaviour, callbacks[1..], next);
      var r := AfterCallbacks(callbacks[1..], next);
      KeptThenKept(behaviour, s, next, r);
      MetThenMet(Runs(callbacks[0].body, s.windows.stack), RunsAll(callbacks[1..], s.windows.stack), s.log, next.log, r.log);
    }
  }

  /** An opened window ends up in its slot, asked to close or not; the slot of a failed one is gone. */
  lemma {:induction false} OpenKept(behaviour: seq<seq<Callback>>, create: seq<Action>, opening: Opening, s: State)
    requires Valid(behaviour, s) && s.updates > 0
    ensures var r := AfterOpen(create, opening, s);
            && Kept(behaviour, s, r)
            && Met(OpeningDues(create, opening, s), s.log, r.log)
            && r.windows.Slot(s.windows.next) == OpeningSlot(opening, s.windows.next)
    decreases |s.handlers|, ScriptWeight(create) + OpeningWeight(opening), 9
  {
    BeginValid(behaviour, s);
    OpeningKept(behaviour, create, opening, s.Begin());
    EndKept(behaviour, s, AfterOpening(create, opening, s.Begin()));
  }

  ghost function OpeningWindow(opening: Opening, id: WindowId): Window {
    Window(id, opening.Succeeds? && opening.removes)
  }

  ghost function OpeningDues(create: seq<Action>, opening: Opening, s: State): seq<Due> {
    OpenDues(create, opening, OpeningWindow(opening, s.windows.next), s.windows.stack)
  }

  ghost function OpeningSlot(opening: Opening, id: WindowId): Option<Window> {
    if opening.Succeeds? then Some(Window(id, opening.removes)) else None
  }

  lemma {:induction false} OpeningKept(behaviour: seq<seq<Callback>>, create: seq<Action>, opening: Opening, s: State)
    requires Valid(behaviour, s) && s.updates > 0
    ensures var r := AfterOpening(create, opening, s);
            && Kept(behaviour, s, r)
            && Met(OpeningDues(create, opening, s), s.log, r.log)
            && r.windows.Slot(s.windows.next) == OpeningSlot(opening, s.windows.next)
    decreases |s.handlers|, ScriptWeight(create) + OpeningWeight(opening), 8
  {
    ReservedKept(behaviour, create, s);
    var created := AfterScript(create, s.(windows := s.windows.Reserve()));
    OpenedKept(behaviour, opening, s, created, Runs(create, s.windows.stack));
    assert AfterOpening(create, opening, s) == AfterCreated(opening, s.windows.next, created);
  }

  /** What follows once it is known whether there is a platform window. */
  ghost function AfterCreated(opening: Opening, id: WindowId, created: State): State {
    if opening.Succeeds? then Established(Window(id, opening.removes), AfterBuild(id, opening.build, opening.draw, created))
    else created.(windows := created.windows.Abandon(id))
  }

  lemma {:induction false} OpenedKept(behaviour: seq<seq<Callback>>, opening: Opening, before: State, created: State, dues: seq<Due>)
    requires Kept(behaviour, before, created) && Met(dues, before.log, created.log) && created.updates > 0
    requires IsOpening(before, created)
    ensures var id, r := before.windows.next, AfterCreated(opening, before.windows.next, created);
            && Kept(behaviour, before, r)
            && Met(dues + BuildDues(opening, OpeningWindow(opening, id), before.windows.stack), before.log, r.log)
            && r.windows.Slot(id) == OpeningSlot(opening, id)
    decreases |created.handlers|, OpeningWeight(opening), 7
  {
    if opening.Succeeds? {
      BuiltKept(behaviour, opening, before, created, dues);
    } else {
      FailedKept(behaviour, before, created, dues);
    }
  }

  /** The slot is reserved, and the platform window is created. */
  lemma {:induction false} ReservedKept(behaviour: seq<seq<Callback>>, create: seq<Action>, s: State)
    requires Valid(behaviour, s) && s.updates > 0
    ensures var created := AfterScript(create, s.(windows := s.windows.Reserve()));
            Kept(behaviour, s, created) && Met(Runs(create, s.windows.stack), s.log, created.log) && IsOpening(s, created)
    decreases |s.handlers|, ScriptWeight(create), 1
  {
    var reserved := s.(windows := s.windows.Reserve());
    ReserveOk(s.windows, SumOf(s.log));
    ChangeWindows(behaviour, s, reserved.windows);
    ScriptKept(behaviour, create, reserved);
    KeptSilently(behaviour, s, reserved);
    var created := AfterScript(create, reserved);
    BeingOpened(created.windows, SumOf(created.log), s.windows, SumOf(s.log));
    KeptThenKept(behaviour, s, reserved, created);
  }

  /** The next window of `before` is being opened. */
  ghost predicate IsOpening(before: State, created: State) {
    && created.updates == before.updates
    && created.windows.stack == before.windows.stack
    && created.windows.leases == before.windows.leases + [before.windows.next]
    && before.windows.next !in created.windows.stack && before.windows.next !in SumOf(created.log).filled
    && before.windows.next < created.windows.next && before.released <= created.released
  }

  lemma FailedKept(behaviour: seq<seq<Callback>>, before: State, created: State, dues: seq<Due>)
    requires Kept(behaviour, before, created) && Met(dues, before.log, created.log) && created.updates > 0
    requires IsOpening(before, created)
    ensures var r := created.(windows := created.windows.Abandon(before.windows.next));
            Kept(behaviour, before, r) && Met(dues + [], before.log, r.log) && r.windows.Slot(before.windows.next) == None
  {
    AbandonedKept(behaviour, before.windows.next, created, before.windows.leases);
    KeptThenKept(behaviour, before, created, created.(windows := created.windows.Abandon(before.windows.next)));
    assert dues + [] == dues;
  }

  /** The platform window is there: what follows until it is in its slot. */
  lemma {:induction false} BuiltKept(behaviour: seq<seq<Callback>>, opening: Opening, before: State, created: State, dues: seq<Due>)
    requires Kept(behaviour, before, created) && Met(dues, before.log, created.log) && created.updates > 0 && opening.Succeeds?
    requires IsOpening(before, created)
    ensures var window := Window(before.windows.next, opening.removes);
            var r := Established(window, AfterBuild(window.handle, opening.build, opening.draw, created));
            && Kept(behaviour, before, r)
            && Met(dues + BuildDues(opening, window, before.windows.stack), before.log, r.log)
            && r.windows.Slot(window.handle) == Some(window)
    decreases |created.handlers|, OpeningWeight(opening), 6
  {
    var window := Window(before.windows.next, opening.removes);
    assert created.windows.leases[|before.windows.leases|] == window.handle;
    BuildKept(behaviour, window.handle, opening.build, opening.draw, created);
    var drawn := AfterBuild(window.handle, opening.build, opening.draw, created);
    KeptThenKept(behaviour, before, created, drawn);
    SettledKept(behaviour, before, drawn, opening.removes, before.windows.leases);
    var code := CodeDues(opening.build, opening.draw, window.handle, before.windows.stack);
    MetThenMet(code, [Open(window)], created.log, drawn.log, Established(window, drawn).log);
    MetThenMet(dues, code + [Open(window)], before.log, created.log, Established(window, drawn).log);
  }

  /** While a window is being opened it is held, not opened yet, and not being updated. */
  lemma BeingOpened(windows: Windows, sum: Sum, before: Windows, sumBefore: Sum)
    requires WindowsOk(windows, sum) && WindowsOk(before, sumBefore)
    requires windows.stack == before.stack && windows.leases == before.leases + [before.next]
    ensures before.next in windows.leases && before.next !in windows.stack && before.next !in sum.filled
  {
    assert windows.leases[|before.leases|] == before.next;
    assert SlotOk(windows, sum, before.next);
    assert SlotOk(before, sumBefore, before.next);
  }

  /** The root view is built with the new window being updated, then the window is drawn. */
  lemma {:induction false} BuildKept(behaviour: seq<seq<Callback>>, id: WindowId, build: seq<Action>, draw: seq<Action>, s: State)
    requires Valid(behaviour, s) && s.updates > 0
    requires id in s.windows.leases && id !in s.windows.stack && id !in SumOf(s.log).filled && id < s.windows.next
    ensures var r := AfterBuild(id, build, draw, s);
            && Kept(behaviour, s, r)
            && Met(CodeDues(build, draw, id, s.windows.stack), s.log, r.log)
            && id !in SumOf(r.log).filled
    decreases |s.handlers|, ScriptWeight(build) + ScriptWeight(draw), 5
  {
    var stack := s.windows.stack;
    var entered := s.(windows := s.windows.(stack := stack + [id]));
    EnterOk(s.windows, SumOf(s.log), id);
    ChangeWindows(behaviour, s, entered.windows);
    KeptSilently(behaviour, s, entered);
    ScriptKept(behaviour, build, entered);
    var built := AfterScript(build, entered);
    KeptThenKept(behaviour, s, entered, built);
    DrawnKept(behaviour, id, draw, built, stack);
    var exited := built.(windows := built.windows.(stack := Front(built.windows.stack)));
    var r := AfterScript(draw, exited.Push(Defer));
    KeptThenKept(behaviour, s, built, r);
    MetThenMet(Runs(build, stack + [id]), [Enqueue(Defer)] + Runs(draw, stack), s.log, built.log, r.log);
  }

  lemma {:induction false} DrawnKept(behaviour: seq<seq<Callback>>, id: WindowId, draw: seq<Action>, built: State, stack: seq<WindowId>)
    requires Valid(behaviour, built) && built.updates > 0
    requires built.windows.stack == stack + [id] && id !in SumOf(built.log).filled && id < built.windows.next
    ensures var exited := built.(windows := built.windows.(stack := Front(built.windows.stack)));
            var r := AfterScript(draw, exited.Push(Defer));
            && Kept(behaviour, built, r) && Met([Enqueue(Defer)] + Runs(draw, stack), built.log, r.log)
            && id !in SumOf(r.log).filled && r.windows.stack == stack
    decreases |built.handlers|, ScriptWeight(draw), 4
  {
    var exited := built.(windows := built.windows.(stack := Front(built.windows.stack)));
    ExitOk(built.windows, SumOf(built.log), id, stack);
    ChangeWindows(behaviour, built, exited.windows);
    KeptSilently(behaviour, built, exited);
    PushKept(behaviour, exited, Defer);
    KeptThenKept(behaviour, built, exited, exited.Push(Defer));
    ScriptKept(behaviour, draw, exited.Push(Defer));
    var r := AfterScript(draw, exited.Push(Defer));
    KeptThenKept(behaviour, built, exited.Push(Defer), r);
    MetThenMet([Enqueue(Defer)], Runs(draw, stack), built.log, exited.Push(Defer).log, r.log);
  }

  lemma SettledKept(behaviour: seq<seq<Callback>>, before: State, drawn: State, removed: bool, leases: seq<WindowId>)
    requires Kept(behaviour, before, drawn) && drawn.updates > 0
    requires drawn.windows.leases == leases + [before.windows.next] && before.windows.next !in drawn.windows.stack
    requires before.windows.next !in SumOf(drawn.log).filled
    ensures var window := Window(before.windows.next, removed);
            var r := Established(window, drawn);
            && Kept(behaviour, before, r) && Met([Open(window)], drawn.log, r.log)
            && r.windows.Slot(window.handle) == Some(window) && r.windows.leases == leases
  {
    var step := Opened(Window(before.windows.next, removed));
    EstablishedValid(behaviour, drawn, step.filled, leases);
    SumStep(drawn.log, step);
    NothingOwed(drawn.log, step);
    SettledThenSettled(before.log, drawn.log, drawn.log + [step]);
    MetByOne(Open(step.filled), step, drawn.log);
  }

  lemma EstablishedValid(behaviour: seq<seq<Callback>>, drawn: State, window: Window, leases: seq<WindowId>)
    requires Valid(behaviour, drawn) && drawn.updates > 0
    requires drawn.windows.leases == leases + [window.handle] && window.handle !in drawn.windows.stack
    requires window.handle !in SumOf(drawn.log).filled
    ensures Valid(behaviour, Established(window, drawn)) && Established(window, drawn).windows.leases == leases
  {
    var step := Opened(window);
    SumStep(drawn.log, step);
    assert drawn.windows.leases[|leases|] == window.handle && SlotOk(drawn.windows, SumOf(drawn.log), window.handle);
    SettleOk(drawn.windows, SumOf(drawn.log), SumOf(drawn.log + [step]), window.handle, window.removed, leases);
    TruthfulStep(behaviour, drawn.log, step);
  }

  lemma AbandonedKept(behaviour: seq<seq<Callback>>, id: WindowId, s: State, leases: seq<WindowId>)
    requires Valid(behaviour, s) && s.updates > 0
    requires s.windows.leases == leases + [id] && id !in s.windows.stack && id !in SumOf(s.log).filled
    ensures var r := s.(windows := s.windows.Abandon(id));
            Kept(behaviour, s, r) && id !in r.windows.slots && r.windows.leases == leases
  {
    AbandonOk(s.windows, SumOf(s.log), id, leases);
    ChangeWindows(behaviour, s, s.windows.Abandon(id));
    KeptSilently(behaviour, s, s.(windows := s.windows.Abandon(id)));
  }

  // ---------- The flush ----------

  lemma UpdatedIsHeld(windows: Windows, sum: Sum)
    requires WindowsOk(windows, sum)
    ensures windows.stack != [] ==> windows.stack[0] in windows.leases
  {
    if windows.stack != [] {
      assert SlotOk(windows, sum, windows.stack[0]);
    }
  }

  /** Windows are out of their slots only inside updates, so in a flush none is being updated. */
  lemma NoneUpdated(windows: Windows, sum: Sum)
    requires WindowsOk(windows, sum) && windows.leases == []
    ensures windows.stack == []
  {
    UpdatedIsHeld(windows, sum);
  }

  /** The flush runs between updates of windows. */
  ghost predicate InFlush(s: State) {
    s.updates == 1 && s.flushing && s.windows.leases == []
  }

  /** A stretch after an occasion that was noted first. */
  lemma WentFrom(behaviour: seq<seq<Callback>>, before: State, noted: State, after: State, step: Step)
    requires noted.log == before.log + [step] && (step.Released? || step.Delivered?)
    requires Went(behaviour, noted, after) && Met(Owed(step), noted.log, after.log) && noted.released <= after.released
    requires forall e <- before.dropped :: e in noted.dropped || e in noted.released
    requires before.windows.next == noted.windows.next
    ensures Went(behaviour, before, after)
  {
    TellsNobody(before.log, step, after.log);
    SettledFrom(before.log, step, after.log);
    SumStep(before.log, step);
  }

  lemma ReleasingValid(behaviour: seq<seq<Callback>>, s: State)
    requires Valid(behaviour, s) && s.dropped != []
    ensures Valid(behaviour, Releasing(s))
    ensures s.dropped[0] in SumOf(Releasing(s).log).forgotten
  {
    var step := Released(s.dropped[0], s.Answer());
    SumStep(s.log, step);
    AnswerIsNext(behaviour, s);
    TruthfulStep(behaviour, s.log, step);
    ForgetEntityOk(s.index, s.released, s.dropped[0]);
    ForgetEntityForgottenOk(s.index, SumOf(s.log), SumOf(s.log + [step]), s.dropped[0]);
    SameSlots(s.windows, SumOf(s.log), SumOf(s.log + [step]));
    DirtiesStill(s.dirty, s.released, s.dropped[0], SumOf(s.log).facts.dirtied);
    FirstDropped(s.dropped, s.released, SumOf(s.log).facts.dropped);
  }

  lemma DirtiesStill(dirty: map<WindowId, set<EntityId>>, released: set<EntityId>, entity: EntityId, dirtied: set<(WindowId, EntityId)>)
    requires DirtiesOk(dirty, released, dirtied)
    ensures DirtiesOk(dirty, released + {entity}, dirtied)
  {
    forall w, e ensures DirtyOk(dirty, released + {entity}, dirtied, w, e) {
      assert DirtyOk(dirty, released, dirtied, w, e);
    }
  }

  /** The first entity waiting to be released is released. */
  lemma FirstDropped(dropped: seq<EntityId>, released: set<EntityId>, gone: set<EntityId>)
    requires DropsOk(dropped, released, gone) && dropped != []
    ensures DropsOk(dropped[1..], released + {dropped[0]}, gone)
    ensures dropped[0] in gone - released
  {
    var rest := dropped[1..];
    forall i, j | 0 <= i < j < |rest| ensures rest[i] != rest[j] {
      assert dropped[i + 1] != dropped[j + 1];
    }
    forall e ensures e in dropped <==> e == dropped[0] || e in rest {
      assert dropped == [dropped[0]] + rest;
    }
    forall e <- rest ensures e !in released + {dropped[0]} {
      var i :| 0 <= i < |rest| && rest[i] == e;
      assert dropped[0] != dropped[i + 1];
    }
  }

  lemma ReleaseFirstWent(behaviour: seq<seq<Callback>>, s: State)
    requires Valid(behaviour, s) && InFlush(s) && s.dropped != []
    ensures Went(behaviour, s, AfterReleaseFirst(s))
    decreases |s.handlers|, 0, 1
  {
    ReleasingValid(behaviour, s);
    ReleasedWent(behaviour, s);
    ReleasesFirst(s);
    WentFrom(behaviour, s, Releasing(s), AfterReleaseFirst(s), Released(s.dropped[0], s.Answer()));
  }

  lemma ReleasesFirst(s: State)
    requires s.dropped != []
    ensures Releasing(s).log == s.log + [Released(s.dropped[0], s.Answer())] && Releasing(s).windows == s.windows
    ensures forall e <- s.dropped :: e in Releasing(s).dropped || e in Releasing(s).released
    ensures Owed(Released(s.dropped[0], s.Answer())) == RunsAll(s.Answer(), [])
  {
    assert s.dropped == [s.dropped[0]] + s.dropped[1..];
  }

  /** The stretch in which the release listeners of an entity run. */
  lemma ReleasedWent(behaviour: seq<seq<Callback>>, s: State)
    requires Valid(behaviour, s) && InFlush(s) && s.dropped != [] && Valid(behaviour, Releasing(s))
    ensures Went(behaviour, Releasing(s), AfterReleaseFirst(s))
    ensures Met(RunsAll(s.Answer(), []), Releasing(s).log, AfterReleaseFirst(s).log)
  {
    CallbacksKept(behaviour, s.Answer(), Releasing(s));
    NoneUpdated(s.windows, SumOf(s.log));
  }

  lemma ReleaseFirstAccounted(behaviour: seq<seq<Callback>>, s: State)
    requires Valid(behaviour, s) && InFlush(s) && s.dropped != []
    ensures Accounted(s.log) ==> Accounted(AfterReleaseFirst(s).log)
  {
    ReleasingValid(behaviour, s);
    CallbacksKept(behaviour, s.Answer(), Releasing(s));
    ReleaseMissesNone(s.log, s.dropped[0], s.Answer());
    StillAccounted(s.log, Releasing(s).log, AfterReleaseFirst(s).log);
  }

  lemma ReleaseMissesNone(log: seq<Step>, entity: EntityId, callbacks: seq<Callback>)
    ensures var before, after := SumOf(log), SumOf(log + [Released(entity, callbacks)]);
            after.missed == before.missed && after.unreached == before.unreached
  {
    SumStep(log, Released(entity, callbacks));
  }

  lemma StillAccounted(a: seq<Step>, b: seq<Step>, c: seq<Step>)
    requires SumOf(b).missed == SumOf(a).missed && SumOf(b).unreached == SumOf(a).unreached
    requires SumOf(c).missed == SumOf(b).missed && SumOf(c).unreached == SumOf(b).unreached
    ensures Accounted(a) ==> Accounted(c)
  {
  }

  lemma {:induction false} ReleaseWent(behaviour: seq<seq<Callback>>, s: State)
    requires Valid(behaviour, s) && InFlush(s)
    ensures Went(behaviour, s, AfterRelease(s)) && (Accounted(s.log) ==> Accounted(AfterRelease(s).log))
    decreases |s.handlers|, 0, 2, |s.dropped|
  {
    if s.dropped == [] {
      KeptSilently(behaviour, s, s);
    } else {
      var next := AfterReleaseFirst(s);
      ReleaseFirstWent(behaviour, s);
      ReleaseFirstAccounted(behaviour, s);
      ReleaseWent(behaviour, next);
      WentThenWent(behaviour, s, next, AfterRelease(next));
    }
  }

  /** The index after the delivery of an effect: a new entity has a current window. */
  lemma DeliveringIndexOk(index: Index, released: set<EntityId>, sum: Sum, after: Sum, effect: Effect)
    requires IndexOk(index, released) && ForgottenOk(index, sum)
    requires InWindow(effect) && after.untracked == sum.untracked && after.forgotten == sum.forgotten - {effect.entity}
    ensures var seeded := index.(current := index.current[effect.entity := effect.window.value]);
            IndexOk(seeded, released) && ForgottenOk(seeded, after)
  {
    var seeded := index.(current := index.current[effect.entity := effect.window.value]);
    forall w, e ensures Agrees(seeded, released, w, e) {
      assert Agrees(index, released, w, e);
    }
    forall e | e in after.forgotten ensures seeded.Listed(e) == {} && e !in seeded.current {
      assert index.Listed(e) == {};
    }
  }

  /** The step that a delivery logs. */
  ghost function DeliveredStep(s: State): Step
    requires s.queue.effects != []
  {
    var effect := s.queue.effects[0];
    Delivered(effect, s.Answer(), Found(effect, s.windows))
  }

  lemma DeliveredTruly(behaviour: seq<seq<Callback>>, s: State)
    requires Valid(behaviour, s) && s.windows.leases == [] && s.queue.effects != [] && !s.queue.effects[0].RefreshWindows?
    requires s.dropped == []
    ensures TruthfulNext(behaviour, SumOf(s.log), DeliveredStep(s))
    ensures SumOf(s.log).accepted == SumOf(s.log).delivered + [s.queue.effects[0]] + s.queue.effects[1..]
  {
    var effect := s.queue.effects[0];
    AnswerIsNext(behaviour, s);
    assert s.queue.effects == [effect] + s.queue.effects[1..];
    if InWindow(effect) {
      FreeIsOpen(s.windows, SumOf(s.log), effect.window.value);
    }
  }

  lemma DeliveringValid(behaviour: seq<seq<Callback>>, s: State)
    requires Valid(behaviour, s) && s.windows.leases == [] && s.queue.effects != [] && !s.queue.effects[0].RefreshWindows?
    requires s.dropped == []
    ensures Valid(behaviour, Delivering(s))
  {
    var effect, step := s.queue.effects[0], DeliveredStep(s);
    SumStep(s.log, step);
    DeliveredTruly(behaviour, s);
    TruthfulStep(behaviour, s.log, step);
    PopQueueOk(s.queue);
    AnswerIsNext(behaviour, s);
    SameSlots(s.windows, SumOf(s.log), SumOf(s.log + [step]));
    if InWindow(effect) {
      DeliveringIndexOk(s.index, s.released, SumOf(s.log), SumOf(s.log + [step]), effect);
    }
    StillAnnounced(s.queue.effects, s.windows, SumOf(s.log), SumOf(s.log + [step]));
  }

  lemma StillAnnounced(effects: seq<Effect>, windows: Windows, sum: Sum, after: Sum)
    requires AnnouncedOk(effects, windows, sum) && effects != [] && after.missed == sum.missed
    ensures AnnouncedOk(effects[1..], windows, after)
  {
  }

  /** A refresh takes no handlers. */
  lemma RefreshingWent(behaviour: seq<seq<Callback>>, s: State)
    requires Valid(behaviour, s) && InFlush(s) && s.dropped == []
    requires s.queue.effects != [] && s.queue.effects[0].RefreshWindows?
    ensures Went(behaviour, s, Refreshing(s)) && (Accounted(s.log) ==> Accounted(Refreshing(s).log))
  {
    var step := Delivered(s.queue.effects[0], [], None);
    RefreshingValid(behaviour, s);
    SumStep(s.log, step);
    NothingOwed(s.log, step);
  }

  lemma RefreshedTruly(behaviour: seq<seq<Callback>>, s: State)
    requires Valid(behaviour, s) && s.dropped == [] && s.queue.effects != [] && s.queue.effects[0].RefreshWindows?
    ensures TruthfulNext(behaviour, SumOf(s.log), Delivered(s.queue.effects[0], [], None))
    ensures SumOf(s.log).accepted == SumOf(s.log).delivered + [s.queue.effects[0]] + s.queue.effects[1..]
  {
    assert s.queue.effects == [s.queue.effects[0]] + s.queue.effects[1..];
  }

  /** Outside updates of windows the filled slots are those of the open windows. */
  lemma OpenAreInSlots(windows: Windows, sum: Sum)
    requires WindowsOk(windows, sum) && windows.leases == []
    ensures (set w | w in windows.slots && windows.slots[w].Some?) == sum.filled - sum.closed
  {
    forall w ensures w in windows.slots && windows.slots[w].Some? <==> w in sum.filled - sum.closed {
      FreeIsOpen(windows, sum, w);
    }
  }

  lemma RefreshingValid(behaviour: seq<seq<Callback>>, s: State)
    requires Valid(behaviour, s) && InFlush(s) && s.dropped == []
    requires s.queue.effects != [] && s.queue.effects[0].RefreshWindows?
    ensures Valid(behaviour, Refreshing(s))
  {
    var step := Delivered(s.queue.effects[0], [], None);
    SumStep(s.log, step);
    RefreshedTruly(behaviour, s);
    OpenAreInSlots(s.windows, SumOf(s.log));
    TruthfulStep(behaviour, s.log, step);
    PopQueueOk(s.queue);
    SameSlots(s.windows, SumOf(s.log), SumOf(s.log + [step]));
    StillAnnounced(s.queue.effects, s.windows, SumOf(s.log), SumOf(s.log + [step]));
  }

  /** A refresh marks exactly the windows that are open. */
  lemma RefreshMarks(behaviour: seq<seq<Callback>>, s: State, w: WindowId)
    requires Valid(behaviour, s) && InFlush(s) && s.queue.effects != [] && s.queue.effects[0].RefreshWindows?
    ensures w in AfterDeliver(s).refreshing <==> w in s.refreshing || w in SumOf(s.log).filled - SumOf(s.log).closed
    ensures AfterDeliver(s).handlers == s.handlers
  {
    FreeIsOpen(s.windows, SumOf(s.log), w);
  }

  lemma DeliverWent(behaviour: seq<seq<Callback>>, s: State)
    requires Valid(behaviour, s) && InFlush(s) && s.dropped == [] && s.queue.effects != []
    ensures Went(behaviour, s, AfterDeliver(s)) && (Accounted(s.log) ==> Accounted(AfterDeliver(s).log))
  {
    if s.queue.effects[0].RefreshWindows? {
      RefreshingWent(behaviour, s);
    } else {
      DeliverToWent(behaviour, s);
    }
  }

  lemma DeliverToWent(behaviour: seq<seq<Callback>>, s: State)
    requires Valid(behaviour, s) && InFlush(s) && s.dropped == [] && s.queue.effects != [] && !s.queue.effects[0].RefreshWindows?
    ensures Went(behaviour, s, AfterDeliver(s)) && (Accounted(s.log) ==> Accounted(AfterDeliver(s).log))
  {
    DeliveringValid(behaviour, s);
    AnsweredWent(behaviour, s);
    AnsweredMet(behaviour, s);
    AnsweredMissed(behaviour, s);
    SumStep(s.log, DeliveredStep(s));
    WentFrom(behaviour, s, Delivering(s), AfterDeliver(s), DeliveredStep(s));
  }

  /** The stretch in which the observers of an effect run. */
  lemma AnsweredWent(behaviour: seq<seq<Callback>>, s: State)
    requires Valid(behaviour, s) && InFlush(s) && s.queue.effects != [] && !s.queue.effects[0].RefreshWindows?
    requires Valid(behaviour, Delivering(s))
    ensures Went(behaviour, Delivering(s), AfterDeliver(s))
    decreases |s.handlers|, 0, 0, 1
  {
    var effect := s.queue.effects[0];
    if InWindow(effect) {
      assert effect in s.queue.effects;
      CallbacksInWindowWent(behaviour, s.Answer(), effect.window.value, Delivering(s));
    } else {
      CallbacksKept(behaviour, s.Answer(), Delivering(s));
    }
  }

  lemma AnsweredMet(behaviour: seq<seq<Callback>>, s: State)
    requires Valid(behaviour, s) && InFlush(s) && s.queue.effects != [] && !s.queue.effects[0].RefreshWindows?
    requires Valid(behaviour, Delivering(s))
    ensures Met(Owed(DeliveredStep(s)), Delivering(s).log, AfterDeliver(s).log)
  {
    OwedByDelivery(s.queue.effects[0], s.Answer(), Found(s.queue.effects[0], s.windows));
    if InWindow(s.queue.effects[0]) {
      assert s.queue.effects[0] in s.queue.effects;
      AnsweredInWindow(behaviour, s, s.queue.effects[0].window.value);
    } else {
      AnsweredAnywhere(behaviour, s);
    }
  }

  lemma OwedByDelivery(effect: Effect, callbacks: seq<Callback>, found: Option<Window>)
    ensures Owed(Delivered(effect, callbacks, found))
            == if InWindow(effect) then RunsReached(callbacks, effect.window.value, found) else RunsAll(callbacks, [])
  {
  }

  lemma AnsweredInWindow(behaviour: seq<seq<Callback>>, s: State, id: WindowId)
    requires InFlush(s) && s.queue.effects != [] && id < s.windows.next
    requires s.queue.effects[0].EntityCreated? && s.queue.effects[0].window == Some(id) && Valid(behaviour, Delivering(s))
    ensures Met(RunsReached(s.Answer(), id, s.windows.Slot(id)), Delivering(s).log, AfterDeliver(s).log)
  {
    DeliversInWindow(s, id);
    CallbacksInWindowMet(behaviour, s.Answer(), id, Delivering(s));
  }

  lemma DeliversInWindow(s: State, id: WindowId)
    requires s.queue.effects != [] && s.queue.effects[0].EntityCreated? && s.queue.effects[0].window == Some(id)
    ensures AfterDeliver(s) == AfterCallbacksInWindow(s.Answer(), id, Delivering(s))
    ensures Delivering(s).windows == s.windows && Delivering(s).updates == s.updates
  {
  }

  lemma AnsweredAnywhere(behaviour: seq<seq<Callback>>, s: State)
    requires InFlush(s) && s.queue.effects != [] && Valid(behaviour, Delivering(s))
    requires !s.queue.effects[0].RefreshWindows? && !InWindow(s.queue.effects[0])
    ensures Met(RunsAll(s.Answer(), []), Delivering(s).log, AfterDeliver(s).log)
  {
    NoneUpdated(s.windows, SumOf(Delivering(s).log));
    CallbacksKept(behaviour, s.Answer(), Delivering(s));
  }

  lemma AnsweredMissed(behaviour: seq<seq<Callback>>, s: State)
    requires Valid(behaviour, s) && InFlush(s) && s.queue.effects != [] && !s.queue.effects[0].RefreshWindows?
    requires Valid(behaviour, Delivering(s))
    ensures SumOf(AfterDeliver(s).log).unreached == SumOf(Delivering(s).log).unreached
    ensures SumOf(AfterDeliver(s).log).missed == SumOf(Delivering(s).log).missed + MissesOf(DeliveredStep(s))
  {
    var effect := s.queue.effects[0];
    if InWindow(effect) {
      assert effect in s.queue.effects;
      CallbacksInWindowMet(behaviour, s.Answer(), effect.window.value, Delivering(s));
    } else {
      CallbacksKept(behaviour, s.Answer(), Delivering(s));
    }
  }

  ghost function MissesOf(step: Step): seq<WindowId> {
    if step.Delivered? && InWindow(step.effect) then Misses(step.callbacks, step.effect.window.value, step.found) else []
  }

  /** The misses are exactly those that the deliveries account for. */
  ghost predicate Accounted(log: seq<Step>) {
    SumOf(log).missed == SumOf(log).unreached
  }

  lemma {:induction false} CallbacksInWindowWent(behaviour: seq<seq<Callback>>, callbacks: seq<Callback>, id: WindowId, s: State)
    requires Valid(behaviour, s) && s.updates > 0 && s.windows.leases == [] && id < s.windows.next
    ensures Went(behaviour, s, AfterCallbacksInWindow(callbacks, id, s))
    decreases |s.handlers|, CallbacksWeight(callbacks), 0
  {
    if callbacks == [] {
      KeptSilently(behaviour, s, s);
    } else {
      var next := AfterObserver(callbacks[0], id, s);
      ObservedWent(behaviour, callbacks[0], id, s);
      CallbacksInWindowWent(behaviour, callbacks[1..], id, next);
      var r := AfterCallbacksInWindow(callbacks[1..], id, next);
      WentThenWent(behaviour, s, next, r);
      assert AfterCallbacksInWindow(callbacks, id, s) == r;
    }
  }

  /**
   * The observers run in the window up to the first that closes it, if it is open at all; each of
   * the others is a miss.
   */
  lemma {:induction false} CallbacksInWindowMet(behaviour: seq<seq<Callback>>, callbacks: seq<Callback>, id: WindowId, s: State)
    requires Valid(behaviour, s) && s.updates > 0 && s.windows.leases == [] && id < s.windows.next
    ensures var r := AfterCallbacksInWindow(callbacks, id, s);
            && Met(RunsReached(callbacks, id, s.windows.Slot(id)), s.log, r.log)
            && SumOf(r.log).missed == SumOf(s.log).missed + Misses(callbacks, id, s.windows.Slot(id))
            && SumOf(r.log).unreached == SumOf(s.log).unreached
    decreases |callbacks|
  {
    if callbacks == [] {
      NothingDue(s.log, s.log);
    } else {
      var found, next := s.windows.Slot(id), AfterObserver(callbacks[0], id, s);
      ObservedWent(behaviour, callbacks[0], id, s);
      ObservedMet(behaviour, callbacks[0], id, s);
      ObservedMissed(behaviour, callbacks[0], id, s);
      CallbacksInWindowMet(behaviour, callbacks[1..], id, next);
      var r := AfterCallbacksInWindow(callbacks[1..], id, next);
      assert AfterCallbacksInWindow(callbacks, id, s) == r;
      MetThenMet(ReachedOnce(callbacks[0], id, found), RunsReached(callbacks[1..], id, Left(found, callbacks[0])),
                 s.log, next.log, r.log);
      ReachedNext(callbacks, id, found);
      MissesNext(callbacks, id, found, SumOf(s.log).missed, SumOf(next.log).missed, SumOf(r.log).missed);
    }
  }

  lemma MissesNext(callbacks: seq<Callback>, id: WindowId, found: Option<Window>,
                   before: seq<WindowId>, between: seq<WindowId>, after: seq<WindowId>)
    requires callbacks != [] && between == before + if found.Some? then [] else [id]
    requires after == between + Misses(callbacks[1..], id, Left(found, callbacks[0]))
    ensures after == before + Misses(callbacks, id, found)
  {
    Regroup(before, if found.Some? then [] else [id], Misses(callbacks[1..], id, Left(found, callbacks[0])));
  }

  lemma Regroup(a: seq<WindowId>, b: seq<WindowId>, c: seq<WindowId>)
    ensures a + b + c == a + (b + c)
  {
  }

  ghost function ReachedOnce(callback: Callback, id: WindowId, found: Option<Window>): seq<Due> {
    if found.Some? then HeldDues(id, found.value, callback, []) else []
  }

  lemma ReachedNext(callbacks: seq<Callback>, id: WindowId, found: Option<Window>)
    requires callbacks != []
    ensures RunsReached(callbacks, id, found)
            == ReachedOnce(callbacks[0], id, found) + RunsReached(callbacks[1..], id, Left(found, callbacks[0]))
  {
  }

  /** One observer of a new entity. */
  ghost function AfterObserver(callback: Callback, id: WindowId, s: State): State {
    if s.windows.Free(id) then AfterUpdateWindow(id, callback, s) else AfterUpdateWindow(id, callback, s).Note(Missed(id))
  }

  lemma ObservedWent(behaviour: seq<seq<Callback>>, callback: Callback, id: WindowId, s: State)
    requires Valid(behaviour, s) && s.updates > 0 && s.windows.leases == [] && id < s.windows.next
    ensures Went(behaviour, s, AfterObserver(callback, id, s))
    ensures AfterObserver(callback, id, s).windows.Slot(id) == Left(s.windows.Slot(id), callback)
    decreases |s.handlers|, ScriptWeight(callback.body), 9
  {
    UpdateWindowKept(behaviour, id, callback, s);
    if !s.windows.Free(id) {
      MissedWent(behaviour, s, AfterUpdateWindow(id, callback, s), id);
    }
  }

  lemma ObservedMet(behaviour: seq<seq<Callback>>, callback: Callback, id: WindowId, s: State)
    requires Valid(behaviour, s) && s.updates > 0 && s.windows.leases == [] && id < s.windows.next
    ensures Met(ReachedOnce(callback, id, s.windows.Slot(id)), s.log, AfterObserver(callback, id, s).log)
  {
    var updated := AfterUpdateWindow(id, callback, s);
    NoneUpdated(s.windows, SumOf(s.log));
    UpdateWindowMet(behaviour, id, callback, s);
    if !s.windows.Free(id) {
      MetThenMore([], s.log, updated.log, updated.log + [Missed(id)]);
    }
  }

  lemma UpdateWindowMet(behaviour: seq<seq<Callback>>, id: WindowId, callback: Callback, s: State)
    requires Valid(behaviour, s) && s.updates > 0 && s.windows.stack == []
    ensures Met(ReachedOnce(callback, id, s.windows.Slot(id)), s.log, AfterUpdateWindow(id, callback, s).log)
  {
    UpdateWindowKept(behaviour, id, callback, s);
    DuesReached(id, callback, s);
  }

  lemma DuesReached(id: WindowId, callback: Callback, s: State)
    requires s.windows.stack == []
    ensures UpdateDues(id, callback, s) == ReachedOnce(callback, id, s.windows.Slot(id))
  {
  }

  lemma ObservedMissed(behaviour: seq<seq<Callback>>, callback: Callback, id: WindowId, s: State)
    requires Valid(behaviour, s) && s.updates > 0 && s.windows.leases == [] && id < s.windows.next
    ensures var next := AfterObserver(callback, id, s);
            && SumOf(next.log).missed == SumOf(s.log).missed + (if s.windows.Free(id) then [] else [id])
            && SumOf(next.log).unreached == SumOf(s.log).unreached
  {
    UpdateWindowMisses(behaviour, id, callback, s);
    if !s.windows.Free(id) {
      MissCounted(AfterUpdateWindow(id, callback, s).log, id);
    }
  }

  lemma MissCounted(log: seq<Step>, id: WindowId)
    ensures SumOf(log + [Missed(id)]).missed == SumOf(log).missed + [id]
    ensures SumOf(log + [Missed(id)]).unreached == SumOf(log).unreached
  {
    SumStep(log, Missed(id));
  }

  lemma UpdateWindowMisses(behaviour: seq<seq<Callback>>, id: WindowId, callback: Callback, s: State)
    requires Valid(behaviour, s) && s.updates > 0
    ensures SumOf(AfterUpdateWindow(id, callback, s).log).missed == SumOf(s.log).missed
    ensures SumOf(AfterUpdateWindow(id, callback, s).log).unreached == SumOf(s.log).unreached
  {
    UpdateWindowKept(behaviour, id, callback, s);
  }

  lemma MissedWent(behaviour: seq<seq<Callback>>, before: State, s: State, id: WindowId)
    requires Kept(behaviour, before, s) && !s.windows.Free(id) && s.windows.leases == [] && id < s.windows.next
    ensures Went(behaviour, before, s.Note(Missed(id)))
  {
    var step := Missed(id);
    SumStep(s.log, step);
    TruthfulStep(behaviour, s.log, step);
    SameSlots(s.windows, SumOf(s.log), SumOf(s.log + [step]));
    FreeIsOpen(s.windows, SumOf(s.log), id);
    NothingOwed(s.log, step);
    SettledThenSettled(before.log, s.log, s.log + [step]);
  }

  /** No update but the last closes the window. */
  ghost predicate Stays(callbacks: seq<Callback>, found: Option<Window>) {
    && found.Some?
    && (|callbacks| == 1 || !found.value.removed)
    && forall i :: 0 <= i < |callbacks| - 1 ==> !callbacks[i].removes
  }

  lemma {:induction false} NoMissMeans(callbacks: seq<Callback>, id: WindowId, found: Option<Window>)
    ensures Misses(callbacks, id, found) == [] <==> callbacks == [] || Stays(callbacks, found)
    decreases |callbacks|
  {
    if |callbacks| == 1 {
      assert Misses(callbacks[1..], id, Left(found, callbacks[0])) == [];
    } else if |callbacks| > 1 {
      NoMissMeans(callbacks[1..], id, Left(found, callbacks[0]));
      StaysNext(callbacks, found);
    }
  }

  lemma StaysNext(callbacks: seq<Callback>, found: Option<Window>)
    requires |callbacks| > 1
    ensures Stays(callbacks, found) <==> Stays(callbacks[1..], Left(found, callbacks[0]))
  {
    var rest := callbacks[1..];
    if Stays(rest, Left(found, callbacks[0])) {
      forall i | 0 <= i < |callbacks| - 1 ensures !callbacks[i].removes {
        assert i > 0 ==> callbacks[i] == rest[i - 1];
      }
    } else if Stays(callbacks, found) {
      forall i | 0 <= i < |rest| - 1 ensures !rest[i].removes {
        assert rest[i] == callbacks[i + 1];
      }
    }
  }

  lemma {:induction false} FlushWent(behaviour: seq<seq<Callback>>, s: State)
    requires Valid(behaviour, s) && InFlush(s)
    ensures Went(behaviour, s, AfterFlush(s)) && (Accounted(s.log) ==> Accounted(AfterFlush(s).log))
    decreases |s.handlers|, 0, 3, |s.queue.effects|
  {
    var released := AfterRelease(s);
    ReleaseWent(behaviour, s);
    if released.queue.effects != [] {
      var delivered := AfterDeliver(released);
      DeliverWent(behaviour, released);
      FlushWent(behaviour, delivered);
      WentThenWent(behaviour, s, released, delivered);
      WentThenWent(behaviour, s, delivered, AfterFlush(delivered));
    }
  }

  // ---------- Outermost updates ----------

  /** Nothing is left to deliver or release, and no update is running. */
  ghost predicate Quiet(s: State) {
    && s.queue.effects == [] && s.queue.notifications == {} && s.queue.globals == {} && s.dropped == []
    && s.updates == 0 && !s.flushing && s.windows.leases == [] && s.windows.stack == []
  }

  /** One flush was entered and left nothing to do. */
  ghost predicate Flushed(behaviour: seq<seq<Callback>>, before: State, after: State) {
    && Valid(behaviour, after) && Quiet(after)
    && before.log <= after.log && Settled(after.log, |before.log|)
    && SumOf(after.log).flushes == SumOf(before.log).flushes + 1
    && SumOf(after.log).delivered == SumOf(after.log).accepted
    && (forall e <- before.dropped :: e in after.released)
    && (Accounted(before.log) ==> Accounted(after.log))
  }

  lemma EmptyQueue(queue: Queue)
    requires QueueOk(queue) && queue.effects == []
    ensures queue.notifications == {} && queue.globals == {}
  {
    forall e ensures e !in queue.notifications {
      assert NotifiedOnce(queue, e);
    }
    forall g ensures g !in queue.globals {
      assert GlobalOnce(queue, g);
    }
  }

  lemma FlushBegins(behaviour: seq<seq<Callback>>, s: State)
    requires Valid(behaviour, s) && s.updates == 1 && s.windows.leases == []
    ensures var flushing := s.(flushing := true).Note(Flushing);
            && Valid(behaviour, flushing) && Settled(flushing.log, |s.log|)
            && SumOf(flushing.log) == SumOf(s.log).(flushes := SumOf(s.log).flushes + 1, cause := None)
  {
    SumStep(s.log, Flushing);
    NoteValid(behaviour, s, Flushing);
    NothingOwed(s.log, Flushing);
  }

  /** The flush at the end of an outermost update. */
  lemma FinishFlushes(behaviour: seq<seq<Callback>>, before: State, s: State)
    requires Kept(behaviour, before, s) && s.updates == 1 && !s.flushing && s.windows.leases == []
    ensures Flushed(behaviour, before, AfterFinish(s))
  {
    var flushing := s.(flushing := true).Note(Flushing);
    FlushBegins(behaviour, s);
    FlushWent(behaviour, flushing);
    var flushed := AfterFlush(flushing);
    SettledThenSettled(before.log, s.log, flushing.log);
    SettledThenSettled(before.log, flushing.log, flushed.log);
    EmptyQueue(flushed.queue);
    NoneUpdated(flushed.windows, SumOf(flushed.log));
    assert AfterFinish(s) == flushed.(flushing := false).End();
  }

  /** What an action that is an update of its own does before the end of that update. */
  ghost function AfterInner(action: Action, s: State): (r: State)
    requires IsEntry(action)
    ensures Balanced(s, r)
  {
    match action
    case CreateEntity(created, construct) => AfterCreating(created, construct, s)
    case Update(body) => AfterScript(body, s)
    case UpdateWindow(id, callback) => AfterUpdating(id, callback, s)
    case OpenWindow(create, opening) => AfterOpening(create, opening, s)
  }

  lemma StartedIsFinished(action: Action, s: State)
    requires IsEntry(action)
    ensures AfterStarted(action, s) == AfterFinish(AfterInner(action, s.Begin()))
  {
  }

  lemma InnerKept(behaviour: seq<seq<Callback>>, action: Action, s: State)
    requires Valid(behaviour, s) && s.updates > 0 && IsEntry(action)
    ensures Kept(behaviour, s, AfterInner(action, s))
  {
    match action
    case CreateEntity(created, construct) => CreatedKept(behaviour, created, construct, s);
    case Update(body) => ScriptKept(behaviour, body, s);
    case UpdateWindow(id, callback) => UpdatingKept(behaviour, id, callback, s);
    case OpenWindow(create, opening) => OpeningKept(behaviour, create, opening, s);
  }

  lemma InnerMet(behaviour: seq<seq<Callback>>, action: Action, s: State)
    requires Valid(behaviour, s) && s.updates > 0 && IsEntry(action)
    ensures Met(ActionDues(action, s.windows.stack, Holds(action, s)), s.log, AfterInner(action, s).log)
  {
    match action
    case CreateEntity(created, construct) => InnerCreateMet(behaviour, created, construct, s);
    case Update(body) => ScriptKept(behaviour, body, s);
    case UpdateWindow(id, callback) => UpdatingKept(behaviour, id, callback, s);
    case OpenWindow(create, opening) => InnerOpenMet(behaviour, create, opening, s);
  }

  lemma InnerCreateMet(behaviour: seq<seq<Callback>>, created: EntityId, construct: seq<Action>, s: State)
    requires Valid(behaviour, s) && s.updates > 0
    ensures Met(ActionDues(CreateEntity(created, construct), s.windows.stack, None), s.log, AfterCreating(created, construct, s).log)
  {
    CreatedKept(behaviour, created, construct, s);
  }

  lemma InnerOpenMet(behaviour: seq<seq<Callback>>, create: seq<Action>, opening: Opening, s: State)
    requires Valid(behaviour, s) && s.updates > 0
    ensures var action := OpenWindow(create, opening);
            Met(ActionDues(action, s.windows.stack, Holds(action, s)), s.log, AfterOpening(create, opening, s).log)
  {
    OpeningKept(behaviour, create, opening, s);
  }

  /** A flushed stretch after the step that was noted for it. */
  lemma FlushedFrom(behaviour: seq<seq<Callback>>, before: State, noted: State, after: State, step: Step)
    requires noted.log == before.log + [step] && noted.dropped == before.dropped && step.Started?
    requires !IsSimple(step.action)
    requires Flushed(behaviour, noted, after) && Met(Owed(step), noted.log, after.log)
    ensures Flushed(behaviour, before, after)
  {
    TellsNobody(before.log, step, after.log);
    SettledFrom(before.log, step, after.log);
    SumStep(before.log, step);
  }

  /** Whatever starts on its own runs its code, then delivers everything, and leaves nothing to do. */
  lemma EntryFlushes(behaviour: seq<seq<Callback>>, entry: Action, s: State)
    requires Valid(behaviour, s) && s.updates == 0 && IsEntry(entry)
    ensures Flushed(behaviour, s, AfterAction(entry, s))
    ensures Met([Perform(entry, [])], s.log, AfterAction(entry, s).log)
  {
    NoneUpdated(s.windows, SumOf(s.log));
    var step := Started(entry, [], Holds(entry, s));
    var noted := s.Note(step);
    HoldsTruly(behaviour, entry, s);
    NoteValid(behaviour, s, step);
    EntryStarted(behaviour, entry, noted);
    FlushedFrom(behaviour, s, noted, AfterAction(entry, s), step);
    MetByOne(Perform(entry, []), step, s.log);
    MetThenMore([Perform(entry, [])], s.log, noted.log, AfterAction(entry, s).log);
  }

  lemma EntryStarted(behaviour: seq<seq<Callback>>, entry: Action, s: State)
    requires Valid(behaviour, s) && s.updates == 0 && IsEntry(entry)
    ensures Flushed(behaviour, s, AfterStarted(entry, s))
    ensures Met(ActionDues(entry, s.windows.stack, Holds(entry, s)), s.log, AfterStarted(entry, s).log)
  {
    var begun := s.Begin();
    BeginValid(behaviour, s);
    InnerKept(behaviour, entry, begun);
    InnerMet(behaviour, entry, begun);
    var ran := AfterInner(entry, begun);
    StartedIsFinished(entry, s);
    FinishFlushes(behaviour, begun, ran);
    MetThenMore(ActionDues(entry, s.windows.stack, Holds(entry, s)), s.log, ran.log, AfterFinish(ran).log);
  }

  // ---------- Whole runs ----------

  lemma InitialValid(behaviour: seq<seq<Callback>>)
    ensures Valid(behaviour, Initial(behaviour)) && Quiet(Initial(behaviour))
  {
    var s := Initial(behaviour);
    forall e ensures NotifiedOnce(s.queue, e) {
    }
    forall g ensures GlobalOnce(s.queue, g) {
    }
    forall w, e ensures Agrees(s.index, s.released, w, e) {
    }
    forall w ensures SlotOk(s.windows, SumOf(s.log), w) {
    }
    forall w, e ensures DirtyOk(s.dirty, s.released, SumOf(s.log).facts.dirtied, w, e) {
    }
  }

  predicate AllEntries(entries: seq<Action>) {
    forall entry <- entries :: IsEntry(entry)
  }

  ghost function Entered(entries: seq<Action>): seq<Due> {
    if entries == [] then [] else Entered(entries[..|entries| - 1]) + [Perform(entries[|entries| - 1], [])]
  }

  /**
   * Over any run from the start, of updates, entities created, windows updated and opened, whatever
   * handlers and re-entry they meet, nothing is left to do; the entries have started in order; whatever
   * any step of the log owes has been done after it, in order; each entry flushed once; every effect
   * queued was delivered, in order; every entity whose last handle is gone was released; and the misses are
   * those that the deliveries account for.
   */
  lemma {:induction false} EntriesGoWell(behaviour: seq<seq<Callback>>, entries: seq<Action>)
    requires AllEntries(entries)
    ensures var s := AfterEntries(entries, Initial(behaviour));
            && Valid(behaviour, s) && Quiet(s)
            && Met(Entered(entries), [], s.log) && Settled(s.log, 0)
            && SumOf(s.log).flushes == |entries|
            && SumOf(s.log).delivered == SumOf(s.log).accepted && Accounted(s.log)
            && SumOf(s.log).released == SumOf(s.log).facts.dropped
    decreases |entries|
  {
    if entries == [] {
      InitialValid(behaviour);
      NothingDue([], []);
      assert SumOf([]) == NOTHING;
    } else {
      var before := AfterEntries(entries[..|entries| - 1], Initial(behaviour));
      var entry := entries[|entries| - 1];
      var s := AfterAction(entry, before);
      EntriesGoWell(behaviour, entries[..|entries| - 1]);
      EntryFlushes(behaviour, entry, before);
      SettledThenSettled([], before.log, s.log);
      MetThenMet(Entered(entries[..|entries| - 1]), [Perform(entry, [])], [], before.log, s.log);
      assert s.dropped == [] && DropsOk([], s.released, SumOf(s.log).facts.dropped);
    }
  }

  // ---------- Who was told ----------

  /** Effects are delivered in the order they were queued. */
  lemma {:induction false} DeliveredIsAccepted(behaviour: seq<seq<Callback>>, log: seq<Step>)
    requires Truthful(behaviour, log)
    ensures SumOf(log).delivered <= SumOf(log).accepted
    decreases |log|
  {
    if log != [] {
      DeliveredIsAccepted(behaviour, log[..|log| - 1]);
    }
  }

  lemma {:induction false} AcceptedGrows(before: seq<Step>, after: seq<Step>)
    requires before <= after
    ensures SumOf(before).accepted <= SumOf(after).accepted
    decreases |after|
  {
    if |before| == |after| {
      assert before == after;
    } else {
      AcceptedGrows(before, after[..|after| - 1]);
      AddGrows(SumOf(after[..|after| - 1]), after[|after| - 1]);
    }
  }

  /** From step `from` on the effect is delivered. */
  ghost predicate DeliveredFrom(log: seq<Step>, from: nat, effect: Effect) {
    exists j :: from <= j < |log| && log[j].Delivered? && log[j].effect == effect
  }

  lemma {:induction false} DeliveredSince(log: seq<Step>, from: nat, i: nat)
    requires from <= |log| && |SumOf(log[..from]).delivered| <= i < |SumOf(log).delivered|
    ensures DeliveredFrom(log, from, SumOf(log).delivered[i])
    decreases |log|
  {
    if from == |log| {
      Whole(log);
      assert false;
    }
    var front, last := log[..|log| - 1], log[|log| - 1];
    assert front[..from] == log[..from];
    AddGrows(SumOf(front), last);
    if i < |SumOf(front).delivered| {
      DeliveredSince(front, from, i);
      var j :| from <= j < |front| && front[j].Delivered? && front[j].effect == SumOf(front).delivered[i];
      assert log[j] == front[j];
    } else {
      assert last.Delivered? && SumOf(log).delivered == SumOf(front).delivered + [last.effect];
    }
  }

  lemma Whole<T>(s: seq<T>)
    ensures s[..|s|] == s
  {
  }

  lemma PickOutstanding(sum: Sum, effect: Effect) returns (i: nat)
    requires effect in Outstanding(sum)
    ensures |sum.delivered| <= i < |sum.accepted| && sum.accepted[i] == effect
  {
    var x :| 0 <= x < |Outstanding(sum)| && Outstanding(sum)[x] == effect;
    i := |sum.delivered| + x;
  }

  lemma OutstandingIsDelivered(log: seq<Step>, from: nat, effect: Effect)
    requires from <= |log| && effect in Outstanding(SumOf(log[..from]))
    requires SumOf(log).delivered == SumOf(log).accepted
    ensures DeliveredFrom(log, from, effect)
  {
    var i := PickOutstanding(SumOf(log[..from]), effect);
    AcceptedGrows(log[..from], log);
    assert SumOf(log).accepted[i] == effect;
    DeliveredSince(log, from, i);
  }

  lemma QueuedIsOutstanding(behaviour: seq<seq<Callback>>, log: seq<Step>, k: nat)
    requires k < |log| && log[k].Queued? && Truthful(behaviour, log[..k])
    ensures log[k].queued in Outstanding(SumOf(log[..k + 1]))
  {
    assert log[..k + 1] == log[..k] + [log[k]];
    SumStep(log[..k], log[k]);
    DeliveredIsAccepted(behaviour, log[..k]);
    var sum := SumOf(log[..k + 1]);
    assert sum.accepted[|sum.accepted| - 1] == log[k].queued;
    assert Outstanding(sum)[|Outstanding(sum)| - 1] == log[k].queued;
  }

  lemma {:induction false} TruthfulPrefix(behaviour: seq<seq<Callback>>, log: seq<Step>, n: nat)
    requires Truthful(behaviour, log) && n <= |log|
    ensures Truthful(behaviour, log[..n])
    decreases |log|
  {
    if n == |log| {
      assert log[..n] == log;
    } else {
      TruthfulPrefix(behaviour, log[..|log| - 1], n);
      assert log[..|log| - 1][..n] == log[..n];
    }
  }

  /**
   * Over any run, whoever sets a global has its observers told afterwards, and whoever notifies an unreleased
   * entity has its observers told, unless there are windows showing it and all of them are drawing.
   */
  lemma EntriesTell(behaviour: seq<seq<Callback>>, entries: seq<Action>, k: nat)
    requires AllEntries(entries)
    ensures var log := AfterEntries(entries, Initial(behaviour)).log;
            k < |log| && Tells(SumOf(log[..k]), log[k]).Some? ==> DeliveredFrom(log, k + 1, Tells(SumOf(log[..k]), log[k]).value)
  {
    var log := AfterEntries(entries, Initial(behaviour)).log;
    EntriesGoWell(behaviour, entries);
    if k < |log| && Tells(SumOf(log[..k]), log[k]).Some? {
      assert SettledAt(log, k);
      ToldIsDelivered(behaviour, log, k, Tells(SumOf(log[..k]), log[k]).value);
    }
  }

  lemma ToldIsDelivered(behaviour: seq<seq<Callback>>, log: seq<Step>, k: nat, effect: Effect)
    requires Truthful(behaviour, log) && SumOf(log).delivered == SumOf(log).accepted
    requires k < |log| && ToldAt(log, k) && Tells(SumOf(log[..k]), log[k]) == Some(effect)
    ensures DeliveredFrom(log, k + 1, effect)
  {
    if effect in Outstanding(SumOf(log[..k])) {
      OutstandingIsDelivered(log, k, effect);
    } else {
      TruthfulPrefix(behaviour, log, k + 1);
      QueuedIsOutstanding(behaviour, log, k + 1);
      OutstandingIsDelivered(log, k + 2, effect);
    }
  }

  /** Setting a global queues one notification for its observers, unless one is queued already. */
  lemma SetGlobalTells(behaviour: seq<seq<Callback>>, s: State, globalType: GlobalType)
    requires Valid(behaviour, s)
    ensures AfterSimple(SetGlobal(globalType), s).queue.effects ==
            if NotifyGlobalObservers(globalType) in s.queue.effects then s.queue.effects
            else s.queue.effects + [NotifyGlobalObservers(globalType)]
  {
    PendingIsQueued(s.queue, NotifyGlobalObservers(globalType));
  }

  // ---------- What was said last ----------

  /** No step from `from` on says whether the window is drawing. */
  ghost predicate DrawingUnsaid(log: seq<Step>, from: nat, window: WindowId) {
    forall j :: from <= j < |log| ==> !(log[j].Started? && log[j].action.SetDrawing? && log[j].action.window == window)
  }

  lemma {:induction false} DrawingLastSaid(log: seq<Step>, k: nat, window: WindowId, drawing: bool)
    requires k < |log| && log[k].Started? && log[k].action == SetDrawing(window, drawing) && DrawingUnsaid(log, k + 1, window)
    ensures window in SumOf(log).facts.drawing <==> drawing
    decreases |log|
  {
    if k < |log| - 1 {
      var front := log[..|log| - 1];
      assert DrawingUnsaid(front, k + 1, window);
      DrawingLastSaid(front, k, window, drawing);
    }
  }

  /** The drawing flag follows the last call for the window. */
  lemma DrawingFollows(behaviour: seq<seq<Callback>>, s: State, k: nat, window: WindowId, drawing: bool)
    requires Valid(behaviour, s) && k < |s.log| && s.log[k].Started? && s.log[k].action == SetDrawing(window, drawing)
    requires DrawingUnsaid(s.log, k + 1, window)
    ensures window in s.drawing <==> drawing
  {
    DrawingLastSaid(s.log, k, window, drawing);
  }

  /** No step from `from` on records or closes the window. */
  ghost predicate Unrecorded(log: seq<Step>, from: nat, window: WindowId) {
    forall j :: from <= j < |log| ==>
      && !(log[j].Started? && log[j].action.RecordAccess? && log[j].action.window == window)
      && !(log[j].Closed? && log[j].closed == window)
  }

  lemma {:induction false} RecordLastSaid(log: seq<Step>, k: nat, window: WindowId, entities: set<EntityId>)
    requires k < |log| && log[k].Started? && log[k].action == RecordAccess(window, entities) && Unrecorded(log, k + 1, window)
    ensures window in SumOf(log).facts.tracked && SumOf(log).facts.tracked[window] == entities
    decreases |log|
  {
    if k < |log| - 1 {
      var front, last := log[..|log| - 1], log[|log| - 1];
      assert Unrecorded(front, k + 1, window);
      RecordLastSaid(front, k, window, entities);
    }
  }

  /** A window shows exactly what was recorded for it last. */
  lemma ShownIsRecorded(behaviour: seq<seq<Callback>>, s: State, k: nat, window: WindowId, entities: set<EntityId>)
    requires Valid(behaviour, s) && k < |s.log| && s.log[k].Started? && s.log[k].action == RecordAccess(window, entities)
    requires Unrecorded(s.log, k + 1, window)
    ensures s.index.Shown(window) == entities
  {
    RecordLastSaid(s.log, k, window, entities);
  }

  /** The step makes the window the entity's current one: the entity was created or recorded in it. */
  ghost predicate Seats(step: Step, entity: EntityId, window: WindowId) {
    || (step.Started? && step.action.RecordAccess? && step.action.window == window && entity in step.action.entities)
    || (step.Delivered? && step.effect == EntityCreated(entity, Some(window)))
  }

  /** The step may take the entity its current window. */
  ghost predicate Unseats(step: Step, entity: EntityId, window: WindowId) {
    || (step.Started? && step.action.RecordAccess? && entity in step.action.entities)
    || (step.Delivered? && step.effect.EntityCreated? && step.effect.entity == entity)
    || (step.Released? && step.entity == entity)
    || (step.Closed? && step.closed == window)
  }

  lemma {:induction false} CurrentLastSaid(log: seq<Step>, k: nat, entity: EntityId, window: WindowId)
    requires k < |log| && Seats(log[k], entity, window)
    requires forall j :: k < j < |log| ==> !Unseats(log[j], entity, window)
    ensures entity in SumOf(log).facts.current && SumOf(log).facts.current[entity] == window
    decreases |log|
  {
    if k < |log| - 1 {
      CurrentLastSaid(log[..|log| - 1], k, entity, window);
      assert !Unseats(log[|log| - 1], entity, window);
    }
  }

  /** The current window of an entity is the one it was created or recorded in last. */
  lemma CurrentIsLast(behaviour: seq<seq<Callback>>, s: State, k: nat, entity: EntityId, window: WindowId)
    requires Valid(behaviour, s) && k < |s.log| && Seats(s.log[k], entity, window)
    requires forall j :: k < j < |s.log| ==> !Unseats(s.log[j], entity, window)
    ensures entity in s.index.current && s.index.current[entity] == window
  {
    CurrentLastSaid(s.log, k, entity, window);
  }

  // ---------- Entities released ----------

  ghost predicate DropsAt(log: seq<Step>, entity: EntityId, k: nat)
    requires k < |log|
  {
    log[k].Started? && log[k].action == DropEntity(entity)
  }

  ghost predicate ReleasesAt(log: seq<Step>, entity: EntityId, k: nat)
    requires k < |log|
  {
    log[k].Released? && log[k].entity == entity
  }

  lemma {:induction false} DroppedSomewhere(log: seq<Step>, entity: EntityId)
    ensures entity in SumOf(log).facts.dropped <==> exists k :: 0 <= k < |log| && DropsAt(log, entity, k)
    decreases |log|
  {
    if log != [] {
      var front, last := log[..|log| - 1], |log| - 1;
      DroppedSomewhere(front, entity);
      if entity in SumOf(front).facts.dropped {
        var k :| 0 <= k < |front| && DropsAt(front, entity, k);
        assert DropsAt(log, entity, k);
      } else if DropsAt(log, entity, last) {
      } else {
        forall k | 0 <= k < |log| ensures !DropsAt(log, entity, k) {
          assert k < last ==> !DropsAt(front, entity, k);
        }
      }
    }
  }

  lemma {:induction false} ReleasedSomewhere(log: seq<Step>, entity: EntityId)
    ensures entity in SumOf(log).released <==> exists k :: 0 <= k < |log| && ReleasesAt(log, entity, k)
    decreases |log|
  {
    if log != [] {
      var front, last := log[..|log| - 1], |log| - 1;
      ReleasedSomewhere(front, entity);
      if entity in SumOf(front).released {
        var k :| 0 <= k < |front| && ReleasesAt(front, entity, k);
        assert ReleasesAt(log, entity, k);
      } else if ReleasesAt(log, entity, last) {
      } else {
        forall k | 0 <= k < |log| ensures !ReleasesAt(log, entity, k) {
          assert k < last ==> !ReleasesAt(front, entity, k);
        }
      }
    }
  }

  /** No entity is released twice. */
  lemma ReleasedOnce(behaviour: seq<seq<Callback>>, log: seq<Step>, entity: EntityId, j: nat, k: nat)
    requires Truthful(behaviour, log) && j < k < |log| && ReleasesAt(log, entity, j)
    ensures !ReleasesAt(log, entity, k)
  {
    TruthfulAt(behaviour, log, k);
    assert ReleasesAt(log[..k], entity, j);
    ReleasedSomewhere(log[..k], entity);
  }

  /** Over any run the entities released, each once, are those whose last handle went away. */
  lemma EntriesRelease(behaviour: seq<seq<Callback>>, entries: seq<Action>, entity: EntityId)
    requires AllEntries(entries)
    ensures var log := AfterEntries(entries, Initial(behaviour)).log;
            && ((exists k :: 0 <= k < |log| && DropsAt(log, entity, k)) <==> (exists k :: 0 <= k < |log| && ReleasesAt(log, entity, k)))
            && (forall j, k :: 0 <= j < k < |log| && ReleasesAt(log, entity, j) ==> !ReleasesAt(log, entity, k))
  {
    var log := AfterEntries(entries, Initial(behaviour)).log;
    EntriesGoWell(behaviour, entries);
    DroppedSomewhere(log, entity);
    ReleasedSomewhere(log, entity);
    forall j, k | 0 <= j < k < |log| && ReleasesAt(log, entity, j) ensures !ReleasesAt(log, entity, k) {
      ReleasedOnce(behaviour, log, entity, j, k);
    }
  }

  /** Between updates the windows in their slots are exactly those opened and not closed; no slot is empty. */
  lemma OpenWindowsAreInSlots(behaviour: seq<seq<Callback>>, s: State, w: WindowId)
    requires Valid(behaviour, s) && s.windows.leases == []
    ensures w in s.windows.slots <==> w in SumOf(s.log).filled - SumOf(s.log).closed
    ensures w in s.windows.slots <==> s.windows.Free(w)
    ensures w in s.windows.slots <==> w in s.windows.handles
  {
    assert SlotOk(s.windows, SumOf(s.log), w);
  }

  lemma InSlot(behaviour: seq<seq<Callback>>, s: State, w: WindowId)
    requires Valid(behaviour, s) && s.windows.leases == [] && w in s.windows.slots
    ensures s.windows.slots[w] == Some(Window(w, w in SumOf(s.log).flagged))
  {
    assert SlotOk(s.windows, SumOf(s.log), w);
  }

  /** At any time an open window is in its slot or held by exactly one running update. */
  lemma OpenWindowIsSomewhere(behaviour: seq<seq<Callback>>, s: State, w: WindowId)
    requires Valid(behaviour, s) && w in SumOf(s.log).filled - SumOf(s.log).closed
    ensures s.windows.Free(w) <==> w !in s.windows.stack
    ensures w in s.windows.stack <==> w in s.windows.leases
    ensures Distinct(s.windows.stack) && Distinct(s.windows.leases)
  {
    assert SlotOk(s.windows, SumOf(s.log), w);
  }

  /** Each step told the truth when it was logged: who was closed on whose request, which callbacks answered what. */
  lemma {:induction false} TruthfulAt(behaviour: seq<seq<Callback>>, log: seq<Step>, k: nat)
    requires Truthful(behaviour, log) && k < |log|
    ensures TruthfulNext(behaviour, SumOf(log[..k]), log[k])
    decreases |log|
  {
    if k < |log| - 1 {
      TruthfulAt(behaviour, log[..|log| - 1], k);
      assert log[..|log| - 1][..k] == log[..k];
    }
  }

  /** A notification dirties exactly the views of the windows that show the entity. */
  lemma NotifyDirties(behaviour: seq<seq<Callback>>, s: State, entity: EntityId, w: WindowId, e: EntityId)
    requires Valid(behaviour, s) && entity !in s.released
    ensures IsDirty(AfterNotify(entity, s), w, e) <==> IsDirty(s, w, e) || (e == entity && entity in s.index.Shown(w))
  {
    LiveIsShown(s.index, s.released, entity, w);
  }

  ghost predicate IsDirty(s: State, w: WindowId, e: EntityId) {
    w in s.dirty && e in s.dirty[w]
  }

  /** Its observers are to be told unless there are windows showing it and all of them are drawing. */
  lemma NotifyTells(behaviour: seq<seq<Callback>>, s: State, entity: EntityId)
    requires Valid(behaviour, s) && entity !in s.released
    ensures var shown := exists w :: entity in s.index.Shown(w);
            var idle := exists w :: w !in s.drawing && entity in s.index.Shown(w);
            AfterNotify(entity, s).queue.effects ==
              if (!shown || idle) && Notify(entity) !in s.queue.effects then s.queue.effects + [Notify(entity)] else s.queue.effects
  {
    PendingIsQueued(s.queue, Notify(entity));
    forall w ensures w in s.index.Live(entity) <==> entity in s.index.Shown(w) {
      LiveIsShown(s.index, s.released, entity, w);
    }
    var live := s.index.Live(entity);
    if live == {} {
      forall w ensures entity !in s.index.Shown(w) {
        assert w !in live;
      }
    } else {
      var w :| w in live;
      assert entity in s.index.Shown(w);
    }
    var idle := live - s.drawing;
    if idle == {} {
      forall w ensures w in s.drawing || entity !in s.index.Shown(w) {
        assert w !in idle;
      }
    } else {
      var w :| w in idle;
      assert w !in s.drawing && entity in s.index.Shown(w);
    }
  }

  /**
   * The observers of a new entity all find their window exactly if it is open and no update but the last
   * closes it: neither the request of an observer nor one made while the window was opened.
   */
  lemma MissedExactly(behaviour: seq<seq<Callback>>, callbacks: seq<Callback>, id: WindowId, s: State)
    requires Valid(behaviour, s) && s.updates > 0 && s.windows.leases == [] && id < s.windows.next
    ensures SumOf(AfterCallbacksInWindow(callbacks, id, s).log).missed == SumOf(s.log).missed <==>
            callbacks == [] || Stays(callbacks, s.windows.Slot(id))
  {
    CallbacksInWindowMet(behaviour, callbacks, id, s);
    NoMissMeans(callbacks, id, s.windows.Slot(id));
    NothingAppended(SumOf(s.log).missed, Misses(callbacks, id, s.windows.Slot(id)));
  }

  lemma NothingAppended(a: seq<WindowId>, b: seq<WindowId>)
    ensures a + b == a <==> b == []
  {
    assert |a + b| == |a| + |b|;
  }

  // ---------- A window that is missed ----------

  lemma OneAction(action: Action, s: State)
    ensures AfterScript([action], s) == AfterAction(action, s)
  {
    assert AfterScript([], AfterAction(action, s)) == AfterAction(action, s);
  }

  /** Inside another update an entity without a constructor is only announced. */
  lemma {:induction false} JustAnnounced(entity: EntityId, s: State)
    requires s.updates > 0
    ensures var r := AfterScript([CreateEntity(entity, [])], s);
            && r.queue.effects == s.queue.effects + [EntityCreated(entity, Top(s.windows.stack))]
            && r.handlers == s.handlers && r.dropped == s.dropped && r.windows == s.windows
  {
    var create := CreateEntity(entity, []);
    OneAction(create, s);
    var noted := s.Note(Started(create, s.windows.stack, None));
    var pushed := noted.Begin().Push(EntityCreated(entity, Top(s.windows.stack)));
    assert AfterScript([], noted.Begin()) == noted.Begin();
    assert AfterCreate(entity, [], noted) == AfterFinish(pushed) == pushed.End();
    assert AfterAction(create, s) == pushed.End();
  }

  lemma {:induction false} MissedGrows(before: seq<Step>, after: seq<Step>)
    requires before <= after
    ensures SumOf(before).missed <= SumOf(after).missed
    decreases |after|
  {
    if |before| == |after| {
      assert before == after;
    } else {
      MissedGrows(before, after[..|after| - 1]);
      AddGrows(SumOf(after[..|after| - 1]), after[|after| - 1]);
    }
  }

  /** The announcement of a new entity is next, and not all of its observers will find the window. */
  ghost predicate WillMiss(id: WindowId, s: State) {
    && s.dropped == [] && s.queue.effects != [] && Misses(s.Answer(), id, s.windows.Slot(id)) != []
    && s.queue.effects[0].EntityCreated? && s.queue.effects[0].window == Some(id)
  }

  lemma FlushMisses(behaviour: seq<seq<Callback>>, id: WindowId, s: State)
    requires Valid(behaviour, s) && InFlush(s) && WillMiss(id, s)
    ensures id in SumOf(AfterFlush(s).log).missed
  {
    DeliveryMisses(behaviour, id, s);
    assert AfterRelease(s) == s && AfterFlush(s) == AfterFlush(AfterDeliver(s));
    MissedGrows(AfterDeliver(s).log, AfterFlush(s).log);
  }

  lemma DeliveryMisses(behaviour: seq<seq<Callback>>, id: WindowId, s: State)
    requires Valid(behaviour, s) && InFlush(s) && WillMiss(id, s)
    ensures id in SumOf(AfterDeliver(s).log).missed
  {
    DeliveringValid(behaviour, s);
    AnsweredMissed(behaviour, s);
    MissesAre(s.Answer(), id, s.windows.Slot(id));
  }

  lemma {:induction false} MissesAre(callbacks: seq<Callback>, id: WindowId, found: Option<Window>)
    ensures Misses(callbacks, id, found) != [] ==> id in Misses(callbacks, id, found)
    decreases |callbacks|
  {
    if callbacks != [] {
      MissesAre(callbacks[1..], id, Left(found, callbacks[0]));
    }
  }

  /** An entry that ends with such an announcement in front. */
  lemma EntryMisses(behaviour: seq<seq<Callback>>, entry: Action, id: WindowId, s: State)
    requires Valid(behaviour, s) && Quiet(s) && IsEntry(entry)
    requires WillMiss(id, AfterInner(entry, s.Note(Started(entry, [], Holds(entry, s))).Begin()))
    ensures id in SumOf(AfterAction(entry, s).log).missed
  {
    var step := Started(entry, [], Holds(entry, s));
    var noted := s.Note(step);
    HoldsTruly(behaviour, entry, s);
    NoteValid(behaviour, s, step);
    BeginValid(behaviour, noted);
    InnerKept(behaviour, entry, noted.Begin());
    StartedIsFinished(entry, noted);
    var ran := AfterInner(entry, noted.Begin());
    var flushing := ran.(flushing := true).Note(Flushing);
    FlushBegins(behaviour, ran);
    FlushMisses(behaviour, id, flushing);
    assert AfterFinish(ran) == AfterFlush(flushing).(flushing := false).End();
  }

  /** An update of a window that creates an entity and asks for the window to be closed. */
  ghost function Parting(id: WindowId, entity: EntityId): Action {
    UpdateWindow(id, Callback([CreateEntity(entity, [])], true))
  }

  /** The window is closed, the announcement is queued. */
  lemma PartingHeld(behaviour: seq<seq<Callback>>, id: WindowId, entity: EntityId, s: State)
    requires Valid(behaviour, s) && s.updates > 0 && s.windows.Free(id) && s.handlers != [] && s.handlers[0] == []
    ensures var r := AfterInner(Parting(id, entity), s);
            && r.queue.effects == s.queue.effects + [EntityCreated(entity, Some(id))]
            && r.handlers == s.handlers[1..] && r.dropped == s.dropped && id !in r.windows.slots
  {
    var callback := Callback([CreateEntity(entity, [])], true);
    var taken := s.(windows := s.windows.Take(id));
    TakeOk(s.windows, SumOf(s.log), id);
    JustAnnounced(entity, taken);
    var ran := AfterScript(callback.body, taken);
    var left := ran.(windows := ran.windows.Leave());
    assert AfterHeld(id, callback, s) == AfterClosing(id, callback, left);
    assert AfterClosing(id, callback, left) == Closing(id, callback, left);
  }

  /**
   * If a window's update creates an entity and closes the window, the observers of that entity do
   * not find the window when they are to run in it.
   */
  lemma ClosedWindowIsMissed(behaviour: seq<seq<Callback>>, id: WindowId, entity: EntityId, s: State)
    requires Valid(behaviour, s) && Quiet(s) && s.windows.Free(id)
    requires |s.handlers| > 1 && s.handlers[0] == [] && s.handlers[1] != []
    ensures id in SumOf(AfterAction(Parting(id, entity), s).log).missed
  {
    var entry := Parting(id, entity);
    var step := Started(entry, [], Holds(entry, s));
    HoldsTruly(behaviour, entry, s);
    NoteValid(behaviour, s, step);
    BeginValid(behaviour, s.Note(step));
    PartingHeld(behaviour, id, entity, s.Note(step).Begin());
    EntryMisses(behaviour, entry, id, s);
  }

  /** Opening a window whose root view is built by this script, with nothing else to run. */
  lemma {:induction false} PlainOpening(build: seq<Action>, removes: bool, s: State)
    ensures var id := s.windows.next;
            var reserved := s.(windows := s.windows.Reserve());
            var built := AfterScript(build, reserved.(windows := reserved.windows.(stack := s.windows.stack + [id])));
            var exited := built.(windows := built.windows.(stack := Front(built.windows.stack)));
            AfterOpening([], Succeeds(build, [], removes), s) == Established(Window(id, removes), exited.Push(Defer))
  {
    var reserved := s.(windows := s.windows.Reserve());
    assert AfterScript([], reserved) == reserved;
    var built := AfterScript(build, reserved.(windows := reserved.windows.(stack := s.windows.stack + [s.windows.next])));
    var exited := built.(windows := built.windows.(stack := Front(built.windows.stack)));
    assert AfterScript([], exited.Push(Defer)) == exited.Push(Defer);
  }

  /** Opening a window that creates an entity and asks to close at once. */
  ghost function Regretting(entity: EntityId): Action {
    OpenWindow([], Succeeds([CreateEntity(entity, [])], [], true))
  }

  lemma {:induction false} RegrettingOpened(entity: EntityId, s: State)
    requires s.updates > 0
    ensures var r := AfterInner(Regretting(entity), s);
            && r.queue.effects == s.queue.effects + [EntityCreated(entity, Some(s.windows.next)), Defer]
            && r.handlers == s.handlers && r.dropped == s.dropped
            && r.windows.Slot(s.windows.next) == Some(Window(s.windows.next, true))
  {
    var id, reserved := s.windows.next, s.(windows := s.windows.Reserve());
    PlainOpening([CreateEntity(entity, [])], true, s);
    JustAnnounced(entity, reserved.(windows := reserved.windows.(stack := s.windows.stack + [id])));
  }

  /**
   * If a window is asked to close while it is opened, the first observer of an entity created meanwhile
   * closes it without asking, and the next one does not find it.
   */
  lemma RegrettedWindowIsMissed(behaviour: seq<seq<Callback>>, entity: EntityId, s: State)
    requires Valid(behaviour, s) && Quiet(s) && s.handlers != [] && |s.handlers[0]| > 1
    ensures s.windows.next in SumOf(AfterAction(Regretting(entity), s).log).missed
  {
    var entry, id := Regretting(entity), s.windows.next;
    var begun := s.Note(Started(entry, [], Holds(entry, s))).Begin();
    RegrettingOpened(entity, begun);
    NoMissMeans(s.handlers[0], id, Some(Window(id, true)));
    EntryMisses(behaviour, entry, id, s);
  }

  /** Opening a window that does nothing else, with nobody to answer the one effect of that. */
  lemma OpenedAlone(behaviour: seq<seq<Callback>>, s: State)
    requires Valid(behaviour, s) && Quiet(s) && s.handlers != [] && s.handlers[0] == []
    ensures var r := AfterAction(OpenWindow([], Succeeds([], [], false)), s);
            Valid(behaviour, r) && Quiet(r) && r.windows.Free(s.windows.next) && r.handlers == s.handlers[1..]
  {
    EntryFlushes(behaviour, OpenWindow([], Succeeds([], [], false)), s);
    OpenedAndFlushed(s);
  }

  lemma OpenedAndFlushed(s: State)
    requires Quiet(s) && s.handlers != [] && s.handlers[0] == []
    ensures var r := AfterAction(OpenWindow([], Succeeds([], [], false)), s);
            r.windows.Free(s.windows.next) && r.handlers == s.handlers[1..]
  {
    var entry := OpenWindow([], Succeeds([], [], false));
    var noted := s.Note(Started(entry, [], Holds(entry, s)));
    OpenRan(noted.Begin());
    StartedIsFinished(entry, noted);
    var ran := AfterInner(entry, noted.Begin());
    var flushing := ran.(flushing := true).Note(Flushing);
    DeferFlushed(flushing);
    assert AfterFinish(ran) == AfterFlush(flushing).(flushing := false).End();
  }

  lemma {:induction false} OpenRan(s: State)
    ensures var r := AfterInner(OpenWindow([], Succeeds([], [], false)), s);
            && r.queue.effects == s.queue.effects + [Defer] && r.handlers == s.handlers && r.dropped == s.dropped
            && r.windows.Free(s.windows.next)
  {
    PlainOpening([], false, s);
    var reserved := s.(windows := s.windows.Reserve());
    var entered := reserved.(windows := reserved.windows.(stack := s.windows.stack + [s.windows.next]));
    assert AfterScript([], entered) == entered;
  }

  lemma DeferFlushed(s: State)
    requires s.queue.effects == [Defer] && s.dropped == [] && s.handlers != [] && s.handlers[0] == []
    ensures AfterFlush(s).handlers == s.handlers[1..] && AfterFlush(s).windows == s.windows
  {
    var delivering := Delivering(s);
    assert AfterRelease(s) == s;
    assert AfterDeliver(s) == delivering;
    assert AfterRelease(delivering) == delivering;
    assert AfterFlush(delivering) == delivering;
  }

  lemma TwoEntries(first: Action, second: Action, s: State)
    ensures AfterEntries([first, second], s) == AfterAction(second, AfterAction(first, s))
  {
    assert [first, second][..1] == [first];
    OneEntry(first, s);
  }

  lemma OneEntry(entry: Action, s: State)
    ensures AfterEntries([entry], s) == AfterAction(entry, s)
  {
    assert [entry][..0] == [];
    assert AfterEntries([], s) == s;
  }

  /** Such runs exist: open a window, then part with it, with an observer for the new entity only. */
  lemma MissHappens(observer: Callback, entity: EntityId)
    ensures var run := [OpenWindow([], Succeeds([], [], false)), Parting(0, entity)];
            0 in SumOf(AfterEntries(run, Initial([[], [], [observer]])).log).missed
  {
    var behaviour := [[], [], [observer]];
    var start := Initial(behaviour);
    InitialValid(behaviour);
    OpenedAlone(behaviour, start);
    var open := OpenWindow([], Succeeds([], [], false));
    ClosedWindowIsMissed(behaviour, 0, entity, AfterAction(open, start));
    TwoEntries(open, Parting(0, entity), start);
  }

  /** Or open a window that asks to close at once, with two observers that ask for nothing. */
  lemma MissHappensUnasked(entity: EntityId)
    ensures var observer := Callback([], false);
            0 in SumOf(AfterEntries([Regretting(entity)], Initial([[observer, observer]])).log).missed
  {
    var behaviour := [[Callback([], false), Callback([], false)]];
    InitialValid(behaviour);
    RegrettedWindowIsMissed(behaviour, entity, Initial(behaviour));
    OneEntry(Regretting(entity), Initial(behaviour));
  }
}
