/** What the application context does at run time, as functions on its state. */
module AppRuns {
  // That is the effect queue, the index from entities to the windows that show them, and the windows that
  // are out of their slots while being updated. User code is given by scripts, so callbacks may re-enter
  // every operation.

  import opened Options

  type EntityId = nat
  type GlobalType = nat
  type WindowId = nat

  datatype Effect =
    | Notify(emitter: EntityId)
    | NotifyGlobalObservers(globalType: GlobalType)
    | Emit(source: EntityId)
    | RefreshWindows
    | Defer
    | EntityCreated(entity: EntityId, window: Option<WindowId>)

  /** One step of user code. */
  datatype Action =
    | EmitEvent(source: EntityId)
    | RefreshAll
    | DeferCall
    | SetGlobal(globalType: GlobalType)
    | CreateEntity(created: EntityId, construct: seq<Action>)
    | NotifyEntity(entity: EntityId)
    | DropEntity(dropped: EntityId)
    | RecordAccess(window: WindowId, entities: set<EntityId>)
    | SetDrawing(window: WindowId, drawing: bool)
    | Update(body: seq<Action>)
    | UpdateWindow(id: WindowId, callback: Callback)
    | OpenWindow(create: seq<Action>, opening: Opening)

  /** User code run by the framework; `removes` tells whether it asks for its window to be closed. */
  datatype Callback = Callback(body: seq<Action>, removes: bool)

  /** How a window is opened: the code that builds its root view, then that of its first drawing;
      `removes` tells whether either asks for the window to be closed. */
  datatype Opening = Fails | Succeeds(build: seq<Action>, draw: seq<Action>, removes: bool)

  /** `removed` tells whether the window was asked to close; the next update of it will do that. */
  datatype Window = Window(handle: WindowId, removed: bool)

  /** The actions that run no further user code. */
  predicate IsSimple(action: Action) {
    !action.CreateEntity? && !action.Update? && !action.UpdateWindow? && !action.OpenWindow?
  }

  // ---------- Size of user code, for termination ----------

  function Weight(a: Action): nat {
    match a
    case CreateEntity(_, construct) => 1 + ScriptWeight(construct)
    case Update(body) => 1 + ScriptWeight(body)
    case UpdateWindow(_, callback) => 1 + ScriptWeight(callback.body)
    case OpenWindow(create, opening) => 1 + ScriptWeight(create) + OpeningWeight(opening)
    case _ => 0
  }

  function OpeningWeight(opening: Opening): nat {
    if opening.Succeeds? then ScriptWeight(opening.build) + ScriptWeight(opening.draw) else 0
  }

  function ScriptWeight(script: seq<Action>): nat {
    if script == [] then 0 else 1 + Weight(script[0]) + ScriptWeight(script[1..])
  }

  function CallbacksWeight(callbacks: seq<Callback>): nat {
    if callbacks == [] then 0 else 1 + ScriptWeight(callbacks[0].body) + CallbacksWeight(callbacks[1..])
  }

  // ---------- The log ----------

  /**
   * What happened. A started action is logged with the windows being updated, the innermost last,
   * and the window it takes out of its slot or opens; an occasion for handlers is logged with the
   * callbacks that handle it, and the delivery of a new entity with the window that is found for it.
   */
  datatype Step =
    | Started(action: Action, stack: seq<WindowId>, held: Option<Window>)
    | Queued(queued: Effect)
    | Opened(filled: Window)
    | Closed(closed: WindowId, asked: Callback, callbacks: seq<Callback>, stack: seq<WindowId>)
    | Flushing
    | Released(entity: EntityId, callbacks: seq<Callback>)
    | Delivered(effect: Effect, callbacks: seq<Callback>, found: Option<Window>)
    | Missed(window: WindowId)

  // ---------- State ----------

  /** Effects still to be delivered; the emitters and global types with a notification among them. */
  datatype Queue = Queue(effects: seq<Effect>, notifications: set<EntityId>, globals: set<GlobalType>) {

    /** A notification that is already pending is dropped, everything else is queued. */
    predicate Pending(effect: Effect) {
      match effect
      case Notify(emitter) => emitter in notifications
      case NotifyGlobalObservers(globalType) => globalType in globals
      case _ => false
    }

    function Push(effect: Effect): Queue {
      Queue(effects + [effect],
            if effect.Notify? then notifications + {effect.emitter} else notifications,
            if effect.NotifyGlobalObservers? then globals + {effect.globalType} else globals)
    }

    /** From here on the emitter of the front effect may be queued again. */
    function Pop(): Queue
      requires effects != []
    {
      var effect := effects[0];
      Queue(effects[1..],
            if effect.Notify? then notifications - {effect.emitter} else notifications,
            if effect.NotifyGlobalObservers? then globals - {effect.globalType} else globals)
    }
  }

  /** Which entities each window shows, and the other way round. */
  datatype Index = Index(tracked: map<WindowId, set<EntityId>>, windows: map<EntityId, set<WindowId>>,
                         current: map<EntityId, WindowId>) {

    function Shown(window: WindowId): set<EntityId> {
      if window in tracked then tracked[window] else {}
    }

    function Listed(entity: EntityId): set<WindowId> {
      if entity in windows then windows[entity] else {}
    }

    /** The windows listed for the entity that still show it. */
    function Live(entity: EntityId): set<WindowId> {
      set w | w in Listed(entity) && entity in Shown(w)
    }

    /** Replaces what `window` is known to show by `entities`. */
    function Record(window: WindowId, entities: set<EntityId>): Index {
      Index(tracked[window := entities],
            Join(Drop(windows, window, Shown(window)), window, entities),
            Current(current, window, entities))
    }

    /** A closed window disappears from both sides, and from the current windows of what it showed. */
    function ForgetWindow(window: WindowId): Index {
      Index(tracked - {window},
            Drop(windows, window, Shown(window)),
            Uncurrent(current, window, Shown(window)))
    }

    function ForgetEntity(entity: EntityId): Index {
      Index(tracked, windows - {entity}, current - {entity})
    }
  }

  /** Removes `window` from the entries of `entities`. */
  function Drop(windows: map<EntityId, set<WindowId>>, window: WindowId, entities: set<EntityId>): map<EntityId, set<WindowId>> {
    map e | e in windows :: if e in entities then windows[e] - {window} else windows[e]
  }

  /** Adds `window` to the entries of `entities`. */
  function Join(windows: map<EntityId, set<WindowId>>, window: WindowId, entities: set<EntityId>): map<EntityId, set<WindowId>> {
    map e | e in windows.Keys + entities ::
      if e in entities then (if e in windows then windows[e] else {}) + {window} else windows[e]
  }

  /** Makes `window` the current window of `entities`. */
  function Current(current: map<EntityId, WindowId>, window: WindowId, entities: set<EntityId>): map<EntityId, WindowId> {
    map e | e in current.Keys + entities :: if e in entities then window else current[e]
  }

  /** `window` is no longer the current window of `entities`. */
  function Uncurrent(current: map<EntityId, WindowId>, window: WindowId, entities: set<EntityId>): map<EntityId, WindowId> {
    map e | e in current && !(e in entities && current[e] == window) :: current[e]
  }

  /** Marks the entity's view dirty in each of these windows. */
  function Dirtied(dirty: map<WindowId, set<EntityId>>, live: set<WindowId>, entity: EntityId): map<WindowId, set<EntityId>> {
    map w | w in dirty.Keys + live ::
      if w in live then (if w in dirty then dirty[w] else {}) + {entity} else dirty[w]
  }

  /**
   * The window slots, empty while a window is out, and the windows being updated. `leases` lists
   * the windows held by the updates and opens now running, the innermost last.
   */
  datatype Windows = Windows(slots: map<WindowId, Option<Window>>, handles: set<WindowId>, stack: seq<WindowId>,
                             next: WindowId, leases: seq<WindowId>) {

    /** The window in its slot, if it is there. */
    function Slot(id: WindowId): Option<Window> {
      if id in slots then slots[id] else None
    }

    predicate Free(id: WindowId) {
      Slot(id).Some?
    }

    function Take(id: WindowId): Windows
      requires Free(id)
    {
      this.(slots := slots[id := None], stack := stack + [slots[id].value.handle], leases := leases + [id])
    }

    function Leave(): Windows {
      this.(stack := Front(stack), leases := Front(leases))
    }

    function Fill(id: WindowId, window: Window): Windows {
      this.(slots := if id in slots then slots[id := Some(window)] else slots)
    }

    function Close(id: WindowId): Windows {
      this.(slots := slots - {id}, handles := handles - {id})
    }

    function Reserve(): Windows {
      this.(slots := slots[next := None], next := next + 1, leases := leases + [next])
    }

    function Settle(id: WindowId, removed: bool): Windows {
      this.(slots := slots[id := Some(Window(id, removed))], handles := handles + {id}, leases := Front(leases))
    }

    function Abandon(id: WindowId): Windows {
      this.(slots := slots - {id}, leases := Front(leases))
    }
  }

  /** A window that was found, after an update of it: still there unless it was asked to close. */
  function Left(found: Option<Window>, callback: Callback): Option<Window> {
    if found.Some? && Closes(found.value, callback) then None else found
  }

  /** Who asked does not matter, the callback or whoever had the window before. */
  predicate Closes(window: Window, callback: Callback) {
    callback.removes || window.removed
  }

  function Front<T>(s: seq<T>): seq<T> {
    if s == [] then [] else s[..|s| - 1]
  }

  function Top(stack: seq<WindowId>): Option<WindowId> {
    if stack == [] then None else Some(stack[|stack| - 1])
  }

  function Less(n: nat): nat {
    if n == 0 then 0 else n - 1
  }

  datatype State = State(
    queue: Queue,
    index: Index,
    dirty: map<WindowId, set<EntityId>>,
    drawing: set<WindowId>,
    /** Windows told to draw everything anew. */
    refreshing: set<WindowId>,
    dropped: seq<EntityId>,
    released: set<EntityId>,
    windows: Windows,
    updates: nat,
    flushing: bool,
    /** What the observers of the effects, releases and closings still to come will do. */
    handlers: seq<seq<Callback>>,
    log: seq<Step>) {

    ghost function Note(step: Step): State {
      this.(log := log + [step])
    }

    ghost function Push(effect: Effect): State {
      if queue.Pending(effect) then this else this.(queue := queue.Push(effect)).Note(Queued(effect))
    }

    /** The next occasion's callbacks. */
    ghost function Answer(): seq<Callback> {
      if handlers == [] then [] else handlers[0]
    }

    ghost function Answered(): State {
      this.(handlers := if handlers == [] then [] else handlers[1..])
    }

    ghost function Begin(): State {
      this.(updates := updates + 1)
    }

    ghost function End(): State {
      this.(updates := Less(updates))
    }
  }

  // ---------- Actions that run no user code ----------

  /** Invalidates the live windows; the observers are notified unless all of those are drawing. */
  ghost function AfterNotify(entity: EntityId, s: State): State {
    var live := s.index.Live(entity);
    var told := s.(index := s.index.(windows := s.index.windows[entity := s.index.Listed(entity)]),
                   dirty := Dirtied(s.dirty, live, entity));
    if live == {} || live - s.drawing != {} then told.Push(Notify(entity)) else told
  }

  ghost function AfterDrop(entity: EntityId, s: State): State {
    if entity in s.released || entity in s.dropped then s else s.(dropped := s.dropped + [entity])
  }

  ghost function AfterSimple(action: Action, s: State): State
    requires IsSimple(action)
  {
    match action
    case EmitEvent(source) => s.Push(Emit(source))
    case RefreshAll => s.Push(RefreshWindows)
    case DeferCall => s.Push(Defer)
    case SetGlobal(globalType) => s.Push(NotifyGlobalObservers(globalType))
    case NotifyEntity(entity) => AfterNotify(entity, s)
    case DropEntity(dropped) => AfterDrop(dropped, s)
    case RecordAccess(window, entities) => s.(index := s.index.Record(window, entities))
    case SetDrawing(window, drawing) => s.(drawing := if drawing then s.drawing + {window} else s.drawing - {window})
  }

  // ---------- User code ----------

  /** What every stretch of the run leaves as it found it, and what only ever grows. */
  ghost predicate Balanced(before: State, after: State) {
    && |after.handlers| <= |before.handlers|
    && after.updates == before.updates
    && after.flushing == before.flushing
    && after.windows.stack == before.windows.stack
    && after.windows.leases == before.windows.leases
    && before.windows.next <= after.windows.next
    && before.released <= after.released
    && before.log <= after.log
  }

  /** The window that an action takes out of its slot or opens. */
  ghost function Holds(action: Action, s: State): Option<Window> {
    match action
    case UpdateWindow(id, _) => s.windows.Slot(id)
    case OpenWindow(_, opening) => Some(Window(s.windows.next, opening.Succeeds? && opening.removes))
    case _ => None
  }

  ghost function AfterScript(script: seq<Action>, s: State): (r: State)
    ensures Balanced(s, r)
    decreases |s.handlers|, ScriptWeight(script), 0
  {
    if script == [] then s else AfterScript(script[1..], AfterAction(script[0], s))
  }

  ghost function AfterAction(action: Action, s: State): (r: State)
    ensures Balanced(s, r)
    decreases |s.handlers|, Weight(action), 10
  {
    AfterStarted(action, s.Note(Started(action, s.windows.stack, Holds(action, s))))
  }

  ghost function AfterStarted(action: Action, s: State): (r: State)
    ensures Balanced(s, r)
    decreases |s.handlers|, Weight(action), 9
  {
    if IsSimple(action) then AfterSimple(action, s)
    else
      match action
      case CreateEntity(created, construct) => AfterCreate(created, construct, s)
      case Update(body) => AfterUpdate(body, s)
      case UpdateWindow(id, callback) => AfterUpdateWindow(id, callback, s)
      case OpenWindow(create, opening) => AfterOpen(create, opening, s)
  }

  ghost function AfterUpdate(body: seq<Action>, s: State): (r: State)
    ensures Balanced(s, r)
    decreases |s.handlers|, ScriptWeight(body), 8
  {
    AfterFinish(AfterScript(body, s.Begin()))
  }

  /** Builds an entity inside an update and announces it with the window being updated, if any. */
  ghost function AfterCreate(created: EntityId, construct: seq<Action>, s: State): (r: State)
    ensures Balanced(s, r)
    decreases |s.handlers|, ScriptWeight(construct), 8
  {
    AfterFinish(AfterCreating(created, construct, s.Begin()))
  }

  ghost function AfterCreating(created: EntityId, construct: seq<Action>, s: State): (r: State)
    ensures Balanced(s, r)
    decreases |s.handlers|, ScriptWeight(construct), 7
  {
    var built := AfterScript(construct, s);
    built.Push(EntityCreated(created, Top(built.windows.stack)))
  }

  /** Only the outermost update outside a flush flushes. */
  ghost function AfterFinish(s: State): (r: State)
    ensures Balanced(s.End(), r)
    decreases |s.handlers|, 0, 7
  {
    if !s.flushing && s.updates == 1 then AfterFlush(s.(flushing := true).Note(Flushing)).(flushing := false).End()
    else s.End()
  }

  // ---------- Windows ----------

  /** The callback runs exactly when the window is in its slot. */
  ghost function AfterUpdateWindow(id: WindowId, callback: Callback, s: State): (r: State)
    ensures Balanced(s, r)
    decreases |s.handlers|, ScriptWeight(callback.body), 8
  {
    AfterFinish(if s.windows.Free(id) then AfterHeld(id, callback, s.Begin()) else s.Begin())
  }

  /** Takes the window out of its slot, runs the callback, and puts it back, or closes it if it was asked to
      close by then or before. */
  ghost function AfterHeld(id: WindowId, callback: Callback, s: State): (r: State)
    requires s.windows.Free(id)
    ensures Balanced(s, r)
    decreases |s.handlers|, ScriptWeight(callback.body), 7
  {
    var window := s.windows.slots[id].value;
    var ran := AfterScript(callback.body, s.(windows := s.windows.Take(id)));
    var left := ran.(windows := ran.windows.Leave());
    if Closes(window, callback) then AfterClosing(id, callback, left)
    else left.(windows := left.windows.Fill(id, window))
  }

  /** The index forgets the window, then the observers of closed windows run. */
  ghost function AfterClosing(id: WindowId, asked: Callback, s: State): (r: State)
    ensures Balanced(s, r)
    decreases |s.handlers|, 0, 6
  {
    AfterCallbacks(s.Answer(), Closing(id, asked, s))
  }

  ghost function Closing(id: WindowId, asked: Callback, s: State): (r: State)
    ensures Balanced(s, r)
  {
    s.(windows := s.windows.Close(id), index := s.index.ForgetWindow(id)).Answered()
      .Note(Closed(id, asked, s.Answer(), s.windows.stack))
  }

  /** Opens a window: its slot is there, empty, while the window is built and drawn for the first time. A
      window that was asked to close meanwhile goes into its slot like any other. */
  ghost function AfterOpen(create: seq<Action>, opening: Opening, s: State): (r: State)
    ensures Balanced(s, r)
    decreases |s.handlers|, ScriptWeight(create) + OpeningWeight(opening), 9
  {
    AfterFinish(AfterOpening(create, opening, s.Begin()))
  }

  ghost function AfterOpening(create: seq<Action>, opening: Opening, s: State): (r: State)
    ensures Balanced(s, r)
    decreases |s.handlers|, ScriptWeight(create) + OpeningWeight(opening), 8
  {
    var id := s.windows.next;
    var created := AfterScript(create, s.(windows := s.windows.Reserve()));
    if opening.Succeeds? then Established(Window(id, opening.removes), AfterBuild(id, opening.build, opening.draw, created))
    else created.(windows := created.windows.Abandon(id))
  }

  ghost function Established(window: Window, s: State): State {
    s.(windows := s.windows.Settle(window.handle, window.removed)).Note(Opened(window))
  }

  /** The root view is built with the window being updated; the first draw happens outside that update. */
  ghost function AfterBuild(id: WindowId, build: seq<Action>, draw: seq<Action>, s: State): (r: State)
    ensures Balanced(s, r)
    decreases |s.handlers|, ScriptWeight(build) + ScriptWeight(draw), 7
  {
    var built := AfterScript(build, s.(windows := s.windows.(stack := s.windows.stack + [id])));
    AfterScript(draw, built.(windows := built.windows.(stack := Front(built.windows.stack))).Push(Defer))
  }

  // ---------- The flush ----------

  /** Delivers effects until none is left, including those that observers queue meanwhile. */
  ghost function AfterFlush(s: State): (r: State)
    ensures Balanced(s, r)
    ensures r.dropped == [] && r.queue.effects == []
    decreases |s.handlers|, 0, 3, |s.queue.effects|
  {
    var r := AfterRelease(s);
    if r.queue.effects == [] then r else AfterFlush(AfterDeliver(r))
  }

  ghost function AfterRelease(s: State): (r: State)
    ensures Balanced(s, r) && r.dropped == []
    ensures |r.handlers| < |s.handlers| || r.queue == s.queue
    decreases |s.handlers|, 0, 2, |s.dropped|
  {
    if s.dropped == [] then s else AfterRelease(AfterReleaseFirst(s))
  }

  /** The index forgets the entity, then its release listeners run. */
  ghost function AfterReleaseFirst(s: State): (r: State)
    requires s.dropped != []
    ensures Balanced(s, r)
    ensures |r.handlers| < |s.handlers| || (r.queue == s.queue && r.dropped == s.dropped[1..])
    decreases |s.handlers|, 0, 1
  {
    AfterCallbacks(s.Answer(), Releasing(s))
  }

  ghost function Releasing(s: State): (r: State)
    requires s.dropped != []
    ensures Balanced(s, r)
  {
    var entity := s.dropped[0];
    s.(dropped := s.dropped[1..], index := s.index.ForgetEntity(entity), released := s.released + {entity}).Answered()
      .Note(Released(entity, s.Answer()))
  }

  predicate InWindow(effect: Effect) {
    effect.EntityCreated? && effect.window.Some?
  }

  /** A refresh concerns the windows only. */
  ghost function AfterDeliver(s: State): (r: State)
    requires s.queue.effects != []
    ensures Balanced(s, r)
    ensures |r.handlers| < |s.handlers| || (r.queue == s.queue.Pop() && r.dropped == s.dropped)
    decreases |s.handlers|, 0, 1
  {
    var effect := s.queue.effects[0];
    if effect.RefreshWindows? then Refreshing(s)
    else if InWindow(effect) then AfterCallbacksInWindow(s.Answer(), effect.window.value, Delivering(s))
    else AfterCallbacks(s.Answer(), Delivering(s))
  }

  /** The windows in their slots are to draw everything anew; no user code runs. */
  ghost function Refreshing(s: State): (r: State)
    requires s.queue.effects != []
    ensures Balanced(s, r)
  {
    s.(queue := s.queue.Pop(), refreshing := s.refreshing + set w | w in s.windows.slots && s.windows.slots[w].Some?)
      .Note(Delivered(s.queue.effects[0], [], None))
  }

  /** A new entity's current window is the one it was created in, until it is shown. */
  function Seeded(effect: Effect, index: Index): Index {
    if InWindow(effect) then index.(current := index.current[effect.entity := effect.window.value]) else index
  }

  /** The window in which the observers of a new entity are to run, if it is in its slot. */
  ghost function Found(effect: Effect, windows: Windows): Option<Window> {
    if InWindow(effect) then windows.Slot(effect.window.value) else None
  }

  ghost function Delivering(s: State): (r: State)
    requires s.queue.effects != []
    ensures Balanced(s, r)
  {
    var effect := s.queue.effects[0];
    s.(queue := s.queue.Pop(), index := Seeded(effect, s.index)).Answered()
      .Note(Delivered(effect, s.Answer(), Found(effect, s.windows)))
  }

  ghost function AfterCallbacks(callbacks: seq<Callback>, s: State): (r: State)
    ensures Balanced(s, r)
    decreases |s.handlers|, CallbacksWeight(callbacks), 0
  {
    if callbacks == [] then s else AfterCallbacks(callbacks[1..], AfterScript(callbacks[0].body, s))
  }

  /** Runs the observers of a new entity in its window; each that finds its window gone is a miss. */
  ghost function AfterCallbacksInWindow(callbacks: seq<Callback>, id: WindowId, s: State): (r: State)
    ensures Balanced(s, r)
    decreases |s.handlers|, CallbacksWeight(callbacks), 0
  {
    if callbacks == [] then s
    else
      var updated := AfterUpdateWindow(id, callbacks[0], s);
      AfterCallbacksInWindow(callbacks[1..], id, if s.windows.Free(id) then updated else updated.Note(Missed(id)))
  }

  // ---------- Whole runs ----------

  ghost function Initial(behaviour: seq<seq<Callback>>): State {
    State(Queue([], {}, {}), Index(map[], map[], map[]), map[], {}, {}, [], {}, Windows(map[], {}, [], 0, []), 0, false,
          behaviour, [])
  }

  /** What can start on its own: each of these is an update, and the outermost one flushes. */
  predicate IsEntry(action: Action) {
    !IsSimple(action)
  }

  ghost function AfterEntries(entries: seq<Action>, s: State): State {
    if entries == [] then s else AfterAction(entries[|entries| - 1], AfterEntries(entries[..|entries| - 1], s))
  }
}
