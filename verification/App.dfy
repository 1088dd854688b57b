/** The application context, updated in place: what its methods do is what the functions on its state say. */
module Apps {
  import opened Options
  import opened AppRuns
  import AppCounts
  import AppLaws

  class App {
    // The effect queue.
    var pendingEffects: seq<Effect>
    var pendingNotifications: set<EntityId>
    var pendingGlobalNotifications: set<GlobalType>
    var pendingUpdates: nat
    var flushingEffects: bool

    // The index behind `notify`.
    var trackedEntities: map<WindowId, set<EntityId>>
    var windowInvalidatorsByEntity: map<EntityId, set<WindowId>>
    var currentWindowByEntity: map<EntityId, WindowId>
    var dirtyViews: map<WindowId, set<EntityId>>
    var drawing: set<WindowId>
    var refreshing: set<WindowId>

    // Entities whose last handle is gone, and those already released.
    var droppedEntities: seq<EntityId>
    var releasedEntities: set<EntityId>

    // Windows; a slot is empty while its window is out.
    var windows: map<WindowId, Option<Window>>
    var windowHandles: set<WindowId>
    var windowUpdateStack: seq<WindowId>
    var nextWindow: WindowId

    /** What the observers and listeners of the effects still to be delivered will do. */
    var handlers: seq<seq<Callback>>

    /** Windows taken out of their slots by the updates and opens now running, innermost last. */
    ghost var leases: seq<WindowId>
    /** What happened so far. */
    ghost var log: seq<Step>

    ghost function QueueNow(): Queue
      reads this`pendingEffects, this`pendingNotifications, this`pendingGlobalNotifications
    {
      Queue(pendingEffects, pendingNotifications, pendingGlobalNotifications)
    }

    ghost function IndexNow(): Index
      reads this`trackedEntities, this`windowInvalidatorsByEntity, this`currentWindowByEntity
    {
      Index(trackedEntities, windowInvalidatorsByEntity, currentWindowByEntity)
    }

    ghost function WindowsNow(): Windows
      reads this`windows, this`windowHandles, this`windowUpdateStack, this`nextWindow, this`leases
    {
      Windows(windows, windowHandles, windowUpdateStack, nextWindow, leases)
    }

    ghost function Now(): State
      reads this
    {
      State(QueueNow(), IndexNow(), dirtyViews, drawing, refreshing, droppedEntities, releasedEntities, WindowsNow(),
            pendingUpdates, flushingEffects, handlers, log)
    }

    constructor (behaviour: seq<seq<Callback>>)
      ensures Now() == Initial(behaviour)
    {
      pendingEffects, pendingNotifications, pendingGlobalNotifications := [], {}, {};
      pendingUpdates, flushingEffects := 0, false;
      trackedEntities, windowInvalidatorsByEntity, currentWindowByEntity := map[], map[], map[];
      dirtyViews, drawing, refreshing := map[], {}, {};
      droppedEntities, releasedEntities := [], {};
      windows, windowHandles, windowUpdateStack, nextWindow := map[], {}, [], 0;
      handlers := behaviour;
      leases, log := [], [];
    }

    // ---------- Effects ----------

    /** A notification that is already pending is dropped, everything else is queued. */
    method PushEffect(effect: Effect)
      modifies this`pendingEffects, this`pendingNotifications, this`pendingGlobalNotifications, this`log
      ensures Now() == old(Now()).Push(effect)
    {
      match effect {
        case Notify(emitter) =>
          if emitter in pendingNotifications {
            return;
          }
          pendingNotifications := pendingNotifications + {emitter};
        case NotifyGlobalObservers(globalType) =>
          if globalType in pendingGlobalNotifications {
            return;
          }
          pendingGlobalNotifications := pendingGlobalNotifications + {globalType};
        case _ =>
      }
      pendingEffects := pendingEffects + [effect];
      log := log + [Queued(effect)];
    }

    /** Takes the front effect; from here on its emitter may be queued again. */
    method PopEffect() returns (effect: Effect)
      requires pendingEffects != []
      modifies this`pendingEffects, this`pendingNotifications, this`pendingGlobalNotifications
      ensures effect == old(pendingEffects)[0] && Now() == old(Now()).(queue := old(QueueNow()).Pop())
    {
      effect := pendingEffects[0];
      pendingEffects := pendingEffects[1..];
      match effect {
        case Notify(emitter) => pendingNotifications := pendingNotifications - {emitter};
        case NotifyGlobalObservers(globalType) =>
          pendingGlobalNotifications := pendingGlobalNotifications - {globalType};
        case _ =>
      }
    }

    // ---------- The index behind `notify` ----------

    /** Replaces what `window` is known to show by `entities`. */
    method RecordEntitiesAccessed(window: WindowId, entities: set<EntityId>)
      modifies this`trackedEntities, this`windowInvalidatorsByEntity, this`currentWindowByEntity
      ensures Now() == old(Now()).(index := old(IndexNow()).Record(window, entities))
    {
      RecordedInSteps(IndexNow(), window, entities);
      Unlist(window);
      AddToIndex(window, entities);
      SetTracked(window, entities);
    }

    /** The window leaves the entries of all entities it is known to show. */
    method Unlist(window: WindowId)
      modifies this`windowInvalidatorsByEntity
      ensures IndexNow() == old(IndexNow()).(windows := Drop(old(windowInvalidatorsByEntity), window, old(IndexNow()).Shown(window)))
    {
      var previous := if window in trackedEntities then trackedEntities[window] else {};
      RemoveFromIndex(window, previous);
    }

    method SetTracked(window: WindowId, entities: set<EntityId>)
      modifies this`trackedEntities
      ensures IndexNow() == old(IndexNow()).(tracked := old(trackedEntities)[window := entities])
    {
      trackedEntities := trackedEntities[window := entities];
    }

    /** Adds `window` to the index entries of `entities` and makes it their current window. */
    method AddToIndex(window: WindowId, entities: set<EntityId>)
      modifies this`windowInvalidatorsByEntity, this`currentWindowByEntity
      ensures IndexNow() == old(IndexNow()).(windows := Join(old(windowInvalidatorsByEntity), window, entities),
                                             current := Current(old(currentWindowByEntity), window, entities))
    {
      var rest := entities;
      NobodyJoined(windowInvalidatorsByEntity, currentWindowByEntity, window);
      while rest != {}
        invariant rest <= entities
        invariant windowInvalidatorsByEntity == Join(old(windowInvalidatorsByEntity), window, entities - rest)
        invariant currentWindowByEntity == Current(old(currentWindowByEntity), window, entities - rest)
      {
        var entity :| entity in rest;
        AddEntry(old(windowInvalidatorsByEntity), old(currentWindowByEntity), window, entities - rest, entity);
        assert entities - (rest - {entity}) == entities - rest + {entity};
        rest := rest - {entity};
      }
      assert entities - rest == entities;
    }

    method AddEntry(ghost windows: map<EntityId, set<WindowId>>, ghost current: map<EntityId, WindowId>,
                    window: WindowId, ghost entities: set<EntityId>, entity: EntityId)
      requires windowInvalidatorsByEntity == Join(windows, window, entities)
      requires currentWindowByEntity == Current(current, window, entities)
      modifies this`windowInvalidatorsByEntity, this`currentWindowByEntity
      ensures windowInvalidatorsByEntity == Join(windows, window, entities + {entity})
      ensures currentWindowByEntity == Current(current, window, entities + {entity})
    {
      JoinOne(windows, window, entities, entity);
      CurrentOne(current, window, entities, entity);
      var listed := if entity in windowInvalidatorsByEntity then windowInvalidatorsByEntity[entity] else {};
      windowInvalidatorsByEntity := windowInvalidatorsByEntity[entity := listed + {window}];
      currentWindowByEntity := currentWindowByEntity[entity := window];
    }

    /** Removes `window` from the index entries of `entities`. */
    method RemoveFromIndex(window: WindowId, entities: set<EntityId>)
      modifies this`windowInvalidatorsByEntity
      ensures IndexNow() == old(IndexNow()).(windows := Drop(old(windowInvalidatorsByEntity), window, entities))
    {
      var rest := entities;
      assert windowInvalidatorsByEntity == Drop(windowInvalidatorsByEntity, window, {});
      while rest != {}
        invariant rest <= entities
        invariant windowInvalidatorsByEntity == Drop(old(windowInvalidatorsByEntity), window, entities - rest)
      {
        var entity :| entity in rest;
        DropOne(old(windowInvalidatorsByEntity), window, entities - rest, entity);
        assert entities - (rest - {entity}) == entities - rest + {entity};
        if entity in windowInvalidatorsByEntity {
          windowInvalidatorsByEntity :=
            windowInvalidatorsByEntity[entity := windowInvalidatorsByEntity[entity] - {window}];
        }
        rest := rest - {entity};
      }
      assert entities - rest == entities;
    }

    /** A closed window disappears from both sides of the index, and from the current windows of the
        entities it last showed. */
    method ForgetWindow(window: WindowId)
      modifies this`trackedEntities, this`windowInvalidatorsByEntity, this`currentWindowByEntity
      ensures Now() == old(Now()).(index := old(IndexNow()).ForgetWindow(window))
    {
      if window in trackedEntities {
        var tracked := trackedEntities[window];
        trackedEntities := trackedEntities - {window};
        RemoveFromIndex(window, tracked);
        ForgetCurrent(window, tracked);
      } else {
        NothingShown(IndexNow(), window);
      }
    }

    method ForgetCurrent(window: WindowId, tracked: set<EntityId>)
      modifies this`currentWindowByEntity
      ensures IndexNow() == old(IndexNow()).(current := Uncurrent(old(currentWindowByEntity), window, tracked))
    {
      var rest := tracked;
      assert Uncurrent(currentWindowByEntity, window, {}) == currentWindowByEntity;
      while rest != {}
        invariant rest <= tracked
        invariant currentWindowByEntity == Uncurrent(old(currentWindowByEntity), window, tracked - rest)
      {
        var entity :| entity in rest;
        UncurrentOne(old(currentWindowByEntity), window, tracked - rest, entity);
        assert tracked - (rest - {entity}) == tracked - rest + {entity};
        if entity in currentWindowByEntity && currentWindowByEntity[entity] == window {
          currentWindowByEntity := currentWindowByEntity - {entity};
        }
        rest := rest - {entity};
      }
      assert tracked - rest == tracked;
    }

    /** A released entity loses its index entry and its current window. */
    method ForgetEntity(entity: EntityId)
      modifies this`windowInvalidatorsByEntity, this`currentWindowByEntity
      ensures Now() == old(Now()).(index := old(IndexNow()).ForgetEntity(entity))
    {
      windowInvalidatorsByEntity := windowInvalidatorsByEntity - {entity};
      currentWindowByEntity := currentWindowByEntity - {entity};
    }

    /** Marks the view dirty; outside the window's own drawing its observers are notified too. */
    method InvalidateView(window: WindowId, entity: EntityId) returns (invalidated: bool)
      modifies this`dirtyViews, this`pendingEffects, this`pendingNotifications, this`pendingGlobalNotifications, this`log
      ensures invalidated <==> window !in drawing
      ensures Now() == Invalidated(old(Now()), {window}, entity)
    {
      var views := if window in dirtyViews then dirtyViews[window] else {};
      DirtiedOne(dirtyViews, window, entity);
      dirtyViews := dirtyViews[window := views + {entity}];
      assert window !in drawing <==> {window} - drawing == {window};
      if window !in drawing {
        PushEffect(Notify(entity));
      }
      return window !in drawing;
    }

    /** The windows showing the entity are invalidated, and only those; if none does, its observers
        are notified directly. */
    method NotifyEntity(entity: EntityId)
      modifies this`windowInvalidatorsByEntity, this`dirtyViews, this`pendingEffects, this`pendingNotifications,
               this`pendingGlobalNotifications, this`log
      ensures Now() == AfterNotify(entity, old(Now()))
    {
      var listed := if entity in windowInvalidatorsByEntity then windowInvalidatorsByEntity[entity] else {};
      windowInvalidatorsByEntity := windowInvalidatorsByEntity[entity := {}];
      var live := set w | w in listed && w in trackedEntities && entity in trackedEntities[w];
      assert live == old(IndexNow()).Live(entity);
      NotifyWindows(live, entity);
      windowInvalidatorsByEntity := windowInvalidatorsByEntity[entity := listed];
      assert IndexNow() == old(IndexNow()).(windows := old(IndexNow()).windows[entity := listed]);
    }

    method NotifyWindows(live: set<WindowId>, entity: EntityId)
      modifies this`dirtyViews, this`pendingEffects, this`pendingNotifications, this`pendingGlobalNotifications, this`log
      ensures Now() == var told := old(Now()).(dirty := Dirtied(old(dirtyViews), live, entity));
                       if live == {} || live - drawing != {} then told.Push(Notify(entity)) else told
    {
      NobodyDirtied(dirtyViews, entity);
      if live != {} {
        InvalidateAll(live, entity);
      } else if entity !in pendingNotifications {
        pendingNotifications := pendingNotifications + {entity};
        pendingEffects := pendingEffects + [Notify(entity)];
        log := log + [Queued(Notify(entity))];
      }
    }

    method InvalidateAll(live: set<WindowId>, entity: EntityId)
      modifies this`dirtyViews, this`pendingEffects, this`pendingNotifications, this`pendingGlobalNotifications, this`log
      ensures Now() == Invalidated(old(Now()), live, entity)
    {
      var rest := live;
      NobodyDirtied(dirtyViews, entity);
      while rest != {}
        invariant rest <= live
        invariant Now() == Invalidated(old(Now()), live - rest, entity)
      {
        var window :| window in rest;
        InvalidatedOneMore(old(Now()), live - rest, window, entity);
        assert live - (rest - {window}) == live - rest + {window};
        var _ := InvalidateView(window, entity);
        rest := rest - {window};
      }
      assert live - rest == live;
    }

    // ---------- Updates and the flush ----------

    /** What the observers of the next effect, dropped entity or closed window do. */
    method NextHandlers() returns (callbacks: seq<Callback>)
      modifies this`handlers
      ensures callbacks == old(Now()).Answer() && Now() == old(Now()).Answered()
    {
      if handlers == [] {
        callbacks := [];
      } else {
        callbacks, handlers := handlers[0], handlers[1..];
      }
    }

    /** An inner update delivers nothing, the outermost one delivers everything. */
    method RunUpdate(body: seq<Action>)
      modifies this
      ensures Now() == AfterUpdate(body, old(Now()))
      decreases |handlers|, ScriptWeight(body), 8
    {
      StartUpdate();
      RunScript(body);
      FinishUpdate();
    }

    method StartUpdate()
      modifies this`pendingUpdates
      ensures Now() == old(Now()).Begin()
    {
      pendingUpdates := pendingUpdates + 1;
    }

    method FinishUpdate()
      requires pendingUpdates > 0
      modifies this
      ensures Now() == AfterFinish(old(Now()))
      decreases |handlers|, 0, 7
    {
      if !flushingEffects && pendingUpdates == 1 {
        BeginFlush();
        FlushEffects();
        flushingEffects := false;
      }
      EndUpdate();
    }

    method BeginFlush()
      modifies this`flushingEffects, this`log
      ensures Now() == old(Now()).(flushing := true).Note(Flushing)
    {
      flushingEffects := true;
      log := log + [Flushing];
    }

    method EndUpdate()
      requires pendingUpdates > 0
      modifies this`pendingUpdates
      ensures Now() == old(Now()).End()
    {
      pendingUpdates := pendingUpdates - 1;
    }

    /** Delivers effects until none is left, including those that observers queue meanwhile. */
    method FlushEffects()
      modifies this
      ensures Now() == AfterFlush(old(Now()))
      decreases |handlers|, 0, 4
    {
      var done := false;
      while !done
        invariant |handlers| <= old(|handlers|)
        invariant if done then Now() == AfterFlush(old(Now())) else AfterFlush(Now()) == AfterFlush(old(Now()))
        decreases !done, |handlers|, |pendingEffects|
      {
        done := FlushStep();
      }
    }

    /** One round: dropped entities are released, then the front effect is delivered, if there is one. */
    method FlushStep() returns (done: bool)
      modifies this
      ensures if done then Now() == AfterFlush(old(Now())) else AfterFlush(Now()) == AfterFlush(old(Now()))
      ensures |handlers| <= old(|handlers|)
      ensures !done ==> |handlers| < old(|handlers|) || |pendingEffects| < old(|pendingEffects|)
      decreases |handlers|, 0, 3
    {
      ReleaseDroppedEntities();
      done := pendingEffects == [];
      if !done {
        DeliverEffect();
      }
    }

    /** Delivers the front effect to its observers. */
    method DeliverEffect()
      requires pendingEffects != []
      modifies this
      ensures Now() == AfterDeliver(old(Now()))
      decreases |handlers|, 0, 1
    {
      if pendingEffects[0].RefreshWindows? {
        ApplyRefresh();
        return;
      }
      var effect, callbacks := TakeEffect();
      if effect.EntityCreated? && effect.window.Some? {
        RunCallbacksInWindow(callbacks, effect.window.value);
      } else {
        RunCallbacks(callbacks);
      }
    }

    /** Every window in its slot is to draw everything anew. */
    method ApplyRefresh()
      requires pendingEffects != [] && pendingEffects[0].RefreshWindows?
      modifies this
      ensures Now() == Refreshing(old(Now()))
    {
      var effect := PopEffect();
      MarkRefreshing();
      Note(Delivered(effect, [], None));
    }

    method MarkRefreshing()
      modifies this`refreshing
      ensures Now() == old(Now()).(refreshing := old(refreshing) + set w | w in windows && windows[w].Some?)
    {
      var rest := windows.Keys;
      while rest != {}
        invariant rest <= windows.Keys
        invariant refreshing == old(refreshing) + set w | w in windows.Keys - rest && windows[w].Some?
      {
        var w :| w in rest;
        if windows[w].Some? {
          refreshing := refreshing + {w};
        }
        rest := rest - {w};
      }
    }

    method TakeEffect() returns (effect: Effect, callbacks: seq<Callback>)
      requires pendingEffects != []
      modifies this
      ensures effect == old(pendingEffects)[0] && callbacks == old(Now()).Answer()
      ensures Now() == Delivering(old(Now()))
    {
      effect := PopEffect();
      SeedCurrentWindow(effect);
      callbacks := NextHandlers();
      Note(Delivered(effect, callbacks, Found(effect, WindowsNow())));
    }

    /** A new entity's current window is the one it was created in, until it is shown. */
    method SeedCurrentWindow(effect: Effect)
      modifies this`currentWindowByEntity
      ensures Now() == old(Now()).(index := Seeded(effect, old(IndexNow())))
    {
      if effect.EntityCreated? && effect.window.Some? {
        currentWindowByEntity := currentWindowByEntity[effect.entity := effect.window.value];
      }
    }

    ghost method Note(step: Step)
      modifies this`log
      ensures Now() == old(Now()).Note(step)
    {
      log := log + [step];
    }

    method RunCallbacks(callbacks: seq<Callback>)
      modifies this
      ensures Now() == AfterCallbacks(callbacks, old(Now()))
      decreases |handlers|, CallbacksWeight(callbacks), 0
    {
      if callbacks != [] {
        RunScript(callbacks[0].body);
        RunCallbacks(callbacks[1..]);
      }
    }

    /** Runs the observers of a new entity in its window; the `expect` after each fails if its window is gone. */
    method RunCallbacksInWindow(callbacks: seq<Callback>, window: WindowId)
      modifies this
      ensures Now() == AfterCallbacksInWindow(callbacks, window, old(Now()))
      decreases |handlers|, CallbacksWeight(callbacks), 0
    {
      if callbacks != [] {
        var ran := UpdateWindowErased(window, callbacks[0]);
        if !ran {
          log := log + [Missed(window)];
        }
        RunCallbacksInWindow(callbacks[1..], window);
      }
    }

    /** Releases entities until none is waiting, including those dropped by release callbacks. */
    method ReleaseDroppedEntities()
      modifies this
      ensures Now() == AfterRelease(old(Now()))
      decreases |handlers|, 0, 2
    {
      while droppedEntities != []
        invariant |handlers| <= old(|handlers|)
        invariant AfterRelease(Now()) == AfterRelease(old(Now()))
        decreases |handlers|, |droppedEntities|
      {
        ReleaseFirst();
      }
    }

    method ReleaseFirst()
      requires droppedEntities != []
      modifies this
      ensures Now() == AfterReleaseFirst(old(Now()))
      decreases |handlers|, 0, 1
    {
      var callbacks := TakeDropped();
      RunCallbacks(callbacks);
    }

    method TakeDropped() returns (callbacks: seq<Callback>)
      requires droppedEntities != []
      modifies this
      ensures callbacks == old(Now()).Answer() && Now() == Releasing(old(Now()))
    {
      var entity := droppedEntities[0];
      MarkReleased();
      ForgetEntity(entity);
      callbacks := NextHandlers();
      Note(Released(entity, callbacks));
    }

    method MarkReleased()
      requires droppedEntities != []
      modifies this`droppedEntities, this`releasedEntities
      ensures Now() == old(Now()).(dropped := old(droppedEntities)[1..], released := old(releasedEntities) + {old(droppedEntities)[0]})
    {
      releasedEntities := releasedEntities + {droppedEntities[0]};
      droppedEntities := droppedEntities[1..];
    }

    // ---------- User code ----------

    method RunScript(script: seq<Action>)
      modifies this
      ensures Now() == AfterScript(script, old(Now()))
      decreases |handlers|, ScriptWeight(script), 0
    {
      if script != [] {
        RunAction(script[0]);
        RunScript(script[1..]);
      }
    }

    method RunAction(action: Action)
      modifies this
      ensures Now() == AfterAction(action, old(Now()))
      decreases |handlers|, Weight(action), 10
    {
      log := log + [Started(action, windowUpdateStack, Holds(action, Now()))];
      Perform(action);
    }

    method Perform(action: Action)
      modifies this
      ensures Now() == AfterStarted(action, old(Now()))
      decreases |handlers|, Weight(action), 9
    {
      if IsSimple(action) {
        RunSimpleAction(action);
      } else {
        match action
        case CreateEntity(created, construct) => RunCreateEntity(created, construct);
        case Update(body) => RunUpdate(body);
        case UpdateWindow(id, callback) => var _ := UpdateWindowErased(id, callback);
        case OpenWindow(create, opening) => var _ := RunOpenWindow(create, opening);
      }
    }

    method RunSimpleAction(action: Action)
      requires IsSimple(action)
      modifies this
      ensures Now() == AfterSimple(action, old(Now()))
    {
      match action
      case EmitEvent(source) => PushEffect(Emit(source));
      case RefreshAll => PushEffect(RefreshWindows);
      case DeferCall => PushEffect(Defer);
      case SetGlobal(globalType) => PushEffect(NotifyGlobalObservers(globalType));
      case NotifyEntity(entity) => NotifyEntity(entity);
      case DropEntity(dropped) =>
        if dropped !in releasedEntities && dropped !in droppedEntities {
          droppedEntities := droppedEntities + [dropped];
        }
      case RecordAccess(window, entities) => RecordEntitiesAccessed(window, entities);
      case SetDrawing(window, isDrawing) =>
        drawing := if isDrawing then drawing + {window} else drawing - {window};
    }

    /** Builds an entity inside an update and announces it with the window being updated, if any. */
    method RunCreateEntity(created: EntityId, construct: seq<Action>)
      modifies this
      ensures Now() == AfterCreate(created, construct, old(Now()))
      decreases |handlers|, ScriptWeight(construct), 8
    {
      StartUpdate();
      RunScript(construct);
      PushEffect(EntityCreated(created, Top(windowUpdateStack)));
      FinishUpdate();
    }

    // ---------- Windows ----------

    /** Takes the window out of its slot, runs the callback, and puts it back or closes it.  That the slot
        is gone when the window is to go back cannot happen in a run (`AppLaws.ReturnOk`). */
    method UpdateWindowErased(id: WindowId, callback: Callback) returns (ran: bool)
      modifies this
      ensures Now() == AfterUpdateWindow(id, callback, old(Now()))
      ensures ran <==> old(WindowsNow()).Free(id)
      decreases |handlers|, ScriptWeight(callback.body), 8
    {
      StartUpdate();
      ran := id in windows && windows[id].Some?;
      if ran {
        HoldAndRun(id, callback);
      }
      FinishUpdate();
    }

    method HoldAndRun(id: WindowId, callback: Callback)
      requires id in windows && windows[id].Some?
      modifies this
      ensures Now() == AfterHeld(id, callback, old(Now()))
      decreases |handlers|, ScriptWeight(callback.body), 7
    {
      var window := TakeWindow(id);
      RunScript(callback.body);
      LeaveWindow();
      if Closes(window, callback) {
        CloseWindow(id, callback);
      } else {
        PutBack(id, window);
      }
    }

    method TakeWindow(id: WindowId) returns (window: Window)
      requires id in windows && windows[id].Some?
      modifies this`windows, this`windowUpdateStack, this`leases
      ensures window == old(windows)[id].value && Now() == old(Now()).(windows := old(WindowsNow()).Take(id))
    {
      window := windows[id].value;
      windows := windows[id := None];
      windowUpdateStack, leases := windowUpdateStack + [window.handle], leases + [id];
    }

    method LeaveWindow()
      modifies this`windowUpdateStack, this`leases
      ensures Now() == old(Now()).(windows := old(WindowsNow()).Leave())
    {
      windowUpdateStack, leases := Front(windowUpdateStack), Front(leases);
    }

    method PutBack(id: WindowId, window: Window)
      modifies this`windows
      ensures Now() == old(Now()).(windows := old(WindowsNow()).Fill(id, window))
    {
      if id in windows {
        windows := windows[id := Some(window)];
      }
    }

    /** The slot is gone and the index forgets the window; then the observers of closed windows run. */
    method CloseWindow(id: WindowId, ghost asked: Callback)
      modifies this
      ensures Now() == AfterClosing(id, asked, old(Now()))
      decreases |handlers|, 0, 6
    {
      var callbacks := RemoveWindow(id, asked);
      RunCallbacks(callbacks);
    }

    method RemoveWindow(id: WindowId, ghost asked: Callback) returns (callbacks: seq<Callback>)
      modifies this
      ensures callbacks == old(Now()).Answer() && Now() == Closing(id, asked, old(Now()))
    {
      CloseSlot(id);
      ForgetWindow(id);
      callbacks := NextHandlers();
      Note(Closed(id, asked, callbacks, windowUpdateStack));
    }

    method CloseSlot(id: WindowId)
      modifies this`windows, this`windowHandles
      ensures Now() == old(Now()).(windows := old(WindowsNow()).Close(id))
    {
      windowHandles := windowHandles - {id};
      windows := windows - {id};
    }

    /** Opens a window: its slot exists, empty, while the window is built and drawn for the first time. */
    method RunOpenWindow(create: seq<Action>, opening: Opening) returns (result: Option<WindowId>)
      modifies this
      ensures Now() == AfterOpen(create, opening, old(Now()))
      ensures result == if opening.Succeeds? then Some(old(nextWindow)) else None
      decreases |handlers|, ScriptWeight(create) + OpeningWeight(opening), 9
    {
      StartUpdate();
      result := ReserveAndOpen(create, opening);
      FinishUpdate();
    }

    method ReserveAndOpen(create: seq<Action>, opening: Opening) returns (result: Option<WindowId>)
      modifies this
      ensures Now() == AfterOpening(create, opening, old(Now()))
      ensures result == if opening.Succeeds? then Some(old(nextWindow)) else None
      decreases |handlers|, ScriptWeight(create) + OpeningWeight(opening), 8
    {
      var id := ReserveSlot();
      RunScript(create);
      match opening {
        case Succeeds(build, draw, removes) =>
          BuildAndDraw(id, build, draw);
          Establish(Window(id, removes));
          return Some(id);
        case Fails =>
          Abandon(id);
          return None;
      }
    }

    method Establish(window: Window)
      modifies this`windows, this`windowHandles, this`leases, this`log
      ensures Now() == Established(window, old(Now()))
    {
      SettleSlot(window);
      Note(Opened(window));
    }

    /** Puts the window into its slot, asked to close or not. */
    method SettleSlot(window: Window)
      modifies this`windows, this`windowHandles, this`leases
      ensures Now() == old(Now()).(windows := old(WindowsNow()).Settle(window.handle, window.removed))
    {
      windowHandles := windowHandles + {window.handle};
      windows, leases := windows[window.handle := Some(window)], Front(leases);
    }

    method Abandon(id: WindowId)
      modifies this`windows, this`leases
      ensures Now() == old(Now()).(windows := old(WindowsNow()).Abandon(id))
    {
      windows, leases := windows - {id}, Front(leases);
    }

    method ReserveSlot() returns (id: WindowId)
      modifies this`windows, this`leases, this`nextWindow
      ensures id == old(nextWindow) && Now() == old(Now()).(windows := old(WindowsNow()).Reserve())
    {
      id := nextWindow;
      nextWindow := nextWindow + 1;
      windows, leases := windows[id := None], leases + [id];
    }

    method BuildAndDraw(id: WindowId, build: seq<Action>, draw: seq<Action>)
      modifies this
      ensures Now() == AfterBuild(id, build, draw, old(Now()))
      decreases |handlers|, ScriptWeight(build) + ScriptWeight(draw), 7
    {
      Enter(id);
      RunScript(build);
      Exit();
      PushEffect(Defer);
      RunScript(draw);
    }

    method Enter(id: WindowId)
      modifies this`windowUpdateStack
      ensures Now() == old(Now()).(windows := old(WindowsNow()).(stack := old(windowUpdateStack) + [id]))
    {
      windowUpdateStack := windowUpdateStack + [id];
    }

    method Exit()
      modifies this`windowUpdateStack
      ensures Now() == old(Now()).(windows := old(WindowsNow()).(stack := Front(old(windowUpdateStack))))
    {
      windowUpdateStack := Front(windowUpdateStack);
    }
  }

  /** What invalidating these windows' views of the entity comes to, whatever the order. */
  ghost function Invalidated(s: State, windows: set<WindowId>, entity: EntityId): State {
    var dirtied := s.(dirty := Dirtied(s.dirty, windows, entity));
    if windows - s.drawing != {} then dirtied.Push(Notify(entity)) else dirtied
  }

  lemma SameMap<K, V>(a: map<K, V>, b: map<K, V>)
    requires a.Keys == b.Keys && forall k <- a :: a[k] == b[k]
    ensures a == b
  {
  }

  lemma NobodyDirtied(dirty: map<WindowId, set<EntityId>>, entity: EntityId)
    ensures Dirtied(dirty, {}, entity) == dirty
  {
    SameMap(Dirtied(dirty, {}, entity), dirty);
  }

  lemma DirtiedOne(dirty: map<WindowId, set<EntityId>>, window: WindowId, entity: EntityId)
    ensures dirty[window := (if window in dirty then dirty[window] else {}) + {entity}] == Dirtied(dirty, {window}, entity)
  {
    SameMap(dirty[window := (if window in dirty then dirty[window] else {}) + {entity}], Dirtied(dirty, {window}, entity));
  }

  lemma DirtiedOneMore(dirty: map<WindowId, set<EntityId>>, windows: set<WindowId>, window: WindowId, entity: EntityId)
    ensures Dirtied(Dirtied(dirty, windows, entity), {window}, entity) == Dirtied(dirty, windows + {window}, entity)
  {
    var a, b := Dirtied(Dirtied(dirty, windows, entity), {window}, entity), Dirtied(dirty, windows + {window}, entity);
    forall w | w in a ensures a[w] == b[w] {
      assert a[w] == (if w in dirty then dirty[w] else {}) + (if w in windows + {window} then {entity} else {});
    }
    SameMap(a, b);
  }

  lemma InvalidatedOneMore(s: State, windows: set<WindowId>, window: WindowId, entity: EntityId)
    ensures Invalidated(Invalidated(s, windows, entity), {window}, entity) == Invalidated(s, windows + {window}, entity)
  {
    DirtiedOneMore(s.dirty, windows, window, entity);
    assert windows + {window} - s.drawing == windows - s.drawing + ({window} - s.drawing);
  }

  lemma JoinOne(windows: map<EntityId, set<WindowId>>, window: WindowId, entities: set<EntityId>, entity: EntityId)
    ensures var joined := Join(windows, window, entities);
            joined[entity := (if entity in joined then joined[entity] else {}) + {window}] == Join(windows, window, entities + {entity})
  {
    var joined, b := Join(windows, window, entities), Join(windows, window, entities + {entity});
    var a := joined[entity := (if entity in joined then joined[entity] else {}) + {window}];
    forall e | e in a ensures a[e] == b[e] {
      assert a[e] == (if e in windows then windows[e] else {}) + (if e in entities + {entity} then {window} else {});
    }
    SameMap(a, b);
  }

  lemma NobodyJoined(windows: map<EntityId, set<WindowId>>, current: map<EntityId, WindowId>, window: WindowId)
    ensures Join(windows, window, {}) == windows && Current(current, window, {}) == current
  {
  }

  lemma CurrentOne(current: map<EntityId, WindowId>, window: WindowId, entities: set<EntityId>, entity: EntityId)
    ensures Current(current, window, entities)[entity := window] == Current(current, window, entities + {entity})
  {
    SameMap(Current(current, window, entities)[entity := window], Current(current, window, entities + {entity}));
  }

  lemma RecordedInSteps(index: Index, window: WindowId, entities: set<EntityId>)
    ensures var unlisted := index.(windows := Drop(index.windows, window, index.Shown(window)));
            var added := unlisted.(windows := Join(unlisted.windows, window, entities),
                                   current := Current(unlisted.current, window, entities));
            added.(tracked := added.tracked[window := entities]) == index.Record(window, entities)
  {
  }

  lemma NothingShown(index: Index, window: WindowId)
    requires window !in index.tracked
    ensures index.ForgetWindow(window) == index
  {
    assert index.Shown(window) == {};
    SameMap(Drop(index.windows, window, {}), index.windows);
    SameMap(Uncurrent(index.current, window, {}), index.current);
    SameMap(index.tracked - {window}, index.tracked);
  }

  lemma UncurrentOne(current: map<EntityId, WindowId>, window: WindowId, entities: set<EntityId>, entity: EntityId)
    ensures var left := Uncurrent(current, window, entities);
            (if entity in left && left[entity] == window then left - {entity} else left) == Uncurrent(current, window, entities + {entity})
  {
  }

  lemma DropOne(windows: map<EntityId, set<WindowId>>, window: WindowId, entities: set<EntityId>, entity: EntityId)
    ensures var dropped := Drop(windows, window, entities);
            (if entity in dropped then dropped[entity := dropped[entity] - {window}] else dropped) == Drop(windows, window, entities + {entity})
  {
    var dropped, b := Drop(windows, window, entities), Drop(windows, window, entities + {entity});
    var a := if entity in dropped then dropped[entity := dropped[entity] - {window}] else dropped;
    forall e | e in a ensures a[e] == b[e] {
      assert a[e] == windows[e] - (if e in entities + {entity} then {window} else {});
    }
    SameMap(a, b);
  }

  /** The observers that the step must tell are told after it. */
  ghost predicate IsTold(log: seq<Step>, k: nat)
    requires k < |log|
  {
    var told := AppLaws.Tells(AppLaws.SumOf(log[..k]), log[k]);
    told.Some? ==> AppLaws.DeliveredFrom(log, k + 1, told.value)
  }

  /**
   * A run from the start of whatever starts on its own, with any handlers and re-entry. By
   * `AppLaws.EntriesGoWell` nothing is left to do afterwards, and everything owed was done in order; by
   * `AppCounts.EntriesExact` it was done exactly once.
   */
  method RunSession(behaviour: seq<seq<Callback>>, entries: seq<Action>) returns (app: App)
    requires AppLaws.AllEntries(entries)
    ensures fresh(app) && app.Now() == AfterEntries(entries, Initial(behaviour))
    ensures AppLaws.Valid(behaviour, app.Now()) && AppLaws.Quiet(app.Now())
    ensures AppLaws.Met(AppLaws.Entered(entries), [], app.log) && AppLaws.Settled(app.log, 0)
    ensures AppCounts.Done(app.log) == AppCounts.OwedIn(app.log) + AppCounts.Counted(AppLaws.Entered(entries))
    ensures var sum := AppLaws.SumOf(app.log);
            && sum.flushes == |entries| && sum.delivered == sum.accepted && sum.missed == sum.unreached
            && app.windows.Keys == app.windowHandles == sum.filled - sum.closed
            && app.releasedEntities == sum.facts.dropped
    ensures forall k :: 0 <= k < |app.log| ==> IsTold(app.log, k)
    ensures forall w <- app.windows :: app.windows[w] == Some(Window(w, w in AppLaws.SumOf(app.log).flagged))
  {
    app := RunEntries(behaviour, entries);
    AppLaws.EntriesGoWell(behaviour, entries);
    AppCounts.EntriesExact(behaviour, entries);
    forall k | 0 <= k < |app.log| ensures IsTold(app.log, k) {
      AppLaws.EntriesTell(behaviour, entries, k);
    }
    forall w ensures w in app.windows <==> w in AppLaws.SumOf(app.log).filled - AppLaws.SumOf(app.log).closed {
      AppLaws.OpenWindowsAreInSlots(behaviour, app.Now(), w);
    }
    forall w <- app.windows ensures app.windows[w] == Some(Window(w, w in AppLaws.SumOf(app.log).flagged)) {
      AppLaws.InSlot(behaviour, app.Now(), w);
    }
  }

  method RunEntries(behaviour: seq<seq<Callback>>, entries: seq<Action>) returns (app: App)
    requires AppLaws.AllEntries(entries)
    ensures fresh(app) && app.Now() == AfterEntries(entries, Initial(behaviour))
  {
    app := new App(behaviour);
    for i := 0 to |entries|
      invariant fresh(app) && app.Now() == AfterEntries(entries[..i], Initial(behaviour))
    {
      app.RunAction(entries[i]);
      assert entries[..i + 1][..i] == entries[..i];
    }
    assert entries[..|entries|] == entries;
  }
}
