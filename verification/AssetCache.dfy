/** The asset table and its cached loads, under every interleaving. */
module AssetCaches {
  // Fetches, uses by views, evictions, workers that finish and foreground tasks that publish come in any order.
  // A run is a finite tree of steps: a load function that runs inside a fetch may itself fetch, use and remove
  // assets, and comes with the script of what it does.

  import opened Options

  type Key = nat
  type View = nat
  type Output = nat

  /** A started load: the key it was entered under, and how many were entered before it. */
  datatype Load = Load(key: Key, serial: nat)

  datatype LoadState = Loading(views: set<View>) | Loaded(output: Output)

  datatype Script = Script(ops: seq<Op>)

  datatype Op =
    | Fetch(key: Key, loading: Script)
    | Use(key: Key, view: View, loading: Script)
    | Remove(key: Key)
    | Finish(load: Load, output: Output)
    | Publish(load: Load)

  datatype Event =
    | Entered(load: Load)
    | Used(load: Load, view: View)
    | Removed(key: Key)
    | Finished(load: Load, output: Output)
    | Published(load: Load, output: Output)
    | Discarded(load: Load)

  // ---------- What a log says ----------

  ghost function Entries(log: seq<Event>): nat {
    if log == [] then 0
    else Entries(log[..|log| - 1]) + if log[|log| - 1].Entered? then 1 else 0
  }

  /** The load that is in the table under this key. */
  ghost function Resident(log: seq<Event>, key: Key): Option<Load> {
    if log == [] then None
    else
      match log[|log| - 1]
      case Entered(load) => if load.key == key then Some(load) else Resident(log[..|log| - 1], key)
      case Removed(k) => if k == key then None else Resident(log[..|log| - 1], key)
      case _ => Resident(log[..|log| - 1], key)
  }

  ghost predicate Alive(log: seq<Event>, load: Load) {
    Resident(log, load.key) == Some(load)
  }

  /** What the worker of this load came up with. */
  ghost function FinishedWith(log: seq<Event>, load: Load): Option<Output> {
    if log == [] then None
    else if log[|log| - 1].Finished? && log[|log| - 1].load == load then Some(log[|log| - 1].output)
    else FinishedWith(log[..|log| - 1], load)
  }

  /** What this load shows. */
  ghost function Shows(log: seq<Event>, load: Load): Option<Output> {
    if log == [] then None
    else if log[|log| - 1].Published? && log[|log| - 1].load == load then Some(log[|log| - 1].output)
    else Shows(log[..|log| - 1], load)
  }

  /** The views that asked for this load before it was published. */
  ghost function Waiting(log: seq<Event>, load: Load): set<View> {
    if log == [] then {}
    else if log[|log| - 1].Used? && log[|log| - 1].load == load then Waiting(log[..|log| - 1], load) + {log[|log| - 1].view}
    else Waiting(log[..|log| - 1], load)
  }

  /** The loads whose workers have not finished. */
  ghost function Workers(log: seq<Event>): set<Load> {
    if log == [] then {}
    else
      var before := Workers(log[..|log| - 1]);
      match log[|log| - 1]
      case Entered(load) => before + {load}
      case Finished(load, _) => before - {load}
      case _ => before
  }

  /** The foreground tasks that have not completed. */
  ghost function Tasks(log: seq<Event>): set<Load> {
    if log == [] then {}
    else
      var before := Tasks(log[..|log| - 1]);
      match log[|log| - 1]
      case Entered(load) => before + {load}
      case Published(load, _) => before - {load}
      case Discarded(load) => before - {load}
      case _ => before
  }

  /** How often each view was notified by each load. */
  ghost function Notices(log: seq<Event>): multiset<(Load, View)> {
    if log == [] then multiset{}
    else
      var before, event := log[..|log| - 1], log[|log| - 1];
      Notices(before) + if event.Published? then Once(event.load, Waiting(before, event.load)) else multiset{}
  }

  ghost function Once(load: Load, views: set<View>): multiset<(Load, View)> {
    multiset(set view | view in views :: (load, view))
  }

  ghost predicate Proper(log: seq<Event>) {
    log == [] || (Proper(log[..|log| - 1]) && ProperNext(log[..|log| - 1], log[|log| - 1]))
  }

  ghost predicate ProperNext(log: seq<Event>, event: Event) {
    match event
    case Entered(load) => load.serial == Entries(log)
    case Used(load, _) => Alive(log, load) && Shows(log, load) == None
    case Removed(_) => true
    case Finished(load, _) => load in Workers(log)
    case Published(load, output) => load in Tasks(log) && Alive(log, load) && FinishedWith(log, load) == Some(output)
    case Discarded(load) => load in Tasks(log) && !Alive(log, load)
  }

  // ---------- What a script does ----------

  ghost function AfterOps(script: Script, count: nat, log: seq<Event>): seq<Event>
    requires count <= |script.ops|
    decreases script, count
  {
    if count == 0 then log else AfterOp(script.ops[count - 1], AfterOps(script, count - 1, log))
  }

  ghost function AfterOp(op: Op, log: seq<Event>): seq<Event>
    decreases op, 1
  {
    match op
    case Fetch(_, _) => AfterEntry(op, log)
    case Use(key, view, _) =>
      var entered := AfterEntry(op, log);
      var resident := Resident(entered, key);
      if resident.Some? && Shows(entered, resident.value) == None then entered + [Used(resident.value, view)] else entered
    case Remove(key) => log + [Removed(key)]
    case Finish(load, output) =>
      if load in Workers(log) then log + [Finished(load, output)] else log
    case Publish(load) => AfterPublish(load, log)
  }

  /** A load is started only if none is in the table. */
  ghost function AfterEntry(op: Op, log: seq<Event>): seq<Event>
    requires op.Fetch? || op.Use?
    decreases op, 0
  {
    if Resident(log, op.key) != None then log
    else
      var loaded := AfterOps(op.loading, |op.loading.ops|, log);
      loaded + [Entered(Load(op.key, Entries(loaded)))]
  }

  ghost function AfterPublish(load: Load, log: seq<Event>): seq<Event> {
    match FinishedWith(log, load)
    case None => log
    case Some(output) =>
      if load !in Tasks(log) then log
      else if Alive(log, load) then log + [Published(load, output)]
      else log + [Discarded(load)]
  }

  // ---------- What every log says ----------

  lemma OneMore(log: seq<Event>, event: Event)
    ensures (log + [event])[..|log + [event]| - 1] == log
    ensures Proper(log + [event]) <==> Proper(log) && ProperNext(log, event)
  {
    assert (log + [event])[..|log + [event]| - 1] == log;
  }

  /** Nothing is said about a load that is not entered yet. */
  lemma {:induction false} Unheard(log: seq<Event>, load: Load)
    requires Proper(log) && Entries(log) <= load.serial
    ensures Resident(log, load.key) != Some(load) && load !in Tasks(log) && load !in Workers(log)
    ensures FinishedWith(log, load) == None && Shows(log, load) == None && Waiting(log, load) == {}
  {
    if log != [] {
      var before, event := log[..|log| - 1], log[|log| - 1];
      Unheard(before, load);
    }
  }

  /** A task that has not completed has not published: publishing twice cannot happen. */
  lemma {:induction false} PublishesOnce(log: seq<Event>, load: Load)
    requires Proper(log) && load in Tasks(log)
    ensures Shows(log, load) == None
  {
    var before, event := log[..|log| - 1], log[|log| - 1];
    if load in Tasks(before) {
      PublishesOnce(before, load);
    } else {
      Unheard(before, load);
    }
  }

  lemma {:induction false} FinishesOnce(log: seq<Event>, load: Load)
    requires Proper(log) && load in Workers(log)
    ensures FinishedWith(log, load) == None
  {
    var before, event := log[..|log| - 1], log[|log| - 1];
    if load in Workers(before) {
      FinishesOnce(before, load);
    } else {
      Unheard(before, load);
    }
  }

  /** What is shown came from the load's own worker. */
  lemma {:induction false} ShowsOwnOutput(log: seq<Event>, load: Load)
    requires Proper(log) && Shows(log, load) != None
    ensures FinishedWith(log, load) == Shows(log, load)
  {
    var before, event := log[..|log| - 1], log[|log| - 1];
    if Shows(before, load) != None {
      ShowsOwnOutput(before, load);
    }
    if event.Finished? && event.load == load {
      FinishesOnce(before, load);
    }
    if event.Published? && event.load == load {
      PublishesOnce(before, load);
    }
  }

  /** A result that is visible once never changes, whatever happens later. */
  lemma {:induction false} ShownForGood(before: seq<Event>, after: seq<Event>, load: Load)
    requires before <= after && Proper(after) && Shows(before, load) != None
    ensures Shows(after, load) == Shows(before, load)
    decreases |after|
  {
    if |before| == |after| {
      assert before == after;
    } else {
      var shorter, event := after[..|after| - 1], after[|after| - 1];
      ShownForGood(before, shorter, load);
      if event.Published? && event.load == load {
        PublishesOnce(shorter, load);
      }
    }
  }

  /**
   * A load that was removed or replaced never comes back. Its late completion shows nothing, and
   * no view is added to it.
   */
  lemma {:induction false} GoneForGood(before: seq<Event>, after: seq<Event>, load: Load)
    requires before <= after && Proper(after)
    requires load.serial < Entries(before) && !Alive(before, load)
    ensures load.serial < Entries(after) && !Alive(after, load)
    ensures Shows(after, load) == Shows(before, load) && Waiting(after, load) == Waiting(before, load)
    decreases |after|
  {
    if |before| == |after| {
      assert before == after;
    } else {
      GoneForGood(before, after[..|after| - 1], load);
    }
  }

  /** The late completion of a removed or replaced load changes nothing, for its replacement or any other. */
  lemma LateCompletionIsHarmless(log: seq<Event>, load: Load, key: Key, other: Load)
    requires Proper(log) && !Alive(log, load)
    ensures var after := AfterPublish(load, log);
            && Resident(after, key) == Resident(log, key)
            && Shows(after, other) == Shows(log, other) && Waiting(after, other) == Waiting(log, other)
            && Notices(after) == Notices(log)
  {
    OneMore(log, Discarded(load));
  }

  /** Every view that asked while the load was under way is notified exactly once if it is published, and never otherwise. */
  lemma {:induction false} NotifiedExactlyOnce(log: seq<Event>, load: Load, view: View)
    requires Proper(log)
    ensures Notices(log)[(load, view)] == if Shows(log, load) != None && view in Waiting(log, load) then 1 else 0
  {
    if log != [] {
      var before, event := log[..|log| - 1], log[|log| - 1];
      NotifiedExactlyOnce(before, load, view);
      if event.Published? {
        PublishesOnce(before, event.load);
        OnceEach(event.load, Waiting(before, event.load), load, view);
      }
    }
  }

  lemma OnceEach(load: Load, views: set<View>, other: Load, view: View)
    ensures Once(load, views)[(other, view)] == if other == load && view in views then 1 else 0
  {
    assert (other, view) in (set v | v in views :: (load, v)) <==> other == load && view in views;
  }

  // ---------- What every run keeps ----------

  lemma {:induction false} OpsKeepProper(script: Script, count: nat, log: seq<Event>)
    requires count <= |script.ops| && Proper(log)
    ensures Proper(AfterOps(script, count, log)) && log <= AfterOps(script, count, log)
    decreases script, count
  {
    if count > 0 {
      OpsKeepProper(script, count - 1, log);
      OpKeepsProper(script.ops[count - 1], AfterOps(script, count - 1, log));
    }
  }

  lemma {:induction false} OpKeepsProper(op: Op, log: seq<Event>)
    requires Proper(log)
    ensures Proper(AfterOp(op, log)) && log <= AfterOp(op, log)
    decreases op, 1
  {
    match op
    case Fetch(_, _) => EntryKeepsProper(op, log);
    case Use(key, view, _) =>
      EntryKeepsProper(op, log);
      UseKeepsProper(AfterEntry(op, log), key, view);
    case Remove(key) => OneMore(log, Removed(key));
    case Finish(load, output) => OneMore(log, Finished(load, output));
    case Publish(load) => PublishKeepsProper(load, log);
  }

  lemma UseKeepsProper(entered: seq<Event>, key: Key, view: View)
    requires Proper(entered) && Resident(entered, key).Some?
    ensures var load := Resident(entered, key).value;
            load.key == key && (Shows(entered, load) == None ==> Proper(entered + [Used(load, view)]))
  {
    ResidentUnderItsKey(entered, key);
    OneMore(entered, Used(Resident(entered, key).value, view));
  }

  lemma {:induction false} ResidentUnderItsKey(log: seq<Event>, key: Key)
    requires Resident(log, key).Some?
    ensures Resident(log, key).value.key == key
  {
    var before, event := log[..|log| - 1], log[|log| - 1];
    if !event.Entered? || event.load.key != key {
      ResidentUnderItsKey(before, key);
    }
  }

  lemma PublishKeepsProper(load: Load, log: seq<Event>)
    requires Proper(log)
    ensures Proper(AfterPublish(load, log)) && log <= AfterPublish(load, log)
  {
    if FinishedWith(log, load).Some? {
      OneMore(log, Published(load, FinishedWith(log, load).value));
      OneMore(log, Discarded(load));
    }
  }

  /** After an entry the key is resident, and a resident key stays as it was. */
  lemma {:induction false} EntryKeepsProper(op: Op, log: seq<Event>)
    requires (op.Fetch? || op.Use?) && Proper(log)
    ensures Proper(AfterEntry(op, log)) && log <= AfterEntry(op, log) && Resident(AfterEntry(op, log), op.key).Some?
    decreases op, 0
  {
    if Resident(log, op.key) == None {
      var loaded := AfterOps(op.loading, |op.loading.ops|, log);
      OpsKeepProper(op.loading, |op.loading.ops|, log);
      OneMore(loaded, Entered(Load(op.key, Entries(loaded))));
    }
  }

  // ---------- One load per residency ----------

  /** How many loads were started under this key. */
  ghost function Loads(log: seq<Event>, key: Key): nat {
    if log == [] then 0
    else Loads(log[..|log| - 1], key) + if log[|log| - 1].Entered? && log[|log| - 1].load.key == key then 1 else 0
  }

  /**
   * Whether the first `count` operations ask for this key when carried out after `log`. A load that
   * is not started because its asset is in the table asks for nothing.
   */
  ghost predicate Asks(script: Script, count: nat, log: seq<Event>, key: Key)
    requires count <= |script.ops|
    decreases script, count
  {
    count > 0 && (Asks(script, count - 1, log, key) || AsksOp(script.ops[count - 1], AfterOps(script, count - 1, log), key))
  }

  ghost predicate AsksOp(op: Op, log: seq<Event>, key: Key)
    decreases op
  {
    (op.Fetch? || op.Use?) && (op.key == key || (Resident(log, op.key) == None && Asks(op.loading, |op.loading.ops|, log, key)))
  }

  lemma {:induction false} LoadsGrow(before: seq<Event>, after: seq<Event>, key: Key)
    requires before <= after
    ensures Loads(before, key) <= Loads(after, key)
    decreases |after|
  {
    if |before| == |after| {
      assert before == after;
    } else {
      LoadsGrow(before, after[..|after| - 1], key);
    }
  }

  lemma {:induction false} OpsExtend(script: Script, count: nat, log: seq<Event>)
    requires count <= |script.ops|
    ensures log <= AfterOps(script, count, log)
    decreases script, count
  {
    if count > 0 {
      OpsExtend(script, count - 1, log);
      OpExtends(script.ops[count - 1], AfterOps(script, count - 1, log));
    }
  }

  lemma {:induction false} OpExtends(op: Op, log: seq<Event>)
    ensures log <= AfterOp(op, log)
    ensures op.Fetch? || op.Use? ==> AfterEntry(op, log) <= AfterOp(op, log)
    decreases op
  {
    if op.Fetch? || op.Use? {
      OpsExtend(op.loading, |op.loading.ops|, log);
    }
  }

  /** Loads are started for an absent key exactly if it is asked for; otherwise it stays absent. */
  lemma {:induction false} AskedOrAbsent(script: Script, count: nat, log: seq<Event>, key: Key)
    requires count <= |script.ops| && Resident(log, key) == None
    ensures var after := AfterOps(script, count, log);
            if Asks(script, count, log, key) then Loads(log, key) < Loads(after, key)
            else Resident(after, key) == None && Loads(after, key) == Loads(log, key)
    decreases script, count
  {
    if count > 0 {
      var before := AfterOps(script, count - 1, log);
      AskedOrAbsent(script, count - 1, log, key);
      OpExtends(script.ops[count - 1], before);
      LoadsGrow(before, AfterOps(script, count, log), key);
      if !Asks(script, count - 1, log, key) {
        AskedOrAbsentOp(script.ops[count - 1], before, key);
      }
    }
  }

  lemma {:induction false} AskedOrAbsentOp(op: Op, log: seq<Event>, key: Key)
    requires Resident(log, key) == None
    ensures var after := AfterOp(op, log);
            if AsksOp(op, log, key) then Loads(log, key) < Loads(after, key)
            else Resident(after, key) == None && Loads(after, key) == Loads(log, key)
    decreases op, 1
  {
    if op.Fetch? || op.Use? {
      AskedOrAbsentEntry(op, log, key);
      OpExtends(op, log);
      LoadsGrow(AfterEntry(op, log), AfterOp(op, log), key);
    }
  }

  lemma {:induction false} AskedOrAbsentEntry(op: Op, log: seq<Event>, key: Key)
    requires (op.Fetch? || op.Use?) && Resident(log, key) == None
    ensures var after := AfterEntry(op, log);
            if AsksOp(op, log, key) then Loads(log, key) < Loads(after, key)
            else Resident(after, key) == None && Loads(after, key) == Loads(log, key)
    decreases op, 0
  {
    if Resident(log, op.key) == None {
      var loaded := AfterOps(op.loading, |op.loading.ops|, log);
      AskedOrAbsent(op.loading, |op.loading.ops|, log, key);
      OneMore(loaded, Entered(Load(op.key, Entries(loaded))));
      OpsExtend(op.loading, |op.loading.ops|, log);
      LoadsGrow(log, loaded, key);
    }
  }

  /**
   * Asking for an asset starts no load while one is in the table. Otherwise it starts at least one,
   * and exactly one if and only if the load function does not itself ask for the asset it is loading.
   */
  lemma OneLoadPerResidency(op: Op, log: seq<Event>)
    requires op.Fetch? || op.Use?
    ensures Resident(log, op.key) != None ==> AfterEntry(op, log) == log
    ensures Resident(log, op.key) == None ==> Loads(log, op.key) < Loads(AfterEntry(op, log), op.key)
    ensures Resident(log, op.key) == None ==>
              (Loads(AfterEntry(op, log), op.key) == Loads(log, op.key) + 1 <==> !Asks(op.loading, |op.loading.ops|, log, op.key))
  {
    if Resident(log, op.key) == None {
      var loaded := AfterOps(op.loading, |op.loading.ops|, log);
      AskedOrAbsent(op.loading, |op.loading.ops|, log, op.key);
      OneMore(loaded, Entered(Load(op.key, Entries(loaded))));
    }
  }

  /** The simplest load function that asks for its own asset: two loads for one request, at any time. */
  lemma AskingForItselfLoadsTwice(log: seq<Event>, key: Key)
    requires Resident(log, key) == None
    ensures var after := AfterEntry(Fetch(key, Script([Fetch(key, Script([]))])), log);
            Loads(after, key) == Loads(log, key) + 2 && Resident(after, key) == Some(Load(key, Entries(log) + 1))
  {
    var inner := Fetch(key, Script([]));
    var first, second := Entered(Load(key, Entries(log))), Entered(Load(key, Entries(log) + 1));
    OneMore(log, first);
    OneMore(log + [first], second);
    SimpleLoad(log, key);
    OneOp(inner, log);
    assert AfterEntry(Fetch(key, Script([inner])), log) == log + [first] + [second];
  }

  lemma OneOp(op: Op, log: seq<Event>)
    ensures AfterOps(Script([op]), 1, log) == AfterOp(op, log)
  {
    assert AfterOps(Script([op]), 0, log) == log;
    assert Script([op]).ops[0] == op;
  }

  lemma SimpleLoad(log: seq<Event>, key: Key)
    requires Resident(log, key) == None
    ensures AfterOp(Fetch(key, Script([])), log) == log + [Entered(Load(key, Entries(log)))]
  {
    assert AfterOps(Script([]), 0, log) == log;
  }

  // ---------- What a script is bound to do ----------

  /** One event more. */
  ghost predicate OneStep(before: seq<Event>, after: seq<Event>) {
    before <= after && |after| == |before| + 1
  }

  /** The foreground task of this load can complete: it is open, and the worker has handed over. */
  ghost predicate Ready(log: seq<Event>, load: Load) {
    load in Tasks(log) && FinishedWith(log, load).Some?
  }

  /**
   * A poll of a load's task. Once it can complete it does: a load that is in the table shows its
   * worker's output from then on and notifies the views that waited for it; any other gives up. Either
   * way its task is over. Before that a poll does nothing.
   */
  ghost predicate Polled(load: Load, before: seq<Event>, after: seq<Event>) {
    if !Ready(before, load) then after == before
    else
      && OneStep(before, after) && Tasks(after) == Tasks(before) - {load}
      && Shows(after, load) == (if Alive(before, load) then FinishedWith(before, load) else Shows(before, load))
      && Notices(after) == Notices(before) + if Alive(before, load) then Once(load, Waiting(before, load)) else multiset{}
  }

  /** An asset is asked for: its load function runs if it is not in the table, and then a new load is in it. */
  ghost predicate Provided(key: Key, loading: Script, before: seq<Event>, after: seq<Event>)
    decreases loading, 1
  {
    if Resident(before, key).Some? then after == before
    else
      exists loaded ::
        && DoesInTurn(loading, before, loaded) && OneStep(loaded, after)
        && var load := Load(key, Entries(loaded));
           && Resident(after, key) == Some(load)
           && load in Workers(after) && load in Tasks(after)
  }

  /** A view that gets no result waits for it; one that gets it changes nothing. */
  ghost predicate Awaited(key: Key, view: View, before: seq<Event>, after: seq<Event>) {
    Resident(before, key).Some? &&
    var load := Resident(before, key).value;
    if Shows(before, load).Some? then after == before
    else OneStep(before, after) && Resident(after, key) == Some(load) && Shows(after, load) == None
         && Waiting(after, load) == Waiting(before, load) + {view}
  }

  /** What each operation comes to. */
  ghost predicate Does(op: Op, before: seq<Event>, after: seq<Event>)
    decreases op
  {
    match op
    case Fetch(key, loading) => Provided(key, loading, before, after)
    case Use(key, view, loading) => exists provided :: Provided(key, loading, before, provided) && Awaited(key, view, provided, after)
    case Remove(key) =>
      && OneStep(before, after) && Resident(after, key) == None
      && forall other :: other != key ==> Resident(after, other) == Resident(before, other)
    case Finish(load, output) =>
      if load in Workers(before) then
        OneStep(before, after) && FinishedWith(after, load) == Some(output) && Workers(after) == Workers(before) - {load}
      else after == before
    case Publish(load) => Polled(load, before, after)
  }

  /** All operations of the script, each from where the one before it ended. */
  ghost predicate DoesInTurn(script: Script, before: seq<Event>, after: seq<Event>)
    decreases script, 0
  {
    exists stages: seq<seq<Event>> ::
      && |stages| == |script.ops| + 1 && stages[0] == before && stages[|script.ops|] == after
      && forall k :: 0 <= k < |script.ops| ==> Does(script.ops[k], stages[k], stages[k + 1])
  }

  /** Every script is carried out: nothing is skipped, and what is ready to be published is. */
  lemma {:induction false} ScriptIsDone(script: Script, log: seq<Event>)
    requires Proper(log)
    ensures DoesInTurn(script, log, AfterOps(script, |script.ops|, log))
    decreases script, |script.ops| + 1
  {
    var stages := Stages(script, |script.ops|, log);
  }

  lemma {:induction false} Stages(script: Script, count: nat, log: seq<Event>) returns (stages: seq<seq<Event>>)
    requires count <= |script.ops| && Proper(log)
    ensures |stages| == count + 1 && stages[0] == log && stages[count] == AfterOps(script, count, log)
    ensures forall k :: 0 <= k < count ==> Does(script.ops[k], stages[k], stages[k + 1])
    decreases script, count
  {
    if count == 0 {
      stages := [log];
    } else {
      var shorter := Stages(script, count - 1, log);
      OpsKeepProper(script, count - 1, log);
      OpIsDone(script.ops[count - 1], shorter[count - 1]);
      stages := shorter + [AfterOps(script, count, log)];
    }
  }

  lemma {:induction false} OpIsDone(op: Op, log: seq<Event>)
    requires Proper(log)
    ensures Does(op, log, AfterOp(op, log))
    decreases op, 1
  {
    match op
    case Fetch(_, _) => EntryIsDone(op, log);
    case Use(key, view, loading) =>
      EntryIsDone(op, log);
      EntryKeepsProper(op, log);
      UseIsDone(key, view, loading, log);
    case Remove(key) => OneMore(log, Removed(key));
    case Finish(load, output) => OneMore(log, Finished(load, output));
    case Publish(load) => PublishIsDone(load, log);
  }

  lemma UseIsDone(key: Key, view: View, loading: Script, log: seq<Event>)
    requires var provided := AfterEntry(Use(key, view, loading), log);
             Provided(key, loading, log, provided) && Resident(provided, key).Some?
    ensures var op := Use(key, view, loading);
            Awaited(key, view, AfterEntry(op, log), AfterOp(op, log)) && Does(op, log, AfterOp(op, log))
  {
    var op := Use(key, view, loading);
    var provided := AfterEntry(op, log);
    OneMore(provided, Used(Resident(provided, key).value, view));
    assert Awaited(key, view, provided, AfterOp(op, log));
  }

  lemma {:induction false} EntryIsDone(op: Op, log: seq<Event>)
    requires (op.Fetch? || op.Use?) && Proper(log)
    ensures Provided(op.key, op.loading, log, AfterEntry(op, log))
    decreases op, 0
  {
    if Resident(log, op.key) == None {
      var loaded := AfterOps(op.loading, |op.loading.ops|, log);
      ScriptIsDone(op.loading, log);
      OneMore(loaded, Entered(Load(op.key, Entries(loaded))));
      assert OneStep(loaded, AfterEntry(op, log));
    }
  }

  lemma PublishIsDone(load: Load, log: seq<Event>)
    requires Proper(log)
    ensures Polled(load, log, AfterPublish(load, log))
  {
    if Ready(log, load) {
      OneMore(log, Published(load, FinishedWith(log, load).value));
      OneMore(log, Discarded(load));
    }
  }

  // ---------- The table ----------

  function Lookup<K, V>(table: map<K, V>, key: K): Option<V> {
    if key in table then Some(table[key]) else None
  }

  ghost function StateOf(log: seq<Event>, load: Load): Option<LoadState> {
    if !Alive(log, load) then None
    else
      match Shows(log, load)
      case None => Some(Loading(Waiting(log, load)))
      case Some(output) => Some(Loaded(output))
  }

  ghost predicate TableMatches(table: map<Key, Load>, log: seq<Event>) {
    forall key :: Lookup(table, key) == Resident(log, key)
  }

  ghost predicate StatesMatch(states: map<Load, LoadState>, log: seq<Event>) {
    forall load :: Lookup(states, load) == StateOf(log, load)
  }

  ghost predicate OutputsMatch(outputs: map<Load, Output>, log: seq<Event>) {
    forall load :: Lookup(outputs, load) == FinishedWith(log, load)
  }

  lemma Known(states: map<Load, LoadState>, log: seq<Event>, load: Load)
    requires StatesMatch(states, log) && Alive(log, load)
    ensures load in states && Some(states[load]) == StateOf(log, load)
  {
    assert Lookup(states, load) == StateOf(log, load);
  }

  /** The table and the workers' outputs after an event that is not about them. */
  lemma SameTable(table: map<Key, Load>, log: seq<Event>, event: Event)
    requires TableMatches(table, log) && !event.Entered? && !event.Removed?
    ensures TableMatches(table, log + [event])
  {
    OneMore(log, event);
    forall key ensures Lookup(table, key) == Resident(log + [event], key) {
      assert Lookup(table, key) == Resident(log, key);
    }
  }

  lemma SameOutputs(outputs: map<Load, Output>, log: seq<Event>, event: Event)
    requires OutputsMatch(outputs, log) && !event.Finished?
    ensures OutputsMatch(outputs, log + [event])
  {
    OneMore(log, event);
    forall load ensures Lookup(outputs, load) == FinishedWith(log + [event], load) {
      assert Lookup(outputs, load) == FinishedWith(log, load);
    }
  }

  /** Event by event, what becomes of the state cells. */
  lemma SameStates(states: map<Load, LoadState>, log: seq<Event>, event: Event)
    requires StatesMatch(states, log) && (event.Finished? || event.Discarded?)
    ensures StatesMatch(states, log + [event])
  {
    OneMore(log, event);
    forall load ensures Lookup(states, load) == StateOf(log + [event], load) {
      assert Lookup(states, load) == StateOf(log, load);
    }
  }

  lemma UsedState(states: map<Load, LoadState>, log: seq<Event>, load: Load, view: View)
    requires StatesMatch(states, log) && Alive(log, load) && Shows(log, load) == None
    ensures StatesMatch(states[load := Loading(Waiting(log, load) + {view})], log + [Used(load, view)])
  {
    OneMore(log, Used(load, view));
    var after := states[load := Loading(Waiting(log, load) + {view})];
    forall other ensures Lookup(after, other) == StateOf(log + [Used(load, view)], other) {
      assert Lookup(states, other) == StateOf(log, other);
    }
  }

  lemma PublishedState(states: map<Load, LoadState>, log: seq<Event>, load: Load, output: Output)
    requires StatesMatch(states, log) && Alive(log, load)
    ensures StatesMatch(states[load := Loaded(output)], log + [Published(load, output)])
  {
    OneMore(log, Published(load, output));
    var after := states[load := Loaded(output)];
    forall other ensures Lookup(after, other) == StateOf(log + [Published(load, output)], other) {
      assert Lookup(states, other) == StateOf(log, other);
    }
  }

  /** The cells left when the entry under this key is dropped. */
  function Without(states: map<Load, LoadState>, table: map<Key, Load>, key: Key): map<Load, LoadState> {
    if key in table then states - {table[key]} else states
  }

  lemma RemovedState(states: map<Load, LoadState>, table: map<Key, Load>, log: seq<Event>, key: Key)
    requires StatesMatch(states, log) && TableMatches(table, log)
    ensures TableMatches(table - {key}, log + [Removed(key)])
    ensures StatesMatch(Without(states, table, key), log + [Removed(key)])
  {
    var event := Removed(key);
    OneMore(log, event);
    forall k ensures Lookup(table - {key}, k) == Resident(log + [event], k) {
      assert Lookup(table, k) == Resident(log, k);
    }
    forall load ensures Lookup(Without(states, table, key), load) == StateOf(log + [event], load) {
      assert Lookup(states, load) == StateOf(log, load);
      Displaced(table, log, key, load);
    }
  }

  /** Which load goes when the entry under a key goes. */
  lemma Displaced(table: map<Key, Load>, log: seq<Event>, key: Key, load: Load)
    requires TableMatches(table, log)
    ensures key in table && table[key] == load <==> Alive(log, load) && load.key == key
  {
    assert Lookup(table, key) == Resident(log, key);
    if key in table {
      ResidentUnderItsKey(log, key);
    }
  }

  lemma {:induction false} EnteredState(states: map<Load, LoadState>, table: map<Key, Load>, log: seq<Event>, load: Load)
    requires StatesMatch(states, log) && TableMatches(table, log) && Proper(log) && load.serial == Entries(log)
    ensures TableMatches(table[load.key := load], log + [Entered(load)])
    ensures StatesMatch(Without(states, table, load.key)[load := Loading({})], log + [Entered(load)])
  {
    var event := Entered(load);
    OneMore(log, event);
    Unheard(log, load);
    forall k ensures Lookup(table[load.key := load], k) == Resident(log + [event], k) {
      assert Lookup(table, k) == Resident(log, k);
    }
    var after := Without(states, table, load.key)[load := Loading({})];
    forall other ensures Lookup(after, other) == StateOf(log + [event], other) {
      assert Lookup(states, other) == StateOf(log, other);
      Displaced(table, log, load.key, other);
    }
  }

  lemma FinishedOutput(outputs: map<Load, Output>, log: seq<Event>, load: Load, output: Output)
    requires OutputsMatch(outputs, log)
    ensures OutputsMatch(outputs[load := output], log + [Finished(load, output)])
  {
    var event := Finished(load, output);
    OneMore(log, event);
    forall other ensures Lookup(outputs[load := output], other) == FinishedWith(log + [event], other) {
      assert Lookup(outputs, other) == FinishedWith(log, other);
    }
  }

  class AssetCache {
    var loadingAssets: map<Key, Load>
    /** The state cells still owned by an entry of the table. */
    var states: map<Load, LoadState>
    /** What workers have handed over. */
    var outputs: map<Load, Output>
    /** The loads whose workers have not finished. */
    var workers: set<Load>
    /** The foreground tasks that have not completed. */
    var tasks: set<Load>
    var entries: nat
    ghost var log: seq<Event>
    ghost var notices: seq<(Load, View)>

    ghost predicate Valid()
      reads this
    {
      && Proper(log)
      && TableMatches(loadingAssets, log) && StatesMatch(states, log) && OutputsMatch(outputs, log)
      && workers == Workers(log) && tasks == Tasks(log) && entries == Entries(log)
      && multiset(notices) == Notices(log)
    }

    constructor ()
      ensures Valid() && log == []
    {
      loadingAssets, states, outputs, workers, tasks, entries := map[], map[], map[], {}, {}, 0;
      log, notices := [], [];
    }

    /** What the asset under this key shows, without asking for it. */
    ghost function Visible(key: Key): Option<Output>
      reads this
    {
      var resident := Resident(log, key);
      if resident.Some? then Shows(log, resident.value) else None
    }

    method Get(load: Load) returns (result: Option<Output>)
      requires Valid() && Alive(log, load)
      ensures result == Shows(log, load)
    {
      Known(states, log, load);
      match states[load]
      case Loading(_) => result := None;
      case Loaded(output) => result := Some(output);
    }

    method UseBy(load: Load, view: View) returns (result: Option<Output>)
      requires Valid() && Alive(log, load)
      modifies this`states, this`log
      ensures Valid() && result == old(Shows(log, load))
      ensures log == if result == None then old(log) + [Used(load, view)] else old(log)
    {
      Known(states, log, load);
      match states[load]
      case Loading(views) =>
        ghost var event := Used(load, view);
        OneMore(log, event);
        UsedState(states, log, load, view);
        SameTable(loadingAssets, log, event);
        SameOutputs(outputs, log, event);
        states := states[load := Loading(views + {view})];
        log := log + [event];
        result := None;
      case Loaded(output) => result := Some(output);
    }

    method RemoveAsset(key: Key)
      requires Valid()
      modifies this`loadingAssets, this`states, this`log
      ensures Valid() && log == old(log) + [Removed(key)]
    {
      ghost var event := Removed(key);
      OneMore(log, event);
      RemovedState(states, loadingAssets, log, key);
      SameOutputs(outputs, log, event);
      if key in loadingAssets {
        states := states - {loadingAssets[key]};
      }
      loadingAssets := loadingAssets - {key};
      log := log + [event];
    }

    /** Puts a new load in the table; one that got there meanwhile is replaced. */
    method Insert(key: Key) returns (load: Load)
      requires Valid()
      modifies this`loadingAssets, this`states, this`workers, this`tasks, this`entries, this`log
      ensures Valid() && load == Load(key, old(Entries(log))) && log == old(log) + [Entered(load)]
    {
      load := Load(key, entries);
      ghost var event := Entered(load);
      OneMore(log, event);
      EnteredState(states, loadingAssets, log, load);
      SameOutputs(outputs, log, event);
      if key in loadingAssets {
        states := states - {loadingAssets[key]};
      }
      states := states[load := Loading({})];
      loadingAssets := loadingAssets[key := load];
      workers, tasks := workers + {load}, tasks + {load};
      entries := entries + 1;
      log := log + [event];
    }

    /** Finds the load under this key, starting one if there is none. */
    method AssetEntry(op: Op) returns (load: Load)
      requires Valid() && (op.Fetch? || op.Use?)
      modifies this
      ensures Valid() && log == AfterEntry(op, old(log)) && Alive(log, load) && load.key == op.key
      decreases op, 0
    {
      assert Lookup(loadingAssets, op.key) == Resident(log, op.key);
      if op.key !in loadingAssets {
        RunScript(op.loading);
        OneMore(log, Entered(Load(op.key, Entries(log))));
        load := Insert(op.key);
      } else {
        ResidentUnderItsKey(log, op.key);
        load := loadingAssets[op.key];
      }
    }

    /** Starts loading an asset that is not in the table; returns its result if there is one already. */
    method FetchAsset(op: Op) returns (result: Option<Output>)
      requires Valid() && op.Fetch?
      modifies this
      ensures Valid() && log == AfterOp(op, old(log)) && result == Visible(op.key)
      decreases op, 1
    {
      var load := AssetEntry(op);
      result := Get(load);
    }

    /** The same, and the view is notified once the result is there. */
    method UseAsset(op: Op) returns (result: Option<Output>)
      requires Valid() && op.Use?
      modifies this
      ensures Valid() && log == AfterOp(op, old(log)) && result == Visible(op.key)
      ensures result == None ==> Resident(log, op.key).Some? && op.view in Waiting(log, Resident(log, op.key).value)
      decreases op, 1
    {
      var load := AssetEntry(op);
      OneMore(log, Used(load, op.view));
      result := UseBy(load, op.view);
    }

    /** A worker hands over its output; whether anybody still wants it shows only later. */
    method FinishWork(load: Load, output: Output)
      requires Valid()
      modifies this`outputs, this`workers, this`log
      ensures Valid() && log == AfterOp(Finish(load, output), old(log))
    {
      if load in workers {
        ghost var event := Finished(load, output);
        OneMore(log, event);
        FinishedOutput(outputs, log, load, output);
        SameTable(loadingAssets, log, event);
        SameStates(states, log, event);
        outputs := outputs[load := output];
        workers := workers - {load};
        log := log + [event];
      }
    }

    /**
     * Polls the foreground task of a load. With the worker's output at hand it completes: if
     * the state cell is gone it gives up, otherwise it publishes and notifies every waiting view.
     */
    method PublishLoad(load: Load)
      requires Valid()
      modifies this`states, this`tasks, this`log, this`notices
      ensures Valid() && log == AfterPublish(load, old(log)) && Polled(load, old(log), log)
      ensures old(Ready(log, load)) ==> load !in tasks
      ensures old(Ready(log, load) && Alive(log, load)) ==>
                && Shows(log, load) == Some(old(outputs)[load])
                && multiset(notices) == old(multiset(notices)) + Once(load, old(Waiting(log, load)))
      ensures !old(Ready(log, load) && Alive(log, load)) ==> states == old(states) && notices == old(notices)
    {
      PublishIsDone(load, log);
      assert Lookup(outputs, load) == FinishedWith(log, load);
      if load in outputs && load in tasks {
        PublishesOnce(log, load);
        assert Lookup(states, load) == StateOf(log, load);
        if load !in states {
          Discard(load);
        } else {
          match states[load]
          case Loading(views) => Complete(load, outputs[load], views);
          case Loaded(_) => assert false;
        }
      }
    }

    method Discard(load: Load)
      requires Valid() && load in tasks && !Alive(log, load)
      modifies this`tasks, this`log
      ensures Valid() && log == old(log) + [Discarded(load)]
    {
      ghost var event := Discarded(load);
      OneMore(log, event);
      SameTable(loadingAssets, log, event);
      SameOutputs(outputs, log, event);
      SameStates(states, log, event);
      tasks := tasks - {load};
      log := log + [event];
    }

    method Complete(load: Load, output: Output, views: set<View>)
      requires Valid() && load in tasks && Alive(log, load) && FinishedWith(log, load) == Some(output)
      requires views == Waiting(log, load)
      modifies this`states, this`tasks, this`log, this`notices
      ensures Valid() && log == old(log) + [Published(load, output)]
    {
      ghost var event := Published(load, output);
      OneMore(log, event);
      PublishedState(states, log, load, output);
      SameTable(loadingAssets, log, event);
      SameOutputs(outputs, log, event);
      states := states[load := Loaded(output)];
      tasks := tasks - {load};
      NotifyAll(load, views);
      log := log + [event];
    }

    /** Notifies each of these views, in whatever order they come. */
    method NotifyAll(load: Load, views: set<View>)
      modifies this`notices
      ensures multiset(notices) == old(multiset(notices)) + Once(load, views)
    {
      var rest := views;
      NobodyLeft(load);
      while rest != {}
        invariant rest <= views
        invariant multiset(notices) == old(multiset(notices)) + Once(load, views - rest)
        decreases |rest|
      {
        var view :| view in rest;
        OneNotified(load, views - rest, view);
        assert views - (rest - {view}) == views - rest + {view};
        rest := rest - {view};
        notices := notices + [(load, view)];
      }
      assert views - rest == views;
    }

    /** Performs the operations of a script in order. */
    method RunScript(script: Script)
      requires Valid()
      modifies this
      ensures Valid() && log == AfterOps(script, |script.ops|, old(log))
      decreases script, 3
    {
      for i := 0 to |script.ops|
        invariant Valid() && log == AfterOps(script, i, old(log))
      {
        Perform(script.ops[i]);
      }
    }

    method Perform(op: Op)
      requires Valid()
      modifies this
      ensures Valid() && log == AfterOp(op, old(log))
      decreases op, 2
    {
      match op
      case Fetch(_, _) => var _ := FetchAsset(op);
      case Use(_, _, _) => var _ := UseAsset(op);
      case Remove(key) => RemoveAsset(key);
      case Finish(load, output) => FinishWork(load, output);
      case Publish(load) => PublishLoad(load);
    }
  }

  lemma NobodyLeft(load: Load)
    ensures Once(load, {}) == multiset{}
  {
    var nobody: set<View> := {};
    assert (set view | view in nobody :: (load, view)) == {};
  }

  lemma OneNotified(load: Load, views: set<View>, view: View)
    requires view !in views
    ensures Once(load, views + {view}) == Once(load, views) + multiset{(load, view)}
  {
    assert (set v | v in views + {view} :: (load, v)) == (set v | v in views :: (load, v)) + {(load, view)};
  }

  /** A whole run from the start: the table follows the log, so all that is said of logs holds of it. */
  method Run(script: Script) returns (cache: AssetCache)
    ensures fresh(cache) && cache.Valid()
    ensures cache.log == AfterOps(script, |script.ops|, []) && DoesInTurn(script, [], cache.log)
    ensures forall load, view :: multiset(cache.notices)[(load, view)]
                                 == if Shows(cache.log, load) != None && view in Waiting(cache.log, load) then 1 else 0
  {
    cache := new AssetCache();
    cache.RunScript(script);
    ScriptIsDone(script, []);
    forall load, view ensures multiset(cache.notices)[(load, view)]
                              == if Shows(cache.log, load) != None && view in Waiting(cache.log, load) then 1 else 0
    {
      NotifiedExactlyOnce(cache.log, load, view);
    }
  }
}
