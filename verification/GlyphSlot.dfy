/** The slot for the missing-glyph callback, under re-entry. */
module GlyphSlots {
  // A running callback may register another, drop any subscription, or cause a delivery itself. What the
  // callbacks do is given as a finite tree: each delivery comes with the script that the invoked callback will
  // carry out. A registration's identity is the number of those made before.

  import opened Options

  type Callback = nat

  datatype Entry = Entry(registration: nat, callback: Option<Callback>)

  datatype Script = Script(ops: seq<Op>)

  datatype Op =
    | OnMissingGlyphs(callback: Callback)
    | DropSubscription(registration: nat)
    | Deliver(reaction: Script)

  datatype Event =
    | Registered(registration: nat, callback: Callback)
    | Dropped(registration: nat)
    | Started(registration: nat, callback: Callback)
    | Finished(registration: nat)

  // ---------- What a log says ----------

  datatype Holder = Vacant | Occupied(registration: nat, callback: Callback)

  /** Who is subscribed: the registration made last, unless it was dropped since. */
  ghost function HolderAfter(log: seq<Event>): Holder {
    if log == [] then Vacant
    else
      var before := HolderAfter(log[..|log| - 1]);
      match log[|log| - 1]
      case Registered(registration, callback) => Occupied(registration, callback)
      case Dropped(registration) =>
        if before.Occupied? && before.registration == registration then Vacant else before
      case _ => before
  }

  /** The registrations whose callbacks are running, the innermost last. */
  ghost function Running(log: seq<Event>): seq<nat> {
    if log == [] then []
    else
      var before := Running(log[..|log| - 1]);
      match log[|log| - 1]
      case Started(registration, _) => before + [registration]
      case Finished(_) => if before == [] then [] else before[..|before| - 1]
      case _ => before
  }

  ghost function Registrations(log: seq<Event>): nat {
    if log == [] then 0
    else Registrations(log[..|log| - 1]) + if log[|log| - 1].Registered? then 1 else 0
  }

  /** A delivery reaches a callback: somebody is subscribed, and that callback is not already running. */
  ghost predicate Reaches(log: seq<Event>) {
    HolderAfter(log).Occupied? && HolderAfter(log).registration !in Running(log)
  }

  /** Registrations are told apart, only the subscribed callback is started, and callbacks return in turn. */
  ghost predicate Proper(log: seq<Event>) {
    log == [] || (Proper(log[..|log| - 1]) && ProperNext(log[..|log| - 1], log[|log| - 1]))
  }

  ghost predicate ProperNext(log: seq<Event>, event: Event) {
    match event
    case Registered(registration, _) => registration == Registrations(log)
    case Dropped(_) => true
    case Started(registration, callback) => Reaches(log) && HolderAfter(log) == Occupied(registration, callback)
    case Finished(registration) => Running(log) != [] && Running(log)[|Running(log)| - 1] == registration
  }

  // ---------- What a script does ----------

  ghost function AfterOps(script: Script, count: nat, log: seq<Event>): (after: seq<Event>)
    requires count <= |script.ops|
    ensures log <= after
    decreases script, count
  {
    if count == 0 then log else AfterOp(script.ops[count - 1], AfterOps(script, count - 1, log))
  }

  /** A delivery that reaches a callback is the run of that callback; any other leaves no trace. */
  ghost function AfterOp(op: Op, log: seq<Event>): (after: seq<Event>)
    ensures log <= after
    decreases op
  {
    match op
    case OnMissingGlyphs(callback) => log + [Registered(Registrations(log), callback)]
    case DropSubscription(registration) => log + [Dropped(registration)]
    case Deliver(reaction) =>
      if !Reaches(log) then log
      else
        var holder := HolderAfter(log);
        AfterOps(reaction, |reaction.ops|, log + [Started(holder.registration, holder.callback)])
          + [Finished(holder.registration)]
  }

  // ---------- What every log says ----------

  /** Every callback that a script has run has returned by its end. */
  lemma {:induction false} OpsReturn(script: Script, count: nat, log: seq<Event>)
    requires count <= |script.ops|
    ensures Running(AfterOps(script, count, log)) == Running(log)
    decreases script, count
  {
    if count > 0 {
      OpsReturn(script, count - 1, log);
      OpReturns(script.ops[count - 1], AfterOps(script, count - 1, log));
    }
  }

  lemma {:induction false} OpReturns(op: Op, log: seq<Event>)
    ensures Running(AfterOp(op, log)) == Running(log)
    decreases op
  {
    match op
    case OnMissingGlyphs(callback) => OneMore(log, Registered(Registrations(log), callback));
    case DropSubscription(registration) => OneMore(log, Dropped(registration));
    case Deliver(reaction) =>
      if Reaches(log) {
        var holder := HolderAfter(log);
        var started := log + [Started(holder.registration, holder.callback)];
        var reacted := AfterOps(reaction, |reaction.ops|, started);
        OneMore(log, Started(holder.registration, holder.callback));
        OpsReturn(reaction, |reaction.ops|, started);
        OneMore(reacted, Finished(holder.registration));
        assert (Running(log) + [holder.registration])[..|Running(log)|] == Running(log);
      }
  }

  ghost predicate Distinct(running: seq<nat>) {
    forall i, j :: 0 <= i < j < |running| ==> running[i] != running[j]
  }

  /** No callback runs inside itself, at any depth. */
  lemma {:induction false} NeverInsideItself(log: seq<Event>)
    requires Proper(log)
    ensures Distinct(Running(log))
  {
    if log != [] {
      NeverInsideItself(log[..|log| - 1]);
    }
  }

  /** Only the newest registration can be subscribed. */
  lemma {:induction false} HolderIsNewest(log: seq<Event>)
    requires Proper(log) && HolderAfter(log).Occupied?
    ensures HolderAfter(log).registration + 1 == Registrations(log)
  {
    if log != [] {
      if HolderAfter(log[..|log| - 1]).Occupied? {
        HolderIsNewest(log[..|log| - 1]);
      }
    }
  }

  /** Once replaced or dropped, a registration never comes back, and its callback never starts again. */
  lemma {:induction false} GoneForGood(before: seq<Event>, after: seq<Event>, registration: nat)
    requires Proper(before + after) && registration < Registrations(before)
    requires HolderAfter(before).Occupied? ==> HolderAfter(before).registration != registration
    ensures HolderAfter(before + after).Occupied? ==> HolderAfter(before + after).registration != registration
    ensures registration < Registrations(before + after)
    ensures forall k :: 0 <= k < |after| && after[k].Started? ==> after[k].registration != registration
    decreases |after|
  {
    if after == [] {
      assert before + after == before;
    } else {
      var shorter := after[..|after| - 1];
      assert (before + after)[..|before + after| - 1] == before + shorter;
      GoneForGood(before, shorter, registration);
    }
  }

  lemma OneMore(log: seq<Event>, event: Event)
    ensures (log + [event])[..|log + [event]| - 1] == log
    ensures Proper(log + [event]) <==> Proper(log) && ProperNext(log, event)
  {
    assert (log + [event])[..|log + [event]| - 1] == log;
  }

  // ---------- What a script is bound to do ----------

  /** One event more. */
  ghost predicate OneStep(before: seq<Event>, after: seq<Event>) {
    before <= after && |after| == |before| + 1
  }

  /**
   * What an operation comes to: a registration is the new holder; dropping the holder's subscription
   * leaves none, and dropping any other changes nothing; a delivery that reaches a callback starts the
   * holder's, which does what it is scripted to do and returns, and any other delivery does nothing.
   */
  ghost predicate Does(op: Op, before: seq<Event>, after: seq<Event>)
    decreases op
  {
    var holder := HolderAfter(before);
    match op
    case OnMissingGlyphs(callback) =>
      OneStep(before, after) && HolderAfter(after) == Occupied(Registrations(before), callback)
    case DropSubscription(registration) =>
      && OneStep(before, after)
      && HolderAfter(after) == if holder.Occupied? && holder.registration == registration then Vacant else holder
    case Deliver(reaction) =>
      if Reaches(before) then
        var started := before + [Started(holder.registration, holder.callback)];
        && started < after && after[|after| - 1] == Finished(holder.registration)
        && DoesInTurn(reaction, started, after[..|after| - 1])
      else after == before
  }

  /** All operations of the script, each from where the one before it ended. */
  ghost predicate DoesInTurn(script: Script, before: seq<Event>, after: seq<Event>)
    decreases script
  {
    exists stages: seq<seq<Event>> ::
      && |stages| == |script.ops| + 1 && stages[0] == before && stages[|script.ops|] == after
      && forall k :: 0 <= k < |script.ops| ==> Does(script.ops[k], stages[k], stages[k + 1])
  }

  /** Every script is carried out: nothing is skipped, and every delivery that reaches a callback starts it. */
  lemma ScriptIsDone(script: Script, log: seq<Event>)
    ensures DoesInTurn(script, log, AfterOps(script, |script.ops|, log))
    decreases script, |script.ops| + 1
  {
    var stages := Stages(script, |script.ops|, log);
  }

  lemma {:induction false} Stages(script: Script, count: nat, log: seq<Event>) returns (stages: seq<seq<Event>>)
    requires count <= |script.ops|
    ensures |stages| == count + 1 && stages[0] == log && stages[count] == AfterOps(script, count, log)
    ensures forall k :: 0 <= k < count ==> Does(script.ops[k], stages[k], stages[k + 1])
    decreases script, count
  {
    if count == 0 {
      stages := [log];
    } else {
      var shorter := Stages(script, count - 1, log);
      OpIsDone(script.ops[count - 1], shorter[count - 1]);
      stages := shorter + [AfterOps(script, count, log)];
    }
  }

  lemma {:induction false} OpIsDone(op: Op, log: seq<Event>)
    ensures Does(op, log, AfterOp(op, log))
    decreases op
  {
    match op
    case OnMissingGlyphs(callback) => OneMore(log, Registered(Registrations(log), callback));
    case DropSubscription(registration) => OneMore(log, Dropped(registration));
    case Deliver(reaction) =>
      if Reaches(log) {
        var holder := HolderAfter(log);
        var started := log + [Started(holder.registration, holder.callback)];
        var reacted := AfterOps(reaction, |reaction.ops|, started);
        ScriptIsDone(reaction, started);
        assert (reacted + [Finished(holder.registration)])[..|reacted|] == reacted;
      }
  }

  // ---------- The slot ----------

  class MissingGlyphCallbackSlot {
    var entry: Option<Entry>
    /** Whether the text system reports missing glyphs. */
    var reporting: bool
    var registrations: nat
    ghost var log: seq<Event>

    constructor ()
      ensures Valid() && log == []
    {
      entry := None;
      reporting := false;
      registrations := 0;
      log := [];
    }

    /** The slot is what the log says: the callback is in it unless it is running. */
    ghost predicate Valid()
      reads this
    {
      && Proper(log)
      && registrations == Registrations(log)
      && Matches(entry, HolderAfter(log), Running(log))
      && reporting == HolderAfter(log).Occupied?
    }

    static ghost predicate Matches(entry: Option<Entry>, holder: Holder, running: seq<nat>) {
      match holder
      case Vacant => entry == None
      case Occupied(registration, callback) =>
        entry == Some(Entry(registration, if registration in running then None else Some(callback)))
    }

    /** Takes the place of the callback before, if any. */
    method Replace(callback: Callback) returns (registration: nat)
      modifies this`entry, this`registrations
      ensures registration == old(registrations) && registrations == old(registrations) + 1
      ensures entry == Some(Entry(registration, Some(callback)))
    {
      registration := registrations;
      registrations := registrations + 1;
      entry := Some(Entry(registration, Some(callback)));
    }

    /** Empties the slot if this registration is the current one. */
    method Remove(registration: nat) returns (isCurrent: bool)
      modifies this`entry
      ensures isCurrent == (old(entry).Some? && old(entry).value.registration == registration)
      ensures entry == if isCurrent then None else old(entry)
    {
      isCurrent := entry.Some? && entry.value.registration == registration;
      if isCurrent {
        entry := None;
      }
    }

    method OnMissingGlyphs(callback: Callback) returns (registration: nat)
      requires Valid()
      modifies this
      ensures Valid() && reporting && registration == old(registrations)
      ensures log == old(log) + [Registered(registration, callback)]
    {
      NewRegistration(log, callback);
      registration := Replace(callback);
      reporting := true;
      log := log + [Registered(registration, callback)];
    }

    /** Dropping a stale subscription changes nothing; dropping the current one turns reporting off. */
    method DropSubscription(registration: nat)
      requires Valid()
      modifies this
      ensures Valid() && log == old(log) + [Dropped(registration)]
      ensures old(HolderAfter(log)).Occupied? && old(HolderAfter(log)).registration == registration ==>
                !reporting && entry == None
      ensures old(HolderAfter(log)).Vacant? || old(HolderAfter(log)).registration != registration ==>
                reporting == old(reporting) && entry == old(entry)
    {
      OneMore(log, Dropped(registration));
      var removed := Remove(registration);
      if removed {
        reporting := false;
      }
      log := log + [Dropped(registration)];
    }

    /**
     * Delivers a report: the callback is out of the slot while it runs, and goes back only if it is
     * still the current one by then.
     */
    method Invoke(reaction: Script)
      requires Valid()
      modifies this
      ensures Valid()
      ensures log == AfterOp(Deliver(reaction), old(log))
      ensures Does(Deliver(reaction), old(log), log)
      decreases reaction, 1
    {
      OpIsDone(Deliver(reaction), log);
      if entry.Some? && entry.value.callback.Some? {
        var registration, callback := entry.value.registration, entry.value.callback.value;
        Start(registration, callback);
        label During:
        RunScript(reaction);
        StillTheSame(old@During(log), log, registration, callback);
        OpsReturn(reaction, |reaction.ops|, old@During(log));
        Finish(old(Running(log)), registration, callback);
      }
    }

    method Start(registration: nat, callback: Callback)
      requires Valid() && entry == Some(Entry(registration, Some(callback)))
      modifies this`entry, this`log
      ensures Valid() && Reaches(old(log)) && old(HolderAfter(log)) == Occupied(registration, callback)
      ensures log == old(log) + [Started(registration, callback)]
      ensures Running(log) == old(Running(log)) + [registration] && registration !in old(Running(log))
      ensures HolderAfter(log) == Occupied(registration, callback)
    {
      OneMore(log, Started(registration, callback));
      entry := Some(entry.value.(callback := None));
      log := log + [Started(registration, callback)];
    }

    method Finish(ghost outer: seq<nat>, registration: nat, callback: Callback)
      requires Valid() && Running(log) == outer + [registration] && registration !in outer
      requires HolderAfter(log).Occupied? && HolderAfter(log).registration == registration ==>
                 HolderAfter(log).callback == callback
      modifies this`entry, this`log
      ensures Valid() && log == old(log) + [Finished(registration)] && Running(log) == outer
    {
      OneMore(log, Finished(registration));
      assert (outer + [registration])[..|outer|] == outer;
      if entry.Some? && entry.value.registration == registration {
        entry := Some(entry.value.(callback := Some(callback)));
      }
      log := log + [Finished(registration)];
    }

    /** Performs the operations of a script in order. */
    method RunScript(script: Script)
      requires Valid()
      modifies this
      ensures Valid()
      ensures log == AfterOps(script, |script.ops|, old(log))
      decreases script, 0
    {
      for i := 0 to |script.ops|
        invariant Valid()
        invariant log == AfterOps(script, i, old(log))
      {
        Perform(script.ops[i]);
      }
    }

    method Perform(op: Op)
      requires Valid()
      modifies this
      ensures Valid()
      ensures log == AfterOp(op, old(log))
      decreases op, 2
    {
      match op
      case OnMissingGlyphs(callback) =>
        var _ := OnMissingGlyphs(callback);
      case DropSubscription(registration) =>
        DropSubscription(registration);
      case Deliver(reaction) =>
        Invoke(reaction);
    }
  }

  lemma NewRegistration(log: seq<Event>, callback: Callback)
    requires Proper(log)
    ensures var after := log + [Registered(Registrations(log), callback)];
            && Proper(after) && Registrations(after) == Registrations(log) + 1 && Running(after) == Running(log)
            && HolderAfter(after) == Occupied(Registrations(log), callback)
            && Registrations(log) !in Running(log)
  {
    OneMore(log, Registered(Registrations(log), callback));
    RunningAreRegistered(log);
  }

  lemma {:induction false} RunningAreRegistered(log: seq<Event>)
    requires Proper(log)
    ensures forall r :: r in Running(log) ==> r < Registrations(log)
  {
    if log != [] {
      var before, last := log[..|log| - 1], log[|log| - 1];
      RunningAreRegistered(before);
      forall r | r in Running(log)
        ensures r < Registrations(log)
      {
        if r !in Running(before) {
          assert last.Started? && r == last.registration;
          HolderIsNewest(before);
        }
      }
    }
  }

  lemma SameLog(before: seq<Event>, after: seq<Event>)
    requires before <= after && |before| == |after|
    ensures before == after
  {
  }

  /** A registration that is current before and after stands for the same callback. */
  lemma {:induction false} StillTheSame(before: seq<Event>, after: seq<Event>, registration: nat, callback: Callback)
    requires Proper(after) && before <= after && HolderAfter(before) == Occupied(registration, callback)
    requires Proper(before)
    ensures HolderAfter(after).Occupied? && HolderAfter(after).registration == registration ==>
              HolderAfter(after).callback == callback
    ensures registration < Registrations(after)
    decreases |after|
  {
    if |before| == |after| {
      SameLog(before, after);
      HolderIsNewest(before);
    } else {
      StillTheSame(before, after[..|after| - 1], registration, callback);
    }
  }

  /** From the start, whatever the callbacks do: the slot follows the log, and nothing is left running. */
  method Run(script: Script) returns (slot: MissingGlyphCallbackSlot)
    ensures fresh(slot) && slot.Valid() && Running(slot.log) == []
    ensures slot.log == AfterOps(script, |script.ops|, []) && DoesInTurn(script, [], slot.log)
    ensures slot.reporting <==> slot.entry.Some?
    ensures slot.entry.Some? ==> slot.entry.value.callback.Some?
  {
    slot := new MissingGlyphCallbackSlot();
    slot.RunScript(script);
    OpsReturn(script, |script.ops|, []);
    ScriptIsDone(script, []);
  }
}
