/**
 * The group-pose watcher (`Ktisis/Services/GPoseService.cs`): on every framework update it compares
 * the client's group-pose state with the state it last saw, raises `StateChanged` on a change and
 * `Update` on every update spent in group pose.
 *
 * The client state is passed to each update; the raised events are kept in a log.
 */
module GPose {
  /** An event raised by the service. */
  datatype GPoseEvent = StateChanged(state: bool) | Update

  /** The events of one framework update, given the state seen before and the state observed now. */
  function TickEvents(prev: bool, state: bool): seq<GPoseEvent>
  {
    (if prev != state then [StateChanged(state)] else []) + (if state then [Update] else [])
  }

  /**
   * `StateChanged` is raised exactly when the observed state differs from the previous one, and it
   * carries the new state; `Update` is raised exactly when the state is on, after any state change.
   */
  lemma TickRules(prev: bool, state: bool)
    ensures forall b :: StateChanged(b) in TickEvents(prev, state) <==> prev != state && b == state
    ensures Update in TickEvents(prev, state) <==> state
    ensures prev != state && state ==> TickEvents(prev, state) == [StateChanged(true), Update]
    ensures |TickEvents(prev, state)| <= 2
  {
  }

  /** The state seen and the events raised after a run of updates, starting from `prev`. */
  datatype Run = Run(active: bool, events: seq<GPoseEvent>)

  /** A run of updates observing `states` in turn. */
  function Ticks(prev: bool, states: seq<bool>): Run
  {
    if states == [] then Run(prev, [])
    else
      var r := Ticks(prev, states[..|states| - 1]);
      Run(states[|states| - 1], r.events + TickEvents(r.active, states[|states| - 1]))
  }

  /** How many times a run of states differs from the one before it. */
  function Changes(prev: bool, states: seq<bool>): nat
  {
    if states == [] then 0
    else
      var init := states[..|states| - 1];
      var before := if init == [] then prev else init[|init| - 1];
      Changes(prev, init) + (if before != states[|states| - 1] then 1 else 0)
  }

  /** How many `StateChanged` events a log holds. */
  function CountChanges(events: seq<GPoseEvent>): nat
  {
    if events == [] then 0
    else CountChanges(events[..|events| - 1]) + (if events[|events| - 1].StateChanged? then 1 else 0)
  }

  /** Counting over a concatenation. */
  lemma {:induction false} CountChangesAppend(a: seq<GPoseEvent>, b: seq<GPoseEvent>)
    ensures CountChanges(a + b) == CountChanges(a) + CountChanges(b)
  {
    if b != [] {
      var init := b[..|b| - 1];
      assert (a + b)[..|a + b| - 1] == a + init;
      CountChangesAppend(a, init);
    } else {
      assert a + b == a;
    }
  }

  /** After a non-empty run the service holds the last observed state. */
  lemma RunEndsOnLast(prev: bool, states: seq<bool>)
    requires states != []
    ensures Ticks(prev, states).active == states[|states| - 1]
  {
  }

  /**
   * A run raises one `StateChanged` per change of the observed state (the first update compared
   * with `prev`), and no other.
   */
  lemma {:induction false} ChangesCounted(prev: bool, states: seq<bool>)
    ensures CountChanges(Ticks(prev, states).events) == Changes(prev, states)
  {
    if states != [] {
      var init := states[..|states| - 1];
      var r := Ticks(prev, init);
      ChangesCounted(prev, init);
      CountChangesAppend(r.events, TickEvents(r.active, states[|states| - 1]));
      assert CountChanges([Update]) == 0;
      assert CountChanges([StateChanged(states[|states| - 1])] + [Update]) == 1;
      if init != [] {
        RunEndsOnLast(prev, init);
      }
    }
  }

  /** Updates that all observe the state already seen raise no `StateChanged`. */
  lemma {:induction false} SteadyStateQuiet(prev: bool, states: seq<bool>)
    requires forall k :: 0 <= k < |states| ==> states[k] == prev
    ensures CountChanges(Ticks(prev, states).events) == 0
  {
    ChangesCounted(prev, states);
    SteadyNoChanges(prev, states);
  }

  /** A run equal to `prev` throughout has no changes. */
  lemma {:induction false} SteadyNoChanges(prev: bool, states: seq<bool>)
    requires forall k :: 0 <= k < |states| ==> states[k] == prev
    ensures Changes(prev, states) == 0
  {
    if states != [] {
      SteadyNoChanges(prev, states[..|states| - 1]);
    }
  }

  /** The watcher starts off, so the first update in group pose raises `StateChanged(true)`, then `Update`. */
  lemma FirstUpdateInGPose()
    ensures Ticks(false, [true]).events == [StateChanged(true), Update]
  {
    assert [true][..0] == [];
  }

  class GPoseService {
    /** `_isActive`: the state seen at the last update. */
    var isActive: bool
    /** Whether `OnFrameworkUpdate` is registered with the framework. */
    var subscribed: bool
    /** The events raised so far. */
    var events: seq<GPoseEvent>

    constructor ()
      ensures !isActive && !subscribed && events == []
    {
      isActive := false;
      subscribed := false;
      events := [];
    }

    /** `Subscribe`: framework updates reach the service. */
    method Subscribe()
      modifies this`subscribed
      ensures subscribed
    {
      subscribed := true;
    }

    /** `Dispose`: framework updates no longer reach the service. */
    method Dispose()
      modifies this`subscribed
      ensures !subscribed
    {
      subscribed := false;
    }

    /** A framework update observing the client state `state`, delivered only while subscribed. */
    method FrameworkUpdate(state: bool)
      modifies this`isActive, this`events
      ensures subscribed ==> isActive == state && events == old(events) + TickEvents(old(isActive), state)
      ensures !subscribed ==> isActive == old(isActive) && events == old(events)
    {
      if subscribed {
        OnFrameworkUpdate(state);
      }
    }

    /** `OnFrameworkUpdate`: record and announce a change, then raise `Update` while in group pose. */
    method OnFrameworkUpdate(state: bool)
      modifies this`isActive, this`events
      ensures isActive == state
      ensures events == old(events) + TickEvents(old(isActive), state)
    {
      if isActive != state {
        isActive := state;
        events := events + [StateChanged(state)];
      }
      if state {
        events := events + [Update];
      }
    }
  }
}
