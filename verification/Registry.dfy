/** The capability registry, which drives the lifecycle of the modules that register. */
module Registry {
  import opened Options
  import opened Modules
  import opened Lifecycle

  predicate IsUp(s: ModuleState) {
    s in {Registered, Healthy, Degraded}
  }

  datatype Core = Core(life: State, entries: map<string, Entry>)

  // ---- the state changes ------------------------------------------------------------

  /** Two transitions in a row; the second only if the first is not refused. */
  function MovingTwice(s: State, name: string, first: ModuleState, second: ModuleState): (State, Option<Error>) {
    var (s', error) := Moving(s, name, first);
    if error.Some? then (s', error) else Moving(s', name, second)
  }

  function DrivingRegister(s: State, name: string): (State, Option<Error>) {
    if name !in s.records then
      var (s', error) := Tracking(s, name);
      if error.Some? then (s', error) else MovingTwice(s', name, Starting, Registered)
    else if s.records[name].state == Starting then Moving(s, name, Registered)
    else if IsUp(s.records[name].state) then (s, None)
    else (s, Some(InvalidTransition))
  }

  function Publishing(s: State, e: Event): State {
    s.(events := s.events + [e])
  }

  function Registering(core: Core, name: string, entry: Entry): (Core, Option<Error>) {
    var (life, error) := DrivingRegister(core.life, name);
    if error.Some? then (core.(life := life), error)
    else (Core(Publishing(life, EntryAdded(name, entry)), core.entries[name := entry]), None)
  }

  function Deregistering(core: Core, name: string): (Core, Option<Error>) {
    if name !in core.entries then (core, None)
    else if name !in core.life.records then (core, Some(KeyError))
    else
      var state := core.life.records[name].state;
      var (life, error) :=
        if IsUp(state) then MovingTwice(core.life, name, Stopping, Stopped)
        else if state == Stopping then Moving(core.life, name, Stopped)
        else (core.life, None);
      if error.Some? then (core.(life := life), error)
      else (Core(Publishing(life, EntryRemoved(name)), core.entries - {name}), None)
  }

  function MarkingLost(core: Core, name: string): (Core, Option<Error>) {
    if name !in core.entries then (core, None)
    else if name !in core.life.records then (core, Some(KeyError))
    else if IsUp(core.life.records[name].state) then
      var (life, error) := Moving(core.life, name, Failed);
      (core.(life := life), error)
    else (core, None)
  }

  // ---- the object -------------------------------------------------------------------

  class ModuleRegistry {
    const lifecycle: LifecycleManager
    const broker: EventLog
    var entries: map<string, Entry>

    ghost function Abstract(): Core
      reads this, lifecycle, broker, lifecycle.broker
    {
      Core(lifecycle.Abstract(), entries)
    }

    ghost predicate Valid()
      reads this, lifecycle, broker, lifecycle.broker
    {
      lifecycle.broker == broker && lifecycle.Valid()
    }

    constructor (lifecycle: LifecycleManager)
      requires lifecycle.Valid()
      ensures Valid() && this.lifecycle == lifecycle
      ensures Abstract() == Core(lifecycle.Abstract(), map[])
    {
      this.lifecycle := lifecycle;
      this.broker := lifecycle.broker;
      entries := map[];
    }

    method DriveRegister(name: string) returns (error: Option<Error>)
      requires Valid()
      modifies lifecycle, broker
      ensures Valid() && (lifecycle.Abstract(), error) == DrivingRegister(old(lifecycle.Abstract()), name)
    {
      if name !in lifecycle.records {
        error := lifecycle.Track(name);
        if error.Some? {
          return;
        }
        error := lifecycle.Transition(name, Starting);
        if error.Some? {
          return;
        }
        error := lifecycle.Transition(name, Registered);
        return;
      }
      var state := lifecycle.records[name].state;
      if state == Starting {
        error := lifecycle.Transition(name, Registered);
      } else if IsUp(state) {
        error := None;
      } else {
        error := Some(InvalidTransition);
      }
    }

    method Register(name: string, entry: Entry) returns (error: Option<Error>)
      requires Valid()
      modifies this, lifecycle, broker
      ensures Valid() && (Abstract(), error) == Registering(old(Abstract()), name, entry)
    {
      error := DriveRegister(name);
      if error.Some? {
        return;
      }
      entries := entries[name := entry];
      broker.Publish(EntryAdded(name, entry));
    }

    method Deregister(name: string) returns (error: Option<Error>)
      requires Valid()
      modifies this, lifecycle, broker
      ensures Valid() && (Abstract(), error) == Deregistering(old(Abstract()), name)
    {
      if name !in entries {
        return None;
      }
      if name !in lifecycle.records {
        return Some(KeyError);
      }
      var state := lifecycle.records[name].state;
      if IsUp(state) {
        error := lifecycle.Transition(name, Stopping);
        if error.Some? {
          return;
        }
        error := lifecycle.Transition(name, Stopped);
        if error.Some? {
          return;
        }
      } else if state == Stopping {
        error := lifecycle.Transition(name, Stopped);
        if error.Some? {
          return;
        }
      }
      entries := entries - {name};
      broker.Publish(EntryRemoved(name));
      error := None;
    }

    method MarkLost(name: string) returns (error: Option<Error>)
      requires Valid()
      modifies this, lifecycle, broker
      ensures Valid() && (Abstract(), error) == MarkingLost(old(Abstract()), name)
    {
      if name !in entries {
        return None;
      }
      if name !in lifecycle.records {
        return Some(KeyError);
      }
      if IsUp(lifecycle.records[name].state) {
        error := lifecycle.Transition(name, Failed);
      } else {
        error := None;
      }
    }
  }

  // ---- what a registration does -----------------------------------------------------

  /** What is needed to register: a name that is not empty, of a module that is new, starting or
      up. */
  predicate CanRegister(core: Core, name: string) {
    if name in core.life.records then core.life.records[name].state in {Starting, Registered, Healthy, Degraded}
    else name != ""
  }

  /** A registration that goes through leaves the module registered, in the state it had if it was
      up; a rejected one changes nothing at all. */
  lemma RegisterIs(core: Core, name: string, entry: Entry)
    ensures Registering(core, name, entry).1 == None <==> CanRegister(core, name)
    ensures !CanRegister(core, name) ==> Registering(core, name, entry).0 == core
    ensures CanRegister(core, name) ==>
      var core' := Registering(core, name, entry).0;
      && core'.entries == core.entries[name := entry] && name in core'.life.records
      && core'.life.records[name].state ==
           (if name in core.life.records && core.life.records[name].state != Starting
            then core.life.records[name].state else Registered)
      && core'.life.records - {name} == core.life.records - {name}
      && core'.life.events != [] && core'.life.events[|core'.life.events| - 1] == EntryAdded(name, entry)
  {
  }

  /** A module that is deregistered is no longer in the registry; it is stopped if it was up or
      stopping, and stays as it was otherwise. One that is not there changes nothing. */
  lemma DeregisterIs(core: Core, name: string)
    requires name in core.entries ==> name in core.life.records
    ensures var (core', error) := Deregistering(core, name);
      && error == None
      && (name !in core.entries ==> core' == core)
      && (name in core.entries ==>
            && core'.entries == core.entries - {name} && name in core'.life.records
            && core'.life.records[name].state ==
                 (if core.life.records[name].state in {Registered, Healthy, Degraded, Stopping}
                  then Stopped else core.life.records[name].state)
            && core'.life.records - {name} == core.life.records - {name}
            && core'.life.events != [] && core'.life.events[|core'.life.events| - 1] == EntryRemoved(name))
  {
  }

  /** A module whose connection is lost fails if it was registered and up, and nothing else changes;
      its entry stays. */
  lemma MarkLostIs(core: Core, name: string)
    requires name in core.entries ==> name in core.life.records
    ensures var (core', error) := MarkingLost(core, name);
      && error == None && core'.entries == core.entries
      && (if name in core.entries && core.life.records[name].state in {Registered, Healthy, Degraded}
          then core'.life.records == core.life.records[name := core.life.records[name].(state := Failed)]
               && core'.life.events == core.life.events + [StateChanged(name, core.life.records[name].state, Failed)]
          else core' == core)
  {
  }
}
