/** The supervisor's answer to a failed module: the lifecycle decides, the supervisor respawns. */
module Supervisor {
  import opened Options
  import opened Modules
  import opened Lifecycle

  /** The first spec with that name. */
  function SpecOf(specs: seq<Spec>, name: string): (r: Option<Spec>)
    ensures r.Some? ==> r.value in specs && r.value.name == name
    ensures r.None? ==> forall spec :: spec in specs ==> spec.name != name
  {
    if specs == [] then None
    else if specs[0].name == name then Some(specs[0])
    else SpecOf(specs[1..], name)
  }

  predicate MayRestart(specs: seq<Spec>, s: State, name: string) {
    SpecOf(specs, name).Some? && name in s.records && s.records[name].state == Failed
  }

  /** handle_failure: the new state, and whether the process is respawned. */
  function HandlingFailure(c: Config, specs: seq<Spec>, s: State, name: string, now: real): (State, bool) {
    if !MayRestart(specs, s, name) then (s, false)
    else
      var s' := Restarting(c, s, name, now).0;
      (s', name in s'.records && s'.records[name].state == Starting && !SpecOf(specs, name).value.external)
  }

  class ProcessSupervisor {
    const specs: seq<Spec>
    var procs: map<string, int>

    constructor (specs: seq<Spec>)
      ensures this.specs == specs && procs == map[]
    {
      this.specs := specs;
      procs := map[];
    }

    /** `spawned` is the process that the spawn function starts, if it is called. */
    method HandleFailure(name: string, lifecycle: LifecycleManager, now: real, spawned: int)
      returns (respawned: bool)
      requires lifecycle.Valid()
      modifies this, lifecycle, lifecycle.broker
      ensures lifecycle.Valid()
      ensures (lifecycle.Abstract(), respawned) ==
        HandlingFailure(lifecycle.config, specs, old(lifecycle.Abstract()), name, now)
      ensures procs == if respawned then old(procs)[name := spawned] else old(procs)
    {
      var spec := SpecOf(specs, name);
      if spec == None {
        return false;
      }
      if name !in lifecycle.records || lifecycle.records[name].state != Failed {
        return false;
      }
      var error := lifecycle.Restart(name, now);
      assert error == None;
      if lifecycle.records[name].state == Starting && !spec.value.external {
        procs := procs[name := spawned];
        return true;
      }
      respawned := false;
    }
  }

  /** A failed module is restarted if its budget has room and given up otherwise; either way the
      lifecycle raises nothing, and only the supervisor's own modules are respawned. */
  lemma FailureIs(c: Config, specs: seq<Spec>, s: State, name: string, now: real)
    requires MayRestart(specs, s, name)
    ensures Restarting(c, s, name, now).1 == None
    ensures var (s', respawned) := HandlingFailure(c, specs, s, name, now);
      && name in s'.records
      && s'.records[name].state == (if HasBudget(c, s.records[name], now) then Starting else PermanentlyFailed)
      && (respawned <==> HasBudget(c, s.records[name], now) && !SpecOf(specs, name).value.external)
  {
  }

  /** A module that the supervisor was not told of, or that has not failed, is left alone. */
  lemma OthersAreLeftAlone(c: Config, specs: seq<Spec>, s: State, name: string, now: real)
    requires (forall i :: 0 <= i < |specs| ==> specs[i].name != name) ||
             !(name in s.records && s.records[name].state == Failed)
    ensures HandlingFailure(c, specs, s, name, now) == (s, false)
  {
  }
}
