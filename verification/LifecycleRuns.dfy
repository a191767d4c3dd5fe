/** Runs of the lifecycle, the registry and the supervisor together, with every transition that
    anything else might ask for. */
module LifecycleRuns {
  import opened Options
  import opened Modules
  import opened Lifecycle
  import opened Registry
  import opened Supervisor

  /** Setting holds what does not change in a run. */
  datatype Setting = Setting(config: Config, specs: seq<Spec>)

  datatype Op =
    | Register(name: string, entry: Entry)
    | Deregister(name: string)
    | MarkLost(name: string)
    | Restart(name: string, now: real)
    | HandleFailure(name: string, now: real)
    | Heartbeat(name: string, now: real)
    | Sweep(now: real)
    | Track(name: string)
    | Move(name: string, dst: ModuleState)

  /** The core, and the times of every restart ever recorded for each module. */
  datatype Past = Past(core: Core, restarts: map<string, seq<real>>)

  function RestartsOf(p: Past, name: string): seq<real> {
    if name in p.restarts then p.restarts[name] else []
  }

  /** Whether an operation records a restart of the module. */
  predicate Records(t: Setting, s: State, op: Op, name: string) {
    && (op.Restart? || (op.HandleFailure? && MayRestart(t.specs, s, name)))
    && op.name == name && name in s.records && HasBudget(t.config, s.records[name], op.now)
  }

  ghost function StepCore(t: Setting, core: Core, op: Op): Core
    requires t.config.heartbeatIntervalS != 0 && WellFormed(core.life)
  {
    match op
    case Register(name, entry) => Registering(core, name, entry).0
    case Deregister(name) => Deregistering(core, name).0
    case MarkLost(name) => MarkingLost(core, name).0
    case Restart(name, now) => core.(life := Restarting(t.config, core.life, name, now).0)
    case HandleFailure(name, now) => core.(life := HandlingFailure(t.config, t.specs, core.life, name, now).0)
    case Heartbeat(name, now) => core.(life := Beating(core.life, name, now).0)
    case Sweep(now) => core.(life := Sweeping(t.config, core.life, now))
    case Track(name) => core.(life := Tracking(core.life, name).0)
    case Move(name, dst) => core.(life := Moving(core.life, name, dst).0)
  }

  ghost function Step(t: Setting, p: Past, op: Op): (p': Past)
    requires t.config.heartbeatIntervalS != 0 && WellFormed(p.core.life)
    ensures WellFormed(p'.core.life)
  {
    StepIsWellFormed(t, p.core, op);
    Past(StepCore(t, p.core, op),
         if (op.Restart? || op.HandleFailure?) && Records(t, p.core.life, op, op.name)
         then p.restarts[op.name := RestartsOf(p, op.name) + [op.now]]
         else p.restarts)
  }

  ghost function Run(t: Setting, ops: seq<Op>): (p: Past)
    requires t.config.heartbeatIntervalS != 0
    ensures WellFormed(p.core.life)
  {
    if ops == [] then Past(Core(INITIAL, map[]), map[]) else Step(t, Run(t, ops[..|ops| - 1]), ops[|ops| - 1])
  }

  lemma RunSnoc(t: Setting, ops: seq<Op>, op: Op)
    requires t.config.heartbeatIntervalS != 0
    ensures Run(t, ops + [op]) == Step(t, Run(t, ops), op)
  {
    assert (ops + [op])[..|ops|] == ops;
  }

  lemma TrackIsWellFormed(s: State, name: string)
    requires WellFormed(s)
    ensures WellFormed(Tracking(s, name).0)
  {
    if name != "" && name !in s.records {
      assert name !in s.names;
      assert forall n :: n in s.names + [name] <==> n in s.names || n == name;
    }
  }

  /** All that other operations do to the names and the domain of the records is nothing. */
  lemma SameNames(s: State, s': State)
    requires WellFormed(s) && s'.names == s.names && s'.records.Keys == s.records.Keys
    ensures WellFormed(s')
  {
  }

  lemma StepIsWellFormed(t: Setting, core: Core, op: Op)
    requires t.config.heartbeatIntervalS != 0 && WellFormed(core.life)
    ensures WellFormed(StepCore(t, core, op).life)
  {
    match op {
      case Register(name, _) =>
        TrackIsWellFormed(core.life, name);
        var s := if name in core.life.records then core.life else Tracking(core.life, name).0;
        SameNames(s, StepCore(t, core, op).life);
      case Track(name) => TrackIsWellFormed(core.life, name);
      case _ => SameNames(core.life, StepCore(t, core, op).life);
    }
  }

  // ---- the paths of the modules -----------------------------------------------------

  datatype Edge = Edge(src: ModuleState, dst: ModuleState)

  /** The state changes that were published for a module. */
  function EdgesOf(events: seq<Event>, name: string): seq<Edge> {
    if events == [] then [] else
      var n := |events| - 1;
      var e := events[n];
      EdgesOf(events[..n], name) + (if e.StateChanged? && e.name == name then [Edge(e.src, e.dst)] else [])
  }

  function StateOf(s: State, name: string): ModuleState {
    if name in s.records then s.records[name].state else Unregistered
  }

  /** A path along allowed edges, without gaps. */
  predicate IsPath(src: ModuleState, edges: seq<Edge>, dst: ModuleState) {
    && (if edges == [] then src == dst else edges[0].src == src && edges[|edges| - 1].dst == dst)
    && (forall i :: 0 <= i < |edges| ==> Allowed(edges[i].src, edges[i].dst))
    && (forall i, j :: 0 <= i < |edges| && j == i + 1 < |edges| ==> edges[j].src == edges[i].dst)
  }

  lemma PathsJoin(a: ModuleState, before: seq<Edge>, b: ModuleState, after: seq<Edge>, c: ModuleState)
    requires IsPath(a, before, b) && IsPath(b, after, c)
    ensures IsPath(a, before + after, c)
  {
  }

  lemma {:induction false} EdgesJoin(a: seq<Event>, b: seq<Event>, name: string)
    ensures EdgesOf(a + b, name) == EdgesOf(a, name) + EdgesOf(b, name)
  {
    if b == [] {
      assert a + b == a;
    } else {
      assert (a + b)[..|a + b| - 1] == a + b[..|b| - 1];
      EdgesJoin(a, b[..|b| - 1], name);
    }
  }

  /** From one state to a later one: what was published for the module in between is a path from
      its state in the one to its state in the other. */
  ghost predicate Follows(s: State, s': State, name: string) {
    && s.events <= s'.events
    && (name in s.records ==> name in s'.records)
    && IsPath(StateOf(s, name), EdgesOf(s'.events[|s.events|..], name), StateOf(s', name))
  }

  lemma FollowsChain(s: State, s': State, s'': State, name: string)
    requires Follows(s, s', name) && Follows(s', s'', name)
    ensures Follows(s, s'', name)
  {
    var before, after := s'.events[|s.events|..], s''.events[|s'.events|..];
    assert s''.events[|s.events|..] == before + after;
    EdgesJoin(before, after, name);
    PathsJoin(StateOf(s, name), EdgesOf(before, name), StateOf(s', name), EdgesOf(after, name), StateOf(s'', name));
  }

  lemma QuietFollows(s: State, s': State, name: string)
    requires s'.events == s.events && StateOf(s', name) == StateOf(s, name)
    requires name in s.records ==> name in s'.records
    ensures Follows(s, s', name)
  {
    assert s'.events[|s.events|..] == [];
  }

  lemma PublishFollows(s: State, e: Event, name: string)
    requires !e.StateChanged?
    ensures Follows(s, Publishing(s, e), name)
  {
    assert Publishing(s, e).events[|s.events|..] == [e];
  }

  lemma MoveFollows(s: State, moved: string, dst: ModuleState, name: string)
    ensures Follows(s, Moving(s, moved, dst).0, name)
  {
    var (s', error) := Moving(s, moved, dst);
    if error == None {
      assert s'.events[|s.events|..] == [StateChanged(moved, s.records[moved].state, dst)];
      assert EdgesOf([], name) == [];
    } else {
      QuietFollows(s, s', name);
    }
  }

  lemma MoveTwiceFollows(s: State, moved: string, first: ModuleState, second: ModuleState, name: string)
    ensures Follows(s, MovingTwice(s, moved, first, second).0, name)
  {
    var s' := Moving(s, moved, first).0;
    MoveFollows(s, moved, first, name);
    MoveFollows(s', moved, second, name);
    FollowsChain(s, s', Moving(s', moved, second).0, name);
  }

  lemma SweepOneFollows(c: Config, s: State, swept: string, now: real, name: string)
    requires c.heartbeatIntervalS != 0 && swept in s.records
    ensures Follows(s, SweepOne(c, s, swept, now), name)
  {
    var dst := Swept(c, s.records[swept], now).state;
    if dst == s.records[swept].state {
      QuietFollows(s, SweepOne(c, s, swept, now), name);
    } else {
      SweptIsAllowed(c, s.records[swept], now);
      MoveFollows(s, swept, dst, name);
    }
  }

  /** The modules swept one after the other, up to the first `k`. */
  ghost function SweepTo(c: Config, s: State, now: real, k: nat): (s': State)
    requires c.heartbeatIntervalS != 0 && WellFormed(s) && k <= |s.names|
    ensures s'.records.Keys == s.records.Keys
    decreases k
  {
    if k == 0 then s else SweepOne(c, SweepTo(c, s, now, k - 1), s.names[k - 1], now)
  }

  lemma {:induction false} SweepToIsMidway(c: Config, s: State, now: real, k: nat)
    requires c.heartbeatIntervalS != 0 && WellFormed(s) && k <= |s.names|
    ensures Midway(c, s, now, k, SweepTo(c, s, now, k))
    decreases k
  {
    if k != 0 {
      SweepToIsMidway(c, s, now, k - 1);
      SweepAdvances(c, s, now, k - 1, SweepTo(c, s, now, k - 1));
    }
  }

  lemma {:induction false} SweepToFollows(c: Config, s: State, now: real, k: nat, name: string)
    requires c.heartbeatIntervalS != 0 && WellFormed(s) && k <= |s.names|
    ensures Follows(s, SweepTo(c, s, now, k), name)
    decreases k
  {
    if k == 0 {
      QuietFollows(s, s, name);
    } else {
      var before := SweepTo(c, s, now, k - 1);
      SweepToFollows(c, s, now, k - 1, name);
      SweepOneFollows(c, before, s.names[k - 1], now, name);
      FollowsChain(s, before, SweepTo(c, s, now, k), name);
    }
  }

  lemma SweepFollows(c: Config, s: State, now: real, name: string)
    requires c.heartbeatIntervalS != 0 && WellFormed(s)
    ensures Follows(s, Sweeping(c, s, now), name)
  {
    SweepToIsMidway(c, s, now, |s.names|);
    SweepToFollows(c, s, now, |s.names|, name);
    SweepEnds(c, s, now, SweepTo(c, s, now, |s.names|));
  }

  lemma RestartFollows(c: Config, s: State, restarted: string, now: real, name: string)
    ensures Follows(s, Restarting(c, s, restarted, now).0, name)
  {
    if restarted in s.records {
      var record := s.records[restarted];
      var kept := Recent(record.restartTimes, now);
      var dst := if HasBudget(c, record, now) then Starting else PermanentlyFailed;
      var counted :=
        if HasBudget(c, record, now)
        then record.(restartTimes := kept + [now], restartCount := record.restartCount + 1)
        else record.(restartTimes := kept);
      var s' := s.(records := s.records[restarted := counted]);
      QuietFollows(s, s', name);
      MoveFollows(s', restarted, dst, name);
      FollowsChain(s, s', Moving(s', restarted, dst).0, name);
    } else {
      QuietFollows(s, s, name);
    }
  }

  lemma DriveFollows(s: State, driven: string, name: string)
    ensures Follows(s, DrivingRegister(s, driven).0, name)
  {
    QuietFollows(s, s, name);
    if driven !in s.records {
      var s' := Tracking(s, driven).0;
      QuietFollows(s, s', name);
      MoveTwiceFollows(s', driven, Starting, Registered, name);
      FollowsChain(s, s', MovingTwice(s', driven, Starting, Registered).0, name);
    } else {
      MoveFollows(s, driven, Registered, name);
    }
  }

  lemma RegisterFollows(core: Core, registered: string, entry: Entry, name: string)
    ensures Follows(core.life, Registering(core, registered, entry).0.life, name)
  {
    var (life, error) := DrivingRegister(core.life, registered);
    DriveFollows(core.life, registered, name);
    PublishFollows(life, EntryAdded(registered, entry), name);
    FollowsChain(core.life, life, Publishing(life, EntryAdded(registered, entry)), name);
  }

  lemma DeregisterFollows(core: Core, gone: string, name: string)
    ensures Follows(core.life, Deregistering(core, gone).0.life, name)
  {
    QuietFollows(core.life, core.life, name);
    if gone in core.entries && gone in core.life.records {
      var state := core.life.records[gone].state;
      MoveTwiceFollows(core.life, gone, Stopping, Stopped, name);
      MoveFollows(core.life, gone, Stopped, name);
      var life :=
        if IsUp(state) then MovingTwice(core.life, gone, Stopping, Stopped).0
        else if state == Stopping then Moving(core.life, gone, Stopped).0
        else core.life;
      PublishFollows(life, EntryRemoved(gone), name);
      FollowsChain(core.life, life, Publishing(life, EntryRemoved(gone)), name);
    }
  }

  lemma StepFollows(t: Setting, core: Core, op: Op, name: string)
    requires t.config.heartbeatIntervalS != 0 && WellFormed(core.life)
    ensures Follows(core.life, StepCore(t, core, op).life, name)
  {
    QuietFollows(core.life, core.life, name);
    match op {
      case Register(n, entry) => RegisterFollows(core, n, entry, name);
      case Deregister(n) => DeregisterFollows(core, n, name);
      case MarkLost(n) => MoveFollows(core.life, n, Failed, name);
      case Restart(n, now) => RestartFollows(t.config, core.life, n, now, name);
      case HandleFailure(n, now) => RestartFollows(t.config, core.life, n, now, name);
      case Heartbeat(n, now) => QuietFollows(core.life, Beating(core.life, n, now).0, name);
      case Sweep(now) => SweepFollows(t.config, core.life, now, name);
      case Track(n) => QuietFollows(core.life, Tracking(core.life, n).0, name);
      case Move(n, dst) => MoveFollows(core.life, n, dst, name);
    }
  }

  lemma {:induction false} RunFollows(t: Setting, ops: seq<Op>, more: seq<Op>, name: string)
    requires t.config.heartbeatIntervalS != 0
    ensures Follows(Run(t, ops).core.life, Run(t, ops + more).core.life, name)
    decreases |more|
  {
    if more == [] {
      assert ops + more == ops;
      QuietFollows(Run(t, ops).core.life, Run(t, ops).core.life, name);
    } else {
      var n := |more| - 1;
      var before := ops + more[..n];
      assert ops + more == before + [more[n]];
      RunFollows(t, ops, more[..n], name);
      RunSnoc(t, before, more[n]);
      StepFollows(t, Run(t, before).core, more[n], name);
      FollowsChain(Run(t, ops).core.life, Run(t, before).core.life, Run(t, ops + more).core.life, name);
    }
  }

  /** What was published for a module is, in every run, one path without gaps along allowed edges
      from UNREGISTERED to its state. */
  lemma RunsArePaths(t: Setting, ops: seq<Op>, name: string)
    requires t.config.heartbeatIntervalS != 0
    ensures var s := Run(t, ops).core.life; IsPath(Unregistered, EdgesOf(s.events, name), StateOf(s, name))
  {
    RunFollows(t, [], ops, name);
    assert [] + ops == ops;
    var events := Run(t, ops).core.life.events;
    assert events[0..] == events;
  }

  lemma NoWayOut(src: ModuleState, edges: seq<Edge>, dst: ModuleState)
    requires IsPath(src, edges, dst) && src in {Stopped, PermanentlyFailed}
    ensures edges == [] && dst == src
  {
    assert forall next :: !Allowed(src, next);
  }

  /** A module that has stopped or permanently failed stays so, and nothing more is published of
      it, whatever is asked. */
  lemma TerminalStatesAbsorb(t: Setting, ops: seq<Op>, more: seq<Op>, name: string)
    requires t.config.heartbeatIntervalS != 0
    ensures var s, s' := Run(t, ops).core.life, Run(t, ops + more).core.life;
      StateOf(s, name) in {Stopped, PermanentlyFailed} ==>
        StateOf(s', name) == StateOf(s, name) && EdgesOf(s'.events, name) == EdgesOf(s.events, name)
  {
    var s, s' := Run(t, ops).core.life, Run(t, ops + more).core.life;
    RunFollows(t, ops, more, name);
    var after := s'.events[|s.events|..];
    assert s'.events == s.events + after;
    EdgesJoin(s.events, after, name);
    if StateOf(s, name) in {Stopped, PermanentlyFailed} {
      NoWayOut(StateOf(s, name), EdgesOf(after, name), StateOf(s', name));
    }
  }

  // ---- the registry -----------------------------------------------------------------

  ghost predicate IsTracked(core: Core) {
    forall name :: name in core.entries ==> name in core.life.records
  }

  lemma StepTracks(t: Setting, core: Core, op: Op)
    requires t.config.heartbeatIntervalS != 0 && WellFormed(core.life) && IsTracked(core)
    ensures IsTracked(StepCore(t, core, op))
  {
    var core' := StepCore(t, core, op);
    forall name | name in core'.entries ensures name in core'.life.records {
      StepFollows(t, core, op, name);
      if op.Register? {
        RegisterIs(core, op.name, op.entry);
      }
    }
  }

  lemma TrackedNeverRaises(core: Core, name: string)
    requires IsTracked(core)
    ensures Deregistering(core, name).1 == None && MarkingLost(core, name).1 == None
  {
  }

  /** Every registered module is tracked, in every run; so neither deregister nor mark_lost ever
      raises. */
  lemma {:induction false} RegisteredAreTracked(t: Setting, ops: seq<Op>, name: string)
    requires t.config.heartbeatIntervalS != 0
    ensures var core := Run(t, ops).core;
      && IsTracked(core)
      && Deregistering(core, name).1 == None && MarkingLost(core, name).1 == None
  {
    if ops != [] {
      var before := ops[..|ops| - 1];
      RegisteredAreTracked(t, before, name);
      StepTracks(t, Run(t, before).core, ops[|ops| - 1]);
    }
    TrackedNeverRaises(Run(t, ops).core, name);
  }
}
