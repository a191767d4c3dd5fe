/** Heartbeats and sweeps over runs: what a record knows of its module, read off the operations. */
module Liveness {
  import opened Options
  import opened Modules
  import opened Lifecycle
  import opened Registry
  import opened LifecycleRuns

  // ---- what the operations say ------------------------------------------------------

  /** Tracking a module, or registering it, with a name that is not empty. */
  predicate Births(op: Op, name: string) {
    name != "" && (op == Op.Track(name) || (op.Register? && op.name == name))
  }

  /** Some operation has made the module known. */
  predicate IsBorn(ops: seq<Op>, name: string) {
    ops != [] && (IsBorn(ops[..|ops| - 1], name) || Births(ops[|ops| - 1], name))
  }

  /** The time of the last heartbeat of the module since it is known. */
  function LastBeat(ops: seq<Op>, name: string): Option<real> {
    if ops == [] then None
    else
      var before, op := ops[..|ops| - 1], ops[|ops| - 1];
      if op.Heartbeat? && op.name == name && IsBorn(before, name) then Some(op.now) else LastBeat(before, name)
  }

  /** The modules in the order in which they were born. */
  function BirthOrder(ops: seq<Op>): seq<string> {
    if ops == [] then []
    else
      var before, op := ops[..|ops| - 1], ops[|ops| - 1];
      BirthOrder(before) +
        (if (op.Track? || op.Register?) && op.name != "" && !IsBorn(before, op.name) then [op.name] else [])
  }

  // ---- one step ---------------------------------------------------------------------

  function LastSeenOf(s: State, name: string): Option<real> {
    if name in s.records then s.records[name].lastSeen else None
  }

  function CountOf(s: State, name: string): nat {
    if name in s.records then s.records[name].restartCount else 0
  }

  /** Neither the modules known, nor when they were last seen, nor their restart counts have changed. */
  predicate SeesAlike(s: State, s': State, name: string) {
    && (name in s'.records <==> name in s.records) && LastSeenOf(s', name) == LastSeenOf(s, name)
    && CountOf(s', name) == CountOf(s, name)
  }

  lemma MovingSeesAlike(s: State, moved: string, dst: ModuleState, name: string)
    ensures SeesAlike(s, Moving(s, moved, dst).0, name)
  {
  }

  lemma MovingTwiceSeesAlike(s: State, moved: string, first: ModuleState, second: ModuleState, name: string)
    ensures SeesAlike(s, MovingTwice(s, moved, first, second).0, name)
  {
    MovingSeesAlike(s, moved, first, name);
    MovingSeesAlike(Moving(s, moved, first).0, moved, second, name);
  }

  lemma DrivingBirths(s: State, driven: string, name: string)
    ensures var s' := DrivingRegister(s, driven).0;
      && (name in s'.records <==> name in s.records || (name != "" && name == driven))
      && LastSeenOf(s', name) == LastSeenOf(s, name) && CountOf(s', name) == CountOf(s, name)
  {
    if driven !in s.records && driven != "" {
      MovingTwiceSeesAlike(Tracking(s, driven).0, driven, Starting, Registered, name);
    } else if driven in s.records {
      MovingSeesAlike(s, driven, Registered, name);
    }
  }

  lemma DeregisteringSeesAlike(core: Core, gone: string, name: string)
    ensures SeesAlike(core.life, Deregistering(core, gone).0.life, name)
  {
    MovingTwiceSeesAlike(core.life, gone, Stopping, Stopped, name);
    MovingSeesAlike(core.life, gone, Stopped, name);
  }

  lemma RestartingCounts(c: Config, s: State, restarted: string, now: real, name: string)
    ensures var s' := Restarting(c, s, restarted, now).0;
      && (name in s'.records <==> name in s.records) && LastSeenOf(s', name) == LastSeenOf(s, name)
      && CountOf(s', name) == CountOf(s, name) +
           (if name == restarted && name in s.records && HasBudget(c, s.records[name], now) then 1 else 0)
  {
  }

  lemma SweepingSeesAlike(c: Config, s: State, now: real, name: string)
    requires c.heartbeatIntervalS != 0 && WellFormed(s)
    ensures SeesAlike(s, Sweeping(c, s, now), name)
  {
  }

  /** One operation, for the module `name`. */
  lemma StepSees(t: Setting, core: Core, op: Op, name: string)
    requires t.config.heartbeatIntervalS != 0 && WellFormed(core.life)
    ensures var s, s' := core.life, StepCore(t, core, op).life;
      && (name in s'.records <==> name in s.records || Births(op, name))
      && LastSeenOf(s', name) ==
           (if op.Heartbeat? && op.name == name && name in s.records then Some(op.now) else LastSeenOf(s, name))
      && CountOf(s', name) == CountOf(s, name) + (if Records(t, s, op, name) then 1 else 0)
  {
    match op {
      case Register(n, _) => DrivingBirths(core.life, n, name);
      case Deregister(n) => DeregisteringSeesAlike(core, n, name);
      case MarkLost(n) => MovingSeesAlike(core.life, n, Failed, name);
      case Restart(n, now) => RestartingCounts(t.config, core.life, n, now, name);
      case HandleFailure(n, now) => RestartingCounts(t.config, core.life, n, now, name);
      case Sweep(now) => SweepingSeesAlike(t.config, core.life, now, name);
      case Move(n, dst) => MovingSeesAlike(core.life, n, dst, name);
      case _ =>
    }
  }

  // ---- runs -------------------------------------------------------------------------

  /** In every run a module is tracked exactly if it was born, and its record shows the time of its
      last heartbeat, or none if it never beat. */
  lemma {:induction false} LastSeenIsLastBeat(t: Setting, ops: seq<Op>, name: string)
    requires t.config.heartbeatIntervalS != 0
    ensures var s := Run(t, ops).core.life;
      (name in s.records <==> IsBorn(ops, name)) && LastSeenOf(s, name) == LastBeat(ops, name)
  {
    if ops != [] {
      LastSeenIsLastBeat(t, ops[..|ops| - 1], name);
      StepSees(t, Run(t, ops[..|ops| - 1]).core, ops[|ops| - 1], name);
    }
  }

  lemma StepNames(t: Setting, core: Core, op: Op)
    requires t.config.heartbeatIntervalS != 0 && WellFormed(core.life)
    ensures StepCore(t, core, op).life.names == core.life.names +
      (if (op.Track? || op.Register?) && op.name != "" && op.name !in core.life.records then [op.name] else [])
  {
  }

  /** The modules are kept in the order of their births, in which a sweep visits them. */
  lemma {:induction false} NamesAreInBirthOrder(t: Setting, ops: seq<Op>)
    requires t.config.heartbeatIntervalS != 0
    ensures Run(t, ops).core.life.names == BirthOrder(ops)
  {
    if ops != [] {
      var before, op := ops[..|ops| - 1], ops[|ops| - 1];
      NamesAreInBirthOrder(t, before);
      StepNames(t, Run(t, before).core, op);
      if op.Track? || op.Register? {
        LastSeenIsLastBeat(t, before, op.name);
      }
    }
  }

  lemma {:induction false} CountIsRestarts(t: Setting, ops: seq<Op>, name: string)
    requires t.config.heartbeatIntervalS != 0
    ensures CountOf(Run(t, ops).core.life, name) == |RestartsOf(Run(t, ops), name)|
  {
    if ops != [] {
      CountIsRestarts(t, ops[..|ops| - 1], name);
      StepSees(t, Run(t, ops[..|ops| - 1]).core, ops[|ops| - 1], name);
    }
  }

  /** What a sweep at `now` makes of a module in state `before` that was last heard from at `seen`: a
      live one fails if that is the threshold's worth of intervals ago, is healthy if it is less than
      one fewer, and degraded in between. One that was never heard from, or is not live, is left alone. */
  ghost predicate IsSweptTo(c: Config, before: ModuleState, seen: Option<real>, now: real, after: ModuleState) {
    var interval, dead := c.heartbeatIntervalS as real, c.heartbeatDeadThreshold;
    if before in {Healthy, Degraded} && seen.Some? then
      && (after == Failed <==> now - seen.value >= interval * dead as real)
      && (after == Healthy <==> now - seen.value < interval * (dead - 1) as real)
      && after in {Failed, Healthy, Degraded}
    else after == before
  }

  lemma SweepingFinds(c: Config, s: State, now: real, name: string)
    requires 0 < c.heartbeatIntervalS && WellFormed(s)
    ensures IsSweptTo(c, StateOf(s, name), LastSeenOf(s, name), now, StateOf(Sweeping(c, s, now), name))
  {
    if name in s.records && s.records[name].state in {Healthy, Degraded} && s.records[name].lastSeen.Some? {
      LivenessIsRecency(c, s.records[name], now);
    }
  }

  /** What a sweep at the end of any run makes of a module is decided by its last heartbeat. */
  lemma SweepsByLastBeat(t: Setting, ops: seq<Op>, name: string, now: real)
    requires 0 < t.config.heartbeatIntervalS
    ensures IsSweptTo(t.config, StateOf(Run(t, ops).core.life, name), LastBeat(ops, name), now,
                      StateOf(Run(t, ops + [Op.Sweep(now)]).core.life, name))
  {
    RunSnoc(t, ops, Op.Sweep(now));
    LastSeenIsLastBeat(t, ops, name);
    SweepingFinds(t.config, Run(t, ops).core.life, now, name);
  }

  /** A module that is registered, made healthy and heard from once. */
  function Lively(name: string, entry: Entry, beat: real): seq<Op> {
    [Op.Register(name, entry)] + [Op.Move(name, Healthy)] + [Op.Heartbeat(name, beat)]
  }

  lemma RegisteredFirst(t: Setting, name: string, entry: Entry)
    requires t.config.heartbeatIntervalS != 0 && name != ""
    ensures var s := Run(t, [Op.Register(name, entry)]).core.life; name in s.records && StateOf(s, name) == Registered
  {
    RunSnoc(t, [], Op.Register(name, entry));
    assert [] + [Op.Register(name, entry)] == [Op.Register(name, entry)];
    RegisterIs(Core(INITIAL, map[]), name, entry);
  }

  lemma BeatIsLast(ops: seq<Op>, name: string, beat: real)
    requires IsBorn(ops, name)
    ensures LastBeat(ops + [Op.Heartbeat(name, beat)], name) == Some(beat)
  {
    assert (ops + [Op.Heartbeat(name, beat)])[..|ops|] == ops;
  }

  lemma BornSnoc(ops: seq<Op>, op: Op, name: string)
    ensures IsBorn(ops + [op], name) <==> IsBorn(ops, name) || Births(op, name)
  {
    assert (ops + [op])[..|ops|] == ops;
  }

  lemma LivelyIsHealthy(t: Setting, name: string, entry: Entry, beat: real)
    requires t.config.heartbeatIntervalS != 0 && name != ""
    ensures StateOf(Run(t, Lively(name, entry, beat)).core.life, name) == Healthy
    ensures LastBeat(Lively(name, entry, beat), name) == Some(beat)
  {
    var registered := [Op.Register(name, entry)];
    RegisteredFirst(t, name, entry);
    HealthyNext(t, registered, name);
    BeatKeepsState(t, registered + [Op.Move(name, Healthy)], name, beat);
    BornSnoc([], Op.Register(name, entry), name);
    assert [] + registered == registered;
    BornSnoc(registered, Op.Move(name, Healthy), name);
    BeatIsLast(registered + [Op.Move(name, Healthy)], name, beat);
  }

  /** A dead module is found: after a last heartbeat the threshold's worth of intervals ago, the next
      sweep fails it. */
  lemma SilenceIsFound(t: Setting, name: string, entry: Entry, beat: real, now: real)
    requires 0 < t.config.heartbeatIntervalS && name != ""
    requires now - beat >= t.config.heartbeatIntervalS as real * t.config.heartbeatDeadThreshold as real
    ensures var ops := Lively(name, entry, beat);
      && StateOf(Run(t, ops).core.life, name) == Healthy
      && StateOf(Run(t, ops + [Op.Sweep(now)]).core.life, name) == Failed
  {
    LivelyIsHealthy(t, name, entry, beat);
    SweepsByLastBeat(t, Lively(name, entry, beat), name, now);
  }

  lemma HealthyNext(t: Setting, ops: seq<Op>, name: string)
    requires t.config.heartbeatIntervalS != 0 && name in Run(t, ops).core.life.records
    requires StateOf(Run(t, ops).core.life, name) == Registered
    ensures StateOf(Run(t, ops + [Op.Move(name, Healthy)]).core.life, name) == Healthy
  {
    RunSnoc(t, ops, Op.Move(name, Healthy));
  }

  lemma BeatKeepsState(t: Setting, ops: seq<Op>, name: string, now: real)
    requires t.config.heartbeatIntervalS != 0
    ensures StateOf(Run(t, ops + [Op.Heartbeat(name, now)]).core.life, name) == StateOf(Run(t, ops).core.life, name)
  {
    RunSnoc(t, ops, Op.Heartbeat(name, now));
  }
}
