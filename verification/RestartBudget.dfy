/** The rolling-hour cap on restarts, over runs: what the pruned list of a record still knows. */
module RestartBudget {
  import opened Options
  import opened Modules
  import opened Lifecycle
  import opened Registry
  import opened Supervisor
  import opened LifecycleRuns

  function TimeOf(op: Op): Option<real> {
    if op.Restart? || op.HandleFailure? || op.Heartbeat? || op.Sweep? then Some(op.now) else None
  }

  /** No operation reads the clock later than `now`. */
  ghost predicate NoneAfter(ops: seq<Op>, now: real) {
    forall i :: 0 <= i < |ops| && TimeOf(ops[i]).Some? ==> TimeOf(ops[i]).value <= now
  }

  /** The clock never goes back. */
  ghost predicate Chronological(ops: seq<Op>) {
    forall i :: 0 <= i < |ops| && TimeOf(ops[i]).Some? ==> NoneAfter(ops[..i], TimeOf(ops[i]).value)
  }

  /** The restarts in the hour that begins at `start`. */
  function Within(times: seq<real>, start: real): nat {
    if times == [] then 0 else
      var n := |times| - 1;
      Within(times[..n], start) + (if start <= times[n] < start + 3600.0 then 1 else 0)
  }

  function KeptOf(s: State, name: string): seq<real> {
    if name in s.records then s.records[name].restartTimes else []
  }

  // ---- pruning ----------------------------------------------------------------------

  lemma RecentSnoc(times: seq<real>, t: real, now: real)
    ensures Recent(times + [t], now) == Recent(times, now) + (if now - t < 3600.0 then [t] else [])
  {
    assert (times + [t])[..|times|] == times;
  }

  /** Pruning at one time does not show in what is pruned later. */
  lemma {:induction false} PruningTwice(times: seq<real>, earlier: real, now: real)
    requires earlier <= now
    ensures Recent(Recent(times, earlier), now) == Recent(times, now)
  {
    if times != [] {
      var n := |times| - 1;
      var kept := Recent(times[..n], earlier);
      PruningTwice(times[..n], earlier, now);
      RecentSnoc(kept, times[n], now);
      assert kept + [] == kept && Recent(kept, now) + [] == Recent(kept, now);
    }
  }

  /** A restart attempt on the pruned list and on the whole one. */
  lemma PruningStep(kept: seq<real>, all: seq<real>, more: seq<real>, earlier: real, now: real)
    requires earlier <= now && Recent(kept, earlier) == Recent(all, earlier)
    requires more == [] || more == [earlier]
    ensures Recent(Recent(kept, earlier) + more, now) == Recent(all + more, now)
  {
    PruningTwice(kept, earlier, now);
    PruningTwice(all, earlier, now);
    var pruned := Recent(kept, earlier);
    if more == [] {
      assert pruned + [] == pruned && all + [] == all;
    } else {
      RecentSnoc(pruned, earlier, now);
      RecentSnoc(all, earlier, now);
    }
  }

  lemma {:induction false} WindowIsRecent(times: seq<real>, start: real, now: real)
    requires start <= now < start + 3600.0
    ensures Within(times, start) <= |Recent(times, now)|
  {
    if times != [] {
      WindowIsRecent(times[..|times| - 1], start, now);
    }
  }

  // ---- one operation ----------------------------------------------------------------

  /** Whether an operation tries to restart the module, and so prunes its list. */
  predicate Tries(t: Setting, s: State, op: Op, name: string) {
    && (op.Restart? || (op.HandleFailure? && MayRestart(t.specs, s, name)))
    && op.name == name && name in s.records
  }

  lemma RegistryKeeps(core: Core, n: string, entry: Entry, name: string)
    ensures KeptOf(Registering(core, n, entry).0.life, name) == KeptOf(core.life, name)
    ensures KeptOf(Deregistering(core, n).0.life, name) == KeptOf(core.life, name)
    ensures KeptOf(MarkingLost(core, n).0.life, name) == KeptOf(core.life, name)
  {
    assert KeptOf(DrivingRegister(core.life, n).0, name) == KeptOf(core.life, name);
    assert KeptOf(MovingTwice(core.life, n, Stopping, Stopped).0, name) == KeptOf(core.life, name);
  }

  lemma OthersKeep(t: Setting, core: Core, op: Op, name: string)
    requires t.config.heartbeatIntervalS != 0 && WellFormed(core.life) && !Tries(t, core.life, op, name)
    ensures KeptOf(StepCore(t, core, op).life, name) == KeptOf(core.life, name)
  {
    match op {
      case Register(n, entry) => RegistryKeeps(core, n, entry, name);
      case Deregister(n) => RegistryKeeps(core, n, Entry("", {}, {}, []), name);
      case MarkLost(n) => RegistryKeeps(core, n, Entry("", {}, {}, []), name);
      case _ =>
    }
  }

  lemma StepKeeps(t: Setting, p: Past, op: Op, name: string)
    requires t.config.heartbeatIntervalS != 0 && WellFormed(p.core.life)
    requires !Tries(t, p.core.life, op, name)
    ensures KeptOf(Step(t, p, op).core.life, name) == KeptOf(p.core.life, name)
    ensures RestartsOf(Step(t, p, op), name) == RestartsOf(p, name)
  {
    OthersKeep(t, p.core, op, name);
    assert (op.Restart? || op.HandleFailure?) && op.name == name ==> !Records(t, p.core.life, op, op.name);
  }

  lemma StepPrunes(t: Setting, p: Past, op: Op, name: string)
    requires t.config.heartbeatIntervalS != 0 && WellFormed(p.core.life)
    requires Tries(t, p.core.life, op, name)
    ensures var more := if HasBudget(t.config, p.core.life.records[name], op.now) then [op.now] else [];
      && KeptOf(Step(t, p, op).core.life, name) == Recent(KeptOf(p.core.life, name), op.now) + more
      && RestartsOf(Step(t, p, op), name) == RestartsOf(p, name) + more
  {
  }

  // ---- runs -------------------------------------------------------------------------

  lemma ChronologicalSnoc(ops: seq<Op>, now: real)
    requires ops != [] && Chronological(ops) && NoneAfter(ops, now)
    ensures var before, op := ops[..|ops| - 1], ops[|ops| - 1];
      && Chronological(before) && NoneAfter(before, now)
      && (TimeOf(op).Some? ==> TimeOf(op).value <= now && NoneAfter(before, TimeOf(op).value))
  {
    var before := ops[..|ops| - 1];
    assert forall i :: 0 <= i < |before| ==> before[i] == ops[i] && before[..i] == ops[..i];
  }

  /** The forgotten restarts do not matter: the last hour of the pruned list is the last hour of
      all restarts there ever were. */
  lemma {:induction false} PruningLosesNothing(t: Setting, ops: seq<Op>, name: string, now: real)
    requires t.config.heartbeatIntervalS != 0 && Chronological(ops) && NoneAfter(ops, now)
    ensures Recent(KeptOf(Run(t, ops).core.life, name), now) == Recent(RestartsOf(Run(t, ops), name), now)
  {
    if ops != [] {
      var before, op := ops[..|ops| - 1], ops[|ops| - 1];
      var p := Run(t, before);
      ChronologicalSnoc(ops, now);
      if Tries(t, p.core.life, op, name) {
        var more := if HasBudget(t.config, p.core.life.records[name], op.now) then [op.now] else [];
        StepPrunes(t, p, op, name);
        PruningLosesNothing(t, before, name, op.now);
        PruningStep(KeptOf(p.core.life, name), RestartsOf(p, name), more, op.now, now);
      } else {
        StepKeeps(t, p, op, name);
        PruningLosesNothing(t, before, name, now);
      }
    }
  }

  /** Whether there is budget is decided on the pruned list as on all restarts. */
  lemma BudgetIsHistory(t: Setting, ops: seq<Op>, name: string, now: real)
    requires t.config.heartbeatIntervalS != 0 && Chronological(ops) && NoneAfter(ops, now)
    ensures var p := Run(t, ops);
      name in p.core.life.records ==>
        (HasBudget(t.config, p.core.life.records[name], now) <==>
          |Recent(RestartsOf(p, name), now)| < t.config.restartMaxPerHour)
  {
    PruningLosesNothing(t, ops, name, now);
  }

  /** No hour of any run with a clock that never goes back holds more than
      `restart_max_per_hour` restarts of a module. */
  lemma {:induction false} RollingHourCap(t: Setting, ops: seq<Op>, name: string, start: real)
    requires t.config.heartbeatIntervalS != 0 && Chronological(ops) && 0 <= t.config.restartMaxPerHour
    ensures Within(RestartsOf(Run(t, ops), name), start) <= t.config.restartMaxPerHour
  {
    if ops != [] {
      var before, op := ops[..|ops| - 1], ops[|ops| - 1];
      var p := Run(t, before);
      assert Chronological(before) by {
        assert forall i :: 0 <= i < |before| ==> before[i] == ops[i] && before[..i] == ops[..i];
      }
      RollingHourCap(t, before, name, start);
      if Tries(t, p.core.life, op, name) && HasBudget(t.config, p.core.life.records[name], op.now) {
        StepPrunes(t, p, op, name);
        WithinSnoc(RestartsOf(p, name), op.now, start);
        assert TimeOf(op) == Some(op.now);
        if start <= op.now < start + 3600.0 {
          BudgetIsHistory(t, before, name, op.now);
          WindowIsRecent(RestartsOf(p, name), start, op.now);
        }
      } else if Tries(t, p.core.life, op, name) {
        StepPrunes(t, p, op, name);
        assert RestartsOf(p, name) + [] == RestartsOf(p, name);
      } else {
        StepKeeps(t, p, op, name);
      }
    }
  }

  lemma WithinSnoc(times: seq<real>, t: real, start: real)
    ensures Within(times + [t], start) ==
      Within(times, start) + (if start <= t < start + 3600.0 then 1 else 0)
  {
    assert (times + [t])[..|times|] == times;
  }
}
