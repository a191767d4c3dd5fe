/** The lifecycle manager: the state machine of a module, its liveness and its restart budget. */
module Lifecycle {
  import opened Options
  import opened Modules

  const RESTART_WINDOW_S: real := 3600.0

  predicate Allowed(src: ModuleState, dst: ModuleState) {
    match src
    case Unregistered => dst == Starting
    case Starting => dst in {Registered, Failed}
    case Registered => dst in {Healthy, Failed, Stopping}
    case Healthy => dst in {Degraded, Stopping, Failed}
    case Degraded => dst in {Healthy, Stopping, Failed}
    case Stopping => dst in {Stopped, Failed}
    case Failed => dst in {Starting, PermanentlyFailed}
    case Stopped => false
    case PermanentlyFailed => false
  }

  /** The allowed transitions, one by one. */
  lemma AllowedIs(src: ModuleState, dst: ModuleState)
    ensures Allowed(src, dst) <==> (src, dst) in {
      (Unregistered, Starting), (Starting, Registered), (Starting, Failed),
      (Registered, Healthy), (Registered, Failed), (Registered, Stopping),
      (Healthy, Degraded), (Degraded, Healthy), (Healthy, Stopping), (Degraded, Stopping),
      (Healthy, Failed), (Degraded, Failed), (Stopping, Stopped), (Stopping, Failed),
      (Failed, Starting), (Failed, PermanentlyFailed)}
  {
  }

  // ---- the state changes ------------------------------------------------------------

  function Tracking(s: State, name: string): (State, Option<Error>) {
    if name == "" || name in s.records then (s, Some(ValueError))
    else (s.(names := s.names + [name], records := s.records[name := NEW_RECORD]), None)
  }

  function Moving(s: State, name: string, dst: ModuleState): (State, Option<Error>) {
    if name !in s.records then (s, Some(KeyError))
    else
      var record := s.records[name];
      if !Allowed(record.state, dst) then (s, Some(InvalidTransition))
      else (s.(records := s.records[name := record.(state := dst)],
               events := s.events + [StateChanged(name, record.state, dst)]), None)
  }

  function Beating(s: State, name: string, now: real): (State, Option<Error>) {
    if name !in s.records then (s, Some(KeyError))
    else (s.(records := s.records[name := s.records[name].(lastSeen := Some(now))]), None)
  }

  /** Floor division, as in the source. */
  function Missed(lastSeen: real, now: real, intervalS: int): int
    requires intervalS != 0
  {
    ((now - lastSeen) / (intervalS as real)).Floor
  }

  function Desired(c: Config, missed: int): ModuleState {
    if missed >= c.heartbeatDeadThreshold then Failed
    else if missed >= c.heartbeatDeadThreshold - 1 then Degraded
    else Healthy
  }

  predicate IsLive(s: ModuleState) {
    s == Healthy || s == Degraded
  }

  /** What a sweep makes of one record. */
  function Swept(c: Config, record: Record, now: real): Record
    requires c.heartbeatIntervalS != 0
  {
    if IsLive(record.state) && record.lastSeen.Some? then
      record.(state := Desired(c, Missed(record.lastSeen.value, now, c.heartbeatIntervalS)))
    else record
  }

  /** A sweep asks for no transition but along an allowed edge. */
  lemma SweptIsAllowed(c: Config, record: Record, now: real)
    requires c.heartbeatIntervalS != 0
    ensures var dst := Swept(c, record, now).state; dst == record.state || Allowed(record.state, dst)
  {
  }

  function Change(name: string, before: Record, after: Record): seq<Event> {
    if before.state == after.state then [] else [StateChanged(name, before.state, after.state)]
  }

  /** The events of a sweep of the first `k` names: one for each changed state, in order. */
  function Changes(c: Config, names: seq<string>, records: map<string, Record>, now: real, k: nat): seq<Event>
    requires c.heartbeatIntervalS != 0
    requires k <= |names| && forall i :: 0 <= i < |names| ==> names[i] in records
  {
    if k == 0 then [] else
      var record := records[names[k - 1]];
      Changes(c, names, records, now, k - 1) + Change(names[k - 1], record, Swept(c, record, now))
  }

  predicate Distinct<T(==)>(items: seq<T>) {
    forall i, j :: 0 <= i < j < |items| ==> items[i] != items[j]
  }

  ghost predicate WellFormed(s: State) {
    && Distinct(s.names)
    && (forall name :: name in s.names <==> name in s.records)
  }

  ghost function Sweeping(c: Config, s: State, now: real): State
    requires c.heartbeatIntervalS != 0 && WellFormed(s)
  {
    s.(records := map name | name in s.records :: Swept(c, s.records[name], now),
       events := s.events + Changes(c, s.names, s.records, now, |s.names|))
  }

  /** A sweep of `s` that has seen the first `k` modules and made `s'` of it. */
  ghost predicate Midway(c: Config, s: State, now: real, k: nat, s': State)
    requires c.heartbeatIntervalS != 0 && WellFormed(s) && k <= |s.names|
  {
    && s'.names == s.names && s'.records.Keys == s.records.Keys
    && (forall j :: 0 <= j < k ==> s'.records[s.names[j]] == Swept(c, s.records[s.names[j]], now))
    && (forall j :: k <= j < |s.names| ==> s'.records[s.names[j]] == s.records[s.names[j]])
    && s'.events == s.events + Changes(c, s.names, s.records, now, k)
  }

  function SweepOne(c: Config, s: State, name: string, now: real): State
    requires c.heartbeatIntervalS != 0 && name in s.records
  {
    var swept := Swept(c, s.records[name], now);
    s.(records := s.records[name := swept], events := s.events + Change(name, s.records[name], swept))
  }

  lemma SweepAdvances(c: Config, s: State, now: real, k: nat, s': State)
    requires c.heartbeatIntervalS != 0 && WellFormed(s) && k < |s.names| && Midway(c, s, now, k, s')
    ensures s.names[k] in s'.records && Midway(c, s, now, k + 1, SweepOne(c, s', s.names[k], now))
  {
  }

  lemma SweepEnds(c: Config, s: State, now: real, s': State)
    requires c.heartbeatIntervalS != 0 && WellFormed(s) && Midway(c, s, now, |s.names|, s')
    ensures s' == Sweeping(c, s, now)
  {
    forall name | name in s.records ensures s'.records[name] == Swept(c, s.records[name], now) {
      var j :| 0 <= j < |s.names| && s.names[j] == name;
    }
  }

  /** The restarts of the hour before `now`. */
  function Recent(times: seq<real>, now: real): seq<real> {
    if times == [] then [] else
      var n := |times| - 1;
      Recent(times[..n], now) + (if now - times[n] < RESTART_WINDOW_S then [times[n]] else [])
  }

  /** Whether the restart budget of a module has room. */
  predicate HasBudget(c: Config, record: Record, now: real) {
    |Recent(record.restartTimes, now)| < c.restartMaxPerHour
  }

  /** The restart is recorded before the transition is tried. */
  function Restarting(c: Config, s: State, name: string, now: real): (State, Option<Error>) {
    if name !in s.records then (s, Some(KeyError))
    else
      var record := s.records[name];
      var kept := Recent(record.restartTimes, now);
      if !HasBudget(c, record, now) then
        Moving(s.(records := s.records[name := record.(restartTimes := kept)]), name, PermanentlyFailed)
      else
        var counted := record.(restartTimes := kept + [now], restartCount := record.restartCount + 1);
        Moving(s.(records := s.records[name := counted]), name, Starting)
  }

  // ---- the object -------------------------------------------------------------------

  class LifecycleManager {
    const config: Config
    const broker: EventLog
    var names: seq<string>
    var records: map<string, Record>

    ghost function Abstract(): State
      reads this, broker
    {
      State(names, records, broker.published)
    }

    ghost predicate Valid()
      reads this, broker
    {
      config.heartbeatIntervalS != 0 && WellFormed(Abstract())
    }

    constructor (config: Config, broker: EventLog)
      requires config.heartbeatIntervalS != 0
      ensures Valid() && this.config == config && this.broker == broker
      ensures Abstract() == State([], map[], broker.published)
    {
      this.config := config;
      this.broker := broker;
      names, records := [], map[];
    }

    method Track(name: string) returns (error: Option<Error>)
      requires Valid()
      modifies this
      ensures Valid() && (Abstract(), error) == Tracking(old(Abstract()), name)
    {
      if name == "" || name in records {
        return Some(ValueError);
      }
      names := names + [name];
      records := records[name := NEW_RECORD];
      error := None;
    }

    method Transition(name: string, dst: ModuleState) returns (error: Option<Error>)
      requires Valid()
      modifies this, broker
      ensures Valid() && (Abstract(), error) == Moving(old(Abstract()), name, dst)
    {
      if name !in records {
        return Some(KeyError);
      }
      var src := records[name].state;
      if !Allowed(src, dst) {
        return Some(InvalidTransition);
      }
      records := records[name := records[name].(state := dst)];
      broker.Publish(StateChanged(name, src, dst));
      error := None;
    }

    method Heartbeat(name: string, now: real) returns (error: Option<Error>)
      requires Valid()
      modifies this
      ensures Valid() && (Abstract(), error) == Beating(old(Abstract()), name, now)
    {
      if name !in records {
        return Some(KeyError);
      }
      records := records[name := records[name].(lastSeen := Some(now))];
      error := None;
    }

    /** The body of the loop of SweepOnce; the transition it asks for is never refused. */
    method SweepRecord(name: string, now: real)
      requires Valid() && name in records
      modifies this, broker
      ensures Valid() && Abstract() == SweepOne(config, old(Abstract()), name, now)
    {
      var record := records[name];
      if IsLive(record.state) && record.lastSeen.Some? {
        var dst := Desired(config, Missed(record.lastSeen.value, now, config.heartbeatIntervalS));
        if dst != record.state {
          SweptIsAllowed(config, record, now);
          var error := Transition(name, dst);
          return;
        }
      }
      assert records == records[name := record];
    }

    /** One pass over the records. */
    method SweepOnce(now: real)
      requires Valid()
      modifies this, broker
      ensures Valid() && Abstract() == Sweeping(config, old(Abstract()), now)
    {
      ghost var was := Abstract();
      for i := 0 to |names|
        invariant Valid() && names == was.names
        invariant Midway(config, was, now, i, Abstract())
      {
        SweepAdvances(config, was, now, i, Abstract());
        SweepRecord(names[i], now);
      }
      SweepEnds(config, was, now, Abstract());
    }

    method Restart(name: string, now: real) returns (error: Option<Error>)
      requires Valid()
      modifies this, broker
      ensures Valid() && (Abstract(), error) == Restarting(config, old(Abstract()), name, now)
    {
      if name !in records {
        return Some(KeyError);
      }
      var record := records[name];
      var kept := Recent(record.restartTimes, now);
      records := records[name := record.(restartTimes := kept)];
      if |kept| >= config.restartMaxPerHour {
        error := Transition(name, PermanentlyFailed);
        return;
      }
      var counted := record.(restartTimes := kept + [now], restartCount := record.restartCount + 1);
      records := records[name := counted];
      assert records == old(records)[name := counted];
      error := Transition(name, Starting);
    }
  }

  // ---- what a sweep does ------------------------------------------------------------

  lemma NoChanges(c: Config, names: seq<string>, records: map<string, Record>, now: real, k: nat)
    requires c.heartbeatIntervalS != 0
    requires k <= |names| && forall i :: 0 <= i < |names| ==> names[i] in records
    requires forall name :: name in records ==> Swept(c, records[name], now) == records[name]
    ensures Changes(c, names, records, now, k) == []
  {
  }

  /** A second sweep at the same time changes nothing and publishes nothing. */
  lemma SweepIsIdempotent(c: Config, s: State, now: real)
    requires c.heartbeatIntervalS != 0 && WellFormed(s)
    ensures WellFormed(Sweeping(c, s, now))
    ensures Sweeping(c, Sweeping(c, s, now), now) == Sweeping(c, s, now)
  {
    var once := Sweeping(c, s, now);
    assert forall name :: name in once.records ==> Swept(c, once.records[name], now) == once.records[name];
    assert Sweeping(c, once, now).records == once.records;
    NoChanges(c, once.names, once.records, now, |once.names|);
  }

  /** With a positive interval, a module that is not failed by a sweep was heard from less than
      `heartbeat_dead_threshold` intervals ago, one that stays healthy less than one fewer. */
  lemma LivenessIsRecency(c: Config, record: Record, now: real)
    requires 0 < c.heartbeatIntervalS && record.state in {Healthy, Degraded} && record.lastSeen.Some?
    ensures var age, interval := now - record.lastSeen.value, c.heartbeatIntervalS as real;
      var dst := Swept(c, record, now).state;
      && (dst == Failed <==> age >= interval * c.heartbeatDeadThreshold as real)
      && (dst == Healthy <==> age < interval * (c.heartbeatDeadThreshold - 1) as real)
  {
    FloorAtLeast(now - record.lastSeen.value, c.heartbeatIntervalS as real, c.heartbeatDeadThreshold);
    FloorAtLeast(now - record.lastSeen.value, c.heartbeatIntervalS as real, c.heartbeatDeadThreshold - 1);
  }

  lemma FloorAtLeast(x: real, y: real, k: int)
    requires 0.0 < y
    ensures (x / y).Floor >= k <==> x >= y * k as real
  {
    var q := x / y;
    assert x == q * y;
    if q >= k as real {
      assert (q - k as real) * y >= 0.0;
    } else {
      assert (k as real - q) * y > 0.0;
    }
  }
}
