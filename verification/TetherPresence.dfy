/** The PRESENT / FRINGE / ABSENT machine, and its state as a function of the whole history. */
module TetherPresence {
  import opened Tether

  /** One tick as the machine sees it. */
  datatype Observation = Missed | Weak | Near

  datatype PresenceState = PresenceState(state: Presence, missed: nat, recovering: nat)

  const INITIAL := PresenceState(Present, 0, 0)

  function Observe(cfg: PresenceConfig, smoothed: real, seen: bool): Observation {
    if !seen then Missed else if smoothed >= cfg.nearThreshold then Near else Weak
  }

  function Tick(cfg: PresenceConfig, s: PresenceState, o: Observation): PresenceState {
    match o
    case Missed =>
      var missed := s.missed + 1;
      var state := if missed >= cfg.absentTicks then Absent else if s.state == Present then Fringe else s.state;
      PresenceState(state, missed, 0)
    case Weak => PresenceState(if s.state == Absent then Absent else Fringe, 0, 0)
    case Near =>
      if s.state == Absent && s.recovering + 1 < cfg.recoverTicks then PresenceState(Absent, 0, s.recovering + 1)
      else PresenceState(Present, 0, 0)
  }

  function Run(cfg: PresenceConfig, h: seq<Observation>): PresenceState {
    if h == [] then INITIAL else Tick(cfg, Run(cfg, h[..|h| - 1]), h[|h| - 1])
  }

  // ---- the history specification ----------------------------------------------------

  /** The length of the run of `o` that ends the history. */
  ghost function Trailing(o: Observation, h: seq<Observation>): (n: nat)
    ensures n <= |h|
  {
    if h == [] || h[|h| - 1] != o then 0 else 1 + Trailing(o, h[..|h| - 1])
  }

  /** A tick count of zero or less acts as one. */
  ghost function AtLeastOne(n: int): nat {
    if n < 1 then 1 else n
  }

  /** Some prefix ended a long enough run of misses, and no long enough run of near ticks has
      completed since. */
  ghost predicate IsAbsent(cfg: PresenceConfig, h: seq<Observation>) {
    exists i: nat :: LostAt(cfg, h, i) && NotRecoveredSince(cfg, h, i)
  }

  ghost predicate LostAt(cfg: PresenceConfig, h: seq<Observation>, i: nat) {
    i <= |h| && Trailing(Missed, h[..i]) >= AtLeastOne(cfg.absentTicks)
  }

  ghost predicate NotRecoveredSince(cfg: PresenceConfig, h: seq<Observation>, i: nat) {
    forall j :: i < j <= |h| ==> Trailing(Near, h[..j]) < AtLeastOne(cfg.recoverTicks)
  }

  ghost function PresenceOf(cfg: PresenceConfig, h: seq<Observation>): Presence {
    if IsAbsent(cfg, h) then Absent
    else if h == [] || h[|h| - 1] == Near then Present
    else Fringe
  }

  lemma SnocPrefixes(h: seq<Observation>, o: Observation)
    ensures forall j :: 0 <= j <= |h| ==> (h + [o])[..j] == h[..j]
    ensures (h + [o])[..|h| + 1] == h + [o]
  {
  }

  lemma AbsentBefore(cfg: PresenceConfig, h: seq<Observation>, o: Observation, i: nat)
    requires i <= |h| && LostAt(cfg, h + [o], i) && NotRecoveredSince(cfg, h + [o], i)
    ensures IsAbsent(cfg, h) && (o == Near ==> Trailing(Near, h) + 1 < AtLeastOne(cfg.recoverTicks))
  {
    var h' := h + [o];
    SnocPrefixes(h, o);
    assert h'[..|h'| - 1] == h;
    assert LostAt(cfg, h, i) && NotRecoveredSince(cfg, h, i);
    assert Trailing(Near, h'[..|h| + 1]) < AtLeastOne(cfg.recoverTicks);
  }

  lemma AbsentAfter(cfg: PresenceConfig, h: seq<Observation>, o: Observation, i: nat)
    requires LostAt(cfg, h, i) && NotRecoveredSince(cfg, h, i)
    requires o == Near ==> Trailing(Near, h) + 1 < AtLeastOne(cfg.recoverTicks)
    ensures IsAbsent(cfg, h + [o])
  {
    SnocPrefixes(h, o);
    assert LostAt(cfg, h + [o], i) && NotRecoveredSince(cfg, h + [o], i);
  }

  /** How one more tick changes absence. */
  lemma AbsentStep(cfg: PresenceConfig, h: seq<Observation>, o: Observation)
    ensures IsAbsent(cfg, h + [o]) <==>
      match o
      case Missed => IsAbsent(cfg, h) || Trailing(Missed, h) + 1 >= AtLeastOne(cfg.absentTicks)
      case Weak => IsAbsent(cfg, h)
      case Near => IsAbsent(cfg, h) && Trailing(Near, h) + 1 < AtLeastOne(cfg.recoverTicks)
  {
    var h' := h + [o];
    SnocPrefixes(h, o);
    assert h'[..|h|] == h;
    if IsAbsent(cfg, h') {
      var i: nat :| LostAt(cfg, h', i) && NotRecoveredSince(cfg, h', i);
      if i <= |h| {
        AbsentBefore(cfg, h, o, i);
      }
    }
    if IsAbsent(cfg, h) && (o == Near ==> Trailing(Near, h) + 1 < AtLeastOne(cfg.recoverTicks)) {
      var i: nat :| LostAt(cfg, h, i) && NotRecoveredSince(cfg, h, i);
      AbsentAfter(cfg, h, o, i);
    }
    if o == Missed && Trailing(Missed, h) + 1 >= AtLeastOne(cfg.absentTicks) {
      assert LostAt(cfg, h', |h'|) && NotRecoveredSince(cfg, h', |h'|);
    }
  }

  /** The machine's state and both counters are functions of the whole history. */
  lemma {:induction false} RunIsHistory(cfg: PresenceConfig, h: seq<Observation>)
    ensures Run(cfg, h) == PresenceState(PresenceOf(cfg, h), Trailing(Missed, h),
                                         if IsAbsent(cfg, h) then Trailing(Near, h) else 0)
  {
    if h == [] {
      assert !IsAbsent(cfg, h);
    } else {
      var before, o := h[..|h| - 1], h[|h| - 1];
      RunIsHistory(cfg, before);
      assert before + [o] == h;
      AbsentStep(cfg, before, o);
    }
  }

  // ---- the machine ------------------------------------------------------------------

  class PresenceMachine {
    const cfg: PresenceConfig
    var state: Presence
    var ticksMissed: nat
    var ticksRecovering: nat

    ghost function State(): PresenceState
      reads this
    {
      PresenceState(state, ticksMissed, ticksRecovering)
    }

    constructor (c: PresenceConfig)
      ensures cfg == c && State() == INITIAL
    {
      cfg, state, ticksMissed, ticksRecovering := c, Present, 0, 0;
    }

    method TickOnce(smoothed: real, seen: bool) returns (now: Presence)
      modifies this
      ensures State() == Tick(cfg, old(State()), Observe(cfg, smoothed, seen)) && now == state
    {
      if !seen {
        ticksMissed := ticksMissed + 1;
        ticksRecovering := 0;
        if ticksMissed >= cfg.absentTicks {
          state := Absent;
        } else if state == Present {
          state := Fringe;
        }
        return state;
      }
      ticksMissed := 0;
      var near := smoothed >= cfg.nearThreshold;
      if !near {
        ticksRecovering := 0;
        if state != Absent {
          state := Fringe;
        }
        return state;
      }
      if state == Absent {
        ticksRecovering := ticksRecovering + 1;
        if ticksRecovering >= cfg.recoverTicks {
          state := Present;
          ticksRecovering := 0;
        }
      } else {
        state := Present;
        ticksRecovering := 0;
      }
      now := state;
    }
  }
}
