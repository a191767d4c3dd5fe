/** The per-tick driver of the TETHER engine: smoothing, presence, classification and escalation
    composed, with the events that each tick emits. */
module TetherMonitor {
  import opened Tether
  import opened TetherEwma
  import P = TetherPresence
  import C = TetherClassifier
  import opened TetherLadder

  datatype Event =
    | PresentEvent(rssi: real)
    | FringeEvent(rssi: real, ticksMissed: int)
    | AbsentEvent(rssi: real, how: Disappearance)
    | SuspiciousEvent(delayedBySec: int)
    | RecoveredEvent(stage: Stage, rssi: real)
    | EscalationEvent(stage: Stage, graceRemainingMs: int)

  /** What a monitor is built from. */
  datatype Config = Config(presence: PresenceConfig, escalation: EscalationConfig, alpha: real)

  datatype MonitorState = MonitorState(
    ewma: EwmaState,
    presence: P.PresenceState,
    classifier: C.ClassifierState,
    ec: EscalationConfig,
    ladder: LadderState,
    last: Presence,
    heightened: bool)

  function Initial(c: Config): MonitorState {
    MonitorState(EwmaState(0.0, false), P.INITIAL, C.INITIAL, c.escalation, NewLadder(c.escalation), Present, false)
  }

  predicate WellFormed(m: MonitorState) {
    C.WellFormed(m.classifier)
  }

  /** Steps 1 to 3 of a tick: smooth, classify, and advance the presence machine. */
  function Sense(c: Config, m: MonitorState, s: Sample): (m': MonitorState)
    requires WellFormed(m)
    ensures WellFormed(m')
  {
    var ewma := if s.seen then EwmaState(Blend(c.alpha, s.rssi, m.ewma), true) else m.ewma;
    var presence := P.Tick(c.presence, m.presence, P.Observe(c.presence, ewma.value, s.seen));
    m.(ewma := ewma,
       classifier := C.Step(m.classifier, C.Reading(ewma.value, s.seen, s.cleanDisconnect)),
       presence := presence,
       last := presence.state)
  }

  /** The ladder that an ABSENT transition arms, from the configuration of that moment. */
  function Armed(m: MonitorState, now: int): LadderState {
    var eff := m.ec.(graceMs := EffectiveGrace(m.ec.graceMs, m.heightened));
    OnAbsent(NewLadder(eff), now, m.classifier.verdict)
  }

  /** What a presence transition from `prev` to `m.last` does and emits. */
  function Transition(m: MonitorState, prev: Presence, now: int): (MonitorState, seq<Event>) {
    if m.last == prev then (m, [])
    else
      match m.last
      case Fringe => (m, [FringeEvent(m.ewma.value, m.presence.missed)])
      case Absent =>
        var how := m.classifier.verdict;
        (m.(ladder := Armed(m, now)),
         if how == InstantDrop
         then [AbsentEvent(m.ewma.value, how)] + [SuspiciousEvent(TruncatedDiv(m.ec.suspiciousDelayMs, 1000))]
         else [AbsentEvent(m.ewma.value, how)])
      case Present =>
        if prev == Absent then (m.(ladder := OnRecovered(m.ladder)), [RecoveredEvent(m.ladder.lastStage, m.ewma.value)])
        else (m, [PresentEvent(m.ewma.value)])
  }

  /** Step 4: while absent, advance the ladder and emit a stage change. */
  function Escalate(m: MonitorState, now: int): (MonitorState, seq<Event>) {
    if m.last == Absent && m.ladder.active then
      var (ladder, d) := Evaluate(m.ladder, now);
      (m.(ladder := ladder),
       if d.changed && d.stage != NoStage then [EscalationEvent(d.stage, d.graceRemainingMs)] else [])
    else (m, [])
  }

  function Step(c: Config, m: MonitorState, s: Sample, now: int): (r: (MonitorState, seq<Event>))
    requires WellFormed(m)
    ensures WellFormed(r.0)
  {
    var (m1, events1) := Transition(Sense(c, m, s), m.last, now);
    var (m2, events2) := Escalate(m1, now);
    (m2, events1 + events2)
  }

  // ---- the monitor ------------------------------------------------------------------

  class Monitor {
    const ewma: Ewma
    const presence: P.PresenceMachine
    const classifier: C.DisappearanceClassifier
    var ec: EscalationConfig
    var ladder: EscalationLadder
    var lastState: Presence
    var heightened: bool

    ghost predicate Valid()
    {
      classifier.Valid()
    }

    ghost function Settings(): Config
      reads this
    {
      Config(presence.cfg, ec, ewma.alpha)
    }

    ghost function State(): MonitorState
      reads this, ewma, presence, classifier, classifier.recent, ladder
    {
      MonitorState(ewma.State(), presence.State(), classifier.State(), ec, ladder.State(), lastState, heightened)
    }

    constructor (c: Config)
      ensures Valid() && Settings() == c && State() == Initial(c)
      ensures fresh(ewma) && fresh(presence) && fresh(classifier) && fresh(classifier.recent) && fresh(ladder)
    {
      ewma := new Ewma(c.alpha);
      presence := new P.PresenceMachine(c.presence);
      classifier := new C.DisappearanceClassifier();
      ec := c.escalation;
      ladder := new EscalationLadder(c.escalation);
      lastState := Present;
      heightened := false;
    }

    /** One tick with a sample: the events to emit. */
    method Tick(s: Sample, now: int) returns (events: seq<Event>)
      requires Valid()
      modifies this, ewma, presence, classifier, classifier.recent, ladder
      ensures Valid() && Settings() == old(Settings())
      ensures ladder == old(ladder) || fresh(ladder)
      ensures (State(), events) == Step(Settings(), old(State()), s, now)
    {
      ghost var before := State();
      var smoothed := ewma.value;
      if s.seen {
        smoothed := ewma.Update(s.rssi);
      }
      classifier.Observe(smoothed, s.seen, s.cleanDisconnect);
      var prev := lastState;
      lastState := presence.TickOnce(smoothed, s.seen);
      ghost var sensed := State();
      assert sensed == Sense(Settings(), before, s);
      events := EmitTransition(prev, smoothed, now);
      var more := EmitEscalation(now);
      events := events + more;
    }

    /** The transition part of a tick. */
    method EmitTransition(prev: Presence, smoothed: real, now: int) returns (events: seq<Event>)
      requires Valid() && smoothed == ewma.value
      modifies this`ladder, ladder
      ensures Valid() && (ladder == old(ladder) || fresh(ladder))
      ensures (State(), events) == Transition(old(State()), prev, now)
    {
      events := [];
      if lastState != prev {
        if lastState == Fringe {
          events := [FringeEvent(smoothed, presence.ticksMissed)];
        } else if lastState == Absent {
          var how := classifier.verdict;
          events := [AbsentEvent(smoothed, how)];
          if how == InstantDrop {
            events := events + [SuspiciousEvent(TruncatedDiv(ec.suspiciousDelayMs, 1000))];
          }
          var eff := ec.(graceMs := EffectiveGrace(ec.graceMs, heightened));
          ladder := new EscalationLadder(eff);
          ladder.Start(now, how);
        } else if prev == Absent {
          events := [RecoveredEvent(ladder.lastStage, smoothed)];
          ladder.Stop();
        } else {
          events := [PresentEvent(smoothed)];
        }
      }
    }

    /** The escalation part of a tick. */
    method EmitEscalation(now: int) returns (events: seq<Event>)
      requires Valid()
      modifies ladder
      ensures Valid()
      ensures (State(), events) == Escalate(old(State()), now)
    {
      events := [];
      if lastState == Absent && ladder.active {
        var d := ladder.EvaluateAt(now);
        if d.changed && d.stage != NoStage {
          events := [EscalationEvent(d.stage, d.graceRemainingMs)];
        }
      }
    }

    method SetL3Armed(armed: bool)
      modifies this`ec
      ensures State() == old(State()).(ec := old(ec).(l3Armed := armed))
    {
      ec := ec.(l3Armed := armed);
    }

    method SetHeightened(on: bool)
      modifies this`heightened
      ensures State() == old(State()).(heightened := on)
    {
      heightened := on;
    }
  }
}
