/** The TETHER monitor as a function of its input history, and two runs compared. */
module TetherHistory {
  import opened Tether
  import opened TetherEwma
  import P = TetherPresence
  import C = TetherClassifier
  import opened TetherLadder
  import opened TetherMonitor
  import opened TetherRuns

  // ---- the components see the whole history -----------------------------------------

  ghost function SeenRssi(h: seq<Input>): seq<real> {
    if h == [] then []
    else
      var before, i := SeenRssi(h[..|h| - 1]), h[|h| - 1];
      if i.TickAt? && i.sample.seen then before + [i.sample.rssi] else before
  }

  /** The smoothed value after the history: the weighted sum of the samples that were seen. */
  ghost function SmoothedBy(c: Config, h: seq<Input>): real {
    if SeenRssi(h) == [] then 0.0 else WeightedSum(c.alpha, SeenRssi(h))
  }

  lemma SmoothedIs(c: Config, h: seq<Input>)
    ensures Smoothed(c.alpha, SeenRssi(h)) == EwmaState(SmoothedBy(c, h), SeenRssi(h) != [])
  {
    if SeenRssi(h) != [] {
      SmoothedIsWeightedSum(c.alpha, SeenRssi(h));
    }
  }

  /** A tick as the presence machine is to see it: missed, or near from the threshold on. */
  ghost function ObservedAs(c: Config, smoothed: real, seen: bool): P.Observation {
    if !seen then P.Missed else if c.presence.nearThreshold <= smoothed then P.Near else P.Weak
  }

  ghost function Observations(c: Config, h: seq<Input>): seq<P.Observation> {
    if h == [] then []
    else
      var before, i := Observations(c, h[..|h| - 1]), h[|h| - 1];
      if i.TickAt? then before + [ObservedAs(c, SmoothedBy(c, h), i.sample.seen)] else before
  }

  ghost function Readings(c: Config, h: seq<Input>): seq<C.Reading> {
    if h == [] then []
    else
      var before, i := Readings(c, h[..|h| - 1]), h[|h| - 1];
      if i.TickAt? then before + [C.Reading(SmoothedBy(c, h), i.sample.seen, i.sample.cleanDisconnect)] else before
  }

  /** Every sensing component of the monitor is that component run over the samples. */
  lemma {:induction false} SensingIsHistory(c: Config, h: seq<Input>)
    ensures var m := Run(c, h);
      && m.ewma == EwmaState(SmoothedBy(c, h), SeenRssi(h) != [])
      && m.presence == P.Run(c.presence, Observations(c, h))
      && m.classifier == C.Run(Readings(c, h))
      && m.last == m.presence.state
  {
    if h != [] {
      var before, i := h[..|h| - 1], h[|h| - 1];
      SensingIsHistory(c, before);
      match i {
        case TickAt(s, now) =>
          SmoothedIs(c, before);
          SmoothedIs(c, h);
          SmoothedSnoc(c.alpha, SeenRssi(before), s.rssi);
          var obs, readings := Observations(c, h), Readings(c, h);
          assert obs[..|obs| - 1] == Observations(c, before);
          assert readings[..|readings| - 1] == Readings(c, before);
          StepSenses(c, Run(c, before), s, now);
        case _ =>
          assert SeenRssi(h) == SeenRssi(before);
      }
    }
  }

  lemma SmoothedSnoc(alpha: real, samples: seq<real>, x: real)
    ensures Smoothed(alpha, samples + [x]) == EwmaState(Blend(alpha, x, Smoothed(alpha, samples)), true)
  {
    assert (samples + [x])[..|samples|] == samples;
  }

  /** The later steps of a tick leave the sensing components alone. */
  lemma StepSenses(c: Config, m: MonitorState, s: Sample, now: int)
    requires WellFormed(m)
    ensures var m', sensed := Step(c, m, s, now).0, Sense(c, m, s);
      m'.ewma == sensed.ewma && m'.presence == sensed.presence && m'.classifier == sensed.classifier
      && m'.last == sensed.last
  {
  }

  lemma AbsentIffHistory(c: Config, h: seq<Input>)
    ensures Run(c, h).last == Absent <==> P.IsAbsent(c.presence, Observations(c, h))
    ensures Run(c, h).classifier.verdict == C.HowLost(Readings(c, h))
  {
    SensingIsHistory(c, h);
    P.RunIsHistory(c.presence, Observations(c, h));
    C.RunIsHistory(Readings(c, h));
  }

  ghost predicate EmitsAbsent(es: seq<Event>) {
    exists i :: 0 <= i < |es| && es[i].AbsentEvent?
  }

  ghost predicate EmitsRecovered(es: seq<Event>) {
    exists i :: 0 <= i < |es| && es[i].RecoveredEvent?
  }

  lemma TransitionEvents(m: MonitorState, prev: Presence, now: int)
    ensures var es := Transition(m, prev, now).1 + Escalate(Transition(m, prev, now).0, now).1;
      && (EmitsAbsent(es) <==> prev != Absent && m.last == Absent)
      && (EmitsRecovered(es) <==> prev == Absent && m.last == Present)
      && (forall e :: e in es && e.AbsentEvent? ==> e.how == m.classifier.verdict)
  {
    var first := Transition(m, prev, now).1;
    var es := first + Escalate(Transition(m, prev, now).0, now).1;
    if first != [] {
      assert es[0] == first[0];
    }
  }

  /** A tick emits ABSENT exactly if the samples up to it are an absence and those before it are
      not, with the verdict that the history fixes; and RECOVERED exactly in the other direction. */
  lemma TickEventsAreHistory(c: Config, h: seq<Input>, s: Sample, now: int)
    ensures var h' := h + [TickAt(s, now)];
      var es := Step(c, Run(c, h), s, now).1;
      var gone, isGone := P.IsAbsent(c.presence, Observations(c, h)), P.IsAbsent(c.presence, Observations(c, h'));
      && (EmitsAbsent(es) <==> !gone && isGone)
      && (EmitsRecovered(es) <==> gone && !isGone)
      && (forall e :: e in es && e.AbsentEvent? ==> e.how == C.HowLost(Readings(c, h')))
  {
    var m, h' := Run(c, h), h + [TickAt(s, now)];
    assert h'[..|h'| - 1] == h;
    AbsentIffHistory(c, h);
    AbsentIffHistory(c, h');
    SensingIsHistory(c, h);
    SenseIsSensed(c, m, s);
    StepSenses(c, m, s, now);
    TransitionEvents(Sense(c, m, s), m.last, now);
  }

  // ---- every event of every tick ----------------------------------------------------

  /** The events of a presence that turned from `was` to what the history makes it. */
  ghost function TurnEvents(c: Config, h: seq<Input>, was: Presence, stage: Stage, delayMs: int): seq<Event> {
    var obs, rssi, how := Observations(c, h), SmoothedBy(c, h), C.HowLost(Readings(c, h));
    var now := P.PresenceOf(c.presence, obs);
    if now == was then []
    else if now == Fringe then [FringeEvent(rssi, P.Trailing(P.Missed, obs))]
    else if now == Present then
      if was == Absent then [RecoveredEvent(stage, rssi)] else [PresentEvent(rssi)]
    else if how == InstantDrop then
      [AbsentEvent(rssi, how), SuspiciousEvent(if delayMs >= 0 then delayMs / 1000 else -(-delayMs / 1000))]
    else [AbsentEvent(rssi, how)]
  }

  /** The time from `now` to the stage after `stage`, if there is one and it is still to come. */
  ghost function WaitAfter(ladder: LadderState, stage: Stage, now: int): nat {
    var l1 := ladder.baseMs + ladder.cfg.graceMs;
    var next := match stage
                case NoStage => l1
                case L1 => l1 + ladder.cfg.l1ToL2Ms
                case L2 => if ladder.cfg.l3Armed then l1 + ladder.cfg.l1ToL2Ms + ladder.cfg.l2ToL3Ms else now
                case L3 => now;
    if next <= now then 0 else next - now
  }

  /** The escalation event, if the stage requested has changed. */
  ghost function StageEvents(ladder: LadderState, before: Stage, now: int): seq<Event> {
    if ladder.active && ladder.lastStage != NoStage && ladder.lastStage != before
    then [EscalationEvent(ladder.lastStage, WaitAfter(ladder, ladder.lastStage, now))]
    else []
  }

  lemma TurnIs(c: Config, h: seq<Input>, m: MonitorState, prev: Presence, now: int)
    requires m.last == P.PresenceOf(c.presence, Observations(c, h)) && m.ewma.value == SmoothedBy(c, h)
    requires m.presence.missed == P.Trailing(P.Missed, Observations(c, h))
    requires m.classifier.verdict == C.HowLost(Readings(c, h))
    ensures Transition(m, prev, now).1 == TurnEvents(c, h, prev, m.ladder.lastStage, m.ec.suspiciousDelayMs)
  {
  }

  lemma EscalationIs(m: MonitorState, now: int)
    requires m.ladder.active == (m.last == Absent)
    ensures Escalate(m, now).1 == StageEvents(Escalate(m, now).0.ladder, m.ladder.lastStage, now)
  {
  }

  /** Every tick emits exactly this: the event of the turn that the history takes at it, with the
      smoothed value and the counters that the history fixes, and after it the escalation, if the
      stage requested changes. A new absence starts from no stage. */
  lemma TickEmits(c: Config, h: seq<Input>, s: Sample, now: int)
    requires NondecreasingClock(h + [TickAt(s, now)])
    ensures var m, h' := Run(c, h), h + [TickAt(s, now)];
      var was, become := P.PresenceOf(c.presence, Observations(c, h)), P.PresenceOf(c.presence, Observations(c, h'));
      Step(c, m, s, now).1 ==
        TurnEvents(c, h', was, m.ladder.lastStage, m.ec.suspiciousDelayMs) +
        StageEvents(Run(c, h').ladder, if become == was then m.ladder.lastStage else NoStage, now)
  {
    var m, h' := Run(c, h), h + [TickAt(s, now)];
    RunTicks(c, h, s, now);
    SensingIsHistory(c, h);
    SensingIsHistory(c, h');
    P.RunIsHistory(c.presence, Observations(c, h));
    P.RunIsHistory(c.presence, Observations(c, h'));
    C.RunIsHistory(Readings(c, h'));
    StepSenses(c, m, s, now);
    TickIsLatest(h, s, now);
    RunsAreLegal(c, h', now);
    EarlierTicks(h, s, now);
    RunsAreLegal(c, h, now);
    var sensed := Sense(c, m, s);
    TurnIs(c, h', sensed, m.last, now);
    EscalationIs(Transition(sensed, m.last, now).0, now);
  }

  lemma EarlierTicks(h: seq<Input>, s: Sample, now: int)
    requires NondecreasingClock(h + [TickAt(s, now)])
    ensures NondecreasingClock(h) && TickedBy(h, now)
  {
    var h' := h + [TickAt(s, now)];
    assert h'[|h|].now == now;
    assert forall i :: 0 <= i < |h| ==> h'[i] == h[i];
  }

  // ---- a heightened run against a plain one -----------------------------------------

  /** The same inputs, but heightened whenever the other run is. */
  ghost predicate AtLeastAsHeightened(h: seq<Input>, plain: seq<Input>) {
    && |h| == |plain|
    && forall i :: 0 <= i < |h| ==>
         h[i] == plain[i] || (h[i].Heighten? && plain[i].Heighten? && (plain[i].on ==> h[i].on))
  }

  ghost predicate Ahead(m: MonitorState, plain: MonitorState) {
    && m.ewma == plain.ewma && m.presence == plain.presence && m.classifier == plain.classifier
    && m.last == plain.last && m.ec == plain.ec
    && (plain.heightened ==> m.heightened)
    && m.ladder.active == plain.ladder.active && m.ladder.baseMs == plain.ladder.baseMs
    && m.ladder.cfg == plain.ladder.cfg.(graceMs := m.ladder.cfg.graceMs)
    && m.ladder.cfg.graceMs <= plain.ladder.cfg.graceMs
    && Rank(plain.ladder.lastStage) <= Rank(m.ladder.lastStage)
  }

  /** Heightening shortens a grace exactly if the grace is not negative. */
  lemma HeighteningShortens(graceMs: int)
    ensures EffectiveGrace(graceMs, true) <= EffectiveGrace(graceMs, false) <==> graceMs >= 0
  {
    if graceMs < 0 {
      assert -graceMs / 2 <= -graceMs;
    }
  }

  lemma TransitionStaysAhead(m: MonitorState, plain: MonitorState, prev: Presence, now: int)
    requires Ahead(m, plain) && m.ec.graceMs >= 0
    ensures Ahead(Transition(m, prev, now).0, Transition(plain, prev, now).0)
  {
    HeighteningShortens(m.ec.graceMs);
  }

  lemma EscalateStaysAhead(m: MonitorState, plain: MonitorState, now: int)
    requires Ahead(m, plain)
    ensures Ahead(Escalate(m, now).0, Escalate(plain, now).0)
  {
    ShorterGraceIsAhead(plain.ladder.cfg, m.ladder.cfg, m.ladder.baseMs, now);
  }

  lemma StepStaysAhead(c: Config, m: MonitorState, plain: MonitorState, s: Sample, now: int)
    requires WellFormed(m) && WellFormed(plain) && Ahead(m, plain) && m.ec.graceMs >= 0
    ensures Ahead(Step(c, m, s, now).0, Step(c, plain, s, now).0)
  {
    var sensed, plainSensed := Sense(c, m, s), Sense(c, plain, s);
    TransitionStaysAhead(sensed, plainSensed, m.last, now);
    EscalateStaysAhead(Transition(sensed, m.last, now).0, Transition(plainSensed, m.last, now).0, now);
  }

  /** On the same samples and clock a heightened monitor goes through the same presence states,
      and the stage it has requested is never below the plain one's. */
  lemma {:induction false} HeightenedIsAhead(c: Config, h: seq<Input>, plain: seq<Input>)
    requires AtLeastAsHeightened(h, plain) && c.escalation.graceMs >= 0
    ensures Run(c, h).last == Run(c, plain).last
    ensures Rank(Run(c, plain).ladder.lastStage) <= Rank(Run(c, h).ladder.lastStage)
    ensures Ahead(Run(c, h), Run(c, plain)) && Run(c, h).ec.graceMs >= 0
  {
    if h != [] {
      var n := |h| - 1;
      HeightenedIsAhead(c, h[..n], plain[..n]);
      match h[n] {
        case TickAt(s, now) => StepStaysAhead(c, Run(c, h[..n]), Run(c, plain[..n]), s, now);
        case _ =>
      }
    }
  }
}
