/** Whole runs of the TETHER monitor: the shape of its event log, its state as a function of the
    input history, and the comparison of a heightened run with a plain one. */
module TetherRuns {
  import opened Options
  import opened Tether
  import opened TetherLadder
  import opened TetherMonitor

  /** What the daemon feeds to a monitor. */
  datatype Input = TickAt(sample: Sample, now: int) | ArmL3(on: bool) | Heighten(on: bool)

  /** An emitted event with its time and the settings of its tick. */
  datatype Entry = Entry(event: Event, at: int, l3Armed: bool, heightened: bool)

  function Apply(c: Config, m: MonitorState, i: Input): (m': MonitorState)
    requires WellFormed(m)
    ensures WellFormed(m')
  {
    match i
    case TickAt(s, now) => Step(c, m, s, now).0
    case ArmL3(on) => m.(ec := m.ec.(l3Armed := on))
    case Heighten(on) => m.(heightened := on)
  }

  function Run(c: Config, h: seq<Input>): (m: MonitorState)
    ensures WellFormed(m)
  {
    if h == [] then Initial(c) else Apply(c, Run(c, h[..|h| - 1]), h[|h| - 1])
  }

  function Stamp(m: MonitorState, now: int, events: seq<Event>): seq<Entry> {
    seq(|events|, i requires 0 <= i < |events| => Entry(events[i], now, m.ec.l3Armed, m.heightened))
  }

  /** The entries that one input adds to the log. */
  function Emitted(c: Config, m: MonitorState, i: Input): seq<Entry>
    requires WellFormed(m)
  {
    match i
    case TickAt(s, now) => Stamp(m, now, Step(c, m, s, now).1)
    case _ => []
  }

  function Log(c: Config, h: seq<Input>): seq<Entry> {
    if h == [] then []
    else
      var before := h[..|h| - 1];
      Log(c, before) + Emitted(c, Run(c, before), h[|h| - 1])
  }

  ghost predicate NondecreasingClock(h: seq<Input>) {
    forall i, j :: 0 <= i < j < |h| && h[i].TickAt? && h[j].TickAt? ==> h[i].now <= h[j].now
  }

  // ---- legal logs -------------------------------------------------------------------

  /** An instant drop is suspicious, and its clock starts later. */
  function DelayOf(ec: EscalationConfig, how: Disappearance): int {
    match how
    case InstantDrop => ec.suspiciousDelayMs
    case _ => 0
  }

  /** Where a log stands: outside an absence, or in one that began at `since` with the settings
      sampled then, and whose last requested stage is `stage`. */
  datatype Episode =
    | Closed
    | Open(since: int, how: Disappearance, l3Armed: bool, graceMs: int, stage: Stage)

  /** What may be logged next. The durations are those of `ec`; its `l3Armed` plays no part. */
  predicate Allowed(ec: EscalationConfig, ep: Episode, e: Entry) {
    match e.event
    case PresentEvent(_) => ep.Closed?
    case FringeEvent(_, _) => ep.Closed?
    case AbsentEvent(_, _) => ep.Closed?
    case SuspiciousEvent(_) => ep.Open? && ep.how == InstantDrop && ep.since == e.at && ep.stage == NoStage
    case RecoveredEvent(stage, _) => ep.Open? && stage == ep.stage
    case EscalationEvent(stage, _) =>
      && ep.Open?
      && Rank(stage) > Rank(ep.stage)
      && e.at >= ep.since + DelayOf(ec, ep.how) + ep.graceMs
        + (if Rank(stage) >= 2 then ec.l1ToL2Ms else 0) + (if Rank(stage) >= 3 then ec.l2ToL3Ms else 0)
      && (stage == L3 ==> ep.l3Armed)
  }

  function Next(ec: EscalationConfig, ep: Episode, e: Entry): Episode {
    match e.event
    case AbsentEvent(_, how) => Open(e.at, how, e.l3Armed, EffectiveGrace(ec.graceMs, e.heightened), NoStage)
    case RecoveredEvent(_, _) => Closed
    case EscalationEvent(stage, _) => if ep.Open? then ep.(stage := stage) else ep
    case _ => ep
  }

  function EpisodeAfter(ec: EscalationConfig, log: seq<Entry>): Episode {
    if log == [] then Closed else Next(ec, EpisodeAfter(ec, log[..|log| - 1]), log[|log| - 1])
  }

  /** Every entry is allowed where it stands. */
  ghost predicate Legal(ec: EscalationConfig, log: seq<Entry>) {
    forall i :: 0 <= i < |log| ==> Allowed(ec, EpisodeAfter(ec, log[..i]), log[i])
  }

  lemma LegalSnoc(ec: EscalationConfig, log: seq<Entry>, e: Entry)
    requires Legal(ec, log) && Allowed(ec, EpisodeAfter(ec, log), e)
    ensures Legal(ec, log + [e]) && EpisodeAfter(ec, log + [e]) == Next(ec, EpisodeAfter(ec, log), e)
  {
    var log' := log + [e];
    assert log'[..|log|] == log;
    assert forall i :: 0 <= i < |log| ==> log'[..i] == log[..i];
  }

  /** The episode after the entries `es`, if they are allowed from `ep` on. */
  ghost function Scan(ec: EscalationConfig, ep: Episode, es: seq<Entry>): Option<Episode>
    decreases |es|
  {
    if es == [] then Some(ep)
    else if Allowed(ec, ep, es[0]) then Scan(ec, Next(ec, ep, es[0]), es[1..])
    else None
  }

  lemma ScanUnfolds(ec: EscalationConfig, ep: Episode, es: seq<Entry>)
    requires es != [] && Scan(ec, ep, es).Some?
    ensures Allowed(ec, ep, es[0]) && Scan(ec, ep, es) == Scan(ec, Next(ec, ep, es[0]), es[1..])
  {
  }

  lemma {:induction false} LegalAppend(ec: EscalationConfig, log: seq<Entry>, es: seq<Entry>)
    requires Legal(ec, log) && Scan(ec, EpisodeAfter(ec, log), es).Some?
    ensures Legal(ec, log + es) && Some(EpisodeAfter(ec, log + es)) == Scan(ec, EpisodeAfter(ec, log), es)
    decreases |es|
  {
    if es == [] {
      assert log + es == log;
    } else {
      var longer := log + [es[0]];
      ScanUnfolds(ec, EpisodeAfter(ec, log), es);
      LegalSnoc(ec, log, es[0]);
      LegalAppend(ec, longer, es[1..]);
      assert longer + es[1..] == log + es;
    }
  }

  lemma {:induction false} ScanAppend(ec: EscalationConfig, ep: Episode, a: seq<Entry>, b: seq<Entry>)
    requires Scan(ec, ep, a).Some?
    ensures Scan(ec, ep, a + b) == Scan(ec, Scan(ec, ep, a).value, b)
    decreases |a|
  {
    if a == [] {
      assert a + b == b;
    } else {
      ScanAppend(ec, Next(ec, ep, a[0]), a[1..], b);
      assert (a + b)[1..] == a[1..] + b;
    }
  }

  /** The episode that the log shows is the one that the monitor is in. */
  ghost predicate Tracks(c: Config, m: MonitorState, ep: Episode) {
    && m.ec == c.escalation.(l3Armed := m.ec.l3Armed)
    && m.last == m.presence.state
    && m.ladder.active == (m.last == Absent)
    && match ep
       case Closed => m.last != Absent
       case Open(since, how, l3Armed, graceMs, stage) =>
         && m.last == Absent
         && m.ladder == LadderState(c.escalation.(graceMs := graceMs, l3Armed := l3Armed), true,
                                    since + DelayOf(c.escalation, how), stage)
  }

  /** The last evaluation of the ladder happened no later than `now`. */
  ghost predicate EvaluatedBy(m: MonitorState, now: int) {
    m.ladder.active ==> exists t :: t <= now && m.ladder.lastStage == Due(m.ladder.cfg, m.ladder.baseMs, t)
  }

  /** The monitor after sensing, before it reacts to the presence state `m.last`. */
  ghost predicate Sensed(c: Config, prev: MonitorState, m: MonitorState) {
    && m.ladder == prev.ladder && m.ec == prev.ec && m.heightened == prev.heightened
    && m.last == m.presence.state
    && (prev.last == Absent ==> m.last != Fringe)
  }

  lemma SenseIsSensed(c: Config, m: MonitorState, s: Sample)
    requires WellFormed(m) && m.last == m.presence.state
    ensures Sensed(c, m, Sense(c, m, s))
  {
  }

  /** The entries are allowed after `ep`, and lead to the episode that the monitor `m` is in. */
  ghost predicate Leads(c: Config, ep: Episode, es: seq<Entry>, m: MonitorState) {
    var r := Scan(c.escalation, ep, es);
    r.Some? && Tracks(c, m, r.value)
  }

  lemma TransitionIsLegal(c: Config, prev: MonitorState, m: MonitorState, now: int, ep: Episode)
    requires Sensed(c, prev, m) && Tracks(c, prev, ep)
    ensures var (m1, events) := Transition(m, prev.last, now);
      && Leads(c, ep, Stamp(prev, now, events), m1)
      && (m1.ladder.active ==> m1.ladder == prev.ladder || m1.ladder.lastStage == NoStage)
  {
    var ec := c.escalation;
    var (m1, events) := Transition(m, prev.last, now);
    var stamped := Stamp(prev, now, events);
    if |events| == 1 {
      assert stamped[1..] == [];
    } else if |events| == 2 {
      var ep1 := Next(ec, ep, stamped[0]);
      assert stamped[1..] == [stamped[1]];
      assert Scan(ec, ep1, [stamped[1]]) == Some(Next(ec, ep1, stamped[1]));
    }
  }

  lemma EscalateIsLegal(c: Config, m: MonitorState, settings: MonitorState, now: int, ep: Episode)
    requires Tracks(c, m, ep)
    requires EvaluatedBy(m, now) || m.ladder.lastStage == NoStage
    ensures var (m2, events) := Escalate(m, now);
      Leads(c, ep, Stamp(settings, now, events), m2) && EvaluatedBy(m2, now)
  {
    var (m2, events) := Escalate(m, now);
    var stamped := Stamp(settings, now, events);
    if m.ladder.active {
      var cfg, base := m.ladder.cfg, m.ladder.baseMs;
      DueIsMonotone(cfg, base, now, now);
      if m.ladder.lastStage != NoStage {
        var t :| t <= now && m.ladder.lastStage == Due(cfg, base, t);
        DueIsMonotone(cfg, base, t, now);
      }
      assert events != [] ==> Allowed(c.escalation, ep, stamped[0]) && stamped[1..] == [];
    }
  }

  lemma StepIsLegal(c: Config, m: MonitorState, s: Sample, now: int, ep: Episode)
    requires WellFormed(m) && Tracks(c, m, ep) && EvaluatedBy(m, now)
    ensures var (m', events) := Step(c, m, s, now);
      Leads(c, ep, Stamp(m, now, events), m') && EvaluatedBy(m', now)
  {
    SenseIsSensed(c, m, s);
    var sensed := Sense(c, m, s);
    TransitionIsLegal(c, m, sensed, now, ep);
    var (m1, events1) := Transition(sensed, m.last, now);
    var es1 := Stamp(m, now, events1);
    var ep1 := Scan(c.escalation, ep, es1).value;
    EscalateIsLegal(c, m1, m, now, ep1);
    var (m2, events2) := Escalate(m1, now);
    ScanAppend(c.escalation, ep, es1, Stamp(m, now, events2));
    assert es1 + Stamp(m, now, events2) == Stamp(m, now, events1 + events2);
  }

  ghost predicate TickedBy(h: seq<Input>, now: int) {
    forall i :: 0 <= i < |h| && h[i].TickAt? ==> h[i].now <= now
  }

  /** With a clock that does not go back, every run logs a legal sequence of events, and the log
      shows the monitor's state. */
  lemma {:induction false} RunsAreLegal(c: Config, h: seq<Input>, now: int)
    requires NondecreasingClock(h) && TickedBy(h, now)
    ensures Legal(c.escalation, Log(c, h))
    ensures Tracks(c, Run(c, h), EpisodeAfter(c.escalation, Log(c, h)))
    ensures EvaluatedBy(Run(c, h), now)
  {
    if h != [] {
      var before, i := h[..|h| - 1], h[|h| - 1];
      var m := Run(c, before);
      match i {
        case TickAt(s, t) =>
          RunsAreLegal(c, before, t);
          var ep := EpisodeAfter(c.escalation, Log(c, before));
          StepIsLegal(c, m, s, t, ep);
          LegalAppend(c.escalation, Log(c, before), Emitted(c, m, i));
        case _ =>
          RunsAreLegal(c, before, now);
          assert Log(c, h) == Log(c, before);
      }
    }
  }

  // ---- what a legal log says --------------------------------------------------------

  /** Entry `i` opened the absence that entry `j` is in. */
  ghost predicate OpenedBy(log: seq<Entry>, i: nat, j: nat) {
    && i < j <= |log|
    && log[i].event.AbsentEvent?
    && forall k :: i < k < j ==> !log[k].event.AbsentEvent? && !log[k].event.RecoveredEvent?
  }

  /** The last stage requested in the entries from `i` up to `j`. */
  ghost function LastStage(log: seq<Entry>, i: nat, j: nat): Stage
    requires i <= j <= |log|
  {
    if i == j then NoStage
    else if log[j - 1].event.EscalationEvent? then log[j - 1].event.stage
    else LastStage(log, i, j - 1)
  }

  /** An open episode stems from an ABSENT entry with no ABSENT or RECOVERED after it, and its
      fields are that entry's time, verdict and settings and the last stage since. */
  lemma {:induction false} OpenEpisodeHasOrigin(ec: EscalationConfig, log: seq<Entry>) returns (i: nat)
    requires EpisodeAfter(ec, log).Open?
    ensures OpenedBy(log, i, |log|)
    ensures EpisodeAfter(ec, log) == Open(log[i].at, log[i].event.how, log[i].l3Armed,
      EffectiveGrace(ec.graceMs, log[i].heightened), LastStage(log, i, |log|))
  {
    var before, e := log[..|log| - 1], log[|log| - 1];
    if e.event.AbsentEvent? {
      i := |log| - 1;
      assert LastStage(log, i, i + 1) == LastStage(log, i, i);
    } else {
      i := OpenEpisodeHasOrigin(ec, before);
      LastStageOfPrefix(log, i, |before|, |before|);
    }
  }

  lemma {:induction false} LastStageOfPrefix(log: seq<Entry>, i: nat, j: nat, n: nat)
    requires i <= j <= n <= |log|
    ensures LastStage(log[..n], i, j) == LastStage(log, i, j)
  {
    if i < j {
      LastStageOfPrefix(log, i, j - 1, n);
    }
  }

  lemma OriginOf(ec: EscalationConfig, log: seq<Entry>, j: nat) returns (i: nat)
    requires j <= |log| && EpisodeAfter(ec, log[..j]).Open?
    ensures OpenedBy(log, i, j)
    ensures EpisodeAfter(ec, log[..j]) == Open(log[i].at, log[i].event.how, log[i].l3Armed,
      EffectiveGrace(ec.graceMs, log[i].heightened), LastStage(log, i, j))
  {
    i := OpenEpisodeHasOrigin(ec, log[..j]);
    LastStageOfPrefix(log, i, j, j);
  }

  /** Every escalation of every run is inside an absence. It comes no earlier than the ABSENT
      time, plus the suspicion delay if the drop was instant, plus the grace in force at that
      tick, plus the gaps up to its stage; it exceeds every earlier stage of that absence; and it
      is L3 only if L3 was armed at the ABSENT tick. */
  lemma EscalationsAreDue(c: Config, h: seq<Input>, j: nat) returns (i: nat)
    requires NondecreasingClock(h) && j < |Log(c, h)| && Log(c, h)[j].event.EscalationEvent?
    ensures EscalationIsDue(c.escalation, Log(c, h), i, j)
  {
    var now := LatestTick(h);
    RunsAreLegal(c, h, now);
    i := DueInLegalLog(c.escalation, Log(c, h), j);
  }

  ghost predicate EscalationIsDue(ec: EscalationConfig, log: seq<Entry>, i: nat, j: nat) {
    && j < |log| && log[j].event.EscalationEvent? && OpenedBy(log, i, j)
    && var absent, stage := log[i], log[j].event.stage;
      && log[j].at >= absent.at + DelayOf(ec, absent.event.how) + EffectiveGrace(ec.graceMs, absent.heightened)
                      + (if Rank(stage) >= 2 then ec.l1ToL2Ms else 0)
                      + (if Rank(stage) >= 3 then ec.l2ToL3Ms else 0)
      && Rank(stage) > Rank(LastStage(log, i, j))
      && (stage == L3 ==> absent.l3Armed)
  }

  lemma DueInLegalLog(ec: EscalationConfig, log: seq<Entry>, j: nat) returns (i: nat)
    requires Legal(ec, log) && j < |log| && log[j].event.EscalationEvent?
    ensures EscalationIsDue(ec, log, i, j)
  {
    i := OriginOf(ec, log, j);
    assert Allowed(ec, EpisodeAfter(ec, log[..j]), log[j]);
  }

  /** The stage due at `now` in the absence that an ABSENT entry opened, by the settings of that
      entry: the grace, then the two gaps, and L3 only if it was armed. */
  ghost function StageDue(ec: EscalationConfig, absent: Entry, now: int): Stage
    requires absent.event.AbsentEvent?
  {
    var l1 := absent.at + DelayOf(ec, absent.event.how) + EffectiveGrace(ec.graceMs, absent.heightened);
    var l2 := l1 + ec.l1ToL2Ms;
    if now < l1 then NoStage
    else if now < l2 then L1
    else if absent.l3Armed && l2 + ec.l2ToL3Ms <= now then L3
    else L2
  }

  /** A tick in an absence leaves the ladder at the stage due at that tick. */
  lemma TickEvaluates(c: Config, m: MonitorState, s: Sample, now: int)
    requires WellFormed(m)
    ensures var m' := Step(c, m, s, now).0;
      m'.last == Absent && m'.ladder.active ==> m'.ladder.lastStage == Due(m'.ladder.cfg, m'.ladder.baseMs, now)
  {
  }

  /** The last stage requested in the absence that entry `i` opened is the one due at `now`, by the
      settings in force when it began. */
  ghost predicate IsUpToDate(ec: EscalationConfig, log: seq<Entry>, i: nat, now: int) {
    OpenedBy(log, i, |log|) && LastStage(log, i, |log|) == StageDue(ec, log[i], now)
  }

  lemma LadderIsUpToDate(c: Config, m: MonitorState, log: seq<Entry>, now: int) returns (i: nat)
    requires Tracks(c, m, EpisodeAfter(c.escalation, log)) && m.last == Absent
    requires m.ladder.lastStage == Due(m.ladder.cfg, m.ladder.baseMs, now)
    ensures IsUpToDate(c.escalation, log, i, now)
  {
    i := OpenEpisodeHasOrigin(c.escalation, log);
  }

  lemma RunTicks(c: Config, h: seq<Input>, s: Sample, now: int)
    ensures Run(c, h + [TickAt(s, now)]) == Step(c, Run(c, h), s, now).0
  {
    assert (h + [TickAt(s, now)])[..|h|] == h;
  }

  /** Nor is an escalation ever late: after every tick in an absence, the last stage requested in it
      is the one due at that tick. */
  lemma EscalationsAreNotLate(c: Config, h: seq<Input>, s: Sample, now: int) returns (i: nat)
    requires NondecreasingClock(h + [TickAt(s, now)]) && Run(c, h + [TickAt(s, now)]).last == Absent
    ensures IsUpToDate(c.escalation, Log(c, h + [TickAt(s, now)]), i, now)
  {
    var ticked := h + [TickAt(s, now)];
    TickIsLatest(h, s, now);
    RunsAreLegal(c, ticked, now);
    RunTicks(c, h, s, now);
    TickEvaluates(c, Run(c, h), s, now);
    i := LadderIsUpToDate(c, Run(c, ticked), Log(c, ticked), now);
  }

  lemma TickIsLatest(h: seq<Input>, s: Sample, now: int)
    requires NondecreasingClock(h + [TickAt(s, now)])
    ensures TickedBy(h + [TickAt(s, now)], now)
  {
    assert (h + [TickAt(s, now)])[|h|].now == now;
  }

  /** Every RECOVERED of every run ends an absence and reports the last stage requested in it. */
  lemma RecoveriesReportTheStage(c: Config, h: seq<Input>, j: nat) returns (i: nat)
    requires NondecreasingClock(h) && j < |Log(c, h)| && Log(c, h)[j].event.RecoveredEvent?
    ensures OpenedBy(Log(c, h), i, j) && Log(c, h)[j].event.stage == LastStage(Log(c, h), i, j)
  {
    var now := LatestTick(h);
    RunsAreLegal(c, h, now);
    i := OriginOf(c.escalation, Log(c, h), j);
  }

  /** Between two ABSENT events there is a RECOVERED. */
  lemma AbsencesAlternate(c: Config, h: seq<Input>, i: nat, j: nat)
    requires NondecreasingClock(h) && i < j < |Log(c, h)|
    requires Log(c, h)[i].event.AbsentEvent? && Log(c, h)[j].event.AbsentEvent?
    ensures exists k :: i < k < j && Log(c, h)[k].event.RecoveredEvent?
  {
    var now := LatestTick(h);
    RunsAreLegal(c, h, now);
    var log := Log(c, h);
    if !exists k :: i < k < j && log[k].event.RecoveredEvent? {
      StaysOpen(c.escalation, log, i, j);
    }
  }

  lemma {:induction false} StaysOpen(ec: EscalationConfig, log: seq<Entry>, i: nat, j: nat)
    requires i < j <= |log| && log[i].event.AbsentEvent?
    requires forall k :: i < k < j ==> !log[k].event.RecoveredEvent?
    ensures EpisodeAfter(ec, log[..j]).Open?
  {
    assert log[..j][..j - 1] == log[..j - 1];
    if i + 1 < j {
      StaysOpen(ec, log, i, j - 1);
    }
  }

  lemma {:induction false} LatestTick(h: seq<Input>) returns (now: int)
    ensures TickedBy(h, now)
  {
    if h == [] {
      now := 0;
    } else {
      now := LatestTick(h[..|h| - 1]);
      if h[|h| - 1].TickAt? && h[|h| - 1].now > now {
        now := h[|h| - 1].now;
      }
    }
  }
}
