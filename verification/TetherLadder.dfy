/** The time-gated escalation ladder. */
module TetherLadder {
  import opened Tether

  datatype LadderState = LadderState(cfg: EscalationConfig, active: bool, baseMs: int, lastStage: Stage)

  datatype Decision = Decision(stage: Stage, changed: bool, graceRemainingMs: int)

  function NewLadder(cfg: EscalationConfig): LadderState {
    LadderState(cfg, false, 0, NoStage)
  }

  /** The moment from which stage `s` may be due, for a ladder started at `baseMs`. */
  function DueAt(cfg: EscalationConfig, baseMs: int, s: Stage): int {
    match s
    case NoStage => baseMs
    case L1 => baseMs + cfg.graceMs
    case L2 => baseMs + cfg.graceMs + cfg.l1ToL2Ms
    case L3 => baseMs + cfg.graceMs + cfg.l1ToL2Ms + cfg.l2ToL3Ms
  }

  /** The highest stage whose moment, and those of the stages below it, have come. */
  function Due(cfg: EscalationConfig, baseMs: int, now: int): Stage {
    if now < DueAt(cfg, baseMs, L1) then NoStage
    else if now < DueAt(cfg, baseMs, L2) then L1
    else if !cfg.l3Armed || now < DueAt(cfg, baseMs, L3) then L2
    else L3
  }

  function SuspicionDelay(cfg: EscalationConfig, how: Disappearance): int {
    if how == InstantDrop then cfg.suspiciousDelayMs else 0
  }

  function OnAbsent(s: LadderState, t0: int, how: Disappearance): LadderState {
    LadderState(s.cfg, true, t0 + SuspicionDelay(s.cfg, how), NoStage)
  }

  /** The time to the next stage, zero when there is none. */
  function Remaining(cfg: EscalationConfig, baseMs: int, now: int): int {
    var next := match Due(cfg, baseMs, now)
                case NoStage => DueAt(cfg, baseMs, L1)
                case L1 => DueAt(cfg, baseMs, L2)
                case L2 => if cfg.l3Armed then DueAt(cfg, baseMs, L3) else now
                case L3 => now;
    if next < now then 0 else next - now
  }

  function Evaluate(s: LadderState, now: int): (LadderState, Decision) {
    if !s.active then (s, Decision(NoStage, false, 0))
    else
      var stage := Due(s.cfg, s.baseMs, now);
      (s.(lastStage := stage), Decision(stage, stage != s.lastStage, Remaining(s.cfg, s.baseMs, now)))
  }

  function OnRecovered(s: LadderState): LadderState {
    s.(active := false, lastStage := NoStage)
  }

  // ---- what the ladder keeps --------------------------------------------------------

  /** The stage due never falls as time passes, and no stage is due early or unarmed. */
  lemma DueIsMonotone(cfg: EscalationConfig, baseMs: int, t: int, t': int)
    requires t <= t'
    ensures Rank(Due(cfg, baseMs, t)) <= Rank(Due(cfg, baseMs, t'))
    ensures var s := Due(cfg, baseMs, t); s != NoStage ==> DueAt(cfg, baseMs, s) <= t && (s == L3 ==> cfg.l3Armed)
  {
  }

  /** A shorter grace is never behind. */
  lemma ShorterGraceIsAhead(cfg: EscalationConfig, cfg': EscalationConfig, baseMs: int, t: int)
    requires cfg' == cfg.(graceMs := cfg'.graceMs) && cfg'.graceMs <= cfg.graceMs
    ensures Rank(Due(cfg, baseMs, t)) <= Rank(Due(cfg', baseMs, t))
  {
  }

  function EvaluateAll(s: LadderState, times: seq<int>): seq<Decision>
    decreases |times|
  {
    if times == [] then []
    else
      var (s', d) := Evaluate(s, times[0]);
      [d] + EvaluateAll(s', times[1..])
  }

  function Shift(times: seq<int>, d: int): seq<int> {
    seq(|times|, i requires 0 <= i < |times| => times[i] + d)
  }

  lemma {:induction false} ShiftedRun(s: LadderState, times: seq<int>, d: int)
    requires s.active
    ensures EvaluateAll(s.(baseMs := s.baseMs + d), Shift(times, d)) == EvaluateAll(s, times)
    decreases |times|
  {
    if times != [] {
      ShiftedRun(Evaluate(s, times[0]).0, times[1..], d);
      assert Shift(times, d)[1..] == Shift(times[1..], d);
    }
  }

  /** A ladder started by a suspicious drop makes, at times later by the suspicion delay, exactly
      the decisions that one started by a fade makes. */
  lemma SuspicionOnlyDelays(cfg: EscalationConfig, t0: int, times: seq<int>)
    ensures EvaluateAll(OnAbsent(NewLadder(cfg), t0, InstantDrop), Shift(times, cfg.suspiciousDelayMs))
         == EvaluateAll(OnAbsent(NewLadder(cfg), t0, Fade), times)
  {
    ShiftedRun(OnAbsent(NewLadder(cfg), t0, Fade), times, cfg.suspiciousDelayMs);
  }

  /** So with a delay that is not negative a suspicious drop is never ahead of a fade. */
  lemma SuspicionNeverSpeeds(cfg: EscalationConfig, t0: int, t: int)
    requires cfg.suspiciousDelayMs >= 0
    ensures Rank(Evaluate(OnAbsent(NewLadder(cfg), t0, InstantDrop), t).1.stage)
         <= Rank(Evaluate(OnAbsent(NewLadder(cfg), t0, Fade), t).1.stage)
  {
    SuspicionOnlyDelays(cfg, t0, [t - cfg.suspiciousDelayMs]);
    DueIsMonotone(cfg, t0, t - cfg.suspiciousDelayMs, t);
  }

  // ---- the ladder -------------------------------------------------------------------

  class EscalationLadder {
    const cfg: EscalationConfig
    var active: bool
    var baseMs: int
    var lastStage: Stage

    ghost function State(): LadderState
      reads this
    {
      LadderState(cfg, active, baseMs, lastStage)
    }

    constructor (c: EscalationConfig)
      ensures State() == NewLadder(c)
    {
      cfg, active, baseMs, lastStage := c, false, 0, NoStage;
    }

    method Start(t0: int, how: Disappearance)
      modifies this
      ensures State() == OnAbsent(old(State()), t0, how)
    {
      baseMs := t0 + (if how == InstantDrop then cfg.suspiciousDelayMs else 0);
      active := true;
      lastStage := NoStage;
    }

    method EvaluateAt(now: int) returns (d: Decision)
      modifies this
      ensures (State(), d) == Evaluate(old(State()), now)
    {
      if !active {
        return Decision(NoStage, false, 0);
      }
      var l1At := baseMs + cfg.graceMs;
      var l2At := l1At + cfg.l1ToL2Ms;
      var l3At := l2At + cfg.l2ToL3Ms;
      var stage, nextAt;
      if now < l1At {
        stage := NoStage;
        nextAt := l1At;
      } else if now < l2At {
        stage := L1;
        nextAt := l2At;
      } else if !cfg.l3Armed || now < l3At {
        stage := L2;
        nextAt := if cfg.l3Armed then l3At else now;
      } else {
        stage := L3;
        nextAt := now;
      }
      var remaining := nextAt - now;
      if remaining < 0 {
        remaining := 0;
      }
      var changed := stage != lastStage;
      lastStage := stage;
      d := Decision(stage, changed, remaining);
    }

    /** on_recovered and cancel. */
    method Stop()
      modifies this
      ensures State() == OnRecovered(old(State()))
    {
      active := false;
      lastStage := NoStage;
    }
  }
}
