/** The enumerations and configuration shared by the TETHER engine units. */
module Tether {

  datatype Presence = Present | Fringe | Absent

  /** How the companion vanished; `NotLost` is the source's NONE. */
  datatype Disappearance = NotLost | Fade | CleanDrop | InstantDrop

  /** The escalation stage due; `NoStage` is the source's NONE. */
  datatype Stage = NoStage | L1 | L2 | L3

  datatype PresenceConfig = PresenceConfig(nearThreshold: real, absentTicks: int, recoverTicks: int)

  datatype EscalationConfig = EscalationConfig(
    graceMs: int,
    l1ToL2Ms: int,
    l2ToL3Ms: int,
    suspiciousDelayMs: int,
    l3Armed: bool)

  datatype Sample = Sample(rssi: real, seen: bool, cleanDisconnect: bool)

  const HEIGHTEN_FACTOR: int := 2

  /** C++ integer division, which truncates toward zero. */
  function TruncatedDiv(n: int, d: int): (q: int)
    requires d > 0
    ensures n >= 0 ==> q == n / d
    ensures n < 0 ==> q == -(-n / d)
  {
    if n >= 0 then n / d else -(-n / d)
  }

  function EffectiveGrace(baseMs: int, heightened: bool): (ms: int)
    ensures !heightened ==> ms == baseMs
    ensures heightened && baseMs >= 0 ==> 0 <= ms && 2 * ms <= baseMs < 2 * ms + 2
    ensures heightened && baseMs < 0 ==> ms <= 0 && 2 * ms - 2 < baseMs <= 2 * ms
  {
    if heightened then TruncatedDiv(baseMs, HEIGHTEN_FACTOR) else baseMs
  }

  function Rank(s: Stage): nat {
    match s
    case NoStage => 0
    case L1 => 1
    case L2 => 2
    case L3 => 3
  }
}
