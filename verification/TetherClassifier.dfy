/** The disappearance classifier: a four-slot ring of smoothed values and a verdict fixed at the
    moment of loss. */
module TetherClassifier {
  import opened Tether

  datatype Reading = Reading(smoothed: real, seen: bool, clean: bool)

  const HISTORY: nat := 4
  const FADE_DELTA_DB: real := 10.0
  const STRONG_DB: real := -60.0

  datatype ClassifierState = ClassifierState(
    recent: seq<real>, count: nat, seenPrev: bool, clean: bool, verdict: Disappearance)

  predicate WellFormed(s: ClassifierState) {
    |s.recent| == HISTORY
  }

  const INITIAL := ClassifierState([0.0, 0.0, 0.0, 0.0], 0, false, false, NotLost)

  /** The greatest of the first `n` slots. */
  function RingMax(recent: seq<real>, n: nat): (m: real)
    requires 1 <= n <= |recent|
    ensures forall i :: 0 <= i < n ==> recent[i] <= m
    ensures exists i :: 0 <= i < n && recent[i] == m
  {
    if n == 1 then recent[0]
    else
      var m := RingMax(recent, n - 1);
      if recent[n - 1] > m then recent[n - 1] else m
  }

  function Classify(s: ClassifierState, clean: bool): Disappearance
    requires WellFormed(s)
  {
    if clean then CleanDrop
    else if s.count == 0 then Fade
    else
      var last := s.recent[(s.count - 1) % HISTORY];
      if RingMax(s.recent, if s.count < HISTORY then s.count else HISTORY) - last >= FADE_DELTA_DB then Fade
      else if last >= STRONG_DB then InstantDrop
      else Fade
  }

  function Step(s: ClassifierState, r: Reading): (s': ClassifierState)
    requires WellFormed(s)
    ensures WellFormed(s')
  {
    if r.seen then
      ClassifierState(s.recent[s.count % HISTORY := r.smoothed], s.count + 1, true, s.clean, NotLost)
    else if s.seenPrev then
      s.(seenPrev := false, clean := r.clean, verdict := Classify(s, r.clean))
    else s
  }

  function Run(h: seq<Reading>): (s: ClassifierState)
    ensures WellFormed(s)
  {
    if h == [] then INITIAL else Step(Run(h[..|h| - 1]), h[|h| - 1])
  }

  // ---- the history specification ----------------------------------------------------

  /** The smoothed values of the seen ticks, in order. */
  ghost function SeenValues(h: seq<Reading>): seq<real> {
    if h == [] then []
    else
      var before := SeenValues(h[..|h| - 1]);
      if h[|h| - 1].seen then before + [h[|h| - 1].smoothed] else before
  }

  /** The last four values, or all of them. */
  ghost function Window(values: seq<real>): (w: seq<real>)
    ensures values != [] ==> w != [] && w[|w| - 1] == values[|values| - 1]
  {
    if |values| <= 4 then values else values[|values| - 4..]
  }

  /** Some value in the window is 10 dB or more above `x`. */
  ghost predicate Declined(values: seq<real>, x: real) {
    exists i :: 0 <= i < |Window(values)| && Window(values)[i] - x >= 10.0
  }

  /** How a signal with these seen values was lost: cleanly, after a decline inside the window,
      or from a strong and steady level. */
  ghost function LossVerdict(values: seq<real>, clean: bool): Disappearance
    requires values != []
  {
    var last := values[|values| - 1];
    if clean then CleanDrop
    else if Declined(values, last) then Fade
    else if last >= -60.0 then InstantDrop
    else Fade
  }

  /** The length of the run of missed ticks that ends the history. */
  ghost function MissedRun(h: seq<Reading>): (n: nat)
    ensures n <= |h|
    ensures forall i :: |h| - n <= i < |h| ==> !h[i].seen
    ensures n < |h| ==> h[|h| - n - 1].seen
  {
    if h == [] || h[|h| - 1].seen then 0 else 1 + MissedRun(h[..|h| - 1])
  }

  /** The verdict on the current loss, fixed by the ticks up to the first missed one. */
  ghost function HowLost(h: seq<Reading>): Disappearance {
    var first := |h| - MissedRun(h);
    if first == |h| || first == 0 then NotLost
    else
      SeenNotEmpty(h[..first]);
      LossVerdict(SeenValues(h[..first]), h[first].clean)
  }

  lemma SeenNotEmpty(h: seq<Reading>)
    requires h != [] && h[|h| - 1].seen
    ensures SeenValues(h) != []
  {
  }

  /** Slot `i mod 4` holds the `i`-th seen value, for the last four of them. */
  ghost predicate RingHolds(recent: seq<real>, values: seq<real>)
    requires |recent| == HISTORY
  {
    forall i :: 0 <= i < |values| && |values| - HISTORY <= i ==> recent[i % HISTORY] == values[i]
  }

  lemma RingStep(recent: seq<real>, values: seq<real>, v: real)
    requires |recent| == HISTORY && RingHolds(recent, values)
    ensures RingHolds(recent[|values| % HISTORY := v], values + [v])
  {
    var recent', values' := recent[|values| % HISTORY := v], values + [v];
    forall i | 0 <= i < |values'| && |values'| - HISTORY <= i ensures recent'[i % HISTORY] == values'[i] {
      if i < |values| {
        DistinctSlots(i, |values|);
      }
    }
  }

  lemma DistinctSlots(i: nat, n: nat)
    requires i < n < i + HISTORY
    ensures i % HISTORY != n % HISTORY
  {
  }

  /** The slots that classify scans are exactly the window of the last values. */
  lemma SlotsAreWindow(recent: seq<real>, values: seq<real>)
    requires |recent| == HISTORY && values != [] && RingHolds(recent, values)
    ensures var n := if |values| < HISTORY then |values| else HISTORY;
      && (forall i :: 0 <= i < n ==> recent[i] in Window(values))
      && (forall v :: v in Window(values) ==> v in recent[..n])
  {
    var n := if |values| < HISTORY then |values| else HISTORY;
    var w, start := Window(values), if |values| <= HISTORY then 0 else |values| - HISTORY;
    forall i | 0 <= i < n ensures recent[i] in w {
      var k := SlotHolder(start, i);
      assert w[k - start] == values[k];
    }
    forall v | v in w ensures v in recent[..n] {
      var k :| 0 <= k < |w| && w[k] == v;
      assert recent[..n][(start + k) % HISTORY] == values[start + k];
    }
  }

  /** The one index from `start` on that falls into slot `i` within one turn of the ring. */
  lemma SlotHolder(start: nat, i: nat) returns (k: nat)
    requires i < HISTORY
    ensures start <= k < start + HISTORY && k % HISTORY == i
    ensures start == 0 ==> k == i
  {
    k := start + (i + HISTORY - start % HISTORY) % HISTORY;
  }

  /** The maximum of the filled slots exceeds `x` exactly if some value in the window does. */
  lemma MaxIsOf(recent: seq<real>, n: nat, w: seq<real>, x: real)
    requires 1 <= n <= |recent|
    requires (forall i :: 0 <= i < n ==> recent[i] in w) && (forall v :: v in w ==> v in recent[..n])
    ensures RingMax(recent, n) - x >= FADE_DELTA_DB <==> exists i :: 0 <= i < |w| && w[i] - x >= FADE_DELTA_DB
  {
    var m := RingMax(recent, n);
    assert m in w;
    forall i | 0 <= i < |w| ensures w[i] <= m {
      var v := w[i];
      assert v in w;
    }
  }

  lemma NewestSlot(recent: seq<real>, values: seq<real>)
    requires |recent| == HISTORY && values != [] && RingHolds(recent, values)
    ensures recent[(|values| - 1) % HISTORY] == values[|values| - 1]
  {
  }

  lemma SlotsDecline(recent: seq<real>, values: seq<real>, x: real)
    requires |recent| == HISTORY && values != [] && RingHolds(recent, values)
    ensures var filled := if |values| < HISTORY then |values| else HISTORY;
      RingMax(recent, filled) - x >= FADE_DELTA_DB <==> Declined(values, x)
  {
    SlotsAreWindow(recent, values);
    MaxIsOf(recent, if |values| < HISTORY then |values| else HISTORY, Window(values), x);
  }

  lemma ClassifyIsLossVerdict(s: ClassifierState, values: seq<real>, clean: bool)
    requires WellFormed(s) && s.count == |values| && values != [] && RingHolds(s.recent, values)
    ensures Classify(s, clean) == LossVerdict(values, clean)
  {
    NewestSlot(s.recent, values);
    SlotsDecline(s.recent, values, values[|values| - 1]);
  }

  /** The ring, the counter and the verdict are functions of the whole history. */
  lemma {:induction false} RunIsHistory(h: seq<Reading>)
    ensures var s := Run(h);
      && s.count == |SeenValues(h)|
      && RingHolds(s.recent, SeenValues(h))
      && s.seenPrev == (h != [] && h[|h| - 1].seen)
      && s.verdict == HowLost(h)
  {
    if h != [] {
      var before, r := h[..|h| - 1], h[|h| - 1];
      var s := Run(before);
      RunIsHistory(before);
      if r.seen {
        RingStep(s.recent, SeenValues(before), r.smoothed);
      } else if s.seenPrev {
        assert MissedRun(h) == 1;
        SeenNotEmpty(before);
        ClassifyIsLossVerdict(s, SeenValues(before), r.clean);
      } else {
        assert MissedRun(h) == MissedRun(before) + 1;
        assert before[..|h| - MissedRun(h)] == h[..|h| - MissedRun(h)];
      }
    }
  }

  /** Further missed ticks do not change the verdict, whatever they report. */
  lemma VerdictIsFixedAtLoss(h: seq<Reading>, r: Reading)
    requires h != [] && !h[|h| - 1].seen && !r.seen
    ensures HowLost(h + [r]) == HowLost(h)
  {
    var h' := h + [r];
    assert h'[..|h'| - 1] == h;
    var first := |h| - MissedRun(h);
    assert MissedRun(h') == MissedRun(h) + 1;
    assert h'[..first] == h[..first];
  }

  // ---- the classifier ---------------------------------------------------------------

  class DisappearanceClassifier {
    const recent: array<real>
    var count: nat
    var seenPrev: bool
    var clean: bool
    var verdict: Disappearance

    ghost predicate Valid()
    {
      recent.Length == HISTORY
    }

    ghost function State(): ClassifierState
      reads this, recent
    {
      ClassifierState(recent[..], count, seenPrev, clean, verdict)
    }

    constructor ()
      ensures Valid() && fresh(recent) && State() == INITIAL
    {
      var slots := new real[HISTORY](_ => 0.0);
      recent := slots;
      count, seenPrev, clean, verdict := 0, false, false, NotLost;
      new;
      assert recent[..] == [0.0, 0.0, 0.0, 0.0];
    }

    /** The loop of observe over the filled slots. */
    method MaxRecent(window: nat) returns (max: real)
      requires Valid() && 1 <= window <= HISTORY
      ensures max == RingMax(recent[..], window)
    {
      max := recent[0];
      var i := 1;
      while i < window
        invariant 1 <= i <= window && max == RingMax(recent[..], i)
      {
        if recent[i] > max {
          max := recent[i];
        }
        i := i + 1;
      }
    }

    method Observe(smoothed: real, seen: bool, cleanDisconnect: bool)
      requires Valid()
      modifies this, recent
      ensures State() == Step(old(State()), Reading(smoothed, seen, cleanDisconnect))
    {
      if seen {
        recent[count % HISTORY] := smoothed;
        count := count + 1;
        seenPrev := true;
        verdict := NotLost;
        return;
      }
      if seenPrev {
        clean := cleanDisconnect;
        if cleanDisconnect {
          verdict := CleanDrop;
        } else if count == 0 {
          verdict := Fade;
        } else {
          var window := if count < HISTORY then count else HISTORY;
          var last := recent[(count - 1) % HISTORY];
          var max := MaxRecent(window);
          if max - last >= FADE_DELTA_DB {
            verdict := Fade;
          } else if last >= STRONG_DB {
            verdict := InstantDrop;
          } else {
            verdict := Fade;
          }
        }
      }
      seenPrev := false;
    }
  }
}
