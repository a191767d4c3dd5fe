/** The exponentially weighted RSSI smoother. */
module TetherEwma {

  datatype EwmaState = EwmaState(value: real, initialized: bool)

  function Blend(alpha: real, sample: real, s: EwmaState): real {
    if s.initialized then alpha * sample + (1.0 - alpha) * s.value else sample
  }

  function Smoothed(alpha: real, samples: seq<real>): EwmaState {
    if samples == [] then EwmaState(0.0, false)
    else
      var n := |samples| - 1;
      EwmaState(Blend(alpha, samples[n], Smoothed(alpha, samples[..n])), true)
  }

  /** With a weight in [0, 1] the smoothed value never leaves the range of the samples. */
  lemma {:induction false} SmoothedStaysInRange(alpha: real, samples: seq<real>, lo: real, hi: real)
    requires 0.0 <= alpha <= 1.0 && samples != []
    requires forall i :: 0 <= i < |samples| ==> lo <= samples[i] <= hi
    ensures lo <= Smoothed(alpha, samples).value <= hi
  {
    var n := |samples| - 1;
    if n > 0 {
      SmoothedStaysInRange(alpha, samples[..n], lo, hi);
      BlendStaysInRange(alpha, samples[n], Smoothed(alpha, samples[..n]).value, lo, hi);
    }
  }

  lemma BlendStaysInRange(alpha: real, x: real, v: real, lo: real, hi: real)
    requires 0.0 <= alpha <= 1.0 && lo <= x <= hi && lo <= v <= hi
    ensures lo <= alpha * x + (1.0 - alpha) * v <= hi
  {
    ProductNotNegative(alpha, x - lo);
    ProductNotNegative(1.0 - alpha, v - lo);
    ProductNotNegative(alpha, hi - x);
    ProductNotNegative(1.0 - alpha, hi - v);
  }

  lemma ProductNotNegative(a: real, b: real)
    requires a >= 0.0 && b >= 0.0
    ensures a * b >= 0.0
  {
  }

  // ---- the closed form --------------------------------------------------------------

  function Power(x: real, n: nat): real {
    if n == 0 then 1.0 else x * Power(x, n - 1)
  }

  /** What a later sample contributes once so many more have come. */
  function Faded(alpha: real, more: nat, x: real): real {
    alpha * Power(1.0 - alpha, more) * x
  }

  /** What the samples 1 to `k` contribute. */
  function LaterSum(alpha: real, samples: seq<real>, k: nat): real
    requires k < |samples|
  {
    if k == 0 then 0.0 else LaterSum(alpha, samples, k - 1) + Faded(alpha, |samples| - 1 - k, samples[k])
  }

  /** The first sample, faded once for every later one, and the others. */
  function WeightedSum(alpha: real, samples: seq<real>): real
    requires samples != []
  {
    Power(1.0 - alpha, |samples| - 1) * samples[0] + LaterSum(alpha, samples, |samples| - 1)
  }

  lemma FadedOnce(alpha: real, more: nat, x: real)
    ensures Faded(alpha, more + 1, x) == (1.0 - alpha) * Faded(alpha, more, x)
    ensures Faded(alpha, 0, x) == alpha * x
  {
    var p, f := Power(1.0 - alpha, more), 1.0 - alpha;
    assert alpha * (f * p) * x == f * (alpha * p * x);
  }

  lemma Distributes(f: real, a: real, b: real)
    ensures f * (a + b) == f * a + f * b
  {
  }

  lemma {:induction false} OneMoreFades(alpha: real, samples: seq<real>, x: real, k: nat)
    requires k < |samples|
    ensures LaterSum(alpha, samples + [x], k) == (1.0 - alpha) * LaterSum(alpha, samples, k)
  {
    if k > 0 {
      OneMoreFades(alpha, samples, x, k - 1);
      FadedOnce(alpha, |samples| - 1 - k, samples[k]);
      Distributes(1.0 - alpha, LaterSum(alpha, samples, k - 1), Faded(alpha, |samples| - 1 - k, samples[k]));
    }
  }

  lemma WeightedSumSnoc(alpha: real, samples: seq<real>, x: real)
    requires samples != []
    ensures WeightedSum(alpha, samples + [x]) == alpha * x + (1.0 - alpha) * WeightedSum(alpha, samples)
  {
    var all, n, f := samples + [x], |samples| - 1, 1.0 - alpha;
    var first, later := Power(f, n) * samples[0], LaterSum(alpha, samples, n);
    OneMoreFades(alpha, samples, x, n);
    FadedOnce(alpha, 0, x);
    assert LaterSum(alpha, all, n + 1) == f * later + alpha * x;
    PowerFades(f, n, samples[0]);
    assert WeightedSum(alpha, all) == f * first + (f * later + alpha * x);
    Distributes(f, first, later);
  }

  lemma PowerFades(f: real, n: nat, x: real)
    ensures Power(f, n + 1) * x == f * (Power(f, n) * x)
  {
    var p := Power(f, n);
    assert (f * p) * x == f * (p * x);
  }

  /** After the samples s[0] to s[n] the smoothed value is (1 - alpha)^n * s[0] plus the sum over the
      others of alpha * (1 - alpha)^(n - i) * s[i]. */
  lemma {:induction false} SmoothedIsWeightedSum(alpha: real, samples: seq<real>)
    requires samples != []
    ensures Smoothed(alpha, samples) == EwmaState(WeightedSum(alpha, samples), true)
  {
    var n := |samples| - 1;
    if n == 0 {
      assert Power(1.0 - alpha, 0) * samples[0] == samples[0];
    } else {
      SmoothedIsWeightedSum(alpha, samples[..n]);
      WeightedSumSnoc(alpha, samples[..n], samples[n]);
      assert samples[..n] + [samples[n]] == samples;
    }
  }

  class Ewma {
    const alpha: real
    var value: real
    var initialized: bool

    ghost function State(): EwmaState
      reads this
    {
      EwmaState(value, initialized)
    }

    constructor (a: real)
      ensures alpha == a && State() == Smoothed(a, [])
    {
      alpha, value, initialized := a, 0.0, false;
    }

    method Update(sample: real) returns (v: real)
      modifies this
      ensures State() == EwmaState(Blend(alpha, sample, old(State())), true) && v == value
    {
      if !initialized {
        value := sample;
        initialized := true;
      } else {
        value := alpha * sample + (1.0 - alpha) * value;
      }
      v := value;
    }
  }
}
