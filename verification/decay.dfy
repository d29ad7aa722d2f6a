/**
 The exponential-decay factor and the 1 mg display floor shared by the live tracker
 and the analysis histogram.

 The app computes the factor as 0.5^(elapsedMillis / halfLifeMillis) with a five-hour
 half-life. The model keeps it uninterpreted: callers pass the factor as a function of
 non-negative elapsed milliseconds and the model relies only on what that formula
 guarantees, namely no decay at zero elapsed time and a factor in (0, 1] otherwise.
 */
module Decay {

  /** The decay factor as a function of elapsed milliseconds. */
  type DecayFn = nat -> real

  /** What `0.5.pow(elapsed / CAFFEINE_HALF_LIFE_MILLIS)` guarantees for elapsed >= 0. */
  ghost predicate IsDecay(decay: DecayFn) {
    && decay(0) == 1.0
    && forall e: nat :: 0.0 < decay(e) <= 1.0
  }

  /** A level under 1 mg is shown as exactly 0. */
  function FloorLevel(level: real): (r: real)
    ensures r == 0.0 || r >= 1.0
    ensures r == 0.0 <==> level < 1.0
    ensures level >= 1.0 ==> r == level
  {
    if level < 1.0 then 0.0 else level
  }

  /** Elapsed time with a negative difference (a clock set back) clamped to 0. */
  function ClampElapsed(now: int, since: int): (r: nat)
    ensures now <= since ==> r == 0
    ensures now >= since ==> since + r == now
  {
    if now - since < 0 then 0 else now - since
  }

  /** Decaying a non-negative amount keeps it between 0 and the amount itself. */
  lemma DecayedWithin(amount: real, factor: real)
    requires amount >= 0.0 && 0.0 < factor <= 1.0
    ensures 0.0 <= amount * factor <= amount
  {
    assert amount * factor <= amount * 1.0;
  }
}
