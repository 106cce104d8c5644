/** How a duration answers the time asked for: `_budget_fit` and its thresholds in backend/routing.py. */
module BudgetFit {
  import opened Prelude

  const BUDGET_UNDERSHOOT := 0.7
  const BUDGET_OVERSHOOT := 1.35

  /** 1 at exactly the time asked for, falling off either side, never below 0. */
  function Fit(duration: real, minutes: int): (f: real)
    ensures 0.0 <= f <= 1.0
  {
    if minutes <= 0 then 0.0
    else
      var q := Abs(duration - minutes as real) / minutes as real;
      assert q * minutes as real == Abs(duration - minutes as real);
      assert q >= 0.0;
      Max(0.0, 1.0 - q)
  }

  predicate UnderBudget(duration: real, minutes: int) {
    minutes > 0 && duration < minutes as real * BUDGET_UNDERSHOOT
  }

  predicate OverBudget(duration: real, minutes: int) {
    minutes > 0 && duration > minutes as real * BUDGET_OVERSHOOT
  }

  /** Strictly between nothing and twice the time asked for: where the fit is more than 0. */
  predicate InReach(duration: real, minutes: int) {
    0.0 < duration < 2.0 * minutes as real
  }

  function Miss(duration: real, minutes: int): real {
    Abs(duration - minutes as real)
  }

  lemma FitIsShare(duration: real, minutes: int)
    requires minutes > 0
    ensures InReach(duration, minutes) <==> Fit(duration, minutes) > 0.0
    ensures InReach(duration, minutes) ==>
              Fit(duration, minutes) * minutes as real == minutes as real - Miss(duration, minutes)
  {
    var m := minutes as real;
    var q := Miss(duration, minutes) / m;
    ShareOf(Miss(duration, minutes), m, q);
  }

  lemma ShareOf(x: real, m: real, q: real)
    requires m > 0.0 && q == x / m
    ensures q * m == x && (1.0 - q) * m == m - x
    ensures q < 1.0 <==> x < m
  {
    assert q * m == x;
    Positive(1.0 - q, m);
  }

  lemma Positive(d: real, m: real)
    requires m > 0.0
    ensures d > 0.0 <==> d * m > 0.0
  {
  }

  lemma Ordered(f: real, g: real, m: real, x: real, y: real)
    requires m > 0.0 && f * m == m - x && g * m == m - y
    ensures g > f <==> y < x
  {
    Positive(g - f, m);
    assert (g - f) * m == x - y;
  }

  /** Out of reach nothing fits, and everything misses by more than anything in reach. */
  lemma OutOfReach(d: real, e: real, minutes: int)
    requires minutes > 0 && InReach(d, minutes) && !InReach(e, minutes)
    ensures Fit(e, minutes) == 0.0 < Fit(d, minutes) && Miss(e, minutes) > Miss(d, minutes)
  {
    FitIsShare(d, minutes);
    FitIsShare(e, minutes);
  }

  /** Against a duration in reach, a better fit is exactly a smaller miss. */
  lemma FitOrdersByMiss(d: real, e: real, minutes: int)
    requires minutes > 0 && InReach(d, minutes)
    ensures Fit(e, minutes) > Fit(d, minutes) <==> Miss(e, minutes) < Miss(d, minutes)
  {
    if InReach(e, minutes) {
      FitIsShare(d, minutes);
      FitIsShare(e, minutes);
      Ordered(Fit(d, minutes), Fit(e, minutes), minutes as real, Miss(d, minutes), Miss(e, minutes));
    } else {
      OutOfReach(d, e, minutes);
    }
  }
}
