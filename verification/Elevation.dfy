/**
  The elevation profile that is drawn and the gradient check that judges it, over one resampled grid.
  The drawing marks exactly the runs over the limit; the check fires exactly when there is one.
*/
module Elevation {
  import opened Prelude
  import opened Geometry

  const SPACING := 20.0        // INCLINE_SMOOTHING_WINDOW_M
  const MAX_INCLINE := 8.0
  const SUSTAINED_INCLINE := 5.0
  const SUSTAINED_OVER := 50.0
  const MAX_PROFILE_POINTS: nat := 120

  // ---------------------------------------------------------------------------------------------
  // The grid
  // ---------------------------------------------------------------------------------------------

  function Ceil(x: real): int {
    -((-x).Floor)
  }

  /** `np.arange(0, total, spacing)`: the multiples of the spacing below the total. */
  function Steps(total: real): (n: nat)
    requires total > 0.0
    ensures n > 0
    ensures (n - 1) as real * SPACING < total <= n as real * SPACING
  {
    var n := Ceil(total / SPACING);
    assert (n - 1) as real < total / SPACING <= n as real;
    assert total == total / SPACING * SPACING;
    n
  }

  /** `_resample_elevation`'s grid: nothing for a short route, else the steps and the far end. */
  function Grid(total: real): seq<real> {
    if total < SPACING * 2.0 then []
    else seq(Steps(total), i requires 0 <= i => i as real * SPACING) + [total]
  }

  /** The grid starts at 0, ends at the total, and never steps further than the spacing. */
  lemma GridCovers(total: real)
    requires total >= SPACING * 2.0
    ensures |Grid(total)| >= 3 && Grid(total)[0] == 0.0 && Last(Grid(total)) == total
    ensures forall i | 0 <= i < |Grid(total)| - 1 :: 0.0 < Grid(total)[i + 1] - Grid(total)[i] <= SPACING
  {
    var g, n := Grid(total), Steps(total);
    assert n >= 2;
    forall i | 0 <= i < |g| - 1 ensures 0.0 < g[i + 1] - g[i] <= SPACING {
      if i < n - 1 {
        assert g[i + 1] == (i + 1) as real * SPACING && g[i] == i as real * SPACING;
      } else {
        assert g[i] == (n - 1) as real * SPACING && g[i + 1] == total;
      }
    }
  }

  /** Per cent, over one spacing: the short last step is divided by the full spacing too. */
  function Gradient(rise: real): real {
    rise / 20.0 * 100.0
  }

  function Gradients(profile: seq<real>): (g: seq<real>)
    requires |profile| >= 1
    ensures |g| == |profile| - 1
    ensures forall i {:trigger g[i]} | 0 <= i < |g| :: g[i] == Gradient(profile[i + 1] - profile[i])
  {
    seq(|profile| - 1, i requires 0 <= i < |profile| - 1 => Gradient(profile[i + 1] - profile[i]))
  }

  predicate Over(gradient: real) {
    Abs(gradient) > MAX_INCLINE
  }

  // ---------------------------------------------------------------------------------------------
  // Runs over the limit
  // ---------------------------------------------------------------------------------------------

  /** Grid points [start, end): gradients start to end - 2 lie between them. */
  datatype Stretch = Stretch(start: nat, end: nat)

  ghost predicate IsRun(over: seq<bool>, s: Stretch) {
    && s.start < s.end - 1 <= |over|
    && (forall j | s.start <= j < s.end - 1 :: over[j])
    && (s.start == 0 || !over[s.start - 1])
    && (s.end - 1 == |over| || !over[s.end - 1])
  }

  /** All the maximal runs, in order, each once. */
  ghost predicate AreRuns(over: seq<bool>, spans: seq<Stretch>) {
    && (forall k | 0 <= k < |spans| :: IsRun(over, spans[k]))
    && (forall k, l | 0 <= k < l < |spans| :: spans[k].end <= spans[l].start)
    && (forall j | 0 <= j < |over| && over[j] :: Within(spans, j))
  }

  ghost predicate Within(spans: seq<Stretch>, j: nat) {
    exists k :: 0 <= k < |spans| && spans[k].start <= j < spans[k].end - 1
  }

  lemma WithinGrows(spans: seq<Stretch>, s: Stretch)
    ensures forall j: nat | Within(spans, j) || s.start <= j < s.end - 1 :: Within(spans + [s], j)
  {
    forall j: nat | Within(spans, j) || s.start <= j < s.end - 1 ensures Within(spans + [s], j) {
      var more := spans + [s];
      if Within(spans, j) {
        var k :| 0 <= k < |spans| && spans[k].start <= j < spans[k].end - 1;
        assert more[k] == spans[k];
      } else {
        assert more[|spans|] == s;
      }
    }
  }

  /** The loop of `build_profile`. */
  method CollectRuns(over: seq<bool>) returns (steep: seq<Stretch>)
    ensures AreRuns(over, steep)
  {
    steep := [];
    var start: Option<nat> := None;
    for i := 0 to |over|
      invariant start.Some? ==> start.value < i && forall j | start.value <= j < i :: over[j]
      invariant start.Some? ==> start.value == 0 || !over[start.value - 1]
      invariant start.None? ==> i == 0 || !over[i - 1]
      invariant forall k | 0 <= k < |steep| :: IsRun(over, steep[k])
      invariant forall k, l | 0 <= k < l < |steep| :: steep[k].end <= steep[l].start
      invariant forall k | 0 <= k < |steep| :: steep[k].end <= if start.Some? then start.value else i
      invariant forall j: nat | j < i && over[j] && (start.None? || j < start.value) :: Within(steep, j)
    {
      if over[i] && start.None? {
        start := Some(i);
      } else if !over[i] && start.Some? {
        WithinGrows(steep, Stretch(start.value, i + 1));
        steep := steep + [Stretch(start.value, i + 1)];
        start := None;
      }
    }
    if start.Some? {
      WithinGrows(steep, Stretch(start.value, |over| + 1));
      steep := steep + [Stretch(start.value, |over| + 1)];
    }
  }

  // ---------------------------------------------------------------------------------------------
  // The gradient check
  // ---------------------------------------------------------------------------------------------

  /** `np.argmax` of the absolute values: the first of the largest. */
  function Steepest(g: seq<real>): (k: nat)
    requires g != []
    ensures k < |g|
    ensures forall j | 0 <= j < |g| :: Abs(g[j]) <= Abs(g[k])
    ensures forall j | 0 <= j < k :: Abs(g[j]) < Abs(g[k])
    decreases |g|
  {
    if |g| == 1 then 0
    else
      var k := Steepest(Init(g));
      if Abs(Last(g)) > Abs(g[k]) then |g| - 1 else k
  }

  const WINDOW: nat := if (SUSTAINED_OVER / SPACING).Floor > 2 then (SUSTAINED_OVER / SPACING).Floor else 2

  /** The code's window is two gradients, 40 m, whatever the text says about 50. */
  lemma WindowIsTwo()
    ensures WINDOW == 2
  {
    assert (SUSTAINED_OVER / SPACING).Floor == 2;
  }

  function Mean(g: seq<real>, i: nat): real
    requires i + 1 < |g|
  {
    (g[i] + g[i + 1]) / 2.0
  }

  /** `np.convolve(gradients, ones(2) / 2, mode="valid")`. */
  function Rolling(g: seq<real>): (r: seq<real>)
    requires |g| >= 2
    ensures |r| == |g| - 1
  {
    seq(|g| - 1, i requires 0 <= i < |g| - 1 => Mean(g, i))
  }

  datatype Finding = Steep(index: nat) | Sustained(index: nat)

  function SustainedFinding(g: seq<real>): (findings: seq<Finding>)
    requires |g| >= 2
    ensures forall f | f in findings :: f.Sustained?
  {
    var r := Rolling(g);
    var worst := Steepest(r);
    if Abs(r[worst]) > SUSTAINED_INCLINE then [Sustained(worst)] else []
  }

  /** At most one finding, and the sustained one only when no single step is too steep. */
  function Judge(g: seq<real>): (findings: seq<Finding>)
    requires |g| >= 2
    ensures RefusedAsSteep(findings) <==> Over(g[Steepest(g)])
    ensures RefusedAsSteep(findings) ==> findings[0] == Steep(Steepest(g))
  {
    if Over(g[Steepest(g)]) then [Steep(Steepest(g))] else SustainedFinding(g)
  }

  /** `incline_findings`. */
  function InclineFindings(profile: seq<real>): seq<Finding> {
    if |profile| < 3 then [] else Judge(Gradients(profile))
  }

  function Flags(profile: seq<real>): (over: seq<bool>)
    requires |profile| >= 1
    ensures |over| == |profile| - 1
    ensures forall i | 0 <= i < |over| :: over[i] <==> Over(Gradients(profile)[i])
  {
    var g := Gradients(profile);
    seq(|g|, i requires 0 <= i < |g| => Over(g[i]))
  }

  predicate RefusedAsSteep(findings: seq<Finding>) {
    findings != [] && findings[0].Steep?
  }

  lemma SomeRunIffSomeOver(over: seq<bool>, spans: seq<Stretch>)
    requires AreRuns(over, spans)
    ensures spans != [] <==> exists j :: 0 <= j < |over| && over[j]
  {
    if spans != [] {
      assert IsRun(over, spans[0]);
      assert over[spans[0].start];
    }
    if exists j :: 0 <= j < |over| && over[j] {
      var j: nat :| j < |over| && over[j];
      assert Within(spans, j);
    }
  }

  /** What is drawn steep and what is refused as steep are the same routes, and the refused place is
      inside a drawn stretch. */
  lemma DrawingAndVerdictAgree(profile: seq<real>, spans: seq<Stretch>)
    requires |profile| >= 3 && AreRuns(Flags(profile), spans)
    ensures spans != [] <==> RefusedAsSteep(InclineFindings(profile))
    ensures RefusedAsSteep(InclineFindings(profile)) ==> Within(spans, InclineFindings(profile)[0].index)
  {
    var g, over := Gradients(profile), Flags(profile);
    var k := Steepest(g);
    SomeRunIffSomeOver(over, spans);
    assert over[k] <==> Over(g[k]);
    assert forall j | 0 <= j < |g| :: over[j] ==> over[k];
  }

  /** A mean of two gradients is the climb over their 40 m. */
  lemma RollingTelescopes(profile: seq<real>, i: nat)
    requires i + 2 < |profile|
    ensures Rolling(Gradients(profile))[i] == (profile[i + 2] - profile[i]) / 40.0 * 100.0
  {
  }

  /** A step of the grid that changes by more than 1.6 m: 8% of 20 m. */
  predicate SteepAt(profile: seq<real>, i: nat) {
    i + 1 < |profile| && Abs(profile[i + 1] - profile[i]) > 1.6
  }

  /** Two steps that change by more than 2 m together: 5% of 40 m. */
  predicate SustainedAt(profile: seq<real>, i: nat) {
    i + 2 < |profile| && Abs(profile[i + 2] - profile[i]) > 2.0
  }

  lemma SteepAtIsOver(profile: seq<real>, i: nat)
    requires i + 1 < |profile|
    ensures Over(Gradients(profile)[i]) <==> SteepAt(profile, i)
  {
  }

  lemma SustainedAtIsOver(profile: seq<real>, i: nat)
    requires i + 2 < |profile|
    ensures Abs(Rolling(Gradients(profile))[i]) > SUSTAINED_INCLINE <==> SustainedAt(profile, i)
  {
    RollingTelescopes(profile, i);
  }

  /** The steepest is over the limit exactly when some step is. */
  lemma SteepestIff(profile: seq<real>)
    requires |profile| >= 2
    ensures Over(Gradients(profile)[Steepest(Gradients(profile))]) <==> exists i :: SteepAt(profile, i)
  {
    var g := Gradients(profile);
    SteepAtIsOver(profile, Steepest(g));
    if i :| SteepAt(profile, i) { SteepAtIsOver(profile, i); }
  }

  lemma WorstIff(profile: seq<real>)
    requires |profile| >= 3
    ensures SustainedFinding(Gradients(profile)) != [] <==> exists i :: SustainedAt(profile, i)
  {
    var r := Rolling(Gradients(profile));
    SustainedAtIsOver(profile, Steepest(r));
    if i :| SustainedAt(profile, i) { SustainedAtIsOver(profile, i); }
  }

  /** The sustained finding, exactly: no single step is too steep, and some two together are. */
  lemma SustainedIff(profile: seq<real>)
    requires |profile| >= 3
    ensures InclineFindings(profile) != [] && InclineFindings(profile)[0].Sustained? <==>
              !(exists i :: SteepAt(profile, i)) && exists i :: SustainedAt(profile, i)
  {
    SteepestIff(profile);
    WorstIff(profile);
  }

  // ---------------------------------------------------------------------------------------------
  // "A sustained gradient over 50 m or more"
  // ---------------------------------------------------------------------------------------------

  /** k steps of the grid that average more than 5%: more than a metre a step. */
  predicate ClimbsOver(profile: seq<real>, i: nat, k: nat) {
    i + k < |profile| && Abs(profile[i + k] - profile[i]) > k as real
  }

  /** Over a window of two parts, one of the parts is as steep. */
  lemma PartClimbs(profile: seq<real>, i: nat, j: nat, k: nat)
    requires j <= k && ClimbsOver(profile, i, k)
    ensures ClimbsOver(profile, i, j) || ClimbsOver(profile, i + j, k - j)
  {
  }

  /** Three steps are the fewest that cover 50 m. What the sentence says, read off the grid. */
  ghost predicate SustainedOver50(profile: seq<real>) {
    exists i: nat, k: nat :: k >= 3 && ClimbsOver(profile, i, k)
  }

  ghost predicate WithinFive(profile: seq<real>) {
    exists i: nat, k: nat :: 3 <= k <= 5 && ClimbsOver(profile, i, k)
  }

  lemma {:induction false} LongWindowsReduce(profile: seq<real>, i: nat, k: nat)
    requires k >= 3 && ClimbsOver(profile, i, k)
    ensures WithinFive(profile)
    decreases k
  {
    if k > 5 {
      PartClimbs(profile, i, 3, k);
      if !ClimbsOver(profile, i, 3) { LongWindowsReduce(profile, i + 3, k - 3); }
    }
  }

  /** The sentence is true exactly when some window of three to five steps is steep enough. */
  lemma SentenceIsTrueIff(profile: seq<real>)
    ensures SustainedOver50(profile) <==> WithinFive(profile)
  {
    if i: nat, k: nat :| k >= 3 && ClimbsOver(profile, i, k) { LongWindowsReduce(profile, i, k); }
  }

  /** Two steps of 1.25 m and then level ground. */
  predicate ShortRamp(p: seq<real>) {
    |p| == 5 && p[0] == 0.0 && p[1] == 1.25 && p[2] == 2.5 && p[3] == 2.5 && p[4] == 2.5
  }

  lemma ShortRampIsNotFifty(profile: seq<real>)
    requires ShortRamp(profile)
    ensures !SustainedOver50(profile)
  {
    SentenceIsTrueIff(profile);
    forall i: nat, k: nat | 3 <= k <= 5 ensures !ClimbsOver(profile, i, k) {
      if i + k < 5 { assert (i == 0 && (k == 3 || k == 4)) || (i == 1 && k == 3); }
    }
  }

  /** On it the finding is given, and its sentence is not true. */
  lemma SustainedSaidOfForty(profile: seq<real>)
    requires ShortRamp(profile)
    ensures InclineFindings(profile) != [] && InclineFindings(profile)[0].Sustained?
    ensures !SustainedOver50(profile)
  {
    ShortRampIsNotFifty(profile);
    SustainedIff(profile);
    assert SustainedAt(profile, 0);
    forall i: nat ensures !SteepAt(profile, i) {
      assert i + 1 < 5 ==> i == 0 || i == 1 || i == 2 || i == 3;
    }
  }

  /**
    And where the sentence is true but no finding is given: exactly when no step and no two steps are
    too steep, and some three are.
  */
  lemma SustainedMissedIff(profile: seq<real>)
    requires |profile| >= 3
    ensures SustainedOver50(profile) && InclineFindings(profile) == [] <==>
              !(exists i :: SteepAt(profile, i)) && !(exists i :: SustainedAt(profile, i))
              && exists i: nat :: ClimbsOver(profile, i, 3)
  {
    SteepestIff(profile);
    WorstIff(profile);
    assert forall i: nat :: SustainedAt(profile, i) <==> ClimbsOver(profile, i, 2);
    if i: nat, k: nat :| k >= 3 && ClimbsOver(profile, i, k) { WindowsReduceToThree(profile, i, k); }
  }

  lemma {:induction false} WindowsReduceToThree(profile: seq<real>, i: nat, k: nat)
    requires k >= 2 && ClimbsOver(profile, i, k)
    ensures (exists j: nat :: ClimbsOver(profile, j, 2)) || exists j: nat :: ClimbsOver(profile, j, 3)
    decreases k
  {
    if k > 3 {
      PartClimbs(profile, i, 2, k);
      if !ClimbsOver(profile, i, 2) { WindowsReduceToThree(profile, i + 2, k - 2); }
    }
  }

  /** Sixty metres at more than 5% with an easier middle: no finding. */
  lemma SixtyMetresMissed(profile: seq<real>)
    requires |profile| == 4 && profile[0] == 0.0 && profile[1] == 1.4 && profile[2] == 1.8 && profile[3] == 3.2
    ensures SustainedOver50(profile) && InclineFindings(profile) == []
  {
    assert ClimbsOver(profile, 0, 3);
    SustainedMissedIff(profile);
  }

  function Climb(profile: seq<real>, up: bool): real
    decreases |profile|
  {
    if |profile| < 2 then 0.0
    else
      var d := Last(profile) - profile[|profile| - 2];
      Climb(Init(profile), up) + (if up then (if d > 0.0 then d else 0.0) else (if d < 0.0 then -d else 0.0))
  }

  lemma {:induction false} AscentMinusDescent(profile: seq<real>)
    requires profile != []
    ensures Climb(profile, true) - Climb(profile, false) == Last(profile) - profile[0]
    ensures Climb(profile, true) >= 0.0 && Climb(profile, false) >= 0.0
    decreases |profile|
  {
    if |profile| > 1 { AscentMinusDescent(Init(profile)); }
  }

  /** What each step of the profile rises by, and what it changes by. */
  function Rises(profile: seq<real>): seq<real> {
    if profile == [] then []
    else seq(|profile| - 1, i requires 0 <= i < |profile| - 1 => Max(0.0, profile[i + 1] - profile[i]))
  }

  function Changes(profile: seq<real>): seq<real> {
    if profile == [] then []
    else seq(|profile| - 1, i requires 0 <= i < |profile| - 1 => Abs(profile[i + 1] - profile[i]))
  }

  /** The ascent is the sum of the rises; with the descent it makes up all that the profile changes by. */
  lemma {:induction false} AscentIsAllRises(profile: seq<real>)
    requires profile != []
    ensures Climb(profile, true) == Sum(Rises(profile))
    ensures Climb(profile, true) + Climb(profile, false) == Sum(Changes(profile))
    decreases |profile|
  {
    if |profile| > 1 {
      AscentIsAllRises(Init(profile));
      LastChange(profile);
    }
  }

  lemma LastChange(profile: seq<real>)
    requires |profile| > 1
    ensures var d := Last(profile) - profile[|profile| - 2];
            && Sum(Rises(profile)) == Sum(Rises(Init(profile))) + Max(0.0, d)
            && Sum(Changes(profile)) == Sum(Changes(Init(profile))) + Abs(d)
  {
    var before := Init(profile);
    assert Init(Rises(profile)) == Rises(before) && Init(Changes(profile)) == Changes(before);
  }

  // ---------------------------------------------------------------------------------------------
  // Thinning
  // ---------------------------------------------------------------------------------------------

  /** Round half to even, as numpy and Python 3 do. */
  function Round(x: real): (n: int)
    ensures x - 0.5 <= n as real <= x + 0.5
  {
    var f := x.Floor;
    if x - f as real < 0.5 then f
    else if x - f as real > 0.5 then f + 1
    else if f % 2 == 0 then f else f + 1
  }

  lemma RoundMonotone(x: real, y: real)
    requires x <= y
    ensures Round(x) <= Round(y)
  {
    var f, e := x.Floor, y.Floor;
    assert f <= e;
  }

  lemma RoundExact(n: int)
    ensures Round(n as real) == n
  {
  }

  /** The j-th of `target` evenly spaced positions over n samples. */
  function Even(n: nat, target: nat, j: nat): real
    requires target >= 2
  {
    j as real * ((n as real - 1.0) / (target as real - 1.0))
  }

  function ThinIndex(n: nat, target: nat, j: nat): int
    requires target >= 2
  {
    Round(Even(n, target, j))
  }

  lemma MoreThanOne(a: real, b: real, step: real)
    requires 0.0 < a < b && step == b / a
    ensures step * a == b && step > 1.0
  {
    assert step * a == b;
    if step <= 1.0 { AtMostOnce(a, step); }
  }

  lemma AtMostOnce(a: real, step: real)
    requires a > 0.0 && step <= 1.0
    ensures step * a <= a
  {
    assert (1.0 - step) * a >= 0.0;
  }

  lemma OneStepOn(j: real, step: real)
    ensures (j + 1.0) * step == j * step + step
  {
  }

  lemma EvenSpacing(n: nat, target: nat, j: nat)
    requires 2 <= target < n && j < target
    ensures Even(n, target, 0) == 0.0 && Even(n, target, target - 1) == (n - 1) as real
    ensures 0.0 <= Even(n, target, j) <= (n - 1) as real
    ensures Even(n, target, j + 1) > Even(n, target, j) + 1.0
  {
    var a, b := target as real - 1.0, n as real - 1.0;
    var step := b / a;
    MoreThanOne(a, b, step);
    ScaledBetween(j as real, a, step);
    OneStepOn(j as real, step);
    assert (target - 1) as real == a && (j + 1) as real == j as real + 1.0;
  }

  lemma RoundApart(x: real, y: real)
    requires y > x + 1.0
    ensures Round(x) < Round(y)
  {
  }

  /** Thinning takes strictly increasing indices, the first and the last among them. */
  lemma ThinKeepsOrderAndEnds(n: nat, target: nat, j: nat)
    requires 2 <= target < n && j < target
    ensures 0 <= ThinIndex(n, target, j) < n
    ensures ThinIndex(n, target, 0) == 0 && ThinIndex(n, target, target - 1) == n - 1
    ensures j + 1 < target ==> ThinIndex(n, target, j) < ThinIndex(n, target, j + 1)
  {
    EvenSpacing(n, target, j);
    RoundExact(n - 1);
    RoundExact(0);
    RoundMonotone(0.0, Even(n, target, j));
    RoundMonotone(Even(n, target, j), (n - 1) as real);
    RoundApart(Even(n, target, j), Even(n, target, j + 1));
  }

  /** `_thin` to the number of points that are drawn. */
  function Thin(values: seq<real>): (thin: seq<real>)
    ensures |thin| == Thinned(|values|)
    ensures thin != [] ==> thin[0] == values[0] && Last(thin) == Last(values)
  {
    if |values| <= MAX_PROFILE_POINTS then values
    else
      var n := |values|;
      assert forall j: nat | j < MAX_PROFILE_POINTS :: 0 <= ThinIndex(n, MAX_PROFILE_POINTS, j) < n by {
        forall j: nat | j < MAX_PROFILE_POINTS ensures 0 <= ThinIndex(n, MAX_PROFILE_POINTS, j) < n {
          ThinKeepsOrderAndEnds(n, MAX_PROFILE_POINTS, j);
        }
      }
      ThinKeepsOrderAndEnds(n, MAX_PROFILE_POINTS, 0);
      seq(MAX_PROFILE_POINTS, j requires 0 <= j < MAX_PROFILE_POINTS => values[ThinIndex(n, MAX_PROFILE_POINTS, j)])
  }

  /** Where a whole position on a scale of `steps` is the nearest to `x` of a scale of `total`; halves go to even. */
  predicate Nearest(steps: int, total: int, x: int, k: int) {
    && -total <= 2 * (k * total - x * steps) <= total
    && (2 * (k * total - x * steps) == total || 2 * (k * total - x * steps) == -total ==> k % 2 == 0)
  }

  lemma RoundedQuotient(x: real, top: int, total: int)
    requires total > 0 && x * total as real == top as real
    ensures var d := 2 * (Round(x) * total - top);
            -total <= d <= total && (d == total || d == -total ==> Round(x) % 2 == 0)
  {
    var k := Round(x);
    var p := OffTimes(k, x, top, total, total as real);
    ScaledWithin(k as real - x, total as real, p);
    AsIntegers(k * total, top, total, p);
    RoundHalf(x);
  }

  lemma OffTimes(k: int, x: real, top: int, total: int, t: real) returns (p: real)
    requires t == total as real && x * t == top as real
    ensures p == (k as real - x) * t && p == (k * total) as real - top as real
  {
    p := (k as real - x) * t;
    Difference(k as real, x, t);
    RealProduct(k, total);
  }

  lemma AsIntegers(kt: int, top: int, total: int, p: real)
    requires p == kt as real - top as real && -(total as real) <= 2.0 * p <= total as real
    ensures -total <= 2 * (kt - top) <= total
    ensures 2 * (kt - top) == total ==> 2.0 * p == total as real
    ensures 2 * (kt - top) == -total ==> 2.0 * p == -(total as real)
  {
  }

  lemma RealProduct(a: int, b: int)
    ensures (a * b) as real == a as real * b as real
  {
  }

  /** A half goes to the even neighbour. */
  lemma RoundHalf(x: real)
    ensures Round(x) as real - x == 0.5 || Round(x) as real - x == -0.5 ==> Round(x) % 2 == 0
  {
  }

  lemma ScaledWithin(off: real, t: real, p: real)
    requires t > 0.0 && -0.5 <= off <= 0.5 && p == off * t
    ensures -t <= 2.0 * p <= t
    ensures 2.0 * p == t ==> off == 0.5
    ensures 2.0 * p == -t ==> off == -0.5
  {
    SignOfFactor(0.5 - off, t);
    SignOfFactor(off + 0.5, t);
  }

  /** Every value that is drawn is the sample nearest to its even share of the profile. */
  lemma ThinIsEven(values: seq<real>, j: nat) returns (k: nat)
    requires |values| > MAX_PROFILE_POINTS && j < MAX_PROFILE_POINTS
    ensures k < |values| && Thin(values)[j] == values[k]
    ensures Nearest(|values| - 1, MAX_PROFILE_POINTS - 1, j, k)
  {
    ThinKeepsOrderAndEnds(|values|, MAX_PROFILE_POINTS, j);
    k := ThinIndex(|values|, MAX_PROFILE_POINTS, j);
    IndexIsEven(|values|, j);
  }

  lemma IndexIsEven(n: nat, j: nat)
    requires n > MAX_PROFILE_POINTS
    ensures Nearest(n - 1, MAX_PROFILE_POINTS - 1, j, ThinIndex(n, MAX_PROFILE_POINTS, j))
  {
    EvenShare(n, j);
    RoundedQuotient(Even(n, MAX_PROFILE_POINTS, j), j * (n - 1), MAX_PROFILE_POINTS - 1);
  }

  lemma EvenShare(n: nat, j: nat)
    requires n >= 1
    ensures Even(n, MAX_PROFILE_POINTS, j) * (MAX_PROFILE_POINTS - 1) as real == (j * (n - 1)) as real
  {
    var step := (n as real - 1.0) / 119.0;
    assert step * 119.0 == n as real - 1.0;
    assert j as real * step * 119.0 == j as real * (step * 119.0);
    assert j as real * (n - 1) as real == (j * (n - 1)) as real;
  }

  lemma ScaledBetween(a: real, b: real, step: real)
    requires 0.0 <= a <= b && step >= 0.0
    ensures 0.0 <= a * step <= b * step
  {
    assert (b - a) * step >= 0.0;
  }

  function Thinned(n: nat): nat {
    if n <= MAX_PROFILE_POINTS then n else MAX_PROFILE_POINTS
  }

  function Scale(n: nat): real {
    (Thinned(n) as real - 1.0) / (if n <= 1 then 1.0 else n as real - 1.0)
  }

  function Clamp(x: int, hi: nat): (c: nat)
    ensures c <= hi
  {
    if x < 0 then 0 else if x > hi then hi else x
  }

  /** Where a full-grid index lands on the thinned grid. */
  function Place(n: nat, i: nat): int {
    Round(i as real * Scale(n))
  }

  /** Clamp to m samples; a stretch rounded to nothing keeps the sample it starts on. */
  function Fit(m: nat, start: int, end: int): Stretch
    requires m >= 1
  {
    var lo, hi := Clamp(start, m - 1), Clamp(end, m);
    Stretch(lo, if hi < lo + 1 then lo + 1 else hi)
  }

  /** A stretch of the full grid of n points, re-expressed against the thinned one. */
  function Rescale(n: nat, s: Stretch): Stretch
    requires n >= 1
  {
    Fit(Thinned(n), Place(n, s.start), Place(n, s.end))
  }

  lemma FitKeepsShape(m: nat, a: int, b: int, c: int, d: int)
    requires m >= 1 && a <= c && b <= d
    ensures Fit(m, a, b).start < Fit(m, a, b).end <= m
    ensures Fit(m, a, b).start <= Fit(m, c, d).start && Fit(m, a, b).end <= Fit(m, c, d).end
  {
  }

  lemma PlaceMonotone(n: nat, i: nat, j: nat)
    requires n >= 3 && i <= j
    ensures Place(n, i) <= Place(n, j)
  {
    ScalePositive(n);
    ScaledBetween(i as real, j as real, Scale(n));
    RoundMonotone(i as real * Scale(n), j as real * Scale(n));
  }

  lemma ScalePositive(n: nat)
    requires n >= 3
    ensures Scale(n) > 0.0
    ensures n <= MAX_PROFILE_POINTS ==> Scale(n) == 1.0
  {
    var q := n as real - 1.0;
    assert q / q == 1.0;
  }

  /** Rescaled stretches are in bounds, never empty, and keep their order. */
  lemma RescaleKeepsShape(n: nat, s: Stretch, t: Stretch)
    requires n >= 3 && s.start <= t.start && s.end <= t.end
    ensures Rescale(n, s).start < Rescale(n, s).end <= Thinned(n)
    ensures Rescale(n, s).start <= Rescale(n, t).start && Rescale(n, s).end <= Rescale(n, t).end
  {
    PlaceMonotone(n, s.start, t.start);
    PlaceMonotone(n, s.end, t.end);
    FitKeepsShape(Thinned(n), Place(n, s.start), Place(n, s.end), Place(n, t.start), Place(n, t.end));
  }

  lemma PlaceExact(n: nat, i: nat)
    requires 3 <= n <= MAX_PROFILE_POINTS
    ensures Place(n, i) == i
  {
    ScalePositive(n);
    assert i as real * Scale(n) == i as real;
    RoundExact(i);
  }

  /** Up to 120 samples nothing moves. */
  lemma RescaleExactWhenNotThinned(n: nat, s: Stretch)
    requires 3 <= n <= MAX_PROFILE_POINTS && s.start < s.end <= n
    ensures Rescale(n, s) == s
  {
    PlaceExact(n, s.start);
    PlaceExact(n, s.end);
  }

  lemma PlaceIsNearest(n: nat, i: nat)
    requires n > MAX_PROFILE_POINTS
    ensures Nearest(MAX_PROFILE_POINTS - 1, n - 1, i, Place(n, i))
  {
    PlacedShare(n, i, i as real * Scale(n));
    RoundedQuotient(i as real * Scale(n), i * 119, n - 1);
  }

  lemma PlacedShare(n: nat, i: nat, x: real)
    requires n > MAX_PROFILE_POINTS && x == i as real * Scale(n)
    ensures x * (n - 1) as real == (i * 119) as real
  {
    PlacedAt(i as real, n as real - 1.0, x);
  }

  /**
    Past 120 samples a drawn stretch starts on the drawn sample nearest to its start and ends on the one
    nearest to its end, or one sample on where that would leave nothing.
  */
  lemma RescaleIsNearest(n: nat, s: Stretch) returns (end: int)
    requires n > MAX_PROFILE_POINTS && s.start < s.end <= n
    ensures var r := Rescale(n, s);
            && Nearest(MAX_PROFILE_POINTS - 1, n - 1, s.start, r.start)
            && Nearest(MAX_PROFILE_POINTS - 1, n - 1, s.end, end)
            && r.end == if end > r.start then end else r.start + 1
  {
    end := Place(n, s.end);
    PlaceIsNearest(n, s.start);
    PlaceIsNearest(n, s.end);
    WithinDrawn(n, s.start, Place(n, s.start));
    EndWithinDrawn(n, s.end, end);
  }

  lemma TimesOrdered(a: int, b: int, q: int)
    requires a <= b && q >= 0
    ensures a * q <= b * q
  {
  }

  lemma WithinDrawn(n: nat, i: nat, k: int)
    requires n > MAX_PROFILE_POINTS && i < n && Nearest(119, n - 1, i, k)
    ensures 0 <= k <= 119
  {
    if k < 0 { TimesOrdered(k, -1, n - 1); }
    if k > 119 { TimesOrdered(120, k, n - 1); }
  }

  lemma EndWithinDrawn(n: nat, i: nat, k: int)
    requires n > MAX_PROFILE_POINTS && i <= n && Nearest(119, n - 1, i, k)
    ensures 0 <= k <= 120
  {
    if k < 0 { TimesOrdered(k, -1, n - 1); }
    if k > 120 { TimesOrdered(121, k, n - 1); }
  }

  /** The far end of the full grid lands a little past the 119th step. */
  lemma EndPlace(n: nat) returns (extra: real)
    requires n > MAX_PROFILE_POINTS
    ensures n as real * Scale(n) == 119.0 + extra
    ensures 0.0 < extra <= 1.0
    ensures extra >= 0.5 <==> n <= 239
  {
    var q := n as real - 1.0;
    extra := 119.0 / q;
    assert extra * q == 119.0;
    assert Scale(n) == extra;
    assert n as real * extra == extra * q + extra;
    SignOfFactor(extra, q);
    SignOfFactor(1.0 - extra, q);
    SignOfFactor(extra - 0.5, q);
  }

  lemma SignOfFactor(x: real, q: real)
    requires q > 0.0
    ensures x * q >= 0.0 <==> x >= 0.0
    ensures x * q > 0.0 <==> x > 0.0
  {
    if x > 0.0 {
      assert x * q > 0.0;
    } else if x < 0.0 {
      assert (-x) * q > 0.0;
    }
  }

  lemma SignOfProduct(d: real, q: real, p: real)
    requires q > 0.0 && d * q == p
    ensures d > 0.0 <==> p > 0.0
  {
    SignOfFactor(d, q);
  }

  lemma Difference(x: real, y: real, q: real)
    ensures (x - y) * q == x * q - y * q
  {
  }

  /** A quotient of the drawn steps, multiplied out. */
  lemma PlacedAt(i: real, q: real, x: real)
    requires q > 0.0 && x == i * (119.0 / q)
    ensures x * q == 119.0 * i
  {
    var c := 119.0 / q;
    assert c * q == 119.0;
    assert x * q == i * (c * q);
  }

  lemma PastTheHalf(i: real, q: real, x: real)
    requires q > 0.0 && x * q == 119.0 * i
    ensures x > 118.5 <==> 119.0 * i - 118.5 * q > 0.0
  {
    Difference(x, 118.5, q);
    SignOfProduct(x - 118.5, q, 119.0 * i - 118.5 * q);
  }

  /** Where a start rounds to the last thinned index: past 118.5 of its 119 steps, the half itself going down. */
  lemma StartsOnTheLast(n: nat, i: nat)
    requires n > MAX_PROFILE_POINTS
    ensures Place(n, i) >= 119 <==> 238 * i > 237 * (n - 1)
  {
    var q, x := n as real - 1.0, i as real * Scale(n);
    PlacedAt(i as real, q, x);
    PastTheHalf(i as real, q, x);
    RoundsTo119(x);
    AsWhole(i, n);
  }

  lemma AsWhole(i: nat, n: nat)
    requires n >= 1
    ensures 119.0 * i as real - 118.5 * (n as real - 1.0) > 0.0 <==> 238 * i > 237 * (n - 1)
  {
    assert (238 * i - 237 * (n - 1)) as real == 238.0 * i as real - 237.0 * (n as real - 1.0);
  }

  lemma RoundsTo119(x: real)
    ensures Round(x) >= 119 <==> x > 118.5
  {
    if x > 118.5 { RoundMonotone(118.5, x); }
    assert x == 118.5 ==> x.Floor == 118;
    if 118.5 < x < 119.0 { assert x.Floor == 118; }
    if x >= 119.0 {
      RoundExact(119);
      RoundMonotone(119.0, x);
    }
    if x < 118.5 {
      assert Round(118.5) == 118 by { assert (118.5).Floor == 118; }
      RoundMonotone(x, 118.5);
    }
  }

  /**
    A run to the very end is drawn to the last sample exactly when there are at most 239, or it starts
    so near the end that it rounds to the last sample itself and is widened over it.
  */
  lemma LastSampleKeptIff(n: nat, s: Stretch)
    requires n >= 3 && s.start + 1 < s.end == n
    ensures Rescale(n, s).end == Thinned(n) <==> n <= 239 || 238 * s.start > 237 * (n - 1)
  {
    if n <= MAX_PROFILE_POINTS {
      RescaleExactWhenNotThinned(n, s);
    } else {
      EndRoundsTo(n);
      StartsOnTheLast(n, s.start);
    }
  }

  lemma EndRoundsTo(n: nat)
    requires n > MAX_PROFILE_POINTS
    ensures Place(n, n) == if n <= 239 then 120 else 119
  {
    var extra := EndPlace(n);
    RoundNear119(extra);
  }

  /** A route that is steep all along loses its last sample from 240 samples on. */
  lemma LongSteepEndLosesTheLast(n: nat)
    requires n >= 240
    ensures Rescale(n, Stretch(0, n)).end != Thinned(n)
  {
    LastSampleKeptIff(n, Stretch(0, n));
  }

  /** A single steep step at the end never does. */
  lemma LastStepKeepsTheLast(n: nat)
    requires n >= 3
    ensures Rescale(n, Stretch(n - 2, n)).end == Thinned(n)
  {
    LastSampleKeptIff(n, Stretch(n - 2, n));
  }

  lemma RoundNear119(extra: real)
    requires 0.0 < extra <= 1.0
    ensures Round(119.0 + extra) == if extra >= 0.5 then 120 else 119
  {
    assert extra < 1.0 ==> (119.0 + extra).Floor == 119;
  }

  // ---------------------------------------------------------------------------------------------
  // The profile
  // ---------------------------------------------------------------------------------------------

  datatype Profile = Profile(ascent: real, descent: real, maxGradient: real, steep: seq<Stretch>, drawn: seq<real>)

  method RescaleAll(n: nat, steep: seq<Stretch>) returns (scaled: seq<Stretch>)
    requires n >= 1
    ensures |scaled| == |steep| && forall k | 0 <= k < |steep| :: scaled[k] == Rescale(n, steep[k])
  {
    scaled := [];
    for k := 0 to |steep|
      invariant |scaled| == k && forall l | 0 <= l < k :: scaled[l] == Rescale(n, steep[l])
    {
      scaled := scaled + [Rescale(n, steep[k])];
    }
  }

  method AscentAndDescent(profile: seq<real>) returns (ascent: real, descent: real)
    requires profile != []
    ensures ascent == Sum(Rises(profile)) && ascent + descent == Sum(Changes(profile))
    ensures ascent - descent == Last(profile) - profile[0]
  {
    ascent, descent := 0.0, 0.0;
    for i := 1 to |profile|
      invariant ascent == Climb(profile[..i], true) && descent == Climb(profile[..i], false)
    {
      assert Init(profile[..i + 1]) == profile[..i];
      var d := profile[i] - profile[i - 1];
      if d > 0.0 { ascent := ascent + d; } else if d < 0.0 { descent := descent - d; }
    }
    assert profile[..|profile|] == profile;
    AscentMinusDescent(profile);
    AscentIsAllRises(profile);
  }

  /**
    `build_profile` after resampling. None for fewer than three samples; otherwise the marked
    stretches are the rescaled maximal runs, one for one and in order.
  */
  method BuildProfile(profile: seq<real>) returns (p: Option<Profile>, ghost runs: seq<Stretch>)
    ensures p.None? <==> |profile| < 3
    ensures p.Some? ==>
              && AreRuns(Flags(profile), runs)
              && |p.value.steep| == |runs|
              && (forall k | 0 <= k < |runs| :: p.value.steep[k] == Rescale(|profile|, runs[k]))
              && p.value.ascent == Sum(Rises(profile)) && p.value.ascent + p.value.descent == Sum(Changes(profile))
              && p.value.ascent - p.value.descent == Last(profile) - profile[0]
              && p.value.maxGradient == Abs(Gradients(profile)[Steepest(Gradients(profile))])
              && p.value.drawn == Thin(profile)
  {
    runs := [];
    if |profile| < 3 { return None, runs; }
    var ascent, descent := AscentAndDescent(profile);
    var steep := CollectRuns(Flags(profile));
    runs := steep;
    var scaled := RescaleAll(|profile|, steep);
    var g := Gradients(profile);
    p := Some(Profile(ascent, descent, Abs(g[Steepest(g)]), scaled, Thin(profile)));
  }
}
