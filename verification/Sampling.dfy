/**
 * Evenly spaced samples along a polyline: `sample_every` in backend/geometry.py.
 *
 * One pass with an index that never moves back, proved equal to looking every distance up from
 * scratch, and then what those samples promise: where they lie, how far apart, and that the hard
 * limit on their number never costs the end of the route.
 */
module Sampling {
  import opened Prelude
  import opened Geometry

  datatype Sample = Sample(point: LatLon, at: real)

  function Clamp(lo: real, hi: real, x: real): (r: real)
    requires lo <= hi
    ensures lo <= r <= hi
    ensures lo <= x <= hi ==> r == x
  {
    Min(hi, Max(lo, x))
  }

  function Blend(a: real, b: real, t: real): real {
    a + (b - a) * t
  }

  function Interpolate(a: LatLon, b: LatLon, t: real): LatLon {
    LatLon(Clamp(-90.0, 90.0, Blend(a.lat, b.lat, t)), Clamp(-180.0, 180.0, Blend(a.lon, b.lon, t)))
  }

  ghost predicate OnTheGlobe(p: LatLon) {
    -90.0 <= p.lat <= 90.0 && -180.0 <= p.lon <= 180.0
  }

  ghost predicate Between(a: real, x: real, b: real) {
    a <= x <= b || b <= x <= a
  }

  lemma ShareFits(w: real, t: real, m: real)
    requires w >= 0.0 && 0.0 <= t <= 1.0 && m == w * t
    ensures 0.0 <= m <= w
  {
    assert w * (1.0 - t) >= 0.0;
  }

  lemma BlendIsBetween(a: real, b: real, t: real)
    requires 0.0 <= t <= 1.0
    ensures Between(a, Blend(a, b, t), b)
  {
    var m := (b - a) * t;
    if b >= a {
      ShareFits(b - a, t, m);
    } else {
      assert -m == (a - b) * t;
      ShareFits(a - b, t, -m);
    }
  }

  /** Between two coordinates on the globe the clamp never bites: the point is the plain blend. */
  lemma InterpolateIsPlain(a: LatLon, b: LatLon, t: real)
    requires OnTheGlobe(a) && OnTheGlobe(b) && 0.0 <= t <= 1.0
    ensures Interpolate(a, b, t) == LatLon(Blend(a.lat, b.lat, t), Blend(a.lon, b.lon, t))
    ensures Between(a.lat, Interpolate(a, b, t).lat, b.lat) && Between(a.lon, Interpolate(a, b, t).lon, b.lon)
  {
    BlendIsBetween(a.lat, b.lat, t);
    BlendIsBetween(a.lon, b.lon, t);
  }

  // ---------- Distances and the segment a distance falls on ----------

  lemma CumStep(lengths: seq<real>, i: nat)
    requires i < |lengths|
    ensures Cum(lengths, i + 1) == Cum(lengths, i) + lengths[i]
  {
    assert Init(lengths[..i + 1]) == lengths[..i];
  }

  function Cumulative(lengths: seq<real>): (c: seq<real>)
    ensures |c| == |lengths| + 1
    ensures forall i {:trigger c[i]} | 0 <= i <= |lengths| :: c[i] == Cum(lengths, i)
  {
    seq(|lengths| + 1, i requires 0 <= i <= |lengths| => Cum(lengths, i))
  }

  /** The first segment at or after `from` that reaches as far as `d`, or the last segment. */
  function Locate(lengths: seq<real>, d: real, from: nat): (i: nat)
    requires from < |lengths|
    ensures from <= i < |lengths|
    decreases |lengths| - from
  {
    if from < |lengths| - 1 && Cum(lengths, from + 1) < d then Locate(lengths, d, from + 1) else from
  }

  lemma {:induction false} LocateStops(lengths: seq<real>, d: real, from: nat)
    requires from < |lengths|
    ensures forall j {:trigger Cum(lengths, j)} | from < j <= Locate(lengths, d, from) :: Cum(lengths, j) < d
    ensures Locate(lengths, d, from) == |lengths| - 1 || d <= Cum(lengths, Locate(lengths, d, from) + 1)
    decreases |lengths| - from
  {
    if from < |lengths| - 1 && Cum(lengths, from + 1) < d { LocateStops(lengths, d, from + 1); }
  }

  /** Every vertex passed so far lies short of `d`. */
  ghost predicate PassedOnly(lengths: seq<real>, idx: nat, d: real) {
    idx < |lengths| && forall j {:trigger Cum(lengths, j)} | 0 < j <= idx :: Cum(lengths, j) < d
  }

  lemma PassedStillShort(lengths: seq<real>, idx: nat, d: real, e: real)
    requires PassedOnly(lengths, idx, d) && d <= e
    ensures PassedOnly(lengths, idx, e)
  {
  }

  /** Starting the search late costs nothing as long as everything skipped lies short of `d`. */
  lemma {:induction false} LocateSkips(lengths: seq<real>, d: real, from: nat, to: nat)
    requires from <= to < |lengths|
    requires forall j {:trigger Cum(lengths, j)} | from < j <= to :: Cum(lengths, j) < d
    ensures Locate(lengths, d, from) == Locate(lengths, d, to)
    decreases |lengths| - from
  {
    if from < to { LocateSkips(lengths, d, from + 1, to); }
  }

  /** The bracket the moving index always keeps. */
  lemma LocateBrackets(lengths: seq<real>, d: real)
    requires |lengths| > 0 && NonNegative(lengths) && 0.0 <= d <= Cum(lengths, |lengths|)
    ensures Cum(lengths, Locate(lengths, d, 0)) <= d <= Cum(lengths, Locate(lengths, d, 0) + 1)
  {
    LocateStops(lengths, d, 0);
    assert lengths[..0] == [];
  }

  // ---------- The point a given distance along the line ----------

  /** How far `d` falls between `before` and `after`; 0 when they are no distance apart. */
  function Share(before: real, after: real, d: real): real {
    if after - before <= 0.0 then 0.0 else (d - before) / (after - before)
  }

  /** How far along segment `i` the distance `d` falls. */
  function Fraction(lengths: seq<real>, d: real, i: nat): real
    requires i < |lengths|
  {
    Share(Cum(lengths, i), Cum(lengths, i + 1), d)
  }

  function PointAt(l: Line, d: real): LatLon
    requires |l.points| == |l.lengths| + 1 && |l.lengths| > 0
  {
    var i := Locate(l.lengths, d, 0);
    Interpolate(l.points[i], l.points[i + 1], Fraction(l.lengths, d, i))
  }

  lemma QuotientFits(a: real, b: real)
    requires b > 0.0 && 0.0 <= a <= b
    ensures 0.0 <= a / b <= 1.0 && (a / b) * b == a
  {
    QuotientBounds(a, b, a / b);
  }

  lemma QuotientBounds(a: real, b: real, q: real)
    requires b > 0.0 && 0.0 <= a <= b && q * b == a
    ensures 0.0 <= q <= 1.0
  {
    assert q < 0.0 ==> q * b < 0.0;
    assert q > 1.0 ==> (q - 1.0) * b > 0.0;
  }

  lemma ShareIsExact(before: real, after: real, d: real)
    requires before <= d <= after
    ensures 0.0 <= Share(before, after, d) <= 1.0
    ensures Blend(before, after, Share(before, after, d)) == d
  {
    if before < after { QuotientFits(d - before, after - before); }
  }

  /** The fraction is one, and it puts the point exactly `d` along the line. */
  lemma FractionIsExact(lengths: seq<real>, d: real)
    requires |lengths| > 0 && NonNegative(lengths) && 0.0 <= d <= Cum(lengths, |lengths|)
    ensures 0.0 <= Fraction(lengths, d, Locate(lengths, d, 0)) <= 1.0
    ensures Blend(Cum(lengths, Locate(lengths, d, 0)), Cum(lengths, Locate(lengths, d, 0) + 1),
                  Fraction(lengths, d, Locate(lengths, d, 0))) == d
  {
    var i := Locate(lengths, d, 0);
    LocateBrackets(lengths, d);
    ShareIsExact(Cum(lengths, i), Cum(lengths, i + 1), d);
  }

  ghost predicate OnSegment(l: Line, i: nat, p: LatLon)
    requires i + 1 < |l.points|
  {
    Between(l.points[i].lat, p.lat, l.points[i + 1].lat) && Between(l.points[i].lon, p.lon, l.points[i + 1].lon)
  }

  /** The sampled point lies on its own segment of the line, in both coordinates. */
  lemma PointIsOnTheLine(l: Line, d: real)
    requires IsLine(l) && |l.points| > 1 && 0.0 <= d <= Cum(l.lengths, |l.lengths|)
    requires forall p | p in l.points :: OnTheGlobe(p)
    ensures OnTheGlobe(PointAt(l, d))
    ensures OnSegment(l, Locate(l.lengths, d, 0), PointAt(l, d))
  {
    var i := Locate(l.lengths, d, 0);
    var t := Fraction(l.lengths, d, i);
    FractionIsExact(l.lengths, d);
    InterpolateIsPlain(l.points[i], l.points[i + 1], t);
  }

  // ---------- How many samples ----------

  function Ceil(x: real): (n: int)
    ensures (n - 1) as real < x <= n as real
  {
    -((-x).Floor)
  }

  /** `spacing`: the one asked for, unless that would need too many samples. */
  function Spacing(total: real, asked: real, most: int): (s: real)
    requires total > 0.0
    ensures s > 0.0 && s >= asked
  {
    Max(asked, total / (if most - 1 > 1 then most - 1 else 1) as real)
  }

  /** The `k`-th element of `np.arange(0, total, spacing)`. */
  function Multiple(s: real, k: nat): real {
    if k == 0 then 0.0 else Multiple(s, k - 1) + s
  }

  lemma {:induction false} MultipleIsProduct(s: real, k: nat)
    ensures Multiple(s, k) == k as real * s
  {
    if k > 0 {
      MultipleIsProduct(s, k - 1);
      OneMore(k as real - 1.0, s);
    }
  }

  lemma OneMore(x: real, s: real)
    ensures x * s + s == (x + 1.0) * s
  {
  }

  lemma {:induction false} MultiplesGrow(s: real, i: nat, j: nat)
    requires s > 0.0 && i <= j
    ensures Multiple(s, i) <= Multiple(s, j)
    ensures i < j ==> Multiple(s, i) < Multiple(s, j)
    ensures Multiple(s, j) >= 0.0
    decreases j
  {
    if i < j { MultiplesGrow(s, i, j - 1); } else if j > 0 { MultiplesGrow(s, i - 1, j - 1); }
  }

  /** The number of elements of `np.arange(0, total, spacing)`. */
  function Count(total: real, spacing: real): (n: nat)
    requires total > 0.0 && spacing > 0.0
    ensures n > 0
  {
    var q := total / spacing;
    assert q * spacing == total;
    assert q > 0.0;
    Ceil(q)
  }

  /** The targets are the multiples of the spacing that lie short of the end, and all of them. */
  lemma CountIsExact(total: real, spacing: real, k: nat)
    requires total > 0.0 && spacing > 0.0
    ensures Multiple(spacing, k) < total <==> k < Count(total, spacing)
  {
    MultipleIsProduct(spacing, k);
    Scaled(k as real, total / spacing, spacing);
  }

  /** Multiplying by a positive number keeps and reflects order. */
  lemma Scaled(a: real, b: real, s: real)
    requires s > 0.0
    ensures a < b <==> a * s < b * s
  {
    ScaledSign(b - a, s);
  }

  lemma ScaledSign(d: real, s: real)
    requires s > 0.0
    ensures d > 0.0 <==> d * s > 0.0
  {
  }

  /** With room for two or more, the targets and the end together are never more than allowed. */
  lemma CountFits(total: real, asked: real, most: int)
    requires total > 0.0 && most >= 2
    ensures Count(total, Spacing(total, asked, most)) + 1 <= most
  {
    var n := (most - 1) as real;
    var s := Spacing(total, asked, most);
    Scaled(s, total / n, n);
    MultipleIsProduct(s, most - 1);
    CountIsExact(total, s, most - 1);
  }

  // ---------- The samples ----------

  /** A Python slice `s[:m]`, with a negative `m` counted from the end. */
  function Head<T>(s: seq<T>, m: int): (h: seq<T>)
    ensures h <= s && (m >= |s| ==> h == s)
  {
    if m >= |s| then s else if m >= 0 then s[..m] else if |s| + m >= 0 then s[..|s| + m] else []
  }

  function Targets(l: Line, spacing: real, n: nat): (s: seq<Sample>)
    requires |l.points| == |l.lengths| + 1 && |l.lengths| > 0
    ensures |s| == n
    ensures forall k {:trigger s[k]} | 0 <= k < n ::
              s[k].at == Multiple(spacing, k) && s[k].point == PointAt(l, Multiple(spacing, k))
  {
    seq(n, k requires 0 <= k < n => Sample(PointAt(l, Multiple(spacing, k)), Multiple(spacing, k)))
  }

  function Total(l: Line): real {
    Sum(l.lengths)
  }

  /** All the samples before the slice. */
  function Whole(l: Line, asked: real, most: int): seq<Sample>
    requires IsLine(l) && |l.points| > 1 && Total(l) > 0.0
  {
    var spacing := Spacing(Total(l), asked, most);
    Targets(l, spacing, Count(Total(l), spacing)) + [Sample(Last(l.points), Total(l))]
  }

  function SamplesOf(l: Line, asked: real, most: int): seq<Sample>
    requires IsLine(l)
  {
    if l.points == [] then []
    else if |l.points| == 1 || Total(l) <= 0.0 then [Sample(l.points[0], 0.0)]
    else Head(Whole(l, asked, most), most)
  }

  /** Where the index stops is where a search from scratch stops. */
  lemma AfterAdvance(l: Line, d: real, idx: nat, t: real)
    requires |l.points| == |l.lengths| + 1 && PassedOnly(l.lengths, idx, d)
    requires idx < |l.lengths| - 1 ==> d <= Cum(l.lengths, idx + 1)
    requires t == Share(Cum(l.lengths, idx), Cum(l.lengths, idx + 1), d)
    ensures PointAt(l, d) == Interpolate(l.points[idx], l.points[idx + 1], t)
  {
    LocateSkips(l.lengths, d, 0, idx);
    CumStep(l.lengths, idx);
  }

  /** One round of the outer loop. */
  lemma OneMoreTarget(l: Line, spacing: real, k: nat, idx: nat, t: real)
    requires |l.points| == |l.lengths| + 1 && spacing > 0.0
    requires PassedOnly(l.lengths, idx, Multiple(spacing, k))
    requires idx < |l.lengths| - 1 ==> Multiple(spacing, k) <= Cum(l.lengths, idx + 1)
    requires t == Share(Cum(l.lengths, idx), Cum(l.lengths, idx + 1), Multiple(spacing, k))
    ensures Targets(l, spacing, k)
          + [Sample(Interpolate(l.points[idx], l.points[idx + 1], t), Multiple(spacing, k))]
         == Targets(l, spacing, k + 1)
    ensures PassedOnly(l.lengths, idx, Multiple(spacing, k + 1))
  {
    AfterAdvance(l, Multiple(spacing, k), idx, t);
    PassedStillShort(l.lengths, idx, Multiple(spacing, k), Multiple(spacing, k + 1));
  }

  method SampleEvery(l: Line, asked: real, most: int) returns (out: seq<Sample>)
    requires IsLine(l)
    ensures out == SamplesOf(l, asked, most)
  {
    if l.points == [] { return []; }
    if |l.points| == 1 { return [Sample(l.points[0], 0.0)]; }
    var cum := Cumulative(l.lengths);
    var total := Last(cum);
    assert l.lengths[..|l.lengths|] == l.lengths;
    if total <= 0.0 { return [Sample(l.points[0], 0.0)]; }
    var spacing := Spacing(total, asked, most);
    var n := Count(total, spacing);
    out := [];
    var idx := 0;
    for k := 0 to n
      invariant out == Targets(l, spacing, k)
      invariant PassedOnly(l.lengths, idx, Multiple(spacing, k))
    {
      var target := Multiple(spacing, k);
      while idx < |cum| - 2 && cum[idx + 1] < target
        invariant PassedOnly(l.lengths, idx, target)
        decreases |cum| - idx
      {
        idx := idx + 1;
      }
      var t := Share(cum[idx], cum[idx + 1], target);
      out := out + [Sample(Interpolate(l.points[idx], l.points[idx + 1], t), target)];
      OneMoreTarget(l, spacing, k, idx, t);
    }
    out := out + [Sample(Last(l.points), total)];
    out := Head(out, most);
  }

  // ---------- What the samples promise ----------

  ghost predicate Increasing(s: seq<Sample>) {
    forall i, j | 0 <= i < j < |s| :: s[i].at < s[j].at
  }

  ghost predicate FromStartToEnd(l: Line, s: seq<Sample>)
    requires |l.points| > 0
  {
    |s| > 1 && Increasing(s) && s[0].at == 0.0 && Last(s) == Sample(Last(l.points), Total(l))
  }

  /** From the start to the end of the route, in strictly increasing order, nothing cut off. */
  lemma SamplesRunStartToEnd(l: Line, asked: real, most: int)
    requires IsLine(l) && |l.points| > 1 && Total(l) > 0.0
    requires most >= 2
    ensures FromStartToEnd(l, SamplesOf(l, asked, most)) && |SamplesOf(l, asked, most)| <= most
  {
    var total := Total(l);
    var spacing := Spacing(total, asked, most);
    CountFits(total, asked, most);
    var s := Whole(l, asked, most);
    forall i, j | 0 <= i < j < |s| ensures s[i].at < s[j].at {
      if j < |s| - 1 { MultiplesGrow(spacing, i, j); } else { CountIsExact(total, spacing, i); }
    }
  }

  /** No gap is wider than the spacing used, the last one included. */
  lemma GapsAreAtMostTheSpacing(l: Line, asked: real, most: int, k: nat)
    requires IsLine(l) && |l.points| > 1 && Total(l) > 0.0 && most >= 2
    requires k + 1 < |SamplesOf(l, asked, most)|
    ensures SamplesOf(l, asked, most)[k + 1].at - SamplesOf(l, asked, most)[k].at <= Spacing(Total(l), asked, most)
  {
    var total := Total(l);
    var spacing := Spacing(total, asked, most);
    CountFits(total, asked, most);
    CountIsExact(total, spacing, k + 1);
    assert Multiple(spacing, k + 1) == Multiple(spacing, k) + spacing;
  }

  /** The spacing asked for is the one used, unless it cannot cover the route in `most` samples. */
  lemma SpacingIsTheOneAskedFor(total: real, asked: real, most: int)
    requires total > 0.0 && most >= 2
    ensures Spacing(total, asked, most) == asked <==> asked * (most - 1) as real >= total
  {
    Scaled(asked, total / (most - 1) as real, (most - 1) as real);
  }

  lemma {:induction false} FindMultiple(s: real, n: nat, d: real) returns (k: nat)
    requires s > 0.0 && 0.0 <= d < Multiple(s, n)
    ensures k < n && Multiple(s, k) <= d < Multiple(s, k) + s
  {
    if n > 1 && d < Multiple(s, n - 1) { k := FindMultiple(s, n - 1, d); } else { k := n - 1; }
  }

  /** Every place on the route lies at most one spacing past a sample: nothing goes unlooked at. */
  lemma EveryPlaceIsNearASample(l: Line, asked: real, most: int, d: real)
    requires IsLine(l) && |l.points| > 1 && Total(l) > 0.0 && most >= 2
    requires 0.0 <= d <= Total(l)
    ensures exists k :: 0 <= k < |SamplesOf(l, asked, most)|
                     && SamplesOf(l, asked, most)[k].at <= d
                     && d - SamplesOf(l, asked, most)[k].at < Spacing(Total(l), asked, most)
  {
    var total := Total(l);
    var spacing := Spacing(total, asked, most);
    var s := SamplesOf(l, asked, most);
    CountFits(total, asked, most);
    var k := |s| - 1;
    if d < total {
      CountIsExact(total, spacing, Count(total, spacing));
      k := FindMultiple(spacing, Count(total, spacing), d);
    }
    assert s[k].at <= d && d - s[k].at < spacing;
  }

  /** `s` is the point of segment `i` that lies `s.at` along the whole line. */
  ghost predicate Sits(l: Line, s: Sample, i: nat)
    requires i < |l.lengths| && i + 1 < |l.points|
  {
    var t := Fraction(l.lengths, s.at, i);
    Cum(l.lengths, i) <= s.at <= Cum(l.lengths, i + 1)
    && 0.0 <= t <= 1.0
    && Blend(Cum(l.lengths, i), Cum(l.lengths, i + 1), t) == s.at
    && s.point == Interpolate(l.points[i], l.points[i + 1], t)
  }

  lemma PointSits(l: Line, d: real)
    requires IsLine(l) && |l.points| > 1 && 0.0 <= d <= Cum(l.lengths, |l.lengths|)
    ensures Sits(l, Sample(PointAt(l, d), d), Locate(l.lengths, d, 0))
  {
    LocateBrackets(l.lengths, d);
    FractionIsExact(l.lengths, d);
  }

  /** The samples before the last are looked up at multiples of the spacing, all short of the end. */
  lemma SamplesAreMultiples(l: Line, asked: real, most: int, k: nat)
    requires IsLine(l) && |l.points| > 1 && Total(l) > 0.0 && most >= 2
    requires k + 1 < |SamplesOf(l, asked, most)|
    ensures var d := Multiple(Spacing(Total(l), asked, most), k);
            0.0 <= d < Total(l) && SamplesOf(l, asked, most)[k] == Sample(PointAt(l, d), d)
  {
    var spacing := Spacing(Total(l), asked, most);
    CountFits(Total(l), asked, most);
    CountIsExact(Total(l), spacing, k);
    MultiplesGrow(spacing, k, k);
  }

  /** Each sample but the last is the point exactly that far along the line. */
  lemma SamplesAreOnTheLine(l: Line, asked: real, most: int, k: nat)
    requires IsLine(l) && |l.points| > 1 && Total(l) > 0.0 && most >= 2
    requires k + 1 < |SamplesOf(l, asked, most)|
    ensures Sits(l, SamplesOf(l, asked, most)[k], Locate(l.lengths, SamplesOf(l, asked, most)[k].at, 0))
  {
    SamplesAreMultiples(l, asked, most, k);
    assert l.lengths[..|l.lengths|] == l.lengths;
    PointSits(l, SamplesOf(l, asked, most)[k].at);
  }

  /** Each sample but the last lies on its own segment in both coordinates, and so on the globe. */
  lemma SamplesAreOnTheirSegments(l: Line, asked: real, most: int, k: nat)
    requires IsLine(l) && |l.points| > 1 && Total(l) > 0.0 && most >= 2
    requires (forall p | p in l.points :: OnTheGlobe(p)) && k + 1 < |SamplesOf(l, asked, most)|
    ensures OnTheGlobe(SamplesOf(l, asked, most)[k].point)
    ensures OnSegment(l, Locate(l.lengths, SamplesOf(l, asked, most)[k].at, 0), SamplesOf(l, asked, most)[k].point)
  {
    SamplesAreMultiples(l, asked, most, k);
    assert l.lengths[..|l.lengths|] == l.lengths;
    PointIsOnTheLine(l, SamplesOf(l, asked, most)[k].at);
  }

  /**
   * The end of the route is among the samples exactly when there is room for two: with less the
   * slice drops it, a negative limit included, which Python counts from the end.
   */
  lemma EndIsKeptIff(l: Line, asked: real, most: int)
    requires IsLine(l) && |l.points| > 1 && Total(l) > 0.0
    ensures Sample(Last(l.points), Total(l)) in SamplesOf(l, asked, most) <==> most >= 2
    ensures most >= 2 ==> Last(SamplesOf(l, asked, most)).at == Total(l)
  {
    var spacing := Spacing(Total(l), asked, most);
    var n, s := Count(Total(l), spacing), SamplesOf(l, asked, most);
    if most >= 2 {
      SamplesRunStartToEnd(l, asked, most);
      assert s[|s| - 1] in s;
    } else {
      FewAreStrictlyShort(l, asked, most);
    }
  }

  /** How many there are: what there is room for, and below nothing so many less than all. */
  lemma RoomIsFilled(l: Line, asked: real, most: int)
    requires IsLine(l) && |l.points| > 1 && Total(l) > 0.0
    ensures var all := |Whole(l, asked, most)|;
            |SamplesOf(l, asked, most)|
            == if most >= all then all else if most >= 0 then most else if all + most >= 0 then all + most else 0
  {
  }

  lemma FewAreStrictlyShort(l: Line, asked: real, most: int)
    requires IsLine(l) && |l.points| > 1 && Total(l) > 0.0 && most < 2
    ensures forall x | x in SamplesOf(l, asked, most) :: x.at < Total(l)
  {
    var spacing := Spacing(Total(l), asked, most);
    var n, s := Count(Total(l), spacing), SamplesOf(l, asked, most);
    assert |s| <= n;
    forall k | 0 <= k < |s| ensures s[k].at < Total(l) {
      assert s[k] == Whole(l, asked, most)[k];
      CountIsExact(Total(l), spacing, k);
    }
  }
}
