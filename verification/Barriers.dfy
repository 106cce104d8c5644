/**
  Barrier nodes matched to the route. Each node is projected onto every segment with the foot clamped to
  the segment, the nearest segment wins with ties going to the later one, and what lies within the
  corridor becomes a one-segment span carrying the node's own position into the accessibility verdict.

  Distances are compared squared; the plane projection, the planar segment lengths and the two roundings
  are given.
*/
module Barriers {
  import opened Prelude
  import opened Text
  import opened Geometry

  const CORRIDOR_SQ := 100.0 // BARRIER_CORRIDOR_M is 10 m

  datatype Pt = Pt(x: real, y: real)

  /** A node against a segment: the offset from the segment's start, and the segment's extent. */
  datatype Frame = Frame(dx: real, dy: real, ex: real, ey: real)

  function FrameOf(a: Pt, b: Pt, n: Pt): Frame {
    Frame(n.x - a.x, n.y - a.y, b.x - a.x, b.y - a.y)
  }

  function LengthSq(f: Frame): real {
    f.ex * f.ex + f.ey * f.ey
  }

  function Dot(f: Frame): real {
    f.dx * f.ex + f.dy * f.ey
  }

  /** Squared distance from the node to the point a fraction u along the segment. */
  function OffAt(f: Frame, u: real): real {
    (f.dx - u * f.ex) * (f.dx - u * f.ex) + (f.dy - u * f.ey) * (f.dy - u * f.ey)
  }

  function Clip(t: real): (c: real)
    ensures 0.0 <= c <= 1.0
  {
    Max(0.0, Min(1.0, t))
  }

  /** Where the perpendicular's foot falls, clamped; 0 on a zero-length segment. */
  function Foot(f: Frame): (t: real)
    ensures 0.0 <= t <= 1.0
  {
    if LengthSq(f) > 0.0 then Clip(Dot(f) / LengthSq(f)) else 0.0
  }

  function OffSq(a: Pt, b: Pt, n: Pt): real {
    var f := FrameOf(a, b, n);
    OffAt(f, Foot(f))
  }

  // ---------------------------------------------------------------------------------------------
  // The clamped foot is the closest point of the segment
  // ---------------------------------------------------------------------------------------------

  lemma Square(x: real)
    ensures x * x >= 0.0
  {
  }

  lemma ExpandSquare(d: real, e: real, u: real)
    ensures (d - u * e) * (d - u * e) == d * d - 2.0 * u * (d * e) + u * u * (e * e)
  {
  }

  /** Distance along a segment is a parabola in the position. */
  lemma Parabola(dx: real, dy: real, ex: real, ey: real, u: real)
    ensures (dx - u * ex) * (dx - u * ex) + (dy - u * ey) * (dy - u * ey)
         == dx * dx + dy * dy - 2.0 * u * (dx * ex + dy * ey) + u * u * (ex * ex + ey * ey)
  {
    ExpandSquare(dx, ex, u);
    ExpandSquare(dy, ey, u);
    Distribute(u, dx * ex, dy * ey, ex * ex, ey * ey);
  }

  lemma Distribute(u: real, p: real, q: real, r: real, s: real)
    ensures 2.0 * u * (p + q) == 2.0 * u * p + 2.0 * u * q
    ensures u * u * (r + s) == u * u * r + u * u * s
  {
  }

  lemma ClipIsClosest(t0: real, u: real)
    requires 0.0 <= u <= 1.0
    ensures (u - Clip(t0)) * (u + Clip(t0) - 2.0 * t0) >= 0.0
  {
    if t0 < 0.0 {
      NonNegativeProduct(u, u - 2.0 * t0);
    } else if t0 > 1.0 {
      NonNegativeProduct(1.0 - u, 2.0 * t0 - u - 1.0);
      assert (u - 1.0) * (u + 1.0 - 2.0 * t0) == (1.0 - u) * (2.0 * t0 - u - 1.0);
    } else {
      Square(u - t0);
    }
  }

  lemma CompleteSquare(l: real, dot: real, t0: real, t: real, u: real)
    requires dot == t0 * l
    ensures (-2.0 * u * dot + u * u * l) - (-2.0 * t * dot + t * t * l) == l * ((u - t) * (u + t - 2.0 * t0))
  {
    assert u * dot == (u * t0) * l && t * dot == (t * t0) * l;
    assert (u - t) * (u + t - 2.0 * t0) == u * u - t * t - 2.0 * (u * t0) + 2.0 * (t * t0);
    var p, q, r, s := u * u, t * t, u * t0, t * t0;
    assert l * (p - q - 2.0 * r + 2.0 * s) == p * l - q * l - 2.0 * (r * l) + 2.0 * (s * l);
  }

  lemma NonNegativeProduct(x: real, y: real)
    requires x >= 0.0 && y >= 0.0
    ensures x * y >= 0.0
  {
  }

  /** The clamped vertex of the parabola is its least point on [0, 1]. */
  lemma LowestPoint(dot: real, l: real, u: real)
    requires l > 0.0 && 0.0 <= u <= 1.0
    ensures var t := Clip(dot / l); -2.0 * t * dot + t * t * l <= -2.0 * u * dot + u * u * l
  {
    var t0 := dot / l;
    var t := Clip(t0);
    assert t0 * l == dot;
    CompleteSquare(l, dot, t0, t, u);
    ClipIsClosest(t0, u);
    NonNegativeProduct(l, (u - t) * (u + t - 2.0 * t0));
  }

  function Times(x: real, y: real): real {
    x * y
  }

  lemma PositiveTimes(x: real, y: real)
    requires x > 0.0 && y > 0.0
    ensures Times(x, y) > 0.0
  {
  }

  lemma NegativeTimes(x: real, y: real)
    requires x < 0.0 && y < 0.0
    ensures Times(x, y) > 0.0
  {
    PositiveTimes(-x, -y);
    assert Times(-x, -y) == Times(x, y);
  }

  lemma SquareSign(x: real)
    ensures Times(x, x) >= 0.0
    ensures x != 0.0 ==> Times(x, x) > 0.0
  {
    if x > 0.0 { PositiveTimes(x, x); } else if x < 0.0 { NegativeTimes(x, x); }
  }

  lemma PositiveLength(f: Frame)
    requires f.ex != 0.0 || f.ey != 0.0
    ensures LengthSq(f) > 0.0
  {
    SquareSign(f.ex);
    SquareSign(f.ey);
    assert LengthSq(f) == Times(f.ex, f.ex) + Times(f.ey, f.ey);
  }

  lemma ZeroLength(f: Frame)
    requires LengthSq(f) <= 0.0
    ensures f.ex == 0.0 && f.ey == 0.0
  {
    if f.ex != 0.0 || f.ey != 0.0 { PositiveLength(f); }
  }

  /** On a zero-length segment every position is the same point. */
  lemma ZeroLengthIsOnePoint(f: Frame, u: real)
    requires f.ex == 0.0 && f.ey == 0.0
    ensures OffAt(f, u) == f.dx * f.dx + f.dy * f.dy
  {
    assert u * f.ex == 0.0 && u * f.ey == 0.0;
  }

  /** No point of the segment is nearer than the clamped foot. */
  lemma FootIsClosest(f: Frame, u: real)
    requires 0.0 <= u <= 1.0
    ensures OffAt(f, Foot(f)) <= OffAt(f, u)
  {
    if LengthSq(f) <= 0.0 {
      ZeroLength(f);
      ZeroLengthIsOnePoint(f, u);
      ZeroLengthIsOnePoint(f, Foot(f));
    } else {
      FootIsClosestOf(f.dx, f.dy, f.ex, f.ey, Dot(f), LengthSq(f), u);
    }
  }

  lemma FootIsClosestOf(dx: real, dy: real, ex: real, ey: real, dot: real, l: real, u: real)
    requires l > 0.0 && 0.0 <= u <= 1.0 && dot == dx * ex + dy * ey && l == ex * ex + ey * ey
    ensures OffAt(Frame(dx, dy, ex, ey), Clip(dot / l)) <= OffAt(Frame(dx, dy, ex, ey), u)
  {
    var t := Clip(dot / l);
    Parabola(dx, dy, ex, ey, u);
    Parabola(dx, dy, ex, ey, t);
    LowestPoint(dot, l, u);
    Compare(dx * dx + dy * dy, 2.0 * u * dot, u * u * l, 2.0 * t * dot, t * t * l);
  }

  lemma Compare(c: real, p: real, q: real, r: real, s: real)
    requires -r + s <= -p + q
    ensures c - r + s <= c - p + q
  {
  }

  /** `OffAt` is the plane distance to the point it names. */
  lemma OffAtIsDistance(a: Pt, b: Pt, n: Pt, u: real)
    ensures var q := Pt(a.x + u * (b.x - a.x), a.y + u * (b.y - a.y));
            OffAt(FrameOf(a, b, n), u) == (n.x - q.x) * (n.x - q.x) + (n.y - q.y) * (n.y - q.y)
  {
    var f := FrameOf(a, b, n);
    var q := Pt(a.x + u * (b.x - a.x), a.y + u * (b.y - a.y));
    assert n.x - q.x == f.dx - u * f.ex;
    assert n.y - q.y == f.dy - u * f.ey;
  }

  // ---------------------------------------------------------------------------------------------
  // The nearest segment
  // ---------------------------------------------------------------------------------------------

  /** `shape - 1 - distances[::-1].argmin()`: the last of the least. */
  function LastMin(d: seq<real>): (k: nat)
    requires d != []
    ensures k < |d|
    ensures forall j | 0 <= j < |d| :: d[k] <= d[j]
    ensures forall j | k < j < |d| :: d[k] < d[j]
    decreases |d|
  {
    if |d| == 1 then 0
    else
      var k := LastMin(Init(d));
      if Last(d) <= d[k] then |d| - 1 else k
  }

  function Distances(line: seq<Pt>, n: Pt): (d: seq<real>)
    requires |line| >= 2
    ensures |d| == |line| - 1
    ensures forall i {:trigger d[i]} | 0 <= i < |d| :: d[i] == OffSq(line[i], line[i + 1], n)
  {
    seq(|line| - 1, i requires 0 <= i < |line| - 1 => OffSq(line[i], line[i + 1], n))
  }

  function Nearest(line: seq<Pt>, n: Pt): (i: nat)
    requires |line| >= 2
    ensures i < |line| - 1
  {
    LastMin(Distances(line, n))
  }

  predicate InCorridor(line: seq<Pt>, n: Pt)
    requires |line| >= 2
  {
    Distances(line, n)[Nearest(line, n)] <= CORRIDOR_SQ
  }

  /** Some point of the polyline is within the corridor of the node. */
  ghost predicate NearLine(line: seq<Pt>, n: Pt) {
    exists i: nat, u: real :: NearAt(line, n, i, u)
  }

  ghost predicate NearAt(line: seq<Pt>, n: Pt, i: nat, u: real) {
    i + 1 < |line| && 0.0 <= u <= 1.0 && OffAt(FrameOf(line[i], line[i + 1], n), u) <= CORRIDOR_SQ
  }

  /** The corridor test accepts exactly the nodes within 10 m of the line. */
  lemma CorridorIsDistance(line: seq<Pt>, n: Pt)
    requires |line| >= 2
    ensures InCorridor(line, n) <==> NearLine(line, n)
  {
    var k := Nearest(line, n);
    var d := Distances(line, n);
    if InCorridor(line, n) {
      assert NearAt(line, n, k, Foot(FrameOf(line[k], line[k + 1], n)));
    }
    if NearLine(line, n) {
      var i: nat, u: real :| NearAt(line, n, i, u);
      FootIsClosest(FrameOf(line[i], line[i + 1], n), u);
      assert d[k] <= d[i];
    }
  }

  /** Whatever a nearest-vertex test with the same corridor would find is found. */
  lemma VertexTestIsCovered(line: seq<Pt>, n: Pt, v: nat)
    requires |line| >= 2 && v < |line|
    requires (n.x - line[v].x) * (n.x - line[v].x) + (n.y - line[v].y) * (n.y - line[v].y) <= CORRIDOR_SQ
    ensures InCorridor(line, n)
  {
    var i := if v + 1 < |line| then v else v - 1;
    var u := if v + 1 < |line| then 0.0 else 1.0;
    OffAtIsDistance(line[i], line[i + 1], n, u);
    assert NearAt(line, n, i, u);
    CorridorIsDistance(line, n);
  }

  // ---------------------------------------------------------------------------------------------
  // The closest place of the line
  // ---------------------------------------------------------------------------------------------

  /** A place of the line: a fraction along one of its segments. */
  predicate OnLine(line: seq<Pt>, i: nat, u: real) {
    i + 1 < |line| && 0.0 <= u <= 1.0
  }

  /** The squared distance of the node from it. */
  function Off(line: seq<Pt>, n: Pt, i: nat, u: real): real
    requires OnLine(line, i, u)
  {
    OffAt(FrameOf(line[i], line[i + 1], n), u)
  }

  /** No place of the line is closer, and every place of a later segment is farther. */
  ghost predicate LastClosest(line: seq<Pt>, n: Pt, i: nat, u: real) {
    && OnLine(line, i, u)
    && (forall j: nat, v: real | OnLine(line, j, v) :: Off(line, n, i, u) <= Off(line, n, j, v))
    && (forall j: nat, v: real | OnLine(line, j, v) && i < j :: Off(line, n, i, u) < Off(line, n, j, v))
  }

  /** On a segment without extent the fraction is 0. */
  ghost predicate Settled(line: seq<Pt>, i: nat, u: real)
    requires OnLine(line, i, u)
  {
    line[i] == line[i + 1] ==> u == 0.0
  }

  lemma NearestIsClosest(line: seq<Pt>, n: Pt)
    requires |line| >= 2
    ensures var k := Nearest(line, n); var t := Foot(FrameOf(line[k], line[k + 1], n));
            LastClosest(line, n, k, t) && Settled(line, k, t) && Off(line, n, k, t) == Distances(line, n)[k]
  {
    var k, d := Nearest(line, n), Distances(line, n);
    var t := Foot(FrameOf(line[k], line[k + 1], n));
    forall j: nat, v: real | OnLine(line, j, v) ensures d[j] <= Off(line, n, j, v) {
      FootIsClosest(FrameOf(line[j], line[j + 1], n), v);
    }
  }

  /** Only the foot of the perpendicular is as close as it is. */
  lemma FootIsOnlyClosest(f: Frame, u: real)
    requires 0.0 <= u <= 1.0 && OffAt(f, u) <= OffAt(f, Foot(f)) && (f.ex != 0.0 || f.ey != 0.0)
    ensures u == Foot(f)
  {
    PositiveLength(f);
    var l, dot := LengthSq(f), Dot(f);
    var t0, t := dot / l, Foot(f);
    assert t0 * l == dot;
    Parabola(f.dx, f.dy, f.ex, f.ey, u);
    Parabola(f.dx, f.dy, f.ex, f.ey, t);
    CompleteSquare(l, dot, t0, t, u);
    NotPositive(l, (u - t) * (u + t - 2.0 * t0));
    OnlyRoot(t0, u);
  }

  lemma NotPositive(l: real, x: real)
    requires l > 0.0 && l * x <= 0.0
    ensures x <= 0.0
  {
    if x > 0.0 { PositiveTimes(l, x); }
  }

  lemma OnlyRoot(t0: real, u: real)
    requires 0.0 <= u <= 1.0 && (u - Clip(t0)) * (u + Clip(t0) - 2.0 * t0) <= 0.0
    ensures u == Clip(t0)
  {
    var t := Clip(t0);
    if u > t {
      PositiveTimes(u - t, u + t - 2.0 * t0);
    } else if u < t {
      NegativeTimes(u - t, u + t - 2.0 * t0);
    }
  }

  /** There is one such place, and it is the one that is computed. */
  lemma ClosestIsNearest(line: seq<Pt>, n: Pt, i: nat, u: real)
    requires |line| >= 2 && LastClosest(line, n, i, u) && Settled(line, i, u)
    ensures i == Nearest(line, n) && u == Foot(FrameOf(line[i], line[i + 1], n))
  {
    NearestIsClosest(line, n);
    var k := Nearest(line, n);
    var t := Foot(FrameOf(line[k], line[k + 1], n));
    assert Off(line, n, i, u) <= Off(line, n, k, t) && Off(line, n, k, t) <= Off(line, n, i, u);
    assert i == k;
    var f := FrameOf(line[i], line[i + 1], n);
    if f.ex != 0.0 || f.ey != 0.0 { FootIsOnlyClosest(f, u); }
  }

  // ---------------------------------------------------------------------------------------------
  // Spans
  // ---------------------------------------------------------------------------------------------

  /** One Overpass element; a missing or unreadable coordinate is None. */
  datatype Element = Element(lat: Option<real>, lon: Option<real>, barrier: Option<string>)

  /** The span (start, start + 1, value, lat, lon, along). */
  datatype BarrierSpan = BarrierSpan(start: nat, value: string, lat: real, lon: real, along: real)

  /** What is given: the plane projection, the planar lengths, and the two roundings. */
  datatype Setting = Setting(plane: LatLon -> Pt, planar: seq<real>, roundCoord: real -> real, roundDist: real -> real)

  function Plane(g: Setting, points: seq<LatLon>): (line: seq<Pt>)
    ensures |line| == |points|
  {
    seq(|points|, i requires 0 <= i < |points| => g.plane(points[i]))
  }

  predicate IsCandidate(e: Element) {
    e.barrier.Some? && e.barrier.value != "" && e.lat.Some? && e.lon.Some?
  }

  function Node(g: Setting, e: Element): Pt
    requires IsCandidate(e)
  {
    g.plane(LatLon(e.lat.value, e.lon.value))
  }

  function SpanOf(g: Setting, points: seq<LatLon>, e: Element): BarrierSpan
    requires IsCandidate(e) && |points| >= 2 && |g.planar| == |points| - 1
  {
    var line, n := Plane(g, points), Node(g, e);
    var i := Nearest(line, n);
    BarrierSpan(i, e.barrier.value, g.roundCoord(e.lat.value), g.roundCoord(e.lon.value),
                g.roundDist(Along(g.planar, i, Foot(FrameOf(line[i], line[i + 1], n)))))
  }

  /** How far along the line a place of it is. */
  function Along(planar: seq<real>, i: nat, u: real): real
    requires i < |planar|
  {
    Cum(planar, i) + u * planar[i]
  }

  /** From one vertex to the next, evenly. */
  lemma AlongMeets(planar: seq<real>, i: nat, u: real)
    requires i < |planar| && 0.0 <= u <= 1.0
    ensures Along(planar, i, 0.0) == Cum(planar, i) && Along(planar, i, 1.0) == Cum(planar, i + 1)
    ensures Along(planar, i, u) == (1.0 - u) * Along(planar, i, 0.0) + u * Along(planar, i, 1.0)
  {
    assert Init(planar[..i + 1]) == planar[..i];
  }

  predicate Blocks(g: Setting, points: seq<LatLon>, e: Element)
    requires |points| >= 2
  {
    IsCandidate(e) && InCorridor(Plane(g, points), Node(g, e))
  }

  function RealOrder(a: real, b: real): int {
    if a < b then -1 else if a == b then 0 else 1
  }

  /** Python's order on the tuples. */
  function SpanOrder(a: BarrierSpan, b: BarrierSpan): int {
    if a.start != b.start then Order(a.start, b.start)
    else if a.value != b.value then TextOrder(a.value, b.value)
    else if a.lat != b.lat then RealOrder(a.lat, b.lat)
    else if a.lon != b.lon then RealOrder(a.lon, b.lon)
    else RealOrder(a.along, b.along)
  }

  lemma SpanOrderTotal(a: BarrierSpan, b: BarrierSpan)
    ensures a != b ==> SpanOrder(a, b) < 0 || SpanOrder(b, a) < 0
  {
    TextOrderFlips(a.value, b.value);
    if TextOrder(a.value, b.value) == 0 { TextOrderZero(a.value, b.value); }
  }

  lemma SpanOrderTransitive(a: BarrierSpan, b: BarrierSpan, c: BarrierSpan)
    requires SpanOrder(a, b) < 0 && SpanOrder(b, c) < 0
    ensures SpanOrder(a, c) < 0
  {
    if a.start == b.start == c.start {
      if a.value != b.value && b.value != c.value {
        TextOrderTransitive(a.value, b.value, c.value);
        TextOrderFlips(a.value, b.value);
        if TextOrder(a.value, c.value) == 0 { TextOrderZero(a.value, c.value); }
      }
    }
  }

  ghost predicate Least(s: set<BarrierSpan>, m: BarrierSpan) {
    m in s && forall x | x in s && x != m :: SpanOrder(m, x) < 0
  }

  lemma LeastExists(s: set<BarrierSpan>)
    requires s != {}
    ensures exists m :: Least(s, m)
    decreases |s|
  {
    var x :| x in s;
    var rest := s - {x};
    if rest == {} {
      assert forall y | y in s :: y != x ==> y in rest;
      assert Least(s, x);
    } else {
      LeastExists(rest);
      var m :| Least(rest, m);
      SpanOrderTotal(x, m);
      if SpanOrder(x, m) < 0 {
        forall y | y in s && y != x ensures SpanOrder(x, y) < 0 {
          assert y in rest;
          if y != m { SpanOrderTransitive(x, m, y); }
        }
        assert Least(s, x);
      } else {
        forall y | y in s && y != m ensures SpanOrder(m, y) < 0 {
          if y != x { assert y in rest; }
        }
        assert Least(s, m);
      }
    }
  }

  ghost predicate StrictlyAscending(spans: seq<BarrierSpan>) {
    forall i, j | 0 <= i < j < |spans| :: SpanOrder(spans[i], spans[j]) < 0
  }

  method PickLeast(s: set<BarrierSpan>) returns (m: BarrierSpan)
    requires s != {}
    ensures Least(s, m)
  {
    LeastExists(s);
    ghost var g :| Least(s, g);
    assert exists m :: m in s && forall x | x in s && x != m :: SpanOrder(m, x) < 0;
    m :| m in s && forall x | x in s && x != m :: SpanOrder(m, x) < 0;
  }

  /** `sorted(seen)`. */
  method SortSet(seen: set<BarrierSpan>) returns (sorted: seq<BarrierSpan>)
    ensures StrictlyAscending(sorted)
    ensures forall x :: x in sorted <==> x in seen
  {
    sorted := [];
    var left := seen;
    while left != {}
      invariant left <= seen
      invariant StrictlyAscending(sorted)
      invariant forall x :: x in sorted <==> x in seen - left
      invariant forall x, y | x in sorted && y in left :: SpanOrder(x, y) < 0
      decreases |left|
    {
      var m := PickLeast(left);
      sorted := sorted + [m];
      left := left - {m};
    }
  }

  /** `barrier_spans_on_route`: sorted, without duplicates, and exactly the spans of the blocking nodes. */
  method BarrierSpans(g: Setting, points: seq<LatLon>, elements: seq<Element>) returns (spans: seq<BarrierSpan>)
    requires |points| >= 2 ==> |g.planar| == |points| - 1
    ensures |points| < 2 ==> spans == []
    ensures StrictlyAscending(spans)
    ensures |points| >= 2 ==> forall s :: s in spans <==> exists e | e in elements :: Marks(g, points, e, s)
  {
    if |points| < 2 || elements == [] { return []; }
    var seen: set<BarrierSpan> := {};
    for k := 0 to |elements|
      invariant forall s :: s in seen <==> Found(g, points, elements[..k], s)
    {
      var e := elements[k];
      FoundSoFar(g, points, elements, k);
      if Blocks(g, points, e) {
        seen := seen + {SpanOf(g, points, e)};
      }
    }
    assert elements[..|elements|] == elements;
    spans := SortSet(seen);
    forall s ensures s in spans <==> exists e | e in elements :: Marks(g, points, e, s) {
      FoundIff(g, points, elements, s);
    }
  }

  /** The last closest place of the line to the node, no farther than the corridor. */
  ghost predicate Beside(g: Setting, points: seq<LatLon>, e: Element, i: nat, u: real)
    requires IsCandidate(e)
  {
    var line, n := Plane(g, points), g.plane(LatLon(e.lat.value, e.lon.value));
    LastClosest(line, n, i, u) && Settled(line, i, u) && Off(line, n, i, u) <= CORRIDOR_SQ
  }

  /** `s` is the element's value and own coordinates, at the segment and the distance of that place. */
  ghost predicate Marks(g: Setting, points: seq<LatLon>, e: Element, s: BarrierSpan)
    requires |g.planar| + 1 == |points|
  {
    && IsCandidate(e) && s.value == e.barrier.value && s.value != ""
    && s.lat == g.roundCoord(e.lat.value) && s.lon == g.roundCoord(e.lon.value)
    && exists u: real :: At(g, points, e, s, u)
  }

  ghost predicate At(g: Setting, points: seq<LatLon>, e: Element, s: BarrierSpan, u: real)
    requires |g.planar| + 1 == |points| && IsCandidate(e)
  {
    Beside(g, points, e, s.start, u) && s.along == g.roundDist(Along(g.planar, s.start, u))
  }

  lemma BesideIsNearest(g: Setting, points: seq<LatLon>, e: Element, i: nat, u: real)
    requires |points| >= 2 && IsCandidate(e) && Beside(g, points, e, i, u)
    ensures Blocks(g, points, e) && i == Nearest(Plane(g, points), Node(g, e))
    ensures u == Foot(FrameOf(Plane(g, points)[i], Plane(g, points)[i + 1], Node(g, e)))
  {
    ClosestIsNearest(Plane(g, points), Node(g, e), i, u);
    NearestIsClosest(Plane(g, points), Node(g, e));
  }

  lemma MarkedIsSpan(g: Setting, points: seq<LatLon>, e: Element, s: BarrierSpan, u: real)
    requires |points| >= 2 && |g.planar| == |points| - 1 && Marks(g, points, e, s) && At(g, points, e, s, u)
    ensures Blocks(g, points, e) && s == SpanOf(g, points, e)
  {
    BesideIsNearest(g, points, e, s.start, u);
  }

  lemma SpanIsMarked(g: Setting, points: seq<LatLon>, e: Element)
    requires |points| >= 2 && |g.planar| == |points| - 1 && Blocks(g, points, e)
    ensures Marks(g, points, e, SpanOf(g, points, e))
  {
    var line, n := Plane(g, points), Node(g, e);
    NearestIsClosest(line, n);
    var k := Nearest(line, n);
    assert At(g, points, e, SpanOf(g, points, e), Foot(FrameOf(line[k], line[k + 1], n)));
  }

  lemma MarksIff(g: Setting, points: seq<LatLon>, e: Element, s: BarrierSpan)
    requires |points| >= 2 && |g.planar| == |points| - 1
    ensures Marks(g, points, e, s) <==> Blocks(g, points, e) && s == SpanOf(g, points, e)
  {
    if Marks(g, points, e, s) {
      var u: real :| At(g, points, e, s, u);
      MarkedIsSpan(g, points, e, s, u);
    }
    if Blocks(g, points, e) { SpanIsMarked(g, points, e); }
  }

  lemma FoundIff(g: Setting, points: seq<LatLon>, elements: seq<Element>, s: BarrierSpan)
    requires |points| >= 2 && |g.planar| == |points| - 1
    ensures Found(g, points, elements, s) <==> exists e | e in elements :: Marks(g, points, e, s)
  {
    forall e | e in elements ensures Marks(g, points, e, s) <==> Blocks(g, points, e) && s == SpanOf(g, points, e) {
      MarksIff(g, points, e, s);
    }
  }

  /** The spans of the blocking nodes among these elements. */
  ghost predicate Found(g: Setting, points: seq<LatLon>, elements: seq<Element>, s: BarrierSpan)
    requires |points| >= 2 && |g.planar| == |points| - 1
  {
    exists e | e in elements :: Blocks(g, points, e) && s == SpanOf(g, points, e)
  }

  lemma FoundSoFar(g: Setting, points: seq<LatLon>, elements: seq<Element>, k: nat)
    requires |points| >= 2 && |g.planar| == |points| - 1 && k < |elements|
    ensures forall s :: Found(g, points, elements[..k + 1], s) <==>
              Found(g, points, elements[..k], s)
              || (Blocks(g, points, elements[k]) && s == SpanOf(g, points, elements[k]))
  {
    var before, d := elements[..k], elements[k];
    assert elements[..k + 1] == before + [d];
    assert d in before + [d];
    forall s ensures Found(g, points, before + [d], s) <==>
                     Found(g, points, before, s) || (Blocks(g, points, d) && s == SpanOf(g, points, d))
    {
      if Found(g, points, before, s) {
        var e :| e in before && Blocks(g, points, e) && s == SpanOf(g, points, e);
        assert e in before + [d];
      }
    }
  }

  // ---------------------------------------------------------------------------------------------
  // A doubled last vertex
  // ---------------------------------------------------------------------------------------------

  /** Ties go to the later segment, so such a node is on the last one. */
  lemma DoubledVertexIsLast(line: seq<Pt>, n: Pt)
    requires |line| >= 3 && line[|line| - 2] == n && line[|line| - 1] == n
    ensures Nearest(line, n) == |line| - 2 && InCorridor(line, n)
  {
    DoubledDistances(line, n);
    LastSegmentWins(line, n);
  }

  lemma LastSegmentWins(line: seq<Pt>, n: Pt)
    requires |line| >= 3
    requires NonNegative(Distances(line, n)) && Distances(line, n)[|line| - 2] == 0.0
    ensures Nearest(line, n) == |line| - 2 && InCorridor(line, n)
  {
    LastZeroWins(Distances(line, n));
  }

  lemma DoubledDistances(line: seq<Pt>, n: Pt)
    requires |line| >= 3 && line[|line| - 2] == n && line[|line| - 1] == n
    ensures NonNegative(Distances(line, n)) && Distances(line, n)[|line| - 2] == 0.0
  {
    DistancesNonNegative(line, n);
    LastDistanceIsZero(line, n);
  }

  lemma DistancesNonNegative(line: seq<Pt>, n: Pt)
    requires |line| >= 2
    ensures NonNegative(Distances(line, n))
  {
    forall j | 0 <= j < |line| - 1 ensures Distances(line, n)[j] >= 0.0 {
      OffSqNonNegative(line[j], line[j + 1], n);
    }
  }

  lemma LastDistanceIsZero(line: seq<Pt>, n: Pt)
    requires |line| >= 2 && line[|line| - 2] == n && line[|line| - 1] == n
    ensures Distances(line, n)[|line| - 2] == 0.0
  {
    OnTheVertex(n);
  }

  lemma OffSqNonNegative(a: Pt, b: Pt, n: Pt)
    ensures OffSq(a, b, n) >= 0.0
  {
    OffAtNonNegative(FrameOf(a, b, n), Foot(FrameOf(a, b, n)));
  }

  lemma LastZeroWins(d: seq<real>)
    requires d != [] && d[|d| - 1] == 0.0 && NonNegative(d)
    ensures LastMin(d) == |d| - 1
  {
  }

  lemma OnTheVertex(n: Pt)
    ensures OffSq(n, n, n) == 0.0
  {
    var f := FrameOf(n, n, n);
    ZeroLengthIsOnePoint(f, Foot(f));
  }

  lemma OffAtNonNegative(f: Frame, u: real)
    ensures OffAt(f, u) >= 0.0
  {
    Square(f.dx - u * f.ex);
    Square(f.dy - u * f.ey);
  }
}
