/**
  Barriers inside the verdict: the spans of the nodes beside the route go into `assess_route`, and its
  report names exactly the rejected ones that stand on a stretch of some length, each at its own place.
*/
module BarrierVerdict {
  import opened Prelude
  import opened Geometry
  import opened Barriers
  import A = Accessibility
  import V = VerdictFromTags

  function AsSpan(s: BarrierSpan): A.Span {
    A.Span(s.start, s.start + 1, Some(s.value), Some(LatLon(s.lat, s.lon)), Some(s.along))
  }

  function AsSpans(spans: seq<BarrierSpan>): (out: seq<A.Span>)
    ensures |out| == |spans| && forall i | 0 <= i < |spans| :: out[i] == AsSpan(spans[i])
  {
    seq(|spans|, i requires 0 <= i < |spans| => AsSpan(spans[i]))
  }

  /** A route and its plane: as many planar lengths as segments. */
  ghost predicate Fits(g: Setting, line: Line) {
    IsLine(line) && |line.points| >= 2 && Sum(line.lengths) > 0.0 && |g.planar| == |line.points| - 1
  }

  /** The last closest place of the route to the node is within 10 m and on a segment of some length. */
  ghost predicate OnStretch(g: Setting, line: Line, e: Element, i: nat, u: real)
    requires IsCandidate(e)
  {
    Beside(g, line.points, e, i, u) && i < |line.lengths| && line.lengths[i] > 0.0
  }

  /** A node whose value is rejected, however it is spelled, on a stretch of the route. */
  ghost predicate InTheWay(g: Setting, line: Line, e: Element) {
    IsCandidate(e) && V.BadBarrier(e.barrier) && exists i: nat, u: real :: OnStretch(g, line, e, i, u)
  }

  /** A finding at the node's own rounded coordinates, as far along the route as the place closest to it. */
  ghost predicate Pins(g: Setting, line: Line, e: Element, f: A.Finding)
    requires Fits(g, line)
  {
    && f.kind == A.Barrier && IsCandidate(e) && V.BadBarrier(e.barrier)
    && f.lat == g.roundCoord(e.lat.value) && f.lon == g.roundCoord(e.lon.value)
    && exists i: nat, u: real :: OnStretch(g, line, e, i, u) && f.atM == g.roundDist(Along(g.planar, i, u))
  }

  /** The spans are those of the elements. */
  ghost predicate AreSpansOf(g: Setting, points: seq<LatLon>, elements: seq<Element>, spans: seq<BarrierSpan>)
    requires |g.planar| + 1 == |points|
  {
    forall s :: s in spans <==> exists e | e in elements :: Marks(g, points, e, s)
  }

  lemma OneSegment(line: Line, s: BarrierSpan)
    ensures V.Covers(line, AsSpan(s)) <==> s.start < |line.lengths| && line.lengths[s.start] > 0.0
  {
  }

  /** What a span of a node adds to the report. */
  lemma SpanFinds(line: Line, s: BarrierSpan, f: A.Finding)
    requires line.points != [] && |line.lengths| < |line.points|
    ensures V.BadSpan(line, A.Barrier, AsSpan(s)) && V.Located(line, AsSpan(s), f) <==>
              && s.start < |line.lengths| && line.lengths[s.start] > 0.0 && V.BadBarrier(Some(s.value))
              && f.lat == s.lat && f.lon == s.lon && f.atM == s.along
  {
    OneSegment(line, s);
  }

  lemma SpanPins(g: Setting, line: Line, elements: seq<Element>, spans: seq<BarrierSpan>, s: BarrierSpan, f: A.Finding)
    requires Fits(g, line) && AreSpansOf(g, line.points, elements, spans) && s in spans
    requires f.kind == A.Barrier && V.BadSpan(line, A.Barrier, AsSpan(s)) && V.Located(line, AsSpan(s), f)
    ensures exists e | e in elements :: Pins(g, line, e, f)
  {
    SpanFinds(line, s, f);
    var e :| e in elements && Marks(g, line.points, e, s);
    var u: real :| At(g, line.points, e, s, u);
    assert OnStretch(g, line, e, s.start, u);
    assert Pins(g, line, e, f);
  }

  lemma PinIsSpan(g: Setting, line: Line, e: Element, f: A.Finding) returns (s: BarrierSpan)
    requires Fits(g, line) && Pins(g, line, e, f)
    ensures Marks(g, line.points, e, s)
    ensures V.BadSpan(line, A.Barrier, AsSpan(s)) && V.Located(line, AsSpan(s), f)
  {
    var i: nat, u: real :| OnStretch(g, line, e, i, u) && f.atM == g.roundDist(Along(g.planar, i, u));
    s := BarrierSpan(i, e.barrier.value, f.lat, f.lon, f.atM);
    assert At(g, line.points, e, s, u);
    SpanFinds(line, s, f);
  }

  lemma PinIsFound(
    g: Setting, line: Line, elements: seq<Element>, spans: seq<BarrierSpan>, e: Element, f: A.Finding)
    requires Fits(g, line) && AreSpansOf(g, line.points, elements, spans) && e in elements && Pins(g, line, e, f)
    ensures V.FoundIn(line, A.Barrier, AsSpans(spans), f)
  {
    var s := PinIsSpan(g, line, e, f);
    assert s in spans;
    var k :| 0 <= k < |spans| && spans[k] == s;
    assert AsSpans(spans)[k] == AsSpan(s) && AsSpans(spans)[k] in AsSpans(spans);
  }

  /** A barrier is found in the spans exactly where a node pins it. */
  lemma FoundIff(g: Setting, line: Line, elements: seq<Element>, spans: seq<BarrierSpan>, f: A.Finding)
    requires Fits(g, line) && AreSpansOf(g, line.points, elements, spans)
    ensures V.FoundIn(line, A.Barrier, AsSpans(spans), f) <==> exists e | e in elements :: Pins(g, line, e, f)
  {
    if V.FoundIn(line, A.Barrier, AsSpans(spans), f) {
      var x :| x in AsSpans(spans) && V.BadSpan(line, A.Barrier, x) && V.Located(line, x, f);
      var k :| 0 <= k < |spans| && AsSpans(spans)[k] == x;
      SpanPins(g, line, elements, spans, spans[k], f);
    }
    if e :| e in elements && Pins(g, line, e, f) { PinIsFound(g, line, elements, spans, e, f); }
  }

  /** Findings of the other lists are not of this kind. */
  lemma ReportedIff(
    g: Setting, line: Line, elements: seq<Element>, spans: seq<BarrierSpan>, t: A.Tags, inclines: seq<A.Finding>, f: A.Finding)
    requires Fits(g, line) && AreSpansOf(g, line.points, elements, spans) && f.kind == A.Barrier
    ensures f in A.Assessed(line, t.(barriers := Some(AsSpans(spans))), inclines).findings <==>
              f in inclines || exists e | e in elements :: Pins(g, line, e, f)
  {
    V.FindingsIff(line, t.(barriers := Some(AsSpans(spans))), inclines, f);
    FoundIff(g, line, elements, spans, f);
  }

  /** A node in the way has a finding to pin it. */
  lemma InTheWayIsPinned(g: Setting, line: Line, e: Element) returns (f: A.Finding)
    requires Fits(g, line) && InTheWay(g, line, e)
    ensures Pins(g, line, e, f)
  {
    var i: nat, u: real :| OnStretch(g, line, e, i, u);
    f := A.Finding(A.Barrier, g.roundCoord(e.lat.value), g.roundCoord(e.lon.value), g.roundDist(Along(g.planar, i, u)));
  }

  /**
    End to end: the barriers the report names are exactly the nodes whose value is rejected and whose
    closest place on the route, the last of them, is within 10 m on a stretch of some length; each is
    named at its own coordinates, and any of them blocks the route.
  */
  method AssessWithBarriers(g: Setting, line: Line, elements: seq<Element>, t: A.Tags, inclines: seq<A.Finding>)
    returns (r: A.Report, spans: seq<BarrierSpan>)
    requires Fits(g, line)
    ensures r == A.Assessed(line, t.(barriers := Some(AsSpans(spans))), inclines)
    ensures forall f: A.Finding | f.kind == A.Barrier ::
              f in r.findings <==> f in inclines || exists e | e in elements :: Pins(g, line, e, f)
    ensures forall e | e in elements && InTheWay(g, line, e) ::
              r.verdict == A.Fail && exists f | f in r.findings :: Pins(g, line, e, f)
    ensures r.barriersChecked
  {
    spans := BarrierSpans(g, line.points, elements);
    var tags := t.(barriers := Some(AsSpans(spans)));
    r := A.AssessRoute(line, tags, inclines);
    forall f: A.Finding | f.kind == A.Barrier
      ensures f in r.findings <==> f in inclines || exists e | e in elements :: Pins(g, line, e, f)
    {
      ReportedIff(g, line, elements, spans, t, inclines, f);
    }
    forall e | e in elements && InTheWay(g, line, e)
      ensures r.verdict == A.Fail && exists f | f in r.findings :: Pins(g, line, e, f)
    {
      var f := InTheWayIsPinned(g, line, e);
      assert f in r.findings;
    }
  }

  /** A node with a rejected value within 10 m of the route. */
  ghost predicate RejectedNearby(g: Setting, points: seq<LatLon>, e: Element)
    requires |points| >= 2
  {
    IsCandidate(e) && NearLine(Plane(g, points), Node(g, e)) && V.BadBarrier(e.barrier)
  }

  lemma InCorridorIsNear(line: seq<Pt>, n: Pt)
    requires |line| >= 2 && InCorridor(line, n)
    ensures NearLine(line, n)
  {
    CorridorIsDistance(line, n);
  }

  lemma NearIsInCorridor(line: seq<Pt>, n: Pt)
    requires |line| >= 2 && NearLine(line, n)
    ensures InCorridor(line, n)
  {
    CorridorIsDistance(line, n);
  }

  /** So every such node is in the way, but for one whose last closest segment has no length. */
  lemma InTheWayIff(g: Setting, line: Line, e: Element)
    requires Fits(g, line)
    ensures InTheWay(g, line, e) <==>
              RejectedNearby(g, line.points, e) && line.lengths[Nearest(Plane(g, line.points), Node(g, e))] > 0.0
  {
    if IsCandidate(e) {
      var plane, n := Plane(g, line.points), Node(g, e);
      if i: nat, u: real :| OnStretch(g, line, e, i, u) {
        BesideIsNearest(g, line.points, e, i, u);
        InCorridorIsNear(plane, n);
      }
      if NearLine(plane, n) && line.lengths[Nearest(plane, n)] > 0.0 {
        NearIsInCorridor(plane, n);
        NearestIsBeside(g, line, e);
      }
    }
  }

  lemma NearestIsBeside(g: Setting, line: Line, e: Element)
    requires Fits(g, line) && IsCandidate(e) && InCorridor(Plane(g, line.points), Node(g, e))
    requires line.lengths[Nearest(Plane(g, line.points), Node(g, e))] > 0.0
    ensures exists i: nat, u: real :: OnStretch(g, line, e, i, u)
  {
    var plane, n := Plane(g, line.points), Node(g, e);
    NearestIsClosest(plane, n);
    var k := Nearest(plane, n);
    assert OnStretch(g, line, e, k, Foot(FrameOf(plane[k], plane[k + 1], n)));
  }

  /**
    The stretch is needed, end to end: a rejected node standing on a last vertex that is there twice is on
    the route, and the report names no barrier for it.
  */
  lemma DoubledVertexIsSilent(
    g: Setting, line: Line, e: Element, t: A.Tags, inclines: seq<A.Finding>, spans: seq<BarrierSpan>)
    requires Fits(g, line) && |line.points| >= 3 && IsCandidate(e) && V.BadBarrier(e.barrier)
    requires line.points[|line.points| - 2] == line.points[|line.points| - 1] == LatLon(e.lat.value, e.lon.value)
    requires Last(line.lengths) == 0.0
    requires AreSpansOf(g, line.points, [e], spans) && !A.HasKind(inclines, A.Barrier)
    ensures RejectedNearby(g, line.points, e)
    ensures !A.HasKind(A.Assessed(line, t.(barriers := Some(AsSpans(spans))), inclines).findings, A.Barrier)
  {
    OnTheLastSegment(g, line.points, e);
    InCorridorIsNear(Plane(g, line.points), Node(g, e));
    NotNamed(g, line, e, t, inclines, spans);
  }

  lemma OnTheLastSegment(g: Setting, points: seq<LatLon>, e: Element)
    requires |points| >= 3 && IsCandidate(e)
    requires points[|points| - 2] == points[|points| - 1] == LatLon(e.lat.value, e.lon.value)
    ensures Nearest(Plane(g, points), Node(g, e)) == |points| - 2 && InCorridor(Plane(g, points), Node(g, e))
  {
    DoubledVertexIsLast(Plane(g, points), Node(g, e));
  }

  lemma NotNamed(
    g: Setting, line: Line, e: Element, t: A.Tags, inclines: seq<A.Finding>, spans: seq<BarrierSpan>)
    requires Fits(g, line) && |line.points| >= 3 && IsCandidate(e)
    requires Nearest(Plane(g, line.points), Node(g, e)) == |line.points| - 2 && Last(line.lengths) == 0.0
    requires AreSpansOf(g, line.points, [e], spans) && !A.HasKind(inclines, A.Barrier)
    ensures !A.HasKind(A.Assessed(line, t.(barriers := Some(AsSpans(spans))), inclines).findings, A.Barrier)
  {
    var found := A.Assessed(line, t.(barriers := Some(AsSpans(spans))), inclines).findings;
    forall f | f in found ensures f.kind != A.Barrier {
      if f.kind == A.Barrier {
        ReportedIff(g, line, [e], spans, t, inclines, f);
        NothingPins(g, line, e, f);
      }
    }
  }

  lemma NothingPins(g: Setting, line: Line, e: Element, f: A.Finding)
    requires Fits(g, line) && |line.points| >= 3 && IsCandidate(e)
    requires Nearest(Plane(g, line.points), Node(g, e)) == |line.points| - 2 && Last(line.lengths) == 0.0
    ensures !Pins(g, line, e, f)
  {
    if Pins(g, line, e, f) {
      var i: nat, u: real :| OnStretch(g, line, e, i, u) && f.atM == g.roundDist(Along(g.planar, i, u));
      ClosestIsNearest(Plane(g, line.points), Node(g, e), i, u);
    }
  }
}
