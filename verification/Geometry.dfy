/** Segment lengths of a polyline, as given non-negative numbers, and the distances they add up to. */
module Geometry {
  import opened Prelude

  datatype LatLon = LatLon(lat: real, lon: real)

  /** A polyline: n points and the n-1 lengths between them. */
  datatype Line = Line(points: seq<LatLon>, lengths: seq<real>)

  ghost predicate NonNegative(s: seq<real>) {
    forall i | 0 <= i < |s| :: s[i] >= 0.0
  }

  ghost predicate IsLine(l: Line) {
    |l.lengths| == (if |l.points| < 2 then 0 else |l.points| - 1) && NonNegative(l.lengths)
  }

  function Sum(s: seq<real>): real
    decreases |s|
  {
    if s == [] then 0.0 else Sum(Init(s)) + Last(s)
  }

  /** `cumulative_distance_m`, at one vertex. */
  function Cum(lengths: seq<real>, i: nat): real
    requires i <= |lengths|
  {
    Sum(lengths[..i])
  }

  lemma {:induction false} SumAppend(a: seq<real>, b: seq<real>)
    ensures Sum(a + b) == Sum(a) + Sum(b)
    decreases |b|
  {
    if b == [] {
      assert a + b == a;
    } else {
      assert Init(a + b) == a + Init(b);
      SumAppend(a, Init(b));
    }
  }

  lemma {:induction false} SumNonNegative(s: seq<real>)
    requires NonNegative(s)
    ensures Sum(s) >= 0.0
    ensures forall i | 0 <= i < |s| :: s[i] <= Sum(s)
    decreases |s|
  {
    if s != [] { SumNonNegative(Init(s)); }
  }

  /** `lengths[lo:hi].sum()` with both ends clamped as the callers clamp them. */
  function SpanLength(lengths: seq<real>, start: int, end: int): (l: real)
    ensures NonNegative(lengths) ==> l >= 0.0
  {
    var lo := Lo(lengths, start);
    var hi := Hi(lengths, start, end);
    var part := lengths[lo..hi];
    assert NonNegative(lengths) ==> NonNegative(part) && Sum(part) >= 0.0 by {
      if NonNegative(lengths) { SumNonNegative(part); }
    }
    Sum(part)
  }

  function Lo(lengths: seq<real>, start: int): (lo: nat)
    ensures lo <= |lengths|
  {
    if start < 0 then 0 else if start > |lengths| then |lengths| else start
  }

  function Hi(lengths: seq<real>, start: int, end: int): (hi: nat)
    ensures Lo(lengths, start) <= hi <= |lengths|
  {
    var e := if end > |lengths| then |lengths| else end;
    if e < Lo(lengths, start) then Lo(lengths, start) else e
  }
}
