/**
 * The length-weighted mean over tagged spans: `weighted_tag_score` in backend/geometry.py.
 *
 * An unknown tag can take away from how much of the route a score is based on, never from the
 * score. How a raw value reads as a key is a parameter.
 */
module TagScore {
  import opened Prelude
  import opened Geometry

  datatype Span = Span(start: int, end: int, value: string)

  const UNKNOWN := {"", "MISSING", "OTHER", "UNKNOWN", "NONE"}

  /** The table of scores, and how a tag's text reads as one of its keys. */
  datatype Scale = Scale(table: map<string, real>, key: string -> string)

  /** A span's score, when its value is one the table knows. */
  function Rated(scale: Scale, s: Span): Option<real> {
    var k := scale.key(s.value);
    if k in UNKNOWN || k !in scale.table then None else Some(scale.table[k])
  }

  datatype Sums = Sums(scored: real, weighted: real)

  /** What a stretch of some length adds, given the score of its value. */
  function Weight(length: real, rated: Option<real>): Sums {
    if length <= 0.0 then Sums(0.0, 0.0)
    else match rated
      case None => Sums(0.0, 0.0)
      case Some(v) => Sums(length, v * length)
  }

  /** What one span adds. */
  function Part(lengths: seq<real>, scale: Scale, s: Span): Sums {
    Weight(SpanLength(lengths, s.start, s.end), Rated(scale, s))
  }

  function Plus(a: Sums, b: Sums): Sums {
    Sums(a.scored + b.scored, a.weighted + b.weighted)
  }

  type Measure = Span -> Sums

  function Measured(lengths: seq<real>, scale: Scale): Measure {
    s => Part(lengths, scale, s)
  }

  function Totals(part: Measure, spans: seq<Span>): Sums
    decreases |spans|
  {
    if spans == [] then Sums(0.0, 0.0) else Plus(Totals(part, Init(spans)), part(Last(spans)))
  }

  datatype WeightedTagScore = WeightedTagScore(score: Option<real>, coverage: real)

  function Finish(empty: bool, t: Sums, total: real): WeightedTagScore {
    if empty || total <= 0.0 || t.scored <= 0.0 then WeightedTagScore(None, 0.0)
    else WeightedTagScore(Some(t.weighted / t.scored), Min(1.0, t.scored / total))
  }

  function Scored(lengths: seq<real>, scale: Scale, spans: seq<Span>): WeightedTagScore {
    Finish(spans == [], Totals(Measured(lengths, scale), spans), Sum(lengths))
  }

  /** One round of the loop, when the span adds `x` and `w`. */
  lemma OneMore(part: Measure, spans: seq<Span>, i: nat, sums: Sums, x: real, w: real)
    requires i < |spans| && sums == Totals(part, spans[..i]) && part(spans[i]) == Sums(x, w)
    ensures Sums(sums.scored + x, sums.weighted + w) == Totals(part, spans[..i + 1])
  {
    assert Init(spans[..i + 1]) == spans[..i];
  }

  method Score(lengths: seq<real>, scale: Scale, spans: seq<Span>) returns (r: WeightedTagScore)
    ensures r == Scored(lengths, scale, spans)
  {
    var total := Sum(lengths);
    if spans == [] || total <= 0.0 { return WeightedTagScore(None, 0.0); }
    var scoredLength, weightedSum := 0.0, 0.0;
    for i := 0 to |spans|
      invariant Sums(scoredLength, weightedSum) == Totals(Measured(lengths, scale), spans[..i])
    {
      var x, w := SpanAdds(lengths, scale, spans[i]);
      OneMore(Measured(lengths, scale), spans, i, Sums(scoredLength, weightedSum), x, w);
      scoredLength := scoredLength + x;
      weightedSum := weightedSum + w;
    }
    assert spans[..|spans|] == spans;
    if scoredLength <= 0.0 { return WeightedTagScore(None, 0.0); }
    return WeightedTagScore(Some(weightedSum / scoredLength), Min(1.0, scoredLength / total));
  }

  /** The body of the loop: what this span adds, and nothing where the loop skips it. */
  method SpanAdds(lengths: seq<real>, scale: Scale, span: Span) returns (x: real, w: real)
    ensures Measured(lengths, scale)(span) == Sums(x, w)
  {
    x, w := 0.0, 0.0;
    var lo, hi := Lo(lengths, span.start), Hi(lengths, span.start, span.end);
    var spanLength := Sum(lengths[lo..hi]);
    if spanLength <= 0.0 { return; }
    var key := scale.key(span.value);
    if key in UNKNOWN || key !in scale.table { return; }
    x, w := spanLength, scale.table[key] * spanLength;
  }

  // ---------- What leaves the score alone ----------

  lemma {:induction false} TotalsAppend(part: Measure, a: seq<Span>, b: seq<Span>)
    ensures Totals(part, a + b) == Plus(Totals(part, a), Totals(part, b))
    decreases |b|
  {
    if b == [] {
      assert a + b == a;
    } else {
      assert Init(a + b) == a + Init(b) && Last(a + b) == Last(b);
      TotalsAppend(part, a, Init(b));
    }
  }

  lemma TotalsOfOne(part: Measure, s: Span)
    ensures Totals(part, [s]) == part(s)
  {
    assert Init([s]) == [];
  }

  lemma TotalsInsert(part: Measure, a: seq<Span>, x: seq<Span>, b: seq<Span>)
    ensures Totals(part, a + x + b) == Plus(Totals(part, a + b), Totals(part, x))
  {
    TotalsAppend(part, a + x, b);
    TotalsAppend(part, a, x);
    TotalsAppend(part, a, b);
  }

  lemma TotalsOfNone(part: Measure, spans: seq<Span>, total: real)
    ensures Finish(spans == [], Totals(part, spans), total) == Finish(false, Totals(part, spans), total)
  {
  }

  /** The same totals give the same score, empty lists included. */
  lemma ScoreIsOfTotals(lengths: seq<real>, scale: Scale, a: seq<Span>, b: seq<Span>)
    requires Totals(Measured(lengths, scale), a) == Totals(Measured(lengths, scale), b)
    ensures Scored(lengths, scale, a) == Scored(lengths, scale, b)
  {
    TotalsOfNone(Measured(lengths, scale), a, Sum(lengths));
    TotalsOfNone(Measured(lengths, scale), b, Sum(lengths));
  }

  lemma UnknownAddsNothing(lengths: seq<real>, scale: Scale, s: Span)
    requires Rated(scale, s).None?
    ensures Measured(lengths, scale)(s) == Sums(0.0, 0.0)
  {
  }

  /** A span whose value is unknown, or not in the table, changes neither the score nor the coverage. */
  lemma UnknownChangesNothing(lengths: seq<real>, scale: Scale, a: seq<Span>, s: Span, b: seq<Span>)
    requires Rated(scale, s).None?
    ensures Scored(lengths, scale, a + [s] + b) == Scored(lengths, scale, a + b)
  {
    var part := Measured(lengths, scale);
    TotalsInsert(part, a, [s], b);
    TotalsOfOne(part, s);
    UnknownAddsNothing(lengths, scale, s);
    ScoreIsOfTotals(lengths, scale, a + [s] + b, a + b);
  }

  lemma TakeOut(b: seq<Span>, x: Span) returns (before: seq<Span>, after: seq<Span>)
    requires x in b
    ensures b == before + [x] + after
    ensures multiset(before + after) == multiset(b) - multiset{x}
  {
    var i :| 0 <= i < |b| && b[i] == x;
    before, after := b[..i], b[i + 1..];
    assert b == before + [x] + after;
  }

  lemma InitTakesOut(a: seq<Span>)
    requires a != []
    ensures multiset(Init(a)) == multiset(a) - multiset{Last(a)} && Last(a) in multiset(a)
  {
    assert a == Init(a) + [Last(a)];
  }

  lemma {:induction false} TotalsOfSame(part: Measure, a: seq<Span>, b: seq<Span>)
    requires multiset(a) == multiset(b)
    ensures Totals(part, a) == Totals(part, b)
    decreases |a|
  {
    assert |multiset(a)| == |a| && |multiset(b)| == |b|;
    if a != [] {
      var x := Last(a);
      InitTakesOut(a);
      assert x in multiset(b);
      var before, after := TakeOut(b, x);
      TotalsOfSame(part, Init(a), before + after);
      TotalsInsert(part, before, [x], after);
      TotalsOfOne(part, x);
    }
  }

  /** The order of the spans makes no difference. */
  lemma OrderIsNothing(lengths: seq<real>, scale: Scale, a: seq<Span>, b: seq<Span>)
    requires multiset(a) == multiset(b)
    ensures Scored(lengths, scale, a) == Scored(lengths, scale, b)
  {
    TotalsOfSame(Measured(lengths, scale), a, b);
    ScoreIsOfTotals(lengths, scale, a, b);
  }

  /** Lengths of two spans that meet at a vertex add up, wherever the ends are clamped. */
  lemma LengthsMeet(lengths: seq<real>, i: int, j: int, k: int)
    requires i <= j <= k
    ensures SpanLength(lengths, i, k) == SpanLength(lengths, i, j) + SpanLength(lengths, j, k)
  {
    var lo, mid, hi := Lo(lengths, i), Lo(lengths, j), Hi(lengths, i, k);
    assert Hi(lengths, i, j) == mid && Hi(lengths, j, k) == hi;
    assert lengths[lo..hi] == lengths[lo..mid] + lengths[mid..hi];
    SumAppend(lengths[lo..mid], lengths[mid..hi]);
  }

  lemma Share(v: real, a: real, b: real)
    ensures v * (a + b) == v * a + v * b
  {
  }

  lemma PartsMeet(lengths: seq<real>, scale: Scale, i: int, j: int, k: int, value: string)
    requires NonNegative(lengths) && i <= j <= k
    ensures Part(lengths, scale, Span(i, k, value))
         == Plus(Part(lengths, scale, Span(i, j, value)), Part(lengths, scale, Span(j, k, value)))
  {
    LengthsMeet(lengths, i, j, k);
    WeightsMeet(SpanLength(lengths, i, j), SpanLength(lengths, j, k), Rated(scale, Span(i, k, value)));
  }

  lemma WeightsMeet(a: real, b: real, rated: Option<real>)
    requires a >= 0.0 && b >= 0.0
    ensures Weight(a + b, rated) == Plus(Weight(a, rated), Weight(b, rated))
  {
    if rated.Some? { Share(rated.value, a, b); }
  }

  lemma TotalsSplit(part: Measure, a: seq<Span>, whole: Span, first: Span, second: Span, b: seq<Span>)
    requires part(whole) == Plus(part(first), part(second))
    ensures Totals(part, a + [whole] + b) == Totals(part, a + [first, second] + b)
  {
    TotalsInsert(part, a, [whole], b);
    TotalsInsert(part, a, [first, second], b);
    assert [first, second] == [first] + [second];
    TotalsAppend(part, [first], [second]);
    TotalsOfOne(part, whole);
    TotalsOfOne(part, first);
    TotalsOfOne(part, second);
  }

  /** Splitting a span at a vertex makes no difference. */
  lemma SplittingIsNothing(
    lengths: seq<real>, scale: Scale, a: seq<Span>, i: int, j: int, k: int, value: string, b: seq<Span>)
    requires NonNegative(lengths) && i <= j <= k
    ensures Scored(lengths, scale, a + [Span(i, k, value)] + b)
         == Scored(lengths, scale, a + [Span(i, j, value), Span(j, k, value)] + b)
  {
    PartsMeet(lengths, scale, i, j, k, value);
    TotalsSplit(Measured(lengths, scale), a, Span(i, k, value), Span(i, j, value), Span(j, k, value), b);
    ScoreIsOfTotals(lengths, scale, a + [Span(i, k, value)] + b, a + [Span(i, j, value), Span(j, k, value)] + b);
  }

  // ---------- Where the score lies ----------

  predicate Used(lengths: seq<real>, scale: Scale, s: Span) {
    SpanLength(lengths, s.start, s.end) > 0.0 && Rated(scale, s).Some?
  }

  ghost predicate AllWithin(lengths: seq<real>, scale: Scale, spans: seq<Span>, lo: real, hi: real) {
    forall s | s in spans && Used(lengths, scale, s) :: lo <= Rated(scale, s).value <= hi
  }

  ghost predicate Weighs(p: Sums, lo: real, hi: real) {
    p.scored >= 0.0 && lo * p.scored <= p.weighted <= hi * p.scored
  }

  lemma PlusWeighs(p: Sums, q: Sums, lo: real, hi: real)
    requires Weighs(p, lo, hi) && Weighs(q, lo, hi)
    ensures Weighs(Plus(p, q), lo, hi)
  {
    Share(lo, p.scored, q.scored);
    Share(hi, p.scored, q.scored);
  }

  lemma {:induction false} TotalsWeigh(part: Measure, spans: seq<Span>, lo: real, hi: real)
    requires forall s | s in spans :: Weighs(part(s), lo, hi)
    ensures Weighs(Totals(part, spans), lo, hi)
    ensures Totals(part, spans).scored > 0.0 <==> exists s :: s in spans && part(s).scored > 0.0
    decreases |spans|
  {
    if spans != [] {
      var before, last := Init(spans), Last(spans);
      assert spans == before + [last];
      assert last in spans;
      TotalsWeigh(part, before, lo, hi);
      PlusWeighs(Totals(part, before), part(last), lo, hi);
    }
  }

  lemma PartWeighs(lengths: seq<real>, scale: Scale, s: Span, lo: real, hi: real)
    requires Used(lengths, scale, s) ==> lo <= Rated(scale, s).value <= hi
    ensures Weighs(Part(lengths, scale, s), lo, hi)
    ensures Part(lengths, scale, s).scored > 0.0 <==> Used(lengths, scale, s)
  {
    if Used(lengths, scale, s) {
      WeightWithin(lo, Rated(scale, s).value, hi, SpanLength(lengths, s.start, s.end));
    }
  }

  lemma WeightWithin(lo: real, v: real, hi: real, l: real)
    requires lo <= v <= hi && l >= 0.0
    ensures lo * l <= v * l <= hi * l
  {
    assert (v - lo) * l >= 0.0 && (hi - v) * l >= 0.0;
  }

  lemma TotalsWithin(lengths: seq<real>, scale: Scale, spans: seq<Span>, lo: real, hi: real)
    requires AllWithin(lengths, scale, spans, lo, hi)
    ensures Weighs(Totals(Measured(lengths, scale), spans), lo, hi)
    ensures Totals(Measured(lengths, scale), spans).scored > 0.0 <==> exists s :: s in spans && Used(lengths, scale, s)
  {
    var part := Measured(lengths, scale);
    forall s | s in spans ensures Weighs(part(s), lo, hi) && (part(s).scored > 0.0 <==> Used(lengths, scale, s)) {
      PartWeighs(lengths, scale, s, lo, hi);
    }
    TotalsWeigh(part, spans, lo, hi);
  }

  lemma QuotientWithin(lo: real, x: real, hi: real, d: real)
    requires d > 0.0 && lo * d <= x <= hi * d
    ensures lo <= x / d <= hi
  {
    Divides(x, d);
    QuotientsOrdered(lo * d, x, d, lo, x / d);
    QuotientsOrdered(x, hi * d, d, x / d, hi);
  }

  lemma Divides(x: real, d: real)
    requires d > 0.0
    ensures x / d * d == x
  {
  }

  lemma QuotientsOrdered(x: real, y: real, d: real, p: real, q: real)
    requires d > 0.0 && p * d == x && q * d == y
    ensures x <= y <==> p <= q
  {
    SignKept(q - p, d);
    assert (q - p) * d == y - x;
  }

  lemma SignKept(a: real, d: real)
    requires d > 0.0
    ensures a >= 0.0 <==> a * d >= 0.0
  {
  }

  /** The score lies between any bounds on the table values used: the smallest and largest among them. */
  lemma ScoreWithinTable(lengths: seq<real>, scale: Scale, spans: seq<Span>, lo: real, hi: real)
    requires AllWithin(lengths, scale, spans, lo, hi)
    ensures Scored(lengths, scale, spans).score.Some? ==> lo <= Scored(lengths, scale, spans).score.value <= hi
  {
    TotalsWithin(lengths, scale, spans, lo, hi);
    FinishWithin(spans == [], Totals(Measured(lengths, scale), spans), Sum(lengths), lo, hi);
  }

  lemma FinishWithin(empty: bool, t: Sums, total: real, lo: real, hi: real)
    requires Weighs(t, lo, hi)
    ensures Finish(empty, t, total).score.Some? ==> lo <= Finish(empty, t, total).score.value <= hi
  {
    if t.scored > 0.0 { QuotientWithin(lo, t.weighted, hi, t.scored); }
  }

  lemma {:induction false} SomeBounds(lengths: seq<real>, scale: Scale, spans: seq<Span>) returns (lo: real, hi: real)
    ensures AllWithin(lengths, scale, spans, lo, hi)
    decreases |spans|
  {
    lo, hi := 0.0, 0.0;
    if spans != [] {
      assert spans == Init(spans) + [Last(spans)];
      lo, hi := SomeBounds(lengths, scale, Init(spans));
      if Used(lengths, scale, Last(spans)) {
        var v := Rated(scale, Last(spans)).value;
        lo, hi := Min(lo, v), Max(hi, v);
      }
    }
  }

  lemma MiddleIsNoMore(a: seq<real>, b: seq<real>, c: seq<real>)
    requires NonNegative(a) && NonNegative(c)
    ensures Sum(b) <= Sum(a + b + c)
  {
    SumAppend(a + b, c);
    SumAppend(a, b);
    SumNonNegative(a);
    SumNonNegative(c);
  }

  lemma PartIsNoMore(s: seq<real>, lo: nat, hi: nat)
    requires NonNegative(s) && lo <= hi <= |s|
    ensures Sum(s[lo..hi]) <= Sum(s)
  {
    MiddleIsNoMore(s[..lo], s[lo..hi], s[hi..]);
    assert s == s[..lo] + s[lo..hi] + s[hi..];
  }

  lemma PositivePartMeansPositive(lengths: seq<real>, start: int, end: int)
    requires NonNegative(lengths) && SpanLength(lengths, start, end) > 0.0
    ensures Sum(lengths) > 0.0
  {
    var lo, hi := Lo(lengths, start), Hi(lengths, start, end);
    PartIsNoMore(lengths, lo, hi);
  }

  /** There is a score exactly when some span of positive length has a value the table knows, and then some coverage. */
  lemma ScoredIff(lengths: seq<real>, scale: Scale, spans: seq<Span>)
    requires NonNegative(lengths)
    ensures Scored(lengths, scale, spans).score.Some? <==> exists s :: s in spans && Used(lengths, scale, s)
    ensures 0.0 <= Scored(lengths, scale, spans).coverage <= 1.0
    ensures Scored(lengths, scale, spans).coverage > 0.0 <==> Scored(lengths, scale, spans).score.Some?
  {
    var lo, hi := SomeBounds(lengths, scale, spans);
    TotalsWithin(lengths, scale, spans, lo, hi);
    if s :| s in spans && Used(lengths, scale, s) { PositivePartMeansPositive(lengths, s.start, s.end); }
    var part := Measured(lengths, scale);
    TotalsOfNone(part, spans, Sum(lengths));
    FinishIff(Totals(part, spans), Sum(lengths));
  }

  lemma FinishIff(t: Sums, total: real)
    requires t.scored > 0.0 ==> total > 0.0
    ensures Finish(false, t, total).score.Some? <==> t.scored > 0.0
    ensures 0.0 <= Finish(false, t, total).coverage <= 1.0
    ensures Finish(false, t, total).coverage > 0.0 <==> t.scored > 0.0
  {
    if t.scored > 0.0 {
      Divides(t.scored, total);
      QuotientsOrdered(0.0, t.scored, total, 0.0, t.scored / total);
    }
  }

  /** Forgetting a tag never raises the coverage. */
  lemma ForgettingNeverRaisesCoverage(lengths: seq<real>, scale: Scale, a: seq<Span>, s: Span, b: seq<Span>, v: string)
    requires NonNegative(lengths) && Rated(scale, Span(s.start, s.end, v)).None?
    ensures Scored(lengths, scale, a + [Span(s.start, s.end, v)] + b).coverage
         <= Scored(lengths, scale, a + [s] + b).coverage
  {
    var forgotten := Span(s.start, s.end, v);
    var part, total := Measured(lengths, scale), Sum(lengths);
    UnknownChangesNothing(lengths, scale, a, forgotten, b);
    TotalsInsert(part, a, [s], b);
    TotalsOfOne(part, s);
    assert part(s).scored >= 0.0;
    MoreScoredMoreCoverage(Totals(part, a + b), Totals(part, a + [s] + b), total);
    TotalsOfNone(part, a + b, total);
  }

  lemma MoreScoredMoreCoverage(less: Sums, more: Sums, total: real)
    requires less.scored <= more.scored
    ensures Finish(false, less, total).coverage <= Finish(false, more, total).coverage
  {
    if total > 0.0 && more.scored > 0.0 {
      Divides(less.scored, total);
      Divides(more.scored, total);
      QuotientsOrdered(less.scored, more.scored, total, less.scored / total, more.scored / total);
      QuotientsOrdered(0.0, more.scored, total, 0.0, more.scored / total);
    }
  }

  // ---------- The two numbers, from the spans themselves ----------

  /** Some value that is none of the words for not knowing, and that the table has. */
  predicate Knows(scale: Scale, value: string) {
    var k := scale.key(value);
    k != "" && k != "MISSING" && k != "OTHER" && k != "UNKNOWN" && k != "NONE" && k in scale.table
  }

  /** The length of a span that is known, and that length times its score. */
  function KnownLength(lengths: seq<real>, scale: Scale, s: Span): real {
    if Knows(scale, s.value) then SpanLength(lengths, s.start, s.end) else 0.0
  }

  function KnownScore(lengths: seq<real>, scale: Scale, s: Span): real {
    if Knows(scale, s.value) then scale.table[scale.key(s.value)] * SpanLength(lengths, s.start, s.end) else 0.0
  }

  function Each(spans: seq<Span>, what: Span -> real): (s: seq<real>)
    ensures |s| == |spans| && forall i | 0 <= i < |s| :: s[i] == what(spans[i])
  {
    seq(|spans|, i requires 0 <= i < |spans| => what(spans[i]))
  }

  lemma PartIs(lengths: seq<real>, scale: Scale, s: Span)
    requires NonNegative(lengths)
    ensures Part(lengths, scale, s) == Sums(KnownLength(lengths, scale, s), KnownScore(lengths, scale, s))
  {
  }

  /** Totals are sums, for any parts. */
  lemma {:induction false} TotalsAre(part: Measure, spans: seq<Span>, x: Span -> real, w: Span -> real)
    requires forall s | s in spans :: part(s) == Sums(x(s), w(s))
    ensures Totals(part, spans) == Sums(Sum(Each(spans, x)), Sum(Each(spans, w)))
    decreases |spans|
  {
    if spans != [] {
      var before := Init(spans);
      assert spans == before + [Last(spans)];
      TotalsAre(part, before, x, w);
      assert Init(Each(spans, x)) == Each(before, x) && Init(Each(spans, w)) == Each(before, w);
      assert Last(spans) in spans;
    }
  }

  /** The score is the mean over the known spans weighted by length; the coverage their share of the route, at most all of it. */
  lemma ScoreIsWeightedMean(lengths: seq<real>, scale: Scale, spans: seq<Span>)
    requires NonNegative(lengths) && Scored(lengths, scale, spans).score.Some?
    ensures var known := Sum(Each(spans, s => KnownLength(lengths, scale, s)));
            && known > 0.0 && Sum(lengths) > 0.0
            && Scored(lengths, scale, spans).score.value == Sum(Each(spans, s => KnownScore(lengths, scale, s))) / known
            && Scored(lengths, scale, spans).coverage == Min(1.0, known / Sum(lengths))
  {
    forall s | s in spans
      ensures Measured(lengths, scale)(s) == Sums(KnownLength(lengths, scale, s), KnownScore(lengths, scale, s))
    {
      PartIs(lengths, scale, s);
    }
    TotalsAre(Measured(lengths, scale), spans, s => KnownLength(lengths, scale, s), s => KnownScore(lengths, scale, s));
  }
}
