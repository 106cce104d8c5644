/**
  The accessibility verdict of a route: tags say that a stretch passes or fails, or they say nothing,
  and what they do not say can only lower the coverage.
*/
module Accessibility {
  import opened Prelude
  import opened Geometry

  datatype Verdict = Pass | Fail | Unknown

  /** A tag value, or None where nobody recorded one. */
  type Tag = Option<string>

  const ACCEPTABLE_SURFACES := {"PAVED", "ASPHALT", "CONCRETE", "PAVING_STONES", "COMPACTED"}
  const REJECTED_SURFACES := {
    "GRAVEL", "FINE_GRAVEL", "GROUND", "DIRT", "EARTH", "GRASS", "SAND", "MUD", "WOOD", "COBBLESTONE", "SETT",
    "UNHEWN_COBBLESTONE", "PEBBLESTONE", "UNPAVED", "METAL_GRID", "WOODCHIPS", "SNOW", "ICE"}
  const REJECTED_SMOOTHNESS := {"BAD", "VERY_BAD", "HORRIBLE", "VERY_HORRIBLE", "IMPASSABLE"}
  const ACCEPTED_SMOOTHNESS := {"EXCELLENT", "GOOD", "INTERMEDIATE"}
  const REJECTED_BARRIERS := {"GATE", "STILE", "TURNSTILE", "KISSING_GATE"}
  const ACCEPTED_BARRIERS := {"NO", "NONE", "ENTRANCE"}
  const REJECTED_ROAD_CLASSES := {"STEPS"}
  const UNKNOWN_VALUES := {"", "MISSING", "UNKNOWN", "OTHER", "NONE", "NULL"}

  /** What `strip` takes off, in ASCII. */
  predicate IsSpace(c: char) {
    c == ' ' || 9 <= c as int <= 13 || 28 <= c as int <= 31
  }

  function StripLeft(s: string): string {
    if s != "" && IsSpace(s[0]) then StripLeft(s[1..]) else s
  }

  function StripRight(s: string): string
    decreases |s|
  {
    if s != "" && IsSpace(Last(s)) then StripRight(Init(s)) else s
  }

  function UpperUnderscore(c: char): char {
    if 'a' <= c <= 'z' then (c as int - 32) as char else if c == '-' || c == ' ' then '_' else c
  }

  /** `normalise`, on ASCII text. */
  function Normalise(value: string): (key: string) {
    var s := StripRight(StripLeft(value));
    seq(|s|, i requires 0 <= i < |s| => UpperUnderscore(s[i]))
  }

  predicate IsUnknown(value: Tag) {
    value.None? || Normalise(value.value) in UNKNOWN_VALUES
  }

  function AssessSurface(value: Tag): Verdict {
    if IsUnknown(value) then Unknown
    else if Normalise(value.value) in ACCEPTABLE_SURFACES then Pass
    else if Normalise(value.value) in REJECTED_SURFACES then Fail
    else Unknown
  }

  function AssessSmoothness(value: Tag): Verdict {
    if IsUnknown(value) then Unknown
    else if Normalise(value.value) in REJECTED_SMOOTHNESS then Fail
    else if Normalise(value.value) in ACCEPTED_SMOOTHNESS then Pass
    else Unknown
  }

  function AssessBarrier(value: Tag): Verdict {
    if IsUnknown(value) then Unknown
    else if Normalise(value.value) in REJECTED_BARRIERS then Fail
    else if Normalise(value.value) in ACCEPTED_BARRIERS then Pass
    else Unknown
  }

  /** Not being steps does not make a way accessible: this check never passes. */
  function AssessRoadClass(value: Tag): Verdict {
    if IsUnknown(value) then Unknown
    else if Normalise(value.value) in REJECTED_ROAD_CLASSES then Fail
    else Unknown
  }

  datatype Kind = Steps | Surface | Smoothness | Barrier | Incline

  type Check = Tag -> Verdict

  /** The check each span list is read with. */
  function CheckOf(kind: Kind): Check {
    match kind
    case Steps => AssessRoadClass
    case Surface => AssessSurface
    case Smoothness => AssessSmoothness
    case Barrier => AssessBarrier
    case Incline => v => Unknown
  }

  /** A stretch of the route; a barrier span also carries its node's own position. */
  datatype Span = Span(start: int, end: int, value: Tag, pin: Option<LatLon>, atM: Option<real>)

  datatype Finding = Finding(kind: Kind, lat: real, lon: real, atM: real)

  datatype Weighted = Weighted(length: real, verdict: Verdict)

  function LengthOf(line: Line, s: Span): real {
    SpanLength(line.lengths, s.start, s.end)
  }

  /** A span counts when it covers some ground. */
  predicate Counts(line: Line, s: Span) {
    LengthOf(line, s) > 0.0
  }

  function FindingOf(line: Line, kind: Kind, s: Span): Finding
    requires line.points != [] && |line.lengths| < |line.points|
  {
    var lo := Lo(line.lengths, s.start);
    var at := if s.pin.Some? then s.pin.value else line.points[lo];
    Finding(kind, at.lat, at.lon, if s.atM.Some? then s.atM.value else Cum(line.lengths, lo))
  }

  function Weights(line: Line, check: Check, spans: seq<Span>): seq<Weighted>
    decreases |spans|
  {
    if spans == [] then []
    else
      Weights(line, check, Init(spans))
      + (if Counts(line, Last(spans)) then [Weighted(LengthOf(line, Last(spans)), check(Last(spans).value))] else [])
  }

  function Findings(line: Line, kind: Kind, check: Check, spans: seq<Span>): seq<Finding>
    requires line.points != [] && |line.lengths| < |line.points|
    decreases |spans|
  {
    if spans == [] then []
    else
      Findings(line, kind, check, Init(spans))
      + (if Counts(line, Last(spans)) && check(Last(spans).value) == Fail
         then [FindingOf(line, kind, Last(spans))] else [])
  }

  /** The four span lists. `barriers` is None when nobody looked. */
  datatype Tags = Tags(road: seq<Span>, surface: seq<Span>, smoothness: seq<Span>, barriers: Option<seq<Span>>)

  function SpansOf(t: Tags, kind: Kind): seq<Span> {
    match kind
    case Steps => t.road
    case Surface => t.surface
    case Smoothness => t.smoothness
    case Barrier => if t.barriers.Some? then t.barriers.value else []
    case Incline => []
  }

  datatype Report = Report(
    verdict: Verdict, findings: seq<Finding>, coverage: real, passed: real, failed: real, barriersChecked: bool)

  function Definite(ws: seq<Weighted>): real
    decreases |ws|
  {
    if ws == [] then 0.0
    else Definite(Init(ws)) + (if Last(ws).verdict == Unknown then 0.0 else Last(ws).length)
  }

  function LengthWith(ws: seq<Weighted>, v: Verdict): real
    decreases |ws|
  {
    if ws == [] then 0.0
    else LengthWith(Init(ws), v) + (if Last(ws).verdict == v then Last(ws).length else 0.0)
  }

  function OnSurface(line: Line, t: Tags): seq<Weighted> {
    Weights(line, AssessSurface, t.surface)
  }

  function OnSmoothness(line: Line, t: Tags): seq<Weighted> {
    Weights(line, AssessSmoothness, t.smoothness)
  }

  /** Each of the two lists has a span that covers some ground. */
  predicate BothSay(line: Line, t: Tags) {
    OnSurface(line, t) != [] && OnSmoothness(line, t) != []
  }

  /** A length as a share of the route, which counts twice when both lists speak of it. */
  function Share(part: real, total: real, both: bool): real
    requires total > 0.0
  {
    Min(1.0, part / if both then 2.0 * total else total)
  }

  function Coverage(line: Line, t: Tags): real
    requires Sum(line.lengths) > 0.0
  {
    Share(SurfaceSays(line, t) + SmoothnessSays(line, t), Sum(line.lengths), BothSay(line, t))
  }

  function AllFindings(line: Line, t: Tags, inclines: seq<Finding>): seq<Finding>
    requires line.points != [] && |line.lengths| < |line.points|
  {
    Findings(line, Steps, AssessRoadClass, t.road) + Findings(line, Surface, AssessSurface, t.surface) + Findings(line, Smoothness, AssessSmoothness, t.smoothness)
    + Findings(line, Barrier, AssessBarrier, SpansOf(t, Barrier)) + inclines
  }

  /** The specification of `assess_route`, with what the gradient check found as an input. */
  function Assessed(line: Line, t: Tags, inclines: seq<Finding>): Report
    requires IsLine(line)
  {
    if Sum(line.lengths) <= 0.0 || |line.points| < 2 then Report(Unknown, [], 0.0, 0.0, 0.0, t.barriers.Some?)
    else
      var findings := AllFindings(line, t, inclines);
      var coverage := Coverage(line, t);
      var ws := OnSurface(line, t) + OnSmoothness(line, t);
      Report(if findings != [] then Fail else if coverage <= 0.0 then Unknown else Pass, findings, coverage,
             Share(LengthWith(ws, Pass), Sum(line.lengths), BothSay(line, t)),
             Share(LengthWith(ws, Fail), Sum(line.lengths), BothSay(line, t)), t.barriers.Some?)
  }

  /** `_span_verdicts`. */
  method SpanVerdicts(line: Line, kind: Kind, check: Check, spans: seq<Span>) returns (weighted: seq<Weighted>, findings: seq<Finding>)
    requires line.points != [] && |line.lengths| < |line.points|
    ensures weighted == Weights(line, check, spans) && findings == Findings(line, kind, check, spans)
  {
    weighted, findings := [], [];
    for i := 0 to |spans|
      invariant weighted == Weights(line, check, spans[..i]) && findings == Findings(line, kind, check, spans[..i])
    {
      var s := spans[i];
      assert Init(spans[..i + 1]) == spans[..i];
      var length := LengthOf(line, s);
      if length <= 0.0 { continue; }
      var verdict := check(s.value);
      weighted := weighted + [Weighted(length, verdict)];
      if verdict == Fail { findings := findings + [FindingOf(line, kind, s)]; }
    }
    assert spans[..|spans|] == spans;
  }

  /** `assess_route`. */
  method AssessRoute(line: Line, t: Tags, inclines: seq<Finding>) returns (r: Report)
    requires IsLine(line)
    ensures r == Assessed(line, t, inclines)
  {
    var total := Sum(line.lengths);
    if total <= 0.0 || |line.points| < 2 { return Report(Unknown, [], 0.0, 0.0, 0.0, t.barriers.Some?); }
    var _, steps := SpanVerdicts(line, Steps, AssessRoadClass, t.road);
    var surface, onSurface := SpanVerdicts(line, Surface, AssessSurface, t.surface);
    var smooth, onSmooth := SpanVerdicts(line, Smoothness, AssessSmoothness, t.smoothness);
    var _, barriers := SpanVerdicts(line, Barrier, AssessBarrier, SpansOf(t, Barrier));
    var findings := steps + onSurface + onSmooth + barriers + inclines;
    assert findings == AllFindings(line, t, inclines);
    var definite, passed, failed := Tally(surface + smooth);
    DefiniteAppend(surface, smooth);
    var sources := (if surface != [] then 1 else 0) + (if smooth != [] then 1 else 0);
    assert sources == 2 <==> BothSay(line, t);
    IsAssessed(line, t, inclines, definite, passed, failed, sources == 2);
    var coverage := Share(definite, total, sources == 2);
    r := Report(if findings != [] then Fail else if coverage <= 0.0 then Unknown else Pass, findings, coverage,
                Share(passed, total, sources == 2), Share(failed, total, sources == 2), t.barriers.Some?);
  }

  lemma IsAssessed(line: Line, t: Tags, inclines: seq<Finding>, definite: real, passed: real, failed: real, both: bool)
    requires IsLine(line) && Sum(line.lengths) > 0.0 && |line.points| >= 2 && both == BothSay(line, t)
    requires definite == Definite(OnSurface(line, t)) + Definite(OnSmoothness(line, t))
    requires passed == LengthWith(OnSurface(line, t) + OnSmoothness(line, t), Pass)
    requires failed == LengthWith(OnSurface(line, t) + OnSmoothness(line, t), Fail)
    ensures var findings, coverage := AllFindings(line, t, inclines), Share(definite, Sum(line.lengths), both);
            Assessed(line, t, inclines)
            == Report(if findings != [] then Fail else if coverage <= 0.0 then Unknown else Pass, findings, coverage,
                      Share(passed, Sum(line.lengths), both), Share(failed, Sum(line.lengths), both), t.barriers.Some?)
  {
  }

  /** The loop of `assess_route` over the weighted verdicts. */
  method Tally(ws: seq<Weighted>) returns (definite: real, passed: real, failed: real)
    ensures definite == Definite(ws) && passed == LengthWith(ws, Pass) && failed == LengthWith(ws, Fail)
  {
    definite, passed, failed := 0.0, 0.0, 0.0;
    for i := 0 to |ws|
      invariant definite == Definite(ws[..i])
      invariant passed == LengthWith(ws[..i], Pass) && failed == LengthWith(ws[..i], Fail)
    {
      assert Init(ws[..i + 1]) == ws[..i];
      if ws[i].verdict == Unknown { continue; }
      definite := definite + ws[i].length;
      if ws[i].verdict == Pass { passed := passed + ws[i].length; } else { failed := failed + ws[i].length; }
    }
    assert ws[..|ws|] == ws;
  }

  // ---------------------------------------------------------------------------------------------
  // What a verdict means
  // ---------------------------------------------------------------------------------------------

  ghost predicate Says(line: Line, check: Check, spans: seq<Span>, v: Verdict) {
    exists s | s in spans :: Counts(line, s) && check(s.value) == v
  }

  lemma {:induction false} FindingsIffFail(line: Line, kind: Kind, check: Check, spans: seq<Span>)
    requires line.points != [] && |line.lengths| < |line.points|
    ensures Findings(line, kind, check, spans) != [] <==> Says(line, check, spans, Fail)
    decreases |spans|
  {
    if spans != [] {
      FindingsIffFail(line, kind, check, Init(spans));
      SaysSnoc(line, check, spans, Fail);
    }
  }

  lemma SaysSnoc(line: Line, check: Check, spans: seq<Span>, v: Verdict)
    requires spans != []
    ensures Says(line, check, spans, v) <==>
              Says(line, check, Init(spans), v) || (Counts(line, Last(spans)) && check(Last(spans).value) == v)
  {
    assert spans == Init(spans) + [Last(spans)];
    assert Last(spans) in spans;
    assert forall s | s in Init(spans) :: s in spans;
  }

  ghost predicate Positive(ws: seq<Weighted>) {
    forall i | 0 <= i < |ws| :: ws[i].length > 0.0
  }

  ghost predicate Has(ws: seq<Weighted>, v: Verdict) {
    exists i :: 0 <= i < |ws| && ws[i].verdict == v
  }

  lemma HasSnoc(ws: seq<Weighted>, w: Weighted, v: Verdict)
    ensures Has(ws + [w], v) <==> Has(ws, v) || w.verdict == v
  {
    if Has(ws, v) {
      var i :| 0 <= i < |ws| && ws[i].verdict == v;
      assert (ws + [w])[i].verdict == v;
    }
    if w.verdict == v { assert (ws + [w])[|ws|].verdict == v; }
  }

  lemma {:induction false} WeightsSay(line: Line, check: Check, spans: seq<Span>, v: Verdict)
    ensures Positive(Weights(line, check, spans))
    ensures Has(Weights(line, check, spans), v) <==> Says(line, check, spans, v)
    decreases |spans|
  {
    if spans != [] {
      WeightsSay(line, check, Init(spans), v);
      SaysSnoc(line, check, spans, v);
      var before := Weights(line, check, Init(spans));
      HasSnoc(before, Weighted(LengthOf(line, Last(spans)), check(Last(spans).value)), v);
      assert !Counts(line, Last(spans)) ==> Weights(line, check, spans) == before;
    }
  }

  lemma {:induction false} DefinitePositive(ws: seq<Weighted>)
    requires Positive(ws)
    ensures Definite(ws) >= 0.0
    ensures Definite(ws) > 0.0 <==> Has(ws, Pass) || Has(ws, Fail)
    decreases |ws|
  {
    if ws != [] {
      DefinitePositive(Init(ws));
      assert ws == Init(ws) + [Last(ws)];
      HasSnoc(Init(ws), Last(ws), Pass);
      HasSnoc(Init(ws), Last(ws), Fail);
    }
  }

  ghost predicate SomeFail(line: Line, t: Tags) {
    || Says(line, AssessRoadClass, t.road, Fail) || Says(line, AssessSurface, t.surface, Fail)
    || Says(line, AssessSmoothness, t.smoothness, Fail) || Says(line, AssessBarrier, SpansOf(t, Barrier), Fail)
  }

  ghost predicate SomePass(line: Line, t: Tags) {
    Says(line, AssessSurface, t.surface, Pass) || Says(line, AssessSmoothness, t.smoothness, Pass)
  }

  /** Blocked exactly when some stretch fails or the gradient check found something. */
  lemma FailIff(line: Line, t: Tags, inclines: seq<Finding>)
    requires IsLine(line) && Sum(line.lengths) > 0.0
    ensures Assessed(line, t, inclines).verdict == Fail <==> SomeFail(line, t) || inclines != []
  {
    assert Sum([]) == 0.0;
    FindingsIffFail(line, Steps, AssessRoadClass, t.road);
    FindingsIffFail(line, Surface, AssessSurface, t.surface);
    FindingsIffFail(line, Smoothness, AssessSmoothness, t.smoothness);
    FindingsIffFail(line, Barrier, AssessBarrier, SpansOf(t, Barrier));
  }

  /** A barrier finding blocks the route and reaches the report. */
  lemma BarrierFindingBlocks(line: Line, t: Tags, inclines: seq<Finding>, f: Finding)
    requires IsLine(line) && Sum(line.lengths) > 0.0 && |line.points| >= 2
    requires f in Findings(line, Barrier, AssessBarrier, SpansOf(t, Barrier))
    ensures Assessed(line, t, inclines).verdict == Fail && f in Assessed(line, t, inclines).findings
  {
    assert f in AllFindings(line, t, inclines);
  }

  /** Accessible exactly when nothing fails and some surface or smoothness stretch passes: a missing tag
      never stands in for one. */
  lemma PassIff(line: Line, t: Tags, inclines: seq<Finding>)
    requires IsLine(line) && Sum(line.lengths) > 0.0
    ensures Assessed(line, t, inclines).verdict == Pass <==>
              !SomeFail(line, t) && inclines == [] && SomePass(line, t)
  {
    FailIff(line, t, inclines);
    var a, b := Weights(line, AssessSurface, t.surface), Weights(line, AssessSmoothness, t.smoothness);
    WeightsSay(line, AssessSurface, t.surface, Pass);
    WeightsSay(line, AssessSurface, t.surface, Fail);
    WeightsSay(line, AssessSmoothness, t.smoothness, Pass);
    WeightsSay(line, AssessSmoothness, t.smoothness, Fail);
    DefiniteIn(a, b);
    CoveragePositive(line, t);
  }

  lemma DefiniteIn(a: seq<Weighted>, b: seq<Weighted>)
    requires Positive(a) && Positive(b)
    ensures Definite(a) + Definite(b) > 0.0 <==> Has(a, Pass) || Has(a, Fail) || Has(b, Pass) || Has(b, Fail)
  {
    DefinitePositive(a);
    DefinitePositive(b);
  }

  lemma CoveragePositive(line: Line, t: Tags)
    requires Sum(line.lengths) > 0.0
    ensures Coverage(line, t) > 0.0 <==> SurfaceSays(line, t) + SmoothnessSays(line, t) > 0.0
  {
    Clipped(SurfaceSays(line, t) + SmoothnessSays(line, t), Sum(line.lengths), BothSay(line, t), Coverage(line, t));
  }

  lemma Clipped(part: real, total: real, both: bool, share: real)
    requires total > 0.0 && share == Share(part, total, both)
    ensures share > 0.0 <==> part > 0.0
  {
    OrderOfShares(0.0, part, if both then 2.0 * total else total);
  }

  // ---------------------------------------------------------------------------------------------
  // Which findings are barriers
  // ---------------------------------------------------------------------------------------------

  ghost predicate HasKind(fs: seq<Finding>, kind: Kind) {
    exists f :: f in fs && f.kind == kind
  }

  lemma {:induction false} FindingsKeepKind(line: Line, kind: Kind, check: Check, spans: seq<Span>)
    requires line.points != [] && |line.lengths| < |line.points|
    ensures forall f | f in Findings(line, kind, check, spans) :: f.kind == kind
    decreases |spans|
  {
    if spans != [] { FindingsKeepKind(line, kind, check, Init(spans)); }
  }

  /** The report names a barrier exactly when some barrier span of positive length has a rejected value. */
  lemma BarrierReportedIff(line: Line, t: Tags, inclines: seq<Finding>)
    requires IsLine(line) && Sum(line.lengths) > 0.0 && |line.points| >= 2
    requires !HasKind(inclines, Barrier)
    ensures HasKind(Assessed(line, t, inclines).findings, Barrier) <==> Says(line, AssessBarrier, SpansOf(t, Barrier), Fail)
  {
    var listed := Findings(line, Barrier, AssessBarrier, SpansOf(t, Barrier));
    FindingsKeepKind(line, Steps, AssessRoadClass, t.road);
    FindingsKeepKind(line, Surface, AssessSurface, t.surface);
    FindingsKeepKind(line, Smoothness, AssessSmoothness, t.smoothness);
    FindingsKeepKind(line, Barrier, AssessBarrier, SpansOf(t, Barrier));
    FindingsIffFail(line, Barrier, AssessBarrier, SpansOf(t, Barrier));
    if listed != [] { assert listed[0] in AllFindings(line, t, inclines); }
    if HasKind(AllFindings(line, t, inclines), Barrier) {
      var f :| f in AllFindings(line, t, inclines) && f.kind == Barrier;
      assert f in listed;
    }
  }

  // ---------------------------------------------------------------------------------------------
  // Forgetting a tag
  // ---------------------------------------------------------------------------------------------

  function Forget(spans: seq<Span>, i: nat, v: Tag): seq<Span>
    requires i < |spans|
  {
    spans[i := spans[i].(value := v)]
  }

  /** No longer, and nothing new. */
  ghost predicate Within(b: seq<Finding>, a: seq<Finding>) {
    |b| <= |a| && forall f | f in b :: f in a
  }

  /** List b yields no more findings and no more definite length than list a, and as many weights. */
  ghost predicate NoMore(line: Line, kind: Kind, check: Check, a: seq<Span>, b: seq<Span>)
    requires line.points != [] && |line.lengths| < |line.points|
  {
    && Within(Findings(line, kind, check, b), Findings(line, kind, check, a))
    && Definite(Weights(line, check, b)) <= Definite(Weights(line, check, a))
    && |Weights(line, check, b)| == |Weights(line, check, a)|
  }

  /** Replacing a value by one nobody has an opinion about, in one list. */
  lemma {:induction false} ForgetInList(line: Line, kind: Kind, check: Check, spans: seq<Span>, i: nat, v: Tag)
    requires line.points != [] && |line.lengths| < |line.points|
    requires i < |spans| && check(v) == Unknown
    ensures NoMore(line, kind, check, spans, Forget(spans, i, v))
    decreases |spans|
  {
    var after := Forget(spans, i, v);
    if i == |spans| - 1 {
      assert Init(after) == Init(spans);
      assert Counts(line, Last(after)) <==> Counts(line, Last(spans));
    } else {
      assert Init(after) == Forget(Init(spans), i, v);
      assert Last(after) == Last(spans);
      ForgetInList(line, kind, check, Init(spans), i, v);
    }
    DefiniteOfLast(line, check, spans);
    DefiniteOfLast(line, check, after);
  }

  lemma DefiniteOfLast(line: Line, check: Check, spans: seq<Span>)
    requires spans != []
    ensures Definite(Weights(line, check, spans)) == Definite(Weights(line, check, Init(spans)))
              + (if Counts(line, Last(spans)) && check(Last(spans).value) != Unknown
                 then LengthOf(line, Last(spans)) else 0.0)
  {
    var before := Weights(line, check, Init(spans));
    if Counts(line, Last(spans)) {
      assert Init(Weights(line, check, spans)) == before;
    } else {
      assert Weights(line, check, spans) == before;
    }
  }

  function ForgetTag(t: Tags, kind: Kind, i: nat, v: Tag): Tags
    requires i < |SpansOf(t, kind)|
  {
    match kind
    case Steps => t.(road := Forget(t.road, i, v))
    case Surface => t.(surface := Forget(t.surface, i, v))
    case Smoothness => t.(smoothness := Forget(t.smoothness, i, v))
    case Barrier => t.(barriers := Some(Forget(t.barriers.value, i, v)))
  }

  lemma {:induction false} DefiniteAppend(a: seq<Weighted>, b: seq<Weighted>)
    ensures Definite(a + b) == Definite(a) + Definite(b)
    decreases |b|
  {
    if b == [] {
      assert a + b == a;
    } else {
      assert Init(a + b) == a + Init(b);
      DefiniteAppend(a, Init(b));
    }
  }

  /** For fixed lists, forgetting any one tag never raises coverage and never adds a finding. */
  lemma ForgettingNeverHelps(line: Line, t: Tags, inclines: seq<Finding>, kind: Kind, i: nat, v: Tag)
    requires IsLine(line) && Sum(line.lengths) > 0.0
    requires i < |SpansOf(t, kind)| && CheckOf(kind)(v) == Unknown
    ensures var before, after := Assessed(line, t, inclines), Assessed(line, ForgetTag(t, kind, i, v), inclines);
            && after.coverage <= before.coverage
            && Within(after.findings, before.findings)
  {
    assert Sum([]) == 0.0;
    var u := ForgetTag(t, kind, i, v);
    ForgetInList(line, kind, CheckOf(kind), SpansOf(t, kind), i, v);
    assert SpansOf(u, kind) == Forget(SpansOf(t, kind), i, v);
    assert forall k | k != kind :: SpansOf(u, k) == SpansOf(t, k);
    NoMoreOverall(line, t, u, inclines);
  }

  lemma NoMoreOverall(line: Line, t: Tags, u: Tags, inclines: seq<Finding>)
    requires IsLine(line) && Sum(line.lengths) > 0.0 && line.points != []
    requires forall k | k != Incline :: NoMore(line, k, CheckOf(k), SpansOf(t, k), SpansOf(u, k))
    ensures Coverage(line, u) <= Coverage(line, t)
    ensures Within(AllFindings(line, u, inclines), AllFindings(line, t, inclines))
  {
    FindingsWithin(line, t, u, inclines);
    assert NoMore(line, Surface, CheckOf(Surface), SpansOf(t, Surface), SpansOf(u, Surface));
    assert NoMore(line, Smoothness, CheckOf(Smoothness), SpansOf(t, Smoothness), SpansOf(u, Smoothness));
    LessCoverage(line, t, u);
  }

  lemma FindingsWithin(line: Line, t: Tags, u: Tags, inclines: seq<Finding>)
    requires IsLine(line) && line.points != []
    requires forall k | k != Incline :: NoMore(line, k, CheckOf(k), SpansOf(t, k), SpansOf(u, k))
    ensures Within(AllFindings(line, u, inclines), AllFindings(line, t, inclines))
  {
    assert NoMore(line, Steps, CheckOf(Steps), SpansOf(t, Steps), SpansOf(u, Steps));
    assert NoMore(line, Surface, CheckOf(Surface), SpansOf(t, Surface), SpansOf(u, Surface));
    assert NoMore(line, Smoothness, CheckOf(Smoothness), SpansOf(t, Smoothness), SpansOf(u, Smoothness));
    assert NoMore(line, Barrier, CheckOf(Barrier), SpansOf(t, Barrier), SpansOf(u, Barrier));
    var a0, b0 := Findings(line, Steps, AssessRoadClass, t.road), Findings(line, Steps, AssessRoadClass, u.road);
    var a1, b1 := Findings(line, Surface, AssessSurface, t.surface), Findings(line, Surface, AssessSurface, u.surface);
    var a2 := Findings(line, Smoothness, AssessSmoothness, t.smoothness);
    var b2 := Findings(line, Smoothness, AssessSmoothness, u.smoothness);
    var a3 := Findings(line, Barrier, AssessBarrier, SpansOf(t, Barrier));
    var b3 := Findings(line, Barrier, AssessBarrier, SpansOf(u, Barrier));
    WithinConcat(b0, a0, b1, a1);
    WithinConcat(b0 + b1, a0 + a1, b2, a2);
    WithinConcat(b0 + b1 + b2, a0 + a1 + a2, b3, a3);
    WithinConcat(b0 + b1 + b2 + b3, a0 + a1 + a2 + a3, inclines, inclines);
  }

  lemma WithinConcat(b0: seq<Finding>, a0: seq<Finding>, b1: seq<Finding>, a1: seq<Finding>)
    requires Within(b0, a0) && Within(b1, a1)
    ensures Within(b0 + b1, a0 + a1)
  {
  }

  lemma LessCoverage(line: Line, t: Tags, u: Tags)
    requires Sum(line.lengths) > 0.0
    requires BothSay(line, u) == BothSay(line, t)
    requires SurfaceSays(line, u) <= SurfaceSays(line, t) && SmoothnessSays(line, u) <= SmoothnessSays(line, t)
    ensures Coverage(line, u) <= Coverage(line, t)
  {
    var total := Sum(line.lengths);
    LessShare(SurfaceSays(line, u), SmoothnessSays(line, u), SurfaceSays(line, t), SmoothnessSays(line, t), total,
              BothSay(line, t), Coverage(line, u), Coverage(line, t));
  }

  lemma LessShare(s': real, m': real, s: real, m: real, total: real, both: bool, less: real, more: real)
    requires total > 0.0 && s' <= s && m' <= m
    requires less == Share(s' + m', total, both) && more == Share(s + m, total, both)
    ensures less <= more
  {
    SharesOrdered(s' + m', s + m, total, both);
  }

  lemma SharesOrdered(a: real, b: real, total: real, both: bool)
    requires a <= b && total > 0.0
    ensures Share(a, total, both) <= Share(b, total, both)
  {
    Quotients(a, b, if both then 2.0 * total else total);
  }

  lemma Quotients(a: real, b: real, n: real)
    requires a <= b && n > 0.0
    ensures a / n <= b / n
  {
    assert a / n - b / n == (a - b) / n;
  }

  lemma OrderOfShares(x: real, y: real, n: real)
    requires n > 0.0
    ensures x / n < y / n <==> x < y
  {
    assert x / n - y / n == (x - y) / n;
  }

  lemma OfHalves(x: real, n: real)
    requires n > 0.0
    ensures 2.0 * x / (2.0 * n) == x / n
  {
  }

  lemma BelowOne(x: real, n: real)
    requires n > 0.0
    ensures x / n < 1.0 <==> x < n
  {
    OrderOfShares(x, n, n);
  }

  /** Two lists against one: the mean of two shares below the first of them, and below the whole. */
  lemma HalvedShare(s: real, m: real, n: real)
    requires n > 0.0
    ensures Share(s + m, n, true) < Share(s, n, false) <==> m < s && s + m < 2.0 * n
  {
    OfHalves(s, n);
    OrderOfShares(s + m, 2.0 * s, 2.0 * n);
    BelowOne(s + m, 2.0 * n);
  }

  lemma DefiniteNotNegative(line: Line, check: Check, spans: seq<Span>)
    ensures Definite(Weights(line, check, spans)) >= 0.0
  {
    WeightsSay(line, check, spans, Pass);
    DefinitePositive(Weights(line, check, spans));
  }

  /** How much of the route each list is definite about. */
  function SurfaceSays(line: Line, t: Tags): (s: real)
    ensures s >= 0.0
  {
    DefiniteNotNegative(line, AssessSurface, t.surface);
    Definite(OnSurface(line, t))
  }

  function SmoothnessSays(line: Line, t: Tags): (s: real)
    ensures s >= 0.0
  {
    DefiniteNotNegative(line, AssessSmoothness, t.smoothness);
    Definite(OnSmoothness(line, t))
  }

  lemma CoverageOfSurface(line: Line, t: Tags, total: real)
    requires total == Sum(line.lengths) > 0.0
    ensures Coverage(line, t.(smoothness := [])) == Share(SurfaceSays(line, t), total, false)
  {
    assert OnSmoothness(line, t.(smoothness := [])) == [];
  }

  lemma CoverageOfSmoothness(line: Line, t: Tags, total: real)
    requires total == Sum(line.lengths) > 0.0
    ensures Coverage(line, t.(surface := [])) == Share(SmoothnessSays(line, t), total, false)
  {
    assert OnSurface(line, t.(surface := [])) == [];
  }

  /** One list is definite about more, and the two together fall short of the whole route twice. */
  predicate SaysMore(more: real, less: real, total: real) {
    less < more && more + less < 2.0 * total
  }

  /** One list alone against the two together. */
  lemma RaisesIff(s: real, m: real, n: real, both: bool, alone: real, together: real)
    requires n > 0.0 && s >= 0.0 && m >= 0.0
    requires alone == Share(s, n, false) && together == Share(s + m, n, both)
    ensures alone > together <==> both && SaysMore(s, m, n)
  {
    if both { HalvedShare(s, m, n); } else { SharesOrdered(s, s + m, n, false); }
  }

  /**
    The lists have to stay. Leaving the smoothness list out raises coverage exactly when both lists
    say of some stretch that they cover it, surface is definite over more of the route, and the two
    together fall short of covering it twice.
  */
  lemma DroppingAListRaisesCoverageIff(line: Line, t: Tags)
    requires Sum(line.lengths) > 0.0
    ensures Coverage(line, t.(smoothness := [])) > Coverage(line, t) <==>
              BothSay(line, t) && SaysMore(SurfaceSays(line, t), SmoothnessSays(line, t), Sum(line.lengths))
  {
    var total := Sum(line.lengths);
    CoverageOfSurface(line, t, total);
    RaisesIff(SurfaceSays(line, t), SmoothnessSays(line, t), total, BothSay(line, t),
              Coverage(line, t.(smoothness := [])), Coverage(line, t));
  }

  /** And the surface list, with the parts exchanged. */
  lemma DroppingSurfaceRaisesCoverageIff(line: Line, t: Tags)
    requires Sum(line.lengths) > 0.0
    ensures Coverage(line, t.(surface := [])) > Coverage(line, t) <==>
              BothSay(line, t) && SaysMore(SmoothnessSays(line, t), SurfaceSays(line, t), Sum(line.lengths))
  {
    var total := Sum(line.lengths);
    CoverageOfSmoothness(line, t, total);
    RaisesIff(SmoothnessSays(line, t), SurfaceSays(line, t), total, BothSay(line, t),
              Coverage(line, t.(surface := [])), Coverage(line, t));
  }

  /** For one: a smoothness list that covers the route and says nothing of it halves the coverage. */
  lemma DroppingAListCanHelp(line: Line, t: Tags)
    requires line.lengths == [10.0] && |line.points| == 2
    requires |t.surface| == 1 && Covers10(t.surface[0]) && AssessSurface(t.surface[0].value) == Pass
    requires |t.smoothness| == 1 && Covers10(t.smoothness[0]) && AssessSmoothness(t.smoothness[0].value) == Unknown
    ensures Sum(line.lengths) == 10.0
    ensures Coverage(line, t) == 0.5
    ensures Coverage(line, t.(smoothness := [])) == 1.0
  {
    assert Init([10.0]) == [] && Sum([]) == 0.0;
    OneSpan(line, AssessSurface, t.surface[0]);
    OneSpan(line, AssessSmoothness, t.smoothness[0]);
    assert t.surface == [t.surface[0]] && t.smoothness == [t.smoothness[0]];
    CoverageOfSurface(line, t, 10.0);
  }

  predicate Covers10(s: Span) {
    s.start == 0 && s.end == 1
  }

  lemma OneSpan(line: Line, check: Check, s: Span)
    requires line.lengths == [10.0] && Covers10(s)
    ensures Weights(line, check, [s]) == [Weighted(10.0, check(s.value))]
    ensures Definite(Weights(line, check, [s])) == if check(s.value) == Unknown then 0.0 else 10.0
  {
    var w := Weighted(10.0, check(s.value));
    assert LengthOf(line, s) == 10.0 by {
      assert line.lengths[0..1] == [10.0] && Init([10.0]) == [] && Sum([]) == 0.0;
    }
    assert Init([s]) == [] && Weights(line, check, []) == [];
    assert [] + [w] == [w];
    DefiniteOfLast(line, check, [s]);
  }
}
