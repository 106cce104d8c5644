/**
  The verdict told from the tags as they are written. Which spellings of which values pass and fail is
  set out here once more, value by value, and every finding, the verdict and the coverage of a route
  follow from it alone.
*/
module VerdictFromTags {
  import opened Prelude
  import opened Geometry
  import opened Accessibility

  // ---------------------------------------------------------------------------------------------
  // Spelling
  // ---------------------------------------------------------------------------------------------

  predicate Blank(text: string, from: nat, to: nat)
    requires to <= |text|
  {
    forall i | from <= i < to :: IsSpace(text[i])
  }

  /** The same letter in either case; a hyphen or a space for an underscore. */
  predicate StandsFor(c: char, w: char) {
    c == w || ('A' <= w <= 'Z' && c as int == w as int + 32) || (w == '_' && (c == '-' || c == ' '))
  }

  ghost predicate SpellsAt(text: string, word: string, front: nat) {
    && front + |word| <= |text| && Blank(text, 0, front) && Blank(text, front + |word|, |text|)
    && forall i | 0 <= i < |word| :: StandsFor(text[front + i], word[i])
  }

  /** `text` is `word` in some case and punctuation, with blanks around it. */
  ghost predicate Spells(text: string, word: string) {
    exists front: nat :: SpellsAt(text, word, front)
  }

  /** A word in capitals, underscores inside it only. */
  predicate IsWord(word: string) {
    && (forall i | 0 <= i < |word| :: 'A' <= word[i] <= 'Z' || word[i] == '_')
    && (word != "" ==> word[0] != '_' && Last(word) != '_')
  }

  lemma {:induction false} StripLeftDrops(text: string) returns (n: nat)
    ensures n <= |text| && Blank(text, 0, n) && StripLeft(text) == text[n..]
    ensures n < |text| ==> !IsSpace(text[n])
  {
    n := 0;
    if text != "" && IsSpace(text[0]) {
      var m := StripLeftDrops(text[1..]);
      n := m + 1;
      assert text[n..] == text[1..][m..];
      forall i | 0 <= i < n ensures IsSpace(text[i]) {
        if i > 0 { assert text[i] == text[1..][i - 1]; }
      }
    }
  }

  lemma {:induction false} StripRightDrops(text: string) returns (n: nat)
    ensures n <= |text| && Blank(text, n, |text|) && StripRight(text) == text[..n]
    ensures n > 0 ==> !IsSpace(text[n - 1])
    decreases |text|
  {
    n := |text|;
    if text != "" && IsSpace(Last(text)) {
      n := StripRightDrops(Init(text));
      assert text[..n] == Init(text)[..n];
      forall i | n <= i < |text| ensures IsSpace(text[i]) {
        if i < |text| - 1 { assert text[i] == Init(text)[i]; }
      }
    }
  }

  /** Stripping keeps one stretch of the text, between blanks, with no blank at either end. */
  ghost predicate Stripped(text: string, front: nat, end: nat) {
    && front <= end <= |text| && Blank(text, 0, front) && Blank(text, end, |text|)
    && (front < end ==> !IsSpace(text[front]) && !IsSpace(text[end - 1]))
  }

  lemma StripIsBetween(text: string) returns (front: nat, end: nat)
    ensures Stripped(text, front, end) && StripRight(StripLeft(text)) == text[front..end]
  {
    front := StripLeftDrops(text);
    var rest := text[front..];
    var n := StripRightDrops(rest);
    end := front + n;
    assert rest[..n] == text[front..end];
    assert forall i | end <= i < |text| :: text[i] == rest[i - front];
  }

  lemma OneStretch(text: string, a: nat, b: nat, c: nat, d: nat)
    requires Stripped(text, a, b) && Stripped(text, c, d) && a < b && c < d
    ensures a == c && b == d
  {
  }

  lemma OneChar(c: char, w: char)
    requires 'A' <= w <= 'Z' || w == '_'
    ensures UpperUnderscore(c) == w <==> StandsFor(c, w)
    ensures w != '_' && StandsFor(c, w) ==> !IsSpace(c)
  {
  }

  lemma NormaliseOf(text: string, front: nat, end: nat)
    requires Stripped(text, front, end) && StripRight(StripLeft(text)) == text[front..end]
    ensures |Normalise(text)| == end - front
    ensures forall i | 0 <= i < end - front :: Normalise(text)[i] == UpperUnderscore(text[front + i])
  {
  }

  lemma SpelledIsStripped(text: string, word: string, front: nat)
    requires IsWord(word) && word != "" && SpellsAt(text, word, front)
    ensures Stripped(text, front, front + |word|)
  {
    var n := |word|;
    assert StandsFor(text[front + 0], word[0]) && StandsFor(text[front + (n - 1)], word[n - 1]);
    OneChar(text[front], word[0]);
    OneChar(text[front + n - 1], word[n - 1]);
  }

  /** `normalise` gives a word exactly for its spellings. */
  lemma NormalisedIff(text: string, word: string)
    requires IsWord(word)
    ensures Normalise(text) == word <==> Spells(text, word)
  {
    var front, end := StripIsBetween(text);
    NormaliseOf(text, front, end);
    if Normalise(text) == word {
      forall i | 0 <= i < |word| ensures StandsFor(text[front + i], word[i]) {
        OneChar(text[front + i], word[i]);
      }
      assert SpellsAt(text, word, front);
    }
    if f: nat :| SpellsAt(text, word, f) {
      if word == "" {
        AllBlank(text, front, end);
      } else {
        SpelledIsStripped(text, word, f);
        SomeSolid(text, front, end, f);
        OneStretch(text, front, end, f, f + |word|);
        forall i | 0 <= i < |word| ensures Normalise(text)[i] == word[i] {
          OneChar(text[front + i], word[i]);
        }
      }
    }
  }

  lemma AllBlank(text: string, front: nat, end: nat)
    requires Stripped(text, front, end) && Blank(text, 0, |text|)
    ensures front == end
  {
  }

  lemma SomeSolid(text: string, front: nat, end: nat, k: nat)
    requires Stripped(text, front, end) && k < |text| && !IsSpace(text[k])
    ensures front < end
  {
  }

  ghost predicate SpellsOne(v: Tag, words: set<string>) {
    v.Some? && exists w | w in words :: Spells(v.value, w)
  }

  lemma InSetIff(v: Tag, words: set<string>)
    requires forall w | w in words :: IsWord(w)
    ensures v.Some? && Normalise(v.value) in words <==> SpellsOne(v, words)
  {
    if v.Some? {
      forall w | w in words ensures Normalise(v.value) == w <==> Spells(v.value, w) {
        NormalisedIff(v.value, w);
      }
    }
  }

  // ---------------------------------------------------------------------------------------------
  // Which values pass and fail
  // ---------------------------------------------------------------------------------------------

  ghost predicate GoodSurface(v: Tag) {
    SpellsOne(v, {"PAVED", "ASPHALT", "CONCRETE", "PAVING_STONES", "COMPACTED"})
  }

  ghost predicate BadSurface(v: Tag) {
    SpellsOne(v, {"GRAVEL", "FINE_GRAVEL", "GROUND", "DIRT", "EARTH", "GRASS", "SAND", "MUD", "WOOD", "COBBLESTONE",
                  "SETT", "UNHEWN_COBBLESTONE", "PEBBLESTONE", "UNPAVED", "METAL_GRID", "WOODCHIPS", "SNOW", "ICE"})
  }

  ghost predicate GoodSmoothness(v: Tag) {
    SpellsOne(v, {"EXCELLENT", "GOOD", "INTERMEDIATE"})
  }

  ghost predicate BadSmoothness(v: Tag) {
    SpellsOne(v, {"BAD", "VERY_BAD", "HORRIBLE", "VERY_HORRIBLE", "IMPASSABLE"})
  }

  ghost predicate BadBarrier(v: Tag) {
    SpellsOne(v, {"GATE", "STILE", "TURNSTILE", "KISSING_GATE"})
  }

  ghost predicate GoodBarrier(v: Tag) {
    SpellsOne(v, {"NO", "ENTRANCE"})
  }

  ghost predicate IsSteps(v: Tag) {
    SpellsOne(v, {"STEPS"})
  }

  // The lists have no word in common: their words already differ in length, first letter or last.

  function Shape(w: string): (nat, char, char)
    requires w != ""
  {
    (|w|, w[0], Last(w))
  }

  lemma UnknownShapes(w: string)
    requires w in UNKNOWN_VALUES && w != ""
    ensures Shape(w) in {(7, 'M', 'G'), (7, 'U', 'N'), (5, 'O', 'R'), (4, 'N', 'E'), (4, 'N', 'L')}
  {
  }

  lemma GoodSurfaceShapes(w: string)
    requires w in ACCEPTABLE_SURFACES
    ensures w != "" && Shape(w) in {(5, 'P', 'D'), (7, 'A', 'T'), (8, 'C', 'E'), (13, 'P', 'S'), (9, 'C', 'D')}
  {
  }

  lemma BadSurfaceShapes(w: string)
    requires w in REJECTED_SURFACES
    ensures w != "" && Shape(w) in {
      (6, 'G', 'L'), (11, 'F', 'L'), (6, 'G', 'D'), (4, 'D', 'T'), (5, 'E', 'H'), (5, 'G', 'S'), (4, 'S', 'D'), (3, 'M', 'D'),
      (4, 'W', 'D'), (11, 'C', 'E'), (4, 'S', 'T'), (18, 'U', 'E'), (11, 'P', 'E'), (7, 'U', 'D'), (10, 'M', 'D'),
      (9, 'W', 'S'), (4, 'S', 'W'), (3, 'I', 'E')}
  {
  }

  lemma SmoothnessShapes(w: string)
    requires w in REJECTED_SMOOTHNESS || w in ACCEPTED_SMOOTHNESS
    ensures w != ""
    ensures w in REJECTED_SMOOTHNESS ==> Shape(w) in {(3, 'B', 'D'), (8, 'V', 'D'), (8, 'H', 'E'), (13, 'V', 'E'), (10, 'I', 'E')}
    ensures w in ACCEPTED_SMOOTHNESS ==> Shape(w) in {(9, 'E', 'T'), (4, 'G', 'D'), (12, 'I', 'E')}
  {
  }

  lemma BarrierShapes(w: string)
    requires w in REJECTED_BARRIERS || w in {"NO", "ENTRANCE"}
    ensures w != ""
    ensures w in REJECTED_BARRIERS ==> Shape(w) in {(4, 'G', 'E'), (5, 'S', 'E'), (9, 'T', 'E'), (12, 'K', 'E')}
    ensures w in {"NO", "ENTRANCE"} ==> Shape(w) in {(2, 'N', 'O'), (8, 'E', 'E')}
  {
  }

  lemma SurfacesApart(w: string)
    ensures w in REJECTED_SURFACES ==> w !in ACCEPTABLE_SURFACES && w !in UNKNOWN_VALUES
    ensures w in ACCEPTABLE_SURFACES ==> w !in UNKNOWN_VALUES
  {
    if w in REJECTED_SURFACES { BadSurfaceShapes(w); }
    if w in ACCEPTABLE_SURFACES { GoodSurfaceShapes(w); }
    if w in UNKNOWN_VALUES && w != "" { UnknownShapes(w); }
  }

  lemma SmoothnessApart(w: string)
    ensures w in REJECTED_SMOOTHNESS ==> w !in ACCEPTED_SMOOTHNESS && w !in UNKNOWN_VALUES
    ensures w in ACCEPTED_SMOOTHNESS ==> w !in UNKNOWN_VALUES
  {
    if w in REJECTED_SMOOTHNESS || w in ACCEPTED_SMOOTHNESS { SmoothnessShapes(w); }
    if w in UNKNOWN_VALUES && w != "" { UnknownShapes(w); }
  }

  /** `NONE` is on both lists, and the unknown values come first. */
  lemma BarriersApart(w: string)
    ensures w in REJECTED_BARRIERS ==> w !in {"NO", "ENTRANCE"} && w !in UNKNOWN_VALUES
    ensures w in {"NO", "ENTRANCE"} ==> w !in UNKNOWN_VALUES
  {
    if w in REJECTED_BARRIERS || w in {"NO", "ENTRANCE"} { BarrierShapes(w); }
    if w in UNKNOWN_VALUES && w != "" { UnknownShapes(w); }
  }

  lemma StepsApart(w: string)
    ensures w == "STEPS" ==> w !in UNKNOWN_VALUES
  {
    if w in UNKNOWN_VALUES && w != "" { UnknownShapes(w); }
  }

  lemma GoodSurfaceWord(w: string)
    requires w in ACCEPTABLE_SURFACES
    ensures IsWord(w)
  {
  }

  lemma BadSurfaceWord(w: string)
    requires w in REJECTED_SURFACES
    ensures IsWord(w)
  {
  }

  lemma SmoothnessWord(w: string)
    requires w in ACCEPTED_SMOOTHNESS || w in REJECTED_SMOOTHNESS
    ensures IsWord(w)
  {
  }

  lemma BarrierWord(w: string)
    requires w in REJECTED_BARRIERS || w in {"NO", "ENTRANCE"}
    ensures IsWord(w)
  {
  }

  lemma ListIff(v: Tag, good: set<string>, bad: set<string>)
    requires (forall w | w in good :: IsWord(w)) && (forall w | w in bad :: IsWord(w))
    ensures SpellsOne(v, good) <==> v.Some? && Normalise(v.value) in good
    ensures SpellsOne(v, bad) <==> v.Some? && Normalise(v.value) in bad
  {
    InSetIff(v, good);
    InSetIff(v, bad);
  }

  lemma SurfaceLists(v: Tag)
    ensures AssessSurface(v) == Fail <==> v.Some? && Normalise(v.value) in REJECTED_SURFACES
    ensures AssessSurface(v) == Pass <==> v.Some? && Normalise(v.value) in ACCEPTABLE_SURFACES
  {
    if v.Some? { SurfacesApart(Normalise(v.value)); }
  }

  lemma SmoothnessLists(v: Tag)
    ensures AssessSmoothness(v) == Fail <==> v.Some? && Normalise(v.value) in REJECTED_SMOOTHNESS
    ensures AssessSmoothness(v) == Pass <==> v.Some? && Normalise(v.value) in ACCEPTED_SMOOTHNESS
  {
    if v.Some? { SmoothnessApart(Normalise(v.value)); }
  }

  lemma BarrierLists(v: Tag)
    ensures AssessBarrier(v) == Fail <==> v.Some? && Normalise(v.value) in REJECTED_BARRIERS
    ensures AssessBarrier(v) == Pass <==> v.Some? && Normalise(v.value) in {"NO", "ENTRANCE"}
  {
    if v.Some? { BarriersApart(Normalise(v.value)); }
  }

  lemma SurfaceIff(v: Tag)
    ensures AssessSurface(v) == Fail <==> BadSurface(v)
    ensures AssessSurface(v) == Pass <==> GoodSurface(v)
  {
    forall w | w in ACCEPTABLE_SURFACES ensures IsWord(w) { GoodSurfaceWord(w); }
    forall w | w in REJECTED_SURFACES ensures IsWord(w) { BadSurfaceWord(w); }
    ListIff(v, ACCEPTABLE_SURFACES, REJECTED_SURFACES);
    SurfaceLists(v);
  }

  lemma SmoothnessIff(v: Tag)
    ensures AssessSmoothness(v) == Fail <==> BadSmoothness(v)
    ensures AssessSmoothness(v) == Pass <==> GoodSmoothness(v)
  {
    forall w | w in ACCEPTED_SMOOTHNESS || w in REJECTED_SMOOTHNESS ensures IsWord(w) { SmoothnessWord(w); }
    ListIff(v, ACCEPTED_SMOOTHNESS, REJECTED_SMOOTHNESS);
    SmoothnessLists(v);
  }

  lemma BarrierIff(v: Tag)
    ensures AssessBarrier(v) == Fail <==> BadBarrier(v)
    ensures AssessBarrier(v) == Pass <==> GoodBarrier(v)
  {
    forall w | w in {"NO", "ENTRANCE"} || w in REJECTED_BARRIERS ensures IsWord(w) { BarrierWord(w); }
    ListIff(v, {"NO", "ENTRANCE"}, REJECTED_BARRIERS);
    BarrierLists(v);
  }

  lemma StepsIff(v: Tag)
    ensures AssessRoadClass(v) == Fail <==> IsSteps(v)
    ensures AssessRoadClass(v) != Pass
  {
    InSetIff(v, {"STEPS"});
    if v.Some? { StepsApart(Normalise(v.value)); }
  }

  // ---------------------------------------------------------------------------------------------
  // Verdict and findings
  // ---------------------------------------------------------------------------------------------

  /** Some segment of the span has length. */
  ghost predicate Covers(line: Line, s: Span) {
    exists k | 0 <= k < |line.lengths| :: s.start <= k < s.end && line.lengths[k] > 0.0
  }

  lemma {:induction false} SumPositiveIff(s: seq<real>)
    requires NonNegative(s)
    ensures Sum(s) > 0.0 <==> exists k | 0 <= k < |s| :: s[k] > 0.0
    decreases |s|
  {
    if s != [] {
      SumPositiveIff(Init(s));
      SumNonNegative(Init(s));
      if k :| 0 <= k < |s| && s[k] > 0.0 { assert k < |s| - 1 ==> Init(s)[k] > 0.0; }
      if k :| 0 <= k < |Init(s)| && Init(s)[k] > 0.0 { assert s[k] > 0.0; }
    }
  }

  lemma CoversIff(line: Line, s: Span)
    requires NonNegative(line.lengths)
    ensures Counts(line, s) <==> Covers(line, s)
  {
    var lo, hi := Lo(line.lengths, s.start), Hi(line.lengths, s.start, s.end);
    var part := line.lengths[lo..hi];
    SumPositiveIff(part);
    if k :| 0 <= k < |part| && part[k] > 0.0 { assert line.lengths[lo + k] > 0.0; }
    if k :| 0 <= k < |line.lengths| && s.start <= k < s.end && line.lengths[k] > 0.0 { assert part[k - lo] > 0.0; }
  }

  /** What each list rejects. */
  ghost predicate Bad(kind: Kind, v: Tag) {
    match kind
    case Steps => IsSteps(v)
    case Surface => BadSurface(v)
    case Smoothness => BadSmoothness(v)
    case Barrier => BadBarrier(v)
    case Incline => false
  }

  lemma BadIff(kind: Kind, v: Tag)
    ensures CheckOf(kind)(v) == Fail <==> Bad(kind, v)
  {
    SurfaceIff(v);
    SmoothnessIff(v);
    BarrierIff(v);
    StepsIff(v);
  }

  ghost predicate BadSpan(line: Line, kind: Kind, s: Span) {
    Covers(line, s) && Bad(kind, s.value)
  }

  ghost predicate BadIn(line: Line, kind: Kind, spans: seq<Span>) {
    exists s | s in spans :: BadSpan(line, kind, s)
  }

  lemma BadInIff(line: Line, kind: Kind, spans: seq<Span>)
    requires NonNegative(line.lengths)
    ensures Says(line, CheckOf(kind), spans, Fail) <==> BadIn(line, kind, spans)
  {
    forall s | s in spans ensures Counts(line, s) && CheckOf(kind)(s.value) == Fail <==> BadSpan(line, kind, s) {
      CoversIff(line, s);
      BadIff(kind, s.value);
    }
  }

  /** Some stretch of the route is tagged with a value that is rejected. */
  ghost predicate SomethingBad(line: Line, t: Tags) {
    || BadIn(line, Steps, t.road) || BadIn(line, Surface, t.surface) || BadIn(line, Smoothness, t.smoothness)
    || (t.barriers.Some? && BadIn(line, Barrier, t.barriers.value))
  }

  ghost predicate SomethingGood(line: Line, t: Tags) {
    || (exists s | s in t.surface :: Covers(line, s) && GoodSurface(s.value))
    || (exists s | s in t.smoothness :: Covers(line, s) && GoodSmoothness(s.value))
  }

  lemma SomethingBadIff(line: Line, t: Tags)
    requires NonNegative(line.lengths)
    ensures SomeFail(line, t) <==> SomethingBad(line, t)
  {
    BadInIff(line, Steps, t.road);
    BadInIff(line, Surface, t.surface);
    BadInIff(line, Smoothness, t.smoothness);
    BadInIff(line, Barrier, SpansOf(t, Barrier));
  }

  lemma SomethingGoodIff(line: Line, t: Tags)
    requires NonNegative(line.lengths)
    ensures SomePass(line, t) <==> SomethingGood(line, t)
  {
    forall s | s in t.surface
      ensures Counts(line, s) && AssessSurface(s.value) == Pass <==> Covers(line, s) && GoodSurface(s.value)
    {
      CoversIff(line, s);
      SurfaceIff(s.value);
    }
    forall s | s in t.smoothness
      ensures Counts(line, s) && AssessSmoothness(s.value) == Pass <==> Covers(line, s) && GoodSmoothness(s.value)
    {
      CoversIff(line, s);
      SmoothnessIff(s.value);
    }
  }

  /**
    Refused exactly when a rejected value is written on a stretch of some length, or a gradient was found;
    accessible exactly when none is and an accepted surface or smoothness is. However they are spelled.
  */
  lemma VerdictIff(line: Line, t: Tags, inclines: seq<Finding>)
    requires IsLine(line) && Sum(line.lengths) > 0.0
    ensures Assessed(line, t, inclines).verdict == Fail <==> SomethingBad(line, t) || inclines != []
    ensures Assessed(line, t, inclines).verdict == Pass <==>
              !SomethingBad(line, t) && inclines == [] && SomethingGood(line, t)
  {
    FailIff(line, t, inclines);
    PassIff(line, t, inclines);
    SomethingBadIff(line, t);
    SomethingGoodIff(line, t);
  }

  /** Where a finding is put: at the node, for a barrier, else at the first vertex of the span. */
  ghost predicate Located(line: Line, s: Span, f: Finding)
    requires line.points != [] && |line.lengths| < |line.points|
  {
    var v := if s.start < 0 then 0 else if s.start > |line.lengths| then |line.lengths| else s.start;
    && f.lat == (if s.pin.Some? then s.pin.value.lat else line.points[v].lat)
    && f.lon == (if s.pin.Some? then s.pin.value.lon else line.points[v].lon)
    && f.atM == (if s.atM.Some? then s.atM.value else Sum(line.lengths[..v]))
  }

  ghost predicate FoundIn(line: Line, kind: Kind, spans: seq<Span>, f: Finding)
    requires line.points != [] && |line.lengths| < |line.points|
  {
    f.kind == kind && exists s | s in spans :: BadSpan(line, kind, s) && Located(line, s, f)
  }

  lemma LocatedIff(line: Line, kind: Kind, s: Span, f: Finding)
    requires line.points != [] && |line.lengths| < |line.points|
    ensures f == FindingOf(line, kind, s) <==> f.kind == kind && Located(line, s, f)
  {
  }

  lemma {:induction false} FoundInIff(line: Line, kind: Kind, spans: seq<Span>, f: Finding)
    requires line.points != [] && |line.lengths| < |line.points| && NonNegative(line.lengths)
    ensures f in Findings(line, kind, CheckOf(kind), spans) <==> FoundIn(line, kind, spans, f)
    decreases |spans|
  {
    if spans != [] {
      var before, l := Init(spans), Last(spans);
      FoundInIff(line, kind, before, f);
      assert spans == before + [l];
      CoversIff(line, l);
      BadIff(kind, l.value);
      LocatedIff(line, kind, l, f);
      assert BadSpan(line, kind, l) <==> Counts(line, l) && CheckOf(kind)(l.value) == Fail;
      FoundInSnoc(line, kind, before, l, f);
    }
  }

  lemma FoundInSnoc(line: Line, kind: Kind, before: seq<Span>, l: Span, f: Finding)
    requires line.points != [] && |line.lengths| < |line.points|
    ensures FoundIn(line, kind, before + [l], f) <==>
              FoundIn(line, kind, before, f) || (BadSpan(line, kind, l) && f.kind == kind && Located(line, l, f))
  {
    assert l in before + [l];
    if FoundIn(line, kind, before + [l], f) {
      var s :| s in before + [l] && BadSpan(line, kind, s) && Located(line, s, f);
      assert s in before || s == l;
    }
    if FoundIn(line, kind, before, f) {
      var s :| s in before && BadSpan(line, kind, s) && Located(line, s, f);
      assert s in before + [l];
    }
  }

  lemma InEither<T>(a: seq<T>, b: seq<T>, x: T)
    ensures x in a + b <==> x in a || x in b
  {
  }

  lemma InFive<T>(all: seq<T>, a: seq<T>, b: seq<T>, c: seq<T>, d: seq<T>, e: seq<T>, x: T)
    requires all == a + b + c + d + e
    ensures x in all <==> x in a || x in b || x in c || x in d || x in e
  {
    InEither(a + b + c + d, e, x);
    InEither(a + b + c, d, x);
    InEither(a + b, c, x);
    InEither(a, b, x);
  }

  /** The list of findings is the four lists and the gradients. */
  lemma ListedIff(line: Line, t: Tags, inclines: seq<Finding>, f: Finding)
    requires line.points != [] && |line.lengths| < |line.points|
    ensures f in AllFindings(line, t, inclines) <==>
              || f in Findings(line, Steps, CheckOf(Steps), t.road) || f in Findings(line, Surface, CheckOf(Surface), t.surface)
              || f in Findings(line, Smoothness, CheckOf(Smoothness), t.smoothness)
              || f in Findings(line, Barrier, CheckOf(Barrier), SpansOf(t, Barrier)) || f in inclines
  {
    InFive(AllFindings(line, t, inclines), Findings(line, Steps, CheckOf(Steps), t.road),
           Findings(line, Surface, CheckOf(Surface), t.surface), Findings(line, Smoothness, CheckOf(Smoothness), t.smoothness),
           Findings(line, Barrier, CheckOf(Barrier), SpansOf(t, Barrier)), inclines, f);
  }

  /** The report has a finding exactly for each rejected value on a stretch of some length, and the gradients. */
  lemma FindingsIff(line: Line, t: Tags, inclines: seq<Finding>, f: Finding)
    requires IsLine(line) && Sum(line.lengths) > 0.0 && |line.points| >= 2
    ensures f in Assessed(line, t, inclines).findings <==>
              || f in inclines
              || FoundIn(line, Steps, t.road, f) || FoundIn(line, Surface, t.surface, f)
              || FoundIn(line, Smoothness, t.smoothness, f)
              || (t.barriers.Some? && FoundIn(line, Barrier, t.barriers.value, f))
  {
    ListedIff(line, t, inclines, f);
    FoundInIff(line, Steps, t.road, f);
    FoundInIff(line, Surface, t.surface, f);
    FoundInIff(line, Smoothness, t.smoothness, f);
    FoundInIff(line, Barrier, SpansOf(t, Barrier), f);
  }

  // ---------------------------------------------------------------------------------------------
  // Shares
  // ---------------------------------------------------------------------------------------------

  /** The length of the spans whose value `says`. */
  ghost function LengthBy(line: Line, spans: seq<Span>, says: Tag -> bool): real
    decreases |spans|
  {
    if spans == [] then 0.0
    else LengthBy(line, Init(spans), says)
         + (if says(Last(spans).value) then SpanLength(line.lengths, Last(spans).start, Last(spans).end) else 0.0)
  }

  lemma {:induction false} LengthOfVerdict(line: Line, check: Check, spans: seq<Span>, v: Verdict, says: Tag -> bool)
    requires NonNegative(line.lengths)
    requires forall s | s in spans :: says(s.value) <==> check(s.value) == v
    ensures LengthWith(Weights(line, check, spans), v) == LengthBy(line, spans, says)
    decreases |spans|
  {
    if spans != [] {
      var before, l := Init(spans), Last(spans);
      assert spans == before + [l];
      LengthOfVerdict(line, check, before, v, says);
      LengthWithLast(line, check, before, l, v);
      assert spans[|spans| - 1] in spans;
    }
  }

  lemma LengthWithLast(line: Line, check: Check, before: seq<Span>, l: Span, v: Verdict)
    requires NonNegative(line.lengths)
    ensures LengthWith(Weights(line, check, before + [l]), v)
         == LengthWith(Weights(line, check, before), v) + (if check(l.value) == v then LengthOf(line, l) else 0.0)
  {
    var ws := Weights(line, check, before);
    assert Init(before + [l]) == before;
    if Counts(line, l) {
      assert Init(ws + [Weighted(LengthOf(line, l), check(l.value))]) == ws;
    } else {
      assert ws + [] == ws;
    }
  }

  lemma {:induction false} LengthWithAppend(a: seq<Weighted>, b: seq<Weighted>, v: Verdict)
    ensures LengthWith(a + b, v) == LengthWith(a, v) + LengthWith(b, v)
    decreases |b|
  {
    if b == [] {
      assert a + b == a;
    } else {
      assert Init(a + b) == a + Init(b);
      LengthWithAppend(a, Init(b), v);
    }
  }

  lemma {:induction false} DefiniteIsBoth(ws: seq<Weighted>)
    ensures Definite(ws) == LengthWith(ws, Pass) + LengthWith(ws, Fail)
    decreases |ws|
  {
    if ws != [] { DefiniteIsBoth(Init(ws)); }
  }

  /** How long the accepted and the rejected surface and smoothness values reach. */
  ghost function GoodLength(line: Line, t: Tags): real {
    LengthBy(line, t.surface, GoodSurface) + LengthBy(line, t.smoothness, GoodSmoothness)
  }

  ghost function BadLength(line: Line, t: Tags): real {
    LengthBy(line, t.surface, BadSurface) + LengthBy(line, t.smoothness, BadSmoothness)
  }

  lemma LengthsOf(line: Line, t: Tags)
    requires NonNegative(line.lengths)
    ensures LengthWith(OnSurface(line, t) + OnSmoothness(line, t), Pass) == GoodLength(line, t)
    ensures LengthWith(OnSurface(line, t) + OnSmoothness(line, t), Fail) == BadLength(line, t)
    ensures Definite(OnSurface(line, t)) + Definite(OnSmoothness(line, t)) == GoodLength(line, t) + BadLength(line, t)
  {
    forall v: Tag ensures AssessSurface(v) == Pass <==> GoodSurface(v) ensures AssessSurface(v) == Fail <==> BadSurface(v) {
      SurfaceIff(v);
    }
    forall v: Tag
      ensures AssessSmoothness(v) == Pass <==> GoodSmoothness(v) ensures AssessSmoothness(v) == Fail <==> BadSmoothness(v)
    {
      SmoothnessIff(v);
    }
    LengthOfVerdict(line, AssessSurface, t.surface, Pass, GoodSurface);
    LengthOfVerdict(line, AssessSurface, t.surface, Fail, BadSurface);
    LengthOfVerdict(line, AssessSmoothness, t.smoothness, Pass, GoodSmoothness);
    LengthOfVerdict(line, AssessSmoothness, t.smoothness, Fail, BadSmoothness);
    LengthWithAppend(OnSurface(line, t), OnSmoothness(line, t), Pass);
    LengthWithAppend(OnSurface(line, t), OnSmoothness(line, t), Fail);
    DefiniteIsBoth(OnSurface(line, t));
    DefiniteIsBoth(OnSmoothness(line, t));
  }

  ghost predicate CoversSome(line: Line, spans: seq<Span>) {
    exists s | s in spans :: Covers(line, s)
  }

  lemma {:induction false} WeighsIff(line: Line, check: Check, spans: seq<Span>)
    requires NonNegative(line.lengths)
    ensures Weights(line, check, spans) != [] <==> CoversSome(line, spans)
    decreases |spans|
  {
    if spans != [] {
      var before, l := Init(spans), Last(spans);
      WeighsIff(line, check, before);
      assert spans == before + [l];
      CoversIff(line, l);
    }
  }

  /** Both lists cover some of the route, and its length counts twice. */
  ghost function Whole(line: Line, t: Tags): real {
    (if CoversSome(line, t.surface) && CoversSome(line, t.smoothness) then 2.0 else 1.0) * Sum(line.lengths)
  }

  lemma ShareOf(line: Line, t: Tags, part: real, total: real)
    requires NonNegative(line.lengths) && total == Sum(line.lengths) > 0.0
    ensures Share(part, total, BothSay(line, t)) == Min(1.0, part / Whole(line, t))
  {
    WeighsIff(line, AssessSurface, t.surface);
    WeighsIff(line, AssessSmoothness, t.smoothness);
  }

  /** The share of the route with a known value: accepted and rejected ones, and no others. */
  lemma CoverageIs(line: Line, t: Tags, inclines: seq<Finding>)
    requires IsLine(line) && Sum(line.lengths) > 0.0 && |line.points| >= 2
    ensures Assessed(line, t, inclines).coverage == Min(1.0, (GoodLength(line, t) + BadLength(line, t)) / Whole(line, t))
  {
    KnownShare(line, t);
  }

  lemma KnownShare(line: Line, t: Tags)
    requires NonNegative(line.lengths) && Sum(line.lengths) > 0.0
    ensures Coverage(line, t) == Min(1.0, (GoodLength(line, t) + BadLength(line, t)) / Whole(line, t))
  {
    LengthsOf(line, t);
    ShareOf(line, t, GoodLength(line, t) + BadLength(line, t), Sum(line.lengths));
  }

  lemma PassedIs(line: Line, t: Tags, inclines: seq<Finding>)
    requires IsLine(line) && Sum(line.lengths) > 0.0 && |line.points| >= 2
    ensures Assessed(line, t, inclines).passed == Min(1.0, GoodLength(line, t) / Whole(line, t))
  {
    LengthsOf(line, t);
    ShareOf(line, t, GoodLength(line, t), Sum(line.lengths));
  }

  lemma FailedIs(line: Line, t: Tags, inclines: seq<Finding>)
    requires IsLine(line) && Sum(line.lengths) > 0.0 && |line.points| >= 2
    ensures Assessed(line, t, inclines).failed == Min(1.0, BadLength(line, t) / Whole(line, t))
  {
    LengthsOf(line, t);
    ShareOf(line, t, BadLength(line, t), Sum(line.lengths));
  }

  /** With no ground covered nothing is said; whether anybody looked for barriers is said in any case. */
  lemma NothingToAssess(line: Line, t: Tags, inclines: seq<Finding>)
    requires IsLine(line)
    ensures Assessed(line, t, inclines).barriersChecked <==> t.barriers.Some?
    ensures Sum(line.lengths) <= 0.0 || |line.points| < 2 ==>
              var r := Assessed(line, t, inclines);
              r.verdict == Unknown && r.findings == [] && r.coverage == 0.0 && r.passed == 0.0 && r.failed == 0.0
  {
  }
}
