/**
 * `scrub` in backend/logging_setup.py over a string: values of sensitive query parameters first,
 * then coordinates. Here the first pass, which alone is complete, stable and keeps everything else.
 *
 * Word characters, stop characters, case folding and the names are parameters of the rules.
 */
module Scrub {
  import opened Prelude
  import opened CoordinateScrub

  /** `same(c, k)`: the character `c` of a text matches the letter `k` of a name, case aside. */
  datatype Rules = Rules(digit: Test, word: Test, stop: Test, same: (char, char) -> bool, names: seq<string>)

  /** `c` can stand somewhere in a name. */
  ghost predicate InName(r: Rules, c: char) {
    exists name, i :: name in r.names && 0 <= i < |name| && r.same(c, name[i])
  }

  /** What the two patterns rely on: digits and name letters are word characters, the signs and stops are not. */
  ghost predicate Proper(r: Rules) {
    && DigitTest(r.digit)
    && (forall c :: r.digit(c) ==> r.word(c))
    && (forall c :: InName(r, c) ==> r.word(c) && !r.stop(c) && !r.digit(c))
    && !r.word('<') && !r.word('>') && !r.word('=') && r.stop('<') && r.stop('>')
    && !InName(r, '-') && !InName(r, '.') && !r.digit('=')
    && (forall i | 0 < i < |MARK| - 1 :: r.word(MARK[i]))
    && (forall name | name in r.names :: name != "")
  }

  // ---------- A sensitive parameter ----------

  predicate Reads(r: Rules, s: string, name: string) {
    && |s| > |name| + 1 && s[|name|] == '=' && !r.stop(s[|name| + 1])
    && forall i | 0 <= i < |name| :: r.same(s[i], name[i])
  }

  /** The length of the first listed name that `s` starts with, when a sign and a value follow it. */
  function NamedBy(r: Rules, s: string, names: seq<string>): (n: Option<nat>)
    ensures n.Some? ==> n.value + 1 < |s| && s[n.value] == '=' && !r.stop(s[n.value + 1])
  {
    if names == [] then None
    else if Reads(r, s, names[0]) then Some(|names[0]|)
    else NamedBy(r, s, names[1..])
  }

  function Named(r: Rules, s: string): Option<nat> {
    NamedBy(r, s, r.names)
  }

  lemma {:induction false} NamedByReads(r: Rules, s: string, names: seq<string>) returns (name: string)
    requires NamedBy(r, s, names).Some?
    ensures name in names && Reads(r, s, name) && NamedBy(r, s, names).value == |name|
  {
    if Reads(r, s, names[0]) { name := names[0]; } else { name := NamedByReads(r, s, names[1..]); }
  }

  lemma {:induction false} ReadsNamedBy(r: Rules, s: string, names: seq<string>, name: string)
    requires name in names && Reads(r, s, name)
    ensures NamedBy(r, s, names).Some?
  {
    if !Reads(r, s, names[0]) { ReadsNamedBy(r, s, names[1..], name); }
  }

  lemma NamedReads(r: Rules, s: string)
    requires Named(r, s).Some?
    ensures forall i | 0 <= i < Named(r, s).value :: InName(r, s[i])
    ensures Proper(r) ==> Named(r, s).value > 0
  {
    var name := NamedByReads(r, s, r.names);
    assert forall i | 0 <= i < |name| :: r.same(s[i], name[i]);
  }

  /** What is read depends on the name, the sign and one character of the value only. */
  lemma NamedIsLocal(r: Rules, s: string, t: string)
    requires Proper(r) && Named(r, s).Some?
    requires SameUpTo(s, t, Named(r, s).value + 2)
    ensures Named(r, t).Some?
  {
    var name := NamedByReads(r, s, r.names);
    ReadsNamedBy(r, t, r.names, name);
  }

  /** No name is read across a character that can be in none of them. */
  lemma NoNameAcross(r: Rules, s: string, n: nat)
    requires Proper(r) && n < |s| && !InName(r, s[n])
    requires forall i | 0 <= i < n :: s[i] != '='
    requires s[n] == '=' ==> n + 1 == |s| || r.stop(s[n + 1])
    ensures Named(r, s).None?
  {
    if Named(r, s).Some? { NamedReads(r, s); }
  }

  // ---------- The pass over parameters ----------

  function ValueRun(r: Rules, s: string): (n: nat)
    ensures n <= |s| && (n < |s| ==> r.stop(s[n]))
    ensures s != "" && !r.stop(s[0]) ==> n > 0
  {
    if s == "" || r.stop(s[0]) then 0 else 1 + ValueRun(r, s[1..])
  }

  lemma {:induction false} ValueHasNoStop(r: Rules, s: string)
    ensures forall i | 0 <= i < ValueRun(r, s) :: !r.stop(s[i])
  {
    if s != "" && !r.stop(s[0]) {
      ValueHasNoStop(r, s[1..]);
      forall i | 0 <= i < ValueRun(r, s) ensures !r.stop(s[i]) {
        assert i > 0 ==> s[i] == s[1..][i - 1];
      }
    }
  }

  /** Where the value after a name of length `n` ends. */
  function ValueEnd(r: Rules, s: string, n: nat): (end: nat)
    requires n + 1 < |s| && !r.stop(s[n + 1])
    ensures n + 1 < end <= |s| && (end < |s| ==> r.stop(s[end]))
  {
    n + 1 + ValueRun(r, s[n + 1..])
  }

  /** `prev` says whether a word character stands just before `s`: a name starts only at a boundary. */
  function Found(r: Rules, s: string, prev: bool): (n: Option<nat>)
    ensures n.Some? ==> !prev && n.value + 1 < |s| && !r.stop(s[n.value + 1])
  {
    if prev then None else Named(r, s)
  }

  /** The first `n` characters of `s`, and the mark in place of what came between them and `rest`. */
  function Marked(s: string, n: nat, rest: string): string
    requires n <= |s|
  {
    s[..n] + (MARK + rest)
  }

  function Hide(r: Rules, s: string, prev: bool): string
    decreases |s|, 1
  {
    if s == "" then ""
    else if Found(r, s, prev).Some? then HideFrom(r, s, Found(r, s, prev).value)
    else [s[0]] + Hide(r, s[1..], r.word(s[0]))
  }

  function HideFrom(r: Rules, s: string, n: nat): string
    requires n + 1 < |s| && !r.stop(s[n + 1])
    decreases |s|, 0
  {
    var end := ValueEnd(r, s, n);
    Marked(s, n + 1, Hide(r, s[end..], r.word(s[end - 1])))
  }

  lemma {:induction false} HideFound(r: Rules, s: string, prev: bool, n: nat, end: nat)
    requires Found(r, s, prev) == Some(n) && end == ValueEnd(r, s, n)
    ensures Hide(r, s, prev) == Marked(s, n + 1, Hide(r, s[end..], r.word(s[end - 1])))
  {
  }

  lemma HideNotFound(r: Rules, s: string, prev: bool)
    requires s != "" && Found(r, s, prev).None?
    ensures Hide(r, s, prev) == [s[0]] + Hide(r, s[1..], r.word(s[0]))
  {
  }

  function Scrubbed(r: Rules, s: string): string {
    Redact(r.digit, Hide(r, s, false))
  }

  /** Somewhere in `s` a sensitive parameter can be read, value and all. */
  predicate Leaks(r: Rules, s: string, prev: bool)
    decreases |s|
  {
    s != "" && (Found(r, s, prev).Some? || Leaks(r, s[1..], r.word(s[0])))
  }

  /** At `i`, behind no word character, a listed name, a sign and a value. */
  predicate ParameterAt(r: Rules, s: string, prev: bool, i: nat, name: string) {
    && i + |name| + 1 < |s| && !(if i == 0 then prev else r.word(s[i - 1]))
    && Spelled(r, s[i..i + |name|], name) && s[i + |name|] == '=' && !r.stop(s[i + |name| + 1])
  }

  predicate Spelled(r: Rules, text: string, name: string) {
    |text| == |name| && forall k | 0 <= k < |name| :: r.same(text[k], name[k])
  }

  lemma ParameterHere(r: Rules, s: string, prev: bool)
    ensures Found(r, s, prev).Some? <==> exists name | name in r.names :: ParameterAt(r, s, prev, 0, name)
  {
    if Found(r, s, prev).Some? {
      var name := NamedByReads(r, s, r.names);
      assert ParameterAt(r, s, prev, 0, name);
    }
    if name :| name in r.names && ParameterAt(r, s, prev, 0, name) {
      ReadsNamedBy(r, s, r.names, name);
    }
  }

  lemma ParameterLater(r: Rules, s: string, prev: bool, i: nat, name: string)
    requires s != "" && i > 0
    ensures ParameterAt(r, s, prev, i, name) <==> ParameterAt(r, s[1..], r.word(s[0]), i - 1, name)
  {
    if i + |name| + 1 < |s| {
      assert s[i..i + |name|] == s[1..][i - 1..i - 1 + |name|];
      assert s[i + |name|] == s[1..][i - 1 + |name|] && s[i + |name| + 1] == s[1..][i + |name|];
      assert i > 1 ==> s[i - 1] == s[1..][i - 2];
    }
  }

  /** What leaks is exactly that: a listed name where a word may begin, its sign and some value. */
  lemma {:induction false} LeaksIff(r: Rules, s: string, prev: bool)
    ensures Leaks(r, s, prev) <==> exists i: nat, name :: name in r.names && ParameterAt(r, s, prev, i, name)
    decreases |s|
  {
    if s != "" {
      LeaksIff(r, s[1..], r.word(s[0]));
      ParameterHere(r, s, prev);
      forall i: nat, name | i > 0
        ensures ParameterAt(r, s, prev, i, name) <==> ParameterAt(r, s[1..], r.word(s[0]), i - 1, name)
      {
        ParameterLater(r, s, prev, i, name);
      }
      if i: nat, name :| name in r.names && ParameterAt(r, s[1..], r.word(s[0]), i, name) {
        assert ParameterAt(r, s, prev, i + 1, name);
      }
    }
  }

  // ---------- Walking over text that reads as no name ----------

  function After(r: Rules, front: string, prev: bool): bool {
    if front == "" then prev else r.word(Last(front))
  }

  lemma StartsInName(r: Rules, s: string)
    requires Proper(r) && s != "" && !InName(r, s[0])
    ensures Named(r, s).None?
  {
    if Named(r, s).Some? { NamedReads(r, s); }
  }

  lemma {:induction false} SkipNonStarters(r: Rules, front: string, rest: string, prev: bool)
    requires Proper(r) && forall i | 0 <= i < |front| :: !InName(r, front[i])
    ensures Leaks(r, front + rest, prev) == Leaks(r, rest, After(r, front, prev))
    decreases |front|
  {
    if front == "" {
      assert front + rest == rest;
    } else {
      StartsInName(r, front + rest);
      assert (front + rest)[1..] == front[1..] + rest;
      SkipNonStarters(r, front[1..], rest, r.word(front[0]));
    }
  }

  lemma {:induction false} SkipWords(r: Rules, front: string, rest: string)
    requires All(r.word, front)
    ensures Leaks(r, front + rest, true) == Leaks(r, rest, true)
    decreases |front|
  {
    if front == "" {
      assert front + rest == rest;
    } else {
      assert (front + rest)[1..] == front[1..] + rest;
      SkipWords(r, front[1..], rest);
    }
  }

  lemma NotInName(r: Rules, c: char)
    requires Proper(r) && (r.stop(c) || !r.word(c))
    ensures !InName(r, c)
  {
  }

  /** A run of letters that is no name, and the character that ends it. */
  lemma SkipRun(r: Rules, run: string, c: char, rest: string)
    requires Proper(r) && run != "" && All(r.word, run) && !r.word(c)
    requires Named(r, run + ([c] + rest)).None?
    ensures Leaks(r, run + ([c] + rest), false) == Leaks(r, rest, false)
  {
    var s := run + ([c] + rest);
    assert s[1..] == run[1..] + ([c] + rest);
    SkipWords(r, run[1..], [c] + rest);
    assert ([c] + rest)[1..] == rest;
  }

  /** The mark reads as no name, and leaves a word boundary behind it. */
  lemma {:induction false} SkipMark(r: Rules, rest: string, prev: bool)
    requires Proper(r)
    ensures Leaks(r, MARK + rest, prev) == Leaks(r, rest, false)
  {
    var run, c := MARK[1..9], '>';
    NotInName(r, '<');
    NotInName(r, c);
    assert MARK + rest == "<" + (run + ([c] + rest));
    SkipNonStarters(r, "<", run + ([c] + rest), prev);
    assert forall i | 0 <= i < 8 :: run[i] == MARK[i + 1] != '=';
    NoNameAcross(r, run + ([c] + rest), 8);
    SkipRun(r, run, c, rest);
  }

  lemma {:induction false} LeakCarries(r: Rules, s: string, prev: bool, n: nat)
    requires 0 < n <= |s| && !Leaks(r, s, prev)
    ensures !Leaks(r, s[n..], r.word(s[n - 1]))
    decreases n
  {
    if n > 1 {
      LeakCarries(r, s[1..], r.word(s[0]), n - 1);
      assert s[1..][n - 1..] == s[n..];
    }
  }

  // ---------- The first pass alone ----------

  lemma {:induction false} HideKeepsUnmarked(r: Rules, s: string, prev: bool, m: nat)
    requires UnmarkedUpTo(Hide(r, s, prev), m)
    ensures SameUpTo(s, Hide(r, s, prev), m)
    decreases |s|
  {
    if m > 0 && s != "" {
      var found := Found(r, s, prev);
      if found.Some? {
        var end := ValueEnd(r, s, found.value);
        HideFound(r, s, prev, found.value, end);
        MarkedThere(s, found.value + 1, Hide(r, s[end..], r.word(s[end - 1])), m);
      } else {
        var rest := Hide(r, s[1..], r.word(s[0]));
        HideNotFound(r, s, prev);
        UnmarkedAfter(s[0], rest, m - 1);
        HideKeepsUnmarked(r, s[1..], r.word(s[0]), m - 1);
        SameAfter(s[0], s[1..], rest, m - 1);
        assert s == [s[0]] + s[1..];
      }
    }
  }

  lemma MarkedThere(s: string, n: nat, rest: string, m: nat)
    requires n <= |s| && UnmarkedUpTo(s[..n] + (MARK + rest), m)
    ensures SameUpTo(s, s[..n] + (MARK + rest), m)
  {
    assert (s[..n] + (MARK + rest))[n] == '<';
  }

  /** As far as a name is read, there is no mark. */
  lemma NamedIsUnmarked(r: Rules, s: string)
    requires Proper(r) && Named(r, s).Some?
    ensures UnmarkedUpTo(s, Named(r, s).value + 2)
  {
    NamedReads(r, s);
    NotInName(r, '<');
  }

  lemma StopsReadNoName(r: Rules, s: string, prev: bool)
    requires Proper(r) && (s == "" || r.stop(s[0]))
    ensures Leaks(r, s, prev) == Leaks(r, s, false)
  {
    if s != "" {
      NotInName(r, s[0]);
      StartsInName(r, s);
    }
  }

  /** One hidden parameter reads as nothing. */
  lemma HiddenReadsAsNothing(r: Rules, s: string, rest: string)
    requires Proper(r) && Named(r, s).Some?
    ensures Leaks(r, s[..Named(r, s).value + 1] + (MARK + rest), false) == Leaks(r, rest, false)
  {
    var n := Named(r, s).value;
    NamedReads(r, s);
    NotInName(r, '=');
    var run, tail := s[..n], MARK + rest;
    assert s[..n + 1] + tail == run + (['='] + tail);
    assert (run + (['='] + tail))[n + 1] == '<';
    NoNameAcross(r, run + (['='] + tail), n);
    SkipRun(r, run, '=', tail);
    SkipMark(r, rest, false);
  }

  /** Complete: after the first pass no sensitive parameter can be read. */
  lemma {:induction false} HideLeaksNothing(r: Rules, s: string, prev: bool)
    requires Proper(r)
    ensures !Leaks(r, Hide(r, s, prev), prev)
    decreases |s|
  {
    if s != "" {
      match Found(r, s, prev) {
        case Some(n) =>
          var end := ValueEnd(r, s, n);
          HideLeaksNothing(r, s[end..], r.word(s[end - 1]));
          FoundLeaksNothing(r, s, prev, n, end);
        case None =>
          HideLeaksNothing(r, s[1..], r.word(s[0]));
          NotFoundAfter(r, s, prev);
      }
    }
  }

  lemma FoundLeaksNothing(r: Rules, s: string, prev: bool, n: nat, end: nat)
    requires Proper(r) && Found(r, s, prev) == Some(n) && end == ValueEnd(r, s, n)
    requires !Leaks(r, Hide(r, s[end..], r.word(s[end - 1])), r.word(s[end - 1]))
    ensures !Leaks(r, Hide(r, s, prev), prev)
  {
    NothingAfterHidden(r, s, n, s[end..], r.word(s[end - 1]));
    HideFound(r, s, prev, n, end);
  }

  lemma NothingAfterHidden(r: Rules, s: string, n: nat, tail: string, w: bool)
    requires Proper(r) && Named(r, s) == Some(n) && (tail == "" || r.stop(tail[0]))
    requires !Leaks(r, Hide(r, tail, w), w)
    ensures !Leaks(r, s[..n + 1] + (MARK + Hide(r, tail, w)), false)
  {
    HiddenReadsAsNothing(r, s, Hide(r, tail, w));
    HideStartsAlike(r, tail, w);
    StopsReadNoName(r, Hide(r, tail, w), w);
  }

  lemma NotFoundAfter(r: Rules, s: string, prev: bool)
    requires Proper(r) && s != "" && Found(r, s, prev).None?
    requires !Leaks(r, Hide(r, s[1..], r.word(s[0])), r.word(s[0]))
    ensures !Leaks(r, Hide(r, s, prev), prev)
  {
    var out, rest := Hide(r, s, prev), Hide(r, s[1..], r.word(s[0]));
    assert out == [s[0]] + rest && out[1..] == rest;
    if Named(r, out).Some? {
      NamedIsUnmarked(r, out);
      HideKeepsUnmarked(r, s, prev, Named(r, out).value + 2);
      NamedIsLocal(r, out, s);
    }
  }

  lemma HideStartsAlike(r: Rules, s: string, prev: bool)
    requires Proper(r) && (s == "" || r.stop(s[0]))
    ensures Hide(r, s, prev) == "" || r.stop(Hide(r, s, prev)[0])
  {
    if s != "" {
      NotInName(r, s[0]);
      StartsInName(r, s);
    }
  }

  lemma {:induction false} HideKeepsSafeText(r: Rules, s: string, prev: bool)
    requires !Leaks(r, s, prev)
    ensures Hide(r, s, prev) == s
    decreases |s|
  {
    if s != "" { HideKeepsSafeText(r, s[1..], r.word(s[0])); }
  }

  lemma HideIsStable(r: Rules, s: string)
    requires Proper(r)
    ensures Hide(r, Hide(r, s, false), false) == Hide(r, s, false)
  {
    HideLeaksNothing(r, s, false);
    HideKeepsSafeText(r, Hide(r, s, false), false);
  }

  // ---------- What the first pass keeps ----------

  /** The pieces of one pass: a name with its sign is kept, and the value after it is cut. */
  function HidePieces(r: Rules, s: string, prev: bool): seq<Piece>
    decreases |s|
  {
    if s == "" then []
    else match Found(r, s, prev)
      case Some(n) =>
        var end := ValueEnd(r, s, n);
        [Piece(s[..n + 1], false), Piece(s[n + 1..end], true)] + HidePieces(r, s[end..], r.word(s[end - 1]))
      case None => [Piece([s[0]], false)] + HidePieces(r, s[1..], r.word(s[0]))
  }

  lemma TwoMorePieces(x: Piece, y: Piece, p: seq<Piece>)
    ensures Original([x, y] + p) == x.text + (y.text + Original(p))
    ensures Shown([x, y] + p) == (if x.cut then MARK else x.text) + ((if y.cut then MARK else y.text) + Shown(p))
  {
    assert ([x, y] + p)[1..] == [y] + p && ([y] + p)[1..] == p;
  }

  lemma OnePieceMore(x: Piece, p: seq<Piece>)
    ensures Original([x] + p) == x.text + Original(p)
    ensures Shown([x] + p) == (if x.cut then MARK else x.text) + Shown(p)
  {
    assert ([x] + p)[1..] == p;
  }

  lemma Rejoined(s: string, a: nat, b: nat)
    requires a <= b <= |s|
    ensures s[..a] + (s[a..b] + s[b..]) == s
  {
  }

  lemma {:induction false} HidePiecesCoverInput(r: Rules, s: string, prev: bool)
    ensures Original(HidePieces(r, s, prev)) == s
    decreases |s|
  {
    if s != "" {
      match Found(r, s, prev) {
        case Some(n) =>
          var end := ValueEnd(r, s, n);
          HidePiecesCoverInput(r, s[end..], r.word(s[end - 1]));
          TwoMorePieces(Piece(s[..n + 1], false), Piece(s[n + 1..end], true), HidePieces(r, s[end..], r.word(s[end - 1])));
          Rejoined(s, n + 1, end);
        case None =>
          HidePiecesCoverInput(r, s[1..], r.word(s[0]));
          OnePieceMore(Piece([s[0]], false), HidePieces(r, s[1..], r.word(s[0])));
      }
    }
  }

  lemma {:induction false} HidePiecesShowOutput(r: Rules, s: string, prev: bool)
    ensures Shown(HidePieces(r, s, prev)) == Hide(r, s, prev)
    decreases |s|
  {
    if s != "" {
      match Found(r, s, prev) {
        case Some(n) =>
          var end := ValueEnd(r, s, n);
          HidePiecesShowOutput(r, s[end..], r.word(s[end - 1]));
          TwoMorePieces(Piece(s[..n + 1], false), Piece(s[n + 1..end], true), HidePieces(r, s[end..], r.word(s[end - 1])));
          HideFound(r, s, prev, n, end);
        case None =>
          HidePiecesShowOutput(r, s[1..], r.word(s[0]));
          OnePieceMore(Piece([s[0]], false), HidePieces(r, s[1..], r.word(s[0])));
          HideNotFound(r, s, prev);
      }
    }
  }

  /** A listed name and its sign. */
  ghost predicate NameAndSign(r: Rules, text: string) {
    exists name :: name in r.names && |text| == |name| + 1 && text[|name|] == '='
                && forall i | 0 <= i < |name| :: r.same(text[i], name[i])
  }

  /** A value: some text with no stop in it. */
  predicate IsValue(r: Rules, text: string) {
    text != "" && forall i | 0 <= i < |text| :: !r.stop(text[i])
  }

  /** Whatever is cut is a value, and the piece before it is the name it belongs to. */
  ghost predicate OnlyValuesCut(r: Rules, p: seq<Piece>) {
    forall i | 0 <= i < |p| && p[i].cut :: IsValue(r, p[i].text) && i > 0 && !p[i - 1].cut && NameAndSign(r, p[i - 1].text)
  }

  lemma CutOfParameter(r: Rules, s: string, prev: bool, n: nat, end: nat)
    requires Found(r, s, prev) == Some(n) && end == ValueEnd(r, s, n)
    ensures NameAndSign(r, s[..n + 1]) && IsValue(r, s[n + 1..end])
  {
    NameOfParameter(r, s, n);
    ValueOfParameter(r, s, n, end);
  }

  lemma NameOfParameter(r: Rules, s: string, n: nat)
    requires Named(r, s) == Some(n)
    ensures NameAndSign(r, s[..n + 1])
  {
    var name := NamedByReads(r, s, r.names);
    var text := s[..n + 1];
    assert text[n] == s[n];
    forall i | 0 <= i < n ensures r.same(text[i], name[i]) {
      assert text[i] == s[i];
    }
  }

  lemma ValueOfParameter(r: Rules, s: string, n: nat, end: nat)
    requires n + 1 < |s| && !r.stop(s[n + 1]) && end == ValueEnd(r, s, n)
    ensures IsValue(r, s[n + 1..end])
  {
    var rest, value := s[n + 1..], s[n + 1..end];
    ValueHasNoStop(r, rest);
    forall i | 0 <= i < |value| ensures !r.stop(value[i]) {
      assert value[i] == rest[i];
    }
  }

  lemma CutMore(r: Rules, front: seq<Piece>, p: seq<Piece>)
    requires OnlyValuesCut(r, front) && OnlyValuesCut(r, p)
    ensures OnlyValuesCut(r, front + p)
  {
    var all := front + p;
    forall i | 0 <= i < |all| && all[i].cut
      ensures IsValue(r, all[i].text) && i > 0 && !all[i - 1].cut && NameAndSign(r, all[i - 1].text)
    {
      if i >= |front| { assert all[i] == p[i - |front|] && (i > |front| ==> all[i - 1] == p[i - |front| - 1]); }
    }
  }

  lemma {:induction false} OnlyValuesAreCut(r: Rules, s: string, prev: bool)
    ensures OnlyValuesCut(r, HidePieces(r, s, prev))
    decreases |s|
  {
    if s != "" {
      match Found(r, s, prev) {
        case Some(n) =>
          var end := ValueEnd(r, s, n);
          OnlyValuesAreCut(r, s[end..], r.word(s[end - 1]));
          CutOneMore(r, s, prev, n, end, HidePieces(r, s[end..], r.word(s[end - 1])));
        case None =>
          OnlyValuesAreCut(r, s[1..], r.word(s[0]));
          CutMore(r, [Piece([s[0]], false)], HidePieces(r, s[1..], r.word(s[0])));
      }
    }
  }

  lemma CutOneMore(r: Rules, s: string, prev: bool, n: nat, end: nat, rest: seq<Piece>)
    requires Found(r, s, prev) == Some(n) && end == ValueEnd(r, s, n) && OnlyValuesCut(r, rest)
    ensures OnlyValuesCut(r, [Piece(s[..n + 1], false), Piece(s[n + 1..end], true)] + rest)
  {
    CutOfParameter(r, s, prev, n, end);
    CutMore(r, [Piece(s[..n + 1], false), Piece(s[n + 1..end], true)], rest);
  }

  /**
   * The output is the input cut into pieces, in order, with nothing replaced but values that directly
   * follow a listed name and its sign.
   */
  lemma HideKeepsTheRest(r: Rules, s: string, prev: bool)
    ensures exists p :: Original(p) == s && Shown(p) == Hide(r, s, prev) && OnlyValuesCut(r, p)
  {
    HidePiecesCoverInput(r, s, prev);
    HidePiecesShowOutput(r, s, prev);
    OnlyValuesAreCut(r, s, prev);
  }
}
