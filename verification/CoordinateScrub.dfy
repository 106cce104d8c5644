/**
 * Taking coordinates out of log lines: the `-?\d+\.\d{4,}` pass of `scrub` in backend/logging_setup.py.
 *
 * What counts as a digit is a parameter, so the digits of every script are covered.
 */
module CoordinateScrub {
  import opened Prelude

  type Test = char -> bool

  const MARK := "<redacted>"
  const FRACTION_DIGITS: nat := 4

  /** The signs of the pattern are not digits, and neither is anything in the mark. */
  ghost predicate DigitTest(digit: Test) {
    !digit('-') && !digit('.') && forall i | 0 <= i < |MARK| :: !digit(MARK[i])
  }

  predicate All(test: Test, s: string) {
    forall i | 0 <= i < |s| :: test(s[i])
  }

  // ---------- What the pattern matches ----------

  ghost predicate Parts(digit: Test, w: string, sign: string, whole: string, fraction: string) {
    && w == sign + whole + "." + fraction && (sign == "" || sign == "-")
    && |whole| > 0 && All(digit, whole)
    && |fraction| >= FRACTION_DIGITS && All(digit, fraction)
  }

  /** The whole of `w` is coordinate-shaped. */
  ghost predicate Shaped(digit: Test, w: string) {
    exists sign, whole, fraction :: Parts(digit, w, sign, whole, fraction)
  }

  function Run(digit: Test, s: string): (n: nat)
    ensures n <= |s|
  {
    if s == "" || !digit(s[0]) then 0 else 1 + Run(digit, s[1..])
  }

  lemma {:induction false} RunIsDigits(digit: Test, s: string)
    ensures All(digit, s[..Run(digit, s)])
    ensures Run(digit, s) < |s| ==> !digit(s[Run(digit, s)])
  {
    if s != "" && digit(s[0]) {
      RunIsDigits(digit, s[1..]);
      assert s[..Run(digit, s)] == [s[0]] + s[1..][..Run(digit, s[1..])];
    }
  }

  function SignOf(s: string): (n: nat)
    ensures n <= |s|
  {
    if s != "" && s[0] == '-' then 1 else 0
  }

  /** Past the point at `dot` and the digits behind it, if they are enough. */
  function Reach(dot: nat, fraction: nat): Option<nat> {
    if fraction < FRACTION_DIGITS then None else Some(dot + 1 + fraction)
  }

  /** How far the greedy match at the start of `s` reaches, if there is one. */
  function Match(digit: Test, s: string): (n: Option<nat>)
    ensures n.Some? ==> 0 < n.value <= |s|
  {
    var sign := SignOf(s);
    var whole := Run(digit, s[sign..]);
    var dot := sign + whole;
    if whole == 0 || dot == |s| || s[dot] != '.' then None
    else
      Reach(dot, Run(digit, s[dot + 1..]))
  }

  lemma {:induction false} RunOver(digit: Test, front: string, rest: string)
    requires All(digit, front)
    ensures Run(digit, front + rest) == |front| + Run(digit, rest)
  {
    if front == "" {
      assert front + rest == rest;
    } else {
      assert (front + rest)[1..] == front[1..] + rest;
      RunOver(digit, front[1..], rest);
    }
  }

  /** A number written out, and the text after its point. */
  function Written(sign: string, whole: string, after: string): (s: string)
    ensures |s| == |sign| + |whole| + 1 + |after|
  {
    sign + (whole + ("." + after))
  }

  lemma {:induction false} AfterThePoint(sign: string, whole: string, after: string)
    ensures var s := Written(sign, whole, after);
      s[|sign|..] == whole + ("." + after) && s[|sign| + |whole|] == '.' && s[|sign| + |whole| + 1..] == after
  {
  }

  lemma {:induction false} SignOfWritten(digit: Test, sign: string, whole: string, after: string)
    requires !digit('-') && (sign == "" || sign == "-") && |whole| > 0 && All(digit, whole)
    ensures SignOf(Written(sign, whole, after)) == |sign|
  {
    assert Written(sign, whole, after)[0] == if sign == "" then whole[0] else '-';
  }

  lemma {:induction false} WholeRun(digit: Test, whole: string, after: string)
    requires !digit('.') && All(digit, whole)
    ensures Run(digit, whole + ("." + after)) == |whole|
  {
    RunOver(digit, whole, "." + after);
  }

  lemma {:induction false} MatchByParts(digit: Test, s: string, sign: nat, whole: nat, rest: string, after: string)
    requires sign == SignOf(s) && rest == s[sign..] && whole == Run(digit, rest) && whole > 0
    requires sign + whole < |s| && s[sign + whole] == '.' && s[sign + whole + 1..] == after
    ensures Match(digit, s) == Reach(sign + whole, Run(digit, after))
  {
  }

  /** A text that starts with a number, by its parts. */
  ghost predicate Parsed(digit: Test, s: string, sign: nat, whole: nat, rest: string, after: string) {
    && sign == SignOf(s) && sign <= |s| && rest == s[sign..] && whole == Run(digit, rest)
    && sign + whole < |s| && s[sign + whole] == '.' && s[sign + whole + 1..] == after
  }

  lemma {:induction false} WrittenParses(digit: Test, sign: string, whole: string, after: string)
    requires DigitTest(digit) && (sign == "" || sign == "-") && |whole| > 0 && All(digit, whole)
    ensures Parsed(digit, Written(sign, whole, after), |sign|, |whole|, whole + ("." + after), after)
  {
    AfterThePoint(sign, whole, after);
    SignOfWritten(digit, sign, whole, after);
    WholeRun(digit, whole, after);
  }

  lemma {:induction false} MatchParsed(digit: Test, s: string, sign: nat, whole: nat, rest: string, after: string)
    requires Parsed(digit, s, sign, whole, rest, after) && whole > 0
    ensures Match(digit, s) == Reach(sign + whole, Run(digit, after))
  {
    MatchByParts(digit, s, sign, whole, rest, after);
  }

  /** A match, by its parts. */
  lemma {:induction false} MatchParses(digit: Test, s: string) returns (sign: nat, whole: nat, fraction: nat)
    requires Match(digit, s).Some?
    ensures sign <= |s| && sign + whole < |s| && whole > 0 && fraction >= FRACTION_DIGITS
    ensures Parsed(digit, s, sign, whole, s[sign..], s[sign + whole + 1..])
    ensures fraction == Run(digit, s[sign + whole + 1..]) && Match(digit, s) == Some(sign + whole + 1 + fraction)
  {
    sign := SignOf(s);
    whole := Run(digit, s[sign..]);
    fraction := Run(digit, s[sign + whole + 1..]);
  }

  lemma {:induction false} TailStart(s: string, a: nat, k: nat)
    requires a + k <= |s|
    ensures s[a..][..k] == s[a..a + k]
  {
  }

  lemma {:induction false} FourParts(s: string, a: nat, b: nat, end: nat)
    requires a <= b < end <= |s| && s[b] == '.'
    ensures s[..end] == s[..a] + s[a..b] + "." + s[b + 1..end]
  {
  }

  lemma {:induction false} SignIsPart(s: string)
    ensures s[..SignOf(s)] == "" || s[..SignOf(s)] == "-"
  {
  }

  lemma {:induction false} PartsAreShaped(digit: Test, w: string, sign: string, whole: string, fraction: string)
    requires Parts(digit, w, sign, whole, fraction)
    ensures Shaped(digit, w)
  {
  }

  lemma {:induction false} ParsedIsShaped(digit: Test, s: string, sign: nat, whole: nat, rest: string, after: string, fraction: nat)
    requires Parsed(digit, s, sign, whole, rest, after) && whole > 0
    requires fraction == Run(digit, after) >= FRACTION_DIGITS
    ensures sign + whole + 1 + fraction <= |s| && Shaped(digit, s[..sign + whole + 1 + fraction])
  {
    var dot := sign + whole;
    var end := dot + 1 + fraction;
    RunIsDigits(digit, rest);
    RunIsDigits(digit, after);
    TailStart(s, sign, whole);
    TailStart(s, dot + 1, fraction);
    FourParts(s, sign, dot, end);
    SignIsPart(s);
    PartsAreShaped(digit, s[..end], s[..sign], s[sign..dot], s[dot + 1..end]);
  }

  /** A match is coordinate-shaped, and ends in a digit. */
  lemma {:induction false} MatchIsShaped(digit: Test, s: string)
    requires Match(digit, s).Some?
    ensures Shaped(digit, s[..Match(digit, s).value]) && digit(s[Match(digit, s).value - 1])
  {
    var sign, whole, fraction := MatchParses(digit, s);
    var after := s[sign + whole + 1..];
    ParsedIsShaped(digit, s, sign, whole, s[sign..], after, fraction);
    RunIsDigits(digit, after);
    assert after[..fraction][fraction - 1] == after[fraction - 1];
  }

  /** And no start of `s` is coordinate-shaped beyond it, or at all when there is no match. */
  lemma MatchIsLongest(digit: Test, s: string, n: nat)
    requires DigitTest(digit) && n <= |s| && Shaped(digit, s[..n])
    ensures Match(digit, s).Some? && n <= Match(digit, s).value
  {
    var sign, whole, fraction :| Parts(digit, s[..n], sign, whole, fraction);
    var after := fraction + s[n..];
    ShapedStartParses(digit, s, n, sign, whole, fraction);
    MatchParsed(digit, s, |sign|, |whole|, whole + ("." + after), after);
    RunOver(digit, fraction, s[n..]);
  }

  lemma {:induction false} ShapedStartParses(digit: Test, s: string, n: nat, sign: string, whole: string, fraction: string)
    requires DigitTest(digit) && n <= |s| && Parts(digit, s[..n], sign, whole, fraction)
    ensures Parsed(digit, s, |sign|, |whole|, whole + ("." + (fraction + s[n..])), fraction + s[n..])
  {
    assert s == s[..n] + s[n..];
    assert s == Written(sign, whole, fraction + s[n..]);
    WrittenParses(digit, sign, whole, fraction + s[n..]);
  }

  // ---------- The pass ----------

  function Redact(digit: Test, s: string): string
    decreases |s|
  {
    if s == "" then ""
    else match Match(digit, s)
      case Some(n) => MARK + Redact(digit, s[n..])
      case None => [s[0]] + Redact(digit, s[1..])
  }

  ghost predicate SameUpTo(s: string, t: string, m: nat) {
    m <= |s| && m <= |t| && forall i | 0 <= i < m :: s[i] == t[i]
  }

  ghost predicate UnmarkedUpTo(s: string, m: nat) {
    m <= |s| && forall i | 0 <= i < m :: s[i] != '<'
  }

  lemma SameAfter(c: char, s: string, t: string, m: nat)
    requires SameUpTo(s, t, m)
    ensures SameUpTo([c] + s, [c] + t, m + 1)
  {
  }

  lemma UnmarkedAfter(c: char, s: string, m: nat)
    requires UnmarkedUpTo([c] + s, m + 1)
    ensures UnmarkedUpTo(s, m)
  {
    assert forall i | 0 <= i < m :: s[i] == ([c] + s)[i + 1];
  }

  lemma MarkedAtOnce(rest: string, m: nat)
    requires UnmarkedUpTo(MARK + rest, m)
    ensures m == 0
  {
    assert (MARK + rest)[0] == '<';
  }

  /** As far as the output shows no mark, it is the input. */
  lemma {:induction false} UnmarkedIsKept(digit: Test, s: string, m: nat)
    requires UnmarkedUpTo(Redact(digit, s), m)
    ensures SameUpTo(s, Redact(digit, s), m)
    decreases |s|
  {
    if m > 0 && s != "" {
      if Match(digit, s).Some? {
        MarkedAtOnce(Redact(digit, s[Match(digit, s).value..]), m);
      } else {
        var rest := Redact(digit, s[1..]);
        UnmarkedAfter(s[0], rest, m - 1);
        UnmarkedIsKept(digit, s[1..], m - 1);
        SameAfter(s[0], s[1..], rest, m - 1);
        assert s == [s[0]] + s[1..];
      }
    }
  }

  lemma ShapedHasNoMark(digit: Test, w: string)
    requires DigitTest(digit) && Shaped(digit, w)
    ensures '<' !in w && w != "" && (w[0] == '-' || digit(w[0]))
  {
    var sign, whole, fraction :| Parts(digit, w, sign, whole, fraction);
    assert !digit(MARK[0]);
    assert w[0] == if sign == "" then whole[0] else '-';
  }

  ghost predicate NoneAt(digit: Test, s: string, i: nat)
    requires i <= |s|
  {
    forall j | i <= j <= |s| :: !Shaped(digit, s[i..j])
  }

  lemma NoneAtStart(digit: Test, s: string)
    requires DigitTest(digit) && (s != "" ==> Match(digit, s).None?)
    ensures NoneAt(digit, Redact(digit, s), 0)
  {
    var out := Redact(digit, s);
    forall j | 0 <= j <= |out| ensures !Shaped(digit, out[0..j]) {
      assert out[0..j] == out[..j];
      if Shaped(digit, out[..j]) {
        ShapedHasNoMark(digit, out[..j]);
        assert forall i | 0 <= i < j :: out[i] == out[..j][i];
        UnmarkedIsKept(digit, s, j);
        assert s[..j] == out[..j];
        MatchIsLongest(digit, s, j);
      }
    }
  }

  lemma NoneInMark(digit: Test, rest: string, i: nat)
    requires DigitTest(digit) && i < |MARK|
    ensures NoneAt(digit, MARK + rest, i)
  {
    var s := MARK + rest;
    assert s[i] == MARK[i] && !digit(MARK[i]) && MARK[i] != '-';
    forall j | i <= j <= |s| ensures !Shaped(digit, s[i..j]) {
      if Shaped(digit, s[i..j]) { ShapedHasNoMark(digit, s[i..j]); }
    }
  }

  lemma NoneAfter(digit: Test, front: string, rest: string, i: nat)
    requires |front| <= i <= |front + rest| && NoneAt(digit, rest, i - |front|)
    ensures NoneAt(digit, front + rest, i)
  {
    forall j | i <= j <= |front + rest| ensures !Shaped(digit, (front + rest)[i..j]) {
      assert (front + rest)[i..j] == rest[i - |front|..j - |front|];
    }
  }

  /** Complete: nothing coordinate-shaped is left anywhere in the output, at a seam or elsewhere. */
  lemma {:induction false} NothingShapedIsLeft(digit: Test, s: string, i: nat)
    requires DigitTest(digit) && i <= |Redact(digit, s)|
    ensures NoneAt(digit, Redact(digit, s), i)
    decreases |s|
  {
    if s == "" || (i == 0 && Match(digit, s).None?) {
      NoneAtStart(digit, s);
    } else {
      var n := if Match(digit, s).Some? then Match(digit, s).value else 1;
      var front := if Match(digit, s).Some? then MARK else [s[0]];
      if i < |front| {
        NoneInMark(digit, Redact(digit, s[n..]), i);
      } else {
        NothingShapedIsLeft(digit, s[n..], i - |front|);
        NoneAfter(digit, front, Redact(digit, s[n..]), i);
      }
    }
  }

  lemma MatchShows(digit: Test, s: string)
    ensures Match(digit, s).Some? ==> !NoneAt(digit, s, 0)
  {
    if Match(digit, s).Some? {
      var n := Match(digit, s).value;
      MatchIsShaped(digit, s);
      assert s[0..n] == s[..n];
    }
  }

  /** Text with nothing coordinate-shaped in it is left alone. */
  lemma {:induction false} CleanIsKept(digit: Test, s: string)
    requires forall i | 0 <= i <= |s| :: NoneAt(digit, s, i)
    ensures Redact(digit, s) == s
    decreases |s|
  {
    if s != "" {
      assert NoneAt(digit, s, 0);
      MatchShows(digit, s);
      forall i | 0 <= i <= |s[1..]| ensures NoneAt(digit, s[1..], i) {
        assert NoneAt(digit, s, i + 1);
        assert forall j | i <= j <= |s[1..]| :: s[1..][i..j] == s[i + 1..j + 1];
      }
      CleanIsKept(digit, s[1..]);
    }
  }

  lemma RedactIsStable(digit: Test, s: string)
    requires DigitTest(digit)
    ensures Redact(digit, Redact(digit, s)) == Redact(digit, s)
  {
    forall i | 0 <= i <= |Redact(digit, s)| ensures NoneAt(digit, Redact(digit, s), i) {
      NothingShapedIsLeft(digit, s, i);
    }
    CleanIsKept(digit, Redact(digit, s));
  }

  // ---------- What is kept ----------

  /** A stretch of the input, and whether it was taken out. */
  datatype Piece = Piece(text: string, cut: bool)

  function Original(p: seq<Piece>): string {
    if p == [] then "" else p[0].text + Original(p[1..])
  }

  function Shown(p: seq<Piece>): string {
    if p == [] then "" else (if p[0].cut then MARK else p[0].text) + Shown(p[1..])
  }

  ghost predicate OnlyShapedCut(digit: Test, p: seq<Piece>) {
    forall i | 0 <= i < |p| && p[i].cut :: Shaped(digit, p[i].text)
  }

  /** The pieces of one pass over the input. */
  function Pieces(digit: Test, s: string): seq<Piece>
    decreases |s|
  {
    if s == "" then []
    else
      var n := Step(digit, s);
      [Piece(s[..n], Match(digit, s).Some?)] + Pieces(digit, s[n..])
  }

  /** How far the pass moves at once: past a match, or past one character. */
  function Step(digit: Test, s: string): (n: nat)
    requires s != ""
    ensures 0 < n <= |s|
  {
    match Match(digit, s)
    case Some(n) => n
    case None => 1
  }

  lemma Rejoin(s: string, n: nat, rest: string)
    requires n <= |s| && rest == s[n..]
    ensures s[..n] + rest == s
  {
  }

  lemma OneMorePiece(digit: Test, x: Piece, p: seq<Piece>)
    ensures Original([x] + p) == x.text + Original(p)
    ensures Shown([x] + p) == (if x.cut then MARK else x.text) + Shown(p)
  {
    assert ([x] + p)[1..] == p;
  }

  lemma {:induction false} PiecesCoverInput(digit: Test, s: string)
    ensures Original(Pieces(digit, s)) == s
    decreases |s|
  {
    if s != "" {
      var n := Step(digit, s);
      PiecesCoverInput(digit, s[n..]);
      OneMorePiece(digit, Piece(s[..n], Match(digit, s).Some?), Pieces(digit, s[n..]));
      Rejoin(s, n, Original(Pieces(digit, s[n..])));
    }
  }

  lemma {:induction false} PiecesShowOutput(digit: Test, s: string)
    ensures Shown(Pieces(digit, s)) == Redact(digit, s)
    decreases |s|
  {
    if s != "" {
      var n := Step(digit, s);
      PiecesShowOutput(digit, s[n..]);
      OneMorePiece(digit, Piece(s[..n], Match(digit, s).Some?), Pieces(digit, s[n..]));
      RedactStep(digit, s);
    }
  }

  lemma RedactStep(digit: Test, s: string)
    requires s != ""
    ensures Redact(digit, s) == (if Match(digit, s).Some? then MARK else s[..1]) + Redact(digit, s[Step(digit, s)..])
  {
    assert s[..1] == [s[0]];
  }

  lemma {:induction false} OnlyShapedIsCut(digit: Test, s: string)
    ensures OnlyShapedCut(digit, Pieces(digit, s))
    decreases |s|
  {
    if s != "" {
      OnlyShapedIsCut(digit, s[Step(digit, s)..]);
      if Match(digit, s).Some? { MatchIsShaped(digit, s); }
    }
  }

  /**
   * The output is the input cut into pieces, in order, with coordinate-shaped ones and no others
   * replaced by the mark.
   */
  lemma TheRestIsKept(digit: Test, s: string)
    ensures exists p :: Original(p) == s && Shown(p) == Redact(digit, s) && OnlyShapedCut(digit, p)
  {
    PiecesCoverInput(digit, s);
    PiecesShowOutput(digit, s);
    OnlyShapedIsCut(digit, s);
  }
}
