/**
 * The two passes of `scrub` together. Each alone is complete; one after the other they are complete
 * for coordinates, and for parameters exactly unless a coordinate runs straight into a name.
 */
module ScrubTwice {
  import opened Prelude
  import opened CoordinateScrub
  import opened Scrub

  /** A parameter whose value is not itself about to be taken out as a coordinate. */
  predicate NamesPlainly(r: Rules, s: string) {
    match Named(r, s)
    case None => false
    case Some(n) => Match(r.digit, s[n + 1..]).None?
  }

  /** Some coordinate in `s` is followed, with nothing between, by such a parameter. */
  predicate RunsOn(r: Rules, s: string)
    decreases |s|
  {
    s != "" &&
    match Match(r.digit, s)
    case Some(n) => NamesPlainly(r, s[n..]) || RunsOn(r, s[n..])
    case None => RunsOn(r, s[1..])
  }

  // ---------- Names across the second pass ----------

  lemma NoMatchHere(digit: Test, s: string)
    requires s != "" && s[0] != '-' && !digit(s[0])
    ensures Match(digit, s).None?
  {
    assert s[0..] == s;
  }

  lemma RedactSkipsOne(digit: Test, c: char, rest: string)
    requires c != '-' && !digit(c)
    ensures Redact(digit, [c] + rest) == [c] + Redact(digit, rest)
  {
    NoMatchHere(digit, [c] + rest);
    assert ([c] + rest)[1..] == rest;
  }

  lemma {:induction false} RedactSkips(digit: Test, front: string, rest: string)
    requires forall i | 0 <= i < |front| :: front[i] != '-' && !digit(front[i])
    ensures Redact(digit, front + rest) == front + Redact(digit, rest)
    decreases |front|
  {
    if front == "" {
      assert front + rest == rest;
    } else {
      var tail := front[1..];
      assert front + rest == [front[0]] + (tail + rest);
      RedactSkipsOne(digit, front[0], tail + rest);
      RedactSkips(digit, tail, rest);
      Regroup(front, Redact(digit, rest));
    }
  }

  lemma Regroup(front: string, rest: string)
    requires front != ""
    ensures [front[0]] + (front[1..] + rest) == front + rest
  {
  }

  /** The sign after a name is the first in the text. */
  lemma OneSign(r: Rules, s: string, k: nat)
    requires Proper(r) && Named(r, s).Some? && k < |s| && s[k] == '='
    requires forall i | 0 <= i < k :: s[i] != '='
    ensures Named(r, s) == Some(k)
  {
    NamedReads(r, s);
    NotInName(r, '=');
    assert s[Named(r, s).value] == '=';
  }

  lemma NameIsSkipped(r: Rules, s: string)
    requires Proper(r) && Named(r, s).Some?
    ensures var n := Named(r, s).value + 1; Redact(r.digit, s) == s[..n] + Redact(r.digit, s[n..])
  {
    NamedReads(r, s);
    var n := Named(r, s).value + 1;
    assert s == s[..n] + s[n..];
    RedactSkips(r.digit, s[..n], s[n..]);
  }

  lemma RedactStart(digit: Test, s: string)
    requires s != ""
    ensures Redact(digit, s) != "" && Redact(digit, s)[0] == if Match(digit, s).Some? then '<' else s[0]
  {
  }

  /** What is read in the output of the second pass was there before it, up to the value's first character. */
  lemma NamedAlike(r: Rules, s: string, out: string)
    requires Proper(r) && out == Redact(r.digit, s) && Named(r, out).Some?
    ensures SameUpTo(s, out, Named(r, out).value + 2) && Named(r, s) == Named(r, out)
  {
    var k := Named(r, out).value;
    NamedIsUnmarked(r, out);
    UnmarkedIsKept(r.digit, s, k + 2);
    NamedIsLocal(r, out, s);
    NamedReads(r, out);
    NotInName(r, '=');
    OneSign(r, s, k);
  }

  /** The character after the sign, in the output. */
  lemma {:induction false} ValueStart(r: Rules, s: string, n: nat)
    requires Proper(r) && Named(r, s) == Some(n)
    ensures |Redact(r.digit, s)| >= n + 2 && SameUpTo(s, Redact(r.digit, s), n + 1)
    ensures Redact(r.digit, s)[n + 1] == if Match(r.digit, s[n + 1..]).Some? then '<' else s[n + 1]
  {
    NameIsSkipped(r, s);
    NamedReads(r, s);
    RedactStart(r.digit, s[n + 1..]);
    SameThenTail(s, n + 1, Redact(r.digit, s[n + 1..]));
  }

  lemma SameThenTail(s: string, m: nat, tail: string)
    requires m < |s| && tail != ""
    ensures |s[..m] + tail| > m && SameUpTo(s, s[..m] + tail, m) && (s[..m] + tail)[m] == tail[0]
  {
  }

  lemma SameOneMore(s: string, t: string, m: nat)
    requires SameUpTo(s, t, m) && m < |s| && m < |t| && s[m] == t[m]
    ensures SameUpTo(s, t, m + 1)
  {
  }

  lemma NamedStays(r: Rules, s: string, out: string, n: nat)
    requires Proper(r) && out == Redact(r.digit, s) && Named(r, s) == Some(n) && Match(r.digit, s[n + 1..]).None?
    ensures Named(r, out).Some?
  {
    ValueStart(r, s, n);
    SameOneMore(s, out, n + 1);
    NamedIsLocal(r, s, out);
  }

  lemma NamedGoes(r: Rules, s: string, n: nat)
    requires Proper(r) && Named(r, s) == Some(n) && Match(r.digit, s[n + 1..]).Some?
    ensures Named(r, Redact(r.digit, s)).None?
  {
    ValueStart(r, s, n);
    if Named(r, Redact(r.digit, s)).Some? { NamedAlike(r, s, Redact(r.digit, s)); }
  }

  /** A parameter is read at the start of the output exactly where one with a plain value stood. */
  lemma NamedInOutput(r: Rules, s: string)
    requires Proper(r)
    ensures Named(r, Redact(r.digit, s)).Some? <==> NamesPlainly(r, s)
  {
    if Named(r, s).None? {
      NoneAlike(r, s);
    } else {
      var n := Named(r, s).value;
      if Match(r.digit, s[n + 1..]).None? { NamedStays(r, s, Redact(r.digit, s), n); } else { NamedGoes(r, s, n); }
    }
  }

  lemma NoneAlike(r: Rules, s: string)
    requires Proper(r) && Named(r, s).None?
    ensures Named(r, Redact(r.digit, s)).None?
  {
    if Named(r, Redact(r.digit, s)).Some? { NamedAlike(r, s, Redact(r.digit, s)); }
  }

  // ---------- Coordinates clean, parameters exactly when ----------


  lemma PrevOnlyMattersAtTheStart(r: Rules, s: string)
    ensures Leaks(r, s, false) <==> Named(r, s).Some? || Leaks(r, s, true)
  {
  }

  lemma {:induction false} LeakAfterRedact(r: Rules, s: string, prev: bool)
    requires Proper(r) && !Leaks(r, s, prev)
    ensures Leaks(r, Redact(r.digit, s), prev) <==> RunsOn(r, s)
    decreases |s|
  {
    if s != "" {
      var found := Match(r.digit, s);
      if found.Some? {
        var rest := s[found.value..];
        MatchIsShaped(r.digit, s);
        LeakCarries(r, s, prev, found.value);
        LeakAfterRedact(r, rest, true);
        SkipMark(r, Redact(r.digit, rest), prev);
        PrevOnlyMattersAtTheStart(r, Redact(r.digit, rest));
        NamedInOutput(r, rest);
      } else {
        LeakAfterRedact(r, s[1..], r.word(s[0]));
        NotNamedAfter(r, s, prev);
      }
    }
  }

  lemma NotNamedAfter(r: Rules, s: string, prev: bool)
    requires Proper(r) && s != "" && !Leaks(r, s, prev) && Match(r.digit, s).None?
    ensures Leaks(r, Redact(r.digit, s), prev) <==> Leaks(r, Redact(r.digit, s[1..]), r.word(s[0]))
  {
    var out := Redact(r.digit, s);
    assert out[1..] == Redact(r.digit, s[1..]);
    if Named(r, out).Some? { NamedAlike(r, s, out); }
  }

  /** Whatever the input, no coordinate is left. */
  lemma NoCoordinateIsLeft(r: Rules, s: string, i: nat)
    requires Proper(r) && i <= |Scrubbed(r, s)|
    ensures NoneAt(r.digit, Scrubbed(r, s), i)
  {
    NothingShapedIsLeft(r.digit, Hide(r, s, false), i);
  }

  /**
   * A sensitive parameter is still readable in the output exactly when, after the first pass, a
   * coordinate runs straight into one: taking the coordinate out is what makes the boundary its
   * name was missing.
   */
  lemma ParameterLeftIff(r: Rules, s: string)
    requires Proper(r)
    ensures Leaks(r, Scrubbed(r, s), false) <==> RunsOn(r, Hide(r, s, false))
  {
    HideLeaksNothing(r, s, false);
    LeakAfterRedact(r, Hide(r, s, false), false);
  }

  // ---------- Scrubbing again ----------

  function Marks(s: string): nat {
    if s == "" then 0 else (if s[0] == '<' then 1 else 0) + Marks(s[1..])
  }

  lemma {:induction false} MarksAppend(a: string, b: string)
    ensures Marks(a + b) == Marks(a) + Marks(b)
  {
    if a == "" {
      assert a + b == b;
    } else {
      assert (a + b)[1..] == a[1..] + b;
      MarksAppend(a[1..], b);
    }
  }

  lemma {:induction false} NoMarks(s: string)
    requires '<' !in s
    ensures Marks(s) == 0
  {
    if s != "" {
      assert s[0] in s;
      NoMarks(s[1..]);
    }
  }

  lemma MarkAdds(rest: string)
    ensures Marks(MARK + rest) > Marks(rest)
  {
    MarksAppend(MARK, rest);
    assert MARK[0] == '<';
  }

  lemma {:induction false} RedactOnlyAddsMarks(digit: Test, s: string)
    requires DigitTest(digit)
    ensures Marks(Redact(digit, s)) >= Marks(s)
    decreases |s|
  {
    if s != "" {
      if Match(digit, s).Some? {
        var n := Match(digit, s).value;
        MatchIsShaped(digit, s);
        ShapedHasNoMark(digit, s[..n]);
        NoMarks(s[..n]);
        assert s == s[..n] + s[n..];
        MarksAppend(s[..n], s[n..]);
        MarkAdds(Redact(digit, s[n..]));
        RedactOnlyAddsMarks(digit, s[n..]);
      } else {
        RedactOnlyAddsMarks(digit, s[1..]);
      }
    }
  }

  lemma {:induction false} ValueHasNoMark(r: Rules, s: string, n: nat)
    requires Proper(r) && n + 1 < |s| && !r.stop(s[n + 1])
    ensures Marks(s) == Marks(s[..n + 1]) + Marks(s[ValueEnd(r, s, n)..])
  {
    var end := ValueEnd(r, s, n);
    var value := s[n + 1..end];
    ValueHasNoStop(r, s[n + 1..]);
    forall i | 0 <= i < |value| ensures value[i] != '<' {
      assert value[i] == s[n + 1..][i];
    }
    NoMarks(value);
    assert s == s[..n + 1] + (value + s[end..]);
    MarksAppend(s[..n + 1], value + s[end..]);
    MarksAppend(value, s[end..]);
  }

  lemma {:induction false} HideAddsMarks(r: Rules, s: string, prev: bool)
    requires Proper(r)
    ensures Marks(Hide(r, s, prev)) >= Marks(s)
    ensures Leaks(r, s, prev) ==> Marks(Hide(r, s, prev)) > Marks(s)
    decreases |s|
  {
    if s != "" {
      var found := Found(r, s, prev);
      if found.Some? {
        var n := found.value;
        var end := ValueEnd(r, s, n);
        HideAddsMarks(r, s[end..], r.word(s[end - 1]));
        ValueHasNoMark(r, s, n);
        HideFound(r, s, prev, n, end);
        var rest := Hide(r, s[end..], r.word(s[end - 1]));
        MarksAppend(s[..n + 1], MARK + rest);
        MarkAdds(rest);
      } else {
        HideAddsMarks(r, s[1..], r.word(s[0]));
        HideNotFound(r, s, prev);
        MarksAppend([s[0]], Hide(r, s[1..], r.word(s[0])));
        MarksAppend([s[0]], s[1..]);
        assert s == [s[0]] + s[1..];
      }
    }
  }

  /** Scrubbing again changes nothing exactly when the first scrub left no parameter readable. */
  lemma StableIff(r: Rules, s: string)
    requires Proper(r)
    ensures Scrubbed(r, Scrubbed(r, s)) == Scrubbed(r, s) <==> !RunsOn(r, Hide(r, s, false))
  {
    var out := Scrubbed(r, s);
    ParameterLeftIff(r, s);
    if Leaks(r, out, false) {
      HideAddsMarks(r, out, false);
      RedactOnlyAddsMarks(r.digit, Hide(r, out, false));
    } else {
      HideKeepsSafeText(r, out, false);
      RedactIsStable(r.digit, Hide(r, s, false));
    }
  }

  // ---------- It does happen ----------

  /** A listed name, its sign and a value of one character. */
  function Parameter(name: string, v: char): string {
    name + ("=" + [v])
  }

  lemma ParameterReads(r: Rules, name: string, v: char)
    requires Proper(r) && name in r.names && (forall i | 0 <= i < |name| :: r.same(name[i], name[i]))
    requires !r.stop(v) && !r.digit(v) && v != '-'
    ensures NamesPlainly(r, Parameter(name, v)) && !Leaks(r, Parameter(name, v), true)
    ensures forall i | 0 <= i < |name| :: InName(r, name[i])
  {
    var s := Parameter(name, v);
    assert Reads(r, s, name);
    ReadsNamedBy(r, s, r.names, name);
    forall i | 0 <= i < |name| ensures InName(r, name[i]) && s[i] != '=' {
      assert r.same(name[i], name[i]);
      NotInName(r, '=');
    }
    OneSign(r, s, |name|);
    assert s[|name| + 1..] == [v];
    NoMatchHere(r.digit, [v]);
    SkipWords(r, name, "=" + [v]);
    NotInName(r, '=');
    SkipNonStarters(r, "=", [v], true);
    OneCharacterNamesNothing(r, v);
  }

  lemma OneCharacterNamesNothing(r: Rules, v: char)
    requires Proper(r)
    ensures !Leaks(r, [v], false)
  {
    if Named(r, [v]).Some? { NamedReads(r, [v]); }
  }

  /** A coordinate has no character of a name in it. */
  lemma CoordinateIsNoName(r: Rules, w: string)
    requires Proper(r) && Shaped(r.digit, w)
    ensures forall i | 0 <= i < |w| :: !InName(r, w[i])
  {
    var sign, whole, fraction :| Parts(r.digit, w, sign, whole, fraction);
    forall i | 0 <= i < |w| ensures !InName(r, w[i]) {
      assert w[i] == '-' || w[i] == '.' || r.digit(w[i]);
    }
  }

  /** So in front of a text it changes what can be read only by standing against its first word. */
  lemma CoordinateInFront(r: Rules, w: string, rest: string)
    requires Proper(r) && Shaped(r.digit, w) && w != "" && r.digit(Last(w))
    ensures Leaks(r, w + rest, false) == Leaks(r, rest, true)
  {
    CoordinateIsNoName(r, w);
    SkipNonStarters(r, w, rest, false);
  }

  lemma CoordinateAtStart(r: Rules, s: string, n: nat)
    requires Proper(r) && 0 < n <= |s| && Shaped(r.digit, s[..n]) && r.digit(s[n - 1])
    ensures Leaks(r, s, false) == Leaks(r, s[n..], true)
  {
    var w, rest := s[..n], s[n..];
    assert Last(w) == s[n - 1] && w + rest == s;
    CoordinateInFront(r, w, rest);
  }

  lemma CoordinateReadsAsNothing(r: Rules, s: string, n: nat)
    requires Proper(r) && Match(r.digit, s) == Some(n)
    ensures Leaks(r, s, false) == Leaks(r, s[n..], true)
  {
    MatchIsShaped(r.digit, s);
    CoordinateAtStart(r, s, n);
  }

  lemma RunsOnHere(r: Rules, s: string, n: nat)
    requires Match(r.digit, s) == Some(n) && NamesPlainly(r, s[n..])
    ensures RunsOn(r, s)
  {
  }

  /** For every coordinate and every listed name: written together, the value comes through both passes. */
  lemma ParameterComesThrough(r: Rules, s: string, n: nat, name: string, v: char)
    requires Proper(r) && name in r.names && (forall i | 0 <= i < |name| :: r.same(name[i], name[i]))
    requires !r.stop(v) && !r.digit(v) && v != '-'
    requires Match(r.digit, s) == Some(n) && s[n..] == Parameter(name, v)
    ensures Leaks(r, Scrubbed(r, s), false)
  {
    ParameterReads(r, name, v);
    CoordinateReadsAsNothing(r, s, n);
    UntouchedThenLeft(r, s, n, s[n..]);
  }

  lemma UntouchedThenLeft(r: Rules, s: string, n: nat, p: string)
    requires Proper(r) && !Leaks(r, s, false) && NamesPlainly(r, p)
    requires n <= |s| && Match(r.digit, s) == Some(n) && s[n..] == p
    ensures Leaks(r, Scrubbed(r, s), false)
  {
    HideKeepsSafeText(r, s, false);
    RunsOnHere(r, s, n);
    ParameterLeftIff(r, s);
  }
}
