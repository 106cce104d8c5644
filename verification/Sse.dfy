/**
  The event stream on the wire: the server's frame printer and the browser's incremental reader
  (a subset of section 9.2 of the WHATWG HTML Living Standard, "server-sent events").

  The reader appends each chunk to a buffer, splits the buffer at blank lines, keeps the last piece
  and parses the others. The module proves that no way of cutting a text into chunks can be
  observed, and that what the server printed is what the browser delivers.
*/
module Sse {
  import opened Prelude

  // ---------------------------------------------------------------------------------------------
  // Splitting at blank lines
  // ---------------------------------------------------------------------------------------------

  /** JavaScript's `s.split('\n\n')`: cut at every leftmost, non-overlapping blank line. */
  function Split(s: string): (parts: seq<string>)
    ensures |parts| >= 1
  {
    if |s| < 2 then [s]
    else if s[0] == '\n' && s[1] == '\n' then [""] + Split(s[2..])
    else Prepend(s[0], Split(s[1..]))
  }

  function Prepend(c: char, parts: seq<string>): seq<string>
    requires |parts| >= 1
  {
    [[c] + parts[0]] + parts[1..]
  }

  ghost function JoinParts(parts: seq<string>): string
    requires |parts| >= 1
  {
    if |parts| == 1 then parts[0] else parts[0] + "\n\n" + JoinParts(parts[1..])
  }

  ghost predicate HasBlankLine(s: string) {
    exists i :: 0 <= i < |s| - 1 && s[i] == '\n' && s[i + 1] == '\n'
  }

  /** The blank line that follows a piece is the first one: none begins inside the piece. */
  ghost predicate EndsAtFirstBlank(part: string) {
    !HasBlankLine(part + "\n")
  }

  /** Every piece but the last ends at the first blank line that follows it; the last has none. */
  ghost predicate Leftmost(parts: seq<string>)
    requires |parts| >= 1
  {
    && (forall k :: 0 <= k < |parts| - 1 ==> EndsAtFirstBlank(parts[k]))
    && !HasBlankLine(Last(parts))
  }

  lemma {:induction false} SplitJoins(s: string)
    ensures JoinParts(Split(s)) == s
    ensures Leftmost(Split(s))
  {
    if |s| < 2 {
    } else if s[0] == '\n' && s[1] == '\n' {
      SplitJoins(s[2..]);
      SplitJoinsCut(s);
    } else {
      SplitJoins(s[1..]);
      SplitJoinsStep(s);
    }
  }

  lemma SplitJoinsCut(s: string)
    requires |s| >= 2 && s[0] == '\n' && s[1] == '\n'
    requires JoinParts(Split(s[2..])) == s[2..] && Leftmost(Split(s[2..]))
    ensures JoinParts(Split(s)) == s && Leftmost(Split(s))
  {
    SplitOfCut(s);
    assert s == "" + "\n\n" + s[2..];
    LeftmostCut(Split(s[2..]));
  }

  lemma LeftmostCut(rest: seq<string>)
    requires rest != [] && Leftmost(rest)
    ensures Leftmost([""] + rest)
    ensures JoinParts([""] + rest) == "" + "\n\n" + JoinParts(rest)
  {
    var parts := [""] + rest;
    assert parts[1..] == rest && Last(parts) == Last(rest);
    forall k | 0 <= k < |rest| ensures EndsAtFirstBlank(parts[k]) {
      if k > 0 { assert parts[k] == rest[k - 1]; }
    }
  }

  lemma SplitJoinsStep(s: string)
    requires |s| >= 2 && !(s[0] == '\n' && s[1] == '\n')
    requires JoinParts(Split(s[1..])) == s[1..] && Leftmost(Split(s[1..]))
    ensures JoinParts(Split(s)) == s && Leftmost(Split(s))
  {
    var rest := Split(s[1..]);
    JoinPrepend(s[0], rest);
    assert s == [s[0]] + s[1..];
    LeftmostPrepend(s[0], rest, s[1]) by { assert s[1..][0] == s[1]; }
  }

  lemma LeftmostPrepend(c: char, rest: seq<string>, d: char)
    requires |rest| >= 1 && Leftmost(rest)
    requires JoinParts(rest) != "" && JoinParts(rest)[0] == d && !(c == '\n' && d == '\n')
    ensures Leftmost(Prepend(c, rest))
  {
    if |rest| == 1 {
      NoBlankLineBefore(c, rest[0]);
    } else {
      FirstDelimited(c, rest, d);
      LeftmostWithFirst(Prepend(c, rest), rest);
    }
  }

  lemma LeftmostWithFirst(all: seq<string>, rest: seq<string>)
    requires |all| == |rest| > 1 && all[1..] == rest[1..]
    requires EndsAtFirstBlank(all[0]) && Leftmost(rest)
    ensures Leftmost(all)
  {
    assert forall k | 0 < k < |all| :: all[k] == all[1..][k - 1] == rest[k];
  }

  lemma FirstDelimited(c: char, rest: seq<string>, d: char)
    requires |rest| > 1 && EndsAtFirstBlank(rest[0])
    requires JoinParts(rest) != "" && JoinParts(rest)[0] == d && !(c == '\n' && d == '\n')
    ensures EndsAtFirstBlank(Prepend(c, rest)[0])
  {
    var line := rest[0] + "\n";
    assert line[0] == d by {
      assert JoinParts(rest) == rest[0] + "\n\n" + JoinParts(rest[1..]);
      if rest[0] == "" { assert d == '\n'; }
    }
    NoBlankLineBefore(c, line);
    assert [c] + line == ([c] + rest[0]) + "\n";
  }

  lemma JoinPrepend(c: char, parts: seq<string>)
    requires |parts| >= 1
    ensures JoinParts(Prepend(c, parts)) == [c] + JoinParts(parts)
  {
    var all := Prepend(c, parts);
    assert all[1..] == parts[1..];
    if |parts| > 1 {
      Regroup([c], parts[0], "\n\n");
      Regroup([c], parts[0] + "\n\n", JoinParts(parts[1..]));
    }
  }

  lemma Regroup(a: string, b: string, c: string)
    ensures (a + b) + c == a + (b + c)
  {
  }

  lemma NoBlankLineBefore(c: char, s: string)
    requires !HasBlankLine(s)
    requires s != "" ==> !(c == '\n' && s[0] == '\n')
    ensures !HasBlankLine([c] + s)
  {
    forall i | 0 <= i < |s| ensures !(([c] + s)[i] == '\n' && ([c] + s)[i + 1] == '\n') {
      if i > 0 { assert !(s[i - 1] == '\n' && s[i] == '\n'); }
    }
  }

  /** The two conditions of `SplitJoins` determine the result: there is one leftmost split. */
  lemma {:induction false} SplitUnique(parts: seq<string>)
    requires |parts| >= 1 && Leftmost(parts)
    ensures Split(JoinParts(parts)) == parts
    decreases |parts|
  {
    if |parts| == 1 {
      NoBlankLineNoSplit(parts[0]);
    } else {
      var rest := parts[1..];
      forall k | 0 <= k < |rest| - 1 ensures EndsAtFirstBlank(rest[k]) {
        assert rest[k] == parts[k + 1];
      }
      assert EndsAtFirstBlank(parts[0]);
      SplitUnique(rest);
      SplitAtFrame(parts[0], JoinParts(rest));
      assert parts == [parts[0]] + rest;
    }
  }

  lemma {:induction false} NoBlankLineNoSplit(s: string)
    requires !HasBlankLine(s)
    ensures Split(s) == [s]
  {
    if |s| >= 2 {
      forall i | 0 <= i < |s[1..]| - 1 ensures !(s[1..][i] == '\n' && s[1..][i + 1] == '\n') {
        assert s[1..][i] == s[i + 1] && s[1..][i + 1] == s[i + 2];
      }
      NoBlankLineNoSplit(s[1..]);
      assert s == [s[0]] + s[1..];
    }
  }

  /** A frame without a blank line of its own, once delimited, comes off the front whole. */
  lemma {:induction false} SplitAtFrame(frame: string, rest: string)
    requires !HasBlankLine(frame + "\n")
    ensures Split(frame + "\n\n" + rest) == [frame] + Split(rest)
  {
    var s := frame + "\n\n" + rest;
    if frame == "" {
      assert s[2..] == rest;
    } else {
      assert s[0] == frame[0];
      assert (frame + "\n")[0] == frame[0] && (frame + "\n")[1] == s[1];
      assert s[1..] == frame[1..] + "\n\n" + rest;
      assert frame[1..] + "\n" == (frame + "\n")[1..];
      forall i | 0 <= i < |frame[1..] + "\n"| - 1
        ensures !((frame[1..] + "\n")[i] == '\n' && (frame[1..] + "\n")[i + 1] == '\n')
      {
        assert (frame[1..] + "\n")[i] == (frame + "\n")[i + 1];
        assert (frame[1..] + "\n")[i + 1] == (frame + "\n")[i + 2];
      }
      SplitAtFrame(frame[1..], rest);
      var sub := Split(s[1..]);
      assert sub == [frame[1..]] + Split(rest);
      assert Prepend(s[0], sub) == [[s[0]] + frame[1..]] + Split(rest);
      assert [s[0]] + frame[1..] == frame;
    }
  }

  /** The law the reader lives on: splitting what is left over together with the next chunk. */
  lemma {:induction false} SplitAppend(a: string, b: string)
    ensures Split(a + b) == Init(Split(a)) + Split(Last(Split(a)) + b)
  {
    if |a| < 2 {
      assert Init([a]) + Split(a + b) == Split(a + b);
    } else if a[0] == '\n' && a[1] == '\n' {
      SplitAppend(a[2..], b);
      SplitAppendCut(a, b);
    } else {
      SplitAppend(a[1..], b);
      SplitAppendStep(a, b);
    }
  }

  lemma SplitAppendCut(a: string, b: string)
    requires |a| >= 2 && a[0] == '\n' && a[1] == '\n'
    requires Split(a[2..] + b) == Init(Split(a[2..])) + Split(Last(Split(a[2..])) + b)
    ensures Split(a + b) == Init(Split(a)) + Split(Last(Split(a)) + b)
  {
    assert (a + b)[2..] == a[2..] + b;
    SplitOfCut(a);
    SplitOfCut(a + b);
    ConsInit("", Split(a[2..]), Split(Last(Split(a[2..])) + b));
  }

  lemma SplitOfCut(s: string)
    requires |s| >= 2 && s[0] == '\n' && s[1] == '\n'
    ensures Split(s) == [""] + Split(s[2..])
  {
  }

  lemma ConsInit<T>(x: T, s: seq<T>, y: seq<T>)
    requires s != []
    ensures Last([x] + s) == Last(s)
    ensures [x] + (Init(s) + y) == Init([x] + s) + y
  {
  }

  lemma SplitAppendStep(a: string, b: string)
    requires |a| >= 2 && !(a[0] == '\n' && a[1] == '\n')
    requires Split(a[1..] + b) == Init(Split(a[1..])) + Split(Last(Split(a[1..])) + b)
    ensures Split(a + b) == Init(Split(a)) + Split(Last(Split(a)) + b)
  {
    assert (a + b)[1..] == a[1..] + b;
    SplitOfStep(a);
    SplitOfStep(a + b);
    var sub := Split(a[1..]);
    if |sub| == 1 {
      SplitJoins(a[1..]);
      assert [a[0]] + a[1..] == a;
      assert Split(a) == [a] && Init([a]) + Split(a + b) == Split(a + b);
    } else {
      PrependConcat(a[0], Init(sub), Split(Last(sub) + b));
      PrependInit(a[0], sub);
    }
  }

  lemma SplitOfStep(s: string)
    requires |s| >= 2 && !(s[0] == '\n' && s[1] == '\n')
    ensures Split(s) == Prepend(s[0], Split(s[1..]))
  {
  }

  lemma PrependInit(c: char, x: seq<string>)
    requires |x| >= 2
    ensures Init(Prepend(c, x)) == Prepend(c, Init(x)) && Last(Prepend(c, x)) == Last(x)
  {
  }

  lemma PrependConcat(c: char, x: seq<string>, y: seq<string>)
    requires |x| >= 1 && |y| >= 1
    ensures Prepend(c, x + y) == Prepend(c, x) + y
  {
    assert (x + y)[1..] == x[1..] + y;
  }

  // ---------------------------------------------------------------------------------------------
  // Frames and the reader's effects
  // ---------------------------------------------------------------------------------------------

  /** What one decoded JSON value means to the reader. `Foreign` is any other `type`. */
  datatype Message<Route, Payload> =
    | Progress(pct: int)
    | RouteFrame(route: Route)
    | DoneFrame(payload: Payload)
    | ErrorFrame(kind: string)
    | Foreign

  /** What the reader has done so far. `failure` is the `ApiError` that stops it. */
  datatype Client<Route, Payload> = Client(
    progress: seq<int>, delivered: seq<Route>, final: Option<Payload>, failure: Option<string>)

  function Fresh<R, P>(): Client<R, P> {
    Client([], [], None, None)
  }

  function Deliver<R, P>(c: Client<R, P>, m: Message<R, P>): Client<R, P> {
    if c.failure.Some? then c
    else match m
      case Progress(pct) => c.(progress := c.progress + [pct])
      case RouteFrame(route) => c.(delivered := c.delivered + [route])
      case DoneFrame(payload) => c.(final := Some(payload))
      case ErrorFrame(kind) => c.(failure := Some(kind))
      case Foreign => c
  }

  function DeliverAll<R, P>(c: Client<R, P>, ms: seq<Message<R, P>>): Client<R, P>
    decreases |ms|
  {
    if ms == [] then c else DeliverAll(Deliver(c, ms[0]), ms[1..])
  }

  /** `JSON.parse`: None where it throws. */
  type Decoder<!Route, !Payload> = string -> Option<Message<Route, Payload>>

  /** `part.split('\n').find((l) => l.startsWith('data:'))`, cut after the five characters. */
  function DataField(part: string): (field: Option<string>)
    decreases |part|
  {
    var line, rest := FirstLine(part), AfterFirstLine(part);
    if "data:" <= line then Some(line[5..])
    else match rest
      case None => None
      case Some(more) => DataField(more)
  }

  function FirstLine(s: string): (line: string)
    ensures line <= s
    ensures '\n' !in line
    ensures |line| < |s| ==> s[|line|] == '\n'
  {
    if s == "" || s[0] == '\n' then "" else [s[0]] + FirstLine(s[1..])
  }

  function AfterFirstLine(s: string): (rest: Option<string>)
    ensures rest.Some? ==> |rest.value| < |s|
  {
    var n := |FirstLine(s)|;
    if n < |s| then Some(s[n + 1..]) else None
  }

  /** A line that begins here begins with `data:`. */
  predicate FieldAt(part: string, at: nat) {
    at + 5 <= |part| && part[at..at + 5] == "data:" && (at == 0 || part[at - 1] == '\n')
  }

  /** `field` is the rest of that line. */
  predicate RestOfLine(part: string, at: nat, field: string) {
    && at + 5 + |field| <= |part| && part[at + 5..at + 5 + |field|] == field && '\n' !in field
    && (at + 5 + |field| < |part| ==> part[at + 5 + |field|] == '\n')
  }

  ghost predicate FirstField(part: string, at: nat, field: string) {
    FieldAt(part, at) && RestOfLine(part, at, field) && forall b: nat | b < at :: !FieldAt(part, b)
  }

  lemma NoFieldInside(part: string, at: nat)
    requires 0 < at <= |FirstLine(part)|
    ensures !FieldAt(part, at)
  {
    var line := FirstLine(part);
    assert line[at - 1] in line && line[at - 1] == part[at - 1];
  }

  lemma FieldAtStart(part: string)
    ensures FieldAt(part, 0) <==> "data:" <= FirstLine(part)
  {
    var line := FirstLine(part);
    assert line == part[..|line|];
    assert FieldAt(part, 0) ==> forall i | 0 <= i < 5 :: part[0..5][i] == part[i] == "data:"[i];
    if |line| >= 5 { assert line[..5] == part[0..5]; }
  }

  lemma FieldInRest(part: string, at: nat)
    requires |FirstLine(part)| < at
    ensures FieldAt(part, at) <==> |FirstLine(part)| < |part| && FieldAt(part[|FirstLine(part)| + 1..], at - |FirstLine(part)| - 1)
  {
    var n := |FirstLine(part)| + 1;
    if n <= |part| && at + 5 <= |part| { assert part[n..][at - n..at - n + 5] == part[at..at + 5]; }
  }

  lemma FieldOfFirstLine(part: string)
    requires "data:" <= FirstLine(part)
    ensures FirstField(part, 0, FirstLine(part)[5..])
  {
    var line := FirstLine(part);
    assert part[..|line|] == line && part[0..5] == line[0..5];
    assert part[5..|line|] == line[5..];
    assert forall c | c in line[5..] :: c in line;
  }

  /** `found` is the rest of the first such line, or there is none. */
  ghost predicate IsFieldOf(part: string, at: nat, found: Option<string>) {
    match found
    case Some(field) => FirstField(part, at, field)
    case None => forall b: nat :: !FieldAt(part, b)
  }

  /** What a piece is parsed for is the rest of its first line that begins with `data:`, if it has one. */
  lemma {:induction false} FieldIsFirst(part: string) returns (at: nat)
    ensures IsFieldOf(part, at, DataField(part))
    decreases |part|
  {
    at := 0;
    if "data:" <= FirstLine(part) {
      FieldOfFirstLine(part);
    } else {
      NoFieldEarly(part);
      var n := |FirstLine(part)| + 1;
      if n <= |part| {
        var k := FieldIsFirst(part[n..]);
        at := k + n;
        FieldLater(part, k, DataField(part[n..]));
      }
    }
  }

  lemma NoFieldEarly(part: string)
    requires !("data:" <= FirstLine(part))
    ensures forall b: nat | b <= |FirstLine(part)| :: !FieldAt(part, b)
    ensures |FirstLine(part)| == |part| ==> forall b: nat :: !FieldAt(part, b)
  {
    FieldAtStart(part);
    forall b: nat | b <= |FirstLine(part)| ensures !FieldAt(part, b) {
      if b > 0 { NoFieldInside(part, b); }
    }
  }

  lemma FieldLater(part: string, k: nat, found: Option<string>)
    requires |FirstLine(part)| < |part| && IsFieldOf(part[|FirstLine(part)| + 1..], k, found)
    requires forall b: nat | b <= |FirstLine(part)| :: !FieldAt(part, b)
    ensures IsFieldOf(part, k + |FirstLine(part)| + 1, found)
  {
    var n := |FirstLine(part)| + 1;
    forall b: nat | n <= b ensures FieldAt(part, b) <==> FieldAt(part[n..], b - n) {
      FieldInRest(part, b);
    }
    if found.Some? { RestAlike(part, n, k, found.value); }
  }

  lemma RestAlike(part: string, n: nat, k: nat, field: string)
    requires n <= |part| && RestOfLine(part[n..], k, field)
    ensures RestOfLine(part, n + k, field)
  {
    assert part[n..][k + 5..k + 5 + |field|] == part[n + k + 5..n + k + 5 + |field|];
  }

  function Parse<R, P>(dec: Decoder<R, P>, c: Client<R, P>, part: string): Client<R, P> {
    match DataField(part)
    case None => c
    case Some(field) =>
      match dec(field)
      case None => c
      case Some(m) => Deliver(c, m)
  }

  function ParseAll<R, P>(dec: Decoder<R, P>, c: Client<R, P>, parts: seq<string>): Client<R, P>
    decreases |parts|
  {
    if parts == [] then c else ParseAll(dec, Parse(dec, c, parts[0]), parts[1..])
  }

  lemma {:induction false} ParseAllAppend<R, P>(
    dec: Decoder<R, P>, c: Client<R, P>, a: seq<string>, b: seq<string>)
    ensures ParseAll(dec, c, a + b) == ParseAll(dec, ParseAll(dec, c, a), b)
    decreases |a|
  {
    if a == [] {
      assert a + b == b;
    } else {
      assert (a + b)[1..] == a[1..] + b;
      ParseAllAppend(dec, Parse(dec, c, a[0]), a[1..], b);
    }
  }

  lemma {:induction false} ParseAllAfterFailure<R, P>(
    dec: Decoder<R, P>, c: Client<R, P>, parts: seq<string>)
    requires c.failure.Some?
    ensures ParseAll(dec, c, parts) == c
    decreases |parts|
  {
    if parts != [] { ParseAllAfterFailure(dec, c, parts[1..]); }
  }

  /** JavaScript white space, as far as `trim` on a tail of ASCII text is concerned. */
  predicate IsBlank(s: string) {
    forall c | c in s :: c in " \t\n\r"
  }

  lemma {:induction false} BlankHasNoData(s: string)
    requires IsBlank(s)
    ensures DataField(s) == None
    decreases |s|
  {
    assert s == "" || s[0] in s;
    assert !("data:" <= FirstLine(s));
    match AfterFirstLine(s) {
      case None =>
      case Some(more) =>
        assert forall c | c in more :: c in s;
        BlankHasNoData(more);
    }
  }

  function Concat(chunks: seq<string>): string
    decreases |chunks|
  {
    if chunks == [] then "" else chunks[0] + Concat(chunks[1..])
  }

  /** The specification: every piece of the whole text, the undelimited last one included. */
  function ReadWhole<R, P>(dec: Decoder<R, P>, text: string): Client<R, P> {
    ParseAll(dec, Fresh(), Split(text))
  }

  /** The inner loop over complete pieces; an announced error leaves it at once. */
  method ParseParts<R, P>(dec: Decoder<R, P>, start: Client<R, P>, parts: seq<string>) returns (c: Client<R, P>)
    ensures c == ParseAll(dec, start, parts)
  {
    c := start;
    var i := 0;
    while i < |parts|
      invariant 0 <= i <= |parts|
      invariant ParseAll(dec, start, parts) == ParseAll(dec, c, parts[i..])
    {
      if c.failure.Some? {
        ParseAllAfterFailure(dec, c, parts[i..]);
        return;
      }
      assert parts[i..][1..] == parts[i + 1..];
      c := Parse(dec, c, parts[i]);
      i := i + 1;
    }
  }

  /**
    The browser's loop. Whatever the chunks, the outcome is that of reading the concatenated text
    at once; an announced error stops the loop where it stands.
  */
  method ReadStream<R, P>(dec: Decoder<R, P>, chunks: seq<string>) returns (c: Client<R, P>)
    ensures c == ReadWhole(dec, Concat(chunks))
  {
    var buffer := "";
    c := Fresh();
    var k := 0;
    ghost var seen := "";
    while k < |chunks|
      invariant 0 <= k <= |chunks|
      invariant Concat(chunks) == seen + Concat(chunks[k..])
      invariant buffer == Last(Split(seen))
      invariant c == ParseAll(dec, Fresh(), Init(Split(seen)))
    {
      var parts := Split(buffer + chunks[k]);
      NextChunk(dec, seen, chunks[k], c);
      ConcatNext(chunks, k, seen);
      c := ParseParts(dec, c, Init(parts));
      buffer := Last(parts);
      seen := seen + chunks[k];
      k := k + 1;
      if c.failure.Some? {
        StoppedEarly(dec, seen, Concat(chunks[k..]), c);
        return;
      }
    }
    assert seen == Concat(chunks) by { assert chunks[k..] == [] && seen + "" == seen; }
    LastPart(dec, seen, c);
    if !IsBlank(buffer) {
      c := Parse(dec, c, buffer);
    }
  }

  lemma ConcatNext(chunks: seq<string>, k: nat, seen: string)
    requires k < |chunks|
    ensures seen + Concat(chunks[k..]) == (seen + chunks[k]) + Concat(chunks[k + 1..])
  {
    assert chunks[k..][1..] == chunks[k + 1..];
  }

  /** The tail flush: an undelimited last piece is parsed too, and a blank one has nothing to say. */
  lemma LastPart<R, P>(dec: Decoder<R, P>, text: string, c: Client<R, P>)
    requires c == ParseAll(dec, Fresh(), Init(Split(text)))
    ensures var tail := Last(Split(text));
            ReadWhole(dec, text) == if IsBlank(tail) then c else Parse(dec, c, tail)
  {
    var tail := Last(Split(text));
    assert Split(text) == Init(Split(text)) + [tail];
    ParseAllAppend(dec, Fresh(), Init(Split(text)), [tail]);
    assert ParseAll(dec, c, [tail]) == Parse(dec, c, tail) by {
      assert ParseAll(dec, Parse(dec, c, tail), []) == Parse(dec, c, tail);
    }
    if IsBlank(tail) { BlankHasNoData(tail); }
  }

  lemma NextChunk<R, P>(dec: Decoder<R, P>, seen: string, chunk: string, c: Client<R, P>)
    requires c == ParseAll(dec, Fresh(), Init(Split(seen)))
    ensures Last(Split(seen + chunk)) == Last(Split(Last(Split(seen)) + chunk))
    ensures ParseAll(dec, Fresh(), Init(Split(seen + chunk)))
         == ParseAll(dec, c, Init(Split(Last(Split(seen)) + chunk)))
  {
    SplitAppend(seen, chunk);
    var parts := Split(Last(Split(seen)) + chunk);
    assert Init(Init(Split(seen)) + parts) == Init(Split(seen)) + Init(parts);
    ParseAllAppend(dec, Fresh(), Init(Split(seen)), Init(parts));
  }

  /** Pieces that follow an announced error, in this chunk or a later one, change nothing. */
  lemma StoppedEarly<R, P>(dec: Decoder<R, P>, seen: string, later: string, c: Client<R, P>)
    requires c == ParseAll(dec, Fresh(), Init(Split(seen))) && c.failure.Some?
    ensures ReadWhole(dec, seen + later) == c
  {
    SplitAppend(seen, later);
    var rest := Split(Last(Split(seen)) + later);
    ParseAllAppend(dec, Fresh(), Init(Split(seen)), rest);
    ParseAllAfterFailure(dec, c, rest);
  }

  // ---------------------------------------------------------------------------------------------
  // The server's printer
  // ---------------------------------------------------------------------------------------------

  datatype Frame<Route, Payload> = Keepalive | Data(message: Message<Route, Payload>)

  /** `_sse` around an encoder, and the keepalive comment. */
  function Print<R, P>(enc: Message<R, P> -> string, f: Frame<R, P>): string {
    match f
    case Keepalive => ": keepalive\n\n"
    case Data(m) => "data: " + enc(m) + "\n\n"
  }

  function PrintAll<R, P>(enc: Message<R, P> -> string, fs: seq<Frame<R, P>>): string
    decreases |fs|
  {
    if fs == [] then "" else Print(enc, fs[0]) + PrintAll(enc, fs[1..])
  }

  function Messages<R, P>(fs: seq<Frame<R, P>>): seq<Message<R, P>>
    decreases |fs|
  {
    if fs == [] then []
    else (if fs[0].Data? then [fs[0].message] else []) + Messages(fs[1..])
  }

  /** Compact JSON escapes every newline, and parsing it back, with a space in front, is exact. */
  ghost predicate Faithful<R(!new), P(!new)>(enc: Message<R, P> -> string, dec: Decoder<R, P>) {
    forall m :: '\n' !in enc(m) && dec(" " + enc(m)) == Some(m)
  }

  function Body<R, P>(enc: Message<R, P> -> string, f: Frame<R, P>): string {
    match f
    case Keepalive => ": keepalive"
    case Data(m) => "data: " + enc(m)
  }

  lemma OneLine(line: string)
    requires '\n' !in line
    ensures DataField(line) == if "data:" <= line then Some(line[5..]) else None
    ensures !HasBlankLine(line + "\n")
  {
    assert FirstLine(line) == line;
    forall i | 0 <= i < |line + "\n"| - 1 ensures (line + "\n")[i] != '\n' {
      assert (line + "\n")[i] in line;
    }
  }

  lemma DataLine(json: string)
    requires '\n' !in json
    ensures DataField("data: " + json) == Some(" " + json)
    ensures !HasBlankLine("data: " + json + "\n")
  {
    var line := "data: " + json;
    assert forall c | c in "data: " :: c != '\n';
    OneLine(line);
    assert line[5..] == " " + json;
  }

  lemma KeepaliveLine()
    ensures DataField(": keepalive") == None
    ensures !HasBlankLine(": keepalive" + "\n")
  {
    assert forall c | c in ": keepalive" :: c != '\n';
    OneLine(": keepalive");
  }

  lemma PrintedFrameParses<R(!new), P(!new)>(
    enc: Message<R, P> -> string, dec: Decoder<R, P>, c: Client<R, P>, f: Frame<R, P>)
    requires Faithful(enc, dec)
    ensures !HasBlankLine(Body(enc, f) + "\n")
    ensures Parse(dec, c, Body(enc, f)) == if f.Data? then Deliver(c, f.message) else c
  {
    match f {
      case Keepalive => KeepaliveLine();
      case Data(m) => DataLine(enc(m));
    }
  }

  lemma {:induction false} PrintedFramesParse<R(!new), P(!new)>(
    enc: Message<R, P> -> string, dec: Decoder<R, P>, c: Client<R, P>, fs: seq<Frame<R, P>>)
    requires Faithful(enc, dec)
    ensures ParseAll(dec, c, Split(PrintAll(enc, fs))) == DeliverAll(c, Messages(fs))
    decreases |fs|
  {
    if fs == [] {
      ParseNothing(dec, c);
    } else {
      var body, rest := Body(enc, fs[0]), PrintAll(enc, fs[1..]);
      var next := Parse(dec, c, body);
      PrintedFrameParses(enc, dec, c, fs[0]);
      PrintSplits(enc, fs);
      ParseCons(dec, c, body, Split(rest));
      PrintedFramesParse(enc, dec, next, fs[1..]);
      DeliverCons(c, fs);
    }
  }

  lemma ParseNothing<R, P>(dec: Decoder<R, P>, c: Client<R, P>)
    ensures ParseAll(dec, c, [""]) == c
  {
    BlankHasNoData("");
    assert ParseAll(dec, Parse(dec, c, ""), []) == c;
  }

  lemma ParseCons<R, P>(dec: Decoder<R, P>, c: Client<R, P>, part: string, rest: seq<string>)
    ensures ParseAll(dec, c, [part] + rest) == ParseAll(dec, Parse(dec, c, part), rest)
  {
    assert ([part] + rest)[1..] == rest;
  }

  lemma PrintSplits<R(!new), P(!new)>(enc: Message<R, P> -> string, fs: seq<Frame<R, P>>)
    requires fs != [] && !HasBlankLine(Body(enc, fs[0]) + "\n")
    ensures Split(PrintAll(enc, fs)) == [Body(enc, fs[0])] + Split(PrintAll(enc, fs[1..]))
  {
    SplitAtFrame(Body(enc, fs[0]), PrintAll(enc, fs[1..]));
    assert Print(enc, fs[0]) == Body(enc, fs[0]) + "\n\n";
  }

  lemma DeliverCons<R, P>(c: Client<R, P>, fs: seq<Frame<R, P>>)
    requires fs != []
    ensures DeliverAll(c, Messages(fs))
         == DeliverAll(if fs[0].Data? then Deliver(c, fs[0].message) else c, Messages(fs[1..]))
  {
    if fs[0].Data? {
      assert ([fs[0].message] + Messages(fs[1..]))[1..] == Messages(fs[1..]);
    } else {
      assert Messages(fs) == [] + Messages(fs[1..]) == Messages(fs[1..]);
    }
  }

  /**
    Both ends together: whatever the server prints, with keepalives anywhere between, and however
    the network cuts it up, the browser delivers exactly the printed messages in order, up to and
    including the first error.
  */
  method Transmit<R(!new), P(!new)>(
    enc: Message<R, P> -> string, dec: Decoder<R, P>, frames: seq<Frame<R, P>>, chunks: seq<string>)
    returns (c: Client<R, P>)
    requires Faithful(enc, dec)
    requires Concat(chunks) == PrintAll(enc, frames)
    ensures c == DeliverAll(Fresh(), Messages(frames))
  {
    PrintedFramesParse(enc, dec, Fresh(), frames);
    c := ReadStream(dec, chunks);
  }
}
