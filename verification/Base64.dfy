/**
 * Unpadded URL-safe base64: `_b64` and `_unb64` in backend/photos.py, over section 5 of RFC 4648.
 *
 * The decoder is the lenient one Python uses: characters outside the alphabet are skipped, padding
 * ends the input once it completes a group, and an incomplete group at the end is an error.
 */
module Base64 {
  import opened Prelude

  type byte = b: int | 0 <= b < 256
  type sextet = v: int | 0 <= v < 64

  function Digit(v: sextet): (c: char)
    ensures Value(c) == Some(v) && c != '.' && c != '='
  {
    if v < 26 then (65 + v) as char
    else if v < 52 then (97 + v - 26) as char
    else if v < 62 then (48 + v - 52) as char
    else if v == 62 then '-' else '_'
  }

  /** What one character stands for. The plain alphabet's two last digits are read as well. */
  function Value(c: char): Option<sextet> {
    if 'A' <= c <= 'Z' then Some(c as int - 65)
    else if 'a' <= c <= 'z' then Some(c as int - 97 + 26)
    else if '0' <= c <= '9' then Some(c as int - 48 + 52)
    else if c == '-' || c == '+' then Some(62)
    else if c == '_' || c == '/' then Some(63)
    else None
  }

  function Equals(n: nat): (s: string)
    ensures |s| == n && forall i | 0 <= i < n :: s[i] == '='
  {
    if n == 0 then "" else "=" + Equals(n - 1)
  }

  // ---------- Encoding ----------

  function Three(a: byte, b: byte, c: byte): (s: string)
    ensures |s| == 4
  {
    [Digit(a / 4), Digit(a % 4 * 16 + b / 16), Digit(b % 16 * 4 + c / 64), Digit(c % 64)]
  }

  /** `base64.urlsafe_b64encode`, padded to whole groups. */
  function Encode(b: seq<byte>): string {
    if |b| == 0 then ""
    else if |b| == 1 then [Digit(b[0] / 4), Digit(b[0] % 4 * 16), '=', '=']
    else if |b| == 2 then [Digit(b[0] / 4), Digit(b[0] % 4 * 16 + b[1] / 16), Digit(b[1] % 16 * 4), '=']
    else Three(b[0], b[1], b[2]) + Encode(b[3..])
  }

  /** `.rstrip("=")` */
  function Strip(s: string): string
    decreases |s|
  {
    if s != "" && Last(s) == '=' then Strip(Init(s)) else s
  }

  function B64(b: seq<byte>): string {
    Strip(Encode(b))
  }

  // ---------- Decoding ----------

  /** The decoder's loop, from a place inside a group: its position, the bits left over, the padding seen. */
  function Feed(text: string, quad: nat, left: nat, pads: nat): Option<seq<byte>>
    requires quad < 4 && left < Spare(quad)
  {
    if text == "" then (if quad == 0 then Some([]) else None)
    else if text[0] == '=' then
      if quad >= 2 && quad + pads + 1 >= 4 then Some([])
      else Feed(text[1..], quad, left, if quad >= 2 then pads + 1 else pads)
    else match Value(text[0])
      case None => Feed(text[1..], quad, left, pads)
      case Some(v) =>
        if quad == 0 then Feed(text[1..], 1, v, 0)
        else if quad == 1 then Emit(left * 4 + v / 16, Feed(text[1..], 2, v % 16, 0))
        else if quad == 2 then Emit(left * 16 + v / 4, Feed(text[1..], 3, v % 4, 0))
        else Emit(left * 64 + v, Feed(text[1..], 0, 0, 0))
  }

  function Spare(quad: nat): nat {
    if quad == 0 then 1 else if quad == 1 then 64 else if quad == 2 then 16 else 4
  }

  function Emit(b: byte, rest: Option<seq<byte>>): Option<seq<byte>> {
    match rest
    case None => None
    case Some(s) => Some([b] + s)
  }

  predicate Ascii(s: string) {
    forall i | 0 <= i < |s| :: s[i] as int < 128
  }

  /** `base64.urlsafe_b64decode` of text; None for the ValueError it raises. */
  function Decode(text: string): Option<seq<byte>> {
    if Ascii(text) then Feed(text, 0, 0, 0) else None
  }

  function Padding(n: int): nat {
    (-n) % 4
  }

  function Unb64(text: string): Option<seq<byte>> {
    Decode(text + Equals(Padding(|text|)))
  }

  // ---------- What is stripped is what is put back ----------

  /** What is left of the encoding without its padding. */
  function Bare(b: seq<byte>): string {
    if |b| == 0 then ""
    else if |b| == 1 then [Digit(b[0] / 4), Digit(b[0] % 4 * 16)]
    else if |b| == 2 then [Digit(b[0] / 4), Digit(b[0] % 4 * 16 + b[1] / 16), Digit(b[1] % 16 * 4)]
    else Three(b[0], b[1], b[2]) + Bare(b[3..])
  }

  predicate Digits(s: string) {
    forall i | 0 <= i < |s| :: Value(s[i]).Some? && s[i] != '.' && s[i] != '='
  }

  lemma {:induction false} BareIsDigits(b: seq<byte>)
    ensures Digits(Bare(b))
  {
    if |b| >= 3 {
      BareIsDigits(b[3..]);
      assert Digits(Three(b[0], b[1], b[2]));
    }
  }

  /** Characters that need no escaping in a URL. */
  predicate UrlSafe(c: char) {
    'A' <= c <= 'Z' || 'a' <= c <= 'z' || '0' <= c <= '9' || c == '-' || c == '_'
  }

  lemma {:induction false} BareIsUrlSafe(b: seq<byte>)
    ensures forall i | 0 <= i < |Bare(b)| :: UrlSafe(Bare(b)[i])
  {
    if |b| >= 3 { BareIsUrlSafe(b[3..]); }
  }

  /** The unpadded form can stand in a URL as it is. */
  lemma WrittenIsUrlSafe(b: seq<byte>)
    ensures forall i | 0 <= i < |B64(b)| :: UrlSafe(B64(b)[i])
  {
    StrippedIsBare(b);
    BareIsUrlSafe(b);
  }

  /** Four characters for every three bytes, rounded up. */
  lemma {:induction false} BareLength(b: seq<byte>)
    ensures |Bare(b)| == (4 * |b| + 2) / 3
  {
    if |b| >= 3 { BareLength(b[3..]); }
  }

  lemma {:induction false} EncodeIsBarePadded(b: seq<byte>)
    ensures Encode(b) == Bare(b) + Equals(Padding(|Bare(b)|))
  {
    if |b| >= 3 {
      var rest := b[3..];
      EncodeIsBarePadded(rest);
      WholeGroups(|Bare(rest)|);
      GroupFirst(Three(b[0], b[1], b[2]), Bare(rest), Equals(Padding(|Bare(rest)|)));
    } else if |b| == 2 {
      assert Equals(1) == "=" + Equals(0);
    } else if |b| == 1 {
      assert Equals(2) == "=" + Equals(1) && Equals(1) == "=" + Equals(0);
    }
  }

  lemma GroupFirst(group: string, rest: string, padding: string)
    ensures group + (rest + padding) == (group + rest) + padding
  {
  }

  lemma WholeGroups(n: nat)
    ensures Padding(4 + n) == Padding(n)
  {
  }

  lemma {:induction false} StripStops(s: string, n: nat)
    requires s != "" ==> Last(s) != '='
    ensures Strip(s + Equals(n)) == s
  {
    if n == 0 {
      assert s + Equals(0) == s;
    } else {
      assert Last(s + Equals(n)) == '=';
      assert Init(s + Equals(n)) == s + Equals(n - 1);
      StripStops(s, n - 1);
    }
  }

  lemma StrippedIsBare(b: seq<byte>)
    ensures B64(b) == Bare(b)
  {
    EncodeIsBarePadded(b);
    BareIsDigits(b);
    StripStops(Bare(b), Padding(|Bare(b)|));
  }

  /** The padding arithmetic restores exactly what was stripped. */
  lemma PaddingRestores(b: seq<byte>)
    ensures B64(b) + Equals(Padding(|B64(b)|)) == Encode(b)
  {
    StrippedIsBare(b);
    EncodeIsBarePadded(b);
  }

  // ---------- Round trip ----------

  lemma FeedThree(a: byte, b: byte, c: byte, rest: string)
    ensures Feed(Three(a, b, c) + rest, 0, 0, 0) == Emit(a, Emit(b, Emit(c, Feed(rest, 0, 0, 0))))
  {
    var t := Three(a, b, c);
    var s := t + rest;
    assert s[1..] == t[1..] + rest && s[1..][1..] == t[2..] + rest;
    assert s[1..][1..][1..] == t[3..] + rest && s[1..][1..][1..][1..] == rest;
    var v1 := a % 4 * 16 + b / 16;
    var v2 := b % 16 * 4 + c / 64;
    assert v1 / 16 == a % 4 && v1 % 16 == b / 16;
    assert v2 / 4 == b % 16 && v2 % 4 == c / 64;
    FeedDigit(s, 0, 0, a / 4);
    FeedDigit(s[1..], 1, a / 4, v1);
    FeedDigit(s[1..][1..], 2, b / 16, v2);
    FeedDigit(s[1..][1..][1..], 3, c / 64, c % 64);
  }

  /** One digit fed in. */
  lemma FeedDigit(s: string, quad: nat, left: nat, v: sextet)
    requires quad < 4 && left < Spare(quad)
    requires s != "" && s[0] == Digit(v)
    ensures Feed(s, quad, left, 0)
         == if quad == 0 then Feed(s[1..], 1, v, 0)
            else if quad == 1 then Emit(left * 4 + v / 16, Feed(s[1..], 2, v % 16, 0))
            else if quad == 2 then Emit(left * 16 + v / 4, Feed(s[1..], 3, v % 4, 0))
            else Emit(left * 64 + v, Feed(s[1..], 0, 0, 0))
  {
    assert s[0] != '=';
  }

  /** Splitting a byte between two digits and putting it back. */
  lemma Halves(a: byte, b: byte)
    ensures a / 4 * 4 + (a % 4 * 16 + b / 16) / 16 == a
    ensures (a % 4 * 16 + b / 16) % 16 == b / 16
    ensures b / 16 * 16 + b % 16 * 4 / 4 == b && b % 16 * 4 % 4 == 0
    ensures a / 4 * 4 + a % 4 * 16 / 16 == a && a % 4 * 16 % 16 == 0
  {
  }

  lemma FeedTwo(a: byte, b: byte, tail: string)
    ensures Feed([Digit(a / 4), Digit(a % 4 * 16 + b / 16), Digit(b % 16 * 4)] + tail, 0, 0, 0)
         == Emit(a, Emit(b, Feed(tail, 3, 0, 0)))
  {
    var v0, v1, v2 := a / 4, a % 4 * 16 + b / 16, b % 16 * 4;
    var s := [Digit(v0), Digit(v1), Digit(v2)] + tail;
    assert s[1..] == [Digit(v1), Digit(v2)] + tail;
    assert s[1..][1..] == [Digit(v2)] + tail;
    assert s[1..][1..][1..] == tail;
    Halves(a, b);
    FeedDigit(s, 0, 0, v0);
    FeedDigit(s[1..], 1, v0, v1);
    FeedDigit(s[1..][1..], 2, v1 % 16, v2);
  }

  lemma FeedOne(a: byte, tail: string)
    ensures Feed([Digit(a / 4), Digit(a % 4 * 16)] + tail, 0, 0, 0) == Emit(a, Feed(tail, 2, 0, 0))
  {
    var v0, v1 := a / 4, a % 4 * 16;
    var s := [Digit(v0), Digit(v1)] + tail;
    assert s[1..] == [Digit(v1)] + tail;
    assert s[1..][1..] == tail;
    Halves(a, 0);
    FeedDigit(s, 0, 0, v0);
    FeedDigit(s[1..], 1, v0, v1);
  }

  lemma FeedPadding()
    ensures Feed("=", 3, 0, 0) == Some([]) && Feed("==", 2, 0, 0) == Some([])
    ensures Feed("", 3, 0, 0) == None && Feed("", 2, 0, 0) == None
  {
    assert "=="[1..] == "=";
    assert Feed("=", 2, 0, 1) == Some([]);
  }

  lemma {:induction false} FeedShort(b: seq<byte>)
    requires |b| == 1 || |b| == 2
    ensures Feed(Encode(b), 0, 0, 0) == Some(b) && Feed(Bare(b), 0, 0, 0) == None
  {
    FeedPadding();
    if |b| == 1 {
      var d := [Digit(b[0] / 4), Digit(b[0] % 4 * 16)];
      assert Encode(b) == d + "==" && Bare(b) == d + "";
      FeedOne(b[0], "==");
      FeedOne(b[0], "");
      assert b == [b[0]] + [];
    } else {
      var d := [Digit(b[0] / 4), Digit(b[0] % 4 * 16 + b[1] / 16), Digit(b[1] % 16 * 4)];
      assert Encode(b) == d + "=" && Bare(b) == d + "";
      FeedTwo(b[0], b[1], "=");
      FeedTwo(b[0], b[1], "");
      assert b == [b[0]] + ([b[1]] + []);
    }
  }

  lemma FeedGroup(b: seq<byte>, tail: string, rest: Option<seq<byte>>)
    requires |b| >= 3 && Feed(tail, 0, 0, 0) == rest
    ensures Feed(Three(b[0], b[1], b[2]) + tail, 0, 0, 0)
         == if rest.None? then None else Some(b[..3] + rest.value)
  {
    FeedThree(b[0], b[1], b[2], tail);
    if rest.Some? { assert b[..3] + rest.value == [b[0]] + ([b[1]] + ([b[2]] + rest.value)); }
  }

  lemma {:induction false} FeedEncoded(b: seq<byte>)
    ensures Feed(Encode(b), 0, 0, 0) == Some(b)
  {
    if |b| == 1 || |b| == 2 {
      FeedShort(b);
    } else if |b| >= 3 {
      FeedEncoded(b[3..]);
      FeedGroup(b, Encode(b[3..]), Some(b[3..]));
      assert b == b[..3] + b[3..];
    }
  }

  lemma BareGroup(b: seq<byte>)
    requires |b| >= 3
    ensures Bare(b) == Three(b[0], b[1], b[2]) + Bare(b[3..])
  {
  }

  lemma ThreeLess(n: nat)
    requires n >= 3
    ensures (n - 3) % 3 == n % 3
  {
  }

  lemma {:induction false} FeedBare(b: seq<byte>)
    ensures Feed(Bare(b), 0, 0, 0) == if |b| % 3 == 0 then Some(b) else None
    decreases |b|
  {
    if |b| == 1 || |b| == 2 {
      FeedShort(b);
    } else if |b| >= 3 {
      var rest, tail := b[3..], Bare(b[3..]);
      BareGroup(b);
      ThreeLess(|b|);
      FeedBare(rest);
      FeedGroup(b, tail, Feed(tail, 0, 0, 0));
      assert b == b[..3] + rest;
    }
  }

  lemma EncodedIsAscii(b: seq<byte>)
    ensures Ascii(Encode(b))
  {
    EncodeIsBarePadded(b);
    BareIsDigits(b);
    var s := Bare(b) + Equals(Padding(|Bare(b)|));
    forall i | 0 <= i < |s| ensures s[i] as int < 128 {
      if i < |Bare(b)| { assert Value(Bare(b)[i]).Some?; }
    }
  }

  /** Every byte string comes back from its unpadded form. */
  lemma RoundTrip(b: seq<byte>)
    ensures Unb64(B64(b)) == Some(b)
  {
    PaddingRestores(b);
    EncodedIsAscii(b);
    FeedEncoded(b);
  }

  /** Without the padding put back only whole groups of three bytes would survive. */
  lemma PaddingIsNeeded(b: seq<byte>)
    ensures Decode(B64(b)) == if |b| % 3 == 0 then Some(b) else None
  {
    StrippedIsBare(b);
    EncodedIsAscii(b);
    EncodeIsBarePadded(b);
    assert forall i | 0 <= i < |Bare(b)| :: Bare(b)[i] == Encode(b)[i];
    FeedBare(b);
  }
}
