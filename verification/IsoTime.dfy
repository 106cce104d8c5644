/**
  Timestamps as the cache writes them: `datetime.isoformat()` of a UTC time, which omits the fraction
  when it is zero. SQLite compares the text byte by byte; the module proves that this is comparing
  the times (compare section 5.1 of RFC 3339), and that reading a written timestamp gives it back.
*/
module IsoTime {
  import opened Prelude
  import opened Text

  datatype Time = Time(year: nat, month: nat, day: nat, hour: nat, minute: nat, second: nat, micro: nat)

  predicate Valid(t: Time) {
    && 1 <= t.year <= 9999 && 1 <= t.month <= 12 && 1 <= t.day <= 31
    && t.hour < 24 && t.minute < 60 && t.second < 60 && t.micro < 1000000
  }

  /** Python's comparison of two aware datetimes in one zone. */
  function TimeOrder(a: Time, b: Time): int {
    Then(Order(a.year, b.year), Then(Order(a.month, b.month), Then(Order(a.day, b.day),
      Then(Order(a.hour, b.hour), Then(Order(a.minute, b.minute), Then(Order(a.second, b.second),
        Order(a.micro, b.micro)))))))
  }

  /** The position of a time among all valid ones, as one number. */
  function Micros(t: Time): int {
    t.micro + 1000000 * (t.second + 60 * (t.minute + 60 * (t.hour + 24 * (t.day + 32 * (t.month + 13 * t.year)))))
  }

  predicate AtOrBefore(a: Time, b: Time) {
    Micros(a) <= Micros(b)
  }

  lemma MicrosOrder(a: Time, b: Time)
    requires Valid(a) && Valid(b)
    ensures TimeOrder(a, b) == Order(Micros(a), Micros(b))
    ensures AtOrBefore(a, b) <==> TimeOrder(a, b) <= 0
  {
    DaysOrder(a, b);
    var x, y := Days(a), Days(b);
    assert Micros(a) == Rest(a) + 86400000000 * x && Micros(b) == Rest(b) + 86400000000 * y;
    RestOrder(a, b);
  }

  function Days(t: Time): int { t.day + 32 * (t.month + 13 * t.year) }

  function Rest(t: Time): int { t.micro + 1000000 * (t.second + 60 * (t.minute + 60 * t.hour)) }

  lemma DaysOrder(a: Time, b: Time)
    requires Valid(a) && Valid(b)
    ensures Then(Order(a.year, b.year), Then(Order(a.month, b.month), Order(a.day, b.day))) == Order(Days(a), Days(b))
  {
  }

  lemma RestOrder(a: Time, b: Time)
    requires Valid(a) && Valid(b)
    ensures Then(Order(a.hour, b.hour), Then(Order(a.minute, b.minute), Then(Order(a.second, b.second),
              Order(a.micro, b.micro)))) == Order(Rest(a), Rest(b))
    ensures 0 <= Rest(a) < 86400000000 && 0 <= Rest(b) < 86400000000
  {
  }

  function Pow10(w: nat): (p: nat)
    ensures p >= 1
  {
    if w == 0 then 1 else 10 * Pow10(w - 1)
  }

  function Digit(n: nat): (c: char)
    requires n < 10
    ensures '0' <= c <= '9' && c as int - '0' as int == n
  {
    '0' + n as char
  }

  /** `n` zero-padded to w digits. */
  function Padded(n: nat, w: nat): (s: string)
    ensures |s| == w
    decreases w
  {
    if w == 0 then "" else Padded(n / 10, w - 1) + [Digit(n % 10)]
  }

  function Iso(t: Time): string {
    Seconds(t) + (if t.micro == 0 then "" else "." + Padded(t.micro, 6)) + "+00:00"
  }

  function Seconds(t: Time): (s: string)
    ensures |s| == 19
  {
    Padded(t.year, 4) + "-" + Padded(t.month, 2) + "-" + Padded(t.day, 2) + "T"
    + Padded(t.hour, 2) + ":" + Padded(t.minute, 2) + ":" + Padded(t.second, 2)
  }

  // ---------------------------------------------------------------------------------------------

  lemma {:induction false} OrderOfPadded(a: nat, b: nat, w: nat)
    requires a < Pow10(w) && b < Pow10(w)
    ensures TextOrder(Padded(a, w), Padded(b, w)) == Order(a, b)
    decreases w
  {
    if w > 0 {
      OrderOfPadded(a / 10, b / 10, w - 1);
      OrderOfConcat(Padded(a / 10, w - 1), Padded(b / 10, w - 1), [Digit(a % 10)], [Digit(b % 10)]);
      OneCharOrder(Digit(a % 10), Digit(b % 10));
    }
  }

  /** A field and the separator behind it. */
  lemma OrderOfField(a: nat, b: nat, w: nat, sep: string, x: string, y: string)
    requires a < Pow10(w) && b < Pow10(w)
    ensures TextOrder(Padded(a, w) + sep + x, Padded(b, w) + sep + y) == Then(Order(a, b), TextOrder(x, y))
  {
    OrderOfPadded(a, b, w);
    assert Padded(a, w) + sep + x == Padded(a, w) + (sep + x);
    assert Padded(b, w) + sep + y == Padded(b, w) + (sep + y);
    OrderOfConcat(Padded(a, w), Padded(b, w), sep + x, sep + y);
    OrderOfConcat(sep, sep, x, y);
  }

  lemma Widths()
    ensures Pow10(2) == 100 && Pow10(4) == 10000 && Pow10(6) == 1000000
  {
    assert Pow10(3) == 1000;
    assert Pow10(5) == 100000;
  }

  function Clock(t: Time): string {
    Padded(t.hour, 2) + ":" + (Padded(t.minute, 2) + ":" + (Padded(t.second, 2) + ""))
  }

  function Date(t: Time, rest: string): string {
    Padded(t.year, 4) + "-" + (Padded(t.month, 2) + "-" + (Padded(t.day, 2) + "T" + rest))
  }

  lemma SecondsParts(t: Time)
    ensures Seconds(t) == Date(t, Clock(t))
  {
  }

  lemma OrderOfClock(a: Time, b: Time)
    requires Valid(a) && Valid(b)
    ensures TextOrder(Clock(a), Clock(b))
         == Then(Order(a.hour, b.hour), Then(Order(a.minute, b.minute), Order(a.second, b.second)))
  {
    Widths();
    OrderOfField(a.second, b.second, 2, "", "", "");
    assert Padded(a.second, 2) + "" + "" == Padded(a.second, 2) + "";
    assert Padded(b.second, 2) + "" + "" == Padded(b.second, 2) + "";
    OrderOfField(a.minute, b.minute, 2, ":", Padded(a.second, 2) + "", Padded(b.second, 2) + "");
    OrderOfField(a.hour, b.hour, 2, ":", Padded(a.minute, 2) + ":" + (Padded(a.second, 2) + ""),
                 Padded(b.minute, 2) + ":" + (Padded(b.second, 2) + ""));
  }

  lemma OrderOfSeconds(a: Time, b: Time)
    requires Valid(a) && Valid(b)
    ensures TextOrder(Seconds(a), Seconds(b)) == TimeOrder(a.(micro := 0), b.(micro := 0))
  {
    Widths();
    SecondsParts(a);
    SecondsParts(b);
    OrderOfClock(a, b);
    var x, y := Clock(a), Clock(b);
    OrderOfField(a.day, b.day, 2, "T", x, y);
    OrderOfField(a.month, b.month, 2, "-", Padded(a.day, 2) + "T" + x, Padded(b.day, 2) + "T" + y);
    OrderOfField(a.year, b.year, 4, "-", Padded(a.month, 2) + "-" + (Padded(a.day, 2) + "T" + x),
                 Padded(b.month, 2) + "-" + (Padded(b.day, 2) + "T" + y));
  }

  function Fraction(micro: nat): string {
    (if micro == 0 then "" else "." + Padded(micro, 6)) + "+00:00"
  }

  /** '+' sorts before '.', so the shape without a fraction sorts as the earliest of its second. */
  lemma OrderOfFraction(a: nat, b: nat)
    requires a < 1000000 && b < 1000000
    ensures TextOrder(Fraction(a), Fraction(b)) == Order(a, b)
  {
    Widths();
    if a != 0 && b != 0 {
      assert Fraction(a) == "." + (Padded(a, 6) + "+00:00" + "");
      assert Fraction(b) == "." + (Padded(b, 6) + "+00:00" + "");
      OrderOfConcat(".", ".", Padded(a, 6) + "+00:00" + "", Padded(b, 6) + "+00:00" + "");
      OrderOfField(a, b, 6, "+00:00", "", "");
    } else if a == 0 && b != 0 {
      assert Fraction(a)[0] == '+' && Fraction(b)[0] == '.';
    } else if a != 0 && b == 0 {
      assert Fraction(a)[0] == '.' && Fraction(b)[0] == '+';
    }
  }

  /** Text order of written timestamps is time order, across both shapes. */
  lemma IsoOrderIsTimeOrder(a: Time, b: Time)
    requires Valid(a) && Valid(b)
    ensures TextOrder(Iso(a), Iso(b)) == TimeOrder(a, b)
  {
    assert Iso(a) == Seconds(a) + Fraction(a.micro) && Iso(b) == Seconds(b) + Fraction(b.micro);
    OrderOfConcat(Seconds(a), Seconds(b), Fraction(a.micro), Fraction(b.micro));
    OrderOfSeconds(a, b);
    OrderOfFraction(a.micro, b.micro);
  }

  // ---------------------------------------------------------------------------------------------
  // Reading
  // ---------------------------------------------------------------------------------------------

  predicate AllDigits(s: string) {
    forall c | c in s :: '0' <= c <= '9'
  }

  function Number(s: string): nat
    requires AllDigits(s)
    decreases |s|
  {
    if s == "" then 0
    else
      assert Last(s) in s && forall c | c in Init(s) :: c in s;
      10 * Number(Init(s)) + (Last(s) as int - '0' as int)
  }

  lemma {:induction false} NumberOfPadded(n: nat, w: nat)
    requires n < Pow10(w)
    ensures AllDigits(Padded(n, w)) && Number(Padded(n, w)) == n
    decreases w
  {
    if w > 0 {
      NumberOfPadded(n / 10, w - 1);
      assert Init(Padded(n, w)) == Padded(n / 10, w - 1);
    }
  }

  function ReadField(s: string, at: nat, w: nat): (n: Option<nat>) {
    if at + w <= |s| && AllDigits(s[at..at + w]) then Some(Number(s[at..at + w])) else None
  }

  predicate HasText(s: string, at: nat, text: string) {
    at + |text| <= |s| && s[at..at + |text|] == text
  }

  function ReadSeconds(s: string, micro: nat): Option<Time> {
    var y, mo, d := ReadField(s, 0, 4), ReadField(s, 5, 2), ReadField(s, 8, 2);
    var h, mi, se := ReadField(s, 11, 2), ReadField(s, 14, 2), ReadField(s, 17, 2);
    if y.Some? && mo.Some? && d.Some? && h.Some? && mi.Some? && se.Some?
       && HasText(s, 4, "-") && HasText(s, 7, "-") && HasText(s, 10, "T") && HasText(s, 13, ":") && HasText(s, 16, ":")
    then
      var t := Time(y.value, mo.value, d.value, h.value, mi.value, se.value, micro);
      if Valid(t) then Some(t) else None
    else None
  }

  /** `fromisoformat` on the two shapes this cache writes; anything else is unreadable. */
  function FromIso(s: string): Option<Time> {
    if |s| == 25 && HasText(s, 19, "+00:00") then ReadSeconds(s[..19], 0)
    else if |s| == 32 && HasText(s, 19, ".") && HasText(s, 26, "+00:00") && ReadField(s, 20, 6).Some? then
      ReadSeconds(s[..19], ReadField(s, 20, 6).value)
    else None
  }

  lemma DateSlices(t: Time)
    ensures var s := Seconds(t);
            && s[0..4] == Padded(t.year, 4) && s[5..7] == Padded(t.month, 2) && s[8..10] == Padded(t.day, 2)
            && HasText(s, 4, "-") && HasText(s, 7, "-") && HasText(s, 10, "T")
  {
    var d := Padded(t.year, 4) + "-" + Padded(t.month, 2) + "-" + Padded(t.day, 2) + "T";
    var s := Seconds(t);
    assert s[..11] == d;
    assert s[0..4] == d[0..4] && s[5..7] == d[5..7] && s[8..10] == d[8..10];
  }

  lemma ClockSlices(t: Time)
    ensures var s := Seconds(t);
            && s[11..13] == Padded(t.hour, 2) && s[14..16] == Padded(t.minute, 2) && s[17..19] == Padded(t.second, 2)
            && HasText(s, 13, ":") && HasText(s, 16, ":")
  {
    var d := Padded(t.year, 4) + "-" + Padded(t.month, 2) + "-" + Padded(t.day, 2) + "T";
    var c := Padded(t.hour, 2) + ":" + Padded(t.minute, 2) + ":" + Padded(t.second, 2);
    var s := Seconds(t);
    assert s == d + c && |d| == 11;
    assert s[11..13] == c[0..2] && s[14..16] == c[3..5] && s[17..19] == c[6..8];
    assert s[13] == c[2] && s[16] == c[5];
    assert s[13..14] == [s[13]] && s[16..17] == [s[16]];
  }

  lemma ReadSecondsOfWritten(t: Time)
    requires Valid(t)
    ensures ReadSeconds(Seconds(t), t.micro) == Some(t)
  {
    Widths();
    var s := Seconds(t);
    DateSlices(t);
    ClockSlices(t);
    ReadAt(s, 0, t.year, 4);
    ReadAt(s, 5, t.month, 2);
    ReadAt(s, 8, t.day, 2);
    ReadAt(s, 11, t.hour, 2);
    ReadAt(s, 14, t.minute, 2);
    ReadAt(s, 17, t.second, 2);
  }

  lemma ReadAt(s: string, at: nat, n: nat, w: nat)
    requires n < Pow10(w) && at + w <= |s| && s[at..at + w] == Padded(n, w)
    ensures ReadField(s, at, w) == Some(n)
  {
    NumberOfPadded(n, w);
  }

  /** Reading what was written. */
  lemma FromIsoOfIso(t: Time)
    requires Valid(t)
    ensures FromIso(Iso(t)) == Some(t)
    ensures EndsWithOffset(Iso(t))
  {
    if t.micro == 0 { FromWholeSecond(t); } else { FromFraction(t); }
  }

  lemma FromWholeSecond(t: Time)
    requires Valid(t) && t.micro == 0
    ensures FromIso(Iso(t)) == Some(t) && EndsWithOffset(Iso(t))
  {
    var s := Iso(t);
    assert s == Seconds(t) + "+00:00";
    assert s[..19] == Seconds(t) && s[19..25] == "+00:00";
    ReadSecondsOfWritten(t);
  }

  lemma FromFraction(t: Time)
    requires Valid(t) && t.micro != 0
    ensures FromIso(Iso(t)) == Some(t) && EndsWithOffset(Iso(t))
  {
    Widths();
    var s, f := Iso(t), Padded(t.micro, 6);
    Middle(Seconds(t), ".", f + "+00:00", s);
    Middle(Seconds(t) + ".", f, "+00:00", s);
    Middle(Seconds(t) + "." + f, "+00:00", "", s);
    ReadAt(s, 20, t.micro, 6);
    assert s[..19] == Seconds(t);
    ReadSecondsOfWritten(t);
  }

  lemma Middle(a: string, b: string, c: string, s: string)
    requires s == a + b + c
    ensures s[|a|..|a| + |b|] == b && |s| == |a| + |b| + |c|
  {
  }

  /** SQL's `LIKE '%+00:00'`. */
  predicate EndsWithOffset(s: string) {
    |s| >= 6 && s[|s| - 6..] == "+00:00"
  }
}
