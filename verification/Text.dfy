/** Comparing text as databases and Python tuples do: character by character, a prefix first. */
module Text {

  function Order(a: int, b: int): int {
    if a < b then -1 else if a == b then 0 else 1
  }

  function Then(first: int, second: int): int {
    if first != 0 then first else second
  }

  /** Byte-by-byte text comparison. */
  function TextOrder(a: string, b: string): (o: int)
    ensures a == b ==> o == 0
    decreases |a|
  {
    if a == "" then (if b == "" then 0 else -1)
    else if b == "" then 1
    else if a[0] < b[0] then -1
    else if a[0] > b[0] then 1
    else TextOrder(a[1..], b[1..])
  }

  lemma {:induction false} OrderOfConcat(a: string, b: string, x: string, y: string)
    requires |a| == |b|
    ensures TextOrder(a + x, b + y) == Then(TextOrder(a, b), TextOrder(x, y))
    decreases |a|
  {
    if a == "" {
      assert a + x == x && b + y == y;
    } else {
      assert (a + x)[1..] == a[1..] + x && (b + y)[1..] == b[1..] + y;
      OrderOfConcat(a[1..], b[1..], x, y);
    }
  }

  lemma OneCharOrder(c: char, d: char)
    ensures TextOrder([c], [d]) == Order(c as int, d as int)
  {
    assert [c][1..] == "" && [d][1..] == "";
  }

  lemma {:induction false} TextOrderTransitive(a: string, b: string, c: string)
    requires TextOrder(a, b) <= 0 && TextOrder(b, c) <= 0
    ensures TextOrder(a, c) <= 0
    decreases |a|
  {
    if a != "" && b != "" && c != "" && a[0] == b[0] == c[0] {
      TextOrderTransitive(a[1..], b[1..], c[1..]);
    }
  }

  lemma {:induction false} TextOrderTotal(a: string, b: string)
    ensures TextOrder(a, b) <= 0 || TextOrder(b, a) <= 0
    decreases |a|
  {
    if a != "" && b != "" && a[0] == b[0] { TextOrderTotal(a[1..], b[1..]); }
  }

  lemma {:induction false} TextOrderZero(a: string, b: string)
    requires TextOrder(a, b) == 0
    ensures a == b
    decreases |a|
  {
    if a != "" && b != "" {
      TextOrderZero(a[1..], b[1..]);
      assert a == [a[0]] + a[1..] && b == [b[0]] + b[1..];
    }
  }

  lemma {:induction false} TextOrderFlips(a: string, b: string)
    ensures TextOrder(b, a) == -TextOrder(a, b)
    decreases |a|
  {
    if a != "" && b != "" && a[0] == b[0] { TextOrderFlips(a[1..], b[1..]); }
  }
}
