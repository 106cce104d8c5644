/** Small vocabulary shared by the models: optional values, sequence helpers and real-number helpers. */
module Prelude {

  datatype Option<+T> = None | Some(value: T)

  function Init<T>(s: seq<T>): seq<T>
    requires |s| > 0
  {
    s[..|s| - 1]
  }

  function Last<T>(s: seq<T>): T
    requires |s| > 0
  {
    s[|s| - 1]
  }

  function Abs(x: real): real {
    if x < 0.0 then -x else x
  }

  function Min(a: real, b: real): real {
    if a < b then a else b
  }

  function Max(a: real, b: real): real {
    if a > b then a else b
  }

  ghost predicate SubMap<K, V>(a: map<K, V>, b: map<K, V>) {
    forall k | k in a :: k in b && a[k] == b[k]
  }

  lemma SubMapSize<K, V>(a: map<K, V>, b: map<K, V>)
    requires SubMap(a, b)
    ensures |a| <= |b|
    decreases |a|
  {
    if a != map[] {
      var k :| k in a;
      SubMapSize(a - {k}, b - {k});
    }
  }
}
