/**
 * The keystroke cache of the place search: `lruGet` and `lruPut` in
 * frontend/src/components/PlaceInput.jsx, over a Map that iterates in insertion order.
 */
module PlaceLru {
  import opened Prelude

  const LRU_MAX: nat := 50
  const LRU_TTL_MS := 5 * 60 * 1000

  type Results = seq<string>

  datatype Entry = Entry(key: string, results: Results, at: int)

  datatype Op = Get(key: string, now: int) | Put(key: string, results: Results, now: int)

  // ---------- One step ----------

  function Find(s: seq<Entry>, key: string): Option<Entry> {
    if s == [] then None else if s[0].key == key then Some(s[0]) else Find(s[1..], key)
  }

  /** `delete`: the entry goes, the rest keep their order. */
  function Without(s: seq<Entry>, key: string): (r: seq<Entry>)
    ensures |r| <= |s|
  {
    if s == [] then [] else (if s[0].key == key then [] else [s[0]]) + Without(s[1..], key)
  }

  function Newest<T>(s: seq<T>, n: nat): seq<T> {
    if |s| > n then s[|s| - n..] else s
  }

  predicate Stale(e: Entry, now: int) {
    now - e.at > LRU_TTL_MS
  }

  function Step(s: seq<Entry>, op: Op): seq<Entry> {
    match op
    case Put(key, results, now) => Newest(Without(s, key) + [Entry(key, results, now)], LRU_MAX)
    case Get(key, now) =>
      match Find(s, key)
      case None => s
      case Some(e) => if Stale(e, now) then Without(s, key) else Without(s, key) + [e]
  }

  function Answer(s: seq<Entry>, key: string, now: int): Option<Results> {
    match Find(s, key)
    case None => None
    case Some(e) => if Stale(e, now) then None else Some(e.results)
  }

  function Run(ops: seq<Op>): seq<Entry>
    decreases |ops|
  {
    if ops == [] then [] else Step(Run(Init(ops)), Last(ops))
  }

  // ---------- The cache ----------

  class PlaceCache {
    var lru: seq<Entry>
    ghost var past: seq<Op>

    ghost predicate Valid()
      reads this
    {
      lru == Run(past)
    }

    constructor ()
      ensures Valid() && past == []
    {
      lru, past := [], [];
    }

    method LruGet(key: string, now: int) returns (r: Option<Results>)
      requires Valid()
      modifies this
      ensures Valid() && past == old(past) + [Get(key, now)]
      ensures r == Answer(old(lru), key, now)
    {
      past := past + [Get(key, now)];
      assert Init(past) == old(past);
      var hit := Find(lru, key);
      if hit == None { return None; }
      if now - hit.value.at > LRU_TTL_MS {
        lru := Without(lru, key);
        return None;
      }
      lru := Without(lru, key);
      lru := lru + [hit.value];
      return Some(hit.value.results);
    }

    method LruPut(key: string, results: Results, now: int)
      requires Valid()
      modifies this
      ensures Valid() && past == old(past) + [Put(key, results, now)]
    {
      past := past + [Put(key, results, now)];
      assert Init(past) == old(past);
      lru := Without(lru, key);
      lru := lru + [Entry(key, results, now)];
      ghost var full := lru;
      while |lru| > LRU_MAX
        invariant past == old(past) + [Put(key, results, now)]
        invariant Newest(lru, LRU_MAX) == Newest(full, LRU_MAX)
      {
        DropOldest(lru);
        lru := lru[1..];
      }
    }
  }

  lemma DropOldest(s: seq<Entry>)
    requires |s| > LRU_MAX
    ensures Newest(s[1..], LRU_MAX) == Newest(s, LRU_MAX)
  {
  }

  // ---------- Size and keys ----------

  function Keys(s: seq<Entry>): (k: seq<string>)
    ensures |k| == |s| && forall i {:trigger k[i]} | 0 <= i < |s| :: k[i] == s[i].key
  {
    seq(|s|, i requires 0 <= i < |s| => s[i].key)
  }

  ghost predicate Distinct(k: seq<string>) {
    forall i, j | 0 <= i < j < |k| :: k[i] != k[j]
  }

  /** `delete` on keys alone. */
  function Dropped(k: seq<string>, key: string): seq<string> {
    if k == [] then [] else (if k[0] == key then [] else [k[0]]) + Dropped(k[1..], key)
  }

  lemma {:induction false} KeysWithout(s: seq<Entry>, key: string)
    ensures Keys(Without(s, key)) == Dropped(Keys(s), key)
  {
    if s != [] {
      KeysWithout(s[1..], key);
      assert Keys(s)[1..] == Keys(s[1..]);
    }
  }

  lemma {:induction false} DroppedHas(k: seq<string>, key: string, x: string)
    ensures x in Dropped(k, key) <==> x in k && x != key
  {
    if k != [] {
      DroppedHas(k[1..], key, x);
      assert k == [k[0]] + k[1..];
    }
  }

  lemma {:induction false} DroppedDistinct(k: seq<string>, key: string)
    requires Distinct(k)
    ensures Distinct(Dropped(k, key))
    ensures |Dropped(k, key)| == if key in k then |k| - 1 else |k|
  {
    if k != [] {
      var rest := k[1..];
      DroppedDistinct(rest, key);
      DroppedHas(rest, key, k[0]);
      assert k == [k[0]] + rest;
      forall j | 0 <= j < |rest| ensures rest[j] != k[0] {
        assert rest[j] == k[j + 1];
      }
    }
  }

  lemma {:induction false} DroppedAppend(a: seq<string>, b: seq<string>, key: string)
    ensures Dropped(a + b, key) == Dropped(a, key) + Dropped(b, key)
  {
    if a == [] {
      assert a + b == b;
    } else {
      assert (a + b)[1..] == a[1..] + b;
      DroppedAppend(a[1..], b, key);
    }
  }

  lemma {:induction false} FindIsAnEntry(s: seq<Entry>, key: string)
    ensures Find(s, key).Some? ==> Find(s, key).value in s && Find(s, key).value.key == key
    ensures Find(s, key).Some? <==> key in Keys(s)
  {
    if s != [] {
      FindIsAnEntry(s[1..], key);
      assert s == [s[0]] + s[1..] && Keys(s) == [s[0].key] + Keys(s[1..]);
    }
  }

  // ---------- Order is recency ----------

  /** What an operation does to a key: touches it, by a put or a hit, or finds it stale and drops it. */
  datatype Event = Touched(key: string) | Gone(key: string)

  function EventOf(s: seq<Entry>, op: Op): Option<Event> {
    match op
    case Put(key, _, _) => Some(Touched(key))
    case Get(key, now) =>
      match Find(s, key)
      case None => None
      case Some(e) => Some(if Stale(e, now) then Gone(key) else Touched(key))
  }

  /** The keys after one event, or none. */
  function After(keys: seq<string>, event: Option<Event>): seq<string> {
    match event
    case None => keys
    case Some(Gone(key)) => Dropped(keys, key)
    case Some(Touched(key)) => Dropped(keys, key) + [key]
  }

  /** Every key by its last touch, oldest first, with no limit on their number. */
  function Recency(ops: seq<Op>): seq<string>
    decreases |ops|
  {
    if ops == [] then [] else After(Recency(Init(ops)), EventOf(Run(Init(ops)), Last(ops)))
  }

  ghost predicate EndOf<T>(part: seq<T>, whole: seq<T>) {
    |part| <= |whole| && part == whole[|whole| - |part|..]
  }

  lemma EndOfAfter(part: seq<string>, whole: seq<string>, event: Option<Event>)
    requires EndOf(part, whole)
    ensures EndOf(After(part, event), After(whole, event))
  {
    var front := whole[..|whole| - |part|];
    assert whole == front + part;
    if event.Some? { DroppedAppend(front, part, event.value.key); }
  }

  lemma EndOfNewest(part: seq<string>, whole: seq<string>, n: nat)
    requires EndOf(part, whole)
    ensures EndOf(Newest(part, n), whole)
  {
  }

  lemma KeysNewest(s: seq<Entry>, n: nat)
    ensures Keys(Newest(s, n)) == Newest(Keys(s), n)
  {
  }

  lemma KeysAppend(s: seq<Entry>, e: Entry)
    ensures Keys(s + [e]) == Keys(s) + [e.key]
  {
  }

  /** The keys one step leaves: a put also trims them. */
  lemma StepKeys(s: seq<Entry>, op: Op)
    ensures op.Get? ==> Keys(Step(s, op)) == After(Keys(s), EventOf(s, op))
    ensures op.Put? ==> Keys(Step(s, op)) == Newest(After(Keys(s), EventOf(s, op)), LRU_MAX)
  {
    var rest := Without(s, op.key);
    KeysWithout(s, op.key);
    match op {
      case Put(key, results, now) =>
        KeysAppend(rest, Entry(key, results, now));
        KeysNewest(rest + [Entry(key, results, now)], LRU_MAX);
      case Get(key, now) =>
        FindIsAnEntry(s, key);
        if Find(s, key).Some? { KeysAppend(rest, Find(s, key).value); }
    }
  }

  /** In every run the Map holds the most recently touched keys, in the order they were last touched. */
  lemma {:induction false} OrderIsRecency(ops: seq<Op>)
    ensures EndOf(Keys(Run(ops)), Recency(ops))
    decreases |ops|
  {
    if ops != [] {
      OrderIsRecency(Init(ops));
      OrderStep(Run(Init(ops)), Recency(Init(ops)), Last(ops));
    }
  }

  lemma OrderStep(s: seq<Entry>, all: seq<string>, op: Op)
    requires EndOf(Keys(s), all)
    ensures EndOf(Keys(Step(s, op)), After(all, EventOf(s, op)))
  {
    var event := EventOf(s, op);
    StepKeys(s, op);
    EndOfAfter(Keys(s), all, event);
    if op.Put? { EndOfNewest(After(Keys(s), event), After(all, event), LRU_MAX); }
  }

  lemma AppendDistinct(k: seq<string>, key: string)
    requires Distinct(k) && key !in k
    ensures Distinct(k + [key])
  {
  }

  /** Never more than fifty entries, and no key twice. */
  lemma {:induction false} NeverOverfull(ops: seq<Op>)
    ensures Distinct(Keys(Run(ops))) && |Run(ops)| <= LRU_MAX
    decreases |ops|
  {
    if ops != [] {
      var before, op := Init(ops), Last(ops);
      NeverOverfull(before);
      var s := Run(before);
      StepKeys(s, op);
      DroppedDistinct(Keys(s), op.key);
      DroppedHas(Keys(s), op.key, op.key);
      AppendDistinct(Dropped(Keys(s), op.key), op.key);
      FindIsAnEntry(s, op.key);
      assert |Keys(Step(s, op))| == |Step(s, op)|;
    }
  }

  // ---------- Exactly what is held ----------

  lemma EndIsNewest(part: seq<string>, whole: seq<string>, n: nat, x: string)
    requires EndOf(part, whole) && |part| <= n && x in part
    ensures x in Newest(whole, n)
  {
    var i :| 0 <= i < |part| && part[i] == x;
    var newest := Newest(whole, n);
    assert newest[|newest| - |part| + i] == x;
  }

  lemma NewestOfEnd(part: seq<string>, whole: seq<string>, n: nat)
    requires EndOf(part, whole) && |part| >= n
    ensures Newest(part, n) == Newest(whole, n)
  {
  }

  /** Whose key an event leaves among the others. */
  lemma AfterHas(keys: seq<string>, event: Option<Event>, x: string)
    ensures x in After(keys, event)
       <==> event == Some(Touched(x)) || (x in keys && event != Some(Gone(x)))
  {
    if event.Some? { DroppedHas(keys, event.value.key, x); }
  }

  lemma AfterSize(keys: seq<string>, event: Option<Event>)
    requires Distinct(keys)
    ensures |After(keys, event)| <= |keys| + 1
  {
    if event.Some? { DroppedDistinct(keys, event.value.key); }
  }

  /** One step: a key is held after it when it was touched, or was held and is still among the fifty newest. */
  lemma HeldStep(s: seq<Entry>, all: seq<string>, op: Op, key: string)
    requires EndOf(Keys(s), all) && Distinct(Keys(s)) && |s| <= LRU_MAX && |Step(s, op)| <= LRU_MAX
    ensures key in Keys(Step(s, op)) <==>
              (EventOf(s, op) == Some(Touched(key)) || (key in Keys(s) && key in Newest(After(all, EventOf(s, op)), LRU_MAX)))
  {
    var event := EventOf(s, op);
    var part, whole, held := After(Keys(s), event), After(all, event), Keys(Step(s, op));
    StepKeys(s, op);
    EndOfAfter(Keys(s), all, event);
    AfterHas(Keys(s), event, key);
    AfterHas(all, event, key);
    AfterSize(Keys(s), event);
    OrderStep(s, all, op);
    if key in held {
      EndIsNewest(held, whole, LRU_MAX, key);
      NewestHas(part, LRU_MAX, key);
    } else {
      NewestHas(whole, LRU_MAX, key);
    }
    if op.Put? && |part| >= LRU_MAX { NewestOfEnd(part, whole, LRU_MAX); }
    if event == Some(Touched(key)) { LastIsNewest(part, LRU_MAX); }
  }

  lemma NewestHas(keys: seq<string>, n: nat, x: string)
    ensures x in Newest(keys, n) ==> x in keys
  {
  }

  lemma LastIsNewest(keys: seq<string>, n: nat)
    requires keys != [] && n > 0
    ensures Last(keys) in Newest(keys, n)
  {
    var newest := Newest(keys, n);
    assert newest[|newest| - 1] == Last(keys);
  }

  /** The `n`-th operation put `key` or hit it. */
  ghost predicate TouchedAt(ops: seq<Op>, n: nat, key: string) {
    0 < n <= |ops| && EventOf(Run(ops[..n - 1]), ops[n - 1]) == Some(Touched(key))
  }

  /** After the first `m` operations `key` is among the fifty most recently touched. */
  ghost predicate Recent(ops: seq<Op>, m: nat, key: string) {
    m <= |ops| && key in Newest(Recency(ops[..m]), LRU_MAX)
  }

  ghost predicate KeptSince(ops: seq<Op>, n: nat, key: string) {
    TouchedAt(ops, n, key) && forall m: nat | n <= m <= |ops| :: Recent(ops, m, key)
  }

  /** Touched once, and never since then outside the fifty most recently touched. */
  ghost predicate KeptRecent(ops: seq<Op>, key: string) {
    exists n: nat :: KeptSince(ops, n, key)
  }

  lemma TouchIsRecent(ops: seq<Op>, key: string)
    requires ops != [] && EventOf(Run(Init(ops)), Last(ops)) == Some(Touched(key))
    ensures key in Newest(Recency(ops), LRU_MAX)
  {
    LastIsNewest(Recency(ops), LRU_MAX);
  }

  lemma PrefixAlike(ops: seq<Op>, key: string, n: nat)
    requires ops != [] && n < |ops|
    ensures TouchedAt(ops, n, key) <==> TouchedAt(Init(ops), n, key)
    ensures Recent(ops, n, key) <==> Recent(Init(ops), n, key)
  {
    var before := Init(ops);
    assert ops[..n] == before[..n];
    if n > 0 { assert ops[..n - 1] == before[..n - 1]; }
  }

  lemma {:induction false} KeptSinceBefore(ops: seq<Op>, n: nat, key: string)
    requires n < |ops|
    ensures KeptSince(ops, n, key) <==> KeptSince(Init(ops), n, key) && key in Newest(Recency(ops), LRU_MAX)
  {
    assert ops[..|ops|] == ops;
    PrefixAlike(ops, key, n);
    forall m: nat | m < |ops| ensures Recent(ops, m, key) <==> Recent(Init(ops), m, key) {
      PrefixAlike(ops, key, m);
    }
    assert Recent(ops, |ops|, key) <==> key in Newest(Recency(ops), LRU_MAX);
  }

  lemma KeptSinceNow(ops: seq<Op>, key: string)
    requires ops != []
    ensures KeptSince(ops, |ops|, key) <==> TouchedLast(ops, key)
  {
    assert ops[..|ops|] == ops && ops[..|ops| - 1] == Init(ops);
    if TouchedLast(ops, key) { TouchIsRecent(ops, key); }
  }

  ghost predicate TouchedLast(ops: seq<Op>, key: string)
    requires ops != []
  {
    EventOf(Run(Init(ops)), Last(ops)) == Some(Touched(key))
  }

  lemma KeptRecentStep(ops: seq<Op>, key: string)
    requires ops != []
    ensures KeptRecent(ops, key) <==>
              (TouchedLast(ops, key) || (KeptRecent(Init(ops), key) && key in Newest(Recency(ops), LRU_MAX)))
  {
    KeptSinceNow(ops, key);
    forall n: nat | n < |ops|
      ensures KeptSince(ops, n, key) <==> KeptSince(Init(ops), n, key) && key in Newest(Recency(ops), LRU_MAX)
    {
      KeptSinceBefore(ops, n, key);
    }
    assert forall n: nat | KeptSince(ops, n, key) :: n == |ops| || n < |ops|;
    assert forall n: nat | KeptSince(Init(ops), n, key) :: n < |ops|;
  }

  /**
   * In every run, stale hits included, a key is held exactly when it has been touched and has stayed
   * among the fifty most recently touched ever since: eviction takes the least recently used and
   * nothing else.
   */
  lemma {:induction false} EvictsLeastRecent(ops: seq<Op>, key: string)
    ensures key in Keys(Run(ops)) <==> KeptRecent(ops, key)
    decreases |ops|
  {
    if ops != [] {
      var before := Init(ops);
      EvictsLeastRecent(before, key);
      OrderIsRecency(before);
      NeverOverfull(before);
      NeverOverfull(ops);
      HeldStep(Run(before), Recency(before), Last(ops), key);
      KeptRecentStep(ops, key);
    }
  }

  // ---------- What a get answers ----------

  function LastPut(ops: seq<Op>, key: string): (p: Option<Op>)
    ensures p.Some? ==> p.value.Put? && p.value.key == key
    decreases |ops|
  {
    if ops == [] then None
    else if Last(ops).Put? && Last(ops).key == key then Some(Last(ops))
    else LastPut(Init(ops), key)
  }

  ghost predicate FromPut(ops: seq<Op>, e: Entry) {
    LastPut(ops, e.key) == Some(Put(e.key, e.results, e.at))
  }

  lemma {:induction false} WithoutHas(s: seq<Entry>, key: string, e: Entry)
    ensures e in Without(s, key) <==> e in s && e.key != key
  {
    if s != [] {
      WithoutHas(s[1..], key, e);
      assert s == [s[0]] + s[1..];
    }
  }

  /** Whatever is held is what was last put there, as old as it was then: a hit renews nothing. */
  lemma {:induction false} HeldIsLastPut(ops: seq<Op>, e: Entry)
    requires e in Run(ops)
    ensures FromPut(ops, e)
    decreases |ops|
  {
    var before, op := Init(ops), Last(ops);
    var s := Run(before);
    WithoutHas(s, op.key, e);
    FindIsAnEntry(s, op.key);
    if e in s && !(op.Put? && e.key == op.key) { HeldIsLastPut(before, e); }
    if op.Put? { NewestIsPart(Without(s, op.key) + [Entry(op.key, op.results, op.now)], LRU_MAX, e); }
  }

  lemma NewestIsPart(s: seq<Entry>, n: nat, e: Entry)
    ensures e in Newest(s, n) ==> e in s
  {
  }

  /** The last put for `key` stored `v`, no longer ago than the time to live. */
  ghost predicate LastPutIs(ops: seq<Op>, key: string, v: Results, now: int) {
    match LastPut(ops, key)
    case None => false
    case Some(p) => p.results == v && now - p.now <= LRU_TTL_MS
  }

  /** A get answers with the last value put exactly when the key is held and that put is not too old. */
  lemma AnswerIff(ops: seq<Op>, key: string, now: int, v: Results)
    ensures Answer(Run(ops), key, now) == Some(v)
       <==> key in Keys(Run(ops)) && LastPutIs(ops, key, v, now)
  {
    FindIsAnEntry(Run(ops), key);
    if key in Keys(Run(ops)) { HeldIsLastPut(ops, Find(Run(ops), key).value); }
  }

  // ---------- From the operations alone ----------

  /** What the last operation does, told without the Map: a get touches a key that is kept and fresh. */
  function LastEvent(ops: seq<Op>): Option<Event>
    requires ops != []
    decreases |ops|, 0
  {
    match Last(ops)
    case Put(key, _, _) => Some(Touched(key))
    case Get(key, now) =>
      if !Kept(Init(ops), key) then None
      else match LastPut(Init(ops), key)
           case None => None
           case Some(p) => Some(if now - p.now > LRU_TTL_MS then Gone(key) else Touched(key))
  }

  /** The keys by last touch, told without the Map. */
  function Touches(ops: seq<Op>): seq<string>
    decreases |ops|, 1
  {
    if ops == [] then [] else After(Touches(Init(ops)), LastEvent(ops))
  }

  /** Touched, and among the fifty newest after every operation since. */
  predicate Kept(ops: seq<Op>, key: string)
    decreases |ops|, 2
  {
    ops != [] && (LastEvent(ops) == Some(Touched(key))
                  || (Kept(Init(ops), key) && key in Newest(Touches(ops), LRU_MAX)))
  }

  lemma LastEventIs(ops: seq<Op>)
    requires ops != []
    requires Kept(Init(ops), Last(ops).key) <==> Last(ops).key in Keys(Run(Init(ops)))
    ensures LastEvent(ops) == EventOf(Run(Init(ops)), Last(ops))
  {
    var before, op := Init(ops), Last(ops);
    FindIsAnEntry(Run(before), op.key);
    if Find(Run(before), op.key).Some? { HeldIsLastPut(before, Find(Run(before), op.key).value); }
  }

  /** The operations alone say what the Map holds and in which order. */
  lemma {:induction false} KeptIsHeld(ops: seq<Op>, key: string)
    ensures Touches(ops) == Recency(ops)
    ensures Kept(ops, key) <==> key in Keys(Run(ops))
    decreases |ops|
  {
    if ops != [] {
      var before := Init(ops);
      KeptIsHeld(before, Last(ops).key);
      KeptIsHeld(before, key);
      LastEventIs(ops);
      OrderIsRecency(before);
      NeverOverfull(before);
      NeverOverfull(ops);
      HeldStep(Run(before), Recency(before), Last(ops), key);
    }
  }

  /** From the operations alone: the last value put, unless too old or pushed out by fifty others. */
  lemma AnswerFromHistory(ops: seq<Op>, key: string, now: int, v: Results)
    ensures Answer(Run(ops), key, now) == Some(v) <==> Kept(ops, key) && LastPutIs(ops, key, v, now)
  {
    KeptIsHeld(ops, key);
    AnswerIff(ops, key, now, v);
  }
}
