/**
  The per-address token bucket with its daily ceiling. `Apply` gives one call under the lock, `Run` any
  sequence of them; the class at the end is the limiter with its fields updated in place.

  A half-drop leaves the choice between equally old buckets open, so each check carries the map
  that its eviction kept, constrained by `IsEviction`.
*/
module RateLimit {
  import opened Prelude

  const MAX_BUCKETS: nat := 20000
  const IDLE_EVICTION_S := 3600.0

  type Key = string
  datatype Bucket = Bucket(tokens: real, lastRefill: real, lastSeen: real)
  type Buckets = map<Key, Bucket>

  datatype Config = Config(capacity: nat, refillPerMin: real, ceiling: int)

  datatype Decision = Allowed | DailyCeiling | PerIp(retryAfter: int)

  datatype Limiter = Limiter(buckets: Buckets, day: int, served: nat)

  datatype Op =
    | Check(key: Key, now: real, today: int, counts: bool, kept: Buckets)
    | Refund(key: Key)

  // ---------------------------------------------------------------------------------------------
  // One call
  // ---------------------------------------------------------------------------------------------

  function NotStale(b: Buckets, now: real): (recent: Buckets)
    ensures forall k :: k in recent <==> k in b && now - b[k].lastSeen <= IDLE_EVICTION_S
    ensures forall k | k in recent :: recent[k] == b[k]
  {
    map k | k in b && now - b[k].lastSeen <= IDLE_EVICTION_S :: b[k]
  }

  /** The least recently seen half is gone, whichever way ties were broken. */
  ghost predicate HalfDropped(b: Buckets, kept: Buckets) {
    && SubMap(kept, b)
    && |kept| == |b| - |b| / 2
    && forall d, k | d in b && d !in kept && k in kept :: b[d].lastSeen <= b[k].lastSeen
  }

  /** Nothing below the limit; then the stale; then, if still full, half. */
  ghost predicate IsEviction(b: Buckets, now: real, kept: Buckets) {
    if |b| < MAX_BUCKETS then kept == b
    else if |NotStale(b, now)| < MAX_BUCKETS then kept == NotStale(b, now)
    else HalfDropped(NotStale(b, now), kept)
  }

  function Roll(s: Limiter, today: int): Limiter {
    if today != s.day then s.(day := today, served := 0) else s
  }

  function Refilled(c: Config, b: Bucket, now: real): real {
    Min(c.capacity as real, b.tokens + Max(0.0, now - b.lastRefill) / 60.0 * c.refillPerMin)
  }

  function Wait(c: Config, tokens: real): int {
    ((1.0 - tokens) / Max(c.refillPerMin, 0.01) * 60.0).Floor + 1
  }

  function AtCeiling(c: Config, s: Limiter, op: Op): bool
    requires op.Check?
  {
    op.counts && Roll(s, op.today).served >= c.ceiling
  }

  /** The bucket a check finds or makes. */
  function BucketFor(c: Config, s: Limiter, op: Op): Bucket
    requires op.Check?
  {
    if op.key in s.buckets then s.buckets[op.key] else Bucket(c.capacity as real, op.now, op.now)
  }

  function Decide(c: Config, s: Limiter, op: Op): Decision
    requires op.Check?
  {
    var tokens := Refilled(c, BucketFor(c, s, op), op.now);
    if AtCeiling(c, s, op) then DailyCeiling
    else if tokens < 1.0 then PerIp(Wait(c, tokens))
    else Allowed
  }

  function Apply(c: Config, s: Limiter, op: Op): Limiter {
    match op
    case Check(key, now, today, counts, kept) =>
      var s := Roll(s, today);
      if counts && s.served >= c.ceiling then s
      else
        var tokens := Refilled(c, BucketFor(c, s, op), now);
        var others := if key in s.buckets then s.buckets else kept;
        if tokens < 1.0 then s.(buckets := others[key := Bucket(tokens, now, now)])
        else Limiter(others[key := Bucket(tokens - 1.0, now, now)], s.day, if counts then s.served + 1 else s.served)
    case Refund(key) =>
      if key !in s.buckets then s
      else
        var b := s.buckets[key];
        Limiter(s.buckets[key := b.(tokens := Min(c.capacity as real, b.tokens + 1.0))], s.day,
                if s.served > 0 then s.served - 1 else 0)
  }

  /** The eviction happens only for a new key that got past the ceiling. */
  ghost predicate Legal(c: Config, s: Limiter, op: Op) {
    op.Check? && !AtCeiling(c, s, op) && op.key !in s.buckets ==> IsEviction(s.buckets, op.now, op.kept)
  }

  function Run(c: Config, s: Limiter, ops: seq<Op>): Limiter
    decreases |ops|
  {
    if ops == [] then s else Apply(c, Run(c, s, Init(ops)), Last(ops))
  }

  ghost predicate LegalRun(c: Config, s: Limiter, ops: seq<Op>)
    decreases |ops|
  {
    ops == [] || (LegalRun(c, s, Init(ops)) && Legal(c, Run(c, s, Init(ops)), Last(ops)))
  }

  // ---------------------------------------------------------------------------------------------
  // What every run keeps
  // ---------------------------------------------------------------------------------------------

  ghost predicate GoodConfig(c: Config) {
    c.refillPerMin >= 0.0
  }

  ghost predicate Sound(c: Config, s: Limiter) {
    && |s.buckets| <= MAX_BUCKETS
    && (forall k | k in s.buckets :: GoodBucket(c, s.buckets[k]))
    && (s.served == 0 || s.served <= c.ceiling)
  }

  lemma EvictionMakesRoom(b: Buckets, now: real, kept: Buckets)
    requires |b| <= MAX_BUCKETS && IsEviction(b, now, kept)
    ensures |kept| < MAX_BUCKETS && SubMap(kept, b)
  {
    SubMapSize(NotStale(b, now), b);
  }

  lemma RefilledBounds(c: Config, b: Bucket, now: real)
    requires GoodConfig(c) && 0.0 <= b.tokens <= c.capacity as real
    ensures b.tokens <= Refilled(c, b, now) <= c.capacity as real
  {
    assert Max(0.0, now - b.lastRefill) / 60.0 * c.refillPerMin >= 0.0;
  }

  lemma UpdateSize(b: Buckets, k: Key, v: Bucket)
    ensures |b[k := v]| == if k in b then |b| else |b| + 1
  {
    if k in b {
      assert b[k := v].Keys == b.Keys;
    } else {
      assert b[k := v].Keys == b.Keys + {k};
    }
    assert |b[k := v]| == |b[k := v].Keys| && |b| == |b.Keys|;
  }

  ghost predicate GoodBucket(c: Config, b: Bucket) {
    0.0 <= b.tokens <= c.capacity as real && b.lastRefill == b.lastSeen
  }

  /** What a check leaves of a bucket that has been refilled to `tokens`. */
  function Charged(tokens: real, now: real): Bucket {
    Bucket(if tokens < 1.0 then tokens else tokens - 1.0, now, now)
  }

  function OthersOf(s: Limiter, op: Op): Buckets
    requires op.Check?
  {
    if op.key in s.buckets then s.buckets else op.kept
  }

  /** A check past the ceiling writes one bucket, and counts what it allows. */
  lemma CheckWrites(c: Config, s: Limiter, op: Op, tokens: real)
    requires op.Check? && !AtCeiling(c, s, op) && tokens == Refilled(c, BucketFor(c, s, op), op.now)
    ensures Apply(c, s, op).buckets == OthersOf(s, op)[op.key := Charged(tokens, op.now)]
    ensures Apply(c, s, op).day == op.today
    ensures Apply(c, s, op).served == Roll(s, op.today).served + (if tokens >= 1.0 && op.counts then 1 else 0)
    ensures Decide(c, s, op) == if tokens < 1.0 then PerIp(Wait(c, tokens)) else Allowed
  {
  }

  /** The bucket a check finds or makes is a good one. */
  lemma BucketForIsGood(c: Config, s: Limiter, op: Op)
    requires op.Check? && c.capacity >= 0 && (op.key in s.buckets ==> GoodBucket(c, s.buckets[op.key]))
    ensures 0.0 <= BucketFor(c, s, op).tokens <= c.capacity as real
  {
  }

  lemma ChargedIsGood(c: Config, tokens: real, now: real)
    requires 0.0 <= tokens <= c.capacity as real
    ensures GoodBucket(c, Charged(tokens, now))
  {
  }

  /** The map a check writes into, before its own key. */
  lemma CheckedBuckets(c: Config, s: Limiter, op: Op)
    requires GoodConfig(c) && Sound(c, s) && Legal(c, s, op) && op.Check? && !AtCeiling(c, s, op)
    ensures exists b: Bucket :: GoodBucket(c, b) && b.lastRefill == op.now
              && Apply(c, s, op).buckets == OthersOf(s, op)[op.key := b] && SubMap(OthersOf(s, op), s.buckets)
              && |OthersOf(s, op)[op.key := b]| <= MAX_BUCKETS
  {
    var tokens := Refilled(c, BucketFor(c, s, op), op.now);
    BucketForIsGood(c, s, op);
    RefilledBounds(c, BucketFor(c, s, op), op.now);
    if op.key !in s.buckets { EvictionMakesRoom(s.buckets, op.now, op.kept); }
    UpdateSize(OthersOf(s, op), op.key, Charged(tokens, op.now));
    CheckWrites(c, s, op, tokens);
    ChargedIsGood(c, tokens, op.now);
  }

  lemma ApplyKeepsSound(c: Config, s: Limiter, op: Op)
    requires GoodConfig(c) && Sound(c, s) && Legal(c, s, op)
    ensures Sound(c, Apply(c, s, op))
  {
    match op {
      case Check(_, _, _, _, _) =>
        if !AtCeiling(c, s, op) { CheckedBuckets(c, s, op); }
      case Refund(k) =>
        if k in s.buckets {
          UpdateSize(s.buckets, k, Apply(c, s, op).buckets[k]);
          assert GoodBucket(c, s.buckets[k]);
        }
    }
  }

  /** Over any run: never more than MAX_BUCKETS, tokens within [0, capacity], the ceiling respected. */
  lemma {:induction false} RunsAreSound(c: Config, s: Limiter, ops: seq<Op>)
    requires GoodConfig(c) && Sound(c, s) && LegalRun(c, s, ops)
    ensures Sound(c, Run(c, s, ops))
    decreases |ops|
  {
    if ops != [] {
      RunsAreSound(c, s, Init(ops));
      ApplyKeepsSound(c, Run(c, s, Init(ops)), Last(ops));
    }
  }

  // ---------------------------------------------------------------------------------------------
  // The window bound
  // ---------------------------------------------------------------------------------------------

  /** No operation of the run takes this key's bucket away. */
  ghost predicate KeepsKey(c: Config, s: Limiter, ops: seq<Op>, k: Key)
    decreases |ops|
  {
    ops == [] || (KeepsKey(c, s, Init(ops), k)
                  && (k in Run(c, s, Init(ops)).buckets ==> k in Run(c, s, ops).buckets))
  }

  /** Checks happen in lock order at times between t0 and t1. */
  ghost predicate InWindow(ops: seq<Op>, t0: real, t1: real)
    decreases |ops|
  {
    if ops == [] then t0 <= t1
    else if Last(ops).Check? then t0 <= Last(ops).now <= t1 && InWindow(Init(ops), t0, Last(ops).now)
    else InWindow(Init(ops), t0, t1)
  }

  function AllowedCount(c: Config, s: Limiter, ops: seq<Op>, k: Key): nat
    decreases |ops|
  {
    if ops == [] then 0
    else
      AllowedCount(c, s, Init(ops), k)
      + (if Last(ops).Check? && Last(ops).key == k && Decide(c, Run(c, s, Init(ops)), Last(ops)).Allowed? then 1 else 0)
  }

  function RefundCount(ops: seq<Op>, k: Key): nat
    decreases |ops|
  {
    if ops == [] then 0 else RefundCount(Init(ops), k) + (if Last(ops) == Refund(k) then 1 else 0)
  }

  /** What this key could spend at time t: its refilled bucket, or a full one it would be given. */
  function Purse(c: Config, s: Limiter, k: Key, t: real): real {
    if k in s.buckets then Refilled(c, s.buckets[k], t) else c.capacity as real
  }

  ghost predicate SeenBy(s: Limiter, k: Key, t: real) {
    k in s.buckets ==> s.buckets[k].lastRefill <= t
  }

  lemma RefillRate(c: Config, b: Bucket, t: real, u: real)
    requires GoodConfig(c) && b.lastRefill <= t <= u
    ensures Refilled(c, b, u) <= Refilled(c, b, t) + c.refillPerMin * (u - t) / 60.0
  {
    assert (u - b.lastRefill) / 60.0 * c.refillPerMin
        == (t - b.lastRefill) / 60.0 * c.refillPerMin + c.refillPerMin * (u - t) / 60.0;
    assert c.refillPerMin * (u - t) >= 0.0;
  }

  lemma PurseGrows(c: Config, s: Limiter, k: Key, t: real, u: real)
    requires GoodConfig(c) && t <= u && SeenBy(s, k, t)
    ensures Purse(c, s, k, u) <= Purse(c, s, k, t) + c.refillPerMin * (u - t) / 60.0
  {
    if k in s.buckets {
      RefillRate(c, s.buckets[k], t, u);
    } else {
      assert c.refillPerMin * (u - t) >= 0.0;
    }
  }

  /** Another key's call leaves this one's bucket alone. */
  lemma OtherKeyUntouched(c: Config, s: Limiter, op: Op, k: Key)
    requires GoodConfig(c) && Sound(c, s) && Legal(c, s, op) && op.key != k
    requires k in s.buckets ==> k in Apply(c, s, op).buckets
    ensures k in s.buckets <==> k in Apply(c, s, op).buckets
    ensures k in s.buckets ==> Apply(c, s, op).buckets[k] == s.buckets[k]
  {
    if op.Check? && !AtCeiling(c, s, op) { CheckedBuckets(c, s, op); }
  }

  /** One call against the purse, at its own time. */
  lemma PurseStep(c: Config, s: Limiter, op: Op, k: Key, t: real)
    requires GoodConfig(c) && Sound(c, s) && Legal(c, s, op) && SeenBy(s, k, t)
    requires op.Check? ==> op.now == t
    requires k in s.buckets ==> k in Apply(c, s, op).buckets
    ensures SeenBy(Apply(c, s, op), k, t)
    ensures var spent := if op.Check? && op.key == k && Decide(c, s, op).Allowed? then 1.0 else 0.0;
            var given := if op == Refund(k) then 1.0 else 0.0;
            Purse(c, Apply(c, s, op), k, t) + spent <= Purse(c, s, k, t) + given
  {
    if op.key != k {
      OtherKeyUntouched(c, s, op, k);
    } else if op.Check? {
      OwnCheckSpends(c, s, op);
    } else if k in s.buckets {
      RefundRaises(c, s.buckets[k], t);
    }
  }

  /** A refund is worth at most a token, at any time. */
  lemma RefundRaises(c: Config, b: Bucket, t: real)
    ensures Refilled(c, b.(tokens := Min(c.capacity as real, b.tokens + 1.0)), t) <= Refilled(c, b, t) + 1.0
  {
    CappedTwice(c.capacity as real, b.tokens, Max(0.0, t - b.lastRefill) / 60.0 * c.refillPerMin);
  }

  lemma CappedTwice(cap: real, tokens: real, gain: real)
    ensures Min(cap, Min(cap, tokens + 1.0) + gain) <= Min(cap, tokens + gain) + 1.0
  {
  }

  /** At the moment of the check nothing more has come in. */
  lemma RefilledAtOnce(c: Config, tokens: real, now: real)
    requires tokens <= c.capacity as real
    ensures Refilled(c, Bucket(tokens, now, now), now) == tokens
  {
    assert Max(0.0, now - now) / 60.0 * c.refillPerMin == 0.0;
  }

  /** What a key could spend is what its check finds. */
  lemma PurseIsFound(c: Config, s: Limiter, op: Op)
    requires op.Check?
    ensures Refilled(c, BucketFor(c, s, op), op.now) == Purse(c, s, op.key, op.now)
  {
    if op.key !in s.buckets { RefilledAtOnce(c, c.capacity as real, op.now); }
  }

  lemma OwnCheckSpends(c: Config, s: Limiter, op: Op)
    requires GoodConfig(c) && Sound(c, s) && Legal(c, s, op) && op.Check? && SeenBy(s, op.key, op.now)
    ensures SeenBy(Apply(c, s, op), op.key, op.now)
    ensures Purse(c, Apply(c, s, op), op.key, op.now) + (if Decide(c, s, op).Allowed? then 1.0 else 0.0)
         == Purse(c, s, op.key, op.now)
  {
    if !AtCeiling(c, s, op) {
      var tokens := Refilled(c, BucketFor(c, s, op), op.now);
      BucketForIsGood(c, s, op);
      RefilledBounds(c, BucketFor(c, s, op), op.now);
      PurseIsFound(c, s, op);
      CheckWrites(c, s, op, tokens);
      RefilledAtOnce(c, Charged(tokens, op.now).tokens, op.now);
    }
  }

  /** Allowed requests, and what is left to spend, are paid for by the purse, the refill and the refunds. */
  lemma {:induction false} PurseOverRun(c: Config, s: Limiter, ops: seq<Op>, k: Key, t0: real, t1: real)
    requires GoodConfig(c) && Sound(c, s) && LegalRun(c, s, ops)
    requires KeepsKey(c, s, ops, k) && InWindow(ops, t0, t1) && SeenBy(s, k, t0)
    ensures t0 <= t1 && SeenBy(Run(c, s, ops), k, t1)
    ensures AllowedCount(c, s, ops, k) as real + Purse(c, Run(c, s, ops), k, t1)
         <= Purse(c, s, k, t0) + c.refillPerMin * (t1 - t0) / 60.0 + RefundCount(ops, k) as real
    decreases |ops|
  {
    if ops == [] {
      PurseGrows(c, s, k, t0, t1);
    } else {
      var op, before := Last(ops), Init(ops);
      var u := if op.Check? then op.now else t1;
      PurseOverRun(c, s, before, k, t0, u);
      RunsAreSound(c, s, before);
      var mid := Run(c, s, before);
      PurseStep(c, mid, op, k, u);
      PurseGrows(c, Apply(c, mid, op), k, u, t1);
      assert c.refillPerMin * (u - t0) / 60.0 + c.refillPerMin * (t1 - u) / 60.0 == c.refillPerMin * (t1 - t0) / 60.0;
    }
  }

  /** The token-bucket promise: no window of T seconds admits more than capacity + refill * T / 60, net of refunds. */
  lemma WindowBound(c: Config, s: Limiter, ops: seq<Op>, k: Key, t0: real, t1: real)
    requires GoodConfig(c) && Sound(c, s) && LegalRun(c, s, ops)
    requires KeepsKey(c, s, ops, k) && InWindow(ops, t0, t1) && SeenBy(s, k, t0)
    ensures AllowedCount(c, s, ops, k) as real - RefundCount(ops, k) as real
         <= c.capacity as real + c.refillPerMin * (t1 - t0) / 60.0
  {
    PurseOverRun(c, s, ops, k, t0, t1);
    RunsAreSound(c, s, ops);
    if k in Run(c, s, ops).buckets {
      RefilledBounds(c, Run(c, s, ops).buckets[k], t1);
    }
  }

  // ---------------------------------------------------------------------------------------------
  // Eviction of idle buckets cannot be seen
  // ---------------------------------------------------------------------------------------------

  /** The same limiter without any eviction. */
  function ApplyUnbounded(c: Config, s: Limiter, op: Op): Limiter {
    Apply(c, s, if op.Check? then op.(kept := s.buckets) else op)
  }

  function RunUnbounded(c: Config, s: Limiter, ops: seq<Op>): Limiter
    decreases |ops|
  {
    if ops == [] then s else ApplyUnbounded(c, RunUnbounded(c, s, Init(ops)), Last(ops))
  }

  /** Checks only, and never so many active buckets that the younger half has to be chosen. */
  ghost predicate StaleOnly(c: Config, s: Limiter, ops: seq<Op>)
    decreases |ops|
  {
    ops == [] || (
      && StaleOnly(c, s, Init(ops))
      && Last(ops).Check?
      && (Last(ops).kept == Run(c, s, Init(ops)).buckets
          || Last(ops).kept == NotStale(Run(c, s, Init(ops)).buckets, Last(ops).now)))
  }

  /** Every bucket of the first is in the second; the second's others have been idle for the whole limit. */
  ghost predicate Twin(c: Config, s: Limiter, u: Limiter, t: real) {
    && s.day == u.day && s.served == u.served
    && SubMap(s.buckets, u.buckets)
    && (forall k | k in u.buckets :: GoodBucket(c, u.buckets[k]) && u.buckets[k].lastSeen <= t)
    && (forall k | k in u.buckets && k !in s.buckets :: t - u.buckets[k].lastSeen > IDLE_EVICTION_S)
  }

  /** An hour refills any bucket exactly when 60 * refill covers the capacity. */
  lemma IdleRefillsIff(c: Config)
    requires GoodConfig(c)
    ensures (forall b, now | GoodBucket(c, b) && now - b.lastSeen > IDLE_EVICTION_S ::
               Refilled(c, b, now) == c.capacity as real)
            <==> 60.0 * c.refillPerMin >= c.capacity as real
  {
    if 60.0 * c.refillPerMin >= c.capacity as real {
      forall b, now | GoodBucket(c, b) && now - b.lastSeen > IDLE_EVICTION_S
        ensures Refilled(c, b, now) == c.capacity as real
      {
        IdleRefills(c, b, now);
      }
    } else {
      var b := Bucket(0.0, 0.0, 0.0);
      var now := if c.refillPerMin == 0.0 then 7200.0
                 else (c.capacity as real * 60.0 / c.refillPerMin + IDLE_EVICTION_S) / 2.0;
      NotYetRefilled(c, now);
      assert GoodBucket(c, b) && now - b.lastSeen > IDLE_EVICTION_S;
    }
  }

  lemma IdleRefills(c: Config, b: Bucket, now: real)
    requires GoodConfig(c) && 60.0 * c.refillPerMin >= c.capacity as real
    requires GoodBucket(c, b) && now - b.lastSeen > IDLE_EVICTION_S
    ensures Refilled(c, b, now) == c.capacity as real
  {
    var minutes := (now - b.lastRefill) / 60.0;
    assert minutes >= 60.0;
    assert (minutes - 60.0) * c.refillPerMin >= 0.0;
  }

  lemma NotYetRefilled(c: Config, now: real)
    requires GoodConfig(c) && 60.0 * c.refillPerMin < c.capacity as real
    requires now == if c.refillPerMin == 0.0 then 7200.0
                    else (c.capacity as real * 60.0 / c.refillPerMin + IDLE_EVICTION_S) / 2.0
    ensures now > IDLE_EVICTION_S
    ensures Refilled(c, Bucket(0.0, 0.0, 0.0), now) < c.capacity as real
  {
    var r := c.refillPerMin;
    if r > 0.0 {
      var full := c.capacity as real * 60.0 / r;
      assert full * r == c.capacity as real * 60.0;
      assert (full - IDLE_EVICTION_S) * r > 0.0;
      assert now * r < full * r;
      assert now / 60.0 * r == now * r / 60.0;
    }
  }

  lemma TwinLater(c: Config, s: Limiter, u: Limiter, t: real, later: real)
    requires Twin(c, s, u, t) && t <= later
    ensures Twin(c, s, u, later)
  {
  }

  /** The missing bucket is a full one: the decision and the tokens agree. */
  lemma TwinDecides(c: Config, s: Limiter, u: Limiter, op: Op)
    requires GoodConfig(c) && 60.0 * c.refillPerMin >= c.capacity as real
    requires op.Check? && Twin(c, s, u, op.now)
    ensures Refilled(c, BucketFor(c, s, op), op.now) == Refilled(c, BucketFor(c, u, op), op.now)
    ensures Decide(c, s, op) == Decide(c, u, op)
  {
    if op.key in u.buckets && op.key !in s.buckets {
      IdleRefills(c, u.buckets[op.key], op.now);
      assert Refilled(c, Bucket(c.capacity as real, op.now, op.now), op.now) == c.capacity as real;
    }
  }

  lemma TwinStep(c: Config, s: Limiter, u: Limiter, op: Op)
    requires GoodConfig(c) && 60.0 * c.refillPerMin >= c.capacity as real
    requires op.Check? && Twin(c, s, u, op.now)
    requires op.kept == s.buckets || op.kept == NotStale(s.buckets, op.now)
    ensures Twin(c, Apply(c, s, op), ApplyUnbounded(c, u, op), op.now)
  {
    TwinDecides(c, s, u, op);
    if !AtCeiling(c, s, op) {
      var tokens, all := Refilled(c, BucketFor(c, u, op), op.now), op.(kept := u.buckets);
      BucketForIsGood(c, u, op);
      RefilledBounds(c, BucketFor(c, u, op), op.now);
      CheckWrites(c, s, op, tokens);
      CheckWrites(c, u, all, tokens);
      ChargedIsGood(c, tokens, op.now);
      TwinWrites(c, s, u, op, Charged(tokens, op.now));
    }
  }

  lemma TwinWrites(c: Config, s: Limiter, u: Limiter, op: Op, b: Bucket)
    requires op.Check? && Twin(c, s, u, op.now) && GoodBucket(c, b) && b.lastSeen == op.now
    requires op.kept == s.buckets || op.kept == NotStale(s.buckets, op.now)
    ensures var s', u' := s.(buckets := OthersOf(s, op)[op.key := b]), u.(buckets := u.buckets[op.key := b]);
            Twin(c, s', u', op.now)
  {
  }

  /** In any run of checks that never needs the half-drop, no decision reveals an eviction. */
  lemma {:induction false} StaleEvictionUnobservable(
    c: Config, s: Limiter, ops: seq<Op>, next: Op, t0: real, t1: real)
    requires GoodConfig(c) && 60.0 * c.refillPerMin >= c.capacity as real
    requires Twin(c, s, s, t0) && InWindow(ops, t0, t1) && StaleOnly(c, s, ops)
    requires next.Check? && t1 <= next.now
    ensures Twin(c, Run(c, s, ops), RunUnbounded(c, s, ops), t1)
    ensures Decide(c, Run(c, s, ops), next) == Decide(c, RunUnbounded(c, s, ops), next)
    decreases |ops|
  {
    if ops == [] {
      TwinLater(c, s, s, t0, t1);
    } else {
      var op := Last(ops);
      StaleEvictionUnobservable(c, s, Init(ops), op, t0, op.now);
      TwinStep(c, Run(c, s, Init(ops)), RunUnbounded(c, s, Init(ops)), op);
      TwinLater(c, Run(c, s, ops), RunUnbounded(c, s, ops), op.now, t1);
    }
    TwinLater(c, Run(c, s, ops), RunUnbounded(c, s, ops), t1, next.now);
    TwinDecides(c, Run(c, s, ops), RunUnbounded(c, s, ops), next);
  }

  // ---------------------------------------------------------------------------------------------
  // Retry-After and the daily counter
  // ---------------------------------------------------------------------------------------------

  /** No call of the run is about this key. What the others do may evict it. */
  ghost predicate LeavesAlone(ops: seq<Op>, k: Key) {
    forall op | op in ops :: op.key != k
  }

  lemma OtherKeyKeptOrGone(c: Config, s: Limiter, op: Op, k: Key)
    requires GoodConfig(c) && Sound(c, s) && Legal(c, s, op) && op.key != k && k in Apply(c, s, op).buckets
    ensures k in s.buckets && Apply(c, s, op).buckets[k] == s.buckets[k]
  {
    if op.Check? && !AtCeiling(c, s, op) { CheckedBuckets(c, s, op); }
  }

  /** Whatever the others do, the bucket is as it was, or it is gone. */
  lemma {:induction false} KeptOrGone(c: Config, s: Limiter, ops: seq<Op>, k: Key)
    requires GoodConfig(c) && Sound(c, s) && LegalRun(c, s, ops) && LeavesAlone(ops, k)
    ensures k in Run(c, s, ops).buckets ==> k in s.buckets && Run(c, s, ops).buckets[k] == s.buckets[k]
    decreases |ops|
  {
    if ops != [] && k in Run(c, s, ops).buckets {
      assert forall op | op in Init(ops) :: op in ops;
      assert Last(ops) in ops;
      RunsAreSound(c, s, Init(ops));
      OtherKeyKeptOrGone(c, Run(c, s, Init(ops)), Last(ops), k);
      KeptOrGone(c, s, Init(ops), k);
    }
  }

  lemma WaitIsEnough(c: Config, tokens: real, waited: real)
    requires c.refillPerMin >= 0.01 && tokens < 1.0 && waited >= Wait(c, tokens) as real
    ensures tokens + waited / 60.0 * c.refillPerMin >= 1.0
  {
    var r := c.refillPerMin;
    var minutes := (1.0 - tokens) / r;
    assert minutes * r == 1.0 - tokens;
    assert waited >= minutes * 60.0;
    MoreMinutes(minutes, waited / 60.0, r);
  }

  lemma MoreMinutes(a: real, b: real, r: real)
    requires a <= b && r >= 0.0
    ensures a * r <= b * r
  {
    assert (b - a) * r >= 0.0;
  }

  /**
    A per-address refusal names a wait after which, whatever other addresses did meanwhile, the same
    address is not refused for want of a token: its bucket has refilled, or was evicted and is new.
  */
  lemma RetryAfterIsHonest(c: Config, s: Limiter, denied: Op, between: seq<Op>, again: Op)
    requires c.refillPerMin >= 0.01 && c.capacity >= 1 && Sound(c, s)
    requires denied.Check? && Legal(c, s, denied) && Decide(c, s, denied).PerIp?
    requires LegalRun(c, Apply(c, s, denied), between) && LeavesAlone(between, denied.key)
    requires again.Check? && again.key == denied.key
    requires again.now >= denied.now + Decide(c, s, denied).retryAfter as real
    ensures !Decide(c, Run(c, Apply(c, s, denied), between), again).PerIp?
    ensures Decide(c, s, denied).retryAfter >= 1
  {
    var after, tokens := Apply(c, s, denied), Refilled(c, BucketFor(c, s, denied), denied.now);
    var later := Run(c, after, between);
    CheckWrites(c, s, denied, tokens);
    ApplyKeepsSound(c, s, denied);
    KeptOrGone(c, after, between, denied.key);
    WaitIsPositive(c, tokens);
    if denied.key in later.buckets {
      EnoughByThen(c, tokens, denied.now, again.now);
    } else {
      RefilledAtOnce(c, c.capacity as real, again.now);
    }
  }

  lemma WaitIsPositive(c: Config, tokens: real)
    requires tokens < 1.0
    ensures Wait(c, tokens) >= 1
  {
    QuotientSign(1.0 - tokens, Max(c.refillPerMin, 0.01));
  }

  lemma QuotientSign(x: real, y: real)
    requires x >= 0.0 && y > 0.0
    ensures x / y * 60.0 >= 0.0
  {
    var q := x / y;
    assert q * y == x;
    if q < 0.0 { ProductSign(-q, y); }
  }

  lemma ProductSign(x: real, y: real)
    requires x > 0.0 && y > 0.0
    ensures x * y > 0.0
  {
  }

  lemma EnoughByThen(c: Config, tokens: real, then0: real, now: real)
    requires c.refillPerMin >= 0.01 && c.capacity >= 1 && tokens < 1.0
    requires now >= then0 + Wait(c, tokens) as real && Wait(c, tokens) >= 1
    ensures Refilled(c, Bucket(tokens, then0, then0), now) >= 1.0
  {
    WaitIsEnough(c, tokens, now - then0);
  }

  /** After exactly the wait named for them, these tokens have become one. */
  predicate WaitSuffices(c: Config, tokens: real) {
    tokens + Wait(c, tokens) as real / 60.0 * c.refillPerMin >= 1.0
  }

  /** The named wait is long enough for every refused bucket exactly when the refill is at least 0.01 a minute. */
  lemma WaitAlwaysSufficesIff(c: Config)
    requires GoodConfig(c)
    ensures (forall tokens | 0.0 <= tokens < 1.0 :: WaitSuffices(c, tokens)) <==> c.refillPerMin >= 0.01
  {
    if c.refillPerMin >= 0.01 {
      forall tokens | 0.0 <= tokens < 1.0 ensures WaitSuffices(c, tokens) {
        WaitIsEnough(c, tokens, Wait(c, tokens) as real);
      }
    } else {
      OneSecondIsTooShort(c);
    }
  }

  /** With less, a bucket just short of a token is told to wait one second, in which it gains less than it lacks. */
  lemma OneSecondIsTooShort(c: Config)
    requires 0.0 <= c.refillPerMin < 0.01
    ensures exists tokens :: 0.0 <= tokens < 1.0 && Wait(c, tokens) == 1 && !WaitSuffices(c, tokens)
  {
    var lacks := (c.refillPerMin / 60.0 + 1.0 / 6000.0) / 2.0;
    var tokens := 1.0 - lacks;
    assert Max(c.refillPerMin, 0.01) == 0.01;
    assert 0.0 < lacks < 1.0 / 6000.0;
    assert (1.0 - tokens) / 0.01 * 60.0 == lacks * 6000.0;
    assert Wait(c, tokens) == 1;
    assert 1.0 / 60.0 * c.refillPerMin == c.refillPerMin / 60.0 < lacks;
    assert !WaitSuffices(c, tokens);
  }

  /** Below 0.01 a minute the named wait is computed from 0.01 and can be too short: 6001 seconds here. */
  lemma RetryAfterTooShort(c: Config, s: Limiter, denied: Op, again: Op)
    requires c == Config(1, 0.005, 10) && s.day == 0 && s.served == 0
    requires "a" in s.buckets && s.buckets["a"] == Bucket(0.0, 0.0, 0.0)
    requires denied == Check("a", 0.0, 0, true, s.buckets) && again == Check("a", 6001.0, 0, true, s.buckets)
    ensures Decide(c, s, denied) == PerIp(6001)
    ensures Decide(c, Apply(c, s, denied), again).PerIp?
  {
    var b := Bucket(0.0, 0.0, 0.0);
    assert Refilled(c, b, 0.0) == 0.0 by { assert 0.0 / 60.0 * c.refillPerMin == 0.0; }
    WaitFromNothing(c);
    DeniedForTokens(c, s, denied, 0.0);
    TooLittleByThen(c, b);
    DeniedForTokens(c, Apply(c, s, denied), again, Refilled(c, b, 6001.0));
  }

  lemma DeniedForTokens(c: Config, s: Limiter, op: Op, tokens: real)
    requires op.Check? && !AtCeiling(c, s, op)
    requires tokens == Refilled(c, BucketFor(c, s, op), op.now) && tokens < 1.0
    ensures Decide(c, s, op) == PerIp(Wait(c, tokens))
    ensures Apply(c, s, op).served == Roll(s, op.today).served && Apply(c, s, op).day == op.today
    ensures op.key in s.buckets ==>
              Apply(c, s, op).buckets == s.buckets[op.key := Bucket(tokens, op.now, op.now)]
  {
  }

  lemma WaitFromNothing(c: Config)
    requires c == Config(1, 0.005, 10)
    ensures Wait(c, 0.0) == 6001
  {
    assert Max(c.refillPerMin, 0.01) == 0.01;
    assert (1.0 - 0.0) / 0.01 * 60.0 == 6000.0;
  }

  lemma TooLittleByThen(c: Config, b: Bucket)
    requires c == Config(1, 0.005, 10) && b == Bucket(0.0, 0.0, 0.0)
    ensures Refilled(c, b, 6001.0) < 1.0
  {
    assert Max(0.0, 6001.0 - b.lastRefill) == 6001.0;
    assert 6001.0 / 60.0 < 101.0;
  }

  /** Every check of the run sees the day the counter belongs to. */
  ghost predicate SameDay(s: Limiter, ops: seq<Op>) {
    forall op | op in ops && op.Check? :: op.today == s.day
  }

  function CountedAllows(c: Config, s: Limiter, ops: seq<Op>): nat
    decreases |ops|
  {
    if ops == [] then 0
    else
      CountedAllows(c, s, Init(ops))
      + (if Last(ops).Check? && Last(ops).counts && Decide(c, Run(c, s, Init(ops)), Last(ops)).Allowed? then 1 else 0)
  }

  predicate LiveRefund(s: Limiter, op: Op) {
    op.Refund? && op.key in s.buckets
  }

  function LiveRefunds(c: Config, s: Limiter, ops: seq<Op>): nat
    decreases |ops|
  {
    if ops == [] then 0
    else LiveRefunds(c, s, Init(ops)) + (if LiveRefund(Run(c, s, Init(ops)), Last(ops)) then 1 else 0)
  }

  /** Live refunds that find the counter already at zero. */
  function Clamped(c: Config, s: Limiter, ops: seq<Op>): nat
    decreases |ops|
  {
    if ops == [] then 0
    else
      Clamped(c, s, Init(ops))
      + (if LiveRefund(Run(c, s, Init(ops)), Last(ops)) && Run(c, s, Init(ops)).served == 0 then 1 else 0)
  }

  /** Within a day the published number is counted allows minus live refunds, plus what clamping at zero hid;
      so it is exactly the difference if and only if no refund found it at zero. */
  lemma {:induction false} ServedTodayBalances(c: Config, s: Limiter, ops: seq<Op>)
    requires SameDay(s, ops)
    ensures Run(c, s, ops).day == s.day
    ensures Run(c, s, ops).served + LiveRefunds(c, s, ops)
         == s.served + CountedAllows(c, s, ops) + Clamped(c, s, ops)
    ensures Run(c, s, ops).served == s.served + CountedAllows(c, s, ops) - LiveRefunds(c, s, ops)
            <==> Clamped(c, s, ops) == 0
    decreases |ops|
  {
    if ops != [] {
      assert forall op | op in Init(ops) :: op in ops;
      assert Last(ops) in ops;
      ServedTodayBalances(c, s, Init(ops));
    }
  }

  // ---------------------------------------------------------------------------------------------
  // The limiter in place
  // ---------------------------------------------------------------------------------------------

  ghost predicate Oldest(b: Buckets, k: Key) {
    k in b && forall j | j in b :: b[k].lastSeen <= b[j].lastSeen
  }

  lemma OldestExists(b: Buckets)
    requires b != map[]
    ensures exists k :: Oldest(b, k)
    decreases |b|
  {
    var k :| k in b;
    var rest := b - {k};
    if rest == map[] {
      assert forall j | j in b :: j != k ==> j in rest;
      assert Oldest(b, k);
    } else {
      OldestExists(rest);
      var m :| Oldest(rest, m);
      OlderOf(b, k, m);
    }
  }

  lemma OlderOf(b: Buckets, k: Key, m: Key)
    requires k in b && Oldest(b - {k}, m)
    ensures Oldest(b, k) || Oldest(b, m)
  {
    assert forall j | j in b :: j == k || j in b - {k};
  }

  class RateLimiter {
    const config: Config
    var buckets: Buckets
    var day: int
    var servedToday: nat

    ghost function View(): Limiter
      reads this
    {
      Limiter(buckets, day, servedToday)
    }

    constructor (config: Config, today: int)
      ensures this.config == config
      ensures View() == Limiter(map[], today, 0)
    {
      this.config := config;
      buckets, day, servedToday := map[], today, 0;
    }

    method EvictLocked(now: real)
      modifies this`buckets
      ensures IsEviction(old(buckets), now, buckets)
    {
      if |buckets| < MAX_BUCKETS { return; }
      buckets := NotStale(buckets, now);
      if |buckets| >= MAX_BUCKETS { DropOldestHalf(); }
    }

    method DropOldestHalf()
      modifies this`buckets
      ensures HalfDropped(old(buckets), buckets)
    {
      ghost var all := buckets;
      var n := |buckets| / 2;
      var i := 0;
      while i < n
        invariant 0 <= i <= n
        invariant SubMap(buckets, all) && |buckets| == |all| - i
        invariant forall d, k | d in all && d !in buckets && k in buckets :: all[d].lastSeen <= all[k].lastSeen
      {
        OldestExists(buckets);
        ghost var oldest :| Oldest(buckets, oldest);
        var k :| k in buckets && forall j | j in buckets :: buckets[k].lastSeen <= buckets[j].lastSeen;
        ghost var before := buckets;
        buckets := buckets - {k};
        assert before == buckets[k := before[k]];
        UpdateSize(buckets, k, before[k]);
        i := i + 1;
      }
    }

    /** `kept` is what the eviction, if one was needed, left. */
    method CheckCall(key: Key, now: real, today: int, counts: bool) returns (d: Decision, ghost kept: Buckets)
      modifies this
      ensures var op := Check(key, now, today, counts, kept);
              && Legal(config, old(View()), op)
              && d == Decide(config, old(View()), op)
              && View() == Apply(config, old(View()), op)
    {
      kept := buckets;
      if today != day { day, servedToday := today, 0; }
      if counts && servedToday >= config.ceiling { return DailyCeiling, kept; }
      var bucket := Bucket(config.capacity as real, now, now);
      if key in buckets {
        bucket := buckets[key];
      } else {
        EvictLocked(now);
        kept := buckets;
      }
      var tokens := Refilled(config, bucket, now);
      if tokens < 1.0 {
        buckets := buckets[key := Bucket(tokens, now, now)];
        return PerIp(Wait(config, tokens)), kept;
      }
      buckets := buckets[key := Bucket(tokens - 1.0, now, now)];
      if counts { servedToday := servedToday + 1; }
      d := Allowed;
    }

    method RefundCall(key: Key)
      modifies this
      ensures View() == Apply(config, old(View()), Refund(key))
    {
      if key !in buckets { return; }
      var b := buckets[key];
      buckets := buckets[key := b.(tokens := Min(config.capacity as real, b.tokens + 1.0))];
      if servedToday > 0 { servedToday := servedToday - 1; }
    }

    /** The published number: nothing yet, on a day that no check has seen. */
    method Published(today: int) returns (n: nat)
      modifies this`day, this`servedToday
      ensures n == if today == old(day) then old(servedToday) else 0
      ensures day == today && servedToday == n
    {
      if today != day { day, servedToday := today, 0; }
      n := servedToday;
    }
  }
}
