/**
  The limiter from day to day: when the daily ceiling closes and opens, what the published number counts
  since midnight, and what a refund undoes.
*/
module LimiterDays {
  import opened Prelude
  import opened RateLimit

  // ---------------------------------------------------------------------------------------------
  // Days
  // ---------------------------------------------------------------------------------------------

  /** The day of the last check, or the one the limiter began with. */
  function DayOf(first: int, ops: seq<Op>): int
    decreases |ops|
  {
    if ops == [] then first else if Last(ops).Check? then Last(ops).today else DayOf(first, Init(ops))
  }

  lemma {:induction false} DayIsLastSeen(c: Config, s: Limiter, ops: seq<Op>)
    ensures Run(c, s, ops).day == DayOf(s.day, ops)
    decreases |ops|
  {
    if ops != [] { DayIsLastSeen(c, s, Init(ops)); }
  }

  /** A check is refused for the day exactly when it counts, the day goes on and its allowance is used up. */
  lemma CeilingIff(c: Config, s: Limiter, ops: seq<Op>, op: Op)
    requires op.Check?
    ensures var before := Run(c, s, ops);
            Decide(c, before, op).DailyCeiling? <==>
              op.counts && (if op.today == DayOf(s.day, ops) then before.served else 0) >= c.ceiling
  {
    DayIsLastSeen(c, s, ops);
  }

  /** Whatever the day before was like, the first check of a day finds the limiter open. */
  lemma NewDayIsOpen(c: Config, s: Limiter, ops: seq<Op>, op: Op)
    requires op.Check? && op.today != DayOf(s.day, ops) && c.ceiling >= 1
    ensures !Decide(c, Run(c, s, ops), op).DailyCeiling?
  {
    CeilingIff(c, s, ops, op);
  }

  /** The `k`-th call is the first check of its day, and all later checks see the same day. */
  ghost predicate DayBegins(first: int, ops: seq<Op>, k: nat) {
    && k < |ops| && ops[k].Check? && ops[k].today != DayOf(first, ops[..k])
    && forall j | k < j < |ops| && ops[j].Check? :: ops[j].today == ops[k].today
  }

  lemma {:induction false} RunAppend(c: Config, s: Limiter, a: seq<Op>, b: seq<Op>)
    ensures Run(c, s, a + b) == Run(c, Run(c, s, a), b)
    decreases |b|
  {
    if b == [] {
      assert a + b == a;
    } else {
      assert Init(a + b) == a + Init(b);
      RunAppend(c, s, a, Init(b));
    }
  }

  /** A call that is let through and counted. */
  predicate Counted(c: Config, s: Limiter, op: Op) {
    op.Check? && op.counts && Decide(c, s, op).Allowed?
  }

  lemma FirstOfDay(c: Config, s: Limiter, op: Op)
    requires op.Check? && op.today != s.day
    ensures Apply(c, s, op).served == if Counted(c, s, op) then 1 else 0
    ensures Apply(c, s, op).day == op.today
  {
  }

  /**
    The published number, over runs that pass midnight any number of times: since the first check of the
    day, the counted calls let through less the refunds of buckets still there, and what clamping hid.
  */
  lemma ServedSinceMidnight(c: Config, s: Limiter, ops: seq<Op>, k: nat)
    requires DayBegins(s.day, ops, k)
    ensures var before, first, rest := Run(c, s, ops[..k]), Run(c, s, ops[..k + 1]), ops[k + 1..];
            Run(c, s, ops).served + LiveRefunds(c, first, rest)
            == (if Counted(c, before, ops[k]) then 1 else 0) + CountedAllows(c, first, rest) + Clamped(c, first, rest)
  {
    var first, rest := Run(c, s, ops[..k + 1]), ops[k + 1..];
    assert ops == ops[..k + 1] + rest && Init(ops[..k + 1]) == ops[..k];
    RunAppend(c, s, ops[..k + 1], rest);
    DayIsLastSeen(c, s, ops[..k]);
    FirstOfDay(c, Run(c, s, ops[..k]), ops[k]);
    assert first.day == ops[k].today;
    forall op | op in rest && op.Check? ensures op.today == first.day {
      var j :| 0 <= j < |rest| && rest[j] == op;
      assert ops[k + 1 + j] == op;
    }
    ServedTodayBalances(c, first, rest);
  }

  /** So no day lets more counted calls through than the ceiling and the refunds of that day. */
  lemma DayKeepsCeiling(c: Config, s: Limiter, ops: seq<Op>, k: nat)
    requires GoodConfig(c) && c.ceiling >= 0 && Sound(c, s) && LegalRun(c, s, ops) && DayBegins(s.day, ops, k)
    ensures var before, first, rest := Run(c, s, ops[..k]), Run(c, s, ops[..k + 1]), ops[k + 1..];
            (if Counted(c, before, ops[k]) then 1 else 0) + CountedAllows(c, first, rest)
            <= c.ceiling + LiveRefunds(c, first, rest)
  {
    ServedSinceMidnight(c, s, ops, k);
    RunsAreSound(c, s, ops);
  }

  // ---------------------------------------------------------------------------------------------
  // Refunds
  // ---------------------------------------------------------------------------------------------

  /** A refund gives the bucket a token, up to its capacity, and touches no other. */
  lemma RefundGivesBack(c: Config, s: Limiter, key: Key)
    requires key in s.buckets
    ensures var after := Apply(c, s, Refund(key)).buckets;
            && after.Keys == s.buckets.Keys
            && (forall k | k in s.buckets && k != key :: after[k] == s.buckets[k])
            && after[key].tokens == (if s.buckets[key].tokens + 1.0 < c.capacity as real then s.buckets[key].tokens + 1.0 else c.capacity as real)
            && after[key].lastRefill == s.buckets[key].lastRefill && after[key].lastSeen == s.buckets[key].lastSeen
  {
  }

  /**
    A call that was let through and then refunded has cost nothing: neither its client, who can spend at
    any later time what it could have spent without it, nor the day.
  */
  lemma RefundUndoesCheck(c: Config, s: Limiter, op: Op, later: real)
    requires GoodConfig(c) && Sound(c, s) && Legal(c, s, op) && Counted(c, s, op)
    requires SeenBy(s, op.key, op.now) && op.now <= later
    ensures var after := Apply(c, Apply(c, s, op), Refund(op.key));
            && Purse(c, after, op.key, later) == Purse(c, s, op.key, later)
            && after.served == (if op.today == s.day then s.served else 0)
            && after.day == op.today
  {
    var tokens := Refilled(c, BucketFor(c, s, op), op.now);
    CheckWrites(c, s, op, tokens);
    BucketForIsGood(c, s, op);
    RefilledBounds(c, BucketFor(c, s, op), op.now);
    Restored(c, s, op, tokens);
    RefilledTwice(c, BucketFor(c, s, op), op.now, later);
    if op.key !in s.buckets { RefilledFull(c, op.now, later); }
  }

  lemma Restored(c: Config, s: Limiter, op: Op, tokens: real)
    requires Counted(c, s, op) && tokens == Refilled(c, BucketFor(c, s, op), op.now) <= c.capacity as real
    ensures var after := Apply(c, Apply(c, s, op), Refund(op.key));
            && op.key in after.buckets && after.buckets[op.key] == Bucket(tokens, op.now, op.now)
            && after.served == (if op.today == s.day then s.served else 0) && after.day == op.today
  {
    CheckWrites(c, s, op, tokens);
    assert Min(c.capacity as real, tokens - 1.0 + 1.0) == tokens;
  }

  /** Refilling in two steps is refilling once. */
  lemma RefilledTwice(c: Config, b: Bucket, mid: real, later: real)
    requires GoodConfig(c) && b.lastRefill <= mid <= later && b.tokens <= c.capacity as real
    ensures Refilled(c, Bucket(Refilled(c, b, mid), mid, mid), later) == Refilled(c, b, later)
  {
    var r := c.refillPerMin;
    var x, y := (mid - b.lastRefill) / 60.0 * r, (later - mid) / 60.0 * r;
    assert (later - b.lastRefill) / 60.0 * r == x + y;
    assert y >= 0.0 && x >= 0.0;
  }

  lemma RefilledFull(c: Config, now: real, later: real)
    requires GoodConfig(c) && now <= later
    ensures Refilled(c, Bucket(c.capacity as real, now, now), later) == c.capacity as real
  {
    assert (later - now) / 60.0 * c.refillPerMin >= 0.0;
  }

  /** The wait named is not padded: a second less is at most just enough. */
  lemma WaitIsTight(c: Config, tokens: real)
    requires c.refillPerMin >= 0.01 && tokens < 1.0
    ensures tokens + (Wait(c, tokens) - 1) as real / 60.0 * c.refillPerMin <= 1.0
  {
    var r := c.refillPerMin;
    var minutes := (1.0 - tokens) / r;
    assert minutes * r == 1.0 - tokens;
    assert (Wait(c, tokens) - 1) as real <= minutes * 60.0;
    MoreMinutes((Wait(c, tokens) - 1) as real / 60.0, minutes, r);
  }
}
