/**
  The route and place-search caches: two tables of timestamped rows, a sweep every fiftieth write, and
  a ceiling on each table. To its readers the cache is an expiring map: each table carries the history
  of its latest puts, and `TableOk` says how the rows, whatever was purged, relate to that history.
*/
module RouteCache {
  import opened Prelude
  import opened Text
  import opened IsoTime

  const ROUTE_CACHE_MAX_ROWS: nat := 500
  const GEOCODE_CACHE_MAX_ROWS: nat := 5000
  const SWEEP_EVERY_N_WRITES: nat := 50
  const VACUUM_AFTER_ROWS_REMOVED: nat := 100

  datatype Row = Row(payload: string, created: string, expires: string)
  type Rows = map<string, Row>

  /** The latest put for a key. */
  datatype Entry = Entry(payload: string, created: Time, expires: Time)

  /** Latest puts, and the keys the ceiling has removed since theirs. */
  datatype History = History(latest: map<string, Entry>, evicted: set<string>)

  /** How a table turns times into text and back. */
  datatype Stamps = Stamps(write: Time -> string, read: string -> Option<Time>)

  /** What the tables rely on: text order is time order, reading undoes writing, the offset is there. */
  ghost predicate Orderly(st: Stamps) {
    && (forall a, b {:trigger TextOrder(st.write(a), st.write(b))} | Valid(a) && Valid(b) ::
          TextOrder(st.write(a), st.write(b)) == Order(Micros(a), Micros(b)))
    && (forall a {:trigger st.write(a)} | Valid(a) :: st.read(st.write(a)) == Some(a) && EndsWithOffset(st.write(a)))
  }

  /** `isoformat` and `fromisoformat` are such a pair, across the shapes with and without a fraction. */
  lemma IsoIsOrderly()
    ensures Orderly(Stamps(Iso, FromIso))
  {
    forall a, b | Valid(a) && Valid(b) ensures TextOrder(Iso(a), Iso(b)) == Order(Micros(a), Micros(b)) {
      IsoOrderIsTimeOrder(a, b);
      MicrosOrder(a, b);
    }
    forall a | Valid(a) ensures FromIso(Iso(a)) == Some(a) && EndsWithOffset(Iso(a)) {
      FromIsoOfIso(a);
    }
  }

  function RowOf(st: Stamps, e: Entry): Row {
    Row(e.payload, st.write(e.created), st.write(e.expires))
  }

  predicate GoodEntry(e: Entry) {
    Valid(e.created) && Valid(e.expires)
  }

  /** The specification: present, not evicted, and not yet expired at `now`. */
  function Visible(h: History, key: string, now: Time): Option<string> {
    if key in h.latest && key !in h.evicted && !AtOrBefore(h.latest[key].expires, now)
    then Some(h.latest[key].payload) else None
  }

  ghost predicate TableOk(st: Stamps, rows: Rows, h: History, clock: Time) {
    && (forall k | k in h.latest :: GoodEntry(h.latest[k]))
    && (forall k | k in rows :: k in h.latest && k !in h.evicted && rows[k] == RowOf(st, h.latest[k]))
    && (forall k | k in h.latest && k !in rows && k !in h.evicted :: AtOrBefore(h.latest[k].expires, clock))
  }

  lemma TableOkLater(st: Stamps, rows: Rows, h: History, clock: Time, now: Time)
    requires TableOk(st, rows, h, clock) && AtOrBefore(clock, now)
    ensures TableOk(st, rows, h, now)
  {
  }

  /** After a put a reader sees it until it expires, evicted before or not; every other key reads as it did. */
  lemma PutIsSeen(h: History, key: string, e: Entry, k: string, now: Time)
    ensures Visible(Putting(h, key, e), key, now) == if AtOrBefore(e.expires, now) then None else Some(e.payload)
    ensures k != key ==> Visible(Putting(h, key, e), k, now) == Visible(h, k, now)
  {
  }

  // ---------------------------------------------------------------------------------------------
  // Rows
  // ---------------------------------------------------------------------------------------------

  /** `get_route`: a stale or unreadable row is a miss, and goes. */
  function Lookup(st: Stamps, rows: Rows, key: string, now: Time): (Option<string>, Rows) {
    if key !in rows then (None, rows)
    else match st.read(rows[key].expires)
      case None => (None, rows - {key})
      case Some(expires) => if AtOrBefore(expires, now) then (None, rows - {key}) else (Some(rows[key].payload), rows)
  }

  /** `DELETE ... WHERE expires_at <= ? OR expires_at NOT LIKE '%+00:00'`, compared as text. */
  function Purge(st: Stamps, rows: Rows, now: Time): (kept: Rows)
  {
    map k | k in rows && !(TextOrder(rows[k].expires, st.write(now)) <= 0 || !EndsWithOffset(rows[k].expires)) :: rows[k]
  }

  /** A row whose expiry another version wrote, without the offset, goes whatever it says. */
  lemma OtherShapesArePurged(st: Stamps, rows: Rows, now: Time, k: string)
    requires k in rows && !EndsWithOffset(rows[k].expires)
    ensures k !in Purge(st, rows, now)
  {
  }

  lemma LookupIsVisible(st: Stamps, rows: Rows, h: History, clock: Time, key: string, now: Time)
    requires Orderly(st) && TableOk(st, rows, h, clock) && AtOrBefore(clock, now)
    ensures Lookup(st, rows, key, now).0 == Visible(h, key, now)
    ensures TableOk(st, Lookup(st, rows, key, now).1, h, now)
    ensures |Lookup(st, rows, key, now).1| <= |rows|
    ensures Visible(h, key, now).None? ==> Lookup(st, rows, key, now).1 == rows - {key}
    ensures Visible(h, key, now).Some? ==> Lookup(st, rows, key, now).1 == rows
  {
    if key in rows {
      ReadsBack(st, rows, h, clock, key);
      if AtOrBefore(h.latest[key].expires, now) { RowGone(st, rows, h, clock, key, now); }
    }
    TableOkLater(st, rows, h, clock, now);
  }

  lemma ReadsBack(st: Stamps, rows: Rows, h: History, clock: Time, key: string)
    requires Orderly(st) && TableOk(st, rows, h, clock) && key in rows
    ensures st.read(rows[key].expires) == Some(h.latest[key].expires)
    ensures rows[key].payload == h.latest[key].payload && key !in h.evicted
  {
  }

  lemma RowGone(st: Stamps, rows: Rows, h: History, clock: Time, key: string, now: Time)
    requires TableOk(st, rows, h, clock) && AtOrBefore(clock, now)
    requires key in rows && AtOrBefore(h.latest[key].expires, now)
    ensures TableOk(st, rows - {key}, h, now)
    ensures |rows - {key}| <= |rows|
  {
    TableOkLater(st, rows, h, clock, now);
    SubMapSize(rows - {key}, rows);
  }

  /** The textual purge removes exactly the expired rows, and no reader can tell. */
  lemma PurgeIsInvisible(st: Stamps, rows: Rows, h: History, now: Time)
    requires Orderly(st) && TableOk(st, rows, h, now) && Valid(now)
    ensures forall k :: k in Purge(st, rows, now) <==> k in rows && !AtOrBefore(h.latest[k].expires, now)
    ensures TableOk(st, Purge(st, rows, now), h, now)
    ensures |Purge(st, rows, now)| <= |rows|
  {
    forall k | k in rows
      ensures k in Purge(st, rows, now) <==> !AtOrBefore(h.latest[k].expires, now)
    {
      assert rows[k].expires == st.write(h.latest[k].expires);
    }
    SubMapSize(Purge(st, rows, now), rows);
  }

  lemma UpdateSize(rows: Rows, k: string, r: Row)
    ensures |rows[k := r]| == if k in rows then |rows| else |rows| + 1
  {
    assert rows[k := r].Keys == rows.Keys + {k};
    assert |rows[k := r]| == |rows[k := r].Keys| && |rows| == |rows.Keys|;
  }

  /** Down to the ceiling, oldest `created_at` first; ties as the database pleases. */
  ghost predicate Trimmed(rows: Rows, kept: Rows, ceiling: nat) {
    && SubMap(kept, rows)
    && |kept| == (if |rows| <= ceiling then |rows| else ceiling)
    && forall d, k | d in rows && d !in kept && k in kept :: TextOrder(rows[d].created, rows[k].created) <= 0
  }

  ghost predicate Oldest(rows: Rows, k: string) {
    k in rows && forall j | j in rows :: TextOrder(rows[k].created, rows[j].created) <= 0
  }

  lemma OldestExists(rows: Rows)
    requires rows != map[]
    ensures exists k :: Oldest(rows, k)
    decreases |rows|
  {
    var k :| k in rows;
    var rest := rows - {k};
    TextOrderTotal(rows[k].created, rows[k].created);
    if rest == map[] {
      assert forall j | j in rows :: j != k ==> j in rest;
      assert Oldest(rows, k);
    } else {
      OldestExists(rest);
      var m :| Oldest(rest, m);
      OlderOf(rows, k, m);
    }
  }

  lemma OlderOf(rows: Rows, k: string, m: string)
    requires k in rows && Oldest(rows - {k}, m)
    ensures Oldest(rows, k) || Oldest(rows, m)
  {
    TextOrderTotal(rows[k].created, rows[m].created);
    TextOrderTotal(rows[k].created, rows[k].created);
    if TextOrder(rows[k].created, rows[m].created) <= 0 {
      forall j | j in rows ensures TextOrder(rows[k].created, rows[j].created) <= 0 {
        if j != k {
          assert j in rows - {k};
          TextOrderTransitive(rows[k].created, rows[m].created, rows[j].created);
        }
      }
    } else {
      forall j | j in rows ensures TextOrder(rows[m].created, rows[j].created) <= 0 {
        if j != k { assert j in rows - {k}; }
      }
    }
  }

  lemma RemoveSize(rows: Rows, k: string)
    requires k in rows
    ensures |rows - {k}| == |rows| - 1
  {
    assert rows == (rows - {k})[k := rows[k]];
    UpdateSize(rows - {k}, k, rows[k]);
  }

  method OldestKey(rows: Rows) returns (k: string)
    requires rows != map[]
    ensures Oldest(rows, k)
  {
    OldestExists(rows);
    ghost var g :| Oldest(rows, g);
    assert exists k :: k in rows && forall j | j in rows :: TextOrder(rows[k].created, rows[j].created) <= 0;
    k :| k in rows && forall j | j in rows :: TextOrder(rows[k].created, rows[j].created) <= 0;
  }

  /** `_evict_over_ceiling`. */
  method EvictOverCeiling(rows: Rows, ceiling: nat) returns (kept: Rows, removed: nat)
    ensures Trimmed(rows, kept, ceiling)
    ensures removed == |rows| - |kept|
  {
    kept, removed := rows, 0;
    while |kept| > ceiling
      invariant SubMap(kept, rows)
      invariant |kept| + removed == |rows|
      invariant removed > 0 ==> |kept| >= ceiling
      invariant forall d, k | d in rows && d !in kept && k in kept ::
                  TextOrder(rows[d].created, rows[k].created) <= 0
      decreases |kept|
    {
      var k := OldestKey(kept);
      RemoveSize(kept, k);
      kept := kept - {k};
      removed := removed + 1;
    }
  }

  ghost function Evicting(h: History, rows: Rows, kept: Rows): History {
    h.(evicted := h.evicted + (rows.Keys - kept.Keys))
  }

  /** What the ceiling removes was written no later, in time, than anything it keeps. */
  lemma EvictionKeepsTable(st: Stamps, rows: Rows, h: History, kept: Rows, ceiling: nat, now: Time)
    requires Orderly(st) && TableOk(st, rows, h, now) && Trimmed(rows, kept, ceiling)
    ensures TableOk(st, kept, Evicting(h, rows, kept), now)
    ensures forall d, k | d in rows && d !in kept && k in kept ::
              AtOrBefore(h.latest[d].created, h.latest[k].created)
  {
    forall d, k | d in rows && d !in kept && k in kept
      ensures AtOrBefore(h.latest[d].created, h.latest[k].created)
    {
      assert TextOrder(rows[d].created, rows[k].created) <= 0;
      assert rows[d].created == st.write(h.latest[d].created) && rows[k].created == st.write(h.latest[k].created);
    }
  }

  /** A put: the history's view of it. */
  ghost function Putting(h: History, key: string, e: Entry): History {
    History(h.latest[key := e], h.evicted - {key})
  }

  lemma PutKeepsTable(st: Stamps, rows: Rows, h: History, clock: Time, now: Time, key: string, e: Entry)
    requires TableOk(st, rows, h, clock) && AtOrBefore(clock, now) && GoodEntry(e)
    ensures TableOk(st, rows[key := RowOf(st, e)], Putting(h, key, e), now)
    ensures |rows[key := RowOf(st, e)]| <= |rows| + 1
  {
    UpdateSize(rows, key, RowOf(st, e));
  }

  // ---------------------------------------------------------------------------------------------
  // The cache
  // ---------------------------------------------------------------------------------------------

  /** The step of a table's history over one sweep: latest puts stay, only a full table loses any. */
  ghost predicate SweptHistory(before: History, after: History, rows: Rows, ceiling: nat) {
    && after.latest == before.latest
    && before.evicted <= after.evicted
    && (after.evicted != before.evicted ==> |rows| == ceiling)
    && forall d | d in after.evicted - before.evicted :: OlderThanAll(after, d, rows)
  }

  ghost predicate OlderThanAll(h: History, d: string, rows: Rows) {
    d in h.latest && forall k | k in rows && k in h.latest :: AtOrBefore(h.latest[d].created, h.latest[k].created)
  }

  lemma NothingSwept(h: History, rows: Rows, ceiling: nat)
    ensures SweptHistory(h, h, rows, ceiling)
  {
    assert h.evicted - h.evicted == {};
  }

  /** One table of the database file: `route_cache` or `geocode_cache`. */
  class Table {
    const ceiling: nat
    const stamps: Stamps
    var rows: Rows

    ghost var history: History
    ghost var clock: Time

    ghost predicate Ok()
      reads this
    {
      Orderly(stamps) && Valid(clock) && TableOk(stamps, rows, history, clock)
    }

    constructor (ceiling: nat, ghost now: Time)
      requires Valid(now)
      ensures Ok() && rows == map[] && history == History(map[], {}) && clock == now
      ensures this.ceiling == ceiling && stamps == Stamps(Iso, FromIso)
    {
      IsoIsOrderly();
      this.ceiling := ceiling;
      stamps := Stamps(Iso, FromIso);
      rows, history, clock := map[], History(map[], {}), now;
    }

    /** A reader sees exactly the latest put that has neither expired nor been evicted. */
    method Get(key: string, now: Time) returns (payload: Option<string>)
      requires Ok() && Valid(now) && AtOrBefore(clock, now)
      modifies this`rows, this`clock
      ensures Ok() && clock == now && |rows| <= |old(rows)|
      ensures payload == Visible(history, key, now)
      ensures rows == if payload.None? then old(rows) - {key} else old(rows)
    {
      LookupIsVisible(stamps, rows, history, clock, key, now);
      var found := Lookup(stamps, rows, key, now);
      payload, rows, clock := found.0, found.1, now;
    }

    method Put(key: string, payload: string, now: Time, expires: Time)
      requires Ok() && Valid(now) && Valid(expires) && AtOrBefore(clock, now)
      modifies this
      ensures Ok() && clock == now && |rows| <= |old(rows)| + 1
      ensures history == Putting(old(history), key, Entry(payload, now, expires))
    {
      ghost var e := Entry(payload, now, expires);
      PutKeepsTable(stamps, rows, history, clock, now, key, e);
      rows := rows[key := Row(payload, stamps.write(now), stamps.write(expires))];
      history, clock := Putting(history, key, e), now;
    }

    /** The textual purge, which no reader can tell, then the ceiling. */
    method Sweep(now: Time) returns (removed: nat)
      requires Ok() && Valid(now) && AtOrBefore(clock, now)
      modifies this
      ensures Ok() && clock == now
      ensures |rows| <= ceiling && removed == |old(rows)| - |rows|
      ensures SweptHistory(old(history), history, rows, ceiling)
    {
      TableOkLater(stamps, rows, history, clock, now);
      ghost var after;
      rows, after, removed := SweepTable(stamps, rows, history, now, ceiling);
      history, clock := after, now;
    }
  }

  class Cache {
    const routes: Table
    const geocodes: Table
    var writesSinceSweep: nat
    var removedSinceReclaim: nat

    ghost predicate Ok()
      reads this, routes, geocodes
    {
      && routes != geocodes
      && routes.ceiling == ROUTE_CACHE_MAX_ROWS && geocodes.ceiling == GEOCODE_CACHE_MAX_ROWS
      && routes.Ok() && geocodes.Ok()
      && writesSinceSweep < SWEEP_EVERY_N_WRITES
      && removedSinceReclaim < VACUUM_AFTER_ROWS_REMOVED
      && |routes.rows| <= ROUTE_CACHE_MAX_ROWS + writesSinceSweep
      && |geocodes.rows| <= GEOCODE_CACHE_MAX_ROWS + writesSinceSweep
    }

    ghost predicate NotAfter(now: Time)
      reads routes, geocodes
    {
      Valid(now) && AtOrBefore(routes.clock, now) && AtOrBefore(geocodes.clock, now)
    }

    constructor (ghost now: Time)
      requires Valid(now)
      ensures Ok() && NotAfter(now) && fresh(routes) && fresh(geocodes)
      ensures routes.history == History(map[], {}) && geocodes.history == History(map[], {})
    {
      var r := new Table(ROUTE_CACHE_MAX_ROWS, now);
      var g := new Table(GEOCODE_CACHE_MAX_ROWS, now);
      routes, geocodes, writesSinceSweep, removedSinceReclaim := r, g, 0, 0;
    }

    method GetRoute(key: string, now: Time) returns (payload: Option<string>)
      requires Ok() && NotAfter(now)
      modifies routes
      ensures Ok() && NotAfter(now) && routes.history == old(routes.history)
      ensures payload == Visible(routes.history, key, now)
    {
      payload := routes.Get(key, now);
    }

    method GetGeocode(key: string, now: Time) returns (payload: Option<string>)
      requires Ok() && NotAfter(now)
      modifies geocodes
      ensures Ok() && NotAfter(now) && geocodes.history == old(geocodes.history)
      ensures payload == Visible(geocodes.history, key, now)
    {
      payload := geocodes.Get(key, now);
    }

    /** After every put each table is at most 49 rows over its ceiling, and the put is what readers see. */
    method PutRoute(key: string, payload: string, now: Time, expires: Time)
      requires Ok() && NotAfter(now) && Valid(expires)
      modifies this, routes, geocodes
      ensures Ok() && NotAfter(now)
      ensures |routes.rows| <= ROUTE_CACHE_MAX_ROWS + 49 && |geocodes.rows| <= GEOCODE_CACHE_MAX_ROWS + 49
      ensures SweptHistory(Putting(old(routes.history), key, Entry(payload, now, expires)), routes.history,
                           routes.rows, ROUTE_CACHE_MAX_ROWS)
      ensures SweptHistory(old(geocodes.history), geocodes.history, geocodes.rows, GEOCODE_CACHE_MAX_ROWS)
    {
      routes.Put(key, payload, now, expires);
      MaybeSweep(now);
    }

    method PutGeocode(key: string, payload: string, now: Time, expires: Time)
      requires Ok() && NotAfter(now) && Valid(expires)
      modifies this, routes, geocodes
      ensures Ok() && NotAfter(now)
      ensures |routes.rows| <= ROUTE_CACHE_MAX_ROWS + 49 && |geocodes.rows| <= GEOCODE_CACHE_MAX_ROWS + 49
      ensures SweptHistory(Putting(old(geocodes.history), key, Entry(payload, now, expires)), geocodes.history,
                           geocodes.rows, GEOCODE_CACHE_MAX_ROWS)
      ensures SweptHistory(old(routes.history), routes.history, routes.rows, ROUTE_CACHE_MAX_ROWS)
    {
      geocodes.Put(key, payload, now, expires);
      MaybeSweep(now);
    }

    /** Called with one write not yet counted. */
    method MaybeSweep(now: Time)
      requires routes != geocodes && routes.Ok() && geocodes.Ok() && NotAfter(now)
      requires routes.ceiling == ROUTE_CACHE_MAX_ROWS && geocodes.ceiling == GEOCODE_CACHE_MAX_ROWS
      requires writesSinceSweep < SWEEP_EVERY_N_WRITES && removedSinceReclaim < VACUUM_AFTER_ROWS_REMOVED
      requires |routes.rows| <= ROUTE_CACHE_MAX_ROWS + writesSinceSweep + 1
      requires |geocodes.rows| <= GEOCODE_CACHE_MAX_ROWS + writesSinceSweep + 1
      modifies this, routes, geocodes
      ensures Ok() && NotAfter(now)
      ensures SweptHistory(old(routes.history), routes.history, routes.rows, ROUTE_CACHE_MAX_ROWS)
      ensures SweptHistory(old(geocodes.history), geocodes.history, geocodes.rows, GEOCODE_CACHE_MAX_ROWS)
    {
      writesSinceSweep := writesSinceSweep + 1;
      if writesSinceSweep < SWEEP_EVERY_N_WRITES {
        NothingSwept(routes.history, routes.rows, ROUTE_CACHE_MAX_ROWS);
        NothingSwept(geocodes.history, geocodes.rows, GEOCODE_CACHE_MAX_ROWS);
        return;
      }
      writesSinceSweep := 0;
      var _ := Sweep(now);
    }

    /** Purge and trim both tables; count what went towards the next reclaim. */
    method Sweep(now: Time) returns (removed: nat)
      requires routes != geocodes && routes.Ok() && geocodes.Ok() && NotAfter(now)
      requires removedSinceReclaim < VACUUM_AFTER_ROWS_REMOVED
      modifies this`removedSinceReclaim, routes, geocodes
      ensures routes.Ok() && geocodes.Ok() && routes.clock == geocodes.clock == now
      ensures |routes.rows| <= routes.ceiling && |geocodes.rows| <= geocodes.ceiling
      ensures removed == |old(routes.rows)| + |old(geocodes.rows)| - |routes.rows| - |geocodes.rows|
      ensures var total := old(removedSinceReclaim) + removed;
              removedSinceReclaim == if total >= VACUUM_AFTER_ROWS_REMOVED then 0 else total
      ensures SweptHistory(old(routes.history), routes.history, routes.rows, routes.ceiling)
      ensures SweptHistory(old(geocodes.history), geocodes.history, geocodes.rows, geocodes.ceiling)
    {
      removed := routes.Sweep(now);
      var more := geocodes.Sweep(now);
      removed := removed + more;
      if removed == 0 { return; }
      removedSinceReclaim := removedSinceReclaim + removed;
      if removedSinceReclaim >= VACUUM_AFTER_ROWS_REMOVED {
        removedSinceReclaim := 0;
      }
    }
  }

  /** One table of a sweep: the textual purge, then the ceiling. */
  method SweepTable(st: Stamps, rows: Rows, ghost h: History, now: Time, ceiling: nat)
    returns (kept: Rows, ghost after: History, removed: nat)
    requires Orderly(st) && Valid(now) && TableOk(st, rows, h, now)
    ensures TableOk(st, kept, after, now)
    ensures |kept| <= ceiling && removed == |rows| - |kept|
    ensures SweptHistory(h, after, kept, ceiling)
  {
    PurgeIsInvisible(st, rows, h, now);
    var live := Purge(st, rows, now);
    var trimmed;
    kept, trimmed := EvictOverCeiling(live, ceiling);
    after := Evicting(h, live, kept);
    EvictionIsSwept(st, live, h, kept, ceiling, now);
    removed := |rows| - |live| + trimmed;
  }

  lemma EvictionIsSwept(st: Stamps, live: Rows, h: History, kept: Rows, ceiling: nat, now: Time)
    requires Orderly(st) && TableOk(st, live, h, now) && Trimmed(live, kept, ceiling)
    ensures TableOk(st, kept, Evicting(h, live, kept), now)
    ensures SweptHistory(h, Evicting(h, live, kept), kept, ceiling)
  {
    EvictionKeepsTable(st, live, h, kept, ceiling, now);
    var after := Evicting(h, live, kept);
    if |live| <= ceiling {
      SameSize(kept, live);
      assert after.evicted == h.evicted;
    }
    forall d | d in after.evicted - h.evicted ensures OlderThanAll(after, d, kept) {
      assert d in live && d !in kept;
    }
  }

  lemma SameSize(a: Rows, b: Rows)
    requires SubMap(a, b) && |a| == |b|
    ensures a == b
  {
    forall k | k in b ensures k in a {
      if k !in a { TooMany(a, b, k); }
    }
  }

  lemma TooMany(a: Rows, b: Rows, k: string)
    requires SubMap(a, b) && k in b && k !in a
    ensures |a| < |b|
  {
    SubMapSize(a, b - {k});
    assert b == (b - {k})[k := b[k]];
    UpdateSize(b - {k}, k, b[k]);
  }
}
