/** The route events both transports carry, and the merge by id that every consumer of them performs. */
module Events {
  import opened Prelude

  /** A wire route: its id, and every other field by name. A field that is absent is not a key. */
  datatype Route = Route(id: string, fields: map<string, string>)

  datatype Payload = Payload(routes: seq<Route>, reason: Option<string>)

  datatype Event =
    | Progress(pct: int)
    | RouteEvent(route: Route)
    | DoneEvent(payload: Payload, partial: bool)
    | ErrorEvent(kind: string)

  predicate Terminal(e: Event) {
    e.DoneEvent? || e.ErrorEvent?
  }

  predicate CompleteDone(e: Event) {
    e.DoneEvent? && !e.partial
  }

  function Ids(routes: seq<Route>): (ids: seq<string>)
    ensures |ids| == |routes|
    ensures forall i | 0 <= i < |ids| :: ids[i] == routes[i].id
  {
    seq(|routes|, i requires 0 <= i < |routes| => routes[i].id)
  }

  ghost predicate Distinct<T>(s: seq<T>) {
    forall i, j | 0 <= i < j < |s| :: s[i] != s[j]
  }

  /** `findIndex` by id, with the length for "not there". */
  function Find(routes: seq<Route>, id: string): (k: nat)
    ensures k <= |routes|
    ensures k < |routes| ==> routes[k].id == id
    ensures forall i | 0 <= i < k :: routes[i].id != id
    decreases |routes|
  {
    if routes == [] || routes[0].id == id then 0 else 1 + Find(routes[1..], id)
  }

  /** Assigning into an insertion-ordered dictionary: replace in place, or append. */
  function Upsert(routes: seq<Route>, r: Route): seq<Route> {
    var k := Find(routes, r.id);
    if k < |routes| then routes[k := r] else routes + [r]
  }

  function MergeOnto(routes: seq<Route>, events: seq<Event>): seq<Route>
    decreases |events|
  {
    if events == [] then routes
    else if Last(events).RouteEvent? then Upsert(MergeOnto(routes, Init(events)), Last(events).route)
    else MergeOnto(routes, Init(events))
  }

  /** The last route event for an id. */
  function LastFor(events: seq<Event>, id: string): (r: Option<Route>)
    ensures r.Some? ==> r.value.id == id
    decreases |events|
  {
    if events == [] then None
    else if Last(events).RouteEvent? && Last(events).route.id == id then Some(Last(events).route)
    else LastFor(Init(events), id)
  }

  lemma UpsertWorks(routes: seq<Route>, r: Route)
    requires Distinct(Ids(routes))
    ensures Distinct(Ids(Upsert(routes, r)))
    ensures forall q: Route :: q in Upsert(routes, r) <==> q == r || (q in routes && q.id != r.id)
  {
    var k := Find(routes, r.id);
    var after := Upsert(routes, r);
    assert after[k] == r;
    forall q: Route ensures q in after <==> q == r || (q in routes && q.id != r.id) {
      if q in routes && q.id != r.id {
        var i :| 0 <= i < |routes| && routes[i] == q;
        assert after[i] == q;
      }
      if q in after && q != r {
        var i :| 0 <= i < |after| && after[i] == q;
        assert i != k && routes[i] == q;
        if k < |routes| { assert Ids(routes)[i] != Ids(routes)[k]; }
      }
    }
  }

  /** The merge is last-writer-wins: one route per id, the last one sent, whatever was there before. */
  lemma {:induction false} MergeIsLastWriter(routes: seq<Route>, events: seq<Event>)
    requires Distinct(Ids(routes))
    ensures Distinct(Ids(MergeOnto(routes, events)))
    ensures forall r :: r in MergeOnto(routes, events) <==>
              match LastFor(events, r.id) case Some(last) => r == last case None => r in routes
    decreases |events|
  {
    if events != [] {
      MergeIsLastWriter(routes, Init(events));
      if Last(events).RouteEvent? {
        UpsertWorks(MergeOnto(routes, Init(events)), Last(events).route);
      }
    }
  }

  lemma UpsertKeepsPlaces(routes: seq<Route>, r: Route)
    ensures Ids(routes) <= Ids(Upsert(routes, r))
  {
  }

  /** An id that has arrived keeps its place in the merge, whatever comes after. */
  lemma {:induction false} MergeKeepsArrivalOrder(routes: seq<Route>, a: seq<Event>, b: seq<Event>)
    ensures Ids(MergeOnto(routes, a)) <= Ids(MergeOnto(routes, a + b))
    decreases |b|
  {
    if b == [] {
      assert a + b == a;
    } else {
      assert Init(a + b) == a + Init(b);
      MergeKeepsArrivalOrder(routes, a, Init(b));
      if Last(b).RouteEvent? { UpsertKeepsPlaces(MergeOnto(routes, a + Init(b)), Last(b).route); }
    }
  }
}
