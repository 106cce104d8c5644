/** The client's `route` action: merge by id onto a stamp-free base, drop deselected objectives, sort. */
module Reducer {
  import opened Prelude
  import opened Events
  import opened Ranking

  const STAMP := {"servedFromCache", "cachedAt"}

  function StampFree(r: Route): Route {
    Route(r.id, r.fields - STAMP)
  }

  /** `{ ...stampFree(r), ...incoming }` for every route of that id. */
  function MergeIn(routes: seq<Route>, incoming: Route): (merged: seq<Route>)
    ensures |merged| == |routes|
  {
    seq(|routes|, i requires 0 <= i < |routes| =>
      if routes[i].id == incoming.id
      then Route(incoming.id, StampFree(routes[i]).fields + incoming.fields)
      else routes[i])
  }

  function Live(routes: seq<Route>, objectives: seq<string>): (live: seq<Route>)
    ensures forall r :: r in live <==> r in routes && r.id in objectives
    decreases |routes|
  {
    if routes == [] then []
    else Live(Init(routes), objectives) + (if Last(routes).id in objectives then [Last(routes)] else [])
  }

  function ReduceRoute(routes: seq<Route>, objectives: seq<string>, incoming: Route): seq<Route> {
    var merged := if Find(routes, incoming.id) == |routes| then routes + [incoming] else MergeIn(routes, incoming);
    SortByRank(objectives, Live(merged, objectives))
  }

  /** The screen after a run of events; only `route` events touch the list. */
  function Screen(shown: seq<Route>, objectives: seq<string>, events: seq<Event>): seq<Route>
    decreases |events|
  {
    if events == [] then shown
    else
      var before := Screen(shown, objectives, Init(events));
      if Last(events).RouteEvent? then ReduceRoute(before, objectives, Last(events).route) else before
  }

  /** `cacheStamp`: is anything on the screen a replay? */
  predicate Replayed(routes: seq<Route>) {
    exists r | r in routes :: "servedFromCache" in r.fields
  }

  // ---------------------------------------------------------------------------------------------

  /** A route of the wire's shape, possibly stamped by a replay. */
  ghost predicate Fits(r: Route, schema: set<string>) {
    r.fields.Keys - STAMP <= schema
  }

  ghost predicate AllFit(routes: seq<Route>, schema: set<string>) {
    Distinct(Ids(routes)) && forall r | r in routes :: Fits(r, schema)
  }

  lemma {:induction false} LiveKeepsDistinct(routes: seq<Route>, objectives: seq<string>)
    requires Distinct(Ids(routes))
    ensures Distinct(Ids(Live(routes, objectives)))
    decreases |routes|
  {
    if routes != [] {
      var before := Live(Init(routes), objectives);
      assert Ids(Init(routes)) == Init(Ids(routes));
      LiveKeepsDistinct(Init(routes), objectives);
      if Last(routes).id in objectives {
        forall i | 0 <= i < |before| ensures before[i].id != Last(routes).id {
          assert before[i] in before;
          var k :| 0 <= k < |routes| - 1 && Init(routes)[k] == before[i];
          assert Ids(routes)[k] != Ids(routes)[|routes| - 1];
        }
        assert Ids(before + [Last(routes)]) == Ids(before) + [Last(routes).id];
      }
    }
  }

  /** Merging a full dump onto anything of its shape leaves the dump and nothing else. */
  lemma MergedIsIncoming(previous: Route, incoming: Route, schema: set<string>)
    requires Fits(previous, schema) && incoming.fields.Keys == schema && previous.id == incoming.id
    ensures Route(incoming.id, StampFree(previous).fields + incoming.fields) == incoming
  {
    assert StampFree(previous).fields + incoming.fields == incoming.fields;
  }

  /** One `route` action replaces that id by exactly what arrived, whatever was on the screen. */
  lemma ReduceIsUpsert(routes: seq<Route>, objectives: seq<string>, incoming: Route, schema: set<string>)
    requires AllFit(routes, schema) && incoming.fields.Keys == schema
    ensures var after := ReduceRoute(routes, objectives, incoming);
            && AllFit(after, schema)
            && Ascending(objectives, after)
            && (forall q :: q in after <==>
                  (q == incoming || (q in routes && q.id != incoming.id)) && q.id in objectives)
  {
    var merged := if Find(routes, incoming.id) == |routes| then routes + [incoming] else MergeIn(routes, incoming);
    assert merged == Upsert(routes, incoming) by {
      var k := Find(routes, incoming.id);
      if k < |routes| {
        forall i | 0 <= i < |routes| ensures merged[i] == Upsert(routes, incoming)[i] {
          assert i != k ==> Ids(routes)[i] != Ids(routes)[k];
          assert routes[i] in routes;
          if i == k { MergedIsIncoming(routes[i], incoming, schema); }
        }
      }
    }
    UpsertWorks(routes, incoming);
    LiveKeepsDistinct(merged, objectives);
    SortKeeps(objectives, Live(merged, objectives));
  }

  ghost predicate FullDumps(events: seq<Event>, schema: set<string>) {
    forall e | e in events && e.RouteEvent? :: e.route.fields.Keys == schema
  }

  ghost predicate SomeRoute(events: seq<Event>) {
    exists e | e in events :: e.RouteEvent?
  }

  /** The screen is last-writer-wins over the events and, for ids not in them, what was shown. */
  lemma {:induction false} ScreenIsLastWriter(
    shown: seq<Route>, objectives: seq<string>, events: seq<Event>, schema: set<string>)
    requires AllFit(shown, schema) && FullDumps(events, schema)
    ensures AllFit(Screen(shown, objectives, events), schema)
    ensures SomeRoute(events) ==> Ascending(objectives, Screen(shown, objectives, events))
    ensures SomeRoute(events) ==> forall r :: r in Screen(shown, objectives, events) <==>
              && r.id in objectives
              && (match LastFor(events, r.id) case Some(last) => r == last case None => r in shown)
    ensures !SomeRoute(events) ==> Screen(shown, objectives, events) == shown
    decreases |events|
  {
    if events != [] {
      var before := Init(events);
      assert events == before + [Last(events)];
      ScreenIsLastWriter(shown, objectives, before, schema);
      if Last(events).RouteEvent? {
        ReduceIsUpsert(Screen(shown, objectives, before), objectives, Last(events).route, schema);
        NoRouteNoLast(before);
      }
    }
  }

  lemma {:induction false} NoRouteNoLast(events: seq<Event>)
    ensures !SomeRoute(events) ==> forall id :: LastFor(events, id) == None
    decreases |events|
  {
    if events != [] {
      assert events == Init(events) + [Last(events)];
      NoRouteNoLast(Init(events));
    }
  }
}
