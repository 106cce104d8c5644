/**
  What is in a response, told from the upstreams' answers alone: which fields each route of the final
  list has, what is sent first about an objective and how often, in which order, and when a response
  raises instead.
*/
module ResponseContents {
  import opened Prelude
  import opened Events
  import opened Ranking
  import opened RouteEvents
  import opened Convergence

  // ---------------------------------------------------------------------------------------------
  // The final list
  // ---------------------------------------------------------------------------------------------

  /** `fields` are those of `measured`, with the narrator's text in the one place that is his. */
  ghost predicate Tells(fields: map<string, string>, measured: map<string, string>, text: string) {
    && fields.Keys == measured.Keys + {"narration"}
    && fields["narration"] == text
    && forall k | k in measured && k != "narration" :: fields[k] == measured[k]
  }

  /** A routed objective is answered with what enrichment made of it, a blocked one with its refusal. */
  ghost predicate AnswersWith(r: Route, id: string, routing: Routing, text: string) {
    r.id == id
    && match routing
       case Routed(_, enriched) => Tells(r.fields, enriched, text)
       case NoRouteFound(blocked) => Tells(r.fields, blocked, text)
       case Broken(blocked) => Tells(r.fields, blocked, text)
  }

  /** One route per objective, in the order asked, each with the enriched fields and its narration. */
  lemma AnswerIsEnriched(objectives: seq<string>, w: World, schema: set<string>)
    requires ValidWorld(objectives, w, schema) && !Response(objectives, w).raised
    ensures var events := Response(objectives, w).events;
            && events != [] && Last(events).DoneEvent? && !Last(events).partial
            && Last(events).payload.reason == w.reason
            && |Last(events).payload.routes| == |objectives|
            && forall i | 0 <= i < |objectives| ::
                 AnswersWith(Last(events).payload.routes[i], objectives[i], w.routing[objectives[i]], w.narration[objectives[i]])
  {
    AnswerIsRequested(objectives, w, schema);
    ResponseEmits(objectives, w, schema);
    forall i | 0 <= i < |objectives|
      ensures AnswersWith(Answer(objectives, w)[i], objectives[i], w.routing[objectives[i]], w.narration[objectives[i]])
    {
      FinalTells(w, objectives[i], schema);
    }
  }

  lemma FinalTells(w: World, id: string, schema: set<string>)
    requires Shaped(w, schema) && id in w.routing && id in w.narration
    ensures AnswersWith(FinalRoute(w, id), id, w.routing[id], w.narration[id])
  {
    var r := w.routing[id];
    assert NARRATION in Bare(w, id).fields;
  }

  /** A response raises exactly outside the coverage, when the fastest way breaks, or when nothing is routed. */
  lemma RaisesIff(objectives: seq<string>, w: World, schema: set<string>)
    requires ValidWorld(objectives, w, schema)
    ensures Response(objectives, w).raised <==>
              || w.outsideCoverage
              || ("fastest" in objectives && w.routing["fastest"].Broken?)
              || (forall o | o in objectives :: !w.routing[o].Routed?)
  {
    var ordered := Ordered(objectives);
    OrderedIsSame(objectives);
    Classified(ordered, w);
    var routed := RoutedIds(ordered, w);
    if routed != [] { assert routed[0] in routed; }
    if o :| o in objectives && w.routing[o].Routed? { assert o in routed; }
  }

  // ---------------------------------------------------------------------------------------------
  // The parts of the stream
  // ---------------------------------------------------------------------------------------------

  /** First emission, blocked ones, enriched, narrated: what stands between the progress events. */
  datatype Parts = Parts(first: seq<Route>, blocked: seq<Route>, enriched: seq<Route>, narrated: seq<Route>)

  ghost predicate PartsFit(p: Parts, w: World, routed: seq<string>, blocked: seq<string>)
    requires Covers(w, blocked + routed) && Covers(w, routed) && Covers(w, blocked)
    requires forall o | o in routed :: IsRouted(w, o)
  {
    && p.first == FirstPasses(w, routed) && p.blocked == Bares(w, blocked)
    && p.enriched == Bares(w, routed) && p.narrated == WithNarration(NarrateAll(w, blocked + routed))
  }

  /** The second pass and what follows it. */
  function Second(p: Parts): seq<Event> {
    [Progress(60)] + AsEvents(p.enriched) + [Progress(90)] + AsEvents(p.narrated)
  }

  function Laid(p: Parts): seq<Event> {
    AsEvents(p.first) + AsEvents(p.blocked) + Second(p)
  }

  lemma LaidIsStream(p: Parts, w: World, routed: seq<string>, blocked: seq<string>)
    requires Covers(w, routed + blocked) && Covers(w, blocked + routed) && Covers(w, routed) && Covers(w, blocked)
    requires (forall o | o in routed :: IsRouted(w, o)) && PartsFit(p, w, routed, blocked)
    ensures Laid(p) == RouteStream(w, routed, blocked)
  {
  }

  lemma ClassesOf(objectives: seq<string>, w: World, schema: set<string>, routed: seq<string>, blocked: seq<string>)
    requires ValidWorld(objectives, w, schema)
    requires routed == RoutedIds(Ordered(objectives), w) && blocked == BlockedIds(Ordered(objectives), w)
    ensures Distinct(blocked + routed)
    ensures forall o :: o in routed <==> o in objectives && IsRouted(w, o)
    ensures forall o :: o in blocked <==> o in objectives && !IsRouted(w, o)
    ensures Covers(w, blocked + routed) && Covers(w, routed + blocked) && Covers(w, routed) && Covers(w, blocked)
  {
    OrderedIsSame(objectives);
    Classified(Ordered(objectives), w);
    ClassifiedDistinct(Ordered(objectives), w);
  }

  lemma Lays(events: seq<Event>, heading: seq<Event>, p: Parts, done: Event)
    requires (forall e | e in heading :: e.Progress?) && done.DoneEvent? && events == heading + Laid(p) + [done]
    ensures IsLaid(events, heading, p)
  {
  }

  lemma HeadingIsProgress(objectives: seq<string>, broken: bool)
    ensures forall e | e in Heading(objectives, broken) :: e.Progress?
  {
  }

  lemma PartsOf(objectives: seq<string>, w: World, schema: set<string>) returns (p: Parts, routed: seq<string>, blocked: seq<string>)
    requires ValidWorld(objectives, w, schema) && !Response(objectives, w).raised
    ensures routed == RoutedIds(Ordered(objectives), w) && blocked == BlockedIds(Ordered(objectives), w)
    ensures Distinct(blocked + routed)
    ensures forall o :: o in routed <==> o in objectives && IsRouted(w, o)
    ensures forall o :: o in blocked <==> o in objectives && !IsRouted(w, o)
    ensures Covers(w, blocked + routed) && Covers(w, routed) && Covers(w, blocked)
    ensures PartsFit(p, w, routed, blocked)
    ensures IsLaid(Response(objectives, w).events, Heading(objectives, false), p)
  {
    routed, blocked := RoutedIds(Ordered(objectives), w), BlockedIds(Ordered(objectives), w);
    ClassesOf(objectives, w, schema, routed, blocked);
    p := Parts(FirstPasses(w, routed), Bares(w, blocked), Bares(w, routed), WithNarration(NarrateAll(w, blocked + routed)));
    LaidIsStream(p, w, routed, blocked);
    HeadingIsProgress(objectives, false);
    Lays(Response(objectives, w).events, Heading(objectives, false), p,
         DoneEvent(Payload(SortByRank(objectives, NarrateAll(w, blocked + routed)), w.reason), false));
  }

  ghost predicate IsLaid(events: seq<Event>, heading: seq<Event>, p: Parts) {
    && (forall e | e in heading :: e.Progress?)
    && exists done: Event {:trigger [done]} :: done.DoneEvent? && events == heading + Laid(p) + [done]
  }

  // ---------------------------------------------------------------------------------------------
  // How often
  // ---------------------------------------------------------------------------------------------

  /** How many events are about `id`. */
  function CountFor(events: seq<Event>, id: string): nat
    decreases |events|
  {
    if events == [] then 0
    else CountFor(Init(events), id) + (if Last(events).RouteEvent? && Last(events).route.id == id then 1 else 0)
  }

  lemma {:induction false} CountAppend(a: seq<Event>, b: seq<Event>, id: string)
    ensures CountFor(a + b, id) == CountFor(a, id) + CountFor(b, id)
    decreases |b|
  {
    if b == [] {
      assert a + b == a;
    } else {
      assert Init(a + b) == a + Init(b);
      CountAppend(a, Init(b), id);
    }
  }

  lemma {:induction false} CountNone(events: seq<Event>, id: string)
    requires forall e | e in events && e.RouteEvent? :: e.route.id != id
    ensures CountFor(events, id) == 0
    decreases |events|
  {
    if events != [] {
      assert Last(events) in events;
      assert forall e | e in Init(events) :: e in events;
      CountNone(Init(events), id);
    }
  }

  /** A list without repetition has one event about each of its ids. */
  lemma {:induction false} CountDump(routes: seq<Route>, id: string)
    requires Distinct(Ids(routes))
    ensures CountFor(AsEvents(routes), id) == if id in Ids(routes) then 1 else 0
    decreases |routes|
  {
    if routes != [] {
      var before := Init(routes);
      assert Init(AsEvents(routes)) == AsEvents(before) && Ids(before) == Init(Ids(routes));
      CountDump(before, id);
      LastOfDistinct(Ids(routes), id);
    }
  }

  lemma LastOfDistinct(ids: seq<string>, id: string)
    requires ids != [] && Distinct(ids)
    ensures Distinct(Init(ids)) && Last(ids) !in Init(ids)
    ensures id in ids <==> id in Init(ids) || id == Last(ids)
  {
    assert ids == Init(ids) + [Last(ids)];
    forall i | 0 <= i < |ids| - 1 ensures Init(ids)[i] != Last(ids) {
      assert ids[i] != ids[|ids| - 1];
    }
  }

  lemma {:induction false} NarratedDistinct(routes: seq<Route>)
    requires Distinct(Ids(routes))
    ensures Distinct(Ids(WithNarration(routes)))
    decreases |routes|
  {
    if routes != [] {
      var before, l := Init(routes), Last(routes);
      assert Ids(before) == Init(Ids(routes));
      NarratedDistinct(before);
      var some := WithNarration(before);
      forall r | r in some ensures r.id != l.id {
        var i :| 0 <= i < |before| && before[i] == r;
        assert Ids(routes)[i] != Ids(routes)[|before|];
      }
      if HasNarration(l) {
        assert Ids(some + [l]) == Ids(some) + [l.id];
        assert forall i | 0 <= i < |some| :: some[i] in some;
      }
    }
  }

  lemma CountSecond(p: Parts, id: string)
    ensures CountFor(Second(p), id) == CountFor(AsEvents(p.enriched), id) + CountFor(AsEvents(p.narrated), id)
  {
    var c, d := AsEvents(p.enriched), AsEvents(p.narrated);
    CountAppend([Progress(60)] + c + [Progress(90)], d, id);
    CountAppend([Progress(60)] + c, [Progress(90)], id);
    CountAppend([Progress(60)], c, id);
    CountNone([Progress(60)], id);
    CountNone([Progress(90)], id);
  }

  lemma CountThree(a: seq<Event>, b: seq<Event>, c: seq<Event>, id: string)
    ensures CountFor(a + b + c, id) == CountFor(a, id) + CountFor(b, id) + CountFor(c, id)
  {
    CountAppend(a + b, c, id);
    CountAppend(a, b, id);
  }

  lemma CountParts(events: seq<Event>, heading: seq<Event>, p: Parts, id: string)
    requires IsLaid(events, heading, p)
    ensures CountFor(events, id)
         == CountFor(AsEvents(p.first), id) + CountFor(AsEvents(p.blocked), id) + CountFor(AsEvents(p.enriched), id)
            + CountFor(AsEvents(p.narrated), id)
  {
    var done: Event :| done.DoneEvent? && events == heading + Laid(p) + [done];
    CountThree(heading, Laid(p), [done], id);
    CountThree(AsEvents(p.first), AsEvents(p.blocked), Second(p), id);
    CountSecond(p, id);
    CountNone(heading, id);
    CountNone([done], id);
  }

  lemma BaresDistinct(w: World, ids: seq<string>)
    requires Covers(w, ids) && Distinct(ids)
    ensures Ids(Bares(w, ids)) == ids && Ids(NarrateAll(w, ids)) == ids
    ensures (forall o | o in ids :: IsRouted(w, o)) ==> Ids(FirstPasses(w, ids)) == ids
  {
    assert forall i | 0 <= i < |ids| :: ids[i] in ids;
  }

  lemma DistinctParts(a: seq<string>, b: seq<string>)
    requires Distinct(a + b)
    ensures Distinct(a) && Distinct(b)
  {
    assert forall i | 0 <= i < |a| :: a[i] == (a + b)[i];
    assert forall i | 0 <= i < |b| :: b[i] == (a + b)[|a| + i];
  }

  /** One event of each list that has the objective. */
  lemma CountLists(p: Parts, w: World, routed: seq<string>, blocked: seq<string>, id: string)
    requires Covers(w, blocked + routed) && Covers(w, routed) && Covers(w, blocked)
    requires (forall o | o in routed :: IsRouted(w, o)) && PartsFit(p, w, routed, blocked) && Distinct(blocked + routed)
    ensures CountFor(AsEvents(p.first), id) == (if id in routed then 1 else 0)
    ensures CountFor(AsEvents(p.enriched), id) == (if id in routed then 1 else 0)
    ensures CountFor(AsEvents(p.blocked), id) == (if id in blocked then 1 else 0)
  {
    DistinctParts(blocked, routed);
    BaresDistinct(w, routed);
    BaresDistinct(w, blocked);
    CountDump(p.first, id);
    CountDump(p.enriched, id);
    CountDump(p.blocked, id);
  }

  lemma CountNarrated(w: World, ids: seq<string>, id: string)
    requires Covers(w, ids) && Distinct(ids) && id in ids
    ensures CountFor(AsEvents(WithNarration(NarrateAll(w, ids))), id) == if w.narration[id] != "" then 1 else 0
  {
    var all := NarrateAll(w, ids);
    BaresDistinct(w, ids);
    NarratedDistinct(all);
    CountDump(WithNarration(all), id);
    WhoIsNarrated(w, ids, id);
  }

  lemma WhoIsNarrated(w: World, ids: seq<string>, id: string)
    requires Covers(w, ids) && id in ids
    ensures id in Ids(WithNarration(NarrateAll(w, ids))) <==> w.narration[id] != ""
  {
    var all := NarrateAll(w, ids);
    var some := WithNarration(all);
    var i :| 0 <= i < |ids| && ids[i] == id;
    assert all[i] == FinalRoute(w, id) && all[i] in all;
    if w.narration[id] != "" {
      var k :| 0 <= k < |some| && some[k] == FinalRoute(w, id);
      assert Ids(some)[k] == id;
    }
    if id in Ids(some) {
      var k :| 0 <= k < |some| && Ids(some)[k] == id;
      assert some[k] in some;
    }
  }

  /** Every objective is sent once as routed or refused, once more when enriched, and once more when narrated. */
  lemma EventsPerObjective(objectives: seq<string>, w: World, schema: set<string>, o: string)
    requires ValidWorld(objectives, w, schema) && !Response(objectives, w).raised && o in objectives
    ensures CountFor(Response(objectives, w).events, o)
         == (if w.routing[o].Routed? then 2 else 1) + (if w.narration[o] != "" then 1 else 0)
  {
    var p, routed, blocked := PartsOf(objectives, w, schema);
    CountParts(Response(objectives, w).events, Heading(objectives, false), p, o);
    CountLists(p, w, routed, blocked, o);
    CountNarrated(w, blocked + routed, o);
  }

  // ---------------------------------------------------------------------------------------------
  // What is sent first, and in which order
  // ---------------------------------------------------------------------------------------------

  /** The `j`-th event is the first about `id`. */
  ghost predicate FirstAt(events: seq<Event>, id: string, j: nat) {
    && j < |events| && events[j].RouteEvent? && events[j].route.id == id
    && forall i | 0 <= i < j && events[i].RouteEvent? :: events[i].route.id != id
  }

  lemma FirstInDump(head: seq<Event>, routes: seq<Route>, tail: seq<Event>, i: nat)
    requires i < |routes| && Distinct(Ids(routes))
    requires forall e | e in head && e.RouteEvent? :: e.route.id != routes[i].id
    ensures FirstAt(head + AsEvents(routes) + tail, routes[i].id, |head| + i)
    ensures (head + AsEvents(routes) + tail)[|head| + i] == RouteEvent(routes[i])
  {
    var all := head + AsEvents(routes) + tail;
    forall k | 0 <= k < |head| + i && all[k].RouteEvent? ensures all[k].route.id != routes[i].id {
      if k < |head| {
        assert all[k] in head;
      } else {
        assert all[k] == RouteEvent(routes[k - |head|]) && Ids(routes)[k - |head|] != Ids(routes)[i];
      }
    }
  }

  lemma Regroup<T>(h: seq<T>, a: seq<T>, b: seq<T>, c: seq<T>, t: seq<T>)
    ensures h + (a + b + c) + t == h + a + (b + c + t)
    ensures h + (a + b + c) + t == (h + a) + b + (c + t)
  {
  }

  /** Where an objective's first event stands: after the heading, routed ones before refused ones. */
  lemma RoutedPlace(events: seq<Event>, heading: seq<Event>, p: Parts, i: nat)
    requires IsLaid(events, heading, p) && Distinct(Ids(p.first)) && i < |p.first|
    ensures FirstAt(events, p.first[i].id, |heading| + i) && events[|heading| + i] == RouteEvent(p.first[i])
  {
    var done: Event :| done.DoneEvent? && events == heading + Laid(p) + [done];
    Regroup(heading, AsEvents(p.first), AsEvents(p.blocked), Second(p), [done]);
    FirstInDump(heading, p.first, AsEvents(p.blocked) + Second(p) + [done], i);
  }

  lemma RefusedPlace(events: seq<Event>, heading: seq<Event>, p: Parts, i: nat)
    requires IsLaid(events, heading, p) && Distinct(Ids(p.blocked)) && i < |p.blocked|
    requires forall r | r in p.first :: r.id != p.blocked[i].id
    ensures FirstAt(events, p.blocked[i].id, |heading| + |p.first| + i)
    ensures events[|heading| + |p.first| + i] == RouteEvent(p.blocked[i])
  {
    var done: Event :| done.DoneEvent? && events == heading + Laid(p) + [done];
    var a := AsEvents(p.first);
    Regroup(heading, a, AsEvents(p.blocked), Second(p), [done]);
    forall e | e in heading + a && e.RouteEvent? ensures e.route.id != p.blocked[i].id {
      var k :| 0 <= k < |a| && a[k] == e;
      assert p.first[k] in p.first;
    }
    FirstInDump(heading + a, p.blocked, Second(p) + [done], i);
  }

  /** The place of an objective's first event, and what it carries. */
  function PlaceIn(routed: seq<string>, blocked: seq<string>, o: string): (i: nat)
    requires o in routed || o in blocked
  {
    if o in routed then Rank(routed, o) else |routed| + Rank(blocked, o)
  }

  lemma FirstRouted(
    events: seq<Event>, heading: seq<Event>, p: Parts, w: World, routed: seq<string>, blocked: seq<string>, o: string)
    requires Covers(w, blocked + routed) && Covers(w, routed) && Covers(w, blocked)
    requires (forall x | x in routed :: IsRouted(w, x)) && PartsFit(p, w, routed, blocked) && Distinct(routed)
    requires o in routed && IsLaid(events, heading, p)
    ensures FirstAt(events, o, |heading| + Rank(routed, o))
    ensures events[|heading| + Rank(routed, o)].route == FirstPass(w, o)
  {
    BaresDistinct(w, routed);
    RoutedPlace(events, heading, p, Rank(routed, o));
  }

  lemma FirstRefused(
    events: seq<Event>, heading: seq<Event>, p: Parts, w: World, routed: seq<string>, blocked: seq<string>, o: string)
    requires Covers(w, blocked + routed) && Covers(w, routed) && Covers(w, blocked)
    requires (forall x | x in routed :: IsRouted(w, x)) && PartsFit(p, w, routed, blocked) && Distinct(blocked)
    requires o in blocked && !IsRouted(w, o) && IsLaid(events, heading, p)
    ensures FirstAt(events, o, |heading| + |routed| + Rank(blocked, o))
    ensures events[|heading| + |routed| + Rank(blocked, o)].route == Bare(w, o)
  {
    BaresDistinct(w, blocked);
    forall r | r in p.first ensures r.id != o {
      var k :| 0 <= k < |p.first| && p.first[k] == r;
      assert routed[k] in routed;
    }
    RefusedPlace(events, heading, p, Rank(blocked, o));
  }

  lemma FirstPlace(
    events: seq<Event>, heading: seq<Event>, p: Parts, w: World, routed: seq<string>, blocked: seq<string>, o: string)
    requires Covers(w, blocked + routed) && Covers(w, routed) && Covers(w, blocked)
    requires (forall x | x in routed :: IsRouted(w, x)) && PartsFit(p, w, routed, blocked) && Distinct(blocked + routed)
    requires (forall x | x in blocked :: !IsRouted(w, x)) && (o in routed || o in blocked)
    requires IsLaid(events, heading, p)
    ensures FirstAt(events, o, |heading| + PlaceIn(routed, blocked, o))
    ensures events[|heading| + PlaceIn(routed, blocked, o)].route == if o in routed then FirstPass(w, o) else Bare(w, o)
  {
    DistinctParts(blocked, routed);
    if o in routed {
      FirstRouted(events, heading, p, w, routed, blocked, o);
    } else {
      FirstRefused(events, heading, p, w, routed, blocked, o);
    }
  }

  lemma OnlyOneFirst(events: seq<Event>, id: string, i: nat, j: nat)
    requires FirstAt(events, id, i) && FirstAt(events, id, j)
    ensures i == j
  {
  }

  /** The first event about an objective: as routed, with enrichment still to come, or refused. */
  lemma FirstIsAsRouted(objectives: seq<string>, w: World, schema: set<string>, o: string, j: nat)
    requires ValidWorld(objectives, w, schema) && !Response(objectives, w).raised && o in objectives
    requires FirstAt(Response(objectives, w).events, o, j)
    ensures Response(objectives, w).events[j].route.fields
         == match w.routing[o] case Routed(first, _) => first case NoRouteFound(b) => b case Broken(b) => b
  {
    var p, routed, blocked := PartsOf(objectives, w, schema);
    FirstFields(Response(objectives, w).events, Heading(objectives, false), p, w, routed, blocked, o, j);
  }

  lemma FirstFields(
    events: seq<Event>, heading: seq<Event>, p: Parts, w: World, routed: seq<string>, blocked: seq<string>, o: string, j: nat)
    requires Covers(w, blocked + routed) && Covers(w, routed) && Covers(w, blocked)
    requires (forall x | x in routed :: IsRouted(w, x)) && PartsFit(p, w, routed, blocked) && Distinct(blocked + routed)
    requires (forall x | x in blocked :: !IsRouted(w, x)) && (o in routed || o in blocked)
    requires IsLaid(events, heading, p) && FirstAt(events, o, j)
    ensures events[j].route == if o in routed then FirstPass(w, o) else Bare(w, o)
  {
    FirstPlace(events, heading, p, w, routed, blocked, o);
    OnlyOneFirst(events, o, j, |heading| + PlaceIn(routed, blocked, o));
  }

  ghost predicate Before(s: seq<string>, x: string, y: string) {
    exists i, j :: 0 <= i < j < |s| && s[i] == x && s[j] == y
  }

  lemma BeforeSnoc(s: seq<string>, l: string, x: string, y: string)
    ensures Before(s + [l], x, y) <==> Before(s, x, y) || (l == y && x in s)
  {
    var all := s + [l];
    if Before(s, x, y) {
      var i, j :| 0 <= i < j < |s| && s[i] == x && s[j] == y;
      assert all[i] == x && all[j] == y;
    }
    if l == y && x in s {
      var i :| 0 <= i < |s| && s[i] == x;
      assert all[i] == x && all[|s|] == y;
    }
    if Before(all, x, y) {
      var i, j :| 0 <= i < j < |all| && all[i] == x && all[j] == y;
      if j < |s| { assert s[i] == x && s[j] == y; } else { assert s[i] == x; }
    }
  }

  lemma {:induction false} WithoutKeepsOrder(ids: seq<string>, id: string, x: string, y: string)
    requires Before(ids, x, y) && x != id && y != id
    ensures Before(Without(ids, id), x, y)
    decreases |ids|
  {
    var before, l := Init(ids), Last(ids);
    assert ids == before + [l];
    BeforeSnoc(before, l, x, y);
    if Before(before, x, y) { WithoutKeepsOrder(before, id, x, y); }
    if l == id { assert Without(before, id) + [] == Without(before, id); } else { BeforeSnoc(Without(before, id), l, x, y); }
  }

  lemma {:induction false} SplitKeepsOrder(ids: seq<string>, w: World, x: string, y: string)
    requires Before(ids, x, y) && (IsRouted(w, x) <==> IsRouted(w, y))
    ensures IsRouted(w, x) ==> Before(RoutedIds(ids, w), x, y)
    ensures !IsRouted(w, x) ==> Before(BlockedIds(ids, w), x, y)
    decreases |ids|
  {
    var before, l := Init(ids), Last(ids);
    assert ids == before + [l];
    BeforeSnoc(before, l, x, y);
    if Before(before, x, y) { SplitKeepsOrder(before, w, x, y); }
    Classified(before, w);
    BeforeSnoc(RoutedIds(before, w), l, x, y);
    BeforeSnoc(BlockedIds(before, w), l, x, y);
    assert RoutedIds(before, w) + [] == RoutedIds(before, w) && BlockedIds(before, w) + [] == BlockedIds(before, w);
  }

  /** The fastest way comes first, the others as they were asked for. */
  ghost predicate Sooner(objectives: seq<string>, x: string, y: string) {
    x in objectives && y in objectives && y != "fastest" && (x == "fastest" || Before(objectives, x, y))
  }

  lemma SoonerIsOrdered(objectives: seq<string>, x: string, y: string)
    requires Sooner(objectives, x, y)
    ensures Before(Ordered(objectives), x, y)
  {
    if FASTEST in objectives {
      var rest := Without(objectives, FASTEST);
      if x == FASTEST {
        var j: nat :| j < |rest| && rest[j] == y;
        assert ([FASTEST] + rest)[0] == x && ([FASTEST] + rest)[j + 1] == y;
      } else {
        WithoutKeepsOrder(objectives, FASTEST, x, y);
        var i, j :| 0 <= i < j < |rest| && rest[i] == x && rest[j] == y;
        assert ([FASTEST] + rest)[i + 1] == x && ([FASTEST] + rest)[j + 1] == y;
      }
    }
  }

  /** Routed objectives are shown before refused ones, and each kind fastest first, then as asked. */
  lemma FirstsAreInOrder(objectives: seq<string>, w: World, schema: set<string>, x: string, y: string, i: nat, j: nat)
    requires ValidWorld(objectives, w, schema) && !Response(objectives, w).raised && x in objectives && y in objectives
    requires (w.routing[x].Routed? && !w.routing[y].Routed?)
             || (w.routing[x].Routed? == w.routing[y].Routed? && Sooner(objectives, x, y))
    requires FirstAt(Response(objectives, w).events, x, i) && FirstAt(Response(objectives, w).events, y, j)
    ensures i < j
  {
    var p, routed, blocked := PartsOf(objectives, w, schema);
    var events, heading := Response(objectives, w).events, Heading(objectives, false);
    FirstPlace(events, heading, p, w, routed, blocked, x);
    FirstPlace(events, heading, p, w, routed, blocked, y);
    OnlyOneFirst(events, x, i, |heading| + PlaceIn(routed, blocked, x));
    OnlyOneFirst(events, y, j, |heading| + PlaceIn(routed, blocked, y));
    if w.routing[x].Routed? == w.routing[y].Routed? {
      SoonerIsOrdered(objectives, x, y);
      SplitKeepsOrder(Ordered(objectives), w, x, y);
      DistinctParts(blocked, routed);
      BeforeRanks(if w.routing[x].Routed? then routed else blocked, x, y);
    }
  }

  lemma BeforeRanks(s: seq<string>, x: string, y: string)
    requires Before(s, x, y) && Distinct(s)
    ensures Rank(s, x) < Rank(s, y)
  {
    var i, j :| 0 <= i < j < |s| && s[i] == x && s[j] == y;
    RankOf(s, i);
    RankOf(s, j);
  }

  // ---------------------------------------------------------------------------------------------
  // Progress
  // ---------------------------------------------------------------------------------------------

  lemma HeadingSays(objectives: seq<string>, broken: bool)
    requires Distinct(objectives)
    ensures Progress(15) in Heading(objectives, broken) <==> "fastest" in objectives
    ensures Progress(35) in Heading(objectives, broken) <==> !broken && exists o :: o in objectives && o != "fastest"
  {
    if FASTEST in objectives {
      var rest := Without(objectives, FASTEST);
      assert |Ordered(objectives)| == |rest| + 1;
      if rest != [] { assert rest[0] in rest; }
    } else if objectives != [] {
      assert objectives[0] in objectives;
    }
  }

  /** The fastest way and the others are announced exactly when they are about to be routed. */
  lemma RoutingIsAnnouncedIff(objectives: seq<string>, w: World, schema: set<string>)
    requires ValidWorld(objectives, w, schema) && !w.outsideCoverage
    ensures var events := Response(objectives, w).events;
            && (Progress(15) in events <==> "fastest" in objectives)
            && (Progress(35) in events <==>
                  !("fastest" in objectives && w.routing["fastest"].Broken?) && exists o :: o in objectives && o != "fastest")
  {
    var broken := FASTEST in objectives && w.routing[FASTEST].Broken?;
    HeadingSays(objectives, broken);
    if !Response(objectives, w).raised {
      var p, _, _ := PartsOf(objectives, w, schema);
      NoMoreHeading(Response(objectives, w).events, Heading(objectives, false), p, 15);
      NoMoreHeading(Response(objectives, w).events, Heading(objectives, false), p, 35);
    }
  }

  lemma NoMoreHeading(events: seq<Event>, heading: seq<Event>, p: Parts, pct: int)
    requires IsLaid(events, heading, p) && pct < 36
    ensures Progress(pct) in events <==> Progress(pct) in heading
  {
    var done: Event :| done.DoneEvent? && events == heading + Laid(p) + [done];
    LaidClimbs(p);
    assert Progress(pct) !in Laid(p);
  }

  ghost predicate Climbs(events: seq<Event>) {
    forall i, j | 0 <= i < j < |events| && events[i].Progress? && events[j].Progress? :: events[i].pct < events[j].pct
  }

  ghost predicate Within(events: seq<Event>, lo: int, hi: int) {
    forall e | e in events && e.Progress? :: lo <= e.pct < hi
  }

  lemma ClimbsOn(a: seq<Event>, b: seq<Event>, lo: int, mid: int, hi: int)
    requires Climbs(a) && Climbs(b) && Within(a, lo, mid) && Within(b, mid, hi) && lo <= mid <= hi
    ensures Climbs(a + b) && Within(a + b, lo, hi)
  {
    forall i, j | 0 <= i < j < |a + b| && (a + b)[i].Progress? && (a + b)[j].Progress?
      ensures (a + b)[i].pct < (a + b)[j].pct
    {
      if j < |a| {
        assert a[i].pct < a[j].pct;
      } else if i < |a| {
        assert a[i] in a && b[j - |a|] in b;
      } else {
        assert b[i - |a|].pct < b[j - |a|].pct;
      }
    }
  }

  lemma SecondClimbs(p: Parts)
    ensures Climbs(Second(p)) && Within(Second(p), 36, 100)
  {
    var c, d := AsEvents(p.enriched), AsEvents(p.narrated);
    ClimbsOn([Progress(60)], c, 36, 61, 61);
    ClimbsOn([Progress(60)] + c, [Progress(90)], 36, 61, 91);
    ClimbsOn([Progress(60)] + c + [Progress(90)], d, 36, 91, 100);
  }

  lemma LaidClimbs(p: Parts)
    ensures Climbs(Laid(p)) && Within(Laid(p), 36, 100)
  {
    ClimbsOn(AsEvents(p.first), AsEvents(p.blocked), 36, 36, 36);
    SecondClimbs(p);
    ClimbsOn(AsEvents(p.first) + AsEvents(p.blocked), Second(p), 36, 36, 100);
  }

  lemma HeadingClimbs(objectives: seq<string>, broken: bool)
    ensures Climbs(Heading(objectives, broken)) && Within(Heading(objectives, broken), 5, 36)
  {
  }

  lemma WholeClimbs(events: seq<Event>, heading: seq<Event>, p: Parts)
    requires IsLaid(events, heading, p) && Climbs(heading) && Within(heading, 5, 36)
    ensures Climbs(events) && Within(events, 5, 100)
  {
    var done: Event :| done.DoneEvent? && events == heading + Laid(p) + [done];
    LaidClimbs(p);
    ClimbsOn(heading, Laid(p), 5, 36, 100);
    ClimbsOn(heading + Laid(p), [done], 5, 100, 100);
  }

  /** The percentages only go up, and stay between 5 and 100. */
  lemma ProgressClimbs(objectives: seq<string>, w: World, schema: set<string>)
    requires ValidWorld(objectives, w, schema)
    ensures Climbs(Response(objectives, w).events) && Within(Response(objectives, w).events, 5, 100)
  {
    HeadingClimbs(objectives, false);
    HeadingClimbs(objectives, true);
    if !Response(objectives, w).raised {
      var p, _, _ := PartsOf(objectives, w, schema);
      WholeClimbs(Response(objectives, w).events, Heading(objectives, false), p);
    }
  }
}
