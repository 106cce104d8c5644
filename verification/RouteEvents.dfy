/**
  The producer of a response. It routes each objective, emits every route as soon as it exists, again
  once enriched, and again once narrated, and ends with a payload holding the final list.

  What the upstreams answer is a `World`: arbitrary, except that a route is always dumped with the same
  set of keys and that narration is null until the narrator has filled it in.
*/
module RouteEvents {
  import opened Prelude
  import opened Events
  import opened Ranking

  /** `first` is the early emission with enrichment pending, `enriched` the second pass. */
  datatype Routing =
    | Routed(first: map<string, string>, enriched: map<string, string>)
    | NoRouteFound(blocked: map<string, string>)
    | Broken(blocked: map<string, string>)

  /** `narration` holds "" where the narrator returned None. */
  datatype World = World(
    outsideCoverage: bool, routing: map<string, Routing>, narration: map<string, string>, reason: Option<string>)

  datatype Produced = Produced(events: seq<Event>, raised: bool)

  const FASTEST := "fastest"
  const NARRATION := "narration"

  ghost predicate Shaped(w: World, schema: set<string>) {
    && NARRATION in schema
    && (forall o | o in w.routing ::
          match w.routing[o]
          case Routed(first, enriched) =>
            first.Keys == schema && enriched.Keys == schema && enriched[NARRATION] == ""
          case NoRouteFound(blocked) => blocked.Keys == schema && blocked[NARRATION] == ""
          case Broken(blocked) => blocked.Keys == schema && blocked[NARRATION] == "")
  }

  ghost predicate Covers(w: World, ids: seq<string>) {
    forall o | o in ids :: o in w.routing && o in w.narration
  }

  /** What request validation leaves: distinct objectives, at least one. */
  ghost predicate ValidWorld(objectives: seq<string>, w: World, schema: set<string>) {
    Distinct(objectives) && objectives != [] && Covers(w, objectives) && Shaped(w, schema)
  }

  /** `sorted(objectives, key=...)`: fastest first, the rest in the order asked. */
  function Ordered(objectives: seq<string>): seq<string> {
    if FASTEST in objectives then [FASTEST] + Without(objectives, FASTEST) else objectives
  }

  function Without(objectives: seq<string>, id: string): (rest: seq<string>)
    ensures forall o :: o in rest <==> o in objectives && o != id
    decreases |objectives|
  {
    if objectives == [] then []
    else Without(Init(objectives), id) + (if Last(objectives) == id then [] else [Last(objectives)])
  }

  predicate IsRouted(w: World, id: string) {
    id in w.routing && w.routing[id].Routed?
  }

  /** Ids whose routing succeeded, in order. */
  function RoutedIds(ids: seq<string>, w: World): (routed: seq<string>)
    decreases |ids|
  {
    if ids == [] then []
    else RoutedIds(Init(ids), w) + (if IsRouted(w, Last(ids)) then [Last(ids)] else [])
  }

  function BlockedIds(ids: seq<string>, w: World): (blocked: seq<string>)
    decreases |ids|
  {
    if ids == [] then []
    else BlockedIds(Init(ids), w) + (if IsRouted(w, Last(ids)) then [] else [Last(ids)])
  }

  lemma {:induction false} Classified(ids: seq<string>, w: World)
    ensures forall o :: o in RoutedIds(ids, w) <==> o in ids && IsRouted(w, o)
    ensures forall o :: o in BlockedIds(ids, w) <==> o in ids && !IsRouted(w, o)
    decreases |ids|
  {
    if ids != [] {
      Classified(Init(ids), w);
      assert ids == Init(ids) + [Last(ids)];
    }
  }

  function FirstPass(w: World, id: string): Route
    requires IsRouted(w, id)
  {
    Route(id, w.routing[id].first)
  }

  /** The route as it stands before narration: enriched, or blocked. */
  function Bare(w: World, id: string): Route
    requires id in w.routing
  {
    Route(id, if w.routing[id].Routed? then w.routing[id].enriched else w.routing[id].blocked)
  }

  function Narrated(w: World, r: Route): Route
    requires r.id in w.narration
  {
    Route(r.id, r.fields[NARRATION := w.narration[r.id]])
  }

  /** The specification of one objective's final route. */
  function FinalRoute(w: World, id: string): Route
    requires id in w.routing && id in w.narration
  {
    Narrated(w, Bare(w, id))
  }

  function AsEvents(routes: seq<Route>): (events: seq<Event>)
    ensures |events| == |routes|
    ensures forall i | 0 <= i < |events| :: events[i] == RouteEvent(routes[i])
  {
    seq(|routes|, i requires 0 <= i < |routes| => RouteEvent(routes[i]))
  }

  /** Route the objectives from position k on, sorting each into `routed` or `blocked`. */
  method RouteRest(ordered: seq<string>, w: World, k0: nat, routed0: seq<string>, blocked0: seq<string>)
    returns (routed: seq<string>, blocked: seq<string>)
    requires k0 <= |ordered|
    requires routed0 == RoutedIds(ordered[..k0], w) && blocked0 == BlockedIds(ordered[..k0], w)
    ensures routed == RoutedIds(ordered, w) && blocked == BlockedIds(ordered, w)
  {
    var k := k0;
    routed, blocked := routed0, blocked0;
    while k < |ordered|
      invariant k0 <= k <= |ordered|
      invariant routed == RoutedIds(ordered[..k], w)
      invariant blocked == BlockedIds(ordered[..k], w)
    {
      ClassifyNext(ordered, w, k);
      if IsRouted(w, ordered[k]) {
        routed := routed + [ordered[k]];
      } else {
        blocked := blocked + [ordered[k]];
      }
      k := k + 1;
    }
    assert ordered[..k] == ordered;
  }

  lemma ClassifyNext(ids: seq<string>, w: World, k: nat)
    requires k < |ids|
    ensures RoutedIds(ids[..k + 1], w) == RoutedIds(ids[..k], w) + (if IsRouted(w, ids[k]) then [ids[k]] else [])
    ensures BlockedIds(ids[..k + 1], w) == BlockedIds(ids[..k], w) + (if IsRouted(w, ids[k]) then [] else [ids[k]])
  {
    assert Init(ids[..k + 1]) == ids[..k];
  }

  /** First pass: every routed route at once, then every blocked one. */
  method EmitFirst(w: World, routed: seq<string>, blocked: seq<Route>) returns (events: seq<Event>)
    requires forall o | o in routed :: IsRouted(w, o)
    ensures events == AsEvents(FirstPasses(w, routed)) + AsEvents(blocked)
  {
    events := [];
    for i := 0 to |routed|
      invariant events == AsEvents(FirstPasses(w, routed))[..i]
    {
      events := events + [RouteEvent(FirstPass(w, routed[i]))];
    }
    ghost var first := events;
    for i := 0 to |blocked|
      invariant events == first + AsEvents(blocked)[..i]
    {
      events := events + [RouteEvent(blocked[i])];
    }
  }

  /** Second pass: the same routes, enriched, joining the blocked ones in `routes`. */
  method EmitEnriched(w: World, routed: seq<string>, blocked: seq<Route>)
    returns (events: seq<Event>, routes: seq<Route>)
    requires forall o | o in routed :: o in w.routing
    ensures events == AsEvents(Bares(w, routed))
    ensures routes == blocked + Bares(w, routed)
  {
    events, routes := [], blocked;
    for i := 0 to |routed|
      invariant events == AsEvents(Bares(w, routed))[..i]
      invariant routes == blocked + Bares(w, routed)[..i]
    {
      routes := routes + [Bare(w, routed[i])];
      events := events + [RouteEvent(Bare(w, routed[i]))];
    }
  }

  /** `_attach_narration`. */
  method AttachNarration(w: World, bare: seq<Route>) returns (routes: seq<Route>)
    requires forall r | r in bare :: r.id in w.narration
    ensures routes == NarrateEach(w, bare)
  {
    routes := [];
    for i := 0 to |bare|
      invariant routes == NarrateEach(w, bare)[..i]
    {
      routes := routes + [Narrated(w, bare[i])];
    }
  }

  /** The third emission: the routes that could be described. */
  method EmitNarrated(routes: seq<Route>) returns (events: seq<Event>)
    ensures events == AsEvents(WithNarration(routes))
  {
    events := [];
    for i := 0 to |routes|
      invariant events == AsEvents(WithNarration(routes[..i]))
    {
      assert Init(routes[..i + 1]) == routes[..i];
      if HasNarration(routes[i]) { events := events + [RouteEvent(routes[i])]; }
    }
    assert routes[..|routes|] == routes;
  }

  /**
    The generator, drained. The list `routes` is blocked objectives first, then routed ones; the sort
    at the end is Python's stable sort by requested position.
  */
  method Produce(objectives: seq<string>, w: World, ghost schema: set<string>) returns (p: Produced)
    requires ValidWorld(objectives, w, schema)
    ensures p == Response(objectives, w)
  {
    if w.outsideCoverage { return Produced([Progress(5)], true); }
    var ordered := Ordered(objectives);
    var heading, broken, routed, blocked := RouteAll(objectives, w);
    if broken || routed == [] { return Produced(heading, true); }
    Classified(ordered, w);
    var events, routes := EmitAll(w, routed, blocked);
    routes := SortByRank(objectives, routes);
    p := Produced(heading + events + [DoneEvent(Payload(routes, w.reason), false)], false);
  }

  /** Fastest alone and first, then the others; only a broken fastest raises at once. */
  method RouteAll(objectives: seq<string>, w: World)
    returns (events: seq<Event>, broken: bool, routed: seq<string>, blocked: seq<string>)
    requires FASTEST in objectives ==> FASTEST in w.routing
    ensures broken <==> FASTEST in objectives && w.routing[FASTEST].Broken?
    ensures events == Heading(objectives, broken)
    ensures !broken ==> routed == RoutedIds(Ordered(objectives), w) && blocked == BlockedIds(Ordered(objectives), w)
  {
    events := [Progress(5)];
    var ordered := Ordered(objectives);
    broken, routed, blocked := false, [], [];
    var k := 0;
    if FASTEST in objectives {
      events := events + [Progress(15)];
      match w.routing[FASTEST] {
        case Broken(_) => broken := true; return;
        case NoRouteFound(_) => blocked := [FASTEST];
        case Routed(_, _) => routed := [FASTEST];
      }
      k := 1;
      ClassifyNext(ordered, w, 0);
    }
    if k < |ordered| { events := events + [Progress(35)]; }
    routed, blocked := RouteRest(ordered, w, k, routed, blocked);
  }

  /** Both passes and the narration, over what was routed. */
  method EmitAll(w: World, routed: seq<string>, blocked: seq<string>) returns (events: seq<Event>, routes: seq<Route>)
    requires Covers(w, routed + blocked)
    requires forall o | o in routed :: IsRouted(w, o)
    ensures events == RouteStream(w, routed, blocked)
    ensures routes == NarrateAll(w, blocked + routed)
  {
    assert forall o | o in blocked :: o in routed + blocked;
    assert forall o | o in routed :: o in routed + blocked;
    assert Covers(w, blocked + routed);
    var blockedRoutes := Bares(w, blocked);
    events := EmitFirst(w, routed, blockedRoutes);
    var enriched, narrated;
    enriched, routes := EmitEnriched(w, routed, blockedRoutes);
    assert routes == Bares(w, blocked + routed);
    routes := AttachNarration(w, routes);
    assert routes == NarrateAll(w, blocked + routed);
    narrated := EmitNarrated(routes);
    events := events + [Progress(60)] + enriched + [Progress(90)] + narrated;
  }

  function FirstPasses(w: World, ids: seq<string>): (routes: seq<Route>)
    requires forall o | o in ids :: IsRouted(w, o)
    ensures |routes| == |ids| && forall i | 0 <= i < |ids| :: routes[i] == FirstPass(w, ids[i])
  {
    seq(|ids|, i requires 0 <= i < |ids| => FirstPass(w, ids[i]))
  }

  function Bares(w: World, ids: seq<string>): (routes: seq<Route>)
    requires forall o | o in ids :: o in w.routing
    ensures |routes| == |ids| && forall i | 0 <= i < |ids| :: routes[i] == Bare(w, ids[i])
  {
    seq(|ids|, i requires 0 <= i < |ids| => Bare(w, ids[i]))
  }

  function NarrateEach(w: World, bare: seq<Route>): (routes: seq<Route>)
    requires forall r | r in bare :: r.id in w.narration
    ensures |routes| == |bare| && forall i | 0 <= i < |bare| :: routes[i] == Narrated(w, bare[i])
  {
    seq(|bare|, i requires 0 <= i < |bare| => Narrated(w, bare[i]))
  }

  /** `_attach_narration`: each route keeps its place and gains what the narrator said. */
  function NarrateAll(w: World, ids: seq<string>): (routes: seq<Route>)
    requires Covers(w, ids)
    ensures |routes| == |ids| && forall i | 0 <= i < |ids| :: routes[i] == FinalRoute(w, ids[i])
  {
    seq(|ids|, i requires 0 <= i < |ids| => FinalRoute(w, ids[i]))
  }

  predicate HasNarration(r: Route) {
    NARRATION in r.fields && r.fields[NARRATION] != ""
  }

  function WithNarration(routes: seq<Route>): (some: seq<Route>)
    ensures forall r :: r in some <==> r in routes && HasNarration(r)
    decreases |routes|
  {
    if routes == [] then []
    else WithNarration(Init(routes)) + (if HasNarration(Last(routes)) then [Last(routes)] else [])
  }

  /** The progress events before any route exists. */
  function Heading(objectives: seq<string>, broken: bool): seq<Event> {
    var fast := FASTEST in objectives;
    [Progress(5)] + (if fast then [Progress(15)] else [])
    + (if !broken && |Ordered(objectives)| > (if fast then 1 else 0) then [Progress(35)] else [])
  }

  /** The whole response: either it raises, or it ends in one complete `done`. */
  function Response(objectives: seq<string>, w: World): Produced
    requires Covers(w, objectives)
  {
    var ordered := Ordered(objectives);
    var broken := FASTEST in objectives && w.routing[FASTEST].Broken?;
    var routed, blocked := RoutedIds(ordered, w), BlockedIds(ordered, w);
    Classified(ordered, w);
    if w.outsideCoverage then Produced([Progress(5)], true)
    else if broken || routed == [] then Produced(Heading(objectives, broken), true)
    else Produced(Heading(objectives, false) + RouteStream(w, routed, blocked)
                  + [DoneEvent(Payload(SortByRank(objectives, NarrateAll(w, blocked + routed)), w.reason), false)], false)
  }

  function RouteStream(w: World, routed: seq<string>, blocked: seq<string>): seq<Event>
    requires Covers(w, routed + blocked)
    requires forall o | o in routed :: IsRouted(w, o)
  {
    AsEvents(FirstPasses(w, routed)) + AsEvents(Bares(w, blocked)) + [Progress(60)]
    + AsEvents(Bares(w, routed)) + [Progress(90)] + AsEvents(WithNarration(NarrateAll(w, blocked + routed)))
  }
}
