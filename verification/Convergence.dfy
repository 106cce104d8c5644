/**
  The streamed view and the JSON answer are the same answer. For every response that ends in `done`,
  the payload holds exactly the requested routes in the requested order; it is the last-writer-wins
  merge of the route events; and the browser's screen, whatever was on it before, ends up equal to it.
*/
module Convergence {
  import opened Prelude
  import opened Events
  import opened Ranking
  import opened RouteEvents
  import opened Reducer
  import Deadline

  lemma {:induction false} LastForAppend(a: seq<Event>, b: seq<Event>, id: string)
    ensures LastFor(a + b, id) == if LastFor(b, id).Some? then LastFor(b, id) else LastFor(a, id)
    decreases |b|
  {
    if b == [] {
      assert a + b == a;
    } else {
      assert Init(a + b) == a + Init(b);
      LastForAppend(a, Init(b), id);
    }
  }

  lemma {:induction false} LastForDump(routes: seq<Route>, r: Route)
    requires r in routes && forall q | q in routes && q.id == r.id :: q == r
    ensures LastFor(AsEvents(routes), r.id) == Some(r)
    decreases |routes|
  {
    var events := AsEvents(routes);
    assert Init(events) == AsEvents(Init(routes));
    assert Last(routes) in routes;
    if Last(routes).id != r.id {
      assert routes == Init(routes) + [Last(routes)];
      LastForDump(Init(routes), r);
    }
  }

  lemma {:induction false} LastForAbsent(routes: seq<Route>, id: string)
    requires forall q | q in routes :: q.id != id
    ensures LastFor(AsEvents(routes), id) == None
    decreases |routes|
  {
    if routes != [] {
      assert Init(AsEvents(routes)) == AsEvents(Init(routes));
      assert Last(routes) in routes;
      LastForAbsent(Init(routes), id);
    }
  }

  lemma NoLastInProgress(pct: int, id: string)
    ensures LastFor([Progress(pct)], id) == None
  {
    assert Init([Progress(pct)]) == [];
  }

  /** What is fixed about a finished response: the final route of each objective. */
  ghost function FinalRoutes(objectives: seq<string>, w: World): (routes: seq<Route>)
    requires Covers(w, objectives)
    ensures |routes| == |objectives|
    ensures forall i | 0 <= i < |objectives| :: routes[i] == FinalRoute(w, objectives[i])
  {
    NarrateAll(w, objectives)
  }

  /** The last event about an objective carries its final route, narrated or not. */
  lemma StreamLast(w: World, routed: seq<string>, blocked: seq<string>, id: string, schema: set<string>)
    requires Covers(w, blocked + routed) && Covers(w, routed + blocked) && Shaped(w, schema)
    requires forall o | o in routed :: IsRouted(w, o)
    requires forall o | o in blocked :: !IsRouted(w, o)
    requires id in blocked + routed
    ensures LastFor(RouteStream(w, routed, blocked), id) == Some(FinalRoute(w, id))
  {
    assert forall o | o in blocked + routed :: o in w.routing;
    assert forall o | o in blocked :: o in blocked + routed;
    PassesLast(w, routed, blocked, id);
    NarrationLast(AsEvents(FirstPasses(w, routed)) + AsEvents(Bares(w, blocked)) + [Progress(60)]
                  + AsEvents(Bares(w, routed)) + [Progress(90)], w, blocked + routed, id, schema);
  }

  /** Narration has the last word where it has one, and repeats the bare route where it has none. */
  lemma NarrationLast(passes: seq<Event>, w: World, ids: seq<string>, id: string, schema: set<string>)
    requires Covers(w, ids) && Shaped(w, schema) && id in ids
    requires LastFor(passes, id) == Some(Bare(w, id))
    ensures LastFor(passes + AsEvents(WithNarration(NarrateAll(w, ids))), id) == Some(FinalRoute(w, id))
  {
    var narrated := NarrateAll(w, ids);
    var final := FinalRoute(w, id);
    LastForAppend(passes, AsEvents(WithNarration(narrated)), id);
    assert final in narrated by {
      var i :| 0 <= i < |ids| && ids[i] == id;
      assert narrated[i] == final;
    }
    if HasNarration(final) {
      LastForDump(WithNarration(narrated), final);
    } else {
      LastForAbsent(WithNarration(narrated), id);
      Unnarrated(w, id, schema);
    }
  }

  lemma PassesLast(w: World, routed: seq<string>, blocked: seq<string>, id: string)
    requires forall o | o in blocked + routed :: o in w.routing
    requires forall o | o in routed :: IsRouted(w, o)
    requires forall o | o in blocked :: !IsRouted(w, o) && o in w.routing
    requires id in blocked + routed
    ensures LastFor(AsEvents(FirstPasses(w, routed)) + AsEvents(Bares(w, blocked)) + [Progress(60)]
                    + AsEvents(Bares(w, routed)) + [Progress(90)], id) == Some(Bare(w, id))
  {
    var a, b, c := AsEvents(FirstPasses(w, routed)), AsEvents(Bares(w, blocked)), AsEvents(Bares(w, routed));
    LastForAppend(a + b + [Progress(60)] + c, [Progress(90)], id);
    NoLastInProgress(90, id);
    LastForAppend(a + b + [Progress(60)], c, id);
    if id in routed {
      InBares(w, routed, id);
      LastForDump(Bares(w, routed), Bare(w, id));
    } else {
      LastForAbsent(Bares(w, routed), id);
      LastForAppend(a + b, [Progress(60)], id);
      NoLastInProgress(60, id);
      LastForAppend(a, b, id);
      InBares(w, blocked, id);
      LastForDump(Bares(w, blocked), Bare(w, id));
    }
  }

  lemma InBares(w: World, ids: seq<string>, id: string)
    requires forall o | o in ids :: o in w.routing
    requires id in ids
    ensures Bare(w, id) in Bares(w, ids)
  {
    var i :| 0 <= i < |ids| && ids[i] == id;
    assert Bares(w, ids)[i] == Bare(w, id);
  }

  lemma Unnarrated(w: World, id: string, schema: set<string>)
    requires Shaped(w, schema) && id in w.routing && id in w.narration && !HasNarration(FinalRoute(w, id))
    ensures FinalRoute(w, id) == Bare(w, id)
  {
    assert Bare(w, id).fields[NARRATION := ""] == Bare(w, id).fields;
  }

  lemma OrderedIsSame(objectives: seq<string>)
    ensures forall o :: o in Ordered(objectives) <==> o in objectives
    ensures Distinct(objectives) ==> Distinct(Ordered(objectives))
  {
    if FASTEST in objectives {
      WithoutKeepsDistinct(objectives, FASTEST);
    }
  }

  lemma {:induction false} WithoutKeepsDistinct(ids: seq<string>, id: string)
    ensures Distinct(ids) ==> Distinct(Without(ids, id))
    decreases |ids|
  {
    if ids != [] && Distinct(ids) {
      WithoutKeepsDistinct(Init(ids), id);
      forall o | o in Without(Init(ids), id) ensures o != Last(ids) {
        var i :| 0 <= i < |ids| - 1 && Init(ids)[i] == o;
        assert ids[i] != ids[|ids| - 1];
      }
      DistinctSnoc(Without(Init(ids), id), Last(ids));
      assert Without(Init(ids), id) + [] == Without(Init(ids), id);
    }
  }

  lemma DistinctSnoc(s: seq<string>, x: string)
    requires Distinct(s) && x !in s
    ensures Distinct(s + [x])
  {
    forall i, j | 0 <= i < j < |s + [x]| ensures (s + [x])[i] != (s + [x])[j] {
      assert s[i] in s;
    }
  }

  lemma {:induction false} ClassifiedDistinct(ids: seq<string>, w: World)
    requires Distinct(ids)
    ensures Distinct(BlockedIds(ids, w) + RoutedIds(ids, w))
    decreases |ids|
  {
    if ids != [] {
      var before, l := Init(ids), Last(ids);
      ClassifiedDistinct(before, w);
      Classified(before, w);
      assert forall i | 0 <= i < |before| :: ids[i] != ids[|before|];
      assert l !in before;
      var b, r := BlockedIds(before, w), RoutedIds(before, w);
      if IsRouted(w, l) {
        assert BlockedIds(ids, w) + RoutedIds(ids, w) == (b + r) + [l];
        DistinctSnoc(b + r, l);
      } else {
        DistinctInsert(b, r, l);
        assert BlockedIds(ids, w) + RoutedIds(ids, w) == (b + [l]) + r;
      }
    }
  }

  lemma DistinctInsert(b: seq<string>, r: seq<string>, l: string)
    requires Distinct(b + r) && l !in b && l !in r
    ensures Distinct((b + [l]) + r)
  {
    var all := (b + [l]) + r;
    forall i, j | 0 <= i < j < |all| ensures all[i] != all[j] {
      var i', j' := if i > |b| then i - 1 else i, if j > |b| then j - 1 else j;
      if i != |b| && j != |b| { assert (b + r)[i'] == all[i] && (b + r)[j'] == all[j]; }
    }
  }

  ghost predicate Finishes(objectives: seq<string>, w: World)
    requires Covers(w, objectives)
  {
    !Response(objectives, w).raised
  }

  ghost function Answer(objectives: seq<string>, w: World): seq<Route>
    requires Covers(w, objectives) && Finishes(objectives, w)
  {
    Last(Response(objectives, w).events).payload.routes
  }

  /** The route list before sorting has exactly the requested ids, each with its final route. */
  lemma UnsortedAnswer(objectives: seq<string>, w: World, schema: set<string>)
    requires ValidWorld(objectives, w, schema)
    ensures var ids := BlockedIds(Ordered(objectives), w) + RoutedIds(Ordered(objectives), w);
            && Covers(w, ids) && Distinct(Ids(NarrateAll(w, ids)))
            && forall r :: r in NarrateAll(w, ids) <==> r.id in objectives && r == FinalRoute(w, r.id)
  {
    var ordered := Ordered(objectives);
    var ids := BlockedIds(ordered, w) + RoutedIds(ordered, w);
    OrderedIsSame(objectives);
    Classified(ordered, w);
    ClassifiedDistinct(ordered, w);
    assert forall o :: o in ids <==> o in objectives;
    var all := NarrateAll(w, ids);
    assert Ids(all) == ids;
    forall r ensures r in all <==> r.id in objectives && r == FinalRoute(w, r.id) {
      if r.id in objectives && r == FinalRoute(w, r.id) {
        var i :| 0 <= i < |ids| && ids[i] == r.id;
        assert all[i] == r;
      }
    }
  }

  /** One route per requested objective, in the requested order, each the final one. */
  lemma AnswerIsRequested(objectives: seq<string>, w: World, schema: set<string>)
    requires ValidWorld(objectives, w, schema) && Finishes(objectives, w)
    ensures Ids(Answer(objectives, w)) == objectives
    ensures Answer(objectives, w) == FinalRoutes(objectives, w)
  {
    var ids := BlockedIds(Ordered(objectives), w) + RoutedIds(Ordered(objectives), w);
    UnsortedAnswer(objectives, w, schema);
    var all := NarrateAll(w, ids);
    var sorted := SortByRank(objectives, all);
    assert Answer(objectives, w) == sorted;
    SortKeeps(objectives, all);
    forall o | o in objectives ensures o in Ids(sorted) {
      var r := FinalRoute(w, o);
      assert r in sorted;
      var i :| 0 <= i < |sorted| && sorted[i] == r;
      assert Ids(sorted)[i] == o;
    }
    SortedIsRequested(objectives, sorted);
    forall i | 0 <= i < |objectives| ensures sorted[i] == FinalRoutes(objectives, w)[i] {
      assert sorted[i] in sorted && Ids(sorted)[i] == objectives[i];
    }
  }

  /** Each objective's last route event is the payload's route: last writer wins. */
  lemma AnswerIsLastWriter(objectives: seq<string>, w: World, schema: set<string>, id: string)
    requires ValidWorld(objectives, w, schema) && Finishes(objectives, w) && id in objectives
    ensures LastFor(Response(objectives, w).events, id) == Some(FinalRoute(w, id))
  {
    var ordered := Ordered(objectives);
    var routed, blocked := RoutedIds(ordered, w), BlockedIds(ordered, w);
    OrderedIsSame(objectives);
    Classified(ordered, w);
    assert Covers(w, routed + blocked) && Covers(w, blocked + routed);
    var heading, stream := Heading(objectives, false), RouteStream(w, routed, blocked);
    var done := Last(Response(objectives, w).events);
    assert Init([done]) == [];
    LastForAppend(heading + stream, [done], id);
    LastForAppend(heading, stream, id);
    StreamLast(w, routed, blocked, id, schema);
  }

  /** Progress, or a route dumped in full: every event of a response but its last. */
  ghost predicate Emits(events: seq<Event>, schema: set<string>) {
    forall i | 0 <= i < |events| ::
      events[i].Progress? || (events[i].RouteEvent? && events[i].route.fields.Keys == schema)
  }

  lemma EmitsAppend(a: seq<Event>, b: seq<Event>, schema: set<string>)
    requires Emits(a, schema) && Emits(b, schema)
    ensures Emits(a + b, schema)
  {
  }

  /** Every route is dumped with all its keys. */
  ghost predicate Full(routes: seq<Route>, schema: set<string>) {
    forall i | 0 <= i < |routes| :: routes[i].fields.Keys == schema
  }

  lemma DumpEmits(routes: seq<Route>, schema: set<string>)
    requires Full(routes, schema)
    ensures Emits(AsEvents(routes), schema)
  {
  }

  lemma StreamEmits(w: World, routed: seq<string>, blocked: seq<string>, schema: set<string>)
    requires Covers(w, routed + blocked) && Covers(w, blocked + routed) && Shaped(w, schema)
    requires forall o | o in routed :: IsRouted(w, o)
    ensures Emits(RouteStream(w, routed, blocked), schema)
  {
    assert forall o | o in routed :: o in blocked + routed;
    assert forall o | o in blocked :: o in blocked + routed;
    var a, b, c := FirstPasses(w, routed), Bares(w, blocked), Bares(w, routed);
    var d := WithNarration(NarrateAll(w, blocked + routed));
    FirstPassesFit(w, routed, schema);
    BaresFit(w, blocked, schema);
    BaresFit(w, routed, schema);
    NarratedFit(w, blocked + routed, schema);
    FourDumps(a, b, c, d, schema);
  }

  lemma FourDumps(a: seq<Route>, b: seq<Route>, c: seq<Route>, d: seq<Route>, schema: set<string>)
    requires Full(a, schema) && Full(b, schema) && Full(c, schema) && Full(d, schema)
    ensures Emits(AsEvents(a) + AsEvents(b) + [Progress(60)] + AsEvents(c) + [Progress(90)] + AsEvents(d), schema)
  {
    DumpEmits(a, schema);
    DumpEmits(b, schema);
    DumpEmits(c, schema);
    DumpEmits(d, schema);
    EmitsAppend(AsEvents(a), AsEvents(b), schema);
    EmitsAppend(AsEvents(a) + AsEvents(b), [Progress(60)], schema);
    EmitsAppend(AsEvents(a) + AsEvents(b) + [Progress(60)], AsEvents(c), schema);
    EmitsAppend(AsEvents(a) + AsEvents(b) + [Progress(60)] + AsEvents(c), [Progress(90)], schema);
    EmitsAppend(AsEvents(a) + AsEvents(b) + [Progress(60)] + AsEvents(c) + [Progress(90)], AsEvents(d), schema);
  }

  lemma FirstPassesFit(w: World, ids: seq<string>, schema: set<string>)
    requires Shaped(w, schema) && forall o | o in ids :: IsRouted(w, o)
    ensures Full(FirstPasses(w, ids), schema)
  {
    assert forall i | 0 <= i < |ids| :: IsRouted(w, ids[i]);
  }

  lemma BaresFit(w: World, ids: seq<string>, schema: set<string>)
    requires Covers(w, ids) && Shaped(w, schema)
    ensures Full(Bares(w, ids), schema)
  {
    assert forall i | 0 <= i < |ids| :: ids[i] in w.routing;
  }

  lemma FinalFits(w: World, id: string, schema: set<string>)
    requires id in w.routing && id in w.narration && Shaped(w, schema)
    ensures FinalRoute(w, id).fields.Keys == schema
  {
    assert FinalRoute(w, id).fields.Keys == Bare(w, id).fields.Keys + {NARRATION};
  }

  lemma NarratedFit(w: World, ids: seq<string>, schema: set<string>)
    requires Covers(w, ids) && Shaped(w, schema)
    ensures Full(WithNarration(NarrateAll(w, ids)), schema)
  {
    var all := NarrateAll(w, ids);
    var d := WithNarration(all);
    forall i | 0 <= i < |d| ensures d[i].fields.Keys == schema {
      assert d[i] in d;
      var k :| 0 <= k < |ids| && all[k] == d[i];
      FinalFits(w, ids[k], schema);
    }
  }

  lemma ResponseEmits(objectives: seq<string>, w: World, schema: set<string>)
    requires ValidWorld(objectives, w, schema)
    ensures var p := Response(objectives, w);
            if p.raised then Emits(p.events, schema)
            else p.events != [] && Emits(Init(p.events), schema) && CompleteDone(Last(p.events))
  {
    var p := Response(objectives, w);
    if !p.raised { UnraisedEmits(objectives, w, schema, p.events); }
  }

  lemma UnraisedEmits(objectives: seq<string>, w: World, schema: set<string>, events: seq<Event>)
    requires ValidWorld(objectives, w, schema) && Finishes(objectives, w)
    requires events == Response(objectives, w).events
    ensures events != [] && Emits(Init(events), schema) && CompleteDone(Last(events))
  {
    AllCovered(objectives, w, schema);
    PartsEmit(objectives, w, schema, RoutedIds(Ordered(objectives), w), BlockedIds(Ordered(objectives), w), events);
  }

  lemma PartsEmit(
    objectives: seq<string>, w: World, schema: set<string>, routed: seq<string>, blocked: seq<string>, events: seq<Event>)
    requires Covers(w, routed + blocked) && Covers(w, blocked + routed) && Shaped(w, schema)
    requires forall o | o in routed :: IsRouted(w, o)
    requires events == Heading(objectives, false) + RouteStream(w, routed, blocked)
             + [DoneEvent(Payload(SortByRank(objectives, NarrateAll(w, blocked + routed)), w.reason), false)]
    ensures events != [] && Emits(Init(events), schema) && CompleteDone(Last(events))
  {
    StreamEmits(w, routed, blocked, schema);
    HeadingEmits(objectives, schema);
    var payload := Payload(SortByRank(objectives, NarrateAll(w, blocked + routed)), w.reason);
    EmitsThenDone(events, Heading(objectives, false), RouteStream(w, routed, blocked), payload, schema);
  }

  lemma HeadingEmits(objectives: seq<string>, schema: set<string>)
    ensures Emits(Heading(objectives, false), schema)
  {
  }

  lemma EmitsThenDone(events: seq<Event>, heading: seq<Event>, stream: seq<Event>, payload: Payload, schema: set<string>)
    requires Emits(heading, schema) && Emits(stream, schema)
    requires events == heading + stream + [DoneEvent(payload, false)]
    ensures events != [] && Emits(Init(events), schema) && CompleteDone(Last(events))
  {
    assert Init(events) == heading + stream;
  }

  lemma AllCovered(objectives: seq<string>, w: World, schema: set<string>)
    requires ValidWorld(objectives, w, schema)
    ensures var routed, blocked := RoutedIds(Ordered(objectives), w), BlockedIds(Ordered(objectives), w);
            && Covers(w, routed + blocked) && Covers(w, blocked + routed)
            && forall o | o in routed :: IsRouted(w, o)
  {
    OrderedIsSame(objectives);
    Classified(Ordered(objectives), w);
  }

  lemma ResponseDumps(objectives: seq<string>, w: World, schema: set<string>)
    requires ValidWorld(objectives, w, schema) && Finishes(objectives, w)
    ensures FullDumps(Response(objectives, w).events, schema)
  {
    var events := Response(objectives, w).events;
    ResponseEmits(objectives, w, schema);
    forall e | e in events && e.RouteEvent? ensures e.route.fields.Keys == schema {
      var i :| 0 <= i < |events| && events[i] == e;
      assert i < |events| - 1 && Init(events)[i] == e;
    }
  }

  /**
    The streamed view converges to the JSON answer. `shown` is whatever the previous search or a
    replay left on the screen; the objectives of the screen are those of the request.
  */
  lemma StreamConverges(objectives: seq<string>, w: World, schema: set<string>, shown: seq<Route>)
    requires ValidWorld(objectives, w, schema) && Finishes(objectives, w)
    requires AllFit(shown, schema)
    ensures Screen(shown, objectives, Response(objectives, w).events) == Answer(objectives, w)
    ensures "servedFromCache" !in schema ==>
              !Replayed(Screen(shown, objectives, Response(objectives, w).events))
  {
    var events := Response(objectives, w).events;
    ResponseDumps(objectives, w, schema);
    ScreenIsLastWriter(shown, objectives, events, schema);
    forall o | o in objectives ensures LastFor(events, o) == Some(FinalRoute(w, o)) {
      AnswerIsLastWriter(objectives, w, schema, o);
    }
    NoRouteNoLast(events);
    assert SomeRoute(events) by { assert LastFor(events, objectives[0]).Some?; }
    var screen := Screen(shown, objectives, events);
    forall o | o in objectives ensures o in Ids(screen) {
      assert FinalRoute(w, o) in screen;
      var i :| 0 <= i < |screen| && screen[i] == FinalRoute(w, o);
      assert Ids(screen)[i] == o;
    }
    SortedIsRequested(objectives, screen);
    AnswerIsRequested(objectives, w, schema);
    forall i | 0 <= i < |objectives| ensures screen[i] == Answer(objectives, w)[i] {
      assert screen[i] in screen && Ids(screen)[i] == objectives[i];
    }
    FinalShape(objectives, w, schema);
  }

  lemma FinalShape(objectives: seq<string>, w: World, schema: set<string>)
    requires ValidWorld(objectives, w, schema)
    ensures forall r | r in FinalRoutes(objectives, w) :: r.fields.Keys == schema
  {
    forall r | r in FinalRoutes(objectives, w) ensures r.fields.Keys == schema {
      assert r == FinalRoute(w, r.id);
      FinalFits(w, r.id, schema);
    }
  }

  /** The payload is also the insertion-ordered merge of its own route events, put in requested order. */
  lemma AnswerIsSortedMerge(objectives: seq<string>, w: World, schema: set<string>)
    requires ValidWorld(objectives, w, schema) && Finishes(objectives, w)
    ensures forall r :: r in Answer(objectives, w) <==>
              r.id in objectives && r in MergeOnto([], Response(objectives, w).events)
  {
    var events := Response(objectives, w).events;
    MergeIsLastWriter([], events);
    AnswerIsRequested(objectives, w, schema);
    forall r ensures r in Answer(objectives, w) <==> r.id in objectives && r in MergeOnto([], events) {
      if r.id in objectives {
        AnswerIsLastWriter(objectives, w, schema, r.id);
        var i :| 0 <= i < |objectives| && objectives[i] == r.id;
        assert FinalRoutes(objectives, w)[i] == FinalRoute(w, r.id);
      }
    }
  }

  /** Every response is what the deadline's `DoneLast` asks for. */
  lemma ResponseEndsInDone(objectives: seq<string>, w: World, schema: set<string>, script: seq<Deadline.Turn>)
    requires ValidWorld(objectives, w, schema)
    requires Deadline.Outputs(script) == Response(objectives, w).events
    ensures Deadline.DoneLast(script)
  {
    var p := Response(objectives, w);
    ResponseEmits(objectives, w, schema);
    forall i | 0 <= i < |script| && Terminal(script[i].event)
      ensures CompleteDone(script[i].event) && i == |script| - 1
    {
      assert Deadline.Outputs(script)[i] == p.events[i];
      assert !p.raised ==> p.events == Init(p.events) + [Last(p.events)];
    }
  }
}
