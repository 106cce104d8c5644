/**
 * What the two candidate searches in backend/routing.py share: asking the router for candidates,
 * with or without paying for each, and taking the first of a stable sort by descending merit.
 */
module Search {
  import opened Prelude
  import opened Geometry

  /** A route as the router returned it: its line, heights and path details, and how long it takes. */
  datatype Raw = Raw(points: seq<LatLon>, elevations: seq<real>, details: string, duration: real)

  /** One candidate: how hard to hold to the direct way, and the scale of a loop's length. */
  datatype Spec = Spec(influence: int, scale: real)

  datatype Outcome = Routed(route: Raw) | Failed(error: string)

  type Router = Spec -> Outcome

  datatype Hunt = Tried(routes: seq<Raw>) | Broke(error: string)

  // ---------- Asking for candidates ----------

  /** The routes among the answers, in order: failures are dropped. */
  function Survivors(specs: seq<Spec>, router: Router): seq<Raw>
    decreases |specs|
  {
    if specs == [] then [] else Survivors(Init(specs), router) + Survivor(router(Last(specs)))
  }

  function Survivor(o: Outcome): seq<Raw> {
    match o
    case Routed(r) => [r]
    case Failed(_) => []
  }

  /** The first failure, which is what is raised when nothing survived. */
  function FirstError(specs: seq<Spec>, router: Router): string
    requires specs != [] && Survivors(specs, router) == []
    decreases |specs|
  {
    if |specs| == 1 then router(specs[0]).error else FirstError(Init(specs), router)
  }

  /** It is the first candidate's: nothing came back, so that one failed too. */
  lemma {:induction false} FirstErrorIsFirst(specs: seq<Spec>, router: Router)
    requires specs != [] && Survivors(specs, router) == []
    ensures router(specs[0]).Failed? && FirstError(specs, router) == router(specs[0]).error
    decreases |specs|
  {
    if |specs| == 1 {
      assert Init(specs) == [];
    } else {
      FirstErrorIsFirst(Init(specs), router);
    }
  }

  /** Every candidate asked for, against a server that charges nothing. */
  function Unmetered(specs: seq<Spec>, router: Router): Hunt
    requires specs != []
  {
    if Survivors(specs, router) == [] then Broke(FirstError(specs, router)) else Tried(Survivors(specs, router))
  }

  /** One at a time until `enough`; a failure on the way ends the search. */
  function Metered(specs: seq<Spec>, router: Router, enough: Raw -> bool): Hunt {
    if specs == [] then Tried([])
    else match router(specs[0])
      case Failed(e) => Broke(e)
      case Routed(r) => if enough(r) then Tried([r]) else Onto([r], Metered(specs[1..], router, enough))
  }

  function Onto(seen: seq<Raw>, rest: Hunt): Hunt {
    match rest
    case Broke(_) => rest
    case Tried(routes) => Tried(seen + routes)
  }

  lemma OntoTwice(a: seq<Raw>, b: seq<Raw>, h: Hunt)
    ensures Onto(a, Onto(b, h)) == Onto(a + b, h)
  {
    if h.Tried? { assert a + (b + h.routes) == a + b + h.routes; }
  }

  /** One more candidate that was not enough. */
  lemma MeteredStep(
    specs: seq<Spec>, router: Router, enough: Raw -> bool, seen: seq<Raw>, i: nat, r: Raw)
    requires i < |specs| && router(specs[i]) == Routed(r) && !enough(r)
    ensures Onto(seen, Metered(specs[i..], router, enough)) == Onto(seen + [r], Metered(specs[i + 1..], router, enough))
  {
    assert specs[i..][1..] == specs[i + 1..];
    OntoTwice(seen, [r], Metered(specs[i + 1..], router, enough));
  }

  function Hunted(specs: seq<Spec>, router: Router, enough: Raw -> bool, unmetered: bool): Hunt
    requires specs != []
  {
    if unmetered then Unmetered(specs, router) else Metered(specs, router, enough)
  }

  /** The gathered search: every answer in, failures noted and dropped, nothing left raised. */
  method Gather(specs: seq<Spec>, router: Router) returns (h: Hunt)
    requires specs != []
    ensures h == Unmetered(specs, router)
  {
    var results: seq<Raw> := [];
    var first: Option<string> := None;
    for i := 0 to |specs|
      invariant results == Survivors(specs[..i], router)
      invariant i > 0 && results == [] ==> first == Some(FirstError(specs[..i], router))
      invariant i == 0 ==> first == None
    {
      assert Init(specs[..i + 1]) == specs[..i];
      match router(specs[i]) {
        case Routed(r) => results := results + [r];
        case Failed(e) => if first == None { first := Some(e); }
      }
    }
    assert specs[..|specs|] == specs;
    if results == [] { return Broke(first.value); }
    return Tried(results);
  }

  lemma {:induction false} SurvivorsAreAnswers(specs: seq<Spec>, router: Router, r: Raw)
    ensures r in Survivors(specs, router) <==> exists s :: s in specs && router(s) == Routed(r)
    decreases |specs|
  {
    if specs != [] {
      SurvivorsAreAnswers(Init(specs), router, r);
      assert specs == Init(specs) + [Last(specs)];
    }
  }

  /** A search always has something to choose from, unless it raised. */
  lemma TriedIsNeverEmpty(specs: seq<Spec>, router: Router, enough: Raw -> bool, unmetered: bool)
    requires specs != []
    ensures Hunted(specs, router, enough, unmetered).Tried? ==> Hunted(specs, router, enough, unmetered).routes != []
  {
  }

  /** The paid search stops at the first route that is enough: only the last one tried can be. */
  lemma {:induction false} OnlyTheLastIsEnough(specs: seq<Spec>, router: Router, enough: Raw -> bool)
    requires Metered(specs, router, enough).Tried?
    ensures forall i {:trigger Metered(specs, router, enough).routes[i]} ::
              0 <= i < |Metered(specs, router, enough).routes| - 1 ==> !enough(Metered(specs, router, enough).routes[i])
    decreases |specs|
  {
    if specs != [] && !enough(router(specs[0]).route) { OnlyTheLastIsEnough(specs[1..], router, enough); }
  }

  /** It pays for nothing past that route: what the rest would have answered makes no difference. */
  lemma {:induction false} NothingPastEnoughIsAsked(specs: seq<Spec>, router: Router, other: Router, enough: Raw -> bool, k: nat)
    requires k < |specs| && router(specs[k]).Routed? && enough(router(specs[k]).route)
    requires forall i {:trigger specs[i]} :: 0 <= i <= k ==> router(specs[i]) == other(specs[i])
    ensures Metered(specs, router, enough) == Metered(specs, other, enough)
    decreases k
  {
    assert router(specs[0]) == other(specs[0]);
    if k > 0 {
      assert forall i :: 0 <= i < k ==> specs[1..][i] == specs[i + 1];
      NothingPastEnoughIsAsked(specs[1..], router, other, enough, k - 1);
    }
  }

  /** The routes the candidates after the stop would have given. */
  function Unasked(specs: seq<Spec>, router: Router, enough: Raw -> bool): seq<Raw> {
    if specs == [] then []
    else match router(specs[0])
      case Failed(_) => []
      case Routed(r) => if enough(r) then Survivors(specs[1..], router) else Unasked(specs[1..], router, enough)
  }

  lemma {:induction false} SurvivorsAppend(a: seq<Spec>, b: seq<Spec>, router: Router)
    ensures Survivors(a + b, router) == Survivors(a, router) + Survivors(b, router)
    decreases |b|
  {
    if b == [] {
      assert a + b == a;
    } else {
      var most, last := Init(b), Last(b);
      assert a + b == (a + most) + [last];
      assert Init((a + most) + [last]) == a + most;
      SurvivorsAppend(a, most, router);
      Associate(Survivors(a, router), Survivors(most, router), Survivor(router(last)));
    }
  }

  /** What a paid search tried, and what it left unasked, is what asking for everything would have found. */
  lemma {:induction false} AskedAndUnasked(specs: seq<Spec>, router: Router, enough: Raw -> bool)
    requires Metered(specs, router, enough).Tried?
    ensures Survivors(specs, router) == Metered(specs, router, enough).routes + Unasked(specs, router, enough)
    decreases |specs|
  {
    if specs != [] {
      var r, rest := router(specs[0]).route, specs[1..];
      SurvivorsOfFirst(specs, router);
      if !enough(r) {
        AskedAndUnasked(rest, router, enough);
        Associate([r], Metered(rest, router, enough).routes, Unasked(rest, router, enough));
      }
    }
  }

  lemma SurvivorsOfFirst(specs: seq<Spec>, router: Router)
    requires specs != []
    ensures Survivors(specs, router) == Survivor(router(specs[0])) + Survivors(specs[1..], router)
  {
    assert specs == [specs[0]] + specs[1..];
    SurvivorsAppend([specs[0]], specs[1..], router);
    assert Init([specs[0]]) == [];
  }

  /** A paid search that met nothing good enough has asked for everything. */
  lemma {:induction false} NothingEnoughNothingUnasked(specs: seq<Spec>, router: Router, enough: Raw -> bool)
    requires Metered(specs, router, enough).Tried?
    requires forall r | r in Metered(specs, router, enough).routes :: !enough(r)
    ensures Unasked(specs, router, enough) == []
    decreases |specs|
  {
    if specs != [] {
      var r := router(specs[0]).route;
      assert r in Metered(specs, router, enough).routes;
      assert Metered(specs, router, enough).routes == [r] + Metered(specs[1..], router, enough).routes;
      NothingEnoughNothingUnasked(specs[1..], router, enough);
    }
  }

  // ---------- Stable sort, descending by merit ----------

  datatype Scored = Scored(merit: real, route: Raw)

  function InsertDown(s: seq<Scored>, x: Scored): seq<Scored> {
    if s == [] || s[0].merit < x.merit then [x] + s else [s[0]] + InsertDown(s[1..], x)
  }

  /** `sort(key=merit, reverse=True)`, which keeps equal elements in their order. */
  function SortDown(s: seq<Scored>): seq<Scored>
    decreases |s|
  {
    if s == [] then [] else InsertDown(SortDown(Init(s)), Last(s))
  }

  ghost predicate Descending(s: seq<Scored>) {
    forall i, j | 0 <= i < j < |s| :: s[i].merit >= s[j].merit
  }

  function OfMerit(s: seq<Scored>, m: real): seq<Scored>
    decreases |s|
  {
    if s == [] then [] else OfMerit(Init(s), m) + if Last(s).merit == m then [Last(s)] else []
  }

  lemma {:induction false} OfMeritAppend(a: seq<Scored>, b: seq<Scored>, m: real)
    ensures OfMerit(a + b, m) == OfMerit(a, m) + OfMerit(b, m)
    decreases |b|
  {
    if b == [] {
      assert a + b == a;
    } else {
      assert Init(a + b) == a + Init(b);
      OfMeritAppend(a, Init(b), m);
    }
  }

  lemma {:induction false} NothingAboveTheFirst(s: seq<Scored>, m: real)
    requires forall i | 0 <= i < |s| :: s[i].merit < m
    ensures OfMerit(s, m) == []
    decreases |s|
  {
    if s != [] { NothingAboveTheFirst(Init(s), m); }
  }

  lemma {:induction false} InsertSorts(s: seq<Scored>, x: Scored)
    requires Descending(s)
    ensures Descending(InsertDown(s, x))
    ensures InsertDown(s, x)[0] == if s == [] || s[0].merit < x.merit then x else s[0]
    decreases |s|
  {
    if s != [] && s[0].merit >= x.merit {
      var rest := s[1..];
      InsertSorts(rest, x);
      var sorted := InsertDown(rest, x);
      assert rest != [] ==> rest[0] == s[1];
      assert sorted[0].merit <= s[0].merit;
    }
  }

  lemma InFrontKeeps(s: seq<Scored>, x: Scored, m: real)
    requires Descending(s) && (s != [] ==> s[0].merit < x.merit)
    ensures OfMerit([x] + s, m) == OfMerit(s, m) + OfMerit([x], m)
  {
    OfMeritAppend([x], s, m);
    if m == x.merit {
      NothingAboveTheFirst(s, m);
    } else {
      assert OfMerit([x], m) == [];
    }
  }

  lemma {:induction false} InsertKeeps(s: seq<Scored>, x: Scored, m: real)
    requires Descending(s)
    ensures OfMerit(InsertDown(s, x), m) == OfMerit(s, m) + OfMerit([x], m)
    decreases |s|
  {
    if s == [] || s[0].merit < x.merit {
      InFrontKeeps(s, x, m);
    } else {
      var rest, head := s[1..], [s[0]];
      InsertKeeps(rest, x, m);
      OfMeritFirst(s, m);
      OfMeritAppend(head, InsertDown(rest, x), m);
      Associate(OfMerit(head, m), OfMerit(rest, m), OfMerit([x], m));
    }
  }

  lemma OfMeritFirst(s: seq<Scored>, m: real)
    requires s != []
    ensures OfMerit(s, m) == OfMerit([s[0]], m) + OfMerit(s[1..], m)
  {
    assert s == [s[0]] + s[1..];
    OfMeritAppend([s[0]], s[1..], m);
  }

  lemma Associate<T>(a: seq<T>, b: seq<T>, c: seq<T>)
    ensures a + (b + c) == a + b + c
  {
  }

  /** Sorted, and the elements of each merit are the same ones in the same order: nothing lost. */
  lemma {:induction false} SortIsStable(s: seq<Scored>, m: real)
    ensures Descending(SortDown(s)) && OfMerit(SortDown(s), m) == OfMerit(s, m)
    decreases |s|
  {
    if s != [] {
      SortIsStable(Init(s), m);
      InsertSorts(SortDown(Init(s)), Last(s));
      InsertKeeps(SortDown(Init(s)), Last(s), m);
      assert s == Init(s) + [Last(s)];
      OfMeritAppend(Init(s), [Last(s)], m);
    }
  }

  /** No element has more merit than the `i`-th, and none before it has as much. */
  ghost predicate EarliestBest(s: seq<Scored>, i: nat) {
    && i < |s|
    && (forall j | 0 <= j < |s| :: s[j].merit <= s[i].merit)
    && (forall j | 0 <= j < i :: s[j].merit < s[i].merit)
  }

  function BestIndex(s: seq<Scored>): (i: nat)
    requires s != []
    ensures EarliestBest(s, i)
    decreases |s|
  {
    if |s| == 1 then 0
    else
      var b := BestIndex(Init(s));
      if Last(s).merit > s[b].merit then |s| - 1 else b
  }

  lemma {:induction false} SortHeadIsBest(s: seq<Scored>)
    requires s != []
    ensures SortDown(s) != [] && SortDown(s)[0] == s[BestIndex(s)]
    decreases |s|
  {
    if |s| > 1 { SortHeadIsBest(Init(s)); }
  }
}
