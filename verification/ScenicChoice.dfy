/**
 * Choosing the scenic route: `route_scenic` in backend/routing.py.
 *
 * A candidate must be inside the duration cap and greener than the fastest route. The question is
 * what a reader may conclude from the card: that no note means every promise was kept, that each
 * note says something true, and where one does not.
 */
module ScenicChoice {
  import opened Prelude
  import opened Search
  import opened BudgetFit

  const DURATION_CAP := 1.6
  const GREENNESS_WEIGHT := 0.6
  const BUDGET_FIT_WEIGHT := 0.4

  /** `SCENIC_LOOP_CANDIDATES`, its first two when requests are paid for, or the ladder. */
  function Candidates(isLoop: bool, unmetered: bool): (specs: seq<Spec>)
    ensures specs != []
  {
    if !isLoop then [Spec(20, 1.0), Spec(45, 1.0), Spec(90, 1.0)]
    else if unmetered then
      [Spec(20, 1.0), Spec(20, 0.8), Spec(20, 0.6), Spec(20, 0.45), Spec(45, 0.7), Spec(90, 0.35)]
    else [Spec(20, 1.0), Spec(20, 0.8)]
  }

  /** A paid loop search asks for the first two of what a free one asks for, and the first is never scaled down. */
  lemma PaidCandidatesComeFirst(isLoop: bool)
    ensures Candidates(isLoop, false) <= Candidates(isLoop, true)
    ensures isLoop ==> |Candidates(isLoop, false)| == 2 && |Candidates(isLoop, true)| == 6
    ensures forall unmetered :: Candidates(isLoop, unmetered)[0] == Spec(20, 1.0)
    ensures !isLoop ==> forall i | 0 <= i < |Candidates(isLoop, true)| :: Candidates(isLoop, true)[i].scale == 1.0
  {
  }

  /** The score the card shows, as a function of the whole route. */
  type Greenness = Raw -> real

  datatype Note = TooShort | Uncompared | OverCap | NoGreener

  datatype Answer = Chosen(route: Raw, note: Option<Note>) | Raised(error: string)

  /** What a scenic request fixes before any candidate is asked for. */
  datatype Request = Request(green: Greenness, fastest: Option<Raw>, minutes: int, isLoop: bool)

  predicate Within(q: Request, r: Raw) {
    q.fastest.None? || r.duration <= q.fastest.value.duration * DURATION_CAP
  }

  predicate Greener(q: Request, r: Raw) {
    q.fastest.None? || q.green(r) > q.green(q.fastest.value)
  }

  predicate Acceptable(q: Request, r: Raw) {
    Within(q, r) && Greener(q, r)
  }

  function Merit(q: Request, r: Raw): real {
    if q.isLoop then GREENNESS_WEIGHT * q.green(r) + BUDGET_FIT_WEIGHT * Fit(r.duration, q.minutes)
    else q.green(r)
  }

  predicate Short(q: Request, r: Raw) {
    q.isLoop && UnderBudget(r.duration, q.minutes)
  }

  // ---------- The two lists the loop fills ----------

  function Accepted(q: Request, seen: seq<Raw>): (s: seq<Scored>)
    ensures forall x | x in s :: x.route in seen && Acceptable(q, x.route) && x.merit == Merit(q, x.route)
    decreases |seen|
  {
    if seen == [] then []
    else
      Accepted(q, Init(seen)) + if Acceptable(q, Last(seen)) then [Scored(Merit(q, Last(seen)), Last(seen))] else []
  }

  function Fallback(q: Request, seen: seq<Raw>): Option<Scored>
    decreases |seen|
  {
    if seen == [] then None
    else if Acceptable(q, Last(seen)) then Fallback(q, Init(seen))
    else Better(q, Fallback(q, Init(seen)), Last(seen))
  }

  function Better(q: Request, best: Option<Scored>, r: Raw): (o: Option<Scored>)
    ensures o.Some?
  {
    if best.None? || (Within(q, r) && Merit(q, r) > best.value.merit) then Some(Scored(Merit(q, r), r)) else best
  }

  function Choose(q: Request, tried: seq<Raw>): Answer
    requires tried != []
  {
    var acceptable := Accepted(q, tried);
    if acceptable != [] then
      SortHeadIsBest(acceptable);
      var chosen := SortDown(acceptable)[0].route;
      Chosen(chosen, if Short(q, chosen) then Some(TooShort) else if q.fastest.None? then Some(Uncompared) else None)
    else
      NothingAcceptable(q, tried);
      var chosen := Fallback(q, tried).value.route;
      Chosen(chosen, Some(if q.fastest.Some? && !Within(q, chosen) then OverCap else NoGreener))
  }

  lemma {:induction false} NothingAcceptable(q: Request, tried: seq<Raw>)
    requires Accepted(q, tried) == []
    ensures forall r | r in tried :: !Acceptable(q, r)
    ensures tried != [] ==> Fallback(q, tried).Some?
    decreases |tried|
  {
    if tried != [] {
      NothingAcceptable(q, Init(tried));
      assert tried == Init(tried) + [Last(tried)];
    }
  }

  function Scenic(q: Request, specs: seq<Spec>, router: Router, unmetered: bool): Answer
    requires specs != []
  {
    match Hunted(specs, router, r => Acceptable(q, r), unmetered)
    case Broke(e) => Raised(e)
    case Tried(tried) =>
      TriedIsNeverEmpty(specs, router, r => Acceptable(q, r), unmetered);
      Choose(q, tried)
  }

  /** What happens once the candidates have been weighed. */
  method Settle(q: Request, acceptable: seq<Scored>, fallback: Option<Scored>, ghost seen: seq<Raw>)
    returns (a: Answer)
    requires seen != [] && acceptable == Accepted(q, seen) && fallback == Fallback(q, seen)
    ensures a == Choose(q, seen)
  {
    if acceptable != [] {
      SortHeadIsBest(acceptable);
      var chosen := SortDown(acceptable)[0].route;
      if q.isLoop && UnderBudget(chosen.duration, q.minutes) { return Chosen(chosen, Some(TooShort)); }
      return Chosen(chosen, if q.fastest.None? then Some(Uncompared) else None);
    }
    NothingAcceptable(q, seen);
    var chosen := fallback.value.route;
    var overCap := q.fastest.Some? && chosen.duration > q.fastest.value.duration * DURATION_CAP;
    return Chosen(chosen, Some(if overCap then OverCap else NoGreener));
  }

  /** The search as it runs: one loop over gathered results, or over candidates still to be paid for. */
  method RouteScenic(q: Request, router: Router, unmetered: bool) returns (a: Answer)
    ensures a == Scenic(q, Candidates(q.isLoop, unmetered), router, unmetered)
  {
    var specs := Candidates(q.isLoop, unmetered);
    a := Weigh(q, specs, router, unmetered);
  }

  /** The body of the loop: into the list of acceptable routes, or against the least bad so far. */
  method Consider(
    q: Request, candidate: Raw, acceptable: seq<Scored>, fallback: Option<Scored>, ghost seen: seq<Raw>)
    returns (acceptable': seq<Scored>, fallback': Option<Scored>, accepted: bool)
    requires acceptable == Accepted(q, seen) && fallback == Fallback(q, seen)
    ensures acceptable' == Accepted(q, seen + [candidate]) && fallback' == Fallback(q, seen + [candidate])
    ensures accepted == Acceptable(q, candidate)
  {
    assert Init(seen + [candidate]) == seen;
    var merit := Merit(q, candidate);
    acceptable', fallback' := acceptable, fallback;
    accepted := Within(q, candidate) && Greener(q, candidate);
    if accepted {
      acceptable' := acceptable + [Scored(merit, candidate)];
    } else if fallback.None? || (Within(q, candidate) && merit > fallback.value.merit) {
      fallback' := Some(Scored(merit, candidate));
    }
  }

  /** The answers still to come: the gathered ones not looked at, or what paying on would bring. */
  ghost function Ahead(specs: seq<Spec>, router: Router, enough: Raw -> bool, unmetered: bool, results: seq<Raw>, i: nat): Hunt
    requires if unmetered then i <= |results| else i <= |specs|
  {
    if unmetered then Tried(results[i..]) else Metered(specs[i..], router, enough)
  }

  /** What has been seen, put in front of what is to come, is the search; after a stop nothing is to come. */
  ghost predicate SoFar(hunt: Hunt, seen: seq<Raw>, ahead: Hunt, stop: bool) {
    hunt == if stop then Tried(seen) else Onto(seen, ahead)
  }

  lemma OneMore(
    hunt: Hunt, specs: seq<Spec>, router: Router, enough: Raw -> bool, unmetered: bool, results: seq<Raw>, seen: seq<Raw>,
    i: nat, r: Raw)
    requires if unmetered then i < |results| && r == results[i] else i < |specs| && router(specs[i]) == Routed(r)
    requires SoFar(hunt, seen, Ahead(specs, router, enough, unmetered, results, i), false)
    ensures SoFar(hunt, seen + [r], Ahead(specs, router, enough, unmetered, results, i + 1), enough(r) && !unmetered)
  {
    if unmetered {
      assert seen + results[i..] == seen + [r] + results[i + 1..];
    } else if enough(r) {
    } else {
      MeteredStep(specs, router, enough, seen, i, r);
    }
  }

  lemma AtTheEnd(
    hunt: Hunt, specs: seq<Spec>, router: Router, enough: Raw -> bool, unmetered: bool, results: seq<Raw>, seen: seq<Raw>)
    requires SoFar(hunt, seen, Ahead(specs, router, enough, unmetered, results, if unmetered then |results| else |specs|), false)
    ensures hunt == Tried(seen)
  {
    assert seen + [] == seen;
  }

  lemma AtTheStart(hunt: Hunt, specs: seq<Spec>, router: Router, enough: Raw -> bool, unmetered: bool, results: seq<Raw>)
    requires hunt == if unmetered then Tried(results) else Metered(specs, router, enough)
    ensures SoFar(hunt, [], Ahead(specs, router, enough, unmetered, results, 0), false)
  {
    assert specs[0..] == specs && results[0..] == results;
    if hunt.Tried? { assert [] + hunt.routes == hunt.routes; }
  }

  lemma FailsHere(hunt: Hunt, specs: seq<Spec>, router: Router, enough: Raw -> bool, results: seq<Raw>, seen: seq<Raw>, i: nat)
    requires i < |specs| && router(specs[i]).Failed?
    requires SoFar(hunt, seen, Ahead(specs, router, enough, false, results, i), false)
    ensures hunt == Broke(router(specs[i]).error)
  {
  }

  /** Everything gathered at once where that costs nothing, then the loop, then the choice. */
  method Weigh(q: Request, specs: seq<Spec>, router: Router, unmetered: bool) returns (a: Answer)
    requires specs != []
    ensures a == Scenic(q, specs, router, unmetered)
  {
    ghost var enough := r => Acceptable(q, r);
    var results: seq<Raw> := [];
    if unmetered {
      var settled := Gather(specs, router);
      if settled.Broke? { return Raised(settled.error); }
      results := settled.routes;
    }
    ghost var hunt := Hunted(specs, router, enough, unmetered);
    AtTheStart(hunt, specs, router, enough, unmetered, results);
    var error, acceptable, fallback, seen := Walk(q, specs, router, unmetered, results, enough, hunt);
    if error.Some? { return Raised(error.value); }
    TriedIsNeverEmpty(specs, router, enough, unmetered);
    a := Settle(q, acceptable, fallback, seen);
  }

  /** The loop: up to the first failure, or to the first acceptable route that was paid for. */
  method Walk(
    q: Request, specs: seq<Spec>, router: Router, unmetered: bool, results: seq<Raw>, ghost enough: Raw -> bool, ghost hunt: Hunt)
    returns (error: Option<string>, acceptable: seq<Scored>, fallback: Option<Scored>, ghost seen: seq<Raw>)
    requires forall r :: enough(r) == Acceptable(q, r)
    requires SoFar(hunt, [], Ahead(specs, router, enough, unmetered, results, 0), false)
    ensures hunt == if error.Some? then Broke(error.value) else Tried(seen)
    ensures acceptable == Accepted(q, seen) && fallback == Fallback(q, seen)
  {
    error, acceptable, fallback, seen := None, [], None, [];
    var i, n := 0, if unmetered then |results| else |specs|;
    var stop := false;
    while i < n && !stop
      invariant 0 <= i <= n
      invariant acceptable == Accepted(q, seen) && fallback == Fallback(q, seen)
      invariant SoFar(hunt, seen, Ahead(specs, router, enough, unmetered, results, i), stop)
      decreases n - i, !stop
    {
      var candidate: Raw;
      if unmetered {
        candidate := results[i];
      } else {
        var outcome := router(specs[i]);
        if outcome.Failed? {
          FailsHere(hunt, specs, router, enough, results, seen, i);
          error := Some(outcome.error);
          return;
        }
        candidate := outcome.route;
      }
      var accepted: bool;
      acceptable, fallback, accepted := Consider(q, candidate, acceptable, fallback, seen);
      OneMore(hunt, specs, router, enough, unmetered, results, seen, i, candidate);
      seen := seen + [candidate];
      stop := accepted && !unmetered;
      i := i + 1;
    }
    if !stop { AtTheEnd(hunt, specs, router, enough, unmetered, results, seen); }
  }

  // ---------- What a card without a note promises ----------

  /** An acceptable candidate no other acceptable one beats, and the earliest of its merit. */
  ghost predicate Top(q: Request, tried: seq<Raw>, i: nat) {
    && i < |tried| && Acceptable(q, tried[i])
    && (forall j | 0 <= j < |tried| && Acceptable(q, tried[j]) :: Merit(q, tried[j]) <= Merit(q, tried[i]))
    && (forall j | 0 <= j < i && Acceptable(q, tried[j]) :: Merit(q, tried[j]) < Merit(q, tried[i]))
  }

  lemma TopStays(q: Request, rest: seq<Raw>, last: Raw, i: nat)
    requires Top(q, rest, i) && !(Acceptable(q, last) && Merit(q, last) > Merit(q, rest[i]))
    ensures Top(q, rest + [last], i)
  {
  }

  lemma TopMoves(q: Request, rest: seq<Raw>, last: Raw, i: nat)
    requires Top(q, rest, i) && Acceptable(q, last) && Merit(q, last) > Merit(q, rest[i])
    ensures Top(q, rest + [last], |rest|)
  {
  }

  lemma FirstIsTop(q: Request, rest: seq<Raw>, last: Raw)
    requires Acceptable(q, last) && Accepted(q, rest) == []
    ensures Top(q, rest + [last], |rest|)
  {
    NothingAcceptable(q, rest);
    assert forall j | 0 <= j < |rest| :: rest[j] in rest;
  }

  /** The best of a list with one more element. */
  lemma BestIndexStep(s: seq<Scored>, x: Scored)
    ensures BestIndex(s + [x])
         == if s == [] || x.merit > s[BestIndex(s)].merit then |s| else BestIndex(s)
  {
    assert Init(s + [x]) == s;
  }

  lemma AcceptedStep(q: Request, rest: seq<Raw>, last: Raw)
    ensures Accepted(q, rest + [last])
         == if Acceptable(q, last) then Accepted(q, rest) + [Scored(Merit(q, last), last)] else Accepted(q, rest)
  {
    assert Init(rest + [last]) == rest;
  }

  ghost predicate BestIs(q: Request, a: seq<Scored>, r: Raw) {
    a != [] && a[BestIndex(a)] == Scored(Merit(q, r), r)
  }

  lemma TopStep(q: Request, rest: seq<Raw>, last: Raw, i: nat) returns (k: nat)
    requires Top(q, rest, i) && BestIs(q, Accepted(q, rest), rest[i])
    ensures Top(q, rest + [last], k) && BestIs(q, Accepted(q, rest + [last]), (rest + [last])[k])
  {
    AcceptedStep(q, rest, last);
    BestIndexStep(Accepted(q, rest), Scored(Merit(q, last), last));
    if Acceptable(q, last) && Merit(q, last) > Merit(q, rest[i]) {
      TopMoves(q, rest, last, i);
      k := |rest|;
    } else {
      TopStays(q, rest, last, i);
      k := i;
    }
  }

  lemma {:induction false} BestAcceptedIsTop(q: Request, tried: seq<Raw>) returns (i: nat)
    requires Accepted(q, tried) != []
    ensures Top(q, tried, i) && BestIs(q, Accepted(q, tried), tried[i])
    decreases |tried|
  {
    var rest, last := Init(tried), Last(tried);
    assert tried == rest + [last];
    if Accepted(q, rest) == [] {
      AcceptedStep(q, rest, last);
      FirstIsTop(q, rest, last);
      i := |rest|;
    } else {
      i := BestAcceptedIsTop(q, rest);
      i := TopStep(q, rest, last, i);
    }
  }

  lemma SomethingAcceptable(q: Request, tried: seq<Raw>)
    ensures Accepted(q, tried) != [] <==> exists r :: r in tried && Acceptable(q, r)
  {
    if Accepted(q, tried) == [] {
      NothingAcceptable(q, tried);
    } else {
      assert Accepted(q, tried)[0] in Accepted(q, tried);
    }
  }

  /** When anything is acceptable, the choice is the best of it, the earliest on ties. */
  lemma ChoiceIsTop(q: Request, tried: seq<Raw>) returns (i: nat)
    requires exists r :: r in tried && Acceptable(q, r)
    ensures Top(q, tried, i) && Choose(q, tried).route == tried[i]
  {
    SomethingAcceptable(q, tried);
    SortHeadIsBest(Accepted(q, tried));
    i := BestAcceptedIsTop(q, tried);
  }

  /** No note: compared with the fastest, inside the cap, strictly greener, and not short of the time asked. */
  ghost predicate KeepsEveryPromise(q: Request, r: Raw) {
    && q.fastest.Some?
    && r.duration <= 1.6 * q.fastest.value.duration
    && q.green(r) > q.green(q.fastest.value)
    && (q.isLoop && q.minutes > 0 ==> r.duration >= 0.7 * q.minutes as real)
  }

  /** The note is missing exactly when every promise was kept. */
  lemma NoNoteIffPromisesKept(q: Request, tried: seq<Raw>)
    requires tried != []
    ensures Choose(q, tried).route in tried
    ensures Choose(q, tried).note.None? <==> KeepsEveryPromise(q, Choose(q, tried).route)
  {
    SomethingAcceptable(q, tried);
    if Accepted(q, tried) != [] {
      var i := ChoiceIsTop(q, tried);
    } else {
      NothingAcceptable(q, tried);
      FallbackWasTried(q, tried);
    }
  }

  lemma {:induction false} FallbackWasTried(q: Request, tried: seq<Raw>)
    ensures Fallback(q, tried).Some? ==> Fallback(q, tried).value.route in tried
    ensures Fallback(q, tried).Some? ==> Fallback(q, tried).value.merit == Merit(q, Fallback(q, tried).value.route)
    decreases |tried|
  {
    if tried != [] {
      FallbackWasTried(q, Init(tried));
      assert tried == Init(tried) + [Last(tried)];
    }
  }

  /** The same for the whole search, whichever way the candidates were asked for. */
  lemma UnnotedRouteKeepsPromises(q: Request, specs: seq<Spec>, router: Router, unmetered: bool)
    requires specs != [] && Scenic(q, specs, router, unmetered).Chosen?
    ensures var a := Scenic(q, specs, router, unmetered);
            a.note.None? <==> KeepsEveryPromise(q, a.route)
  {
    var enough := r => Acceptable(q, r);
    TriedIsNeverEmpty(specs, router, enough, unmetered);
    NoNoteIffPromisesKept(q, Hunted(specs, router, enough, unmetered).routes);
  }

  /** Between two fixed places the unnoted choice is the greenest of all tried inside the cap. */
  lemma PointToPointIsGreenest(q: Request, tried: seq<Raw>, r: Raw)
    requires !q.isLoop && tried != [] && Choose(q, tried).note.None? && r in tried && Within(q, r)
    ensures q.green(r) <= q.green(Choose(q, tried).route)
  {
    NoNoteIffPromisesKept(q, tried);
    SomethingAcceptable(q, tried);
    assert Accepted(q, tried) != [];
    var i := ChoiceIsTop(q, tried);
    var j: nat :| j < |tried| && tried[j] == r;
    if Acceptable(q, r) { assert Merit(q, tried[j]) <= Merit(q, tried[i]); }
  }

  /** Paid for one at a time, an accepted route is the first acceptable one and the last asked for. */
  lemma MeteredTakesTheFirstAcceptable(q: Request, specs: seq<Spec>, router: Router)
    requires Metered(specs, router, r => Acceptable(q, r)).Tried?
    requires exists r :: r in Metered(specs, router, r => Acceptable(q, r)).routes && Acceptable(q, r)
    ensures var tried := Metered(specs, router, r => Acceptable(q, r)).routes;
            Choose(q, tried).route == Last(tried)
  {
    var enough := r => Acceptable(q, r);
    OnlyTheLastIsEnough(specs, router, enough);
    var tried := Metered(specs, router, enough).routes;
    var i := ChoiceIsTop(q, tried);
    assert enough(tried[i]);
  }

  // ---------- What a note says, and where it is not so ----------

  /** Where nothing was acceptable: the first candidate, unless one inside the cap has strictly more merit. */
  ghost predicate LeastBad(q: Request, tried: seq<Raw>, best: Scored)
    requires tried != []
  {
    && (forall r | r in tried && Within(q, r) :: Merit(q, r) <= best.merit)
    && (best.route == tried[0] || (Within(q, best.route) && best.merit > Merit(q, tried[0])))
  }

  lemma LeastBadStep(q: Request, rest: seq<Raw>, best: Scored, last: Raw)
    requires rest != [] && LeastBad(q, rest, best) && best.merit == Merit(q, best.route)
    ensures LeastBad(q, rest + [last], Better(q, Some(best), last).value)
  {
    forall r | r in rest + [last] && Within(q, r)
      ensures Merit(q, r) <= Better(q, Some(best), last).value.merit
    {
    }
  }

  lemma {:induction false} FallbackIsLeastBad(q: Request, tried: seq<Raw>)
    requires tried != [] && forall r | r in tried :: !Acceptable(q, r)
    ensures Fallback(q, tried).Some? && LeastBad(q, tried, Fallback(q, tried).value)
    decreases |tried|
  {
    var rest, last := Init(tried), Last(tried);
    assert tried == rest + [last];
    assert last in tried;
    if rest != [] {
      forall r | r in rest ensures !Acceptable(q, r) { assert r in tried; }
      FallbackIsLeastBad(q, rest);
      FallbackWasTried(q, rest);
      LeastBadStep(q, rest, Fallback(q, rest).value, last);
    } else {
      assert tried == [last];
      FallbackOfOne(q, last);
    }
  }

  lemma FallbackOfOne(q: Request, r: Raw)
    requires !Acceptable(q, r)
    ensures Fallback(q, [r]) == Some(Scored(Merit(q, r), r)) && LeastBad(q, [r], Scored(Merit(q, r), r))
  {
    assert Init([r]) == [];
  }

  /**
   * The fallback is meant to prefer a route that fits the cap. It returns one over the cap exactly
   * when the first candidate is over it and no candidate inside it has strictly more merit.
   */
  lemma OverCapNoteIff(q: Request, tried: seq<Raw>)
    requires tried != [] && forall r | r in tried :: !Acceptable(q, r)
    ensures Choose(q, tried).note == Some(OverCap)
       <==> !Within(q, tried[0]) && forall r | r in tried && Within(q, r) :: Merit(q, r) <= Merit(q, tried[0])
  {
    SomethingAcceptable(q, tried);
    FallbackIsLeastBad(q, tried);
    FallbackWasTried(q, tried);
  }

  /** A point-to-point request where everywhere is as green as everywhere else. */
  function Flat(fastest: Raw, minutes: int): Request {
    Request(r => 0.5, Some(fastest), minutes, false)
  }

  /** So it can pass over a shorter candidate inside the cap, and call no greener a route "better". */
  lemma FittingCandidatePassedOver(fastest: Raw, long: Raw, short: Raw, minutes: int)
    requires long.duration > 1.6 * fastest.duration >= short.duration
    ensures Choose(Flat(fastest, minutes), [long, short]) == Chosen(long, Some(OverCap))
    ensures Within(Flat(fastest, minutes), short) && short.duration < long.duration
    ensures !Greener(Flat(fastest, minutes), long)
  {
    var q, tried := Flat(fastest, minutes), [long, short];
    OverCapNoteIff(q, tried);
    SomethingAcceptable(q, tried);
    FallbackIsLeastBad(q, tried);
  }

  /** What each note is given for. */
  lemma NotesAreGivenFor(q: Request, tried: seq<Raw>)
    requires tried != []
    ensures Choose(q, tried).note == Some(TooShort)
       <==> (exists r :: r in tried && Acceptable(q, r)) && Short(q, Choose(q, tried).route)
    ensures Choose(q, tried).note == Some(Uncompared)
       <==> q.fastest.None? && !Short(q, Choose(q, tried).route)
    ensures Choose(q, tried).note == Some(NoGreener)
       <==> (forall r | r in tried :: !Acceptable(q, r)) && Within(q, Choose(q, tried).route)
  {
    SomethingAcceptable(q, tried);
    if Accepted(q, tried) == [] {
      NothingAcceptable(q, tried);
      FallbackWasTried(q, tried);
      assert tried[0] in tried;
    } else {
      assert exists r :: r in tried && Acceptable(q, r);
    }
  }
}
