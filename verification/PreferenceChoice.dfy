/**
 * Fitting a quiet, clean-air or shaded round trip to the time asked for: `_route_preference` in
 * backend/routing.py. The card always carries the preset's own note; what is at stake is the
 * sentence added when the loop misses the time asked for.
 */
module PreferenceChoice {
  import opened Prelude
  import opened Search
  import opened BudgetFit

  /** `PREFERENCE_LOOP_SCALES`, or its first two when requests are paid for. */
  function Loops(unmetered: bool): (specs: seq<Spec>)
    ensures specs != []
  {
    if unmetered then [Spec(0, 1.0), Spec(0, 0.7), Spec(0, 0.45)] else [Spec(0, 1.0), Spec(0, 0.7)]
  }

  /** What is added to the preset's own note. */
  datatype Extra = Nothing | Longer | Shorter

  datatype Answer = Chosen(route: Raw, extra: Extra) | Raised(error: string)

  /** The loops asked for get shorter and shorter, a paid search stopping after the first two. */
  lemma LoopsShrink(unmetered: bool)
    ensures Loops(false) <= Loops(true) && |Loops(false)| == 2 && Loops(unmetered)[0].scale == 1.0
    ensures forall i, j {:trigger Loops(unmetered)[i], Loops(unmetered)[j]} ::
              0 <= i < j < |Loops(unmetered)| ==> Loops(unmetered)[j].scale < Loops(unmetered)[i].scale
  {
  }

  /** A loop is enough for a paid search exactly when it would not be called too long. */
  lemma EnoughIsNotTooLong(minutes: int, r: Raw)
    requires minutes > 0
    ensures Enough(minutes, r) <==> ExtraFor(minutes, r) != Longer
  {
  }

  predicate Enough(minutes: int, r: Raw) {
    r.duration <= minutes as real * BUDGET_OVERSHOOT
  }

  function Fits(tried: seq<Raw>, minutes: int): (s: seq<Scored>)
    ensures |s| == |tried|
    ensures forall i {:trigger s[i]} | 0 <= i < |tried| :: s[i] == Scored(Fit(tried[i].duration, minutes), tried[i])
  {
    seq(|tried|, i requires 0 <= i < |tried| => Scored(Fit(tried[i].duration, minutes), tried[i]))
  }

  function ExtraFor(minutes: int, r: Raw): Extra {
    if OverBudget(r.duration, minutes) then Longer
    else if UnderBudget(r.duration, minutes) then Shorter
    else Nothing
  }

  function Choose(minutes: int, tried: seq<Raw>): Answer
    requires tried != []
  {
    SortHeadIsBest(Fits(tried, minutes));
    var chosen := SortDown(Fits(tried, minutes))[0].route;
    Chosen(chosen, ExtraFor(minutes, chosen))
  }

  function Preferred(minutes: int, specs: seq<Spec>, router: Router, unmetered: bool): Answer
    requires specs != []
  {
    match Hunted(specs, router, r => Enough(minutes, r), unmetered)
    case Broke(e) => Raised(e)
    case Tried(tried) =>
      TriedIsNeverEmpty(specs, router, r => Enough(minutes, r), unmetered);
      Choose(minutes, tried)
  }

  /** The round-trip branch as it runs. */
  method RoutePreference(minutes: int, router: Router, unmetered: bool) returns (a: Answer)
    ensures a == Preferred(minutes, Loops(unmetered), router, unmetered)
  {
    a := Fitted(minutes, Loops(unmetered), router, unmetered);
  }

  method Fitted(minutes: int, specs: seq<Spec>, router: Router, unmetered: bool) returns (a: Answer)
    requires specs != []
    ensures a == Preferred(minutes, specs, router, unmetered)
  {
    ghost var enough := r => Enough(minutes, r);
    var scored: seq<Scored> := [];
    ghost var seen: seq<Raw> := [];
    if unmetered {
      var settled := Gather(specs, router);
      if settled.Broke? { return Raised(settled.error); }
      seen := settled.routes;
      scored := Fits(settled.routes, minutes);
    } else {
      var i, stop := 0, false;
      while i < |specs| && !stop
        invariant 0 <= i <= |specs|
        invariant scored == Fits(seen, minutes)
        invariant !stop ==> Metered(specs, router, enough) == Onto(seen, Metered(specs[i..], router, enough))
        invariant stop ==> Metered(specs, router, enough) == Tried(seen)
        decreases |specs| - i, !stop
      {
        var outcome := router(specs[i]);
        if outcome.Failed? { return Raised(outcome.error); }
        var candidate := outcome.route;
        scored := scored + [Scored(Fit(candidate.duration, minutes), candidate)];
        if candidate.duration <= minutes as real * BUDGET_OVERSHOOT {
          stop := true;
        } else {
          MeteredStep(specs, router, enough, seen, i, candidate);
        }
        seen := seen + [candidate];
        i := i + 1;
      }
    }
    assert Hunted(specs, router, enough, unmetered) == Tried(seen);
    TriedIsNeverEmpty(specs, router, enough, unmetered);
    a := Settle(minutes, scored, seen);
  }

  method Settle(minutes: int, scored: seq<Scored>, ghost seen: seq<Raw>) returns (a: Answer)
    requires seen != [] && scored == Fits(seen, minutes)
    ensures a == Choose(minutes, seen)
  {
    SortHeadIsBest(scored);
    var chosen := SortDown(scored)[0].route;
    var extra := Nothing;
    if minutes > 0 && chosen.duration > minutes as real * BUDGET_OVERSHOOT {
      extra := Longer;
    } else if minutes > 0 && chosen.duration < minutes as real * BUDGET_UNDERSHOOT {
      extra := Shorter;
    }
    a := Chosen(chosen, extra);
  }

  // ---------- Which loop comes back ----------

  /** The loop that misses the time asked for by least, and the earliest of those. */
  ghost predicate Closest(minutes: int, tried: seq<Raw>, i: nat) {
    && i < |tried|
    && (forall j | 0 <= j < |tried| :: Miss(tried[i].duration, minutes) <= Miss(tried[j].duration, minutes))
    && (forall j | 0 <= j < i :: Miss(tried[i].duration, minutes) < Miss(tried[j].duration, minutes))
  }

  ghost predicate SomeInReach(minutes: int, tried: seq<Raw>) {
    exists r :: r in tried && InReach(r.duration, minutes)
  }

  lemma BestFitIsClosest(minutes: int, tried: seq<Raw>, i: nat)
    requires minutes > 0 && EarliestBest(Fits(tried, minutes), i) && SomeInReach(minutes, tried)
    ensures InReach(tried[i].duration, minutes) && Closest(minutes, tried, i)
  {
    var s := Fits(tried, minutes);
    var r :| r in tried && InReach(r.duration, minutes);
    var k: nat :| k < |tried| && tried[k] == r;
    FitIsShare(r.duration, minutes);
    FitIsShare(tried[i].duration, minutes);
    assert s[k].merit <= s[i].merit;
    forall j | 0 <= j < |tried| ensures Miss(tried[i].duration, minutes) <= Miss(tried[j].duration, minutes) {
      FitOrdersByMiss(tried[i].duration, tried[j].duration, minutes);
      assert s[j].merit <= s[i].merit;
    }
    forall j | 0 <= j < i ensures Miss(tried[i].duration, minutes) < Miss(tried[j].duration, minutes) {
      assert s[j].merit < s[i].merit;
      FitOrdersByMiss(tried[i].duration, tried[j].duration, minutes);
      if InReach(tried[j].duration, minutes) {
        FitOrdersByMiss(tried[j].duration, tried[i].duration, minutes);
      } else {
        OutOfReach(tried[i].duration, tried[j].duration, minutes);
      }
    }
  }

  /**
   * With any loop tried in reach of the time asked for, the choice is the one that misses it by
   * least; with none, every fit is 0 and the first loop tried is kept, whatever it misses by.
   */
  lemma ChoiceIsClosestOrFirst(minutes: int, tried: seq<Raw>) returns (i: nat)
    requires tried != []
    ensures i < |tried| && Choose(minutes, tried).route == tried[i]
    ensures minutes > 0 && SomeInReach(minutes, tried) ==> InReach(tried[i].duration, minutes) && Closest(minutes, tried, i)
    ensures minutes <= 0 || !SomeInReach(minutes, tried) ==> i == 0
  {
    var s := Fits(tried, minutes);
    SortHeadIsBest(s);
    i := BestIndex(s);
    if minutes > 0 && SomeInReach(minutes, tried) {
      BestFitIsClosest(minutes, tried, i);
    } else {
      NothingFits(minutes, tried, 0);
      NothingFits(minutes, tried, i);
      assert s[0].merit == s[i].merit;
    }
  }

  lemma NothingFits(minutes: int, tried: seq<Raw>, i: nat)
    requires i < |tried| && (minutes <= 0 || !SomeInReach(minutes, tried))
    ensures Fit(tried[i].duration, minutes) == 0.0
  {
    if minutes > 0 {
      assert tried[i] in tried;
      FitIsShare(tried[i].duration, minutes);
    }
  }

  // ---------- What the added sentence says ----------

  /** Nothing added: the loop is between 0.7 and 1.35 times the time asked for, and only then. */
  lemma NothingAddedIff(minutes: int, tried: seq<Raw>)
    requires tried != [] && minutes > 0
    ensures Choose(minutes, tried).route in tried
    ensures Choose(minutes, tried).extra == Nothing
       <==> 0.7 * minutes as real <= Choose(minutes, tried).route.duration <= 1.35 * minutes as real
  {
    var i := ChoiceIsClosestOrFirst(minutes, tried);
  }

  /** `d` misses the time asked for by less than `c` does: it lies between `c` and its mirror image. */
  predicate Nearer(minutes: int, d: real, c: real) {
    var mirror := 2.0 * minutes as real - c;
    c < d < mirror || mirror < d < c
  }

  lemma NearerIsLessMiss(minutes: int, d: real, c: real)
    ensures Nearer(minutes, d, c) <==> Miss(d, minutes) < Miss(c, minutes)
  {
  }

  /** No loop in `among` is nearer to the time asked for than `c`. */
  ghost predicate NoneNearer(minutes: int, among: seq<Raw>, c: real) {
    forall r | r in among :: !Nearer(minutes, r.duration, c)
  }

  lemma ClosestIsNoneNearer(minutes: int, tried: seq<Raw>, i: nat)
    requires Closest(minutes, tried, i)
    ensures NoneNearer(minutes, tried, tried[i].duration)
  {
    forall r | r in tried ensures !Nearer(minutes, r.duration, tried[i].duration) {
      var j: nat :| j < |tried| && tried[j] == r;
      NearerIsLessMiss(minutes, r.duration, tried[i].duration);
    }
  }

  /** "Nothing closer to your budget was reachable" is true of every loop tried. */
  lemma ShorterIsTrueOfTried(minutes: int, tried: seq<Raw>)
    requires tried != [] && Choose(minutes, tried).extra == Shorter && Choose(minutes, tried).route.duration >= 0.0
    ensures NoneNearer(minutes, tried, Choose(minutes, tried).route.duration)
  {
    var i := ChoiceIsClosestOrFirst(minutes, tried);
    if SomeInReach(minutes, tried) {
      ClosestIsNoneNearer(minutes, tried, i);
    } else {
      assert tried[i] in tried;
      assert tried[i].duration == 0.0;
    }
  }

  /** A paid search that ends in this sentence stopped at the loop it returns, the first of at most 1.35 times the time. */
  lemma ShorterIsTheFirstEnough(minutes: int, specs: seq<Spec>, router: Router)
    requires Metered(specs, router, r => Enough(minutes, r)).Tried? && Metered(specs, router, r => Enough(minutes, r)).routes != []
    requires Choose(minutes, Metered(specs, router, r => Enough(minutes, r)).routes).extra == Shorter
    ensures Choose(minutes, Metered(specs, router, r => Enough(minutes, r)).routes).route
         == Last(Metered(specs, router, r => Enough(minutes, r)).routes)
  {
    var enough := r => Enough(minutes, r);
    var tried := Metered(specs, router, enough).routes;
    var i := ChoiceIsClosestOrFirst(minutes, tried);
    OnlyTheLastIsEnough(specs, router, enough);
    assert enough(tried[i]);
  }

  /**
   * Over every candidate, asked for or not: gathered, the sentence is always true; paid for one at a
   * time, exactly when no loop left unasked is nearer than the short one the search stopped at.
   */
  lemma ShorterIsTrueIff(minutes: int, specs: seq<Spec>, router: Router, unmetered: bool)
    requires specs != [] && Preferred(minutes, specs, router, unmetered).Chosen?
    requires Preferred(minutes, specs, router, unmetered).extra == Shorter
    requires Preferred(minutes, specs, router, unmetered).route.duration >= 0.0
    ensures var c := Preferred(minutes, specs, router, unmetered).route.duration;
            NoneNearer(minutes, Survivors(specs, router), c)
            <==> (unmetered || NoneNearer(minutes, Unasked(specs, router, r => Enough(minutes, r)), c))
  {
    var enough := r => Enough(minutes, r);
    TriedIsNeverEmpty(specs, router, enough, unmetered);
    ShorterIsTrueOfTried(minutes, Hunted(specs, router, enough, unmetered).routes);
    if !unmetered { AskedAndUnasked(specs, router, enough); }
  }

  /** Thirty minutes, paid for: a first loop of fifteen ends the search, and one of thirty is never asked for. */
  lemma ShortFirstLoopEndsTheSearch(router: Router, short: Raw, exact: Raw)
    requires short.duration == 15.0 && exact.duration == 30.0
    requires router(Spec(0, 1.0)) == Routed(short) && router(Spec(0, 0.7)) == Routed(exact)
    ensures Preferred(30, Loops(false), router, false) == Chosen(short, Shorter)
    ensures exact in Survivors(Loops(false), router) && Nearer(30, exact.duration, short.duration)
  {
    var enough := r => Enough(30, r);
    assert Metered(Loops(false), router, enough) == Tried([short]);
    var i := ChoiceIsClosestOrFirst(30, [short]);
    SurvivorsAreAnswers(Loops(false), router, exact);
    assert Loops(false)[1] == Spec(0, 0.7);
  }

  /** "The closest fit that could be found" is true of the loops tried exactly when one was in reach or none is nearer than the first. */
  lemma LongerIsTrueOfTriedIff(minutes: int, tried: seq<Raw>)
    requires tried != [] && Choose(minutes, tried).extra == Longer
    ensures NoneNearer(minutes, tried, Choose(minutes, tried).route.duration)
       <==> SomeInReach(minutes, tried) || NoneNearer(minutes, tried, tried[0].duration)
  {
    var i := ChoiceIsClosestOrFirst(minutes, tried);
    if SomeInReach(minutes, tried) { ClosestIsNoneNearer(minutes, tried, i); }
  }

  /** With nothing in reach and every duration positive, that is when no loop tried is shorter than the first. */
  lemma NearerThanTheFirstIsShorter(minutes: int, tried: seq<Raw>)
    requires tried != [] && minutes > 0 && !SomeInReach(minutes, tried) && forall r | r in tried :: r.duration > 0.0
    ensures NoneNearer(minutes, tried, tried[0].duration) <==> forall r | r in tried :: tried[0].duration <= r.duration
  {
    forall r | r in tried ensures r.duration >= 2.0 * minutes as real { assert !InReach(r.duration, minutes); }
    assert tried[0] in tried;
  }

  /** And over every candidate, exactly when moreover none left unasked is nearer. */
  lemma LongerIsTrueIff(minutes: int, specs: seq<Spec>, router: Router, unmetered: bool)
    requires specs != [] && Preferred(minutes, specs, router, unmetered).Chosen?
    requires Preferred(minutes, specs, router, unmetered).extra == Longer
    ensures var c := Preferred(minutes, specs, router, unmetered).route.duration;
            var tried := Hunted(specs, router, r => Enough(minutes, r), unmetered).routes;
            NoneNearer(minutes, Survivors(specs, router), c)
            <==> ((SomeInReach(minutes, tried) || NoneNearer(minutes, tried, tried[0].duration))
                  && (unmetered || NoneNearer(minutes, Unasked(specs, router, r => Enough(minutes, r)), c)))
  {
    var enough := r => Enough(minutes, r);
    TriedIsNeverEmpty(specs, router, enough, unmetered);
    LongerIsTrueOfTriedIff(minutes, Hunted(specs, router, enough, unmetered).routes);
    if !unmetered { AskedAndUnasked(specs, router, enough); }
  }

  /** Two loops, both at least twice the time asked for: the longer is kept if it came first. */
  lemma LongerLoopKept(minutes: int, long: Raw, less: Raw)
    requires minutes > 0 && 2.0 * minutes as real <= less.duration < long.duration
    ensures Choose(minutes, [long, less]) == Chosen(long, Longer)
    ensures Miss(less.duration, minutes) < Miss(long.duration, minutes)
  {
    var i := ChoiceIsClosestOrFirst(minutes, [long, less]);
  }

  /** When the loop is called too long, no loop tried would have passed without a remark. */
  lemma LongerMeansNothingFitted(minutes: int, tried: seq<Raw>, r: Raw)
    requires tried != [] && Choose(minutes, tried).extra == Longer && r in tried
    ensures !(0.7 * minutes as real <= r.duration <= 1.35 * minutes as real)
  {
    var i := ChoiceIsClosestOrFirst(minutes, tried);
    var j: nat :| j < |tried| && tried[j] == r;
    assert InReach(r.duration, minutes) ==> SomeInReach(minutes, tried);
    assert InReach(r.duration, minutes) ==> Miss(tried[i].duration, minutes) <= Miss(r.duration, minutes);
  }
}
