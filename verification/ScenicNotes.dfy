/**
 * The sentences a scenic card can carry (backend/routing.py:1108-1133), each read as a claim about the
 * candidates tried, with the exact condition under which it is true and an input where it is not.
 */
module ScenicNotes {
  import opened Prelude
  import opened Search
  import opened BudgetFit
  import opened ScenicChoice

  // ---------- "The most scenic route available near you", on a loop that is too short ----------

  /** No route in `among` is greener. */
  ghost predicate MostScenic(q: Request, among: seq<Raw>, r: Raw) {
    forall t | t in among :: q.green(t) <= q.green(r)
  }

  /** `i` goes before `j` although it is less green: its better fit, or an equal mark and an earlier place. */
  ghost predicate GoesBefore(q: Request, tried: seq<Raw>, i: nat, j: nat)
    requires i < |tried| && j < |tried|
  {
    && Acceptable(q, tried[i]) && q.green(tried[i]) < q.green(tried[j])
    && (Merit(q, tried[i]) > Merit(q, tried[j]) || (Merit(q, tried[i]) == Merit(q, tried[j]) && i < j))
  }

  /** On a loop that is a trade: what is lost in greenness is made up in fit, at 3 to 2. */
  lemma GoesBeforeIsATrade(q: Request, tried: seq<Raw>, i: nat, j: nat)
    requires q.isLoop && i < |tried| && j < |tried| && Acceptable(q, tried[i])
    ensures var loss, gain := q.green(tried[j]) - q.green(tried[i]),
                              Fit(tried[i].duration, q.minutes) - Fit(tried[j].duration, q.minutes);
            GoesBefore(q, tried, i, j) <==> loss > 0.0 && (2.0 * gain > 3.0 * loss || (2.0 * gain == 3.0 * loss && i < j))
  {
  }

  /** Every acceptable candidate of greatest greenness has a less green one going before it. */
  ghost predicate Outweighed(q: Request, tried: seq<Raw>) {
    forall j: nat | j < |tried| && Greenest(q, tried, j) :: exists i: nat :: i < |tried| && GoesBefore(q, tried, i, j)
  }

  ghost predicate Greenest(q: Request, tried: seq<Raw>, j: nat)
    requires j < |tried|
  {
    Acceptable(q, tried[j]) && forall t | t in tried && Acceptable(q, t) :: q.green(t) <= q.green(tried[j])
  }

  lemma {:induction false} SomeGreenest(q: Request, tried: seq<Raw>, r: Raw) returns (j: nat)
    requires r in tried && Acceptable(q, r)
    ensures j < |tried| && Greenest(q, tried, j)
    decreases |tried|
  {
    var rest, last := Init(tried), Last(tried);
    assert tried == rest + [last];
    if k: nat :| k < |rest| && Acceptable(q, rest[k]) {
      j := SomeGreenest(q, rest, rest[k]);
      if Acceptable(q, last) && q.green(last) > q.green(rest[j]) { j := |rest|; }
    } else {
      assert r == last;
      j := |rest|;
    }
  }

  /** Among the acceptable, the choice is the most scenic exactly when greenness was not outweighed. */
  lemma MostScenicOfAcceptableIff(q: Request, tried: seq<Raw>)
    requires exists r :: r in tried && Acceptable(q, r)
    ensures (forall t | t in tried && Acceptable(q, t) :: q.green(t) <= q.green(Choose(q, tried).route))
       <==> !Outweighed(q, tried)
  {
    var i := ChoiceIsTop(q, tried);
    if Greenest(q, tried, i) {
      assert forall k: nat | k < |tried| :: !GoesBefore(q, tried, k, i);
    } else {
      forall j: nat | j < |tried| && Greenest(q, tried, j) ensures exists k: nat :: k < |tried| && GoesBefore(q, tried, k, j) {
        assert tried[i] in tried;
        assert GoesBefore(q, tried, i, j);
      }
    }
  }

  /** Everything over the cap has an acceptable candidate at least as green. */
  ghost predicate OverCapMatched(q: Request, tried: seq<Raw>) {
    forall t | t in tried && !Within(q, t) :: exists a :: a in tried && Acceptable(q, a) && q.green(t) <= q.green(a)
  }

  /** Among all tried, exactly when moreover nothing over the cap is greener than everything acceptable. */
  lemma MostScenicIff(q: Request, tried: seq<Raw>)
    requires exists r :: r in tried && Acceptable(q, r)
    ensures MostScenic(q, tried, Choose(q, tried).route) <==> !Outweighed(q, tried) && OverCapMatched(q, tried)
  {
    MostScenicOfAcceptableIff(q, tried);
    var i := ChoiceIsTop(q, tried);
    assert tried[i] in tried;
    if !Outweighed(q, tried) {
      forall t | t in tried && Within(q, t) ensures q.green(t) <= q.green(tried[i]) {
        assert Acceptable(q, t) || !Greener(q, t);
      }
    }
  }

  /** "Nothing better was reachable" is true of everything tried, by the mark the choice is made on. */
  lemma NothingBetterTried(q: Request, tried: seq<Raw>, r: Raw)
    requires r in tried && Acceptable(q, r)
    ensures Merit(q, r) <= Merit(q, Choose(q, tried).route)
  {
    var i := ChoiceIsTop(q, tried);
    var j: nat :| j < |tried| && tried[j] == r;
  }

  /** No acceptable route in `among` has a better mark. */
  ghost predicate NothingBetter(q: Request, among: seq<Raw>, r: Raw) {
    forall t | t in among && Acceptable(q, t) :: Merit(q, t) <= Merit(q, r)
  }

  /**
   * Over every candidate, asked for or not: gathered, the claim is always true; paid for one at a
   * time, exactly when none of the routes left unasked has a better mark than the first acceptable.
   */
  lemma NothingBetterIff(q: Request, specs: seq<Spec>, router: Router, unmetered: bool)
    requires specs != [] && Hunted(specs, router, r => Acceptable(q, r), unmetered).Tried?
    requires exists r :: r in Hunted(specs, router, r => Acceptable(q, r), unmetered).routes && Acceptable(q, r)
    ensures unmetered ==> NothingBetter(q, Survivors(specs, router), Scenic(q, specs, router, unmetered).route)
    ensures !unmetered ==>
              (NothingBetter(q, Survivors(specs, router), Scenic(q, specs, router, unmetered).route)
               <==> NothingBetter(q, Unasked(specs, router, r => Acceptable(q, r)), Scenic(q, specs, router, unmetered).route))
  {
    var enough := r => Acceptable(q, r);
    var tried := Hunted(specs, router, enough, unmetered).routes;
    TriedIsNeverEmpty(specs, router, enough, unmetered);
    forall r | r in tried && Acceptable(q, r) ensures Merit(q, r) <= Merit(q, Choose(q, tried).route) {
      NothingBetterTried(q, tried, r);
    }
    if !unmetered { AskedAndUnasked(specs, router, enough); }
  }

  /** And so for "most scenic": over every candidate exactly when it is over those tried and those unasked. */
  lemma MostScenicOverAllIff(q: Request, specs: seq<Spec>, router: Router)
    requires specs != [] && Metered(specs, router, r => Acceptable(q, r)).Tried?
    ensures var r := Scenic(q, specs, router, false).route;
            MostScenic(q, Survivors(specs, router), r)
            <==> (MostScenic(q, Metered(specs, router, r => Acceptable(q, r)).routes, r)
                  && MostScenic(q, Unasked(specs, router, r => Acceptable(q, r)), r))
  {
    TriedIsNeverEmpty(specs, router, r => Acceptable(q, r), false);
    AskedAndUnasked(specs, router, r => Acceptable(q, r));
  }

  /** A hundred minutes asked for: the less green of two acceptable loops is shown as the most scenic. */
  lemma LessGreenShownAsMostScenic(fastest: Raw, near: Raw, green: Raw)
    requires fastest.duration == 100.0 && near.duration == 60.0 && green.duration == 40.0
    ensures var q := Request(r => if r == fastest then 0.1 else if r == near then 0.5 else 0.55, Some(fastest), 100, true);
            Choose(q, [near, green]) == Chosen(near, Some(TooShort)) && Acceptable(q, green) && q.green(near) < q.green(green)
  {
    var q := Request(r => if r == fastest then 0.1 else if r == near then 0.5 else 0.55, Some(fastest), 100, true);
    var tried := [near, green];
    assert tried[0] in tried && tried[1] in tried;
    assert Fit(60.0, 100) == 0.6 && Fit(40.0, 100) == 0.4;
    var i := ChoiceIsTop(q, tried);
    NotesAreGivenFor(q, tried);
  }

  // ---------- "No route near you was more scenic than the fastest one" ----------

  /** True of everything tried exactly when nothing over the cap was greener than the fastest. */
  lemma NoGreenerIsTrueIff(q: Request, tried: seq<Raw>)
    requires tried != [] && Choose(q, tried).note == Some(NoGreener)
    ensures (forall r | r in tried :: !Greener(q, r)) <==> (forall r | r in tried && !Within(q, r) :: !Greener(q, r))
  {
    NotesAreGivenFor(q, tried);
    forall r | r in tried && Within(q, r) ensures !Greener(q, r) {
      assert !Acceptable(q, r);
    }
  }

  /** A search that ends in this note has asked for every candidate, so the claim is about all there are. */
  lemma NoGreenerIsAboutAll(q: Request, specs: seq<Spec>, router: Router)
    requires specs != [] && Metered(specs, router, r => Acceptable(q, r)).Tried?
    requires Scenic(q, specs, router, false).Chosen? && Scenic(q, specs, router, false).note == Some(NoGreener)
    ensures Metered(specs, router, r => Acceptable(q, r)).routes == Survivors(specs, router)
  {
    var enough := r => Acceptable(q, r);
    var tried := Metered(specs, router, enough).routes;
    TriedIsNeverEmpty(specs, router, enough, false);
    NotesAreGivenFor(q, tried);
    NothingEnoughNothingUnasked(specs, router, enough);
    AskedAndUnasked(specs, router, enough);
  }

  /** A route like the fastest and a greener one over the cap: the card says nothing was greener. */
  lemma GreenerOneOverCapDenied(fastest: Raw, plain: Raw, green: Raw, minutes: int)
    requires plain.duration <= 1.6 * fastest.duration < green.duration && green != fastest
    ensures var q := Request(r => if r == green then 0.9 else 0.1, Some(fastest), minutes, false);
            Choose(q, [plain, green]).note == Some(NoGreener) && Greener(q, green)
  {
    var q := Request(r => if r == green then 0.9 else 0.1, Some(fastest), minutes, false);
    var tried := [plain, green];
    assert tried[0] in tried;
    SomethingAcceptable(q, tried);
    OverCapNoteIff(q, tried);
    NotesAreGivenFor(q, tried);
  }

  // ---------- "The shortest one that is meaningfully better, and it is longer than you asked for" ----------

  /** The route under this note is the first candidate. */
  lemma OverCapIsTheFirst(q: Request, tried: seq<Raw>)
    requires tried != [] && Choose(q, tried).note == Some(OverCap)
    ensures Choose(q, tried).route == tried[0] && forall r | r in tried :: !Acceptable(q, r)
  {
    SomethingAcceptable(q, tried);
    if Accepted(q, tried) == [] {
      NothingAcceptable(q, tried);
      FallbackIsLeastBad(q, tried);
    }
  }

  /** The three things the sentence says of a route. */
  ghost predicate ShortestBetterAndLonger(q: Request, tried: seq<Raw>, r: Raw) {
    && Greener(q, r)
    && (forall t | t in tried && Greener(q, t) :: r.duration <= t.duration)
    && r.duration > q.minutes as real
  }

  /**
   * True exactly when the first candidate is greener than the fastest, takes longer than was asked
   * for (the cap says nothing of that), and no other one over the cap is greener and shorter.
   */
  lemma OverCapSentenceIff(q: Request, tried: seq<Raw>)
    requires tried != [] && Choose(q, tried).note == Some(OverCap)
    ensures Greener(q, Choose(q, tried).route) <==> Greener(q, tried[0])
    ensures ShortestBetterAndLonger(q, tried, Choose(q, tried).route)
       <==> Greener(q, tried[0]) && tried[0].duration > q.minutes as real && NoneShorterOverCap(q, tried)
  {
    OverCapIsTheFirst(q, tried);
    assert tried == [tried[0]] + tried[1..];
    forall r | r in tried && Greener(q, r) ensures !Within(q, r) {
      assert !Acceptable(q, r);
    }
  }

  ghost predicate NoneShorterOverCap(q: Request, tried: seq<Raw>)
    requires tried != []
  {
    forall r | r in tried[1..] && !Within(q, r) && Greener(q, r) :: tried[0].duration <= r.duration
  }
}
