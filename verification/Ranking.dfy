/** Stable sorting of routes by the position of their id in the requested objectives. */
module Ranking {
  import opened Prelude
  import opened Events

  /** `indexOf`, with the length for an id that is not there (it sorts last). */
  function Rank(objectives: seq<string>, id: string): (k: nat)
    ensures k <= |objectives|
    ensures k < |objectives| ==> objectives[k] == id
    ensures id in objectives ==> k < |objectives|
    decreases |objectives|
  {
    if objectives == [] || objectives[0] == id then 0
    else 1 + Rank(objectives[1..], id)
  }

  /** Put r after every route of its rank or lower. */
  function InsertByRank(objectives: seq<string>, sorted: seq<Route>, r: Route): seq<Route>
    decreases |sorted|
  {
    if sorted == [] then [r]
    else if Rank(objectives, Last(sorted).id) <= Rank(objectives, r.id) then sorted + [r]
    else InsertByRank(objectives, Init(sorted), r) + [Last(sorted)]
  }

  function SortByRank(objectives: seq<string>, routes: seq<Route>): seq<Route>
    decreases |routes|
  {
    if routes == [] then [] else InsertByRank(objectives, SortByRank(objectives, Init(routes)), Last(routes))
  }

  ghost predicate Ascending(objectives: seq<string>, routes: seq<Route>) {
    forall i, j | 0 <= i < j < |routes| :: Rank(objectives, routes[i].id) <= Rank(objectives, routes[j].id)
  }

  lemma AppendKeeps(objectives: seq<string>, sorted: seq<Route>, r: Route)
    requires Ascending(objectives, sorted) && Distinct(Ids(sorted))
    requires forall i | 0 <= i < |sorted| ::
               Rank(objectives, sorted[i].id) <= Rank(objectives, r.id) && sorted[i].id != r.id
    ensures Ascending(objectives, sorted + [r]) && Distinct(Ids(sorted + [r]))
  {
    assert Ids(sorted + [r]) == Ids(sorted) + [r.id];
  }

  lemma {:induction false} InsertKeeps(objectives: seq<string>, sorted: seq<Route>, r: Route)
    requires Ascending(objectives, sorted) && Distinct(Ids(sorted))
    requires forall q | q in sorted :: q.id != r.id
    ensures var after := InsertByRank(objectives, sorted, r);
            Ascending(objectives, after) && Distinct(Ids(after))
    ensures forall q :: q in InsertByRank(objectives, sorted, r) <==> q == r || q in sorted
    decreases |sorted|
  {
    if sorted == [] {
    } else if Rank(objectives, Last(sorted).id) <= Rank(objectives, r.id) {
      assert forall i | 0 <= i < |sorted| :: sorted[i] in sorted;
      AppendKeeps(objectives, sorted, r);
    } else {
      var l, n := Last(sorted), |sorted| - 1;
      var sub := InsertByRank(objectives, Init(sorted), r);
      assert Ids(Init(sorted)) == Init(Ids(sorted));
      InsertKeeps(objectives, Init(sorted), r);
      assert sorted == Init(sorted) + [l];
      forall i | 0 <= i < |sub|
        ensures Rank(objectives, sub[i].id) <= Rank(objectives, l.id) && sub[i].id != l.id
      {
        assert sub[i] in sub;
        if sub[i] != r { BeforeLast(objectives, sorted, sub[i]); }
      }
      AppendKeeps(objectives, sub, l);
    }
  }

  lemma BeforeLast(objectives: seq<string>, sorted: seq<Route>, q: Route)
    requires sorted != [] && Ascending(objectives, sorted) && Distinct(Ids(sorted)) && q in Init(sorted)
    ensures Rank(objectives, q.id) <= Rank(objectives, Last(sorted).id) && q.id != Last(sorted).id
  {
    var k :| 0 <= k < |sorted| - 1 && sorted[k] == q;
    assert Ids(sorted)[k] != Ids(sorted)[|sorted| - 1];
  }

  lemma {:induction false} SortKeeps(objectives: seq<string>, routes: seq<Route>)
    requires Distinct(Ids(routes))
    ensures Ascending(objectives, SortByRank(objectives, routes))
    ensures Distinct(Ids(SortByRank(objectives, routes)))
    ensures forall r :: r in SortByRank(objectives, routes) <==> r in routes
    decreases |routes|
  {
    if routes != [] {
      var before := Init(routes);
      assert Ids(before) == Init(Ids(routes));
      SortKeeps(objectives, before);
      assert routes == before + [Last(routes)];
      var sorted := SortByRank(objectives, before);
      forall q | q in sorted ensures q.id != Last(routes).id {
        var i :| 0 <= i < |before| && before[i] == q;
        assert Ids(routes)[i] != Ids(routes)[|before|];
      }
      InsertKeeps(objectives, sorted, Last(routes));
    }
  }

  /** Sorted by rank, no id twice, every objective there and nothing else: exactly the request. */
  lemma SortedIsRequested(objectives: seq<string>, routes: seq<Route>)
    requires Distinct(objectives) && Ascending(objectives, routes) && Distinct(Ids(routes))
    requires forall r | r in routes :: r.id in objectives
    requires forall o | o in objectives :: o in Ids(routes)
    ensures Ids(routes) == objectives
  {
    forall i, j | 0 <= i < j < |routes|
      ensures Rank(objectives, routes[i].id) < Rank(objectives, routes[j].id)
    {
      assert Ids(routes)[i] != Ids(routes)[j];
      assert routes[i] in routes && routes[j] in routes;
    }
    forall i: nat | i < |objectives| ensures Aligned(objectives, routes, i) {
      PositionIsRank(objectives, routes, i);
    }
    assert |routes| >= |objectives| by {
      if objectives != [] { assert Aligned(objectives, routes, |objectives| - 1); }
    }
    assert |routes| <= |objectives| by {
      if |routes| > |objectives| {
        assert forall i: nat | i < |objectives| :: Aligned(objectives, routes, i);
        NoneBeyond(objectives, routes);
      }
    }
    forall i: nat | i < |objectives| ensures Ids(routes)[i] == objectives[i] {
      assert Aligned(objectives, routes, i);
    }
  }

  ghost predicate Aligned(objectives: seq<string>, routes: seq<Route>, i: nat) {
    i < |routes| && Rank(objectives, routes[i].id) == i
  }

  ghost predicate Increasing(objectives: seq<string>, routes: seq<Route>) {
    forall p, q | 0 <= p < q < |routes| ::
      Rank(objectives, routes[p].id) < Rank(objectives, routes[q].id)
  }

  lemma NoneBeyond(objectives: seq<string>, routes: seq<Route>)
    requires |routes| > |objectives| && Increasing(objectives, routes)
    requires forall i: nat | i < |objectives| :: Aligned(objectives, routes, i)
    ensures routes[|objectives|].id !in objectives
  {
    var n := |objectives|;
    if n > 0 {
      assert Aligned(objectives, routes, n - 1);
      assert Rank(objectives, routes[n - 1].id) < Rank(objectives, routes[n].id);
    }
  }

  lemma RankOf(objectives: seq<string>, i: nat)
    requires Distinct(objectives) && i < |objectives|
    ensures Rank(objectives, objectives[i]) == i
  {
    assert objectives[i] in objectives;
    assert objectives[Rank(objectives, objectives[i])] == objectives[i];
  }

  lemma {:induction false} PositionIsRank(objectives: seq<string>, routes: seq<Route>, i: nat)
    requires Distinct(objectives) && i < |objectives| && Increasing(objectives, routes)
    requires forall o | o in objectives :: o in Ids(routes)
    ensures Aligned(objectives, routes, i)
  {
    forall p: nat | p < i ensures Aligned(objectives, routes, p) {
      PositionIsRank(objectives, routes, p);
    }
    assert objectives[i] in objectives;
    var j: nat :| j < |routes| && Ids(routes)[j] == objectives[i];
    RankOf(objectives, i);
    assert j < i ==> Aligned(objectives, routes, j);
    assert Rank(objectives, routes[i].id) >= i by {
      if i > 0 {
        assert Aligned(objectives, routes, i - 1);
        assert Rank(objectives, routes[i - 1].id) < Rank(objectives, routes[i].id);
      }
    }
  }
}
