/**
  The production deadline. The budget is spent, not waited out: only the time the producer takes is
  charged, and a consumer may hold each event as long as it likes.
*/
module Deadline {
  import opened Prelude
  import opened Events

  /** One pull of the producer that yields: the time it takes and what comes out. */
  datatype Turn = Turn(cost: real, event: Event)

  /** How the producer ends: the last pull's time, and None for StopAsyncIteration. */
  datatype Ending = Ending(cost: real, error: Option<string>)

  datatype Verdict = Finished | Raised(kind: string) | TimedOut

  datatype Answer = Answer(events: seq<Event>, verdict: Verdict)

  predicate HasGeometry(r: Route) {
    "geometry" in r.fields && r.fields["geometry"] != ""
  }

  function Usable(routes: seq<Route>): (usable: seq<Route>)
    ensures forall r :: r in usable <==> r in routes && HasGeometry(r)
    decreases |routes|
  {
    if routes == [] then []
    else (if HasGeometry(Last(routes)) then Usable(Init(routes)) + [Last(routes)] else Usable(Init(routes)))
  }

  const DEADLINE_NOTE := "This took longer than expected"

  /** What the `except TimeoutError` branch yields, from the routes seen so far. */
  function OnTimeout(partial: seq<Route>): (e: Event)
    ensures Terminal(e) && !CompleteDone(e)
  {
    if Usable(partial) == [] then ErrorEvent("timeout")
    else DoneEvent(Payload(Usable(partial), Some(DEADLINE_NOTE)), true)
  }

  /** A pull that takes exactly what is left may go either way; `tie` says which. */
  predicate InTime(cost: real, remaining: real, tie: bool) {
    cost < remaining || (tie && cost == remaining)
  }

  ghost predicate Physical(script: seq<Turn>, ending: Ending) {
    ending.cost >= 0.0 && forall t | t in script :: t.cost >= 0.0
  }

  function Outputs(script: seq<Turn>): (events: seq<Event>)
    ensures |events| == |script|
    ensures forall i | 0 <= i < |events| :: events[i] == script[i].event
  {
    seq(|script|, i requires 0 <= i < |script| => script[i].event)
  }

  function Total(script: seq<Turn>): real
    decreases |script|
  {
    if script == [] then 0.0 else Total(Init(script)) + Last(script).cost
  }

  /** The pulls that are served before the budget is gone; consumer delays do not appear. */
  function Served(script: seq<Turn>, budget: real, tie: bool): (n: nat)
    ensures n <= |script|
    decreases |script|
  {
    if script == [] then 0
    else
      var before := Served(Init(script), budget, tie);
      if before == |script| - 1 && PullSucceeds(script, |script| - 1, budget, tie) then |script| else before
  }

  predicate PullSucceeds(script: seq<Turn>, k: nat, budget: real, tie: bool)
    requires k < |script|
  {
    var remaining := budget - Total(script[..k]);
    remaining > 0.0 && InTime(script[k].cost, remaining, tie)
  }

  predicate EndSucceeds(script: seq<Turn>, ending: Ending, budget: real, tie: bool) {
    var remaining := budget - Total(script);
    remaining > 0.0 && InTime(ending.cost, remaining, tie)
  }

  function Bounded(script: seq<Turn>, ending: Ending, budget: real, tie: bool): Answer {
    var n := Served(script, budget, tie);
    var sent := Outputs(script)[..n];
    if n == |script| && EndSucceeds(script, ending, budget, tie) then
      Answer(sent, match ending.error case None => Finished case Some(kind) => Raised(kind))
    else
      Answer(sent + [OnTimeout(MergeOnto([], sent))], TimedOut)
  }

  lemma ServedPrefix(script: seq<Turn>, k: nat, budget: real, tie: bool)
    requires k <= |script|
    ensures Served(script[..k], budget, tie) == if Served(script, budget, tie) < k then Served(script, budget, tie) else k
    decreases |script| - k
  {
    if k < |script| {
      ServedPrefix(script, k + 1, budget, tie);
      assert Init(script[..k + 1]) == script[..k];
    } else {
      assert script[..k] == script;
    }
  }

  /** Having served k, the next pull decides whether k is all or k + 1 are. */
  lemma ServedSoFar(script: seq<Turn>, k: nat, budget: real, tie: bool)
    requires k <= |script| && Served(script[..k], budget, tie) == k
    ensures k == |script| ==> Served(script, budget, tie) == k && script[..k] == script
    ensures k < |script| && !PullSucceeds(script, k, budget, tie) ==> Served(script, budget, tie) == k
    ensures k < |script| && PullSucceeds(script, k, budget, tie) ==> Served(script[..k + 1], budget, tie) == k + 1
    ensures k < |script| ==> Total(script[..k + 1]) == Total(script[..k]) + script[k].cost
  {
    ServedPrefix(script, k, budget, tie);
    if k < |script| {
      ServedPrefix(script, k + 1, budget, tie);
      assert script[..k + 1][..k] == script[..k] && Init(script[..k + 1]) == script[..k];
    } else {
      assert script[..k] == script;
    }
  }

  /** The pull after k events: the next event, or the end. */
  predicate Due(script: seq<Turn>, ending: Ending, k: nat, remaining: real, tie: bool)
    requires k <= |script|
  {
    remaining > 0.0 && InTime(if k < |script| then script[k].cost else ending.cost, remaining, tie)
  }

  lemma DecidedHere(script: seq<Turn>, ending: Ending, k: nat, remaining: real, budget: real, tie: bool)
    requires k <= |script| && Served(script[..k], budget, tie) == k && remaining == budget - Total(script[..k])
    ensures !Due(script, ending, k, remaining, tie) ==>
              Bounded(script, ending, budget, tie)
              == Answer(Outputs(script)[..k] + [OnTimeout(MergeOnto([], Outputs(script)[..k]))], TimedOut)
    ensures k == |script| && Due(script, ending, k, remaining, tie) ==>
              Bounded(script, ending, budget, tie)
              == Answer(Outputs(script)[..k], match ending.error case None => Finished case Some(kind) => Raised(kind))
  {
    ServedSoFar(script, k, budget, tie);
  }

  lemma OneMoreServed(script: seq<Turn>, ending: Ending, k: nat, remaining: real, budget: real, tie: bool)
    requires k < |script| && Served(script[..k], budget, tie) == k && remaining == budget - Total(script[..k])
    requires Due(script, ending, k, remaining, tie)
    ensures Served(script[..k + 1], budget, tie) == k + 1
    ensures remaining - script[k].cost == budget - Total(script[..k + 1])
    ensures Outputs(script)[..k + 1] == Outputs(script)[..k] + [script[k].event]
  {
    ServedSoFar(script, k, budget, tie);
  }

  lemma MergeOne(out: seq<Event>, event: Event)
    ensures MergeOnto([], out + [event])
         == if event.RouteEvent? then Upsert(MergeOnto([], out), event.route) else MergeOnto([], out)
  {
    assert Init(out + [event]) == out;
  }

  /**
    The generator with its clock. `delays[k]` is how long the consumer keeps the generator suspended
    after event k: it moves the clock and nothing else.
  */
  method RunWithDeadline(script: seq<Turn>, ending: Ending, delays: seq<real>, budget: real, tie: bool)
    returns (answer: Answer)
    requires Physical(script, ending)
    requires |delays| == |script| && forall d | d in delays :: d >= 0.0
    ensures answer == Bounded(script, ending, budget, tie)
  {
    var now := 0.0;
    var remaining := budget;
    var partial: seq<Route> := [];
    var out: seq<Event> := [];
    var k := 0;
    while true
      invariant 0 <= k <= |script|
      invariant remaining == budget - Total(script[..k])
      invariant out == Outputs(script)[..k]
      invariant partial == MergeOnto([], out)
      invariant Served(script[..k], budget, tie) == k
      decreases |script| - k
    {
      DecidedHere(script, ending, k, remaining, budget, tie);
      if remaining <= 0.0 { break; }
      var started := now;
      var cost := if k < |script| then script[k].cost else ending.cost;
      if !InTime(cost, remaining, tie) {
        now := now + remaining;
        break;
      }
      if k < |script| { OneMoreServed(script, ending, k, remaining, budget, tie); }
      now := now + cost;
      remaining := remaining - (now - started);
      if k == |script| {
        answer := Answer(out, match ending.error case None => Finished case Some(kind) => Raised(kind));
        return;
      }
      var event := script[k].event;
      MergeOne(out, event);
      if event.RouteEvent? { partial := Upsert(partial, event.route); }
      out := out + [event];
      now := now + delays[k];
      k := k + 1;
    }
    answer := Answer(out + [OnTimeout(partial)], TimedOut);
  }

  // ---------------------------------------------------------------------------------------------

  lemma {:induction false} TotalGrows(script: seq<Turn>, ending: Ending, k: nat)
    requires Physical(script, ending) && k <= |script|
    ensures Total(script[..k]) <= Total(script)
    ensures k < |script| ==> Total(script[..k]) + script[k].cost <= Total(script)
    decreases |script|
  {
    if k == |script| {
      assert script[..k] == script;
    } else {
      assert Last(script) in script;
      assert forall t | t in Init(script) :: t in script;
      if k == |script| - 1 {
        assert script[..k] == Init(script);
      } else {
        assert Init(script)[..k] == script[..k];
        TotalGrows(Init(script), ending, k);
      }
    }
  }

  lemma {:induction false} ServesAllBelowBudget(script: seq<Turn>, ending: Ending, budget: real, tie: bool)
    requires Physical(script, ending) && Total(script) < budget
    ensures Served(script, budget, tie) == |script|
    decreases |script|
  {
    if script != [] {
      var k := |script| - 1;
      assert Last(script) in script;
      assert forall t | t in Init(script) :: t in script;
      assert script[..k] == Init(script);
      ServesAllBelowBudget(Init(script), ending, budget, tie);
    }
  }

  lemma {:induction false} ServedCostsFit(script: seq<Turn>, budget: real, tie: bool)
    requires budget > 0.0
    ensures Total(script[..Served(script, budget, tie)]) <= budget
    decreases |script|
  {
    if script != [] {
      ServedCostsFit(Init(script), budget, tie);
      var n := Served(script, budget, tie);
      if n < |script| {
        assert Init(script)[..n] == script[..n];
      } else {
        assert script[..n] == script && script[..|script| - 1] == Init(script);
      }
    }
  }

  /**
    Below the budget every event is delivered and nothing times out, above it the run always times
    out: the outcome is a function of the producer's own time alone.
  */
  lemma OnlyProducerTimeCounts(script: seq<Turn>, ending: Ending, budget: real, tie: bool)
    requires Physical(script, ending)
    ensures Total(script) + ending.cost < budget ==>
              && Bounded(script, ending, budget, tie).events == Outputs(script)
              && !Bounded(script, ending, budget, tie).verdict.TimedOut?
    ensures Total(script) + ending.cost > budget ==> Bounded(script, ending, budget, tie).verdict.TimedOut?
    ensures Total(script) + ending.cost == budget && ending.cost > 0.0 ==>
              (Bounded(script, ending, budget, tie).verdict.TimedOut? <==> !tie)
  {
    if Total(script) < budget { ServesAllBelowBudget(script, ending, budget, tie); }
    if Total(script) + ending.cost < budget {
      ServesAllBelowBudget(script, ending, budget, tie);
    }
  }

  /** A timed-out run adds exactly one event: `done`, partial, with the latest of every route that has
      geometry, or `error` exactly when no delivered route has any. */
  lemma TimeoutAddsOneEvent(script: seq<Turn>, ending: Ending, budget: real, tie: bool)
    requires Bounded(script, ending, budget, tie).verdict.TimedOut?
    ensures var out := Bounded(script, ending, budget, tie).events;
            var sent := Outputs(script)[..Served(script, budget, tie)];
            && out != [] && Init(out) == sent
            && (Last(out) == ErrorEvent("timeout") <==>
                  forall r | r in MergeOnto([], sent) :: !HasGeometry(r))
            && (!Last(out).ErrorEvent? ==>
                  && Last(out).DoneEvent? && Last(out).partial
                  && forall r :: r in Last(out).payload.routes <==>
                       LastFor(sent, r.id) == Some(r) && HasGeometry(r))
  {
    var sent := Outputs(script)[..Served(script, budget, tie)];
    MergeIsLastWriter([], sent);
    var merged := MergeOnto([], sent);
    if Usable(merged) != [] { assert Usable(merged)[0] in merged; }
  }

  /** `done`, when the producer sends it, is its last event and complete; it never sends `error`. */
  ghost predicate DoneLast(script: seq<Turn>) {
    forall i | 0 <= i < |script| ::
      (Terminal(script[i].event) ==> CompleteDone(script[i].event) && i == |script| - 1)
  }

  /** Dropping the routes without geometry keeps the others as they stand. */
  lemma {:induction false} UsableKeepsOrder(a: seq<Route>, b: seq<Route>)
    ensures Usable(a + b) == Usable(a) + Usable(b)
    decreases |b|
  {
    if b == [] {
      assert a + b == a;
    } else {
      assert Init(a + b) == a + Init(b);
      UsableKeepsOrder(a, Init(b));
    }
  }

  function CountTerminal(events: seq<Event>): nat
    decreases |events|
  {
    if events == [] then 0 else CountTerminal(Init(events)) + (if Terminal(Last(events)) then 1 else 0)
  }

  lemma {:induction false} NoTerminalBefore(events: seq<Event>)
    requires forall i | 0 <= i < |events| - 1 :: !Terminal(events[i])
    ensures CountTerminal(events) == if events != [] && Terminal(Last(events)) then 1 else 0
    decreases |events|
  {
    if events != [] { NoTerminalBefore(Init(events)); }
  }

  /** The condition under which an answered run is answered a second time: the producer's `done` went
      out in time, and the pull that would have ended the run did not. */
  predicate DoneThenLate(script: seq<Turn>, ending: Ending, budget: real, tie: bool) {
    && script != [] && Last(script).event.DoneEvent?
    && Served(script, budget, tie) == |script|
    && !EndSucceeds(script, ending, budget, tie)
  }

  /** At most one terminal event per run, except exactly when the deadline falls after `done`. */
  lemma TerminalCount(script: seq<Turn>, ending: Ending, budget: real, tie: bool)
    requires DoneLast(script)
    ensures CountTerminal(Bounded(script, ending, budget, tie).events) <= 1 <==>
            !DoneThenLate(script, ending, budget, tie)
    ensures Bounded(script, ending, budget, tie).verdict.TimedOut? && !DoneThenLate(script, ending, budget, tie) ==>
            CountTerminal(Bounded(script, ending, budget, tie).events) == 1
  {
    var n := Served(script, budget, tie);
    var sent := Outputs(script)[..n];
    NoTerminalBefore(sent);
    OneMoreTerminal(sent, OnTimeout(MergeOnto([], sent)));
    if n > 0 { assert Last(sent) == script[n - 1].event; }
  }

  lemma OneMoreTerminal(sent: seq<Event>, late: Event)
    requires Terminal(late)
    ensures CountTerminal(sent + [late]) == CountTerminal(sent) + 1
  {
    assert Init(sent + [late]) == sent;
  }

  /** Every producer that finishes `done` below the budget and then takes too long to stop answers twice. */
  lemma SlowStopAnswersTwice(script: seq<Turn>, ending: Ending, budget: real, tie: bool)
    requires Physical(script, ending) && script != [] && Last(script).event.DoneEvent?
    requires Total(script) < budget < Total(script) + ending.cost
    ensures DoneThenLate(script, ending, budget, tie)
    ensures Bounded(script, ending, budget, tie).events == Outputs(script) + [OnTimeout(MergeOnto([], Outputs(script)))]
  {
    ServesAllBelowBudget(script, ending, budget, tie);
    assert Outputs(script)[..|script|] == Outputs(script);
  }

  /** At most one complete answer: what `Journey.OneWritePerAnswer` relies on. */
  lemma OneCompleteDone(script: seq<Turn>, ending: Ending, budget: real, tie: bool, i: nat, j: nat)
    requires DoneLast(script)
    requires i < j < |Bounded(script, ending, budget, tie).events|
    ensures !(CompleteDone(Bounded(script, ending, budget, tie).events[i])
              && CompleteDone(Bounded(script, ending, budget, tie).events[j]))
  {
    var out := Bounded(script, ending, budget, tie).events;
    var n := Served(script, budget, tie);
    if j < n { assert out[i] == script[i].event; }
  }
}
