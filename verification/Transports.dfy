/** One endpoint, two transports: the JSON body drained from the events, and the stream the browser settles on. */
module Transports {
  import opened Prelude
  import opened Events
  import opened Deadline
  import Sse

  datatype Reply = Ok(payload: Payload) | Err(kind: string)

  /** A `done` event's two fields. */
  datatype Outcome = Outcome(payload: Payload, partial: bool)

  function LastDone(events: seq<Event>): Option<Outcome>
    decreases |events|
  {
    if events == [] then None
    else if Last(events).DoneEvent? then Some(Outcome(Last(events).payload, Last(events).partial))
    else LastDone(Init(events))
  }

  function LastError(events: seq<Event>): Option<string>
    decreases |events|
  {
    if events == [] then None
    else if Last(events).ErrorEvent? then Some(Last(events).kind) else LastError(Init(events))
  }

  /** What the drain remembers of either kind is the last of its kind. */
  lemma {:induction false} LastOfItsKind(events: seq<Event>, k: nat)
    requires k < |events|
    ensures events[k].DoneEvent? && (forall j | k < j < |events| :: !events[j].DoneEvent?) ==>
              LastDone(events) == Some(Outcome(events[k].payload, events[k].partial))
    ensures events[k].ErrorEvent? && (forall j | k < j < |events| :: !events[j].ErrorEvent?) ==>
              LastError(events) == Some(events[k].kind)
    decreases |events|
  {
    if k < |events| - 1 { LastOfItsKind(Init(events), k); }
  }

  function JsonReply(a: Answer): Reply {
    if a.verdict.Raised? then Err(a.verdict.kind)
    else match LastDone(a.events)
      case Some(done) => Ok(done.payload)
      case None => Err(match LastError(a.events) case Some(kind) => kind case None => "upstream")
  }

  /** The same when the shutdown flag is tested before each event; `shutting` is what those tests see. */
  function Drained(a: Answer, shutting: seq<bool>): Reply {
    if true in shutting then Err("shutting_down") else JsonReply(a)
  }

  /** The drain in `post_routes`, and what it would store: complete answers only. */
  method DrainJson(a: Answer, shutting: seq<bool>) returns (reply: Reply, stored: Option<Payload>)
    requires |shutting| == |a.events|
    ensures reply == Drained(a, shutting)
    ensures stored == if reply.Ok? && !LastDone(a.events).value.partial then Some(reply.payload) else None
  {
    var payload: Option<Payload> := None;
    var failure: Option<string> := None;
    var partial := false;
    for i := 0 to |a.events|
      invariant payload.Some? <==> LastDone(a.events[..i]).Some?
      invariant payload.Some? ==> LastDone(a.events[..i]) == Some(Outcome(payload.value, partial))
      invariant failure == LastError(a.events[..i])
      invariant true !in shutting[..i]
    {
      assert Init(a.events[..i + 1]) == a.events[..i];
      assert shutting[..i + 1] == shutting[..i] + [shutting[i]];
      if shutting[i] {
        assert shutting[i] in shutting;
        return Err("shutting_down"), None;
      }
      match a.events[i] {
        case DoneEvent(p, mark) => payload, partial := Some(p), mark;
        case ErrorEvent(kind) => failure := Some(kind);
        case _ =>
      }
    }
    assert a.events[..|a.events|] == a.events && shutting[..|shutting|] == shutting;
    stored := None;
    if a.verdict.Raised? {
      reply := Err(a.verdict.kind);
    } else if payload.None? {
      reply := Err(if failure.Some? then failure.value else "upstream");
    } else {
      reply := Ok(payload.value);
      if !partial { stored := payload; }
    }
  }

  function AsMessage(e: Event): Sse.Message<Route, Payload> {
    match e
    case Progress(pct) => Sse.Progress(pct)
    case RouteEvent(route) => Sse.RouteFrame(route)
    case DoneEvent(payload, _) => Sse.DoneFrame(payload)
    case ErrorEvent(kind) => Sse.ErrorFrame(kind)
  }

  /** What the session sends: every event, then an error frame for an exception. */
  function Sent(a: Answer): seq<Sse.Message<Route, Payload>> {
    seq(|a.events|, i requires 0 <= i < |a.events| => AsMessage(a.events[i]))
    + (if a.verdict.Raised? then [Sse.ErrorFrame(a.verdict.kind)] else [])
  }

  function StreamReply(a: Answer): Reply {
    var c := Sse.DeliverAll(Sse.Fresh(), Sent(a));
    match c.failure
    case Some(kind) => Err(kind)
    case None => (match c.final case Some(payload) => Ok(payload) case None => Err("stream"))
  }

  lemma {:induction false} DeliverSnoc(
    c: Sse.Client<Route, Payload>, ms: seq<Sse.Message<Route, Payload>>, m: Sse.Message<Route, Payload>)
    ensures Sse.DeliverAll(c, ms + [m]) == Sse.Deliver(Sse.DeliverAll(c, ms), m)
    decreases |ms|
  {
    if ms == [] {
      assert [m][1..] == [];
    } else {
      assert (ms + [m])[1..] == ms[1..] + [m];
      DeliverSnoc(Sse.Deliver(c, ms[0]), ms[1..], m);
    }
  }

  /** While no error has been announced, the browser holds the last `done`. */
  lemma {:induction false} CleanDelivery(events: seq<Event>)
    requires forall e | e in events :: !e.ErrorEvent?
    ensures var c := Sse.DeliverAll(Sse.Fresh(), Sent(Answer(events, Finished)));
            && c.failure.None?
            && match LastDone(events)
               case Some(d) => c.final == Some(d.payload)
               case None => c.final.None?
    ensures LastError(events) == None
    decreases |events|
  {
    if events != [] {
      var before := Init(events);
      CleanDelivery(before);
      assert Last(events) in events;
      assert Sent(Answer(events, Finished)) == Sent(Answer(before, Finished)) + [AsMessage(Last(events))];
      DeliverSnoc(Sse.Fresh(), Sent(Answer(before, Finished)), AsMessage(Last(events)));
    }
  }

  predicate Same(a: Reply, b: Reply) {
    (a.Ok? && a == b) || (a.Err? && b.Err?)
  }

  lemma AgreeInTime(a: Answer)
    requires !a.verdict.TimedOut? && forall e | e in a.events :: !e.ErrorEvent?
    ensures Same(JsonReply(a), StreamReply(a))
    ensures a.verdict.Raised? ==> JsonReply(a) == StreamReply(a)
  {
    var base := Answer(a.events, Finished);
    CleanDelivery(a.events);
    if a.verdict.Raised? {
      assert Sent(a) == Sent(base) + [Sse.ErrorFrame(a.verdict.kind)];
      DeliverSnoc(Sse.Fresh(), Sent(base), Sse.ErrorFrame(a.verdict.kind));
    } else {
      assert a == base;
    }
  }

  /** What each transport makes of a run that ends in one more event. */
  lemma LateReplies(sent: seq<Event>, late: Event)
    requires Terminal(late) && forall e | e in sent :: !e.ErrorEvent?
    ensures var a := Answer(sent + [late], TimedOut);
            && JsonReply(a) == (if late.DoneEvent? then Ok(late.payload)
                                else match LastDone(sent) case Some(d) => Ok(d.payload) case None => Err(late.kind))
            && StreamReply(a) == (if late.DoneEvent? then Ok(late.payload) else Err(late.kind))
  {
    LateStream(sent, late);
    LateJson(sent, late);
  }

  lemma LateJson(sent: seq<Event>, late: Event)
    requires Terminal(late) && LastError(sent) == None
    ensures JsonReply(Answer(sent + [late], TimedOut))
         == if late.DoneEvent? then Ok(late.payload)
            else match LastDone(sent) case Some(d) => Ok(d.payload) case None => Err(late.kind)
  {
    assert Init(sent + [late]) == sent;
  }

  lemma LateStream(sent: seq<Event>, late: Event)
    requires Terminal(late) && forall e | e in sent :: !e.ErrorEvent?
    ensures LastError(sent) == None
    ensures StreamReply(Answer(sent + [late], TimedOut)) == if late.DoneEvent? then Ok(late.payload) else Err(late.kind)
  {
    var a, base := Answer(sent + [late], TimedOut), Answer(sent, Finished);
    CleanDelivery(sent);
    assert Sent(a) == Sent(base) + [AsMessage(late)];
    DeliverSnoc(Sse.Fresh(), Sent(base), AsMessage(late));
  }

  lemma AgreeLate(sent: seq<Event>, late: Event)
    requires Terminal(late) && forall e | e in sent :: !e.ErrorEvent?
    ensures var a := Answer(sent + [late], TimedOut);
            Same(JsonReply(a), StreamReply(a)) <==> late.DoneEvent? || LastDone(sent).None?
  {
    LateReplies(sent, late);
  }

  /**
    The transports agree on every run of a well-behaved producer, except when the deadline passes
    after `done` and no delivered route has geometry: JSON then answers and the stream fails.
  */
  lemma TransportsAgree(script: seq<Turn>, ending: Ending, budget: real, tie: bool)
    requires DoneLast(script)
    ensures var a := Bounded(script, ending, budget, tie);
            Same(JsonReply(a), StreamReply(a)) <==>
              !(DoneThenLate(script, ending, budget, tie)
                && forall r | r in MergeOnto([], Outputs(script)) :: !HasGeometry(r))
    ensures var a := Bounded(script, ending, budget, tie);
            a.verdict.Raised? ==> JsonReply(a) == StreamReply(a)
  {
    var a := Bounded(script, ending, budget, tie);
    var n := Served(script, budget, tie);
    CleanScript(script, n);
    if a.verdict.TimedOut? { AgreeTimedOut(script, ending, budget, tie); } else { AgreeInTime(a); }
  }

  lemma CleanScript(script: seq<Turn>, n: nat)
    requires DoneLast(script) && n <= |script|
    ensures forall e | e in Outputs(script)[..n] :: !e.ErrorEvent?
  {
    assert forall i | 0 <= i < n :: Outputs(script)[..n][i] == script[i].event;
  }

  lemma AgreeTimedOut(script: seq<Turn>, ending: Ending, budget: real, tie: bool)
    requires DoneLast(script) && Bounded(script, ending, budget, tie).verdict.TimedOut?
    ensures var a := Bounded(script, ending, budget, tie);
            Same(JsonReply(a), StreamReply(a)) <==>
              !(DoneThenLate(script, ending, budget, tie)
                && forall r | r in MergeOnto([], Outputs(script)) :: !HasGeometry(r))
  {
    var n := Served(script, budget, tie);
    var sent := Outputs(script)[..n];
    CleanScript(script, n);
    AgreeLate(sent, Last(Bounded(script, ending, budget, tie).events));
    TimeoutAddsOneEvent(script, ending, budget, tie);
    WhetherDone(script, n);
    assert n == |script| ==> sent == Outputs(script);
  }

  lemma {:induction false} WhetherDone(script: seq<Turn>, n: nat)
    requires DoneLast(script) && n <= |script|
    ensures LastDone(Outputs(script)[..n]).Some? <==> n == |script| && n > 0 && Last(script).event.DoneEvent?
    decreases n
  {
    var sent := Outputs(script)[..n];
    if n > 0 {
      assert Last(sent) == script[n - 1].event;
      if !Last(sent).DoneEvent? {
        assert Init(sent) == Outputs(script)[..n - 1];
        WhetherDone(script, n - 1);
      }
    }
  }

  /** A producer that does what a response does: it ends in `done`, or it raises. */
  predicate EndsProperly(script: seq<Turn>, ending: Ending) {
    ending.error.Some? || (script != [] && Last(script).event.DoneEvent?)
  }

  /** Over such a producer the two replies are the same to the kind of error, with the same one exception. */
  lemma RepliesAreEqualIff(script: seq<Turn>, ending: Ending, budget: real, tie: bool)
    requires DoneLast(script) && EndsProperly(script, ending)
    ensures var a := Bounded(script, ending, budget, tie);
            JsonReply(a) == StreamReply(a) <==>
              !(DoneThenLate(script, ending, budget, tie)
                && forall r | r in MergeOnto([], Outputs(script)) :: !HasGeometry(r))
  {
    TransportsAgree(script, ending, budget, tie);
    SameKinds(script, ending, budget, tie);
  }

  lemma SameKinds(script: seq<Turn>, ending: Ending, budget: real, tie: bool)
    requires DoneLast(script) && EndsProperly(script, ending)
    ensures var a := Bounded(script, ending, budget, tie);
            Same(JsonReply(a), StreamReply(a)) ==> JsonReply(a) == StreamReply(a)
  {
    var a := Bounded(script, ending, budget, tie);
    var n := Served(script, budget, tie);
    CleanScript(script, n);
    match a.verdict {
      case TimedOut => LateKinds(Outputs(script)[..n], Last(a.events));
      case Raised(_) => AgreeInTime(a);
      case Finished => FinishedKinds(script, a);
    }
  }

  lemma FinishedKinds(script: seq<Turn>, a: Answer)
    requires DoneLast(script) && script != [] && Last(script).event.DoneEvent?
    requires a == Answer(Outputs(script)[..|script|], Finished)
    ensures JsonReply(a) == StreamReply(a)
  {
    CleanScript(script, |script|);
    assert Last(a.events) == Last(script).event;
    CleanDelivery(a.events);
  }

  lemma LateKinds(sent: seq<Event>, late: Event)
    requires Terminal(late) && forall e | e in sent :: !e.ErrorEvent?
    ensures var a := Answer(sent + [late], TimedOut);
            Same(JsonReply(a), StreamReply(a)) ==> JsonReply(a) == StreamReply(a)
  {
    LateReplies(sent, late);
  }
}
