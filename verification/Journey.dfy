/**
  From the producer to the screen. A session's frames are printed, cut into chunks by the network and
  read by the browser; what the browser then holds is a prefix of what was produced, and after an
  undisturbed session it is the whole answer. The producer is the deadline's, so a session never
  writes the cache twice.
*/
module Journey {
  import opened Prelude
  import opened Events
  import opened Stream
  import opened Reducer
  import Sse
  import Deadline
  import RouteEvents
  import Convergence
  import Transports

  type Message = Sse.Message<Route, Payload>
  type Client = Sse.Client<Route, Payload>

  /** A frame of the session as the printer sees it: an error frame is an event like any other. */
  function OnTheWire(f: Frame): Sse.Frame<Route, Payload> {
    match f
    case Keepalive => Sse.Keepalive
    case Data(event) => Sse.Data(Transports.AsMessage(event))
    case Failure(kind) => Sse.Data(Sse.ErrorFrame(kind))
  }

  function AllOnTheWire(frames: seq<Frame>): seq<Sse.Frame<Route, Payload>>
    decreases |frames|
  {
    if frames == [] then [] else AllOnTheWire(Init(frames)) + [OnTheWire(Last(frames))]
  }

  function AsMessages(events: seq<Event>): seq<Message>
    decreases |events|
  {
    if events == [] then [] else AsMessages(Init(events)) + [Transports.AsMessage(Last(events))]
  }

  /** The terminal error frame of a session, if it has one. */
  function Farewell(frames: seq<Frame>): seq<Message> {
    if frames != [] && Last(frames).Failure? then [Sse.ErrorFrame(Last(frames).kind)] else []
  }

  // ---------------------------------------------------------------------------------------------
  // What the browser gets to see
  // ---------------------------------------------------------------------------------------------

  function MessageOf(f: Sse.Frame<Route, Payload>): seq<Message> {
    if f.Data? then [f.message] else []
  }

  lemma {:induction false} MessagesSnoc(fs: seq<Sse.Frame<Route, Payload>>, f: Sse.Frame<Route, Payload>)
    ensures Sse.Messages(fs + [f]) == Sse.Messages(fs) + MessageOf(f)
    decreases |fs|
  {
    if fs == [] {
      assert (fs + [f])[1..] == [];
    } else {
      var rest := fs[1..];
      assert (fs + [f])[1..] == rest + [f];
      MessagesSnoc(rest, f);
      Associate(MessageOf(fs[0]), Sse.Messages(rest), MessageOf(f));
    }
  }

  lemma Associate<T>(a: seq<T>, b: seq<T>, c: seq<T>)
    ensures a + (b + c) == a + b + c
  {
  }

  /** Keepalives erased, the wire carries what was sent and then the farewell. */
  lemma {:induction false} MessagesOfFrames(frames: seq<Frame>)
    requires forall i | 0 <= i < |frames| - 1 :: !frames[i].Failure?
    ensures Sse.Messages(AllOnTheWire(frames)) == AsMessages(Sent(frames)) + Farewell(frames)
    decreases |frames|
  {
    if frames != [] {
      var before, f := Init(frames), Last(frames);
      MessagesOfFrames(before);
      MessagesSnoc(AllOnTheWire(before), OnTheWire(f));
      assert Farewell(before) == [];
      if f.Data? { assert Init(Sent(before) + [f.event]) == Sent(before); }
    }
  }

  lemma NoEarlyFarewell(acts: seq<Action>)
    ensures forall i | 0 <= i < |Run(acts).frames| - 1 :: !Run(acts).frames[i].Failure?
    ensures Sent(Run(acts).frames) <= Run(acts).produced
  {
    RunsAreSound(acts);
  }

  /**
    Any run of the session, printed and cut into any chunks: the browser ends exactly as if handed
    some first events of the producer in order, and then at most one error.
  */
  method Receive(
    enc: Message -> string, dec: Sse.Decoder<Route, Payload>, ghost acts: seq<Action>, chunks: seq<string>)
    returns (c: Client)
    requires Sse.Faithful(enc, dec)
    requires Sse.Concat(chunks) == Sse.PrintAll(enc, AllOnTheWire(Run(acts).frames))
    ensures Sent(Run(acts).frames) <= Run(acts).produced
    ensures c == Sse.DeliverAll(Sse.Fresh(), AsMessages(Sent(Run(acts).frames)) + Farewell(Run(acts).frames))
  {
    NoEarlyFarewell(acts);
    MessagesOfFrames(Run(acts).frames);
    Sse.PrintedFramesParse(enc, dec, Sse.Fresh(), AllOnTheWire(Run(acts).frames));
    c := Sse.ReadStream(dec, chunks);
  }

  // ---------------------------------------------------------------------------------------------
  // The whole answer
  // ---------------------------------------------------------------------------------------------

  function RoutesOf(events: seq<Event>): seq<Route>
    decreases |events|
  {
    if events == [] then []
    else RoutesOf(Init(events)) + (if Last(events).RouteEvent? then [Last(events).route] else [])
  }

  function PercentsOf(events: seq<Event>): seq<int>
    decreases |events|
  {
    if events == [] then []
    else PercentsOf(Init(events)) + (if Last(events).Progress? then [Last(events).pct] else [])
  }

  /** The reducer folded over the routes the reader handed on. */
  function ScreenOf(shown: seq<Route>, objectives: seq<string>, routes: seq<Route>): seq<Route>
    decreases |routes|
  {
    if routes == [] then shown else ReduceRoute(ScreenOf(shown, objectives, Init(routes)), objectives, Last(routes))
  }

  lemma ScreenOfOneMore(shown: seq<Route>, objectives: seq<string>, routes: seq<Route>, r: Route)
    ensures ScreenOf(shown, objectives, routes + [r]) == ReduceRoute(ScreenOf(shown, objectives, routes), objectives, r)
  {
    assert Init(routes + [r]) == routes;
  }

  lemma {:induction false} ScreenOfRoutes(shown: seq<Route>, objectives: seq<string>, events: seq<Event>)
    ensures ScreenOf(shown, objectives, RoutesOf(events)) == Screen(shown, objectives, events)
    decreases |events|
  {
    if events != [] {
      var before := Init(events);
      ScreenOfRoutes(shown, objectives, before);
      if Last(events).RouteEvent? {
        ScreenOfOneMore(shown, objectives, RoutesOf(before), Last(events).route);
      } else {
        assert RoutesOf(events) == RoutesOf(before);
      }
    }
  }

  ghost predicate NoErrors(events: seq<Event>) {
    forall e | e in events :: !e.ErrorEvent?
  }

  lemma {:induction false} DeliverEvents(events: seq<Event>)
    requires NoErrors(events)
    ensures var c := Sse.DeliverAll(Sse.Fresh(), AsMessages(events));
            c.failure.None? && c.delivered == RoutesOf(events) && c.progress == PercentsOf(events)
    ensures events != [] && Last(events).DoneEvent? ==>
              Sse.DeliverAll(Sse.Fresh(), AsMessages(events)).final == Some(Last(events).payload)
    decreases |events|
  {
    if events != [] {
      assert Last(events) in events;
      assert NoErrors(Init(events)) by { assert forall e | e in Init(events) :: e in events; }
      DeliverEvents(Init(events));
      Transports.DeliverSnoc(Sse.Fresh(), AsMessages(Init(events)), Transports.AsMessage(Last(events)));
    }
  }

  /** A finished response has no error in it and ends in its `done`. */
  lemma ResponseIsClean(objectives: seq<string>, w: RouteEvents.World, schema: set<string>)
    requires RouteEvents.ValidWorld(objectives, w, schema) && Convergence.Finishes(objectives, w)
    ensures var events := RouteEvents.Response(objectives, w).events;
            events != [] && NoErrors(events) && CompleteDone(Last(events))
  {
    var events := RouteEvents.Response(objectives, w).events;
    Convergence.ResponseEmits(objectives, w, schema);
    forall e | e in events ensures !e.ErrorEvent? {
      var i :| 0 <= i < |events| && events[i] == e;
      assert i < |events| - 1 ==> Init(events)[i] == e;
    }
  }

  /** A producer that makes a whole response and stops, in less time than the deadline allows. */
  ghost predicate InTime(script: seq<Deadline.Turn>, ending: Deadline.Ending, budget: real, events: seq<Event>) {
    && Deadline.Physical(script, ending) && Deadline.Outputs(script) == events
    && ending.error.None? && Deadline.Total(script) + ending.cost < budget
  }

  /**
    Producer to screen: an undisturbed session over the deadline over a response that is made in time,
    through any number of keepalives and any chunks, however slow the consumer. It leaves the reader
    with the payload and no failure, the reducer (over the routes handed on and any earlier screen)
    with the payload's routes in the requested order, and the answer written.
  */
  method WholeAnswer(
    enc: Message -> string, dec: Sse.Decoder<Route, Payload>, ghost acts: seq<Action>, chunks: seq<string>,
    objectives: seq<string>, ghost w: RouteEvents.World, ghost schema: set<string>, ghost shown: seq<Route>,
    ghost script: seq<Deadline.Turn>, ghost ending: Deadline.Ending, ghost budget: real, ghost tie: bool)
    returns (c: Client)
    requires Sse.Faithful(enc, dec)
    requires Sse.Concat(chunks) == Sse.PrintAll(enc, AllOnTheWire(Run(acts).frames))
    requires RouteEvents.ValidWorld(objectives, w, schema) && Convergence.Finishes(objectives, w) && AllFit(shown, schema)
    requires InTime(script, ending, budget, RouteEvents.Response(objectives, w).events)
    requires (forall a | a in acts :: Undisturbed(a)) && Run(acts).pc.Ended?
    requires Run(acts).produced == Deadline.Bounded(script, ending, budget, tie).events
    ensures c.failure.None? && c.final.Some? && c.final.value.routes == Convergence.Answer(objectives, w)
    ensures Ids(c.final.value.routes) == objectives
    ensures ScreenOf(shown, objectives, c.delivered) == c.final.value.routes
    ensures c.progress == PercentsOf(RouteEvents.Response(objectives, w).events)
    ensures !Unwritten(Run(acts))
  {
    ghost var events := Run(acts).produced;
    Deadline.OnlyProducerTimeCounts(script, ending, budget, tie);
    c := Receive(enc, dec, acts, chunks);
    KeepalivesCostNothing(acts);
    RunsAreSound(acts);
    assert Farewell(Run(acts).frames) == [];
    assert AsMessages(events) + [] == AsMessages(events);
    ResponseIsClean(objectives, w, schema);
    DeliverEvents(events);
    ScreenOfRoutes(shown, objectives, events);
    Convergence.StreamConverges(objectives, w, schema, shown);
    Convergence.AnswerIsRequested(objectives, w, schema);
    UndisturbedWritesAnswers(acts);
  }

  // ---------------------------------------------------------------------------------------------
  // One write for one answer
  // ---------------------------------------------------------------------------------------------

  /** A session over the deadline's producer is offered at most one complete answer. */
  lemma DeadlineOffersOne(
    produced: seq<Event>, script: seq<Deadline.Turn>, ending: Deadline.Ending, budget: real, tie: bool)
    requires Deadline.DoneLast(script) && produced <= Deadline.Bounded(script, ending, budget, tie).events
    ensures OneComplete(produced)
  {
    forall i, j | 0 <= i < j < |produced| ensures !(CompleteDone(produced[i]) && CompleteDone(produced[j])) {
      Deadline.OneCompleteDone(script, ending, budget, tie, i, j);
    }
  }

  /**
    The cache, end to end: a session over the deadline over a response, in any run that is not
    cancelled and however long each pull takes, writes at most once, and then the complete answer of
    the `done` frame just sent.
  */
  lemma OneWritePerAnswer(
    acts: seq<Action>, objectives: seq<string>, w: RouteEvents.World, schema: set<string>,
    script: seq<Deadline.Turn>, ending: Deadline.Ending, budget: real, tie: bool)
    requires RouteEvents.ValidWorld(objectives, w, schema)
    requires Deadline.Outputs(script) == RouteEvents.Response(objectives, w).events
    requires Run(acts).produced <= Deadline.Bounded(script, ending, budget, tie).events
    requires !Run(acts).pc.Rescuing? && Run(acts).exit != Some(Cancelled)
    ensures |Run(acts).writes| <= 1
    ensures forall x | x in Run(acts).writes :: !x.rescue && GoodWrite(Run(acts).frames, x)
  {
    Convergence.ResponseEndsInDone(objectives, w, schema, script);
    DeadlineOffersOne(Run(acts).produced, script, ending, budget, tie);
    OneWriteForOneAnswer(acts);
    UncancelledCaching(acts);
  }
}
