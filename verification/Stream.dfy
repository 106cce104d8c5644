/**
  The streaming transport as a step machine. A session forwards the events a producer yields, under
  every interleaving of keepalive timeouts, shutdown, disconnection, cancellation and cache failure.

  `Step` gives the machine, `Run` every run of it, and `Sound` is what each run keeps. The fields
  `produced`, `frames`, `writes`, `running` and `exit` are history: the code does not read them.
*/
module Stream {
  import opened Prelude
  import opened Events

  datatype Frame = Keepalive | Data(event: Event) | Failure(kind: string)

  /** How a pull ends. `Aborted` is a CancelledError of its own, or the one it was sent. */
  datatype Outcome = Yielded(event: Event) | Exhausted | RoutingError(kind: string) | OtherError | Aborted

  /** The `pending` handle: none, a task still running, or a task that has its result. */
  datatype Pull = NoPull | InFlight | Settled(outcome: Outcome)

  datatype Pc =
    | Top                     // about to test the shutdown flag
    | Waiting                 // in asyncio.wait on the pull
    | Sending(next: Resume)   // suspended at a yield
    | Writing                 // awaiting put_route after a complete answer
    | Rescuing                // awaiting put_route in the cancellation branch
    | Draining                // in finally: the pull has been cancelled and is awaited
    | Closing                 // in finally: aclose() is running
    | Ended

  datatype Resume = ToTop | ToWrite | ToFinally(exit: Exit)

  datatype Exit = RanOut | ShutDown | Failed | Cancelled | Dropped

  /** One put_route attempt: what, whether partial, from which branch, and after how many frames. */
  datatype Write = Write(payload: Payload, partial: bool, rescue: bool, after: nat)

  datatype State = State(
    pc: Pc, pending: Pull, finished: Option<Payload>, finishedPartial: bool, cached: bool, open: int,
    running: nat, produced: seq<Event>, frames: seq<Frame>, writes: seq<Write>,
    midPullCloses: nat, exit: Option<Exit>)

  /** What the world may do between two steps of the session. */
  datatype Action =
    | Proceed(shuttingDown: bool) // the loop head reads the flag
    | Settle(outcome: Outcome)    // the producer finishes the pull it was asked for
    | Timeout                     // KEEPALIVE_S passes first
    | Wake(prints: bool)          // asyncio.wait sees a finished pull; its event can be printed or not
    | Accept                      // the consumer asks for the next frame
    | Disconnect                  // the consumer closes the suspended generator
    | Cancel                      // the task is cancelled at an await
    | WriteEnds(ok: bool)         // put_route returns or raises
    | Drained                     // the await in finally sees that the pull has ended
    | GeneratorCloses             // aclose() returns

  function Start(): State {
    State(Top, NoPull, None, false, false, 1, 0, [], [], [], 0, None)
  }

  function Send(s: State, f: Frame, next: Resume): State {
    s.(pc := Sending(next), frames := s.frames + [f])
  }

  /** Entering `finally`: the stream stops counting as open before the pull is cancelled. */
  function Finally(s: State, exit: Exit): State {
    s.(pc := Draining, open := s.open - 1, exit := Some(exit))
  }

  function StartWrite(s: State, payload: Payload, rescue: bool): State {
    s.(pc := if rescue then Rescuing else Writing,
       writes := s.writes + [Write(payload, s.finishedPartial, rescue, |s.frames|)])
  }

  /** `finished` is set before the event is printed, and printing may raise. */
  function Consume(s: State, o: Outcome, prints: bool): State {
    var s := s.(pending := NoPull);
    match o
    case Exhausted => Finally(s, RanOut)
    case RoutingError(kind) => Send(s, Failure(kind), ToFinally(Failed))
    case OtherError => Send(s, Failure("internal"), ToFinally(Failed))
    case Aborted => OnCancel(s)
    case Yielded(event) =>
      var t := if event.DoneEvent? then s.(finished := Some(event.payload), finishedPartial := event.partial) else s;
      if !prints then Send(t, Failure("internal"), ToFinally(Failed))
      else Send(t, Data(event), if CompleteDone(event) then ToWrite else ToTop)
  }

  /** The `except CancelledError` branch: it tests `finished` and `cached`, and nothing else. */
  function OnCancel(s: State): State {
    if s.finished.Some? && !s.cached then StartWrite(s, s.finished.value, true) else Finally(s, Cancelled)
  }

  /** An action that is not possible in a state leaves it as it is. */
  function Step(s: State, a: Action): State {
    match a
    case Proceed(shuttingDown) =>
      if !s.pc.Top? then s
      else if shuttingDown then Send(s, Failure("shutting_down"), ToFinally(ShutDown))
      else if s.pending.NoPull? then s.(pc := Waiting, pending := InFlight, running := s.running + 1)
      else s.(pc := Waiting)
    case Settle(o) =>
      if !s.pending.InFlight? || s.running == 0 then s
      else s.(pending := Settled(o), running := s.running - 1,
              produced := if o.Yielded? then s.produced + [o.event] else s.produced)
    case Timeout =>
      if s.pc.Waiting? && s.pending.InFlight? then Send(s, Keepalive, ToTop) else s
    case Wake(prints) =>
      if s.pc.Waiting? && s.pending.Settled? then Consume(s, s.pending.outcome, prints) else s
    case Accept =>
      if !s.pc.Sending? then s
      else (match s.pc.next
            case ToTop => s.(pc := Top)
            case ToWrite => if s.finished.Some? then StartWrite(s, s.finished.value, false) else s
            case ToFinally(exit) => Finally(s, exit))
    case Disconnect => if s.pc.Sending? then Finally(s, Dropped) else s
    case Cancel =>
      if s.pc.Waiting? || s.pc.Writing? then OnCancel(s)
      else if s.pc.Rescuing? then Finally(s, Cancelled)
      // Cancelling the wait for the pull cancels the pull once more and waits on; the rest is suppressed.
      else if s.pc.Closing? then s.(pc := Ended)
      else s
    case WriteEnds(ok) =>
      if s.pc.Writing? then s.(pc := Top, cached := s.cached || ok)
      else if s.pc.Rescuing? then Finally(s, Cancelled)
      else s
    case Drained =>
      if s.pc.Draining? && !s.pending.InFlight? then
        s.(pc := Closing, pending := NoPull, midPullCloses := s.midPullCloses + s.running)
      else s
    case GeneratorCloses => if s.pc.Closing? then s.(pc := Ended) else s
  }

  function Run(acts: seq<Action>): State
    decreases |acts|
  {
    if acts == [] then Start() else Step(Run(Init(acts)), Last(acts))
  }

  // ---------------------------------------------------------------------------------------------
  // What every run keeps
  // ---------------------------------------------------------------------------------------------

  /** The data frames, keepalives and the terminal error erased. */
  function Sent(frames: seq<Frame>): (events: seq<Event>)
    decreases |frames|
  {
    if frames == [] then []
    else if Last(frames).Data? then Sent(Init(frames)) + [Last(frames).event]
    else Sent(Init(frames))
  }

  predicate InFinally(pc: Pc) {
    pc.Draining? || pc.Closing? || pc.Ended?
  }

  predicate Terminal(pc: Pc) {
    InFinally(pc) || (pc.Sending? && pc.next.ToFinally?)
  }

  predicate HoldsEvent(s: State) {
    s.pending.Settled? && s.pending.outcome.Yielded?
  }

  /** In-order and duplicate-free: nothing is skipped, repeated, reordered or sent unproduced. */
  predicate ForwardsFaithfully(s: State) {
    && (Terminal(s.pc) || s.pc.Rescuing? ==> Sent(s.frames) <= s.produced)
    && (!Terminal(s.pc) && !s.pc.Rescuing? && HoldsEvent(s) ==>
          s.produced == Sent(s.frames) + [s.pending.outcome.event])
    && (!Terminal(s.pc) && !s.pc.Rescuing? && !HoldsEvent(s) ==> s.produced == Sent(s.frames))
    && (s.exit == Some(RanOut) ==> s.produced == Sent(s.frames))
  }

  /** One pull at a time, and aclose() only when none is running. */
  predicate PullsSafely(s: State) {
    && s.running == (if s.pending.InFlight? then 1 else 0)
    && s.midPullCloses == 0
    && (s.pc.Closing? || s.pc.Ended? ==> s.pending.NoPull?)
    && (s.pc.Waiting? ==> !s.pending.NoPull?)
    && (s.exit == Some(RanOut) ==> s.pending.NoPull?)
    && (s.pc.Writing? || s.pc == Sending(ToWrite) ==> s.pending.NoPull?)
  }

  predicate EndsOnce(s: State) {
    && s.open == (if InFinally(s.pc) then 0 else 1)
    && (s.exit.Some? <==> InFinally(s.pc))
    && (s.exit == Some(Cancelled) || s.pc.Rescuing? ==> !s.pc.Sending?)
    && (forall i | 0 <= i < |s.frames| - 1 :: !s.frames[i].Failure?)
    && (s.frames != [] && Last(s.frames).Failure? ==> Terminal(s.pc))
    && (s.exit == Some(RanOut) ==> s.frames == [] || !Last(s.frames).Failure?)
    && s.pc != Sending(ToFinally(RanOut))
  }

  /** A write outside the cancellation branch: complete, and right after its own `done` frame. */
  predicate GoodWrite(frames: seq<Frame>, w: Write) {
    && !w.partial
    && 0 < w.after <= |frames|
    && frames[w.after - 1] == Data(DoneEvent(w.payload, false))
  }

  /** From the loop one write for a `done` frame, in order; then at most one from the cancellation branch. */
  predicate LoopWrites(frames: seq<Frame>, writes: seq<Write>) {
    AllGood(frames, writes) && InOrder(writes)
  }

  predicate AllGood(frames: seq<Frame>, writes: seq<Write>) {
    forall i | 0 <= i < |writes| && !writes[i].rescue :: GoodWrite(frames, writes[i])
  }

  predicate InOrder(writes: seq<Write>) {
    forall i, j | 0 <= i < j < |writes| :: !writes[i].rescue && (!writes[j].rescue ==> writes[i].after < writes[j].after)
  }

  predicate WritesWell(s: State) {
    && LoopWrites(s.frames, s.writes)
    && (s.writes != [] && Last(s.writes).rescue ==> s.pc.Rescuing? || s.exit == Some(Cancelled))
    && (s.pc == Sending(ToWrite) ==>
          && s.finished.Some? && !s.finishedPartial && s.frames != []
          && Last(s.frames) == Data(DoneEvent(s.finished.value, false))
          && (s.writes != [] ==> Last(s.writes).after < |s.frames|))
  }

  predicate Sound(s: State) {
    ForwardsFaithfully(s) && PullsSafely(s) && EndsOnce(s) && WritesWell(s)
  }

  lemma SentSnoc(frames: seq<Frame>, f: Frame)
    ensures Sent(frames + [f]) == if f.Data? then Sent(frames) + [f.event] else Sent(frames)
  {
    assert Init(frames + [f]) == frames;
  }

  lemma StepKeepsSound(s: State, a: Action)
    requires Sound(s)
    ensures Sound(Step(s, a))
  {
    match a {
      case Proceed(shuttingDown) =>
        if s.pc.Top? && shuttingDown { SendKeepsSound(s, Failure("shutting_down"), ToFinally(ShutDown)); }
      case Settle(_) => SettleKeepsSound(s, a);
      case Timeout =>
        if s.pc.Waiting? && s.pending.InFlight? { SendKeepsSound(s, Keepalive, ToTop); }
      case Wake(prints) =>
        if s.pc.Waiting? && s.pending.Settled? { ConsumeKeepsSound(s, prints); }
      case Accept => AcceptKeepsSound(s);
      case Cancel => CancelKeepsSound(s);
      case Disconnect =>
        if s.pc.Sending? { FinallyKeepsSound(s, Dropped); }
      case WriteEnds(_) =>
        if s.pc.Rescuing? { FinallyKeepsSound(s, Cancelled); }
      case Drained =>
      case GeneratorCloses =>
    }
  }

  lemma SettleKeepsSound(s: State, a: Action)
    requires Sound(s) && a.Settle?
    ensures Sound(Step(s, a))
  {
    assert s.produced <= Step(s, a).produced;
  }

  lemma MoreFramesKeepWrites(frames: seq<Frame>, f: Frame, writes: seq<Write>)
    requires LoopWrites(frames, writes)
    ensures LoopWrites(frames + [f], writes)
  {
    forall i | 0 <= i < |writes| && !writes[i].rescue ensures GoodWrite(frames + [f], writes[i]) {
      assert GoodWrite(frames, writes[i]);
    }
  }

  /** A keepalive, or the one error frame that ends the stream. */
  lemma SendKeepsSound(s: State, f: Frame, next: Resume)
    requires Sound(s) && (s.pc.Waiting? || s.pc.Top?)
    requires (f.Keepalive? && next.ToTop?) || (f.Failure? && next.ToFinally? && !next.exit.RanOut? && !next.exit.Cancelled?)
    requires HoldsEvent(s) ==> f.Failure?
    ensures Sound(Send(s, f, next))
  {
    SentSnoc(s.frames, f);
    MoreFramesKeepWrites(s.frames, f, s.writes);
    var t := Send(s, f, next);
    assert EndsOnce(t) && ForwardsFaithfully(t) && PullsSafely(t);
  }

  lemma FinallyKeepsSound(s: State, exit: Exit)
    requires Sound(s) && !InFinally(s.pc) && exit != RanOut
    requires exit == Cancelled <==> s.pc.Rescuing? || s.pc.Waiting? || s.pc.Writing?
    ensures Sound(Finally(s, exit))
  {
  }

  lemma OnCancelKeepsSound(s: State)
    requires Sound(s) && (s.pc.Waiting? || s.pc.Writing?)
    ensures Sound(OnCancel(s))
  {
    if s.finished.Some? && !s.cached {
      WriteMoreKeeps(s.frames, s.writes, Write(s.finished.value, s.finishedPartial, true, |s.frames|));
    } else {
      FinallyKeepsSound(s, Cancelled);
    }
  }

  lemma WriteMoreKeeps(frames: seq<Frame>, writes: seq<Write>, w: Write)
    requires LoopWrites(frames, writes) && (writes != [] ==> !Last(writes).rescue)
    requires !w.rescue ==> GoodWrite(frames, w) && (writes != [] ==> Last(writes).after < w.after)
    ensures LoopWrites(frames, writes + [w])
  {
    assert writes != [] ==> forall i | 0 <= i < |writes| :: !writes[i].rescue && writes[i].after <= Last(writes).after;
  }

  lemma CancelKeepsSound(s: State)
    requires Sound(s)
    ensures Sound(Step(s, Cancel))
  {
    if s.pc.Rescuing? {
      FinallyKeepsSound(s, Cancelled);
    } else if s.pc.Waiting? || s.pc.Writing? {
      OnCancelKeepsSound(s);
    }
  }

  lemma AcceptKeepsSound(s: State)
    requires Sound(s)
    ensures Sound(Step(s, Accept))
  {
    if s.pc == Sending(ToWrite) {
      WriteMoreKeeps(s.frames, s.writes, Write(s.finished.value, s.finishedPartial, false, |s.frames|));
    } else if s.pc.Sending? && s.pc.next.ToFinally? {
      assert Sound(Finally(s, s.pc.next.exit));
    }
  }

  lemma ConsumeKeepsSound(s: State, prints: bool)
    requires Sound(s) && s.pc.Waiting? && s.pending.Settled?
    ensures Sound(Consume(s, s.pending.outcome, prints))
  {
    var o := s.pending.outcome;
    if o.Yielded? {
      EventFrameKeepsSound(s, o.event, prints);
    } else if o.Aborted? {
      AbortedKeepsSound(s);
    } else {
      var t := s.(pc := Top, pending := NoPull);
      assert Sound(t);
      match o {
        case RoutingError(kind) => SendKeepsSound(t, Failure(kind), ToFinally(Failed));
        case OtherError => SendKeepsSound(t, Failure("internal"), ToFinally(Failed));
        case Exhausted =>
      }
    }
  }

  lemma AbortedKeepsSound(s: State)
    requires Sound(s) && s.pc.Waiting? && s.pending == Settled(Aborted)
    ensures Sound(Consume(s, Aborted, true)) && Consume(s, Aborted, false) == Consume(s, Aborted, true)
  {
    if s.finished.Some? && !s.cached {
      WriteMoreKeeps(s.frames, s.writes, Write(s.finished.value, s.finishedPartial, true, |s.frames|));
    }
  }

  /** The three parts that do not speak of what is written, for a frame that carries or replaces an event. */
  lemma EventFrameKeepsForwarding(s: State, e: Event, prints: bool)
    requires Sound(s) && s.pc.Waiting? && s.pending == Settled(Yielded(e))
    ensures ForwardsFaithfully(Consume(s, Yielded(e), prints))
  {
    SentSnoc(s.frames, if prints then Data(e) else Failure("internal"));
  }

  lemma EventFrameKeepsPulls(s: State, e: Event, prints: bool)
    requires Sound(s) && s.pc.Waiting? && s.pending == Settled(Yielded(e))
    ensures PullsSafely(Consume(s, Yielded(e), prints))
  {
  }

  lemma EventFrameKeepsEnd(s: State, e: Event, prints: bool)
    requires Sound(s) && s.pc.Waiting? && s.pending == Settled(Yielded(e))
    ensures EndsOnce(Consume(s, Yielded(e), prints))
  {
  }

  lemma EventFrameKeepsWrites(s: State, e: Event, prints: bool)
    requires Sound(s) && s.pc.Waiting? && s.pending == Settled(Yielded(e))
    ensures WritesWell(Consume(s, Yielded(e), prints))
  {
    MoreFramesKeepWrites(s.frames, if prints then Data(e) else Failure("internal"), s.writes);
    assert s.writes != [] ==> GoodWrite(s.frames, Last(s.writes));
  }

  lemma EventFrameKeepsSound(s: State, e: Event, prints: bool)
    requires Sound(s) && s.pc.Waiting? && s.pending == Settled(Yielded(e))
    ensures Sound(Consume(s, Yielded(e), prints))
  {
    EventFrameKeepsForwarding(s, e, prints);
    EventFrameKeepsPulls(s, e, prints);
    EventFrameKeepsEnd(s, e, prints);
    EventFrameKeepsWrites(s, e, prints);
  }

  /** Safety over whole runs. */
  lemma {:induction false} RunsAreSound(acts: seq<Action>)
    ensures Sound(Run(acts))
    decreases |acts|
  {
    if acts != [] {
      RunsAreSound(Init(acts));
      StepKeepsSound(Run(Init(acts)), Last(acts));
    }
  }

  /** Frames sent are an in-order, duplicate-free prefix of the events produced, and all of them when the producer ran out. */
  lemma SentIsPrefixOfProduced(acts: seq<Action>)
    ensures Sent(Run(acts).frames) <= Run(acts).produced
    ensures Run(acts).exit == Some(RanOut) ==> Sent(Run(acts).frames) == Run(acts).produced
  {
    RunsAreSound(acts);
  }

  /** At most one terminal error frame, and nothing after it. */
  lemma ErrorFrameIsLast(acts: seq<Action>, i: nat)
    requires i < |Run(acts).frames| && Run(acts).frames[i].Failure?
    ensures i == |Run(acts).frames| - 1 && Terminal(Run(acts).pc)
    ensures Run(acts).exit != Some(RanOut)
  {
    RunsAreSound(acts);
  }

  /** One pull at a time, no aclose() across a running pull, one decrement of the open count. */
  lemma PullsAndCountsAreSafe(acts: seq<Action>)
    ensures Run(acts).running <= 1 && Run(acts).midPullCloses == 0
    ensures Run(acts).open == if InFinally(Run(acts).pc) then 0 else 1
    ensures Run(acts).pc.Closing? || Run(acts).pc.Ended? ==> Run(acts).running == 0
  {
    RunsAreSound(acts);
  }

  /**
    Off the cancellation branch, whatever the producer yields: writes only of complete answers, each
    right after its own `done` frame, no frame written twice.
  */
  lemma UncancelledCaching(acts: seq<Action>)
    requires !Run(acts).pc.Rescuing? && Run(acts).exit != Some(Cancelled)
    ensures forall w | w in Run(acts).writes :: !w.rescue && GoodWrite(Run(acts).frames, w)
    ensures LoopWrites(Run(acts).frames, Run(acts).writes)
  {
    RunsAreSound(acts);
    LoopWritesAreGood(Run(acts).frames, Run(acts).writes);
  }

  lemma GoodWrites(frames: seq<Frame>, writes: seq<Write>)
    requires LoopWrites(frames, writes)
    ensures forall w | w in writes && !w.rescue :: GoodWrite(frames, w)
  {
  }

  lemma LoopWritesAreGood(frames: seq<Frame>, writes: seq<Write>)
    requires LoopWrites(frames, writes) && (writes != [] ==> !Last(writes).rescue)
    ensures forall w | w in writes :: !w.rescue && GoodWrite(frames, w)
  {
    forall i | 0 <= i < |writes| ensures !writes[i].rescue && GoodWrite(frames, writes[i]) {
      assert i < |writes| - 1 ==> !writes[i].rescue;
    }
  }

  predicate OneComplete(events: seq<Event>) {
    forall i, j | 0 <= i < j < |events| :: !(CompleteDone(events[i]) && CompleteDone(events[j]))
  }

  /** Data frames keep their places in what was sent. */
  lemma {:induction false} SentPlace(frames: seq<Frame>, k: nat)
    requires k < |frames| && frames[k].Data?
    ensures |Sent(frames[..k])| < |Sent(frames)| && Sent(frames)[|Sent(frames[..k])|] == frames[k].event
    decreases |frames|
  {
    var before := Init(frames);
    assert frames == before + [Last(frames)];
    if k < |before| {
      assert before[..k] == frames[..k];
      SentPlace(before, k);
    } else {
      assert frames[..k] == before;
    }
  }

  /** And what was sent before a later frame includes an earlier one. */
  lemma SentGrows(frames: seq<Frame>, i: nat, k: nat)
    requires i < k <= |frames| && frames[i].Data?
    ensures |Sent(frames[..i])| < |Sent(frames[..k])|
  {
    assert frames[..k][..i] == frames[..i];
    SentPlace(frames[..k], i);
  }

  lemma TwoWritesTwoAnswers(frames: seq<Frame>, produced: seq<Event>, v: Write, w: Write)
    requires GoodWrite(frames, v) && GoodWrite(frames, w) && v.after < w.after && Sent(frames) <= produced
    ensures !OneComplete(produced)
  {
    var i, k := v.after - 1, w.after - 1;
    SentPlace(frames, i);
    SentPlace(frames, k);
    SentGrows(frames, i, k);
    assert CompleteDone(produced[|Sent(frames[..i])|]) && CompleteDone(produced[|Sent(frames[..k])|]);
  }

  /** With one complete answer at most, there is one write at most. */
  lemma OneWriteForOneAnswer(acts: seq<Action>)
    requires OneComplete(Run(acts).produced)
    requires !Run(acts).pc.Rescuing? && Run(acts).exit != Some(Cancelled)
    ensures |Run(acts).writes| <= 1
  {
    var s := Run(acts);
    UncancelledCaching(acts);
    SentIsPrefixOfProduced(acts);
    if |s.writes| > 1 {
      assert s.writes[0] in s.writes && s.writes[1] in s.writes;
      TwoWritesTwoAnswers(s.frames, s.produced, s.writes[0], s.writes[1]);
    }
  }

  // ---------------------------------------------------------------------------------------------
  // Which answers are written
  // ---------------------------------------------------------------------------------------------

  predicate CompleteFrame(frames: seq<Frame>, k: nat) {
    k < |frames| && frames[k].Data? && CompleteDone(frames[k].event)
  }

  /** The loop has written the answer of this frame. */
  predicate Written(writes: seq<Write>, k: nat) {
    exists i :: 0 <= i < |writes| && !writes[i].rescue && writes[i].after == k + 1
  }

  /** A complete answer went out and the loop has not written it. */
  ghost predicate Unwritten(s: State) {
    exists k: nat :: CompleteFrame(s.frames, k) && !Written(s.writes, k)
  }

  /** The last frame carries a complete answer that the loop has not written. */
  ghost predicate LastUnwritten(s: State) {
    s.frames != [] && CompleteFrame(s.frames, |s.frames| - 1) && !Written(s.writes, |s.frames| - 1)
  }

  /** Earlier answers are written; the last one too, unless it is on its way or the session has ended. */
  ghost predicate WritesAnswers(s: State) {
    && (forall k: nat | k + 1 < |s.frames| && CompleteFrame(s.frames, k) :: Written(s.writes, k))
    && (LastUnwritten(s) ==> s.pc == Sending(ToWrite) || InFinally(s.pc))
    && (s.pc == Sending(ToWrite) ==> LastUnwritten(s))
  }

  lemma UnwrittenIsLast(s: State)
    requires WritesAnswers(s)
    ensures Unwritten(s) <==> LastUnwritten(s)
  {
    if k: nat :| CompleteFrame(s.frames, k) && !Written(s.writes, k) { assert k == |s.frames| - 1; }
  }

  lemma WrittenGrows(writes: seq<Write>, w: Write, k: nat)
    ensures Written(writes + [w], k) <==> Written(writes, k) || (!w.rescue && w.after == k + 1)
  {
    if Written(writes, k) {
      var i :| 0 <= i < |writes| && !writes[i].rescue && writes[i].after == k + 1;
      assert (writes + [w])[i] == writes[i];
    }
    assert (writes + [w])[|writes|] == w;
  }

  /** What a step sends: nothing, or one frame. */
  function FrameOf(s: State, a: Action): seq<Frame> {
    match a
    case Proceed(shuttingDown) => if s.pc.Top? && shuttingDown then [Failure("shutting_down")] else []
    case Timeout => if s.pc.Waiting? && s.pending.InFlight? then [Keepalive] else []
    case Wake(prints) => if s.pc.Waiting? && s.pending.Settled? then FrameFor(s.pending.outcome, prints) else []
    case _ => []
  }

  function FrameFor(o: Outcome, prints: bool): seq<Frame> {
    match o
    case Yielded(event) => [if prints then Data(event) else Failure("internal")]
    case RoutingError(kind) => [Failure(kind)]
    case OtherError => [Failure("internal")]
    case _ => []
  }

  lemma FramesGrow(s: State, a: Action)
    ensures Step(s, a).frames == s.frames + FrameOf(s, a)
  {
  }

  lemma FrameFrom(s: State, a: Action)
    ensures FrameOf(s, a) != [] ==> (s.pc.Top? || s.pc.Waiting?) && WriteOf(s, a) == []
    ensures FrameOf(s, a) == [] && Step(s, a).pc == Sending(ToWrite) ==> s.pc == Sending(ToWrite) && WriteOf(s, a) == []
  {
  }

  lemma FrameLeads(s: State, a: Action)
    ensures FrameOf(s, a) != [] ==> (Step(s, a).pc == Sending(ToWrite) <==> CompleteFrame(FrameOf(s, a), 0))
  {
  }

  lemma FrameStep(s: State, a: Action)
    ensures Step(s, a).frames == s.frames + FrameOf(s, a)
    ensures FrameOf(s, a) != [] ==> (s.pc.Top? || s.pc.Waiting?) && WriteOf(s, a) == []
    ensures FrameOf(s, a) != [] ==> (Step(s, a).pc == Sending(ToWrite) <==> CompleteFrame(FrameOf(s, a), 0))
    ensures FrameOf(s, a) == [] && Step(s, a).pc == Sending(ToWrite) ==> s.pc == Sending(ToWrite) && WriteOf(s, a) == []
  {
    FramesGrow(s, a);
    FrameFrom(s, a);
    FrameLeads(s, a);
  }

  /** Where a step leads that sends nothing: out of ToWrite only by a write or a close. */
  lemma QuietStep(s: State, a: Action)
    requires FrameOf(s, a) == []
    ensures s.pc == Sending(ToWrite) && Step(s, a).pc != Sending(ToWrite) && WriteOf(s, a) == [] ==> a.Disconnect? || s.finished.None?
    ensures s.pc == Sending(ToWrite) && a.Disconnect? ==> InFinally(Step(s, a).pc)
    ensures InFinally(s.pc) ==> InFinally(Step(s, a).pc) && WriteOf(s, a) == []
    ensures WriteOf(s, a) != [] && !WriteOf(s, a)[0].rescue ==> s.pc == Sending(ToWrite) && WriteOf(s, a)[0].after == |s.frames|
  {
  }

  lemma OneMoreFrame(s: State, f: Frame, t: State)
    requires Sound(s) && WritesAnswers(s) && (s.pc.Top? || s.pc.Waiting?)
    requires t.frames == s.frames + [f] && t.writes == s.writes
    requires t.pc == Sending(ToWrite) <==> CompleteFrame([f], 0)
    ensures WritesAnswers(t)
  {
    var n := |s.frames|;
    forall k: nat | k < n && CompleteFrame(t.frames, k) ensures Written(t.writes, k) {
      assert CompleteFrame(s.frames, k);
    }
    forall i | 0 <= i < |t.writes| && !t.writes[i].rescue ensures t.writes[i].after != n + 1 {
      assert GoodWrite(s.frames, s.writes[i]);
    }
    assert t.frames[n] == f;
  }

  lemma NothingNew(s: State, t: State)
    requires WritesAnswers(s) && t.frames == s.frames && t.writes == s.writes
    requires t.pc == Sending(ToWrite) ==> s.pc == Sending(ToWrite)
    requires s.pc == Sending(ToWrite) || InFinally(s.pc) ==> t.pc == Sending(ToWrite) || InFinally(t.pc)
    ensures WritesAnswers(t) && (LastUnwritten(t) <==> LastUnwritten(s))
  {
  }

  lemma OneMoreWrite(s: State, w: Write, t: State)
    requires WritesAnswers(s) && t.frames == s.frames && t.writes == s.writes + [w] && t.pc != Sending(ToWrite)
    requires if w.rescue then s.pc != Sending(ToWrite) && !InFinally(s.pc) else w.after == |s.frames|
    ensures WritesAnswers(t) && !LastUnwritten(t)
    ensures w.rescue ==> !LastUnwritten(s)
  {
    forall k: nat ensures Written(t.writes, k) <==> Written(s.writes, k) || (!w.rescue && w.after == k + 1) {
      WrittenGrows(s.writes, w, k);
    }
  }

  /** A write of the cancellation branch does not come from a yield or from `finally`. */
  lemma WriteFrom(s: State, a: Action)
    requires FrameOf(s, a) == [] && WriteOf(s, a) != []
    ensures Step(s, a).pc != Sending(ToWrite)
    ensures WriteOf(s, a)[0].rescue ==> s.pc != Sending(ToWrite) && !InFinally(s.pc)
    ensures !WriteOf(s, a)[0].rescue ==> WriteOf(s, a)[0].after == |s.frames|
  {
  }

  lemma QuietLeads(s: State, a: Action)
    requires WritesAnswers(s) && Sound(s) && FrameOf(s, a) == [] && WriteOf(s, a) == []
    ensures s.pc == Sending(ToWrite) || InFinally(s.pc) ==> Step(s, a).pc == Sending(ToWrite) || InFinally(Step(s, a).pc)
  {
    QuietStep(s, a);
  }

  lemma NoFrameStep(s: State, a: Action)
    requires Sound(s) && WritesAnswers(s) && FrameOf(s, a) == []
    ensures WritesAnswers(Step(s, a))
    ensures LastUnwritten(Step(s, a)) <==> LastUnwritten(s) && (WriteOf(s, a) == [] || WriteOf(s, a)[0].rescue)
  {
    FrameStep(s, a);
    WriteStep(s, a);
    if WriteOf(s, a) == [] {
      QuietLeads(s, a);
      NothingNew(s, Step(s, a));
    } else {
      WriteFrom(s, a);
      OneMoreWrite(s, WriteOf(s, a)[0], Step(s, a));
    }
  }

  lemma StepWritesAnswers(s: State, a: Action)
    requires Sound(s) && WritesAnswers(s)
    ensures WritesAnswers(Step(s, a))
  {
    if FrameOf(s, a) == [] {
      NoFrameStep(s, a);
    } else {
      FrameStep(s, a);
      WriteStep(s, a);
      OneMoreFrame(s, FrameOf(s, a)[0], Step(s, a));
    }
  }

  lemma {:induction false} RunsWriteAnswers(acts: seq<Action>)
    ensures WritesAnswers(Run(acts))
    decreases |acts|
  {
    if acts != [] {
      RunsWriteAnswers(Init(acts));
      RunsAreSound(Init(acts));
      StepWritesAnswers(Run(Init(acts)), Last(acts));
    }
  }

  /** Every complete answer that went out is written, unless it is still on its way or the consumer left. */
  lemma SentAnswersAreWritten(acts: seq<Action>, k: nat)
    requires CompleteFrame(Run(acts).frames, k)
    requires k + 1 < |Run(acts).frames| || (Run(acts).pc != Sending(ToWrite) && !InFinally(Run(acts).pc))
    ensures Written(Run(acts).writes, k)
  {
    RunsWriteAnswers(acts);
  }

  /** Something the world may do in some state. */
  type Moment = (State, Action) -> bool

  predicate At(acts: seq<Action>, k: nat, what: Moment) {
    k < |acts| && what(Run(acts[..k]), acts[k])
  }

  /** It happened in the course of the run. */
  ghost predicate Ever(acts: seq<Action>, what: Moment) {
    exists k: nat :: At(acts, k, what)
  }

  lemma AtBefore(acts: seq<Action>, k: nat, what: Moment)
    requires k + 1 < |acts|
    ensures At(acts, k, what) <==> At(Init(acts), k, what)
  {
    assert Init(acts)[..k] == acts[..k];
  }

  lemma EverSnoc(acts: seq<Action>, what: Moment)
    requires acts != []
    ensures Ever(acts, what) <==> Ever(Init(acts), what) || what(Run(Init(acts)), Last(acts))
  {
    var before := Init(acts);
    assert acts[..|before|] == before;
    assert At(acts, |before|, what) <==> what(Run(before), Last(acts));
    if Ever(before, what) {
      var k: nat :| At(before, k, what);
      AtBefore(acts, k, what);
    }
    if Ever(acts, what) {
      var k: nat :| At(acts, k, what);
      if k < |before| { AtBefore(acts, k, what); }
    }
  }

  /** The consumer closes the session while the `done` frame of a complete answer is going out. */
  predicate Leaves(s: State, a: Action) {
    a.Disconnect? && s.pc == Sending(ToWrite)
  }

  ghost predicate EverLeft(acts: seq<Action>) {
    Ever(acts, Leaves)
  }

  /**
    Exactly when a complete answer goes out and is not written: while its frame is going out, and for
    good only if the consumer closes the session just then.
  */
  lemma {:induction false} AnswerLostIff(acts: seq<Action>)
    ensures Unwritten(Run(acts)) <==> Run(acts).pc == Sending(ToWrite) || EverLeft(acts)
    ensures EverLeft(acts) ==> InFinally(Run(acts).pc)
    decreases |acts|
  {
    RunsWriteAnswers(acts);
    UnwrittenIsLast(Run(acts));
    if acts != [] {
      var s, a := Run(Init(acts)), Last(acts);
      AnswerLostIff(Init(acts));
      RunsAreSound(Init(acts));
      RunsWriteAnswers(Init(acts));
      UnwrittenIsLast(s);
      EverSnoc(acts, Leaves);
      LostStep(s, a, EverLeft(Init(acts)));
    }
  }

  lemma LostStep(s: State, a: Action, left: bool)
    requires Sound(s) && WritesAnswers(s) && (left ==> InFinally(s.pc))
    requires LastUnwritten(s) <==> s.pc == Sending(ToWrite) || left
    ensures LastUnwritten(Step(s, a)) <==>
              Step(s, a).pc == Sending(ToWrite) || left || (a.Disconnect? && s.pc == Sending(ToWrite))
    ensures left || (a.Disconnect? && s.pc == Sending(ToWrite)) ==> InFinally(Step(s, a).pc)
  {
    FrameStep(s, a);
    StepWritesAnswers(s, a);
    if FrameOf(s, a) == [] {
      NoFrameStep(s, a);
      QuietStep(s, a);
    } else {
      assert !left;
    }
  }

  /** Left alone, a session that has ended has written every complete answer it sent. */
  lemma UndisturbedWritesAnswers(acts: seq<Action>)
    requires forall a | a in acts :: Undisturbed(a)
    requires Run(acts).pc.Ended?
    ensures !Unwritten(Run(acts))
  {
    AnswerLostIff(acts);
    forall k: nat ensures !At(acts, k, Leaves) {
      assert k < |acts| ==> acts[k] in acts;
    }
  }

  predicate HasPartialWrite(s: State) {
    exists i :: 0 <= i < |s.writes| && s.writes[i].partial
  }

  /** A partial answer is held and not cached when CancelledError is raised, at an await or by the pull. */
  predicate PartialAtRisk(s: State, a: Action) {
    RaisesCancelled(s, a) && s.finished.Some? && s.finishedPartial && !s.cached
  }

  predicate RaisesCancelled(s: State, a: Action) {
    || (a.Cancel? && (s.pc.Waiting? || s.pc.Writing?))
    || (a.Wake? && s.pc.Waiting? && s.pending == Settled(Aborted))
  }

  lemma HasPartialSnoc(writes: seq<Write>, w: Write, s: State, t: State)
    requires s.writes == writes && t.writes == writes + [w]
    ensures HasPartialWrite(t) <==> HasPartialWrite(s) || w.partial
  {
    assert t.writes[|writes|] == w;
    assert forall i | 0 <= i < |writes| :: t.writes[i] == s.writes[i];
    if HasPartialWrite(s) {
      var i :| 0 <= i < |s.writes| && s.writes[i].partial;
      assert t.writes[i].partial;
    }
  }

  /** What a step writes: nothing, or one answer. */
  function WriteOf(s: State, a: Action): seq<Write> {
    if RaisesCancelled(s, a) && s.finished.Some? && !s.cached then
      [Write(s.finished.value, s.finishedPartial, true, |s.frames|)]
    else if a.Accept? && s.pc == Sending(ToWrite) && s.finished.Some? then
      [Write(s.finished.value, s.finishedPartial, false, |s.frames|)]
    else []
  }

  lemma WriteStep(s: State, a: Action)
    ensures Step(s, a).writes == s.writes + WriteOf(s, a)
  {
  }

  /** A partial answer is written only by cancellation. */
  lemma PartialWrites(s: State, a: Action)
    requires Sound(s)
    ensures WriteOf(s, a) != [] && WriteOf(s, a)[0].partial <==> PartialAtRisk(s, a)
  {
  }

  lemma PartialWriteStep(s: State, a: Action)
    requires Sound(s)
    ensures HasPartialWrite(Step(s, a)) <==> HasPartialWrite(s) || PartialAtRisk(s, a)
  {
    WriteStep(s, a);
    PartialWrites(s, a);
    if WriteOf(s, a) != [] { HasPartialSnoc(s.writes, WriteOf(s, a)[0], s, Step(s, a)); }
  }

  /** Exactly when the cancellation branch stores a partial answer, over all runs. */
  lemma {:induction false} PartialWriteIffCancelledAtRisk(acts: seq<Action>)
    ensures HasPartialWrite(Run(acts)) <==> Ever(acts, PartialAtRisk)
    decreases |acts|
  {
    if acts != [] {
      PartialWriteIffCancelledAtRisk(Init(acts));
      RunsAreSound(Init(acts));
      PartialWriteStep(Run(Init(acts)), Last(acts));
      EverSnoc(acts, PartialAtRisk);
    }
  }

  /** A run on which the claim "a partial answer is never cached" fails. */
  lemma CancelledRunCachesPartial(cut: Payload) returns (acts: seq<Action>)
    ensures Run(acts).writes == [Write(cut, true, true, 1)]
    ensures forall i :: 0 <= i < |acts| - 1 ==> !acts[i].Cancel?
  {
    var done := DoneEvent(cut, true);
    var a1, a2, a3, a4, a5 := Proceed(false), Settle(Yielded(done)), Wake(true), Accept, Proceed(false);
    acts := [a1, a2, a3, a4, a5, Cancel];
    assert Init(acts) == [a1, a2, a3, a4, a5];
    assert Init([a1, a2, a3, a4, a5]) == [a1, a2, a3, a4];
    assert Init([a1, a2, a3, a4]) == [a1, a2, a3];
    assert Init([a1, a2, a3]) == [a1, a2];
    assert Init([a1, a2]) == [a1];
    assert Init([a1]) == [];
    assert Run([a1]) == Step(Start(), a1);
    assert Run([a1, a2]) == Step(Run([a1]), a2);
    assert Run([a1, a2, a3]) == Step(Run([a1, a2]), a3);
    assert Run([a1, a2, a3, a4]) == Step(Run([a1, a2, a3]), a4);
  }

  predicate Undisturbed(a: Action) {
    && a != Proceed(true) && a != Wake(false) && !a.Disconnect? && !a.Cancel?
    && (a.Settle? ==> a.outcome.Yielded? || a.outcome.Exhausted?)
  }

  predicate Calm(s: State) {
    && !(s.pc.Sending? && s.pc.next.ToFinally?) && !s.pc.Rescuing?
    && (s.pending.Settled? ==> s.pending.outcome.Yielded? || s.pending.outcome.Exhausted?)
    && (s.exit.Some? ==> s.exit == Some(RanOut))
  }

  lemma CalmStep(s: State, a: Action)
    requires Calm(s) && Undisturbed(a)
    ensures Calm(Step(s, a))
  {
  }

  lemma {:induction false} UndisturbedRunsAreCalm(acts: seq<Action>)
    requires forall a | a in acts :: Undisturbed(a)
    ensures Calm(Run(acts))
    decreases |acts|
  {
    if acts != [] {
      assert Last(acts) in acts;
      forall a | a in Init(acts) ensures Undisturbed(a) { assert a in acts; }
      UndisturbedRunsAreCalm(Init(acts));
      CalmStep(Run(Init(acts)), Last(acts));
    }
  }

  /** However many keepalives fire, a session left alone ends only when the producer does, with every event sent. */
  lemma KeepalivesCostNothing(acts: seq<Action>)
    requires forall a | a in acts :: Undisturbed(a)
    requires Run(acts).pc.Ended?
    ensures Run(acts).exit == Some(RanOut) && Sent(Run(acts).frames) == Run(acts).produced
  {
    UndisturbedRunsAreCalm(acts);
    RunsAreSound(acts);
  }

  /** No reachable state is stuck before the generator has closed. */
  lemma NeverStuck(acts: seq<Action>) returns (a: Action)
    requires !Run(acts).pc.Ended?
    ensures Step(Run(acts), a) != Run(acts)
  {
    RunsAreSound(acts);
    var s := Run(acts);
    a := match s.pc
      case Top => Proceed(false)
      case Waiting => if s.pending.Settled? then Wake(true) else Settle(Exhausted)
      case Sending(_) => Accept
      case Writing => WriteEnds(true)
      case Rescuing => WriteEnds(true)
      case Draining => if s.pending.InFlight? then Settle(Aborted) else Drained
      case _ => GeneratorCloses;
  }
}
