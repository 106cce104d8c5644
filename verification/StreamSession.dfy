/**
  `_stream` in its own form: local variables that each resumption updates in place. Every method is
  one stretch of the coroutine between two suspension points, and refines `Stream.Step`.
*/
module StreamSession {
  import opened Prelude
  import opened Events
  import opened Stream

  class Session {
    var pc: Pc
    var pending: Pull
    var finished: Option<Payload>
    var cached: bool
    var openStreams: int

    ghost var finishedPartial: bool
    ghost var running: nat
    ghost var produced: seq<Event>
    ghost var frames: seq<Frame>
    ghost var writes: seq<Write>
    ghost var midPullCloses: nat
    ghost var exit: Option<Exit>
    ghost var past: seq<Action>

    ghost function View(): State
      reads this
    {
      State(pc, pending, finished, finishedPartial, cached, openStreams, running, produced, frames,
            writes, midPullCloses, exit)
    }

    /** The session is where its own history of actions puts the step machine. */
    ghost predicate Valid()
      reads this
    {
      View() == Run(past)
    }

    constructor ()
      ensures Valid() && Kept() && past == []
    {
      pc, pending, finished, cached, openStreams := Top, NoPull, None, false, 1;
      finishedPartial, running, midPullCloses, exit := false, 0, 0, None;
      produced, frames, writes, past := [], [], [], [];
    }

    /** What a holder of the session may rely on between any two of its methods. */
    ghost predicate Kept()
      reads this
    {
      && Sent(frames) <= produced
      && running <= 1 && midPullCloses == 0
      && openStreams == (if InFinally(pc) then 0 else 1)
      && (forall i | 0 <= i < |frames| - 1 :: !frames[i].Failure?)
      && (forall w | w in writes && !w.rescue :: GoodWrite(frames, w))
    }

    ghost method Record(a: Action)
      requires View() == Step(Run(past), a)
      modifies this`past
      ensures Valid() && Kept() && past == old(past) + [a]
    {
      assert Init(past + [a]) == past;
      past := past + [a];
      RunsAreSound(past);
      GoodWrites(frames, writes);
    }

    method Yield(f: Frame, next: Resume)
      modifies this`pc, this`frames
      ensures View() == Send(old(View()), f, next)
    {
      frames := frames + [f];
      pc := Sending(next);
    }

    method EnterFinally(how: Exit)
      modifies this`pc, this`openStreams, this`exit
      ensures View() == Finally(old(View()), how)
    {
      openStreams := openStreams - 1;
      exit := Some(how);
      pc := Draining;
    }

    method PutRoute(payload: Payload, rescue: bool)
      modifies this`pc, this`writes
      ensures View() == StartWrite(old(View()), payload, rescue)
    {
      writes := writes + [Write(payload, finishedPartial, rescue, |frames|)];
      pc := if rescue then Rescuing else Writing;
    }

    /** From the loop head to the wait. */
    method LoopHead(shuttingDown: bool)
      requires Valid() && pc.Top?
      modifies this
      ensures Valid() && Kept() && past == old(past) + [Proceed(shuttingDown)]
    {
      if shuttingDown {
        Yield(Failure("shutting_down"), ToFinally(ShutDown));
      } else {
        if pending.NoPull? {
          pending := InFlight;
          running := running + 1;
        }
        pc := Waiting;
      }
      Record(Proceed(shuttingDown));
    }

    /** asyncio.wait came back with nothing done: the pull stays in flight behind a comment frame. */
    method KeepAlive()
      requires Valid() && pc.Waiting? && pending.InFlight?
      modifies this
      ensures Valid() && Kept() && past == old(past) + [Timeout]
    {
      Yield(Keepalive, ToTop);
      Record(Timeout);
    }

    /** The event loop ends the pull, with whatever the producer had to say. */
    method PullEnds(outcome: Outcome)
      requires Valid() && pending.InFlight?
      modifies this
      ensures Valid() && Kept() && past == old(past) + [Settle(outcome)]
    {
      RunsAreSound(past);
      pending := Settled(outcome);
      running := running - 1;
      if outcome.Yielded? { produced := produced + [outcome.event]; }
      Record(Settle(outcome));
    }

    /** asyncio.wait came back with the pull: take its result, forward it or leave. */
    method TakeResult(prints: bool)
      requires Valid() && pc.Waiting? && pending.Settled?
      modifies this
      ensures Valid() && Kept() && past == old(past) + [Wake(prints)]
    {
      var outcome := pending.outcome;
      pending := NoPull;
      match outcome {
        case Exhausted => EnterFinally(RanOut);
        case RoutingError(kind) => Yield(Failure(kind), ToFinally(Failed));
        case OtherError => Yield(Failure("internal"), ToFinally(Failed));
        case Aborted => ExceptCancelled();
        case Yielded(event) =>
          if event.DoneEvent? {
            finished := Some(event.payload);
            finishedPartial := event.partial;
          }
          if prints {
            Yield(Data(event), if CompleteDone(event) then ToWrite else ToTop);
          } else {
            Yield(Failure("internal"), ToFinally(Failed));
          }
      }
      Record(Wake(prints));
    }

    /** The `except CancelledError` branch. */
    method ExceptCancelled()
      modifies this`pc, this`writes, this`openStreams, this`exit
      ensures View() == OnCancel(old(View()))
    {
      if finished.Some? && !cached {
        PutRoute(finished.value, true);
      } else {
        EnterFinally(Cancelled);
      }
    }

    /** Resumed after a yield. */
    method Resumed()
      requires Valid() && pc.Sending?
      modifies this
      ensures Valid() && Kept() && past == old(past) + [Accept]
    {
      match pc.next {
        case ToTop => pc := Top;
        case ToWrite => if finished.Some? { PutRoute(finished.value, false); }
        case ToFinally(how) => EnterFinally(how);
      }
      Record(Accept);
    }

    /** put_route returned or raised; only the loop's own write sets `cached`. */
    method PutRouteEnded(ok: bool)
      requires Valid() && (pc.Writing? || pc.Rescuing?)
      modifies this
      ensures Valid() && Kept() && past == old(past) + [WriteEnds(ok)]
    {
      if pc.Writing? {
        cached := cached || ok;
        pc := Top;
      } else {
        EnterFinally(Cancelled);
      }
      Record(WriteEnds(ok));
    }

    /** CancelledError at an await. */
    method CancelHere()
      requires Valid() && !pc.Sending? && !pc.Top? && !pc.Ended?
      modifies this
      ensures Valid() && Kept() && past == old(past) + [Cancel]
    {
      match pc {
        case Waiting => ExceptCancelled();
        case Writing => ExceptCancelled();
        case Rescuing => EnterFinally(Cancelled);
        case Closing => pc := Ended;
        case _ =>
      }
      Record(Cancel);
    }

    /** The consumer closed the generator at a yield. */
    method Closed()
      requires Valid() && pc.Sending?
      modifies this
      ensures Valid() && Kept() && past == old(past) + [Disconnect]
    {
      EnterFinally(Dropped);
      Record(Disconnect);
    }

    /** In `finally`, once the await of the cancelled pull has seen it end: aclose() starts. */
    method StartClosing()
      requires Valid() && pc.Draining? && !pending.InFlight?
      modifies this
      ensures Valid() && Kept() && past == old(past) + [Drained]
      ensures running == 0 && openStreams == 0 && midPullCloses == 0
    {
      midPullCloses := midPullCloses + running;
      pending := NoPull;
      pc := Closing;
      Record(Drained);
      RunsAreSound(past);
    }

    method GeneratorClosed()
      requires Valid() && pc.Closing?
      modifies this
      ensures Valid() && Kept() && past == old(past) + [GeneratorCloses]
      ensures running == 0
    {
      pc := Ended;
      Record(GeneratorCloses);
      RunsAreSound(past);
    }
  }
}
