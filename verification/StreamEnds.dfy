/**
  How a session comes to an end, told from what the world did: what it says last, whether the
  cancellation branch stores an answer, and which. Nothing here reads the fields `finished` and
  `cached` that the branches themselves go by.
*/
module StreamEnds {
  import opened Prelude
  import opened Events
  import opened Stream

  // ---------------------------------------------------------------------------------------------
  // The rescue write
  // ---------------------------------------------------------------------------------------------

  /** The cache write of a complete answer succeeds. */
  predicate Stores(s: State, a: Action) {
    a == WriteEnds(true) && s.pc.Writing?
  }

  /** The loop takes a `done` out of the pull it waited for. */
  predicate Takes(s: State, a: Action) {
    a.Wake? && s.pc.Waiting? && s.pending.Settled? && s.pending.outcome.Yielded? && s.pending.outcome.event.DoneEvent?
  }

  /** The last `done` taken. */
  function Taken(acts: seq<Action>): (e: Option<Event>)
    ensures e.Some? ==> e.value.DoneEvent?
    decreases |acts|
  {
    if acts == [] then None
    else if Takes(Run(Init(acts)), Last(acts)) then Some(Run(Init(acts)).pending.outcome.event)
    else Taken(Init(acts))
  }

  /** What the session holds is what happened to it. */
  ghost predicate Remembers(s: State, taken: Option<Event>, stored: bool) {
    && (s.cached <==> stored)
    && (taken.None? ==> s.finished.None?)
    && (taken.Some? ==> taken.value.DoneEvent? && s.finished == Some(taken.value.payload) && s.finishedPartial == taken.value.partial)
  }

  lemma RemembersStep(s: State, a: Action, taken: Option<Event>, stored: bool)
    requires Remembers(s, taken, stored)
    ensures Remembers(Step(s, a), if Takes(s, a) then Some(s.pending.outcome.event) else taken, stored || Stores(s, a))
  {
  }

  lemma {:induction false} RunsRemember(acts: seq<Action>)
    ensures Remembers(Run(acts), Taken(acts), Ever(acts, Stores))
    decreases |acts|
  {
    if acts != [] {
      RunsRemember(Init(acts));
      RemembersStep(Run(Init(acts)), Last(acts), Taken(Init(acts)), Ever(Init(acts), Stores));
      EverSnoc(acts, Stores);
    }
  }

  predicate HasRescue(writes: seq<Write>) {
    exists i :: 0 <= i < |writes| && writes[i].rescue
  }

  lemma HasRescueAppend(writes: seq<Write>, more: seq<Write>)
    requires |more| <= 1
    ensures HasRescue(writes + more) <==> HasRescue(writes) || (more != [] && more[0].rescue)
  {
    if more != [] { assert (writes + more)[|writes|] == more[0]; }
    if HasRescue(writes) {
      var i :| 0 <= i < |writes| && writes[i].rescue;
      assert (writes + more)[i].rescue;
    }
  }

  /** CancelledError is raised after these actions, with a `done` taken and no answer stored. */
  ghost predicate Unsaved(acts: seq<Action>, a: Action) {
    RaisesCancelled(Run(acts), a) && Taken(acts).Some? && !Ever(acts, Stores)
  }

  /** That happens after `k` actions of the run. */
  ghost predicate UnsavedAt(acts: seq<Action>, k: nat) {
    k < |acts| && Unsaved(acts[..k], acts[k])
  }

  lemma RescueOf(s: State, a: Action, taken: Option<Event>, stored: bool)
    requires Remembers(s, taken, stored)
    ensures RaisesCancelled(s, a) && taken.Some? && !stored ==>
              WriteOf(s, a) == [Write(taken.value.payload, taken.value.partial, true, |s.frames|)]
    ensures WriteOf(s, a) != [] && WriteOf(s, a)[0].rescue ==> RaisesCancelled(s, a) && taken.Some? && !stored
  {
  }

  lemma RescueLeads(s: State, a: Action)
    ensures WriteOf(s, a) != [] && WriteOf(s, a)[0].rescue ==> Step(s, a).pc.Rescuing?
  {
  }

  /** The branch writes the last `done` taken. */
  lemma UnsavedIsSaved(acts: seq<Action>, a: Action)
    requires Unsaved(acts, a)
    ensures Step(Run(acts), a).pc.Rescuing?
    ensures Step(Run(acts), a).writes
         == Run(acts).writes + [Write(Taken(acts).value.payload, Taken(acts).value.partial, true, |Run(acts).frames|)]
  {
    RunsRemember(acts);
    WriteStep(Run(acts), a);
    RescueOf(Run(acts), a, Taken(acts), Ever(acts, Stores));
    RescueLeads(Run(acts), a);
  }

  lemma RescueStep(acts: seq<Action>, a: Action)
    ensures HasRescue(Step(Run(acts), a).writes) <==> HasRescue(Run(acts).writes) || Unsaved(acts, a)
  {
    RunsRemember(acts);
    WriteStep(Run(acts), a);
    RescueOf(Run(acts), a, Taken(acts), Ever(acts, Stores));
    HasRescueAppend(Run(acts).writes, WriteOf(Run(acts), a));
  }

  lemma UnsavedSnoc(acts: seq<Action>)
    requires acts != []
    ensures (exists k: nat :: UnsavedAt(acts, k)) <==> (exists k: nat :: UnsavedAt(Init(acts), k)) || Unsaved(Init(acts), Last(acts))
  {
    var before := Init(acts);
    assert acts[..|before|] == before;
    assert UnsavedAt(acts, |before|) <==> Unsaved(before, Last(acts));
    forall k: nat | k < |before| ensures UnsavedAt(acts, k) <==> UnsavedAt(before, k) {
      assert acts[..k] == before[..k];
    }
    if k: nat :| UnsavedAt(before, k) { assert UnsavedAt(acts, k); }
    if k: nat :| UnsavedAt(acts, k) { assert k < |before| ==> UnsavedAt(before, k); }
  }

  /** The cancellation branch writes in exactly the runs that are cancelled with a `done` taken and no answer stored. */
  lemma {:induction false} RescueIff(acts: seq<Action>)
    ensures HasRescue(Run(acts).writes) <==> exists k: nat :: UnsavedAt(acts, k)
    decreases |acts|
  {
    if acts == [] {
      assert Run(acts).writes == [];
    } else {
      RescueIff(Init(acts));
      RescueStep(Init(acts), Last(acts));
      UnsavedSnoc(acts);
    }
  }

  /** Being raised stops the loop: nothing but the rescue is written from there on. */
  predicate Leaving(pc: Pc) {
    InFinally(pc) || pc.Rescuing? || (pc.Sending? && pc.next.ToFinally?)
  }

  lemma LeavingStep(s: State, a: Action)
    requires Leaving(s.pc)
    ensures Leaving(Step(s, a).pc) && Step(s, a).frames == s.frames && Step(s, a).writes == s.writes
  {
  }

  /** A session on its way out sends nothing and writes nothing more. */
  lemma {:induction false} LeavingIsQuiet(acts: seq<Action>, k: nat)
    requires k <= |acts| && Leaving(Run(acts[..k]).pc)
    ensures Leaving(Run(acts).pc)
    ensures Run(acts).frames == Run(acts[..k]).frames && Run(acts).writes == Run(acts[..k]).writes
    decreases |acts|
  {
    if k == |acts| {
      assert acts[..k] == acts;
    } else {
      assert Init(acts)[..k] == acts[..k];
      LeavingIsQuiet(Init(acts), k);
      LeavingStep(Run(Init(acts)), Last(acts));
    }
  }

  /** And then there is exactly that one write, of the last `done` taken, and no other after it. */
  lemma RescueIsTheLastAnswer(acts: seq<Action>, k: nat)
    requires UnsavedAt(acts, k)
    ensures var s, taken := Run(acts[..k]), Taken(acts[..k]).value;
            Run(acts).writes == s.writes + [Write(taken.payload, taken.partial, true, |s.frames|)]
    ensures !HasRescue(Run(acts[..k]).writes)
  {
    var s := Run(acts[..k]);
    UnsavedIsSaved(acts[..k], acts[k]);
    assert Init(acts[..k + 1]) == acts[..k];
    LeavingIsQuiet(acts, k + 1);
    RunsAreSound(acts[..k]);
    NoRescueYet(s);
  }

  lemma NoRescueYet(s: State)
    requires Sound(s) && (s.pc.Waiting? || s.pc.Writing?)
    ensures !HasRescue(s.writes)
  {
  }

  lemma EarlierCounts(acts: seq<Action>, k: nat, j: nat, what: Moment)
    requires k < j <= |acts| && At(acts, k, what)
    ensures Ever(acts[..j], what)
  {
    assert acts[..j][..k] == acts[..k];
    assert At(acts[..j], k, what);
  }

  lemma UnsavedLeaves(acts: seq<Action>, j: nat, k: nat)
    requires j < k <= |acts| && UnsavedAt(acts, j)
    ensures Leaving(Run(acts[..k]).pc)
  {
    UnsavedIsSaved(acts[..j], acts[j]);
    assert Init(acts[..j + 1]) == acts[..j] && acts[..k][..j + 1] == acts[..j + 1];
    LeavingIsQuiet(acts[..k], j + 1);
  }

  /** Once an answer has been stored the cancellation branch writes nothing, whatever is taken after it. */
  lemma StoredIsNeverRescued(acts: seq<Action>, k: nat)
    requires At(acts, k, Stores)
    ensures !HasRescue(Run(acts).writes)
  {
    RescueIff(acts);
    forall j: nat ensures !UnsavedAt(acts, j) {
      if k < j < |acts| {
        EarlierCounts(acts, k, j, Stores);
      } else if j < k && UnsavedAt(acts, j) {
        UnsavedLeaves(acts, j, k);
      }
    }
  }

  /** A partial answer is stored exactly when the last `done` taken was one and nothing had been stored. */
  lemma PartialIsStoredIff(acts: seq<Action>)
    ensures HasPartialWrite(Run(acts)) <==> exists k: nat :: UnsavedAt(acts, k) && Taken(acts[..k]).value.partial
  {
    PartialWriteIffCancelledAtRisk(acts);
    forall k: nat | k < |acts|
      ensures At(acts, k, PartialAtRisk) <==> UnsavedAt(acts, k) && Taken(acts[..k]).value.partial
    {
      RunsRemember(acts[..k]);
    }
    if k: nat :| At(acts, k, PartialAtRisk) { assert UnsavedAt(acts, k); }
    if k: nat :| UnsavedAt(acts, k) && Taken(acts[..k]).value.partial { assert At(acts, k, PartialAtRisk); }
  }

  // ---------------------------------------------------------------------------------------------
  // The way out
  // ---------------------------------------------------------------------------------------------

  datatype Cause = ShutsDown | PullFails(kind: string) | PullBreaks | Unprintable | Stops | Raised | Closed

  /** What makes the session leave. */
  function CauseOf(s: State, a: Action): Option<Cause> {
    match a
    case Proceed(shuttingDown) => if s.pc.Top? && shuttingDown then Some(ShutsDown) else None
    case Wake(prints) =>
      if !(s.pc.Waiting? && s.pending.Settled?) then None
      else (match s.pending.outcome
            case Yielded(_) => if prints then None else Some(Unprintable)
            case Exhausted => Some(Stops)
            case RoutingError(kind) => Some(PullFails(kind))
            case OtherError => Some(PullBreaks)
            case Aborted => Some(Raised))
    case Disconnect => if s.pc.Sending? then Some(Closed) else None
    case Cancel => if s.pc.Waiting? || s.pc.Writing? then Some(Raised) else None
    case _ => None
  }

  /** The first of them. */
  function FirstCause(acts: seq<Action>): Option<Cause>
    decreases |acts|
  {
    if acts == [] then None
    else if FirstCause(Init(acts)).Some? then FirstCause(Init(acts))
    else CauseOf(Run(Init(acts)), Last(acts))
  }

  /** What the browser is told of it. */
  function Said(cause: Option<Cause>): Option<string> {
    match cause
    case Some(ShutsDown) => Some("shutting_down")
    case Some(PullFails(kind)) => Some(kind)
    case Some(PullBreaks) => Some("internal")
    case Some(Unprintable) => Some("internal")
    case _ => None
  }

  function Farewell(frames: seq<Frame>): Option<string> {
    if frames != [] && Last(frames).Failure? then Some(Last(frames).kind) else None
  }

  lemma CauseLeads(s: State, a: Action)
    requires !Leaving(s.pc)
    ensures Leaving(Step(s, a).pc) <==> CauseOf(s, a).Some?
  {
  }

  lemma CauseSpeaks(s: State, a: Action)
    requires !Leaving(s.pc)
    ensures CauseOf(s, a).None? ==> FrameOf(s, a) == [] || !FrameOf(s, a)[0].Failure?
    ensures CauseOf(s, a).Some? ==>
              FrameOf(s, a) == match Said(CauseOf(s, a)) case None => [] case Some(kind) => [Failure(kind)]
  {
  }

  lemma CauseStep(s: State, a: Action)
    requires !Leaving(s.pc) && Farewell(s.frames) == None
    ensures Leaving(Step(s, a).pc) <==> CauseOf(s, a).Some?
    ensures Farewell(Step(s, a).frames) == Said(CauseOf(s, a))
  {
    CauseLeads(s, a);
    CauseSpeaks(s, a);
    FramesGrow(s, a);
    FarewellOf(s.frames, FrameOf(s, a));
  }

  lemma FarewellOf(frames: seq<Frame>, more: seq<Frame>)
    requires |more| <= 1
    ensures Farewell(frames + more) == if more == [] then Farewell(frames) else Farewell(more)
  {
    if more == [] { assert frames + more == frames; }
  }

  /**
    A session leaves the loop exactly when the server shuts down, the producer fails, breaks or stops,
    an event cannot be printed, it is cancelled or closed; and its last frame says which of the first
    kinds it was, in the producer's own words where it has some.
  */
  lemma {:induction false} SessionLeavesIff(acts: seq<Action>)
    ensures Leaving(Run(acts).pc) <==> FirstCause(acts).Some?
    ensures Farewell(Run(acts).frames) == Said(FirstCause(acts))
    decreases |acts|
  {
    if acts != [] {
      SessionLeavesIff(Init(acts));
      if FirstCause(Init(acts)).Some? {
        LeavingStep(Run(Init(acts)), Last(acts));
      } else {
        CauseStep(Run(Init(acts)), Last(acts));
      }
    }
  }

  // ---------------------------------------------------------------------------------------------
  // Cancellation
  // ---------------------------------------------------------------------------------------------

  /** Cancellation is heeded at every await but the one for the cancelled pull, and nowhere else. */
  lemma CancelIsHeededIff(s: State)
    ensures Step(s, Cancel) != s <==> s.pc.Waiting? || s.pc.Writing? || s.pc.Rescuing? || s.pc.Closing?
  {
  }

  /** It takes a loop that waits or writes to its end, past at most one last write, which a second one cuts short. */
  lemma TwoCancelsEnd(s: State)
    requires s.pc.Waiting? || s.pc.Writing?
    ensures Leaving(Step(s, Cancel).pc)
    ensures InFinally(Step(Step(s, Cancel), Cancel).pc)
  {
  }
}
