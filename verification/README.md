# Meander: a verification model

Meander plans walking and cycling routes. This project models its in-process algorithms and protocols in
Dafny and proves what they keep over every input and every run. `dafny verify dfyconfig.toml` checks it all.

- **The streamed answer, both ends.** `RouteEvents` produces a response as events and `ResponseContents`
  says what is in it, `Deadline` bounds the time spent producing them, `Stream` is the session as a step
  machine over timeouts, shutdown, cancellation and the cache write, `StreamEnds` tells how it ends and
  what it stores on the way out, and `StreamSession` is that session as an object whose methods follow it
  step by step. `Sse` prints frames and decodes them from arbitrary chunks (a subset of section 9.2 of
  the WHATWG HTML Living Standard), `Reducer` merges them on the screen, and `Convergence` and
  `Transports` connect the ends: the screen, the JSON answer and the events say the same. `Journey`
  composes them, from the producer through frames and chunks to the screen and the cache.
- **Accessibility.** `Accessibility` assesses a route and `VerdictFromTags` says what comes of it from the
  values as they are written; `Barriers` projects nodes onto the route and `BarrierVerdict` follows them
  into the verdict; `Elevation` relates the drawn profile to the gradient check and `InclineVerdict` takes
  that check into the verdict; `Sampling` and `TagScore` are the geometry under them, over the segment
  lengths of `Geometry`.
- **Controllers with state.** `RateLimit` and `LimiterDays` (token buckets, daily ceiling), `RouteCache` with `IsoTime` and
  `Text` (expiring tables compared as text), `LiveBudget` (daily allowance kept in a file), `PlaceLru`
  (the keystroke cache). Each is a class tied to its history, and the promises are proved over whole runs.
- **Choosing a route.** `Search`, `BudgetFit`, `ScenicChoice`, `ScenicNotes` and `PreferenceChoice`:
  what a card's note, or its absence, entitles a reader to conclude, whatever candidates there are.
- **Text.** `Base64` and `PhotoRef` (signed references, sections 3.2 and 5 of RFC 4648),
  `CoordinateScrub`, `Scrub`, `ScrubTwice` and `ScrubRules` (what may reach a log line).

Distances, times and scores are exact reals. Segment lengths are given and never negative. Routers, upstream
data, clocks, the JSON codec, the keyed digest and URL splitting are parameters.

## Where the code and its comments part

The model follows the code. Each of these is a theorem with its exact condition or a family of inputs.

- A partial answer can be cached: the cancellation branch of the stream asks only whether a `done` was seen
  and not stored (`StreamEnds.RescueIff`, `StreamEnds.PartialIsStoredIff`).
- A session can be answered twice: the deadline may fall after `done` was delivered
  (`Deadline.TerminalCount`). In that case, with no geometry delivered, the two transports disagree
  (`Transports.TransportsAgree`).
- A gate on a last vertex that is there twice goes unreported: ties go to the later segment, and spans of
  no length are skipped (`BarrierVerdict.InTheWayIff`, `BarrierVerdict.DoubledVertexIsSilent`).
- The sustained gradient is measured over 40 m, while its sentence says 50 m or more. The sentence can be
  false when it is said and true when it is not (`Elevation.SustainedSaidOfForty`,
  `Elevation.SustainedMissedIff`; `Elevation.SentenceIsTrueIff` says when it is true).
- Past 239 samples the drawn profile loses the last sample of a steep end, unless the steep part starts
  within the last drawn sample (`Elevation.LastSampleKeptIff`).
- Leaving out a whole list of spans can raise the coverage (`Accessibility.DroppingAListRaisesCoverageIff`,
  `Accessibility.DroppingSurfaceRaisesCoverageIff`).
- The wait named to a limited client can be too short below 0.01 a minute (`RateLimit.WaitAlwaysSufficesIff`).
- The scenic fallback does not always prefer a route that fits the cap (`ScenicChoice.OverCapNoteIff`), and
  its note can call a route no greener than the fastest one better, the shortest or longer than asked for
  (`ScenicNotes.OverCapSentenceIff`).
- "The most scenic route available" can be the less green of two, and "no route was more scenic" can be said
  beside a greener one (`ScenicNotes.MostScenicIff`, `ScenicNotes.NoGreenerIsTrueIff`).
- "Nothing closer was reachable" can be said when a closer loop was never asked for, and "the closest fit"
  of the farthest (`PreferenceChoice.ShorterIsTrueIff`, `PreferenceChoice.LongerIsTrueIff`).
- Scrubbing is not complete or idempotent as a whole: a coordinate written straight in front of a sensitive
  parameter hides the parameter's name from the first pass, and the second pass uncovers it
  (`ScrubTwice.ParameterLeftIff`, `ScrubTwice.StableIff`).
- The daily allowance can be granted again when the clock goes back and returns: exactly when a day that
  was counted on is come back to and found at zero. A restart on the untouched file does not do it
  (`LiveBudget.ExactIffNeverForgets`, `LiveBudget.RestartAfterGoingBackRemembers`).
- A complete answer that was sent can stay unwritten: when the consumer closes the session while its frame
  is going out (`Stream.AnswerLostIff`).
- `sample_every` promises the final point; with room for fewer than two samples it is cut off
  (`Sampling.EndIsKeptIff`).

## Model

| member | source | states |
|---|---|---|
| `Sse.SplitJoins` | frontend/src/api/client.js:228 | the pieces of a split joined by blank lines are the text again, and every cut is the leftmost one possible |
| `Sse.SplitUnique` | frontend/src/api/client.js:228 | those two conditions leave only one list of pieces, so they define the split |
| `Sse.SplitAppend` | frontend/src/api/client.js:227-229 | splitting a text that grew by a chunk is keeping all pieces but the last and splitting the last together with the chunk: the law the read loop lives on |
| `Sse.ReadStream` | frontend/src/api/client.js:177-231 | for every partition of the body into chunks the loop, its early stop and its tail flush end in the state one reading of the whole text ends in |
| `Sse.StoppedEarly` | frontend/src/api/client.js:199-202 | once the server has announced an error, nothing that arrives later in this chunk or any other changes the outcome |
| `Sse.LastPart` | frontend/src/api/client.js:223-225 | an undelimited last piece is parsed like a frame unless it is blank |
| `Sse.FieldIsFirst` | frontend/src/api/client.js:184-189 | a piece is parsed for the rest of its first line that begins with `data:`, and for nothing when it has none |
| `Sse.PrintedFramesParse` | backend/main.py:1461-1462 | a printed text of events with keepalive comments anywhere among them decodes to exactly those events, in order |
| `Sse.Transmit` | backend/main.py:1540-1543 | end to end: whatever chunks a printed session arrives in, the browser ends as if it had been handed the events one by one, keepalives erased |
| `Stream.StepKeepsSound` | backend/main.py:1506-1626 | every step keeps the session invariant, whatever the producer yields: cancellation at any await (in `finally` too), a close at any yield, an event that cannot be printed, a pull that is itself cancelled |
| `Stream.SentIsPrefixOfProduced` | backend/main.py:1545-1581 | in every run the data frames sent are an in-order, duplicate-free prefix of the events produced, and all of them when the producer ran out |
| `Stream.ErrorFrameIsLast` | backend/main.py:1596-1608 | at most one terminal error frame, and nothing after it |
| `Stream.PullsAndCountsAreSafe` | backend/main.py:1537-1549 | at most one pull in flight; `aclose` starts only when the session has seen the cancelled pull end; the open-stream count decremented exactly once |
| `Stream.UncancelledCaching` | backend/main.py:1551-1580 | off the cancellation branch, whatever the producer yields, only complete answers are written, each right after its own `done` frame, no frame twice |
| `Stream.OneWriteForOneAnswer` | backend/main.py:1551-1580 | so a producer with at most one complete answer is written at most once |
| `Stream.PartialWriteIffCancelledAtRisk` | backend/main.py:1583-1595 | a partial answer is stored exactly in the runs where CancelledError is raised while one is held and not cached: the branch asks only `finished` and `cached` |
| `Stream.CancelledRunCachesPartial` | backend/main.py:1586-1590 | a run that does it |
| `StreamEnds.RescueIff` | backend/main.py:1583-1595 | told from what happened, not from `finished` and `cached`: the cancellation branch writes in exactly the runs where CancelledError is raised after a `done` was taken and before any answer was stored |
| `StreamEnds.RescueIsTheLastAnswer` | backend/main.py:1586-1590 | and then exactly once, the last `done` taken, with nothing written after it |
| `StreamEnds.StoredIsNeverRescued` | backend/main.py:1571-1586 | once a loop write has succeeded the branch never writes, whatever is taken later |
| `StreamEnds.PartialIsStoredIff` | backend/main.py:1583-1595 | a partial answer is stored exactly when it was the last `done` taken and nothing had been stored |
| `StreamEnds.SessionLeavesIff` | backend/main.py:1506-1608 | a session leaves the loop exactly when the server shuts down, the producer fails, breaks or stops, an event cannot be printed, it is cancelled or closed; its last frame is an error exactly for four of these, and of the kind that belongs to it |
| `StreamEnds.LeavingIsQuiet` | backend/main.py:1583-1626 | from there on it sends nothing and writes nothing more |
| `StreamEnds.CancelIsHeededIff` | backend/main.py:1538-1626 | cancellation changes something exactly at the wait, at a cache write and at `aclose`; the await of the cancelled pull swallows it |
| `StreamEnds.TwoCancelsEnd` | backend/main.py:1583-1626 | a second cancellation cuts the rescue write short |
| `Stream.KeepalivesCostNothing` | backend/main.py:1539-1543 | a session left alone ends only when the producer does, every event sent, however many waits time out |
| `Stream.UndisturbedWritesAnswers` | backend/main.py:1539-1580 | a session left alone has, once ended, written every complete answer it sent |
| `Stream.SentAnswersAreWritten` | backend/main.py:1568-1580 | every complete `done` frame that anything followed, or that the session went on from, has its write |
| `Stream.AnswerLostIff` | backend/main.py:1551-1626 | a complete answer that went out is unwritten exactly while its frame is going out, or for good once the consumer closes the session just then |
| `Stream.NeverStuck` | backend/main.py:1506-1626 | from every reachable state short of the end some step changes something |
| `StreamSession.Session.LoopHead` | backend/main.py:1507-1539 | the loop head as object state: each method's new state is the machine's next state, so every run of the object is a run of the machine |
| `StreamSession.Session.TakeResult` | backend/main.py:1544-1568 | taking a finished pull: clear `pending`, remember a `done`, forward the event or leave |
| `StreamSession.Session.Resumed` | backend/main.py:1568-1580 | what follows a yield: the cache write after a complete `done`, else the loop head or `finally` |
| `StreamSession.Session.CancelHere` | backend/main.py:1583-1595 | cancellation at an await, with its rescue write; what that write is and when there is one is `StreamEnds.RescueIff` |
| `StreamSession.Session.PullEnds` | backend/main.py:1537-1545 | the event loop ends the pull in flight, in the loop or in `finally` |
| `StreamSession.Session.StartClosing` | backend/main.py:1622-1626 | once the awaited pull has ended `aclose` starts, with none running |
| `Journey.Receive` | backend/main.py:1506-1626 | any run of the session, printed and cut into any chunks, leaves the browser as if handed some first events of the producer in order and then at most one error |
| `Journey.WholeAnswer` | frontend/src/App.jsx:185-208 | producer to screen, deadline included: over a response whose producer time is below the budget an undisturbed session leaves the reader with the payload, the reducer over the routes handed on with its routes, one per requested objective in requested order, the percentages in order, and the cache with the answer written |
| `Journey.OneWritePerAnswer` | backend/main.py:1354-1580 | end to end: a session over the deadline over a response, not cancelled and however slow, writes the cache at most once, with the complete answer just sent |
| `Deadline.RunWithDeadline` | backend/main.py:1388-1449 | for every sequence of consumer delays the clock-driven loop gives the answer that depends on producer time alone |
| `Deadline.OnlyProducerTimeCounts` | backend/main.py:1371-1409 | below the budget in total producer time every event is delivered and nothing times out; above it the run times out; exactly at it, as the tie falls |
| `Deadline.TimeoutAddsOneEvent` | backend/main.py:1410-1447 | a timed-out run adds one event: a partial `done` with the latest of every delivered route that has geometry, or `error` exactly when none has |
| `Deadline.UsableKeepsOrder` | backend/main.py:1410-1420 | dropping the routes without geometry keeps the others as they stand |
| `Events.MergeKeepsArrivalOrder` | backend/main.py:1407-1408 | an id that has arrived keeps its place in the merge, so a timed-out answer is in order of first arrival |
| `Deadline.TerminalCount` | backend/main.py:1390-1447 | there is at most one terminal event, except exactly when the deadline falls after a delivered `done` |
| `Deadline.SlowStopAnswersTwice` | backend/main.py:1391-1406 | every producer that finishes below the budget and is slow to stop gets a second answer |
| `Deadline.OneCompleteDone` | backend/main.py:1427-1447 | never two complete `done` events, which is what `Journey.OneWritePerAnswer` relies on |
| `RouteEvents.Produce` | backend/main.py:1112-1345 | the loops of the two passes and the narration emit exactly the specified events and payload, or raise exactly when nothing was routed |
| `Ranking.SortKeeps` | backend/main.py:1309-1310 | sorting by position in the request gives an ascending list with the same members |
| `Ranking.SortedIsRequested` | backend/main.py:1309-1310 | sorted by rank, no id twice, every objective there and nothing else: the ids are the request |
| `Convergence.AnswerIsRequested` | backend/main.py:1112-1345 | the payload has one route per requested objective, in requested order, each the final one |
| `Convergence.AnswerIsLastWriter` | backend/main.py:1219-1306 | for each objective the last `route` event sent carries the payload's route |
| `Convergence.AnswerIsSortedMerge` | backend/main.py:1304-1310 | the payload has exactly the members of the merge by id of all `route` events |
| `Convergence.StreamConverges` | frontend/src/App.jsx:185-208 | folding the reducer over the stream's events, from any earlier screen, gives the payload's list, and no replay stamp survives |
| `Convergence.ResponseEndsInDone` | backend/main.py:1332-1345 | `done` is the last event of every response, as the deadline's theorem needs |
| `ResponseContents.AnswerIsEnriched` | backend/main.py:1256-1345 | in terms of what the upstreams answered: the payload has one route per objective in requested order, with every field of the enriched route, or of the refusal, and the narrator's text in `narration`; the reason is the one computed |
| `ResponseContents.FirstIsAsRouted` | backend/main.py:1219-1236 | the first event about an objective carries its fields as routed, enrichment pending, or its refusal |
| `ResponseContents.EventsPerObjective` | backend/main.py:1219-1306 | each objective has one event when refused, two when routed, and one more when narrated |
| `ResponseContents.FirstsAreInOrder` | backend/main.py:1121-1236 | routed objectives are first shown before refused ones, and of each kind the fastest first and the others as asked |
| `ResponseContents.RaisesIff` | backend/main.py:1145-1216 | a response raises exactly outside the coverage, when the fastest way breaks, or when nothing is routed |
| `ResponseContents.RoutingIsAnnouncedIff` | backend/main.py:1158-1195 | progress 15 is sent exactly when the fastest way is asked for, 35 exactly when others are and it did not break |
| `ResponseContents.ProgressClimbs` | backend/main.py:1063-1302 | the percentages only go up and stay between 5 and 100, in responses that raise too |
| `Events.MergeIsLastWriter` | backend/main.py:1407-1408 | merging route events by id is last-writer-wins: one route per id, the last sent |
| `Reducer.ReduceIsUpsert` | frontend/src/App.jsx:185-208 | one `route` action replaces that id by exactly what arrived, drops removed objectives and leaves the list in requested order |
| `Reducer.ScreenIsLastWriter` | frontend/src/App.jsx:97-112 | over any events the screen shows the last event of each id, and for other ids what was shown |
| `Transports.DrainJson` | backend/main.py:1681-1730 | the JSON drain replies with the last `done`, else the last error, or that it is shutting down as soon as a test sees it, and stores complete answers only |
| `Transports.LastOfItsKind` | backend/main.py:1684-1710 | what the drain remembers of `done` and of `error` is the last of its kind |
| `Transports.TransportsAgree` | backend/main.py:1684-1718 | the JSON reply and the streamed outcome agree unless the deadline falls after `done` with no geometry delivered, and then they differ |
| `Transports.RepliesAreEqualIff` | backend/main.py:1684-1730 | for a producer that ends in `done` or raises, the two replies are equal to the kind of error unless the deadline falls after `done` with no geometry delivered |
| `Transports.CleanDelivery` | frontend/src/api/client.js:198 | without an error event the browser ends holding the last `done` |
| `Barriers.FootIsClosest` | backend/enrich.py:711-719 | the clamped projection minimises the distance over its segment |
| `Barriers.OffAtIsDistance` | backend/enrich.py:717-719 | the quantity compared is the squared plane distance to the foot |
| `Barriers.CorridorIsDistance` | backend/enrich.py:728-753 | the corridor test accepts exactly the nodes within 10 m of some point of the line |
| `Barriers.VertexTestIsCovered` | backend/enrich.py:728-753 | whatever a nearest-vertex test with the same corridor would find is found |
| `Barriers.SortSet` | backend/enrich.py:764 | sorting a set: strictly ascending, the same members |
| `Barriers.BarrierSpans` | backend/enrich.py:666-764 | sorted, duplicate-free, and exactly the nodes with a value that are within 10 m: each span has the node's value and own rounded coordinates, starts at the last of the segments closest to it and lies as far along as the closest place of that segment |
| `Barriers.NearestIsClosest` | backend/enrich.py:728-753 | the place computed is the last closest one: none of the line is closer, and every one of a later segment is farther |
| `Barriers.ClosestIsNearest` | backend/enrich.py:711-753 | and there is only one such place |
| `Barriers.AlongMeets` | backend/enrich.py:749-753 | the distance along runs evenly from one vertex's to the next one's |
| `BarrierVerdict.PinIsFound` | backend/accessibility.py:395-420 | a rejected node beside a stretch of some length has a finding in the list of barriers, at its own coordinates |
| `BarrierVerdict.AssessWithBarriers` | backend/accessibility.py:460-493 | end to end: the report's barriers are exactly the nodes whose value spells a rejected one and whose last closest place on the route is within 10 m on a stretch of some length, each at its own rounded coordinates and distance; any of them makes the verdict FAIL |
| `BarrierVerdict.InTheWayIff` | backend/enrich.py:728-764 | a rejected node within 10 m of the line is reported exactly when the last segment nearest to it has length |
| `Barriers.DoubledVertexIsLast` | backend/enrich.py:728-730 | a node on a doubled last vertex goes to the last segment, which has no length |
| `BarrierVerdict.DoubledVertexIsSilent` | backend/accessibility.py:397-421 | end to end: a rejected node on a last vertex that is there twice is on the route, and the report names no barrier |
| `Accessibility.BarrierReportedIff` | backend/accessibility.py:400-421 | the report names a barrier exactly when some barrier span of positive length has a rejected value |
| `Accessibility.SpanVerdicts` | backend/accessibility.py:367-422 | the loop gives the weights and findings of exactly the spans of positive length, in order |
| `Accessibility.AssessRoute` | backend/accessibility.py:437-507 | the accumulating loops compute the specified verdict, findings and shares |
| `Accessibility.FailIff` | backend/accessibility.py:492-493 | FAIL exactly when some span of positive length fails or the gradient check found something |
| `Accessibility.PassIff` | backend/accessibility.py:494-497 | PASS exactly when nothing fails and a surface or smoothness span of positive length itself passes: absence of a tag never stands in for one |
| `VerdictFromTags.VerdictIff` | backend/accessibility.py:60-258 | from the values as written, in any case, with hyphens or blanks for underscores and blanks around: FAIL exactly when a listed bad surface, smoothness, barrier or steps stands on a stretch of some length or a gradient was found; PASS exactly when none does and a listed good surface or smoothness stands on one |
| `VerdictFromTags.FindingsIff` | backend/accessibility.py:367-422 | the findings are exactly those stretches, each at its node or its first vertex, and the gradients; unknown and unlisted values add none |
| `VerdictFromTags.CoverageIs` | backend/accessibility.py:471-488 | the coverage is the length of the listed surface and smoothness values over the length of the route, twice it when both lists cover some, at most 1 |
| `VerdictFromTags.PassedIs` | backend/accessibility.py:489-507 | the passed share counts the good values alone |
| `VerdictFromTags.FailedIs` | backend/accessibility.py:489-507 | the failed share the bad ones |
| `VerdictFromTags.NormalisedIff` | backend/accessibility.py:140-142 | `normalise` gives a word exactly for its spellings |
| `VerdictFromTags.BarrierIff` | backend/accessibility.py:242-252 | a barrier is rejected exactly for spellings of GATE, STILE, TURNSTILE and KISSING_GATE; NONE, on two lists, is unknown |
| `VerdictFromTags.NothingToAssess` | backend/accessibility.py:437-460 | a route of no length gets UNKNOWN, no findings and no shares |
| `Accessibility.ForgettingNeverHelps` | backend/accessibility.py:471-488 | for fixed span lists, making any one value unknown never raises coverage and never adds a finding |
| `Accessibility.DroppingAListRaisesCoverageIff` | backend/accessibility.py:485-488 | leaving out the smoothness list raises coverage exactly when both lists cover some ground, surface is definite over more of it, and together they fall short of covering the route twice |
| `Accessibility.DroppingSurfaceRaisesCoverageIff` | backend/accessibility.py:485-488 | and leaving out the surface list, with the parts exchanged |
| `Accessibility.DroppingAListCanHelp` | backend/accessibility.py:485-488 | for one, from a half to the whole |
| `Accessibility.BarrierFindingBlocks` | backend/accessibility.py:466-493 | any barrier finding reaches the report and blocks the route |
| `InclineVerdict.RefusedIff` | backend/accessibility.py:466-493 | with nothing in the tags against it a route is refused exactly when something is drawn steep or a climb is sustained |
| `InclineVerdict.DrawnSteepIsRefused` | backend/accessibility.py:466-493 | end to end: whenever something is drawn steep the verdict is FAIL, whatever the tags say, with a finding at a sample inside a drawn stretch |
| `Elevation.GridCovers` | backend/accessibility.py:270-286 | the resampling grid starts at 0, ends at the total and never steps further than the spacing |
| `Elevation.CollectRuns` | backend/elevation.py:91-101 | the loop finds exactly the maximal runs of steep gradients, disjoint and in order |
| `Elevation.DrawingAndVerdictAgree` | backend/accessibility.py:305-330 | something is drawn steep exactly when the route is refused as steep, and the refused index lies in a drawn run |
| `Elevation.WindowIsTwo` | backend/accessibility.py:335 | the sustained window comes out as two gradients, 40 m |
| `Elevation.RollingTelescopes` | backend/accessibility.py:335-340 | the mean of two gradients is the climb over 40 m |
| `Elevation.SustainedIff` | backend/accessibility.py:313-353 | the sustained finding is given exactly when no step of the grid changes by more than 8% and some two together by more than 5% of 40 m |
| `Elevation.SentenceIsTrueIff` | backend/accessibility.py:313-353 | the sentence, more than 5% over 50 m or more, is true of a profile exactly when some window of three to five steps is above 5%: longer ones need not be looked at |
| `Elevation.SustainedSaidOfForty` | backend/accessibility.py:313-353 | an input where the finding is given and no stretch of three or more steps, 60 m, is above 5% |
| `Elevation.SustainedMissedIff` | backend/accessibility.py:313-353 | a stretch of over 50 m above 5% goes without any finding exactly when no step is too steep, no two are, and some three are |
| `Elevation.SixtyMetresMissed` | backend/accessibility.py:313-353 | for one: sixty metres of more than 5% with an easier middle, and no finding |
| `Elevation.AscentMinusDescent` | backend/elevation.py:82-84 | ascent less descent is last less first, and neither is negative |
| `Elevation.AscentIsAllRises` | backend/elevation.py:82-84 | the ascent is the sum of the rising steps, and with the descent it makes up the sum of all changes |
| `Elevation.ThinIsEven` | backend/elevation.py:55-60 | each value drawn is the sample nearest to its even share of the profile, a tie going to the even index |
| `Elevation.RescaleIsNearest` | backend/elevation.py:120-128 | past 120 samples a stretch is drawn from the drawn sample nearest to its start to the one nearest to its end, or one sample on where that leaves nothing |
| `Elevation.ThinKeepsOrderAndEnds` | backend/elevation.py:55-60 | despite half-even rounding thinning takes strictly increasing indices with both ends among them |
| `Elevation.RescaleKeepsShape` | backend/elevation.py:120-128 | rescaled runs are in bounds, never empty, and keep their order |
| `Elevation.RescaleExactWhenNotThinned` | backend/elevation.py:103-128 | up to 120 samples rescaling moves nothing |
| `Elevation.LastSampleKeptIff` | backend/elevation.py:120-128 | a run to the very end is drawn to the last sample exactly when there are at most 239 samples or the run starts so near the end that it rounds to the last drawn sample itself: 238 * start > 237 * (n - 1) |
| `Elevation.LongSteepEndLosesTheLast` | backend/elevation.py:120-128 | a profile of 240 samples or more, steep all along, is not drawn to its last one |
| `Elevation.LastStepKeepsTheLast` | backend/elevation.py:120-128 | a single steep step at the end always keeps it |
| `Elevation.BuildProfile` | backend/elevation.py:72-138 | the whole profile: what is drawn is the thinned samples, its steep spans are the rescaled maximal runs, its climb telescopes, its maximum is the steepest gradient |
| `Sampling.SampleEvery` | backend/geometry.py:121-144 | the pass with an index that never moves back gives the same samples as looking every distance up from scratch |
| `Sampling.LocateBrackets` | backend/geometry.py:136-138 | the index found brackets the target: cum[idx] <= target <= cum[idx + 1] |
| `Sampling.SamplesRunStartToEnd` | backend/geometry.py:131-144 | for room for two or more the samples run from 0 to the total, strictly increasing, at most `max_points`, the final point among them |
| `Sampling.GapsAreAtMostTheSpacing` | backend/geometry.py:131-143 | no two neighbouring samples are further apart than the spacing used |
| `Sampling.SpacingIsTheOneAskedFor` | backend/geometry.py:131 | the spacing used is the one asked for exactly when that covers the route in `max_points` samples |
| `Sampling.EveryPlaceIsNearASample` | backend/geometry.py:131-143 | every place on the route lies less than one spacing past a sample |
| `Sampling.SamplesAreOnTheLine` | backend/geometry.py:139-141 | each sample but the last is the point of its segment exactly that far along the line, its fraction within [0, 1] |
| `Sampling.InterpolateIsPlain` | backend/geometry.py:94-107 | between two coordinates on the globe the clamp never bites |
| `Sampling.SamplesAreOnTheirSegments` | backend/geometry.py:139-141 | each sample but the last lies between the ends of its segment in both coordinates |
| `Sampling.EndIsKeptIff` | backend/geometry.py:131-144 | the final point is among the samples exactly when `max_points` is at least 2, negative limits included |
| `Sampling.RoomIsFilled` | backend/geometry.py:144 | there are as many samples as there is room for; a negative limit leaves out so many, as a slice does |
| `TagScore.Score` | backend/geometry.py:449-470 | the accumulating loop computes the length-weighted mean and the coverage |
| `TagScore.UnknownChangesNothing` | backend/geometry.py:462-466 | adding or removing a span of unknown value changes neither score nor coverage |
| `TagScore.OrderIsNothing` | backend/geometry.py:454-466 | the order of the spans makes no difference |
| `TagScore.SplittingIsNothing` | backend/geometry.py:455-466 | splitting a span at a vertex makes no difference, clamped ends included |
| `TagScore.ScoreWithinTable` | backend/geometry.py:468-470 | the score lies within any bounds on the table values of the spans it used |
| `TagScore.ScoreIsWeightedMean` | backend/geometry.py:454-470 | the score is the mean of the known spans' table values weighted by length, the coverage their share of the route, at most 1; which values are known is spelled out |
| `TagScore.ScoredIff` | backend/geometry.py:468-470 | there is a score exactly when some span of positive length has a value in the table; coverage is in [0, 1], positive in just that case |
| `TagScore.ForgettingNeverRaisesCoverage` | backend/geometry.py:462-470 | making a value unknown never raises the coverage |
| `Search.Gather` | backend/routing.py:1036-1053 | the gathered search keeps the routes that came back, in order, and raises the first failure only when none did |
| `Search.FirstErrorIsFirst` | backend/routing.py:1040-1053 | the failure raised is the first candidate's |
| `Search.NothingPastEnoughIsAsked` | backend/routing.py:1061-1086 | the paid search stops at the first route that is enough: what later candidates would answer makes no difference |
| `Search.SortIsStable` | backend/routing.py:1104 | the descending sort keeps the elements of each merit, in their order |
| `Search.SortHeadIsBest` | backend/routing.py:1104-1105 | its first element has maximal merit, the earliest of those that do |
| `BudgetFit.FitOrdersByMiss` | backend/routing.py:250-254 | against a duration strictly between 0 and twice the time asked for, a better fit is exactly a smaller miss |
| `ScenicChoice.RouteScenic` | backend/routing.py:1008-1133 | the loop over candidates, gathered or paid for, chooses and notes as specified |
| `ScenicChoice.PaidCandidatesComeFirst` | backend/routing.py:1008-1019 | a paid loop search asks for the first two of what a free one asks for, the unscaled one first |
| `ScenicChoice.ChoiceIsTop` | backend/routing.py:1083-1105 | when anything tried is acceptable the choice has maximal merit among the acceptable, the earliest on ties |
| `ScenicChoice.UnnotedRouteKeepsPromises` | backend/routing.py:1066-1133 | no note exactly when every promise was kept: compared with the fastest, within 1.6 times its duration, strictly greener and, for a loop, at least 0.7 of the time asked for |
| `ScenicChoice.PointToPointIsGreenest` | backend/routing.py:1076-1105 | between two places the unnoted choice is the greenest of all tried within the cap |
| `ScenicChoice.MeteredTakesTheFirstAcceptable` | backend/routing.py:1083-1086 | paid for one at a time, the accepted route is the first acceptable and the last asked for |
| `ScenicChoice.NotesAreGivenFor` | backend/routing.py:1103-1133 | exactly when each of the notes is given |
| `ScenicChoice.OverCapNoteIff` | backend/routing.py:1097-1120 | the fallback is over the cap exactly when the first candidate was and nothing within the cap has strictly more merit |
| `ScenicChoice.FittingCandidatePassedOver` | backend/routing.py:1097-1132 | so a shorter candidate within the cap can be passed over for a longer one no greener than the fastest |
| `Search.AskedAndUnasked` | backend/routing.py:1061-1086 | what a paid search tried, and what it left unasked, is what asking for every candidate would have found |
| `ScenicNotes.MostScenicIff` | backend/routing.py:1108-1112 | `the most scenic` is true of all tried exactly when no less green candidate outweighs the greenest acceptable ones by its fit, and nothing over the cap is greener than everything acceptable |
| `ScenicNotes.GoesBeforeIsATrade` | backend/routing.py:1076-1081 | outweighing is a trade of fit for greenness at 3 to 2 |
| `ScenicNotes.MostScenicOverAllIff` | backend/routing.py:1083-1112 | paid for one at a time, over every candidate exactly when over those tried and those left unasked |
| `ScenicNotes.LessGreenShownAsMostScenic` | backend/routing.py:1108-1112 | an input where it is not so |
| `ScenicNotes.NothingBetterIff` | backend/routing.py:1083-1112 | `nothing better`, by the mark the choice is made on: always true when all are asked for; else exactly when no route left unasked has a better one |
| `ScenicNotes.NoGreenerIsTrueIff` | backend/routing.py:1130-1132 | `no route was more scenic than the fastest` is true exactly when nothing over the cap was greener |
| `ScenicNotes.NoGreenerIsAboutAll` | backend/routing.py:1083-1132 | and a paid search ending in it has asked for everything |
| `ScenicNotes.GreenerOneOverCapDenied` | backend/routing.py:1130-1132 | an input where it is not so |
| `ScenicNotes.OverCapSentenceIff` | backend/routing.py:1120-1129 | `the shortest that is better, and longer than you asked for` is true exactly when the first candidate is greener than the fastest and longer than asked for, and no other over the cap is greener and shorter |
| `PreferenceChoice.RoutePreference` | backend/routing.py:1192-1248 | the round-trip branch chooses and notes as specified |
| `PreferenceChoice.LoopsShrink` | backend/routing.py:1192 | each loop asked for is shorter than the one before, and a paid search has the first two |
| `PreferenceChoice.EnoughIsNotTooLong` | backend/routing.py:1201-1235 | the paid search stops at a loop exactly when it would not be called too long |
| `PreferenceChoice.ChoiceIsClosestOrFirst` | backend/routing.py:1201-1217 | with any loop tried strictly within twice the time asked for, the choice misses it by least, the earliest on ties; with none, the first tried is kept |
| `PreferenceChoice.NothingAddedIff` | backend/routing.py:1231-1247 | nothing is added to the note exactly for 0.7 to 1.35 times the time asked for |
| `PreferenceChoice.ShorterIsTrueIff` | backend/routing.py:1208-1243 | `nothing closer was reachable`, over every candidate: always true when all are asked for; paid for one at a time, exactly when none left unasked lies between the loop returned and its mirror image in the time asked for |
| `PreferenceChoice.ShorterIsTheFirstEnough` | backend/routing.py:1213-1243 | and that loop is the one the paid search stopped at |
| `PreferenceChoice.ShortFirstLoopEndsTheSearch` | backend/routing.py:1213-1243 | an input where it is not so: fifteen minutes of thirty, the next candidate exact |
| `PreferenceChoice.LongerIsTrueIff` | backend/routing.py:1231-1235 | `the closest fit`, over every candidate, is true exactly when one tried was in reach or none is nearer than the first, and none left unasked is nearer |
| `PreferenceChoice.NearerThanTheFirstIsShorter` | backend/routing.py:1216-1235 | with nothing in reach, nearer than the first means shorter than it |
| `PreferenceChoice.LongerLoopKept` | backend/routing.py:1216-1235 | two loops of at least twice the time: the longer one is kept, as the closest, when it came first |
| `PreferenceChoice.LongerMeansNothingFitted` | backend/routing.py:1216-1235 | when the loop is called too long, no loop tried was between 0.7 and 1.35 times the time |
| `RateLimit.RunsAreSound` | backend/ratelimit.py:67-159 | over every run at most 20,000 buckets, tokens within [0, capacity], and never more served than the ceiling |
| `RateLimit.WindowBound` | backend/ratelimit.py:130-159 | no window of T seconds admits more of a key's requests, less refunds, than capacity + refill * T / 60, while its bucket is kept |
| `RateLimit.IdleRefillsIff` | backend/ratelimit.py:24-77 | an hour idle refills every bucket exactly when 60 * refill covers the capacity |
| `RateLimit.StaleEvictionUnobservable` | backend/ratelimit.py:67-72 | then, in runs of checks that never drop the oldest half, no decision differs from a limiter that never evicts |
| `RateLimit.RetryAfterIsHonest` | backend/ratelimit.py:143-154 | from 0.01 a minute up, waiting the named time means no second per-client denial, whatever other clients do meanwhile, evictions of the waiting bucket included |
| `RateLimit.WaitAlwaysSufficesIff` | backend/ratelimit.py:143-145 | the named wait is long enough for every refused bucket exactly when the refill is at least 0.01 a minute |
| `LimiterDays.WaitIsTight` | backend/ratelimit.py:143-145 | and one second less is at most just enough |
| `RateLimit.RetryAfterTooShort` | backend/ratelimit.py:145 | below 0.01 a minute the named wait can be too short |
| `RateLimit.ServedTodayBalances` | backend/ratelimit.py:156-188 | within a day the published count is counted allows less live refunds, exactly when no refund found it at zero |
| `LimiterDays.ServedSinceMidnight` | backend/ratelimit.py:79-188 | over runs that pass midnight any number of times: since the first check of the day the published number is counted allows less live refunds, plus what clamping at zero hid |
| `LimiterDays.DayKeepsCeiling` | backend/ratelimit.py:79-159 | no day lets through more counted calls than the ceiling and the refunds of that day |
| `LimiterDays.CeilingIff` | backend/ratelimit.py:79-128 | a check is refused for the day exactly when it counts and the number served on its own day has reached the ceiling |
| `LimiterDays.NewDayIsOpen` | backend/ratelimit.py:79-128 | the first check of a day is never refused for the day, whatever the day before was like |
| `LimiterDays.RefundGivesBack` | backend/ratelimit.py:182-188 | a refund adds a token to the bucket, up to its capacity, and touches no other |
| `LimiterDays.RefundUndoesCheck` | backend/ratelimit.py:113-188 | a counted call let through and refunded costs nothing: at any later time its client can spend what it could have, and the day's number is as it was |
| `RateLimit.RateLimiter.EvictLocked` | backend/ratelimit.py:67-77 | what is kept is all the fresh buckets, or the newer half of them when too many are fresh |
| `RateLimit.RateLimiter.CheckCall` | backend/ratelimit.py:113-159 | decision and whole new state of `check`, eviction, day roll, ceiling and refill included |
| `RateLimit.RateLimiter.RefundCall` | backend/ratelimit.py:182-188 | whole new state of `refund` |
| `RateLimit.RateLimiter.Published` | backend/ratelimit.py:190-201 | the published number, zero on a day no check has seen |
| `IsoTime.IsoOrderIsTimeOrder` | backend/cache.py:152-153 | lexicographic order of two written timestamps is their order in time, across the shapes with and without microseconds |
| `IsoTime.FromIsoOfIso` | backend/cache.py:416 | reading a written timestamp gives the time that was written |
| `RouteCache.LookupIsVisible` | backend/cache.py:399-429 | a reader gets exactly the latest put for the key that has neither expired nor been evicted; without an answer the row is gone, and no other row changes |
| `RouteCache.PutIsSeen` | backend/cache.py:435-454 | after a put the key reads as that payload until it expires, evicted before or not, and every other key as before |
| `RouteCache.PurgeIsInvisible` | backend/cache.py:620-640 | the textual purge removes exactly the rows expired in time, and no reader can tell |
| `RouteCache.OtherShapesArePurged` | backend/cache.py:620-640 | a row whose expiry is written without the offset is purged whatever it says |
| `RouteCache.EvictionKeepsTable` | backend/cache.py:585-605 | what the ceiling removes was written no later than anything it keeps |
| `RouteCache.EvictOverCeiling` | backend/cache.py:593-605 | the oldest rows go until the ceiling is met, and no others |
| `RouteCache.Table.Get` | backend/cache.py:399-429 | over the object's history the answer is the visible entry; deleting a stale row changes nothing a reader sees |
| `RouteCache.Cache.GetRoute` | backend/cache.py:399-429 | the same on the two-table cache, the other table untouched |
| `RouteCache.Cache.GetGeocode` | backend/cache.py:458-485 | the geocode twin |
| `RouteCache.Cache.PutRoute` | backend/cache.py:435-454 | after every put each table is within its ceiling + 49, and readers see the put and what sweeping leaves |
| `RouteCache.Cache.PutGeocode` | backend/cache.py:491-510 | the geocode twin |
| `RouteCache.Cache.Sweep` | backend/cache.py:559-583 | both tables purged and trimmed, the removed rows counted towards the next reclaim |
| `LiveBudget.NeverOverCap` | backend/fixtures.py:288-308 | over every interleaving of spends, day changes and restarts, what a day began with and what is granted on it never pass the cap of the service |
| `LiveBudget.CapIsKept` | backend/fixtures.py:278-308 | a day that began with nothing counted ends within the cap, and an unbudgeted service gets nothing |
| `LiveBudget.OpenedNeverOverCap` | backend/fixtures.py:225-308 | the same for a process opened on any file of its day or before, or none |
| `LiveBudget.CounterIsGranted` | backend/fixtures.py:250-308 | today's counter is exactly what was granted today on top of what the day began with |
| `LiveBudget.GrantedIff` | backend/fixtures.py:288-308 | a spend is granted exactly when what the day began with, all that was granted on it and the cost are within the cap |
| `LiveBudget.RestartRegainsNothing` | backend/fixtures.py:225-248 | at every point of a run a process opened on the file would know exactly what this one knows |
| `LiveBudget.ClockGoingBackRegains` | backend/fixtures.py:250-257 | a clock that goes back a day and returns grants the cap twice |
| `LiveBudget.ExactIffNeverForgets` | backend/fixtures.py:250-308 | for days in any order the counter is exactly what was counted, at every point of a run, exactly when no step comes back to a day with something counted and finds it at zero |
| `LiveBudget.CapKeptUnlessForgotten` | backend/fixtures.py:250-308 | and then the cap is kept on every day, in any order of them |
| `LiveBudget.ForgottenIsGrantedAgain` | backend/fixtures.py:250-308 | once a day is forgotten its whole cap can be granted again on top of what was counted |
| `LiveBudget.RestartAfterGoingBackRemembers` | backend/fixtures.py:225-257 | a process opened on the day of return, on a file nothing has overwritten, forgets nothing |
| `LiveBudget.LiveCallBudget.TrySpend` | backend/fixtures.py:288-308 | granted exactly within the cap; on a grant the file holds the new counters, on a refusal it is untouched |
| `LiveBudget.LiveCallBudget.Remaining` | backend/fixtures.py:285-286 | the amount named can be spent, and one more cannot |
| `PlaceLru.NeverOverfull` | frontend/src/components/PlaceInput.jsx:68-72 | at most fifty entries and no key twice, in every run |
| `PlaceLru.OrderIsRecency` | frontend/src/components/PlaceInput.jsx:53-72 | the Map holds the most recently touched keys in the order of their last put or hit |
| `PlaceLru.EvictsLeastRecent` | frontend/src/components/PlaceInput.jsx:68-72 | in every run, stale hits included, a key is held exactly when it has been touched and has since stayed among the fifty most recently touched |
| `PlaceLru.HeldIsLastPut` | frontend/src/components/PlaceInput.jsx:60-65 | what is held is what was last put, as old as it was then: a hit renews nothing |
| `PlaceLru.AnswerIff` | frontend/src/components/PlaceInput.jsx:53-66 | a get answers with the last value put exactly when the key is held and that put is within the time to live |
| `PlaceLru.AnswerFromHistory` | frontend/src/components/PlaceInput.jsx:53-72 | the same from the operations alone: what was put, hit and kept is told without the Map, and that telling agrees with it |
| `PlaceLru.PlaceCache.LruGet` | frontend/src/components/PlaceInput.jsx:53-66 | answer and new state of `lruGet` over the object's history |
| `PlaceLru.PlaceCache.LruPut` | frontend/src/components/PlaceInput.jsx:68-72 | new state of `lruPut`, its eviction loop included |
| `Base64.RoundTrip` | backend/photos.py:155-167 | every byte string comes back from its unpadded form |
| `Base64.WrittenIsUrlSafe` | backend/photos.py:155-163 | the unpadded form has only letters, digits, hyphens and underscores |
| `Base64.PaddingRestores` | backend/photos.py:163-167 | the padding arithmetic restores exactly what was stripped |
| `Base64.PaddingIsNeeded` | backend/photos.py:166-167 | without it only whole groups of three bytes decode |
| `PhotoRef.LimitIs750` | backend/photos.py:117 | a reference is within the limit exactly for URLs of at most 750 bytes |
| `PhotoRef.IssuedOpens` | backend/photos.py:202-206 | an issued reference, split at its only dot, reads back as its URL and its own tag |
| `PhotoRef.ResolveIssued` | backend/photos.py:170-232 | for every URL, resolving its reference gives what the allowlist gives up to 750 bytes, and a refusal past that |
| `PhotoRef.ResolveIsSafe` | backend/photos.py:202-232 | only an https URL this server signed resolves, with no userinfo, on the usual port, from an allowed host |
| `PhotoRef.ResolvesIff` | backend/photos.py:202-232 | a reference resolves exactly when it reads back as the URL with its own tag and the URL is such a one: nothing harmless is turned away |
| `PhotoRef.JudgedIff` | backend/photos.py:207-232 | the same of the check on the URL alone, with the one case that raises |
| `PhotoRef.ServiceIffAllowed` | backend/photos.py:134-147 | the host rule names a service for the allowed hosts and no others |
| `CoordinateScrub.MatchIsLongest` | backend/logging_setup.py:93 | the greedy match is the longest coordinate-shaped start, and there is one whenever any start is |
| `CoordinateScrub.NothingShapedIsLeft` | backend/logging_setup.py:169 | after the pass no substring of the output is coordinate-shaped, at a seam or elsewhere |
| `CoordinateScrub.TheRestIsKept` | backend/logging_setup.py:169 | the output is the input cut into pieces, in order, only coordinate-shaped ones replaced |
| `CoordinateScrub.RedactIsStable` | backend/logging_setup.py:169 | the pass is idempotent |
| `Scrub.HideLeaksNothing` | backend/logging_setup.py:154-168 | after the first pass no sensitive parameter can be read |
| `Scrub.LeaksIff` | backend/logging_setup.py:132-156 | what counts as readable: somewhere a listed name behind no word character, the sign and a character of a value |
| `Scrub.HideKeepsTheRest` | backend/logging_setup.py:154-168 | the output is the input cut into pieces, in order, only values replaced that directly follow a listed name and its sign |
| `Scrub.HideIsStable` | backend/logging_setup.py:154-168 | the pass is idempotent |
| `ScrubTwice.NoCoordinateIsLeft` | backend/logging_setup.py:167-169 | after both passes no coordinate is left |
| `ScrubTwice.ParameterLeftIff` | backend/logging_setup.py:167-169 | after both a sensitive parameter is still readable exactly when a coordinate ran straight into its name |
| `ScrubTwice.StableIff` | backend/logging_setup.py:167-169 | scrubbing again changes nothing in exactly the other cases |
| `ScrubTwice.ParameterComesThrough` | backend/logging_setup.py:154-169 | it happens for every text that starts with a coordinate and goes on with any listed parameter |
| `ScrubRules.ActualRulesAreProper` | backend/logging_setup.py:132-156 | the listed names and the ASCII classes meet what the theorems require |
## Left out

- Sse.ReadStream: reads decoded text; characters split across network chunks are the job of TextDecoder, and a frame that is valid JSON but not an object is not modelled.
- Sse.Transmit: the JSON codec is a parameter that only has to be faithful and to print no line breaks.
- Transports.TransportsAgree: compares whether both fail; the kinds of error are compared in `Transports.RepliesAreEqualIff`.
- Stream.NeverStuck: says that some step is possible, not that the scheduler takes it; fairness of asyncio is not modelled.
- StreamSession.Session.LoopHead: the producer is an arbitrary source of events; that it is the deadline's generator is brought in by `Journey.OneWritePerAnswer`.
- Journey.Receive: a connection that dies inside a frame is the tail flush of `Sse.LastPart`; what a codec makes of half a frame is not modelled.
- RouteEvents.Produce: message wording, labels, metrics and the fields of a route are carried as opaque values; outside-coverage refusals happen before the first route and only raise. Exceptions other than routing failures, raised in the middle of a response, do not occur.
- Convergence.StreamConverges: speaks of runs that end in `done`; a timed-out answer keeps arrival order, see `Events.MergeKeepsArrivalOrder` and `Deadline.UsableKeepsOrder`.
- BarrierVerdict.AssessWithBarriers: the planar coordinates and the segment lengths of the verdict are two given measures, as in the code, which projects on a plane and adds up great-circle lengths; nothing is said of how close they are.
- Accessibility.AssessRoute: does not round the shares to four places, and takes the gradient findings as an input; `InclineVerdict` feeds it those of `Elevation`, over a resampled profile that is given.
- Accessibility.SpanVerdicts: tag text is read in ASCII, without the case rules of other scripts, and distances along the route are not rounded.
- Elevation.BuildProfile: does not round the drawn numbers, and starts from the resampled profile; interpolation between vertices is not modelled.
- Elevation.DrawingAndVerdictAgree: places a finding by its index on the grid; the vertex it is pinned to is not modelled.
- Sampling.SampleEvery: exact arithmetic; what floating point does to the number of targets is not modelled.
- Search.Gather: concurrency of the gathered requests is their order in the list; only their answers matter to the choice.
- ScenicChoice.RouteScenic: greenness is any function of the route.
- PreferenceChoice.RoutePreference: only the round trip; between two places there is one request and nothing to choose.
- LimiterDays.CeilingIff: the wait named to a client refused for the day, the seconds to midnight, is not modelled.
- RateLimit.WindowBound: token counts are reals; the lock makes calls one at a time, and `now` does not go back.
- RouteCache.Table.Get: the clock does not go back between the calls on a table; the same holds of every method of both classes.
- RouteCache.LookupIsVisible: the time asked at is not before the time the table was last used.
- RouteCache.Cache.GetRoute: as above, and every payload decodes.
- RouteCache.Cache.GetGeocode: as above, and every payload decodes to a list.
- RouteCache.Cache.PutRoute: one thread, and the expiry is handed in; a corrupt payload, an unreadable expiry and timestamps of other versions of the file, which the code treats as misses, do not occur in the model.
- RouteCache.Cache.Sweep: what VACUUM and the write-ahead log do to the file is left out; only the counter towards it is kept.
- LiveBudget.NeverOverCap: one process at a time on a file that is readable whenever it exists.
- LiveBudget.LiveCallBudget.TrySpend: the log line written once per service is left out.
- PhotoRef.ResolveIssued: the encoding of text, the digest and URL splitting are parameters that only have to decode what they encoded and to give 32 bytes.
- ScrubRules.ActualRulesAreProper: the word, digit and space classes of other scripts are not instantiated, though the theorems cover any that are proper.
- Scrub.HideLeaksNothing: the branch of `scrub` for text; containers are walked element by element and other types are rendered first.
- The saved-route store of the client (`replayFromStore`, `keep`): IndexedDB behaviour, and the rule is one branch.
- The drain of open streams at shutdown in `lifespan`: a wait on a counter whose accounting is `Stream.PullsAndCountsAreSafe`.
- The segment-score table and the schema migration of `cache.py`: chunked queries and a fixed list of columns, easy members.
- Rest stops, departure advice, air and shade blends, photo anchors and curviness: short arithmetic with no state.
- HTTP, SQLite, React, the map, the service worker, metrics, configuration and the fixture mode ladder: plumbing.
- Haversine, bearings, solar position and CLIP: trigonometry and models taken as given numbers.
