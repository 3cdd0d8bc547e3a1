# kimmydb: a verified model

kimmydb is a replicated document database.  This project models the parts of it whose
correctness is an argument over many steps, and proves that argument in Dafny:

- **Webhook dispatch** (`Stamps`, `DispatchPass`, `Dispatcher`, `DispatchCluster`,
  `DispatchRuns`, `DispatchDrain`).  Any member that owns a subscription reads the union of the recorded
  progress, its own position, and a window of its oplog, delivers a batch, and records how
  far it got.  The model is a cluster of members that write, replicate, lose a write to a
  newer one, run passes, have deliveries fail before or after the endpoint accepts them,
  fail to record, and crash, in any interleaving.
- **Joins** (`LookupJoin`, `KeyJoins`, `GraphLookup`, `Tallies`).  `$lookup` with a sub-pipeline against
  the nested loop it replaces, `$lookup` by key against its definition, and `$graphLookup`
  against shortest chains of links.
- **Reads** (`SortedFind`, `Reads`, `CursorPaging`).  The bounded sort against a stable sort
  of every match, the three access paths against a scan, and following cursors against one
  read of everything.
- **Memory and answers** (`MemoryAccount`, `AnswerBody`, `JsonText`).  What a request's lease
  is charged over any run of operations, and an answer's body as it is written, charged and
  handed over.
- **Extended JSON** (`ExtendedJson`, `WireForms`), the build date (`CivilDate`) and the rate-limited
  warnings about collections nobody can expire (`UnownedWarnings`).

Code that updates state is a class or a method with a loop, proved against a function of its
inputs; the properties are then lemmas about that function.  Where such a function would only say
again what the code does, a second statement from the inputs alone, by places, names and clauses,
is proved of it (the members called `...Meaning`, `...Forms`, `Reads...`, `Prints...`).  Check everything with
`dafny verify dfyconfig.toml`.

## What the proofs found

The dispatcher promises that progress covers a wanted event only once the endpoint has accepted
it.  Two things break that, and the model has a run of each, from an empty cluster:

- **An event can land under the scan.**  The dispatcher reads its position before it scans so
  that an entry landing in between stays uncovered (the comment at
  `crates/kimmy-api/src/dispatch.rs:867-873`).  That holds for an entry above everything its
  origin had there, and fails when two entries of an origin that was caught up land between
  the two reads, one below the start of the scan and one at or above it: delivering the second
  raises progress over the first (`LateArrival.ARunCoversAnUnsentEvent`).
- **An event can lose.**  A remote write that arrives after a newer write of its document is not
  appended to the oplog (`crates/kimmy-storage/src/docs.rs:1275-1318`), so no scan sees it, and
  progress for its origin goes over it with the next write (`LostWrite.ARunCoversALostWrite`).

`ScanDrops` is the two together, and `DispatchCluster.ScanIsSafeExactly` proves it exact: what a
scan will record is safe if and only if the scan drops nothing, with losing counted as an excuse
or, strictly, not.  `DispatchCluster.RunIsSafe` proves every run without such a scan safe, in
either sense; `DispatchCluster.DroppedIsPublished` that such a scan, delivered and recorded
without a fault, always publishes unsafe progress; and
`DispatchCluster.RunWithoutLossesIsStrictlySafe` that where no wanted write loses, the first
kind is all there is to rule out.

- **Passes can stand still.**  Fewer entries than a window at every single clock value is not
  enough for the passes to make progress, since an origin that sorts after the window's last
  entry is raised only to the clock value before it.  `DispatchDrain.CrowdedWindowStalls` has an
  oplog in which one write is never reached, however many passes are made and from wherever they
  start below it, and `DispatchDrain.DrainCrowded` ends there.  It is enough that any two
  neighbouring clock values together hold fewer (`DispatchDrain.SpreadIsNeverStuck`).
  `DispatchDrain.StalledExactly` says exactly when a pass changes nothing, and
  `DispatchDrain.Drain` that on every oplog the passes have sent everything once unless one does.
- **The join's fast path is exact because evaluation errors can be held back.**
  `LookupJoin.LookupPipeline` is proved under that condition;
  `LookupJoin.NonDeferrableErrorsBreakHoisting` shows what an error without it would do.

## Model

| member | source | states |
|---|---|---|
| `HybridClock.RankPreservesOrder` | crates/kimmy-core/src/hlc.rs:19-31 | clock values by (milliseconds, counter) are ordered as their ranks, so one number stands for a clock value |
| `HybridClock.RankOfPredecessor` | crates/kimmy-core/src/hlc.rs:77-83 | the previous clock value is the previous rank, and zero stays |
| `Dispatcher.WallMsOfRank` | crates/kimmy-core/src/hlc.rs:19-31 | the milliseconds read off a rank are those of the clock value |
| `Stamps.Behind` | crates/kimmy-core/src/version.rs:72-78 | nothing when and only when the other vector is covered, else the lowest position at which some origin trails |
| `Stamps.ObserveAllCovers` | crates/kimmy-core/src/version.rs:35-40 | observing stamps covers what was covered and what is at or below one of them of its own origin, and nothing else |
| `Stamps.CoverageIsStampOrder` | crates/kimmy-storage/src/sync.rs:590-611 | the per-origin coverage of a window covers a stamp exactly when the position does and the window went past it in (clock, node) order, ties at the end included |
| `DispatchPass.ScanOplog` | crates/kimmy-storage/src/watch.rs:931-980 | the window is the first `limit` servable entries from a clock value on, short of the end exactly when there are that many, examined to the last |
| `DispatchPass.WindowMeaning` | crates/kimmy-storage/src/watch.rs:931-980 | the window holds, in order, only entries at or past its start that are not violation records or unkeyed-document records, and every one of them up to its last or to the end of the oplog |
| `DispatchPass.WindowHoldsExamined` | crates/kimmy-api/src/dispatch.rs:709-720 | a window holds every servable entry that its end claims was examined |
| `DispatchPass.RaiseCovers` | crates/kimmy-api/src/dispatch.rs:722-728 | progress after a pass covers exactly the union, what is at or below an observed stamp of its origin, and what the position covers of what the window went past |
| `DispatchPass.DecidedIsSent` | crates/kimmy-api/src/dispatch.rs:945-957 | a wanted entry of the window that a pass got through is covered already or sent |
| `DispatchPass.WantedIsSubscribed` | crates/kimmy-api/src/dispatch.rs:409-424 | an entry is wanted exactly when it is of the subscribed collection and is an insert, update, replace or delete whose name, "insert", "update", "replace" or "delete", is in the list or the list is empty |
| `Dispatcher.TakenIsSubscribed` | crates/kimmy-api/src/dispatch.rs:947-957 | what a pass takes is, in oplog order, what the subscriber asks for, by those names, of the window and past the union; whatever else of that there is comes after the last taken |
| `DispatchPass.PassCoversExactly` | crates/kimmy-api/src/dispatch.rs:1018-1037 | progress after a pass covers a wanted entry of the oplog exactly when it did before, the pass sent it, or the pass stepped over it |
| `DispatchPass.ProgressMeaning` | crates/kimmy-api/src/dispatch.rs:986-1087 | progress after a pass covers a stamp exactly when the union does, when an entry of its origin at or past it was sent (or, with nothing to send, seen), or when the position does and the pass got through to it: through the window, or to the last entry sent when some are left |
| `DispatchPass.PassIsMonotoneAndBounded` | crates/kimmy-api/src/dispatch.rs:1078-1087 | progress never goes back, and no origin is raised past both the position and every stamp of it observed |
| `Dispatcher.UnionProgress` | crates/kimmy-api/src/dispatch.rs:249-291 | the union covers a stamp exactly when some readable field of some record does |
| `Dispatcher.MergeRecord` | crates/kimmy-api/src/dispatch.rs:266-288 | one record adds exactly what its readable fields cover |
| `Dispatcher.EnvelopeGrows` | crates/kimmy-api/src/dispatch.rs:469-480 | adding an event costs its own text and a comma unless it is the first |
| `Dispatcher.EnvelopeText` | crates/kimmy-api/src/dispatch.rs:469-471 | the body is the text of an object of the subscription and the list of events |
| `Dispatcher.Assemble` | crates/kimmy-api/src/dispatch.rs:495-536 | the longest prefix up to the batch size that fits the cap, or the first event without its document exactly when it does not fit alone; always some event |
| `Dispatcher.PlanSubscription` | crates/kimmy-api/src/dispatch.rs:845-1037 | when a subscription is up to date, backing off, invalidated, not due, recorded or delivered, each exactly; every plan is a pass over a real window; a delivery sends, in order, entries of the subscribed collection whose kind is asked for by name and that the union does not cover, the longest batch that fits; and a plan that sends nothing left none such in its window |
| `DispatchCluster.WriteHolds` | crates/kimmy-storage/src/engine.rs:5703-5713 | a write keeps the cluster invariant: the position stays a coverage claim |
| `DispatchCluster.ReplicateClaims` | crates/kimmy-storage/src/engine.rs:5703-5713 | an entry arriving in its origin's order extends the coverage claim over that origin |
| `DispatchCluster.SupersedeHolds` | crates/kimmy-storage/src/docs.rs:1275-1318 | a write lost to a newer one of its document keeps the invariant: the position still claims only what is held or lost here |
| `DispatchCluster.UnionIsFine` | crates/kimmy-api/src/dispatch.rs:249-291 | joining records that cover nothing unanswered covers nothing unanswered |
| `DispatchCluster.PassIsSafeOnceSent` | crates/kimmy-api/src/dispatch.rs:867-873 | a pass that drops nothing is safe to record once its batch is accepted |
| `DispatchCluster.StepHolds` | crates/kimmy-api/src/dispatch.rs:845-1110 | every step of the cluster, but a scan that drops an entry, keeps the invariant, strictly or with losing as an excuse |
| `DispatchCluster.RunIsSafe` | crates/kimmy-api/src/dispatch.rs:1078-1110 | in every run in which no scan drops an entry, no record ever committed covers a wanted write that the endpoint has not accepted (strictly) or that it has not accepted and no node lost (otherwise); whatever was lost was lost to a newer write of its document |
| `DispatchCluster.RunWithoutLossesIsStrictlySafe` | crates/kimmy-api/src/dispatch.rs:1078-1110 | in every run in which no wanted write is lost and no scan steps over one, whatever progress covers the endpoint has accepted |
| `DispatchCluster.ScanIsSafeExactly` | crates/kimmy-api/src/dispatch.rs:867-873 | what a scan will record is safe if and only if it steps over nothing unanswered in the oplog under its start and, strictly, no wanted, unaccepted, uncovered write lost at this node is at or below an observed stamp of its origin or in the position and gone past |
| `DispatchCluster.DroppedIsPublished` | crates/kimmy-api/src/dispatch.rs:1078-1110 | a scan that drops an entry, delivered and recorded without a fault, reaches a cluster whose published progress is not safe |
| `DispatchCluster.NothingUnderTheStart` | crates/kimmy-api/src/dispatch.rs:867-873 | nothing is stepped over when nothing uncovered lies under the scan's start, or nothing landed after the position was read |
| `DispatchCluster.RunWithoutLateArrivalsIsSafe` | crates/kimmy-api/src/dispatch.rs:867-873 | every run in which each scan meets that condition covers no wanted write but accepted and lost ones |
| `DispatchCluster.LaterEntryStaysUncovered` | crates/kimmy-api/src/dispatch.rs:867-873 | an entry above everything of its origin held at the scan is left uncovered by the pass |
| `DispatchCluster.HeldEntryIsCoveredBySending` | crates/kimmy-api/src/dispatch.rs:867-873 | an undelivered wanted entry the position includes is in the scan's range and is covered exactly by being sent |
| `LateArrival.ARunCoversAnUnsentEvent` | crates/kimmy-api/src/dispatch.rs:867-873 | a cluster reachable from the start, in which nothing was ever lost, has published progress over a wanted write that nobody sent |
| `LostWrite.ARunCoversALostWrite` | crates/kimmy-storage/src/docs.rs:1275-1318 | a cluster reachable from the start, safe but for losses, has published progress over a wanted write that the endpoint never accepted |
| `DispatchDrain.FullWindowMovesOn` | crates/kimmy-api/src/dispatch.rs:709-720 | a full window of a spread oplog ends two clock values past its start |
| `Dispatcher.RaiseProgress` | crates/kimmy-api/src/dispatch.rs:1078-1087 | observing what was delivered, or the whole window, and carrying forward gives the progress the pass is proved about |
| `DispatchDrain.RaisingShrinksGap` | crates/kimmy-api/src/dispatch.rs:959-1016 | a pass that changes progress at all strictly shrinks what is left to cover |
| `DispatchDrain.SpreadIsNeverStuck` | crates/kimmy-api/src/dispatch.rs:919-923 | in a spread oplog no pass stands still short of the end |
| `DispatchDrain.PassKeepsSent` | crates/kimmy-api/src/dispatch.rs:1078-1087 | what has been sent is, across passes, exactly the wanted entries now covered and not before, none twice |
| `DispatchDrain.NextPass` | crates/kimmy-api/src/dispatch.rs:845-1037 | there is a next pass, valid and over a real window, unless every wanted entry is covered |
| `DispatchDrain.Drain` | crates/kimmy-api/src/dispatch.rs:845-1110 | on every oplog, passes that succeed end; they have sent each wanted entry covered now and not before exactly once and nothing else; every wanted entry is covered unless a pass stands still, which it does not in a spread oplog |
| `DispatchDrain.StalledExactly` | crates/kimmy-api/src/dispatch.rs:709-728 | a pass changes nothing if and only if its window holds nothing uncovered and reaches not even the next place of any origin that trails |
| `DispatchDrain.CrowdedStaysBelow` | crates/kimmy-storage/src/sync.rs:590-611 | no pass over the crowded oplog raises its last origin past where it stands |
| `DispatchDrain.CrowdedWindowStalls` | crates/kimmy-storage/src/sync.rs:590-611 | over every sequence of passes from any progress below it, a wanted write is never covered, with fewer entries than a window at every one clock value |
| `DispatchDrain.DrainCrowded` | crates/kimmy-api/src/dispatch.rs:845-1110 | draining that oplog from nothing ends standing still, with the write unsent |
| `Conjunctions.EvaluateIsConjunction` | crates/kimmy-query/src/expr.rs:2217-2271 | however conjunctions are nested, a filter means the three-valued conjunction of its clauses |
| `Conjunctions.FlattenMeaning` | crates/kimmy-query/src/aggregate.rs:357-449 | the clauses of a filter are exactly those that stand somewhere in it |
| `Conjunctions.FlattenInOrder` | crates/kimmy-query/src/aggregate.rs:357-449 | in the order of the branches they stand in |
| `Conjunctions.ConjunctionMeaning` | crates/kimmy-query/src/expr.rs:2217-2271 | false exactly when a clause is false, true exactly when every clause is |
| `Conjunctions.ConjunctionFails` | crates/kimmy-query/src/expr.rs:2217-2271 | otherwise the error is that of the first clause that fails |
| `Conjunctions.ConjunctionSays` | crates/kimmy-query/src/expr.rs:2217-2271 | the three together: no if a clause says so, yes if all do, and otherwise the error of the first that fails |
| `Conjunctions.SaysIsUnique` | crates/kimmy-query/src/expr.rs:2217-2271 | and that is one answer |
| `LookupJoin.ScanLoop` | crates/kimmy-api/src/exec.rs:4034-4043 | the documents kept in order, or the first error |
| `LookupJoin.ScanIsKept` | crates/kimmy-api/src/exec.rs:4034-4043 | scanning with a filter keeps exactly the documents of which every clause is true, in order; or gives, naming the document, the first failing clause of the first document of which no clause is false and one fails |
| `LookupJoin.SplitDecides` | crates/kimmy-query/src/aggregate.rs:357-449 | once the independent clauses are decided, the variable ones decide the whole or it is false |
| `LookupJoin.KeyDecides` | crates/kimmy-query/src/aggregate.rs:357-449 | once the key clause is decided, the residual decides or the whole is false |
| `LookupJoin.BuildTable` | crates/kimmy-api/src/exec.rs:4048-4059 | every document filed under its key in scan order, or declined exactly when one has no key |
| `LookupJoin.Probe` | crates/kimmy-api/src/exec.rs:4066-4087 | it finds the scan of one bucket with the residual clauses, and declines exactly when there is no local key or that scan fails |
| `LookupJoin.KeyClauseDecides` | crates/kimmy-api/src/exec.rs:4066-4087 | a document not under the local key is rejected, one under it is decided by the residual |
| `LookupJoin.ProbeIsScan` | crates/kimmy-api/src/exec.rs:4066-4087 | a successful probe gives what scanning everything with the variable clauses gives |
| `LookupJoin.HoistIsExact` | crates/kimmy-api/src/exec.rs:3976-3998 | scanning what the independent clauses keep with the variable ones is scanning everything with the whole filter, errors included |
| `LookupJoin.LookupStage.MatchedForInput` | crates/kimmy-api/src/exec.rs:4006-4044 | whichever way it is answered, an input document gets what the whole filter over every foreign document gives: the documents of which every clause is true, or the first error, naming its document |
| `LookupJoin.UndecidedFailsInput` | crates/kimmy-api/src/exec.rs:4034-4043 | if each foreign document before one has a false clause or only true ones, and that one has no false clause and a failing one, the input document fails with the first failing clause's error, naming the foreign document |
| `LookupJoin.DecidedReachRest` | crates/kimmy-api/src/exec.rs:4034-4043 | otherwise what reaches the rest of the sub-pipeline is exactly the foreign documents of which every clause is true, in scan order |
| `LookupJoin.NestedLoopMeaning` | crates/kimmy-api/src/exec.rs:3589-3630 | the nested loop from the documents alone: each input document in turn gets its array, within the ceiling, and the account moves on, to the last or to the first that fails, passes the ceiling or cannot be attached |
| `LookupJoin.JoinEach` | crates/kimmy-api/src/exec.rs:3589-3630 | each input document in turn, bound, matched, run through the rest, counted and attached, as the nested loop has it, up to the first error or refusal |
| `LookupJoin.LookupPipeline` | crates/kimmy-api/src/exec.rs:3511-3631 | the stage is the nested loop for every kind of leading match, with the rest of the sub-pipeline, the ceiling and the charges, and the same first error or refusal, each stated from the clauses on the pairs; with no input document nothing can fail it |
| `LookupJoin.NonDeferrableErrorsBreakHoisting` | crates/kimmy-api/src/exec.rs:3963-3975 | with an error that cannot be held back, applying the independent clause first gives another answer |
| `Places.SortDedup` | crates/kimmy-api/src/exec.rs:3457-3458 | the same places, ascending, each once |
| `Places.AscendingIsUnique` | crates/kimmy-api/src/exec.rs:3457-3458 | an ascending list is determined by what it holds |
| `Places.FileUnder` | crates/kimmy-api/src/exec.rs:3431-3434 | filing a document under its keys files it there and changes nothing else |
| `Places.Gather` | crates/kimmy-api/src/exec.rs:3451-3456 | the places filed under any of the keys |
| `EqualityLookup.HoldForeign` | crates/kimmy-api/src/exec.rs:3407-3438 | exactly the foreign documents with a wanted key are held, in scan order, charged as they are read and filed under every wanted key, or refused at the first that cannot be charged |
| `EqualityLookup.JoinMeaning` | crates/kimmy-api/src/exec.rs:3389-3487 | what is held is, in scan order and each once, the foreign documents sharing a key with some input document; what an input document gets is those sharing one with it |
| `Tallies.ChargeAllMeaning` | crates/kimmy-api/src/exec.rs:3407-3438 | charging goes item by item from one account to the next, to the last or to the first refused |
| `EqualityLookup.HeldIsMet` | crates/kimmy-api/src/exec.rs:3407-3443 | the documents held are those some input document meets, each once |
| `EqualityLookup.Attach` | crates/kimmy-api/src/exec.rs:3445-3459 | the union of an input's buckets, each place once in scan order, is the documents that share a key with it |
| `EqualityLookup.CopyEach` | crates/kimmy-api/src/exec.rs:3466-3486 | the copies of each input document are attached and charged in turn, or the first refusal |
| `EqualityLookup.Lookup` | crates/kimmy-api/src/exec.rs:3389-3487 | every input document gets exactly the foreign documents sharing a key with it, in scan order; refused as too many held, or as too many attached, each exactly when it should be, and otherwise at the first document that cannot be held or array that cannot be attached, in that order |
| `GraphLookup.ReachIsChain` | crates/kimmy-api/src/exec.rs:3828-3859 | rounds of the walk reach exactly the ends of chains of that length |
| `GraphLookup.AnswerIsShortest` | crates/kimmy-api/src/exec.rs:3828-3859 | the answer is exactly the documents whose shortest chain is short enough, each with that length, by length and then scan order |
| `GraphLookup.AnswerHoldsEachOnce` | crates/kimmy-api/src/exec.rs:3828-3859 | no document is in an answer twice |
| `GraphLookup.AnswerIsFixed` | crates/kimmy-api/src/exec.rs:3828-3859 | once a round finds nothing new, no deeper limit changes the answer |
| `GraphLookup.FindLevel` | crates/kimmy-api/src/exec.rs:3831-3839 | a round finds exactly the documents at its depth |
| `GraphLookup.Round` | crates/kimmy-api/src/exec.rs:3828-3858 | a round keeps the walk's meaning, and leaves a frontier only if it visited more |
| `GraphLookup.Walk` | crates/kimmy-api/src/exec.rs:3824-3859 | the walk gives the answer whatever cycles the links make, within one round more than there are documents, or is refused exactly when it passes the ceiling |
| `GraphLookup.RefusedAtCeiling` | crates/kimmy-api/src/exec.rs:3852-3860 | answers that together pass the ceiling are refused, and a refusal for their number means they pass it |
| `GraphLookup.AnswersMeaning` | crates/kimmy-api/src/exec.rs:3793-3875 | each input document's answer is what chains from its own keys reach within the depth, with the distance |
| `GraphLookup.AttachAllMeaning` | crates/kimmy-api/src/exec.rs:3793-3875 | answers are attached in turn, to the last or to the first with which the ceiling is passed or, within it, the charge refused |
| `GraphLookup.GraphLookup` | crates/kimmy-api/src/exec.rs:3793-3875 | every input document gets its answer, or the stage is refused at the first whose answer passes the ceiling or cannot be attached |
| `Orders.KeysAreTransitive` | crates/kimmy-query/src/shape.rs:90-99 | comparing key by key with descending keys is transitive |
| `Orders.OrderIsUnique` | crates/kimmy-api/src/exec.rs:540-554 | the same elements have one order |
| `Orders.OfferIsTake` | crates/kimmy-api/src/exec.rs:612-636 | offering to the least `n` of a sorted list gives the least `n` of the list with the offer inserted |
| `SortedFind.BeforeIsStrict` | crates/kimmy-query/src/shape.rs:80-99 | the sort's order is a strict order |
| `SortedFind.TiebreakIsTotal` | crates/kimmy-api/src/exec.rs:525-538 | with the `_id` tie-break any two documents are told apart |
| `SortedFind.StableIsTiebroken` | crates/kimmy-api/src/exec.rs:525-538 | on matches in `_id` order, sorting with the tie-break is a stable sort without it |
| `SortedFind.ArrivalOrderIsIrrelevant` | crates/kimmy-api/src/exec.rs:540-554 | whatever order the matches arrive in, the result is that stable sort |
| `SortedFind.StableSortMeaning` | crates/kimmy-query/src/shape.rs:80-99 | that sort is the matches, each before another by the first key on which they differ, smaller first or, for a descending key, larger first, and by the smaller `_id` if they differ on none |
| `SortedFind.TopK.TakeOffer` | crates/kimmy-api/src/exec.rs:612-636 | the window holds what displacing its largest by a smaller offer gives, each with its keys and shape |
| `SortedFind.TopK.IntoSorted` | crates/kimmy-api/src/exec.rs:638-651 | by place: as many as the window holds from `skip` on, each the shape of the document that far in; or the refusal of the first of those that has none |
| `SortedFind.FindSorted` | crates/kimmy-api/src/exec.rs:390-420 | by place in the stable sort of every match: from `skip` on, `limit` documents or as many as there are, each in its shape; or the refusal of the first of those that has none; documents off the page are not judged |
| `Outcomes.PageIsUnique` | crates/kimmy-api/src/exec.rs:638-651 | what a page must be by place leaves one page |
| `Reads.Recheck.Take` | crates/kimmy-api/src/exec.rs:839-865 | one candidate is examined as a scan examines it, the bound before the candidate, and says whether to go on |
| `Reads.VisitRows` | crates/kimmy-api/src/exec.rs:839-865 | candidates through one recheck are visited up to the bound or the first error |
| `Reads.VisitMeaning` | crates/kimmy-api/src/exec.rs:839-865 | by the places of the rows: the first so many the filter accepts, with every row before that rejected, or the error of the first row it fails on, unless the bound is reached before it |
| `Reads.VisitOfCandidates` | crates/kimmy-api/src/exec.rs:1027-1139 | rows the filter rejects can be left out of a scan |
| `Reads.ProbeKeys` | crates/kimmy-api/src/exec.rs:1035-1051 | probing sorted keys past a cursor gives the rows under them in key order, misses passed over |
| `Reads.BeyondMeaning` | crates/kimmy-api/src/exec.rs:1035-1051 | the rows past a cursor are those from one place on: at or under its key before it, above it from there |
| `Reads.VisitMatching` | crates/kimmy-api/src/exec.rs:1007-1139 | whichever access path answers, the read is the scan from the cursor, bounds and errors included, also when an index is found changed |
| `CursorPaging.Find` | crates/kimmy-api/src/exec.rs:422-480 | from the rows themselves: of the first `skip + limit` past the cursor that the filter accepts, those from the place `skip` on, each in its shape, or the first refusal among them, or the filter's failure on a row before enough were found; a cursor exactly for a full page without `skip`, taken from the row and not from what is shown of it |
| `CursorPaging.PageOfWhole` | crates/kimmy-api/src/exec.rs:422-480 | where the filter fails on nothing, the page is, place by place, `limit` from `skip` on of everything past the cursor that it accepts |
| `CursorPaging.NoCursorForLimitZero` | crates/kimmy-api/src/exec.rs:477-523 | a page of no documents offers no cursor |
| `CursorPaging.PageAndRest` | crates/kimmy-api/src/exec.rs:367-380 | a full page and what is past its cursor make the whole read, and less is left |
| `CursorPaging.FailedPageFails` | crates/kimmy-api/src/exec.rs:422-477 | a page that fails is a failure of the whole read |
| `CursorPaging.FollowCursors` | crates/kimmy-api/src/exec.rs:367-380 | following cursors ends, shows every match once in order, in pages all full but the last, by any sound path per page, and fails exactly when one read of everything fails |
| `MemoryAccount.ExactStep` | crates/kimmy-api/src/exec.rs:2679-2728 | one operation of a read keeps its books exact |
| `MemoryAccount.ReadLeaseIsExact` | crates/kimmy-api/src/exec.rs:2625-2643 | over every run of a read, the lease, unless open already, is made exactly when more than the free keys have been held at once; before that nothing is charged, and from then on exactly the keys held now, on top of what an open lease had |
| `MemoryAccount.FindWithinWindowIsFree` | crates/kimmy-api/src/exec.rs:2625-2643 | a `find` has a lease exactly when more keys than its window, at most 10,000, and one more have been held at once, and is charged for the keys held then and nothing before |
| `MemoryAccount.ReadReturnsEverything` | crates/kimmy-api/src/exec.rs:2720-2728 | once the keys are all given back, nothing of them is on the lease |
| `MemoryAccount.WriteLeaseIsPeak` | crates/kimmy-api/src/exec.rs:2645-2748 | over every run of a write: the keys counted are those taken since they were last all let go, the documents those taken while the lease was open and not let go since; the lease is open exactly when more than the ceiling of keys have been held at once, and stands at the most keys and documents together came to at any point since |
| `MemoryAccount.LaterChunkAsksNothing` | crates/kimmy-api/src/exec.rs:2653-2660 | a later chunk that never holds more than was held before asks the pool for nothing at any of its operations |
| `MemoryAccount.Lease.Charge` | crates/kimmy-query/src/budget.rs:547-590 | the bytes are on the lease whether or not they are granted, and a charge of nothing is never refused |
| `MemoryAccount.Lease.Release` | crates/kimmy-query/src/budget.rs:632-640 | no more goes back than the lease holds |
| `MemoryAccount.IndexKeys.OfAFind` | crates/kimmy-api/src/exec.rs:2631-2643 | the account of a `find` starts without a lease, with its window and one more free |
| `MemoryAccount.IndexKeys.OfAWrite` | crates/kimmy-api/src/exec.rs:2661-2676 | the account of a write starts without a lease, with as many keys free as a write may match, and keeps its lease |
| `MemoryAccount.IndexKeys.Over` | crates/kimmy-api/src/exec.rs:2615-2623 | an account over a lease that is open already, whatever it holds |
| `MemoryAccount.IndexKeys.TakeOne` | crates/kimmy-api/src/exec.rs:2680-2706 | taking a key changes the account as the specification does, and goes through exactly when the pool grants it or it asks for nothing |
| `MemoryAccount.IndexKeys.GiveOne` | crates/kimmy-api/src/exec.rs:2708-2718 | giving a key back changes the account as the specification does |
| `MemoryAccount.IndexKeys.GiveAll` | crates/kimmy-api/src/exec.rs:2720-2728 | giving every key back does too, and leaves a kept lease alone |
| `MemoryAccount.IndexKeys.TakeMatch` | crates/kimmy-api/src/exec.rs:2736-2748 | a matched document is counted only on a lease the keys have made, charged only past it, and goes through exactly when the pool grants that or nothing is asked |
| `MemoryAccount.IndexKeys.GiveAllMatches` | crates/kimmy-api/src/exec.rs:2750-2752 | letting the documents go leaves the lease alone |
| `AnswerBody.ChunkWriter.Write` | crates/kimmy-api/src/limits.rs:548-569 | everything is written, after what was there, in full chunks and a shorter last one |
| `AnswerBody.ChunkWriter.Finish` | crates/kimmy-api/src/limits.rs:536-545 | the chunks hold the bytes written in order, all full but the last, none empty |
| `AnswerBody.HeldBody.PollFrame` | crates/kimmy-api/src/limits.rs:440-458 | a piece of at most a chunk that is the front of what is left, or nothing exactly when all is handed over; only then is the hold let go |
| `AnswerBody.HeldBody.IsEndStream` | crates/kimmy-api/src/limits.rs:460-462 | the end is reported exactly when no byte is left |
| `AnswerBody.HeldBody.SizeHint` | crates/kimmy-api/src/limits.rs:464-466 | the size is exact at every point |
| `AnswerBody.HandOver` | crates/kimmy-api/src/limits.rs:398-467 | polling to the end hands over every byte in order in pieces of at most a chunk; the hold is there after every piece, and the poll after the last lets it go |
| `AnswerBody.WriteAndHandOver` | crates/kimmy-api/src/limits.rs:418-574 | the pieces of a body written in any sequence of writes are the bytes of those writes in order, with the hold kept to the last |
| `AnswerBody.ChargeMeaning` | crates/kimmy-api/src/exec.rs:2991-3030 | nothing is refused exactly when every running total is granted, and a refusal is at the first that is not |
| `AnswerBody.ConcludeValue` | crates/kimmy-api/src/exec.rs:2995-3006 | the answer as a value, with the charges of each document in turn |
| `AnswerBody.AnswerText` | crates/kimmy-api/src/exec.rs:3007-3028 | the compact text of that value is the opening, the documents between commas, and the count |
| `JsonText.TextForms` | crates/kimmy-api/src/exec.rs:3007-3028 | what null, true, false, a number and a text are written as |
| `JsonText.ItemForms` | crates/kimmy-api/src/exec.rs:3007-3028 | an array is written item by item between brackets |
| `JsonText.FieldForms` | crates/kimmy-api/src/exec.rs:3007-3028 | an object is written field by field, each its quoted key, a colon and its value, between braces |
| `AnswerBody.WriteDocuments` | crates/kimmy-api/src/exec.rs:3015-3026 | the documents between commas, each charged by the bytes it took, with the refusal at the same place |
| `AnswerBody.ConcludeBody` | crates/kimmy-api/src/exec.rs:3007-3037 | the body holds the bytes of the value form in full chunks, is refused at the same document, and leaves the same charge |
| `AnswerBody.Respond` | crates/kimmy-api/src/exec.rs:2991-3039 | from documents to the wire: the pieces are the text of the answer as a value, with the hold kept to the last, or the refusal is that of the charges |
| `ExtendedJson.HexRoundTrip` | crates/kimmy-api/src/json.rs:244-268 | a binary's subtype is read back from its two digits |
| `ExtendedJson.SortAscends` | crates/kimmy-api/src/json.rs:273-292 | a regex's options are the same characters in order |
| `ExtendedJson.NamesAreDistinct` | crates/kimmy-api/src/json.rs:184-309 | each wrapper's name is read as that wrapper |
| `ExtendedJson.ReadIsReadable` | crates/kimmy-api/src/json.rs:143-164 | what the reader gives holds no type that prints as another, no document that looks like a wrapper, and regex options in order |
| `ExtendedJson.ScalarRoundTrip` | crates/kimmy-api/src/json.rs:325-373 | every type that holds no others prints to what reads back as itself, exactly when it is one the reader gives |
| `ExtendedJson.PrintThenRead` | crates/kimmy-api/src/json.rs:325-381 | for every BSON value, printing and reading gives it back, up to integer width and NaN, if and only if it is one the reader can give |
| `ExtendedJson.NarrowKeeps` | crates/kimmy-api/src/json.rs:169-181 | narrowing integers and joining NaNs keeps the value and how it prints |
| `ExtendedJson.ReadPrintRead` | crates/kimmy-api/src/json.rs:143-373 | whatever the reader accepts, printing and reading it again succeeds, gives the same value, and prints as it did |
| `WireForms.ReadsPlain` | crates/kimmy-api/src/json.rs:143-181 | null, true, false, texts and numbers as they are; a whole number is 32 bits wide if it fits, else 64, else a double |
| `WireForms.ReadsIntegers` | crates/kimmy-api/src/json.rs:215-222 | `$numberLong` and `$numberInt` give the integer their text parses to at that width, or the error of that name |
| `WireForms.ReadsTexts` | crates/kimmy-api/src/json.rs:193-243 | `$oid`, `$numberDouble` and `$numberDecimal` give what their text parses to, or the error of that name |
| `WireForms.TextsOnly` | crates/kimmy-api/src/json.rs:193-243 | none of those five takes anything but a text |
| `WireForms.ReadsDates` | crates/kimmy-api/src/json.rs:197-214 | `$date` takes milliseconds, a date text, or an object with milliseconds as a `$numberLong` text |
| `WireForms.DatesOnly` | crates/kimmy-api/src/json.rs:197-214 | and nothing else |
| `WireForms.ReadsBinaryData` | crates/kimmy-api/src/json.rs:244-268 | `$binary` decodes its `base64`; without a `subType` it is generic, with two digits it is that |
| `WireForms.BinaryDataOnly` | crates/kimmy-api/src/json.rs:244-268 | it is refused without base 64 that decodes, or with any other subtype |
| `WireForms.HexForms` | crates/kimmy-api/src/json.rs:258-266 | a subtype is its high digit and then its low one, read in either case and written in lower |
| `WireForms.ReadsRegexParts` | crates/kimmy-api/src/json.rs:273-292 | `$regularExpression` of exactly `pattern` and `options` gives the pattern and the options in order |
| `WireForms.RegexOnly` | crates/kimmy-api/src/json.rs:273-292 | and is refused otherwise, a NUL in either included |
| `WireForms.ReadsTimestampParts` | crates/kimmy-api/src/json.rs:293-304 | `$timestamp` of exactly `t` and `i` gives the time and the increment when both are 32-bit |
| `WireForms.TimestampOnly` | crates/kimmy-api/src/json.rs:293-304 | and is refused otherwise |
| `WireForms.ReadsExtremes` | crates/kimmy-api/src/json.rs:305-306 | `$minKey` is the least value and `$maxKey` the greatest, whatever they hold |
| `WireForms.NamesAreThese` | crates/kimmy-api/src/json.rs:192-308 | the names read as wrappers are those eleven |
| `WireForms.ReadsArray` | crates/kimmy-api/src/json.rs:149-151 | an array is read item by item, or fails as the first item that does |
| `WireForms.ReadsDocument` | crates/kimmy-api/src/json.rs:152-162 | an object that is not one field of those names is read field by field under its keys, or fails as the first that does |
| `WireForms.PrintsPlain` | crates/kimmy-api/src/json.rs:326-363 | what the plain types print as |
| `WireForms.PrintsDoubles` | crates/kimmy-api/src/json.rs:311-336 | a finite double is a number, and the others are spelled `NaN`, `Infinity` and `-Infinity` |
| `WireForms.PrintsTexts` | crates/kimmy-api/src/json.rs:339-359 | an object id, a decimal and code print as texts under their names |
| `WireForms.PrintsNumbers` | crates/kimmy-api/src/json.rs:340-358 | a date and the two extremes print as numbers under their names |
| `WireForms.PrintsBinaryData` | crates/kimmy-api/src/json.rs:341-349 | binary data prints its base 64 and its subtype |
| `WireForms.PrintsRegexParts` | crates/kimmy-api/src/json.rs:350-352 | a regular expression prints its pattern and its options |
| `WireForms.PrintsTimestampParts` | crates/kimmy-api/src/json.rs:353-355 | a timestamp prints its time as `t` and its increment as `i` |
| `WireForms.PrintsItems` | crates/kimmy-api/src/json.rs:337 | an array prints item by item |
| `WireForms.PrintsDocument` | crates/kimmy-api/src/json.rs:338-373 | a document prints entry by entry under its keys, and code with a scope as the two |
| `CivilDate.YearOfEraIsRight` | crates/kimmy-core/build.rs:41 | the year of the 400-year era is the one the day falls in |
| `CivilDate.CivilIsRight` | crates/kimmy-core/build.rs:37-48 | for every day count the result is a Gregorian date, and counting year by year and month by month to it gives the count |
| `CivilDate.CivilInverts` | crates/kimmy-core/build.rs:37-48 | every date from 1970 on comes back from its count |
| `CivilDate.ConsecutiveDays` | crates/kimmy-core/build.rs:37-48 | the next day's date is the next date, across months, leap years and eras |
| `CivilDate.FirstDay` | crates/kimmy-core/build.rs:37-48 | day zero is 1970-01-01 |
| `CivilDate.TextIsFullDate` | crates/kimmy-core/build.rs:48-49 | for every time the text reads as the date the day counts to; it has the ten characters of a full-date of section 5.6 of RFC 3339 exactly to the year 9999 |
| `UnownedWarnings.SaidIsExact` | crates/kimmy-api/src/expiry.rs:345-376 | a check says exactly the unowned names not said within the gap, each once |
| `UnownedWarnings.SaidInOrder` | crates/kimmy-api/src/expiry.rs:345-376 | in the order of the view |
| `UnownedWarnings.Unowned.Say` | crates/kimmy-api/src/expiry.rs:345-376 | what is said and what is remembered after a check |
| `UnownedWarnings.RunIsSpacedOut` | crates/kimmy-api/src/expiry.rs:324-376 | over every run of checks at times that do not go back, two warnings about one collection are at least the gap apart, and the map is exactly the last warnings within the gap |
| `UnownedWarnings.DueIsWarned` | crates/kimmy-api/src/expiry.rs:345-376 | at every check of such a run, an unowned collection is warned about exactly when no earlier warning about it is within the gap |

## Left out

- Entries a member holds from a snapshot and not as history are not modelled: every entry of an oplog arrived as a write or in its origin's order.
- Retention collecting entries while a plan runs, the budget that can end an oplog walk early, and the read by arrival order are not modelled; a plan sees the oplog of one moment.
- Backoff delays, the bound on concurrent deliveries, signing, egress checks and the subscription registry are not modelled; a delivery is accepted or not, and acknowledged or not.
- Which member owns a subscription is not modelled; any member may run a pass at any time, which includes every assignment.
- Encoding of values to keys, `canonical_cmp`, field paths and the clauses of a filter are parameters with their contract stated (`Semantics.Valid`, `Ranking.Valid`, `Join`, `Graph`).
- A clause that draws a random number is not modelled: a clause's truth is a function of the document and the variables.
- `$or` and `$nor` are single clauses of a conjunction here, as they are to the splitter.
- The ceiling on how many foreign documents a join reads whole, and its refusal while reading, are not modelled.
- The stages of a sub-pipeline after its leading `$match`, and how much an array, a document or a copy of the foreign side counts, are parameters; `$unionWith` and `$facet` are not modelled.
- LookupJoin.LookupPipeline: does not model the charges for the foreign side and for the copy each input document is given, which only a lease sees.
- GraphLookup.GraphLookup: takes each input document's start keys, already evaluated.
- `find` clamping `limit`, refusing a sort window over its ceiling, refusing a cursor together with a sort or a skip, stamps, and query statistics are not modelled.
- Reads.VisitMatching: takes from the planner and the engine that an index's candidates include every row the filter does not reject, in key order; the order an index finds cheapest, for a count or a sort, is covered by `SortedFind.FindSorted`, which takes matches in any order.
- CursorPaging.FollowCursors: the collection does not change between the pages.
- The binary heap is the list of what it holds in order; only its contents and its largest element are read.
- Sums are unbounded: no counter saturates at the machine's word.
- The pool's own arithmetic is not modelled; whether a charge is granted is the pool's answer.
- AnswerBody.ConcludeBody: a character stands for a byte, and the deadline between documents is not modelled.
- ExtendedJson.ReadPrintRead: object ids, dates as text, decimals, base64 and the text of doubles are given by their parsers and printers, of which it is assumed that what is printed parses back.
- ExtendedJson.Read: an object's keys are taken to be distinct, as the map that holds them makes them.
- UnownedWarnings.Unowned.Say: the reason a collection is unowned chooses only the wording and is left out.
- Storage, replication transport, authorization, HTTP routing, query parsing, vector search, change streams and administration are not part of this model.
