# Dyson: verified models of the durable harness

Dyson is an agent runtime. Its harness promises that tool calls may run concurrently without changing
the outcome, that a crash anywhere neither repeats a side effect nor loses a recorded one, and that what
is cached, compacted, mirrored or migrated keeps its meaning. The modules here model the code that keeps
these promises, in Dafny 4.11, and prove them. `dafny verify dfyconfig.toml` checks everything.

## The models

| module | what it models |
|---|---|
| `Scheduler` | resource claims of a batch of tool calls are layered into phases |
| `Serializability` | what the phases are for: calls as sequences of atomic actions on a shared store |
| `Journal` | the append-only run journal over bytes, torn by crashes, repaired by the next append |
| `Protocol` | run events and the incremental index of side effects without a known outcome |
| `ProjectionCache` | the journal store with its cache of unresolved effects, against foreign writers |
| `Dispatch` | receipts, journal records, run checkpoints, effects, crashes, resumptions and reconciliations as steps |
| `DispatchSafety` | what every interleaving of those steps keeps |
| `DispatchResume` | which calls without a known outcome a resumption sees, in every run of the protocol |
| `DispatchJournal` | the journal of that protocol is the byte-level journal |
| `Sequencing` | the numbering of its events |
| `Continuation` | the run cursor and its transitions over whole runs |
| `Checkpoint` | saved runs, the human answer they wait for, their cancellation and resumption |
| `Compaction` | head, summary and tail, and the in-place repair of tool calls |
| `Grader` | the evaluation of a run from its events |
| `Taint` | assignment propagation and the symbol index |
| `TaintSearch`, `TaintTrace` | the worklist search over it, as a function of its stack and as the loop that computes it |
| `TaintFlow` | what is tainted and what a step of the search is, in terms of a program's assignments and calls alone |
| `TaintCoverage`, `TaintRace`, `TaintExample` | what the search covers, a program whose sink it misses, and one it reports |
| `Coalescer` | the latest-wins persister with its worker, wake-up permit and flush barrier |
| `StateSync` | the worker that mirrors state files to the swarm, key by key |
| `Migration` | the move from a flat chats directory to one directory per chat, rename by rename |
| `MigrationRuns`, `MigrationRerun` | its starts, cut off anywhere or not, and when a start after a crash does harm |
| `Media` | transcripts whose images and documents are stored in files of their own |
| `WordBoundary` | text matches between non-identifier bytes |
| `Utf8`, `Wrappers` | well-formed UTF-8, and the usual option and result types |

Code that changes state is modelled by classes and methods whose postconditions give the new state by a
function of the old one; the concurrent and crash-prone protocols (`Dispatch`, `Coalescer`) are state
machines in which every durable write, atomic access or effect is one step, and a run is any sequence of
steps. Encodings, hashes, clocks, token estimates, answers of the network, summaries of the model and the
points at which a crash strikes are parameters, and the results hold for all of them.

## Where the code does less than its comments say

Each of these is proved, with the exact condition where there is one.

- A crash that tears a journal record inside a multi-byte character makes loading the journal fail until
  the next append repairs it (`Journal.LoadAfterHistory`, `Journal.TearInsideCharacterBlocksLoading`).
- A complete last record without its newline is visible to the loader and dropped by the next append. The
  cached projection then differs from a replay exactly when the drop is not harmless
  (`ProjectionCache.AcknowledgedAppendCoherence`), as when a finish is lost (`ProjectionCache.DropFinish`).
- A run can be resumed past a started call without a recorded outcome exactly when the observation of that call was
  saved although neither its result nor its finish was (`DispatchResume.ResumesExactly`,
  `DispatchResume.ObservedOpenIsResumed`).
- Reconciling the run of a live process takes the next sequence number of that process, unless it is ahead of
  the journal (`Sequencing.StepKeepsSequenceExactly`, `Sequencing.LiveReconciliationCollides`).
- A stored human answer is kept when its run goes on, so a later pause cannot be resumed
  (`Checkpoint.ResumableExactly`, `Checkpoint.StoredAnswerBlocksLaterResume`); nor can such a run be resumed
  again after a failing write cut its resumption off behind the first step (`Checkpoint.CutResumptionExactly`).
- `Observed` is accepted while waiting, so a waiting run can lose the request it waits for
  (`Continuation.WaitingLosesRequestExactly`).
- A generation is taken before the slot is locked, so overlapping `schedule` calls can leave the older
  transcript on disk (`Coalescer.LatestWinsExactly`, `Coalescer.OverlapCanLoseNewest`).
- Announcing a save to nobody does not update the watch value, so a flush can wait for a save that is
  already done (`Coalescer.CoveredReturns`, `Coalescer.UncoveredWaits`, `Coalescer.FlushCanMissItsSave`).
- A media file that a crash cut short is never rewritten (`Media.TornMediaIsPermanent`).
- The repair of a conversation only removes messages that are orphaned results through and through
  (`Compaction.RepairPairsExactly`, `Compaction.MixedResultSurvives`).
- A file that was mirrored, edited into something the swarm rejects, and then removed stays on the swarm:
  the rejection also parks the tombstone (`StateSync.RejectedEditHidesDeletion`). The doc comment counts every
  4xx answer but 408 and 429 as a rejection; the code, and the model, only 400, 413, 415 and 422.
- A start of the migration that is cut off before it writes the version is followed by one that takes the directory
  of a chat whose id ends in `_media` for the media directory of another chat, and moves it there
  (`MigrationRerun.SurvivesCrashExactly`, `MigrationRerun.ChatBecomesMedia`).
- The tracer marks a point as visited before it gives the point up for its depth. If a point is reached both at
  the depth limit and below it, a sink within the limit can be missed (`TaintCoverage.FollowsAllExactly`,
  `TaintRace.StackOrderLosesSink`); otherwise none is (`TaintTrace.Trace`).
- Bounded occurrences that overlap are not all reported (`WordBoundary.ReportIsCompleteExactly`,
  `WordBoundary.SecondOfOverlappingIsMissing`).

## Model

| member | source | states |
|---|---|---|
| `Scheduler.DependencyIsConflict` | crates/dyson-harness/src/scheduler.rs:300-338 | the set lookups decide exactly the symmetric conflict relation: a shared resource that one side writes, or a barrier claim |
| `Scheduler.DependencyEdges` | crates/dyson-harness/src/scheduler.rs:172-181 | the edge list of a call names all and only the earlier calls it depends on |
| `Scheduler.Depths` | crates/dyson-harness/src/scheduler.rs:183-194 | the loop computes the recursive depth of every call |
| `Scheduler.PhasesForAccesses` | crates/dyson-harness/src/scheduler.rs:169-223 | the algorithm returns the layering by depth |
| `Scheduler.AnalyzePlans` | crates/dyson-harness/src/scheduler.rs:130-147 | the phases hold every call once; calls that share a key one of them declares Write, or of which one claims the global key, run in different phases in batch order, and no schedule that keeps this order is shorter |
| `Scheduler.NoConflictInLayer` | crates/dyson-harness/src/scheduler.rs:341-350 | the check for conflicts inside a layer never finds one |
| `Scheduler.EmptyLayerOnlyInEmptyBatch` | crates/dyson-harness/src/scheduler.rs:196-203 | no layer up to the maximal depth is empty unless there are no calls |
| `Scheduler.LayeringPartitions` | crates/dyson-harness/src/scheduler.rs:196-223 | every call is in exactly the phase of its depth, once, in batch order; no phase is empty |
| `Scheduler.PhasesAreConflictFree` | crates/dyson-harness/src/scheduler.rs:205-219 | no phase holds two conflicting calls; a Sequential phase is exactly a single call of positive depth |
| `Scheduler.DepthIsLongestChain` | crates/dyson-harness/src/scheduler.rs:183-194 | the depth of a call is the length of the longest conflict chain that ends in it |
| `Scheduler.LayeringIsOptimal` | crates/dyson-harness/src/scheduler.rs:169-223 | no schedule that keeps conflicting calls in order has fewer phases or runs a call earlier |
| `Serializability.IndependentCommute` | crates/dyson-harness/src/scheduler.rs:300-338 | actions of calls without a dependency commute, store and observations alike |
| `Serializability.TracesEquivalent` | crates/dyson-harness/src/scheduler.rs:300-338 | traces that order dependent actions the same way end in the same world |
| `Serializability.PhasedExecutionIsSerializable` | crates/dyson-harness/src/scheduler.rs:169-223 | any interleaving inside the phases, phases in order, ends as running the calls one by one |
| `Serializability.ConflictIsExact` | crates/dyson-harness/src/scheduler.rs:300-338 | two calls are separated exactly when some permitted actions can tell their order, or one of them claims nothing |
| `Journal.CommittedIsUnique` | crates/dyson-persistence/src/disk.rs:401-424 | terminated lines followed by a newline-free rest is the only such split of a file |
| `Journal.ScanCommitted` | crates/dyson-persistence/src/disk.rs:401-424 | the backward scan finds the last newline for any chunk size, and terminates |
| `Journal.JournalFile.AppendRunEvents` | crates/dyson-persistence/src/disk.rs:368-428 | an append repairs the tail and writes the batch, or as many of its bytes as the crash allows |
| `Journal.JournalFile.LoadRunEvents` | crates/dyson-persistence/src/disk.rs:498-524 | the load succeeds exactly when the file is UTF-8 and every non-blank line decodes, but for an unterminated last one, and returns the decoded lines in order |
| `Journal.LoadMeaning` | crates/dyson-persistence/src/disk.rs:498-524 | the same of the replay: it is the load of the lines into which the file splits, whatever the bytes are |
| `Journal.MalformedRecordBlocksLoading` | crates/dyson-persistence/src/disk.rs:507-522 | a terminated, non-blank line that does not decode makes loading fail, whatever stands before and behind it |
| `Utf8.WellFormedIsEncoded` | crates/dyson-persistence/src/disk.rs:498-506 | bytes are well-formed exactly when they encode some sequence of Unicode scalar values |
| `Journal.AppendExtendsReplay` | crates/dyson-persistence/src/disk.rs:368-428 | an acknowledged append to a loadable journal keeps the committed events, drops the torn one, adds the batch |
| `Journal.JournalIsCrashSafe` | crates/dyson-persistence/src/disk.rs:368-428 | after any history the terminated part is every acknowledged event in order and of each crashed batch a prefix |
| `Journal.LastAppend` | crates/dyson-persistence/src/disk.rs:401-428 | one append, complete or cut anywhere, extends the committed part by whole records of its batch |
| `Journal.CommittedNeverLost` | crates/dyson-persistence/src/disk.rs:401-424 | later appends never remove a committed byte |
| `Journal.LoadAfterHistory` | crates/dyson-persistence/src/disk.rs:498-524 | loading after any history fails exactly when the torn tail is not UTF-8, and otherwise returns the kept events |
| `Journal.TornRecordIsLostEvent` | crates/dyson-persistence/src/disk.rs:507-522 | the only torn record that loads is one whole unacknowledged event without its newline |
| `Journal.TearInsideCharacterBlocksLoading` | crates/dyson-persistence/src/disk.rs:498-524 | a tear inside a character blocks loading until the next append |
| `Protocol.ToolOutcomeIndex.Apply` | crates/dyson-harness/src/protocol.rs:197-221 | one event updates the index as the projection function says |
| `Protocol.ToolOutcomeIndex.UnresolvedCalls` | crates/dyson-harness/src/protocol.rs:223-232 | the listing holds exactly the open calls, sorted by run and call id |
| `Protocol.UnresolvedToolOutcomes` | crates/dyson-harness/src/protocol.rs:181-187 | the batch query lists exactly the calls that some event starts and no later event of the run finishes or reconciles, with the name and key of that start, in lexicographic order of run and call id |
| `Protocol.ListingMeaning` | crates/dyson-harness/src/protocol.rs:181-232 | the same of every listing of the projection |
| `Protocol.ProjectMeaning` | crates/dyson-harness/src/protocol.rs:197-221 | a call is open exactly when some start of it is followed by no finish or reconciliation, and the entry is that of the last opening |
| `Protocol.UnresolvedMeansStartedAndNotClosed` | crates/dyson-harness/src/protocol.rs:181-232 | the same, as the condition under which a call is unresolved |
| `Protocol.ListingIsUnique` | crates/dyson-harness/src/protocol.rs:223-232 | the sorted listing of an index is one value |
| `ProjectionCache.BatchDecides` | crates/dyson-harness/src/protocol.rs:197-221 | a batch that touches a call decides its entry whatever was there; otherwise it leaves the entry alone |
| `ProjectionCache.TornHarmlessExactly` | crates/dyson-persistence/src/disk.rs:405-424 | replaying a dropped record or not comes to the same exactly when the record changes nothing or the batch touches its call |
| `ProjectionCache.DropFinish` | crates/dyson-persistence/src/disk.rs:368-496 | through the store: a finish loses its newline, a load caches it, the next append drops it, and from then on a load lists nothing while a replay of the file lists the open call |
| `ProjectionCache.AcknowledgedAppendCoherence` | crates/dyson-persistence/src/disk.rs:436-449 | after an acknowledged append the advanced projection is the replay exactly when the dropped record was harmless |
| `ProjectionCache.AnswerIsUnique` | crates/dyson-persistence/src/disk.rs:453-496 | full replay determines the answer |
| `ProjectionCache.DiskHistory.AppendRunEvents` | crates/dyson-persistence/src/disk.rs:368-451 | file contents after an append, complete or not; the cache entry is right exactly in the harmless case, all others stay right |
| `ProjectionCache.DiskHistory.WriteBatch` | crates/dyson-persistence/src/disk.rs:399-428 | tail repair and write give the file its new content and a stamp that no cache entry has |
| `ProjectionCache.DiskHistory.AdvanceProjection` | crates/dyson-persistence/src/disk.rs:436-449 | the entry is advanced if it described the file before, dropped if not |
| `ProjectionCache.DiskHistory.LoadUnresolvedToolOutcomes` | crates/dyson-persistence/src/disk.rs:453-496 | the answer is that of a full replay; a foreign change during the read never leaves a wrong entry behind |
| `ProjectionCache.DiskHistory.RememberProjection` | crates/dyson-persistence/src/disk.rs:487-494 | the new entry joins the others, which are dropped before it when there are 128 of them; all of them stay right |
| `ProjectionCache.DiskHistory.Serve` | crates/dyson-persistence/src/disk.rs:368-496 | over any history of appends, failed appends, loads and foreign changes every load answers as a full replay would, if no append drops a record whose loss shows |
| `DispatchJournal.AppendRefinesJournal` | crates/dyson-persistence/src/disk.rs:368-428 | the appends of the protocol model are the byte-level appends as the loader sees them |
| `DispatchSafety.StepKeepsCall` | crates/dyson/src/agent/execution.rs:400-411 | every durable write, effect, crash, resume and reconciliation keeps the invariant of every call |
| `DispatchSafety.NoFailureIsExcluded` | crates/dyson/src/agent/execution.rs:695-909 | the runs range over everything that can go wrong with a call: at each of its steps the process may crash, and every write may fail, be torn or go unacknowledged |
| `DispatchSafety.NoTransitionIsExcluded` | crates/dyson/src/agent/continuation.rs:245-278 | and over every transition the cursor accepts, with what is live and stored after it |
| `DispatchSafety.AtMostOnce` | crates/dyson/src/agent/continuation.rs:328-373 | in every interleaving with crashes, resumes and reconciliations each call's effect happens at most once |
| `DispatchSafety.EffectIsRemembered` | crates/dyson/src/agent/continuation.rs:328-373 | an effect that happened has a durable start, and its call is never dispatched again |
| `DispatchSafety.RefusalIsUnresolved` | crates/dyson/src/agent/continuation.rs:341-373 | a call is refused for an unknown outcome exactly when its receipt is pending and the projection lists it |
| `DispatchResume.UnsettledIsPendingExactly` | crates/dyson/src/agent/execution.rs:296-358 | in every run a started call without a recorded outcome is in the saved pending list, except exactly when its observation was saved while result and finish were not |
| `DispatchResume.RefusedExactly` | crates/dyson/src/agent/continuation.rs:435-437 | of the saved pending calls, resume refuses exactly those started without a recorded outcome; a receipt never is for another invocation |
| `DispatchResume.ResumesExactly` | crates/dyson/src/agent/continuation.rs:395-437 | in every reachable state an unfinished run can be resumed, as far as its calls go, exactly when every such call of it was observed all the same |
| `DispatchResume.UnknownEffectBlocksResume` | crates/dyson/src/agent/continuation.rs:366-373 | an effect without result, finish or reconciliation on record makes resume refuse, unless its observation was saved |
| `DispatchResume.CrashAfterEffectNeedsReconciliation` | crates/dyson/src/agent/persistence.rs:198-250 | a run that crashes right after its effect is not resumed before the effect is reconciled, and then resumes without dispatching it |
| `DispatchResume.UnfinishedRunIsKept` | crates/dyson/src/agent/continuation.rs:198-209 | the record of an unfinished run is never replaced by that of another run |
| `DispatchResume.DispatchesExactly` | crates/dyson/src/agent/continuation.rs:328-373 | in every reachable state a pending call is dispatched exactly when the running, saved run is not at it already, the journal neither starts nor settles it, and no result of it is saved |
| `DispatchResume.OutcomeSettles` | crates/dyson/src/agent/continuation.rs:341-365 | after its result is saved, or its finish is durable, a call is answered from the record |
| `DispatchResume.CancelEndsRun` | crates/dyson/src/agent/continuation.rs:123-153 | a cancelled run cannot be resumed, and a durable cancellation ends its events |
| `DispatchResume.ObservedOpenIsResumed` | crates/dyson/src/agent/execution.rs:401-411 | a run in which finish and result are not written, the observation is, and the run resumes past the unknown outcome |
| `DispatchSafety.ReconciliationUnblocks` | crates/dyson/src/agent/persistence.rs:198-250 | after a durable reconciliation the call is answered from the record |
| `Sequencing.MaxSequenceBounds` | crates/dyson/src/agent/continuation.rs:423-433 | the reloaded counter is the least bound of the numbers the run has in the journal |
| `Checkpoint.NextEventFollows` | crates/dyson/src/agent/continuation.rs:134-152 | the event after a reload is numbered one above the last event that the run has in the journal |
| `Sequencing.JournaledIncreasing` | crates/dyson/src/agent/persistence.rs:13-34 | appending numbers above those of their run keeps all runs increasing, whatever part of the batch arrives |
| `Sequencing.StepKeepsSequenceExactly` | crates/dyson/src/agent/persistence.rs:13-34 | a step keeps each run's numbers strictly increasing, and the live counter above them, exactly when it is no reconciliation that takes the live process's next number |
| `Sequencing.SequencesIncrease` | crates/dyson/src/agent/persistence.rs:219-242 | the numbers increase over whole runs of the protocol without such a reconciliation |
| `Sequencing.CollisionBreaksOrderExactly` | crates/dyson/src/agent/persistence.rs:219-225 | after such a reconciliation the next event that arrives repeats a number exactly when the reconciliation is durable |
| `Sequencing.LiveReconciliationCollides` | crates/dyson/src/agent/persistence.rs:219-225 | a run in which that happens, from its begin on |
| `Continuation.RunInvariant` | crates/dyson-harness/src/continuation.rs:71-111 | in every run pending ids are non-empty, distinct, seen and of the last accepted batch; the iteration counts the batches |
| `Continuation.SelectionsAreUnique` | crates/dyson-harness/src/continuation.rs:74-86 | accepted batches have pairwise disjoint, distinct, non-empty ids |
| `Continuation.SelectsExactly` | crates/dyson-harness/src/continuation.rs:74-87 | in every run a batch is accepted exactly when the run is running, nothing is pending, and its ids are non-empty, distinct and in no earlier accepted batch; then all of it is pending |
| `Continuation.TransitionsExactly` | crates/dyson-harness/src/continuation.rs:91-107 | in which states a run pauses, waits, resumes and finishes, and that nothing but its state changes |
| `Continuation.RemovesExactly` | crates/dyson-harness/src/continuation.rs:88-104 | observing a call, or answering its request, takes out that one call and keeps the others in order |
| `Continuation.RemovesNothingElse` | crates/dyson-harness/src/continuation.rs:88-104 | an id that is not pending cannot be observed, and takes nothing out |
| `Continuation.StepFacts` | crates/dyson-harness/src/continuation.rs:71-111 | a rejected transition changes nothing; a batch is accepted only when nothing is pending; what has left never comes back in one step |
| `Continuation.SettledStaysSettled` | crates/dyson-harness/src/continuation.rs:71-111 | an id that left the pending calls never returns, over any rest of the run |
| `Continuation.FinishedIsFinal` | crates/dyson-harness/src/continuation.rs:105-107 | a finished run keeps its status and selects nothing more |
| `Continuation.WaitingLosesRequestExactly` | crates/dyson-harness/src/continuation.rs:87-104 | a waiting run loses its pending request exactly by the observation of that call |
| `Checkpoint.Agent.TakeTransition` | crates/dyson/src/agent/continuation.rs:270-278 | live and stored record after a transition that is accepted, rejected, or not saved |
| `Checkpoint.Agent.AcceptAnswer` | crates/dyson/src/agent/continuation.rs:113-122 | an answer is stored exactly when it is valid for the stored run and the store takes it |
| `Checkpoint.Agent.Cancel` | crates/dyson/src/agent/continuation.rs:123-153 | an unfinished stored run is saved as cancelled and then its last event is appended, each unless the write fails |
| `Checkpoint.Agent.ResumeRun` | crates/dyson/src/agent/continuation.rs:395-480 | which resumptions are accepted, and the live record, the stored record and the journal they leave, wherever a write fails |
| `Checkpoint.MayResumeExactly` | crates/dyson/src/agent/continuation.rs:395-437 | the conditions of a resumption state by state: an answer is given or stored, not two different ones, exactly when the run waits, and it fits the request |
| `Checkpoint.WaitingTakesNewAnswer` | crates/dyson/src/agent/continuation.rs:270-278 | a run that waits again takes exactly the fitting answers to the new request, whatever was answered before |
| `Checkpoint.ResumptionSucceeds` | crates/dyson/src/agent/continuation.rs:454-478 | a validated resumption gets the run running with exactly the calls that may still be executed |
| `Checkpoint.FirstAnswerWins` | crates/dyson/src/agent/continuation.rs:164-190 | once an answer is stored no other answer is accepted |
| `Checkpoint.ResumableExactly` | crates/dyson/src/agent/continuation.rs:164-190 | when a saved run can be resumed at all, by state and stored answer |
| `Checkpoint.StoredAnswerBlocksLaterResume` | crates/dyson/src/agent/continuation.rs:270-278 | a run whose answer was stored, then resumed and paused again, cannot be resumed |
| `Checkpoint.CutResumptionExactly` | crates/dyson/src/agent/continuation.rs:455-479 | a resumption that a failing write cuts off can be tried again exactly when nothing of it was saved or no answer had been stored |
| `Compaction.PairedMeansAnsweredLater` | crates/dyson/src/agent/compaction.rs:296-302 | pairing in terms of positions: every use has one result, in a later message |
| `Compaction.Conversation.TailBoundary` | crates/dyson/src/agent/compaction.rs:199-212 | the tail is within the budget and one more message would not be |
| `Compaction.TailIsLongest` | crates/dyson/src/agent/compaction.rs:195-212 | it is the longest suffix after the head within the budget |
| `Compaction.MiddleExistsExactly` | crates/dyson/src/agent/compaction.rs:69-80 | there is a middle to summarise exactly when what follows the head exceeds the budget |
| `Compaction.CollectToolIds` | crates/dyson/src/agent/compaction.rs:306-321 | the maps hold the last use of every used call and every call with a result |
| `Compaction.OrphanedUses` | crates/dyson/src/agent/compaction.rs:323-341 | the sorted list holds exactly the used calls without a result, last positions first |
| `Compaction.Conversation.InsertSyntheticResults` | crates/dyson/src/agent/compaction.rs:341-346 | inserting from the end puts each synthetic result right behind the last use, and nothing else moves |
| `Compaction.Conversation.RemoveOrphanedResults` | crates/dyson/src/agent/compaction.rs:348-354 | exactly the messages of nothing but orphaned results are removed, in order |
| `Compaction.Conversation.FixOrphanedToolPairs` | crates/dyson/src/agent/compaction.rs:303-355 | the repaired conversation, message by message |
| `Compaction.RepairedWithoutGroups` | crates/dyson/src/agent/compaction.rs:348-354 | without synthetic results the repair only drops fully orphaned messages |
| `Compaction.RepairPairsExactly` | crates/dyson/src/agent/compaction.rs:296-355 | the repair pairs every use with one later result exactly when every call is used once and answered at most once, later, or all its results stand alone |
| `Compaction.CompactionKeepsPairing` | crates/dyson/src/agent/compaction.rs:144-167 | for an agent's own history, head, summary and tail after the repair are paired |
| `Compaction.CompactionKeepsShape` | crates/dyson/src/agent/compaction.rs:144-167 | the result has the shape of an agent's own history again, so a later compaction is covered too |
| `Compaction.Conversation.Compact` | crates/dyson/src/agent/compaction.rs:40-186 | the history is compacted exactly when what follows the first `protect_head` messages exceeds the budget; then these messages, the summary and the longest fitting tail stand in their order, but for old summaries and wholly orphaned results, and the result is paired and of the same shape |
| `Compaction.MixedResultSurvives` | crates/dyson/src/agent/compaction.rs:348-354 | an orphaned result beside other text survives the repair unpaired |
| `Grader.EvaluateRun` | crates/dyson-harness/src/protocol.rs:238-391 | `passed` holds exactly for trajectories with the declared properties; the status of the last finish, how many attempts, distinct started calls and failed calls the run has, and its unresolved calls |
| `Grader.GradeEvents` | crates/dyson-harness/src/protocol.rs:244-357 | the loop records a failure exactly when some event fails its check |
| `Grader.ChecksArePasses` | crates/dyson-harness/src/protocol.rs:238-391 | the checks event by event and at the end are the declarative reading: ordered, started once, completed last, authorized, settled, balanced |
| `Grader.ProjectOfRun` | crates/dyson-harness/src/protocol.rs:370-373 | filtering the unresolved calls of all runs is projecting the events of the run |
| `Grader.OfRunMeaning` | crates/dyson-harness/src/protocol.rs:239-242 | what is graded is every event of the run and no other, in the order of the journal |
| `Grader.ForeignEventIgnored` | crates/dyson-harness/src/protocol.rs:239-242 | an event of another run, interleaved anywhere, changes nothing that is graded |
| `Taint.DottedPrefixMeaning` | crates/dyson-ast/src/taint/trace.rs:402-410 | a dotted prefix is a proper prefix of the list of components |
| `Taint.TaintedMeansComparable` | crates/dyson-ast/src/taint/trace.rs:384-400 | a path is tainted exactly when its components and those of a tainted path extend one another |
| `Taint.TaintedArgPositions` | crates/dyson-ast/src/taint/trace.rs:429-439 | all and only the positions with a tainted identifier |
| `Taint.BindArgs` | crates/dyson-ast/src/taint/trace.rs:441-455 | the bound parameters are those that tainted positions reach; a position beyond the list reaches all and is imprecise |
| `Taint.FinishIndex` | crates/dyson-ast/src/taint/index.rs:171-212 | every per-function list holds its entries once, by start byte and then by order of recording; every name its functions |
| `Taint.GroupByName` | crates/dyson-ast/src/taint/index.rs:172-177 | all and only the functions of a name, in order |
| `Taint.GroupByOwner` | crates/dyson-ast/src/taint/index.rs:179-193 | all and only the entries of a function, stably sorted by start byte |
| `Taint.SplitAtByte` | crates/dyson-ast/src/taint/trace.rs:248-261 | in a sorted list the running set of the two pointers is the recomputation from all assignments before a byte |
| `Taint.PropagateUntil` | crates/dyson-ast/src/taint/trace.rs:412-427 | stopping at the first assignment on or below the line equals filtering all assignments by line |
| `Taint.PropagationMonotone` | crates/dyson-ast/src/taint/trace.rs:376-388 | more taint in the seed gives at least as much everywhere |
| `TaintFlow.AssignmentMeaning` | crates/dyson-ast/src/taint/trace.rs:376-400 | an assignment taints what it assigns exactly when something it reads is comparable, by components, to a tainted path |
| `TaintFlow.TaintAtMeaning` | crates/dyson-ast/src/taint/trace.rs:248-261 | at a byte a path is tainted exactly when it is in the seed or a chain of earlier assignments of the function, each reading what the one before assigns, leads to it |
| `TaintFlow.TaintOnLineMeaning` | crates/dyson-ast/src/taint/trace.rs:412-427 | the same on a line, with the assignments on the lines above |
| `TaintFlow.StepMeaning` | crates/dyson-ast/src/taint/trace.rs:262-330 | a step of the search: a tainted argument goes into a call, a function has its name, exactly the parameters reached are tainted, and the kind of the hop tells whether the binding or the name is uncertain |
| `TaintFlow.SinkMeaning` | crates/dyson-ast/src/taint/trace.rs:213-221 | the sink is hit in its function when a sink identifier is tainted by the assignments above its line |
| `TaintFlow.UnansweredMeaning` | crates/dyson-ast/src/taint/trace.rs:262-290 | a call without an answer: something tainted goes in, and no indexed function has its name |
| `TaintExample.FlowIsReported` | crates/dyson-ast/src/taint/trace.rs:196-348 | for `y = x; s(y)` the search reports the one path from `x` through the call into `s` |
| `TaintTrace.AdvanceTo` | crates/dyson-ast/src/taint/trace.rs:248-261 | the incremental set at a call site equals propagation from scratch |
| `TaintTrace.EnterCandidates` | crates/dyson-ast/src/taint/trace.rs:291-338 | the loop pushes what the search as a function pushes: a frame for every function of the callee's name, binding its tainted arguments, within depth and room |
| `TaintTrace.ExpandFrame` | crates/dyson-ast/src/taint/trace.rs:248-339 | the walk over the call sites of a frame, with its incremental set, yields what the search as a function yields |
| `TaintCoverage.ExpansionIsExact` | crates/dyson-ast/src/taint/trace.rs:248-339 | every step the relational definition allows from a frame is queued, every call that nobody answers is reported, and nothing else |
| `TaintTrace.Search` | crates/dyson-ast/src/taint/trace.rs:196-340 | the worklist terminates with the paths and the flag of the search as a function of its stack |
| `TaintTrace.Trace` | crates/dyson-ast/src/taint/trace.rs:98-354 | the best ranked `max_paths` of the paths found, each witnessed and of at most `max_depth + 2` hops; uncut and without a race, a sink is reported exactly when a chain of `max_depth + 1` hops reaches it, and every tainted call without an answer that `max_depth` hops reach is reported |
| `TaintCoverage.FollowsAllExactly` | crates/dyson-ast/src/taint/trace.rs:202-246 | an uncut search follows every point that a chain of at most `max_depth` hops reaches, exactly when it gave up none of them |
| `TaintRace.StackOrderLosesSink` | crates/dyson-ast/src/taint/trace.rs:206-246 | a program whose sink three hops reach and the search with depth 2 does not report, though no limit cut it off |
| `TaintCoverage.ExhaustedSearchIsComplete` | crates/dyson-ast/src/taint/trace.rs:202-246 | an uncut search that gave up no such point reports a sink exactly when a chain of at most `max_depth + 1` hops reaches one |
| `TaintCoverage.ExhaustedSearchReportsUnanswered` | crates/dyson-ast/src/taint/trace.rs:262-290 | such a search also reports every tainted call without an answer that a chain of at most `max_depth` hops reaches |
| `TaintTrace.SinkReachMonotone` | crates/dyson-ast/src/taint/trace.rs:202-348 | a sink reached from a seed is reached from every larger seed in as many hops |
| `TaintTrace.SortPaths` | crates/dyson-ast/src/taint/trace.rs:342-347 | a ranked permutation of the paths |
| `TaintTrace.RankingMeaning` | crates/dyson-ast/src/taint/trace.rs:342-346 | fewer unresolved hops first, then fewer hops, then fewer imprecise bindings, by the positions of such hops |
| `Coalescer.SavesAreGenuine` | crates/dyson-persistence/src/coalesce.rs:80-146 | in every interleaving a saved snapshot is the one scheduled under its generation |
| `Coalescer.OnlyFlushesWait` | crates/dyson-persistence/src/coalesce.rs:80-168 | schedule calls and the worker never wait for each other: each may go on in every state |
| `Coalescer.FlushSeesItsTarget` | crates/dyson-persistence/src/coalesce.rs:160-168 | a flush that may return has seen a finished save attempt of a generation at least its target |
| `Coalescer.FlushCoversEarlierSchedules` | crates/dyson-persistence/src/coalesce.rs:157-168 | in every interleaving a flush returns only after a finished save attempt at or beyond everything that was scheduled when it was called |
| `Coalescer.PendingWakesWorker` | crates/dyson-persistence/src/coalesce.rs:80-146 | a pending snapshot never coexists with a parked worker, no permit and no notification under way |
| `Coalescer.SavesIncrease` | crates/dyson-persistence/src/coalesce.rs:94-126 | stores in generation order make the saved generations strictly increase |
| `Coalescer.NonOverlappingFacts` | crates/dyson-persistence/src/coalesce.rs:135-146 | calls that do not overlap store in generation order |
| `Coalescer.LatestWinsExactly` | crates/dyson-persistence/src/coalesce.rs:132-146 | at rest the newest snapshot was saved last exactly when it was stored last |
| `Coalescer.LatestWins` | crates/dyson-persistence/src/coalesce.rs:132-146 | without overlap the newest snapshot is the one on disk at rest |
| `Coalescer.OverlapCanLoseNewest` | crates/dyson-persistence/src/coalesce.rs:136-144 | two overlapping calls can leave the older snapshot on disk |
| `Coalescer.CoveredStays` | crates/dyson-persistence/src/coalesce.rs:122-126 | a flush whose target is announced, saved or on its way stays so until it returns |
| `Coalescer.MovesAreBounded` | crates/dyson-persistence/src/coalesce.rs:80-146 | without new schedule calls, only so many steps of the worker and of calls under way are possible, by a ranking function |
| `Coalescer.CoveredReturns` | crates/dyson-persistence/src/coalesce.rs:80-168 | from a covered state, until the flush may return one of these steps is possible, and after that many it may return |
| `Coalescer.UncoveredWaits` | crates/dyson-persistence/src/coalesce.rs:160-168 | any other flush waits until a generation at least its target is stored |
| `Coalescer.FlushCanMissItsSave` | crates/dyson-persistence/src/coalesce.rs:123-168 | a flush can wait although its snapshot is saved |
| `StateSync.BackoffDoubles` | crates/dyson/src/swarm_state_sync.rs:31-36 | the delay starts at the interval and doubles up to the ceiling, as documented |
| `StateSync.TurnMeaning` | crates/dyson/src/swarm_state_sync.rs:274-399 | when a visit to a key posts, and what it leaves in the bookkeeping and on the swarm, for every status |
| `StateSync.SentExactly` | crates/dyson/src/swarm_state_sync.rs:343-368 | in every run a stamp is recorded as sent exactly when the swarm accepted it and nothing since cleared, replaced or deleted it |
| `StateSync.RejectedStaysParked` | crates/dyson/src/swarm_state_sync.rs:311-327 | a rejected file is not posted again, nor its deletion, until another stamp is seen |
| `StateSync.EditAfterRejectionIsPosted` | crates/dyson/src/swarm_state_sync.rs:311-327 | with any other stamp it is posted again, exactly when it can be read, is within the limit and was not sent at that stamp before |
| `StateSync.DeletionArrivesExactly` | crates/dyson/src/swarm_state_sync.rs:370-399 | over any number of cycles with accepting answers, a file that was sent and is gone leaves the swarm exactly when in one of them neither a rejection nor a delay stands against its key |
| `StateSync.RejectedEditHidesDeletion` | crates/dyson/src/swarm_state_sync.rs:320-324 | a rejected edit keeps the old copy on the swarm after the file is gone, for good |
| `StateSync.RetriesBackOff` | crates/dyson/src/swarm_state_sync.rs:292-307 | the k-th retry of a row of transient failures is no earlier than the first answer plus the sum of the capped delays before it |
| `StateSync.SentIsMirroredExactly` | crates/dyson/src/swarm_state_sync.rs:343-413 | in every run the swarm holds what is recorded as sent exactly when the last accepted post that still counts carried the bytes its stamp stands for |
| `StateSync.AcceptingCycleMirrors` | crates/dyson/src/swarm_state_sync.rs:329-414 | with no retry pending an all-accepting cycle makes the swarm equal to the readable files within the limit, and removes the gone ones |
| `StateSync.TombstoneNamesItsFile` | crates/dyson/src/swarm_state_sync.rs:376-391 | the key splits back into the namespace and path it was made from |
| `StateSync.StateSyncWorker.ClearSent` | crates/dyson/src/swarm_state_sync.rs:268-271 | all bookkeeping is dropped, the swarm untouched |
| `StateSync.StateSyncWorker.NoteOutcome` | crates/dyson/src/swarm_state_sync.rs:274-308 | the retry entry of one key after each outcome, all others unchanged |
| `StateSync.StateSyncWorker.PushFile` | crates/dyson/src/swarm_state_sync.rs:343-368 | one file's visit changes its own key as the turn says, and no other |
| `StateSync.StateSyncWorker.SyncOnce` | crates/dyson/src/swarm_state_sync.rs:329-414 | a cycle gives every key its turn: found files, tombstones for the rest, nothing else |
| `Migration.FlatTargetIsInvertible` | crates/dyson-persistence/src/migrate.rs:173-230 | a flat name and its kind can be read back from where it goes |
| `Migration.FlatTargetExactly` | crates/dyson-persistence/src/migrate.rs:173-230 | where every flat name goes, and which names stay: other directories, other files, hidden `.json` files |
| `Migration.SharedTargetExactly` | crates/dyson-persistence/src/migrate.rs:233-278 | a shared artefact goes, under its name, to a chat exactly when its meta file is there and names that chat |
| `Migration.RenameMeaning` | crates/dyson-persistence/src/migrate.rs:281-293 | a rename that succeeds takes everything below its source along, and nothing else changes |
| `Migration.DefaultVersionExactly` | crates/dyson-persistence/src/migrate.rs:90-111 | a directory without a version counts as the old layout exactly by the names at its top |
| `Migration.DestsDoNotMeet` | crates/dyson-persistence/src/migrate.rs:173-278 | no two entries go to the same place or one below the other |
| `Migration.RenameKeepsLayout` | crates/dyson-persistence/src/migrate.rs:281-293 | the rename of an entry still to be moved succeeds, overwrites nothing and hides nothing |
| `Migration.LayoutIsUnique` | crates/dyson-persistence/src/migrate.rs:173-278 | the whole directory follows from which entries have moved |
| `Migration.TargetIsStable` | crates/dyson-persistence/src/migrate.rs:266-271 | what has not moved still has the same target, because bodies leave before their meta files |
| `Migration.RestIsMovable` | crates/dyson-persistence/src/migrate.rs:124-160 | after a crash exactly the entries left behind are still to be moved |
| `Migration.WorkKeepsVersionZero` | crates/dyson-persistence/src/migrate.rs:90-111 | while anything is left to move the directory counts as version 0 |
| `MigrationRuns.StartReaches` | crates/dyson-persistence/src/migrate.rs:113-160 | one start, from the old layout or from what an earlier one left, finds nothing to do, is cut off with the version unchanged, or leaves everything in its place |
| `MigrationRuns.UninterruptedReachesLayout` | crates/dyson-persistence/src/migrate.rs:124-160 | a start of the old layout that is not cut off puts every entry in its place |
| `MigrationRuns.RerunReachesLayout` | crates/dyson-persistence/src/migrate.rs:124-160 | a start after a cut-off one reaches the same, if no chat can be taken for a media directory |
| `MigrationRerun.SurvivesCrashExactly` | crates/dyson-persistence/src/migrate.rs:173-199 | wherever the crash strikes and however directories are listed, the next start reaches the uninterrupted layout exactly when nothing goes to a chat whose id ends in `_media` and whose media place is free |
| `MigrationRerun.SurvivesWithoutMediaNames` | crates/dyson-persistence/src/migrate.rs:173-199 | where these places are free, exactly when no chat id ends in `_media` |
| `MigrationRerun.RerunSwallows` | crates/dyson-persistence/src/migrate.rs:185-199 | after a cut between the last rename and the version file, every next start that is not cut off moves such a chat's entries away |
| `MigrationRerun.ChatBecomesMedia` | crates/dyson-persistence/src/migrate.rs:185-231 | `x_media.json`, cut off after its one rename and started again, ends as `x/media/transcript.json` |
| `MigrationRuns.ChatsDir.FlattenToPerChatDirs` | crates/dyson-persistence/src/migrate.rs:173-231 | the walk lists the directory once and does with every name what the walk as a function does |
| `MigrationRuns.ChatsDir.FanOutSharedArtefacts` | crates/dyson-persistence/src/migrate.rs:233-279 | the same for the shared artefacts |
| `MigrationRuns.ChatsDir.Migrate` | crates/dyson-persistence/src/migrate.rs:113-160 | one start is a start as defined, for some listing of the directories |
| `MigrationRuns.ChatsDir.MigrateThroughCrashes` | crates/dyson-persistence/src/migrate.rs:124-160 | any number of cut-off starts and one uncut end in the layout of an uninterrupted run, if no chat can be taken for a media directory |
| `Media.TranscriptStore.Save` | crates/dyson-persistence/src/disk.rs:606-689 | the stored transcript and the media files after a save; files that exist are never rewritten |
| `Media.TranscriptStore.Load` | crates/dyson-persistence/src/disk.rs:691-716 | references to stored files become their contents, everything else stays |
| `Media.RoundTripExactly` | crates/dyson-persistence/src/disk.rs:232-270 | a saved transcript loads back exactly when every inline block is filed under its hash and no literal reference names another file |
| `Media.InlineHistoryRoundTrips` | crates/dyson-persistence/src/disk.rs:232-270 | with no collisions and whole files, a save keeps the files whole and an inline history loads back |
| `Media.EverySaveLoadsBack` | crates/dyson-persistence/src/disk.rs:606-716 | over any row of saves the files stay whole, and every inline history saved on the way still loads back at the end |
| `Media.TornMediaIsPermanent` | crates/dyson-persistence/src/disk.rs:606-689 | a media file cut short is what every later load returns |
| `WordBoundary.FindWordBoundaryMatches` | crates/dyson-ast/src/lib.rs:88-111 | the matches are disjoint bounded occurrences in order, and every other one starts inside a match |
| `WordBoundary.ReportIsCompleteExactly` | crates/dyson-ast/src/lib.rs:88-111 | every bounded occurrence is reported exactly when no two overlap |
| `WordBoundary.SecondOfOverlappingIsMissing` | crates/dyson-ast/src/lib.rs:88-111 | in "a a a" every report of "a a" has the first occurrence and not the second |
| `WordBoundary.IdentifiersDoNotOverlap` | crates/dyson-ast/src/lib.rs:113-115 | occurrences of an identifier never overlap |

## Left out

- Scheduler: the older analysis of raw tool calls (file, git and shell heuristics); production uses declared plans.
- Pause boundaries: `request_pause` and `pause_at_boundary` only set and read a flag around the modelled transitions.
- Dispatch: leases, keyed task receipts and the limiter around a call. Steps of one process are interleaved freely; what else a resumption checks is in `Checkpoint`.
- Dispatch and Coalescer are state machines over values, not classes: their subject is the interleaving of threads and crashes.
- Checkpoint: the comparison of model, prompt, tools and directory and the outcome of each pending call are parameters (`DispatchResume.RefusedExactly` says what the latter is); budgets, counters and messages are not represented, and a journal write succeeds or not (`Dispatch` has the torn ones).
- Journal: permissions, fsync and the atomic replacement of records; a crash cuts a write after any number of bytes. Encodings are any codec whose lines are non-empty, newline-free UTF-8 and decode back, with no strict prefix of a line decoding.
- ProjectionCache: stamps are abstract versions that tell file versions apart; length, time and inode are not modelled. Appends of one process are serialised by the journal lock.
- ProjectionCache.DiskHistory.LoadUnresolvedToolOutcomes: foreign changes happen before or after the read of a file, not in the middle of it.
- Grader.EvaluateRun: failure texts are data, and which failures are listed is stated only as none or some; durations, usage and turns of events are not modelled.
- Compaction: the wording of the summary prompt, the excerpts given to the model and the events around a compaction; the summary is any text.
- Taint: parsing, extraction of symbols, path handling, the wording of hops and the list of functions by file. The index is built from recorded definitions, calls and assignments. That a later byte of a function is not on an earlier line is assumed of what was recorded (`LinesFollowBytes`).
- TaintTrace.Trace: which of several sink paths is reported is not stated, nor the order of paths that rank equal; nothing is said about completeness when the frontier or path limit cut the search off.
- Coalescer: the debounce delay and dropping the persister; that a possible step is taken some day is the scheduler's part.
- StateSync: the directory walk, allowlists, MIME types and the status report; files, bytes, clocks and answers are inputs of a cycle. A push that is not answered with success is taken to have changed nothing on the swarm.
- StateSync.StateSyncWorker.SyncOnce: the branch for a recorded key without a colon is absent, because every recorded key is made from a namespace and a path.
- Migration: version files are a number or unreadable; empty directories and the removal of the emptied shared directory are not represented, and a cut falls between renames that take effect. `Ordinary` lists the assumed shape: plain chat ids, free targets, no artefact id ending in `.meta.json`, no chat directory whose name already ends in `_media`; `FlatTranscriptIsOrdinary` gives instances.
- Media: the hash function, base64 and JSON; `InlineHistoryRoundTrips` and `EverySaveLoadsBack` assume no collisions and whole media files.
- HTTP, telemetry, manifest parsers, language tables, advisors, the CLI and the other controllers are not part of this model.
