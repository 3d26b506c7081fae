# Models and proofs of NativeLink's scheduling, coalescing and metrics cores

NativeLink is a remote execution and caching server for builds. This project models the parts
of it in which state changes under many interleaved calls, and proves what those parts are for:

* **The worker pool** (`nativelink-scheduler/src/api_worker_scheduler.rs`, with `worker.rs`).
  Workers in a recency order, each with running operations, free amounts of its properties,
  pause and drain flags and a last heartbeat. Every call holds one lock, so a run is a sequence
  of calls. `worker_pool.dfy` gives each call as a function, `pool_*.dfy`, `matching.dfy`,
  `hand_over.dfy` and `keep_alive.dfy` prove properties of all runs, and `api_worker_scheduler.dfy` has the methods
  that change the pool in place, proved equal to those functions.
* **In-flight coalescing** (`cache_lookup_scheduler.rs`): requests for one key share a cache
  lookup by a background task. `cache_lookup.dfy` is the protocol as interleaved steps,
  `cache_invariant.dfy` what every step keeps, `cache_theorems.dfy` and `cache_order.dfy` what
  callers may rely on, and `cache_scheduler.dfy` the methods.
* **The metrics pipeline** (`nativelink-metric`, `nativelink-metric-collector`): publishing nests
  of hash maps as spans and events, collecting them in a tree of maps, and flattening the tree
  over one shared name buffer (`metrics*.dfy`).
* **The error algebra** that evictions report with (`errors.dfy`), **the module-tree generator**
  of the protocol crate (`module_tree.dfy`) and **gateway polling** of the command line tool
  (`gateways.dfy`).

What a call cannot know is a parameter: the iteration order of a hash table, the answers of the
state manager, of the store and of the upstream scheduler, whether a message to a worker could be
sent, and clocks. Theorems hold for all of them.

Seven promises turned out false of the code as it stands. Each has an input that breaks it and the
exact condition under which it holds:

* The scan for timed-out workers stops at the first worker that is not timed out, because the
  workers "should be sorted" by timestamp (`api_worker_scheduler.rs:499-500`). A heartbeat
  changes the timestamp without moving the worker, against the warning in `worker.rs:74-78`, so a
  silent worker can survive: `SilentWorkerSurvives`. A scan is right exactly under the condition
  of `CompleteExactly`, and every call keeps order and timestamps in agreement exactly under that
  of `AgreementKeptExactly`. Before the clock reaches the timeout the subtraction wraps around in
  an unchecked build, and a worker that has just joined is evicted: `EarlyScanEvictsTheLiving`,
  with the exact conditions in `EarlyScanEvictsExactly` and `CompleteExactly`.
* The scope guard of a lookup task removes the entry for its key, which may by then be that of a
  later request: `GuardStealsALaterRequest`, `UnansweredExactly`, `CalmRunsAnswerEveryone`.
* A worker gets back what it lent, unless an operation is started on it that is still running
  there: `RestartLosesAShare`, `CapacityConservedExactly`, `CapacityOverARun`.
* A worker that is closed to work is given none, and an operation that was assigned to a worker is
  started there or handed back. The matching engine does not look again before it hands an
  operation over, so it starts operations on workers that drain by then
  (`StartedOnADrainingWorker`), and loses those whose worker has left (`AssignedAndLost`). The
  calls in between decide: `HandedToAnOpenWorkerExactly`, `StartedExactly`.
* The generator's check against paths outside of the root directory accepts every path
  (`DirectoryCheckIsVacuous`), and a file outside does end up in the text
  (`IncludeAFileFromOutside`). The text stays inside exactly if no given file is outside, which
  shows in the parts that are checked: `InsideExactly`, `OutsideShowsInTheParts`.
* Keys of one hash map that have the same text can make collecting the metrics panic or lose
  values: `SameTextPanics`. It panics exactly under the condition of `CollectsExactly`, and all
  values arrive exactly if their paths are incomparable: `VisitedExactly`.

`dafny verify dfyconfig.toml` checks the project.

## Model

| member | source | states |
|---|---|---|
| Errors.MergeIsAMonoid | nativelink-error/src/lib.rs:305-320 | merging unit results is associative and `Ok` is its identity on both sides |
| Errors.MergeAllReportsEveryFailure | nativelink-error/src/lib.rs:85-105 | folding any list of results gives `Ok` if nothing failed, and otherwise the first failing code and all failing messages in order with one separator between two errors |
| PlatformProps.ReduceThenRestore | nativelink-scheduler/src/worker.rs:104-119 | a satisfied demand can be taken without wrap-around or missing key, every amount goes down by exactly the demanded one, and giving it back restores the worker's properties |
| PlatformProps.SatisfiedExactly | nativelink-util/src/platform_properties.rs:95-112 | a demand is met if and only if every demanded property is there, with the same value where the value counts, with at least the amount where an amount is demanded, and with any value where only a preference is expressed |
| PlatformProps.MeetsItsOwnOffer | nativelink-util/src/platform_properties.rs:96-98 | a worker meets every demand for exactly what it offers |
| PlatformProps.SatisfactionIsMonotone | nativelink-util/src/platform_properties.rs:45-56 | a worker that offers at least as much satisfies every demand that the other satisfies |
| PlatformProps.ReduceInPlace | nativelink-scheduler/src/worker.rs:109-118 | the loop over the demand, in any key order, subtracts exactly the demanded amounts |
| PlatformProps.RestoreInPlace | nativelink-scheduler/src/worker.rs:227-238 | the loop over the demand, in any key order, gives back exactly what the reference function gives back, with every key it needs present |
| PoolInvariant.RunCapacity | nativelink-scheduler/src/worker.rs:183-208 | free plus held amounts stay the same when an action starts, less what an action under the same operation id still held |
| PoolInvariant.CompleteCapacity | nativelink-scheduler/src/worker.rs:210-221 | completing an action frees exactly what that action held, without wrap-around, and keeps free plus held amounts |
| PoolInvariant.FinishKeepsOk | nativelink-scheduler/src/api_worker_scheduler.rs:248-260 | `complete_action` cannot fail where it is called, and afterwards a paused worker still has work that will unpause it |
| PoolInvariant.ApplyKeepsValid | nativelink-scheduler/src/api_worker_scheduler.rs:91-335 | every call keeps the pool valid: the recency order lists each worker once, a paused worker has a running operation, and free plus held amounts of each worker fit their type |
| PoolInvariant.ReachableIsValid | nativelink-scheduler/src/api_worker_scheduler.rs:401-538 | so every pool reached by any sequence of calls is valid; in particular a paused worker always has work |
| PoolWorkers.SurvivorIsChanged | nativelink-scheduler/src/api_worker_scheduler.rs:91-335 | a call changes a worker that stays in the pool only if it is about that worker, and then in the way of its kind; every other worker is as before |
| PoolWorkers.CapacityConservedExactly | nativelink-scheduler/src/worker.rs:183-238 | a call conserves a worker's free plus held amounts if and only if it does not start an operation that is still running there and holds some |
| PoolWorkers.CapacityOverARun | nativelink-scheduler/src/worker.rs:183-238 | over any run no worker gains amounts and its keys and kinds of properties stay; it loses none if and only if the run has no such restart |
| PoolWorkers.IdleAgainMeansWhole | nativelink-scheduler/src/worker.rs:101-119 | over any run, a worker that was idle and is idle again offers exactly the properties it had if and only if the run has no such restart |
| PoolWorkers.RestartLosesAShare | nativelink-scheduler/src/worker.rs:193-197 | a run from the empty pool in which a worker joins with 4 units, is given one operation for 2 units twice, completes it, and is left idle with 2 units |
| PoolWorkers.PauseLastsUntilIdle | nativelink-scheduler/src/api_worker_scheduler.rs:248-260 | after any call a worker that was paused is paused if and only if something still runs on it |
| PoolWorkers.PauseHasACause | nativelink-scheduler/src/api_worker_scheduler.rs:215-260 | a worker becomes paused only by an accepted report about one of at least two operations, and only because that report is the error ResourceExhausted, or because it is an error or a stage with a result and the worker was draining |
| PoolWorkers.PausedWhileBusy | nativelink-scheduler/src/api_worker_scheduler.rs:163-260 | over any run in which it is never idle, a paused worker accepts no work, whatever it completes and however draining is switched |
| PoolWorkers.TimestampsNeverDecrease | nativelink-scheduler/src/api_worker_scheduler.rs:104-110 | no call lowers a worker's timestamp, and only its own heartbeat changes it |
| PoolWorkers.TimestampsOverARun | nativelink-scheduler/src/api_worker_scheduler.rs:93-126 | over any run the timestamp of a worker that stays never decreases |
| PoolAccounting.AccountsExactly | nativelink-scheduler/src/api_worker_scheduler.rs:195-334 | every call accounts for every operation on every worker, if and only if it does not replace that worker: an operation that was there or is started leaves with exactly one final report, and only with its worker or because the report was accepted; if it stays nothing was accepted; if it never was there nothing is reported |
| PoolAccounting.ReportRemovesExactly | nativelink-scheduler/src/api_worker_scheduler.rs:205-265 | a report about a running operation takes it off its worker if and only if it is accepted and is an error or one of the stages Completed and CompletedFromCache, so a rejected one leaves it running, and takes nothing else off any worker |
| PoolAccounting.ReplacementReportsNothing | nativelink-scheduler/src/api_worker_scheduler.rs:130-132 | when a present worker id is added again, the replaced worker's operations go without any report, so fresh ids are needed |
| PoolAccounting.RunTracks | nativelink-scheduler/src/api_worker_scheduler.rs:195-334 | over any run with fresh ids, whatever the state manager finally accepts was started and not accepted since, and an operation that is running has a start that was not accepted |
| PoolAccounting.AcceptedOncePerStart | nativelink-scheduler/src/api_worker_scheduler.rs:195-334 | in every run from an empty pool, an accepted final report is the first accepted one since the operation was last started on that worker |
| PoolAccounting.NoOperationVanishes | nativelink-scheduler/src/api_worker_scheduler.rs:269-334 | in every run from an empty pool, an operation that was started on a worker and is not running there at the end was finally reported after that start |
| PoolResults.SucceedsExactly | nativelink-scheduler/src/api_worker_scheduler.rs:93-533 | when each of the calls succeeds, if and only if, on the state before it: a join whose message is sent, a heartbeat that is not stale, a drain of a present worker, an accepted report about a running operation, a hand-over that is sent or finds nobody, an eviction or scan all of whose operations the state manager takes back |
| PoolResults.FailureIsExplained | nativelink-scheduler/src/api_worker_scheduler.rs:93-533 | a failing heartbeat reports InvalidArgument, a rejected report keeps the code and messages of the answer, a failing eviction or scan has the code of a refused operation, and every other failure is Internal |
| PoolResults.HandedBackAsInternal | nativelink-scheduler/src/api_worker_scheduler.rs:207-333 | whatever a call tells the state manager beyond its own report is an error with code Internal, so nothing that an eviction hands back looks like backpressure |
| PoolWakeup.ReduceGainsNothing | nativelink-scheduler/src/worker.rs:104-119 | after a demand has been taken, a worker satisfies nothing that it did not satisfy before |
| PoolWakeup.WakeupComesLast | nativelink-scheduler/src/api_worker_scheduler.rs:130-334 | every call either ends in a wakeup of the matching engine, after everything else it did, or hands nothing back and lets no worker take anything new |
| PoolWakeup.NoLostWakeup | nativelink-scheduler/src/api_worker_scheduler.rs:149-334 | over any run every hand-back has a wakeup behind it, and a run without wakeups has handed nothing back and opened no worker to any request |
| PoolWakeup.NoPermitMeansNothingMissed | nativelink-scheduler/src/api_worker_scheduler.rs:309-334 | wherever the matching engine takes its single permit, also in the middle of an eviction: if none is left, then there is a last moment at which it took one, before or during a certain call, since when nothing was handed back and no worker became able to take a request it could not take before that call |
| PoolTimeout.TailIsTheMaximalOldRun | nativelink-scheduler/src/api_worker_scheduler.rs:501-512 | the scan collects a worker if and only if it and every less recent worker are old |
| PoolTimeout.TailIsReversed | nativelink-scheduler/src/api_worker_scheduler.rs:501-512 | the scan collects the workers from the least recent one on |
| PoolTimeout.ScanEvictsTheSilentRun | nativelink-scheduler/src/api_worker_scheduler.rs:495-533 | once the clock is past the timeout, a scan evicts a worker if and only if it and every less recent worker have been silent for the whole timeout |
| PoolTimeout.CompleteExactly | nativelink-scheduler/src/api_worker_scheduler.rs:495-533 | one scan, at any time, equals filtering the whole pool if and only if no silent worker is more recent than one that is not, or, before the clock reaches the timeout, the least recent worker is beyond the wrapped difference |
| PoolTimeout.ShortcutIsRightExactly | nativelink-scheduler/src/api_worker_scheduler.rs:499-512 | all scans past the timeout equal filtering if and only if recency order and timestamps agree, as far as the timeout can still run out; all scans at all times do if and only if also the pool is empty or there is no timeout |
| PoolTimeout.AgreementKeptExactly | nativelink-scheduler/src/api_worker_scheduler.rs:91-335 | every call keeps order and timestamps in agreement if and only if it overtakes nobody: the worker it moves to the front, if any, has no earlier timestamp than another one, and an accepted heartbeat no later one than a more recent worker |
| PoolTimeout.OrderlyRunsScanCompletely | nativelink-scheduler/src/api_worker_scheduler.rs:495-533 | in a run from the empty pool in which nobody is overtaken, every scan past the timeout evicts exactly the silent workers |
| PoolTimeout.RemovalsAgree | nativelink-scheduler/src/api_worker_scheduler.rs:309-334 | evictions and scans keep that agreement |
| PoolTimeout.PromotionsAgreeExactly | nativelink-scheduler/src/api_worker_scheduler.rs:130-306 | a call that moves a worker to the front and leaves it in the pool keeps the agreement if and only if no other worker has a later timestamp than that worker has, or joins with |
| PoolTimeout.NoPromotionAgrees | nativelink-scheduler/src/api_worker_scheduler.rs:130-306 | calls about an absent worker, and calls that evict the worker they moved to the front, keep it |
| PoolTimeout.HeartbeatAgreesExactly | nativelink-scheduler/src/api_worker_scheduler.rs:98-110 | an accepted heartbeat keeps it if and only if its timestamp is not later than that of any more recent worker |
| PoolTimeout.SilentWorkerSurvives | nativelink-scheduler/src/api_worker_scheduler.rs:98-110 | a run from the empty pool after which a scan leaves a worker that was silent for the whole timeout |
| PoolTimeout.EarlyScanEvictsExactly | nativelink-scheduler/src/api_worker_scheduler.rs:506 | before the clock reaches the timeout nobody can have been silent for that long, and a scan evicts a worker if and only if it and every less recent one have a timestamp up to the wrapped difference |
| PoolTimeout.EarlyScanEvictsTheLiving | nativelink-scheduler/src/api_worker_scheduler.rs:506 | a run from the empty pool after which such a scan evicts a worker that has just joined |
| Matching.FindIsExtreme | nativelink-scheduler/src/api_worker_scheduler.rs:177-193 | the choice is eligible and the least (or most) recent of all eligible workers, and there is none only if nobody is eligible |
| Matching.FindSucceedsExactly | nativelink-scheduler/src/api_worker_scheduler.rs:177-193 | a search succeeds if and only if some worker is neither paused nor draining and satisfies the demand, in particular if one offers exactly what is demanded |
| Matching.JoiningWorkerIsOpen | nativelink-scheduler/src/worker.rs:122-147 | a worker that joins can at once take exactly what its properties satisfy, and is chosen for it under most recently used, or if nobody else is eligible |
| Matching.MatcherMovesSafely | nativelink-scheduler/src/simple_scheduler.rs:188-259 | between finding a worker and handing it the action, no call of others breaks the promise that the worker, if still there, satisfies the action |
| Matching.HandedOverOnlyIfSatisfied | nativelink-scheduler/src/simple_scheduler.rs:188-259 | in every interleaving the worker that an action is handed to satisfies it, so the assertion in `reduce_platform_properties` holds |
| HandOvers.LeavesExactly | nativelink-scheduler/src/api_worker_scheduler.rs:91-335 | a call takes a worker out of the pool if and only if it evicts it, as read off the state before the call |
| HandOvers.AcceptsExactly | nativelink-scheduler/src/api_worker_scheduler.rs:163-265 | a call that gives a worker no action leaves it open to work if and only if the worker was open and the call neither switches draining on nor is an accepted backpressure report with work left, or was closed and the call switches draining off while it is not paused, or finishes its last operation while it is not draining |
| HandOvers.ExhaustedWorkerIsClosed | nativelink-scheduler/src/api_worker_scheduler.rs:220-258 | an open worker whose error report is accepted stays open if and only if the code is not ResourceExhausted or nothing else runs on it |
| HandOvers.StartedExactly | nativelink-scheduler/src/simple_scheduler.rs:213-258 | in every interleaving the assigned operation is started if and only if no call since the worker was found evicted it; then it runs there or is finally reported exactly once, and otherwise the hand-over succeeds without effect and nothing is reported about it |
| HandOvers.HandedToAnOpenWorkerExactly | nativelink-scheduler/src/simple_scheduler.rs:213-258 | the worker that is handed the operation satisfies it, and is open to work if and only if each call since it was found that closed it was followed by one that opened it; in particular if none closed it |
| HandOvers.StartedOnADrainingWorker | nativelink-scheduler/src/simple_scheduler.rs:213-258 | a play that starts an operation on a worker that drains |
| HandOvers.AssignedAndLost | nativelink-scheduler/src/api_worker_scheduler.rs:275-305 | a play in which the worker leaves after it was found, and the operation is neither started nor handed back |
| HandOvers.PairIsReachable | nativelink-scheduler/src/api_worker_scheduler.rs:130-151 | the pool in which these plays start is what two workers that join make of the empty pool |
| Matching.DispatchCostsOneBehind | nativelink-scheduler/src/api_worker_scheduler.rs:177-193 | under least recently used, each completed dispatch that passes over an eligible worker takes away one of the workers behind it, and nothing else adds any |
| Matching.BypassesAreBounded | nativelink-scheduler/src/api_worker_scheduler.rs:177-193 | so it is passed over at most as often as there are workers behind it |
| Matching.EligibleWorkerIsPicked | nativelink-scheduler/src/api_worker_scheduler.rs:177-277 | bounded bypass: an eligible worker that is left alone is picked within that many dispatches plus one, whatever is added, removed, refreshed or promoted in between |
| Matching.MostRecentlyUsedStarves | nativelink-scheduler/src/api_worker_scheduler.rs:187-190 | under most recently used there are arbitrarily long runs of new operations, each completed before the next, in which an eligible worker is never picked |
| ApiWorkerSchedulers.ApiWorkerScheduler.constructor | nativelink-scheduler/src/api_worker_scheduler.rs:352-368 | the pool starts empty, with the given strategy |
| ApiWorkerSchedulers.ApiWorkerScheduler.RefreshLifetime | nativelink-scheduler/src/api_worker_scheduler.rs:93-126 | the new pool, queued keep-alives and result are those of the specification; the order is untouched |
| ApiWorkerSchedulers.ApiWorkerScheduler.ImmediateEvictWorker | nativelink-scheduler/src/api_worker_scheduler.rs:309-334 | the drain loop attempts the operations in table order and merges their results as specified, between the two wakeups |
| ApiWorkerSchedulers.ApiWorkerScheduler.AddWorker | nativelink-scheduler/src/api_worker_scheduler.rs:451-462 | the worker is put in front, and evicted again if its connection result cannot be sent |
| ApiWorkerSchedulers.ApiWorkerScheduler.SetDrainWorker | nativelink-scheduler/src/api_worker_scheduler.rs:163-175 | the flag is set on a worker that moves to the front, or the call fails without effect |
| ApiWorkerSchedulers.ApiWorkerScheduler.FindWorkerForAction | nativelink-scheduler/src/api_worker_scheduler.rs:177-193 | the search from either end finds the worker that the specification chooses and changes nothing |
| ApiWorkerSchedulers.ApiWorkerScheduler.UpdateAction | nativelink-scheduler/src/api_worker_scheduler.rs:195-265 | all branches reach the specified pool, effects and result |
| ApiWorkerSchedulers.ApiWorkerScheduler.WorkerNotifyRunAction | nativelink-scheduler/src/api_worker_scheduler.rs:269-306 | the action is recorded and its amounts taken before sending; a failed send evicts the worker with the new operation among those handed back |
| ApiWorkerSchedulers.ApiWorkerScheduler.CollectTimedOut | nativelink-scheduler/src/api_worker_scheduler.rs:501-512 | walking from the least recent end collects exactly the specified tail |
| ApiWorkerSchedulers.ApiWorkerScheduler.RemoveTimedOutWorkers | nativelink-scheduler/src/api_worker_scheduler.rs:495-533 | the eviction loop equals evicting the whole tail, results merged in order |
| ApiWorkerSchedulers.ApiWorkerScheduler.Perform | nativelink-scheduler/src/api_worker_scheduler.rs:401-538 | any enabled call on a valid pool leaves a valid pool and does what the specification says, so all run theorems apply to the object |
| KeepAlives.HeartbeatQueuesTheRunning | nativelink-scheduler/src/api_worker_scheduler.rs:111-124 | a pair is queued if and only if the call is an accepted heartbeat of that worker and the operation is running on it, and each pair once |
| KeepAlives.QueuedWasRunning | nativelink-scheduler/src/api_worker_scheduler.rs:93-126 | in every run, each queued pair was queued by a heartbeat of that worker when the operation was running on it |
| KeepAlives.ForwardKeepAlives | nativelink-scheduler/src/api_worker_scheduler.rs:370-397 | for every arrival pattern and batch sizes, the forwarded sequence is the sent sequence, in order, without loss or duplicate, in batches of at most 256 |
| KeepAlives.EvictionAttemptsEverything | nativelink-scheduler/src/api_worker_scheduler.rs:314-329 | whatever the drain order, each running operation and no other is attempted, exactly once |
| KeepAlives.EvictionReport | nativelink-scheduler/src/api_worker_scheduler.rs:314-333 | an eviction succeeds if and only if every attempt did, and otherwise reports the first failing code and every failing message in order |
| CacheInvariant.EveryStepKeepsInv | nativelink-scheduler/src/cache_lookup_scheduler.rs:96-302 | in every interleaving, dying tasks included: an entry belongs to a task that has not removed it yet, each waiter is in exactly one place, and replies fit lookups |
| CacheTheorems.NobodyIsOrphaned | nativelink-scheduler/src/cache_lookup_scheduler.rs:170-302 | once all tasks have ended the map is empty and every caller either was answered or saw its channel close, never both |
| CacheTheorems.RepliesAreFinal | nativelink-scheduler/src/cache_lookup_scheduler.rs:237-301 | no step changes or repeats a reply, or answers a caller whose channel closed |
| CacheTheorems.UnansweredExactly | nativelink-scheduler/src/cache_lookup_scheduler.rs:184-193 | over all runs, somebody is left without a reply if and only if at some moment a guard is dropped while the map has an entry for its key, or a task dies with somebody left to answer |
| CacheTheorems.StolenEntryIsLater | nativelink-scheduler/src/cache_lookup_scheduler.rs:189-191 | if no task dies, an entry that a guard finds under its key always belongs to a later task, whose lookup is still under way |
| CacheTheorems.CalmRunsAnswerEveryone | nativelink-scheduler/src/cache_lookup_scheduler.rs:170-301 | exactly-once reply: if no request for a key arrives between its task's removal and the drop of the guard, and no task dies, all are answered once the tasks have ended |
| CacheTheorems.GuardStealsALaterRequest | nativelink-scheduler/src/cache_lookup_scheduler.rs:189-191 | for every key, a run without deaths that closes the channel of a caller whose own lookup is still under way |
| CacheTheorems.RepliesAreFaithful | nativelink-scheduler/src/cache_lookup_scheduler.rs:248-301 | every reply has the caller's operation id and key; callers drained together get the same outcome; an operation is forwarded at most once, and that of an answered caller if and only if its reply is the answer to it |
| CacheTheorems.ToldAsAsked | nativelink-scheduler/src/cache_lookup_scheduler.rs:237-301 | in every run an answered caller is told what the steps determine: for a found result that result under the operation id it asked with, for a broken lookup the code and messages of that lookup, for a missing result the answer to its own forwarded action, all from a lookup for the key it asked for |
| CacheOrder.FirstComeFirstServed | nativelink-scheduler/src/cache_lookup_scheduler.rs:101-108 | in every run, of two callers taken by the same lookup the one that asked first is answered first and its action forwarded first |
| CacheTheorems.UncachableIsNeverCoalesced | nativelink-scheduler/src/cache_lookup_scheduler.rs:159-168 | in every run exactly the uncachable requests are answered directly, each for good with the answer to its own action, and neither the map nor any list, place, taker, reply or forwarding ever knows them |
| CacheTheorems.UncachableDisturbsNobody | nativelink-scheduler/src/cache_lookup_scheduler.rs:159-168 | without its uncachable requests a run is still a run and ends in the same state except for their record |
| CacheSchedulers.SendAllAnswersEveryone | nativelink-scheduler/src/cache_lookup_scheduler.rs:254-301 | the fan-out answers exactly the drained waiters, each with its own reply, and nobody else |
| CacheSchedulers.CacheLookupScheduler.ReplyToAll | nativelink-scheduler/src/cache_lookup_scheduler.rs:254-301 | the loops over the senders equal sending to one waiter after the other |
| CacheSchedulers.CacheLookupScheduler.Perform | nativelink-scheduler/src/cache_lookup_scheduler.rs:154-302 | any enabled step of any interleaving, death of a task included, keeps the invariant on the object and is the step of the protocol, so all run theorems apply to the object |
| CacheSchedulers.CacheLookupScheduler.RunTask | nativelink-scheduler/src/cache_lookup_scheduler.rs:212-302 | a background task that nothing interrupts gives every waiter of its key the reply for its lookup, affects nobody else, removes the entry, ends, and keeps the invariant |
| Metrics.LeavesArePrefixFree | nativelink-metric/src/lib.rs:181-213 | in a nest of hash maps no path of a value is a prefix of another one |
| Metrics.LeavesAreTheValues | nativelink-metric/src/lib.rs:181-213 | the values that are published are exactly those that following the keys through the maps finds |
| Metrics.SignalsMeanLeaves | nativelink-metric/src/lib.rs:474-524 | for every nest, the spans and events that publishing emits place exactly its values, each under its keys, and leave the current span as it was |
| Metrics.Publisher.Publish | nativelink-metric/src/lib.rs:181-213 | the publishing loop emits exactly the specified signals and returns the specified kind of data |
| MetricsCollector.PanicsExactly | nativelink-metric-collector/src/tracing_layers.rs:121-147 | the walk panics if and only if a value is stored at a proper prefix of the event's path |
| MetricsCollector.PutIsAFlatWrite | nativelink-metric-collector/src/tracing_layers.rs:96-113 | otherwise its own path gets the value, what was below that path is gone, and every other path is as before |
| MetricsCollector.CollectedTreeIsTheFlatMap | nativelink-metric-collector/src/tracing_layers.rs:80-147 | for every sequence of events whose paths do not lead to each other, repeated ones included, there is no panic and the tree holds at each path the last value written there |
| MetricsCollector.CollectsExactly | nativelink-metric-collector/src/tracing_layers.rs:80-147 | for every sequence of events, collecting panics if and only if an event finds a value on the way to its path, and otherwise the tree holds at each path the last value written there unless a path leading there was written later |
| MetricsCollector.TreeIsPrefixFree | nativelink-metric-collector/src/tracing_layers.rs:121-147 | no value of a tree is on the way to another one |
| MetricsCollector.MetricsCollectorLayer.InsertAt | nativelink-metric-collector/src/tracing_layers.rs:121-147 | the recursion down the spans, adding missing components, is the specified insertion |
| MetricsCollector.MetricsCollectorLayer.OnEvent | nativelink-metric-collector/src/tracing_layers.rs:80-114 | an event panics exactly under that condition and then changes nothing; otherwise the tree is that of all events so far |
| MetricsExporter.Exporter.ProcessPrimitive | nativelink-metric-collector/src/otel_exporter.rs:57-75 | adds one counter under the current name, or none for a string or a name of more than 256 bytes |
| MetricsExporter.Exporter.Truncate | nativelink-metric-collector/src/otel_exporter.rs:53 | cuts the buffer to a length that is at least the floor the caller was given |
| MetricsExporter.Exporter.ProcessChildren | nativelink-metric-collector/src/otel_exporter.rs:39-55 | for every tree and iteration order the buffer is left as found, every cut on the way keeps at least what was there at entry, and every value is visited once under its joined path |
| MetricsExporter.Exporter.OtelExport | nativelink-metric-collector/src/otel_exporter.rs:28-37 | the same from the root, and every name is the joined path below the root name, or the joined path alone if the root name is empty |
| MetricsExporter.PrefixedIsJoined | nativelink-metric-collector/src/otel_exporter.rs:33-35 | the root prefix in front of a joined path is the joined path below the root name |
| MetricsExporter.JoinedNamesSplit | nativelink-metric-collector/src/otel_exporter.rs:41-48 | keys without underscores can be read off the exported name, so different values have different counters |
| MetricsExporter.ExportedTimes | nativelink-metric-collector/src/otel_exporter.rs:57-75 | each counter is exported as often as there are numbers with its value and its full name, and never under a name of more than 256 bytes |
| MetricsExporter.ExportIgnoresOrder | nativelink-metric-collector/src/otel_exporter.rs:39-55 | which counters are added, as a multiset, does not depend on the order of visits |
| MetricsExporter.LeavesAreCollected | nativelink-metric-collector/src/tracing_layers.rs:80-147 | collecting values with incomparable paths never panics, and the tree holds exactly these values |
| MetricsExporter.VisitedExactly | nativelink-metric-collector/src/otel_exporter.rs:39-55 | after collecting any published values, the export visits exactly these, each once, if and only if their paths are incomparable |
| MetricsExporter.SameTextPanics | nativelink-metric/src/lib.rs:181-213 | two keys of one map with the same text, one with a number and one with a map, make collecting panic |
| MetricsExporter.EndToEnd | nativelink-metric-collector/src/otel_exporter.rs:28-75 | if the paths of the values are incomparable, then for all iteration orders the exported counters are, as a multiset, one per number, under its joined keys, less the names that are too long |
| MetricsExporter.CollectSignals | nativelink-metric-collector/src/tracing_layers.rs:80-114 | following the current span and inserting each event gives the tree of all events, or panics with them |
| MetricsExporter.PublishCollectExport | nativelink-metric-collector/src/otel_exporter.rs:28-75 | for every nest of maps the three stages panic under exactly that condition, otherwise export each counter as often as values that are left have its count and full name, and these are all values if and only if their paths are incomparable |
| MetricsExporter.ExportHashMaps | nativelink-metric-collector/src/otel_exporter.rs:28-75 | for every nest of hash maps whose keys have different texts nothing panics, and each counter is exported exactly as often as a number with its value is found under its full name, up to 256 bytes |
| ModuleTree.PartsRoundTrip | nativelink-proto/gen_lib_rs_tool.py:75-85 | a package file's parts have no dots and joined again with its ending are the file name, so the stored name is the given one and different files have different paths |
| ModuleTree.PartsAreAnyPath | nativelink-proto/gen_lib_rs_tool.py:75-85 | every non-empty list of names without dots is the parts of its joined file name |
| ModuleTree.DirectoryCheckIsVacuous | nativelink-proto/gen_lib_rs_tool.py:76-78 | no package file has a part "." or "..", so the second assertion never fails |
| ModuleTree.OutsideShowsInTheParts | nativelink-proto/gen_lib_rs_tool.py:74-78 | a file is outside of the root directory if and only if its parts begin with two empty ones and one that starts with a slash |
| ModuleTree.OutsideFileIsAccepted | nativelink-proto/gen_lib_rs_tool.py:75-78 | a concrete file outside of the root directory is accepted |
| ModuleTree.InsideExactly | nativelink-proto/gen_lib_rs_tool.py:72-87 | the generated text includes only files inside of the root directory if and only if no given file is outside |
| ModuleTree.IncludeAFileFromOutside | nativelink-proto/gen_lib_rs_tool.py:72-87 | a generated text that includes a file outside of the root directory |
| ModuleTree.InsertIsAWrite | nativelink-proto/gen_lib_rs_tool.py:79-85 | adding a file fails if and only if its path is taken, and otherwise changes what is found at that path only |
| ModuleTree.InsertAddsOneFile | nativelink-proto/gen_lib_rs_tool.py:79-85 | the files in the tree are, as a multiset, those before and the new one at its path |
| ModuleTree.InsertKeepsProper | nativelink-proto/gen_lib_rs_tool.py:80-83 | no node gets two children of the same name |
| ModuleTree.ChildrenKeepTheirOrder | nativelink-proto/gen_lib_rs_tool.py:56-83 | a module keeps its place among its siblings and a new one comes last |
| ModuleTree.ReadPrinted | nativelink-proto/gen_lib_rs_tool.py:51-59 | reading a printed block with a scope stack finds exactly the block's files and modules, with balanced braces and every line indented by depth |
| ModuleTree.ModulesAreDistinct | nativelink-proto/gen_lib_rs_tool.py:56-59 | no module is opened twice |
| ModuleTree.BuildTree | nativelink-proto/gen_lib_rs_tool.py:72-85 | building succeeds if and only if every file ends in `.pb.rs` and none is given twice, and then the tree holds exactly the files at their dotted paths |
| ModuleTree.Output.PrintPackagePart | nativelink-proto/gen_lib_rs_tool.py:51-59 | the recursive printing appends exactly the specified lines |
| ModuleTree.Generate | nativelink-proto/gen_lib_rs_tool.py:63-87 | the text is generated under the same condition, and read back it has each file once in the module of its dotted name, balanced, indented by depth, no module opened twice |
| Gateways.GatewayBoard.GatewayAdded | native-cli/components/loadbalancer.go:135-178 | the loop adds the first addressed gateway of the name unless it was added before, and returns true if and only if every required gateway is marked found |
| Gateways.GatewayBoard.EveryRequiredIsFound | native-cli/components/loadbalancer.go:171-177 | in any iteration order the answer is whether every required gateway is marked found |
| Gateways.FirstAddressExactly | native-cli/components/loadbalancer.go:154-158 | the address that a poll uses is the first one of the first listed gateway of that name that has any, and there is none only if no gateway of that name has an address |
| Gateways.RunIsRight | native-cli/components/loadbalancer.go:86-178 | in every interleaving the list has no name twice, its names are the added set and exactly the gateways seen so far, each with the address of the earliest poll that saw one, and the found marks are those set from the start and the added ones |
| Gateways.ListIsWhatWasSeen | native-cli/components/loadbalancer.go:86-178 | in every interleaving the list has exactly the gateways that some poll for them listed with an address, each with the first address in the earliest such poll, and HTTP2 exactly for nativelink-gateway |
| Gateways.PollReturnsExactly | native-cli/components/loadbalancer.go:151-177 | a poller returns if and only if its listing succeeded and every required gateway not marked from the start was listed with an address in some poll for it |
| Gateways.PollingCoversTheRequired | native-cli/components/loadbalancer.go:98-131 | if polling ends without cancellation, the list has every gateway not marked from the start, only required ones, and none twice |
| Gateways.PollingListsExactlyTheRequired | native-cli/components/loadbalancer.go:303-313 | as the installer calls it, with nothing marked, the list is exactly the required set |

## Left out

- Future cancellation at await points: a call that is dropped half way through while it waits for the state manager is not modelled; every call of the pool is one atomic step.
- Worker objects: a worker is a value in the pool's map, so that aliasing of worker references cannot be expressed; its channel is reduced to whether a send succeeded, and its metrics and message contents are not there.
- The recency cache itself: it is an order and a map, without the linked list of the `lru` crate.
- Nested maps and dictionaries that the source changes through references (the collected tree, the module tree): the model rebuilds the path to the changed node instead.
- The keep-alive queue is a sequence of events; a closed queue, which the source only logs, is not modelled.
- The matching loop over all queued operations, the conversion of properties and the state manager behind it: only find, assign and hand-over of one action at a time, in any interleaving with other calls.
- `CacheLookupActionStateResult`, the extra error tip that the creator of an entry adds to an error, and callers that drop their own channel: they would only add easy members.
- Publishing of vectors and ordered collections, whose values the source discards, of kinds other than the default, help texts and value types. A hash set is published like a hash map with positions as keys, so it has no case of its own.
- Span identifiers and their reuse: the current span is a stack of names.
- The characters of printed lines, the header and the resolution of relative paths in the module generator: lines are tokens with an indentation.
- The data race between ranging over the required gateways and marking them, and the pause between polls.
- Gateways.PollReturnsExactly: does not say that a poller ever polls again, because scheduling and the cluster are outside of the model.
- Error texts are constructors of a datatype instead of strings; only their order and number matter.
- The gRPC scheduler, stores, configuration, generated protocol code, code tables of the error crate and the rest of the command line tool.
