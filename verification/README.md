# QJazz server core: a verified model

A Dafny model of the parts of QJazz in which correctness is hard to see from the code: the pool of
child processes and its asynchronous queue, the log that resynchronises workers, the protocol
between the server and its children, the dismissal of jobs, the project cache, the catalog, the
search path routes, JSON merge patch and the out-of-memory killer. `dafny verify dfyconfig.toml`
checks the whole project.

## How it is built

Concurrent code is a step system: a step is a stretch of code without an await point, which is
atomic because the server uses the current-thread runtime
(qjazz-server/qjazz-rpc/src/main.rs:73). Theorems quantify over every run, that is every
interleaving of steps, timeouts, dropped calls and failures included. Beside the step systems
stand classes whose methods update their fields as the source does; each method is proved to be the
corresponding step and to keep the invariants.

| file | what it models |
|---|---|
| `Wrappers.dfy`, `Sequences.dfy` | optional values; counting lemmas on finite sequences |
| `NotifyQueue.dfy` | the queue of idle workers on top of `tokio::sync::Notify` |
| `RestoreLog.dfy` | the versioned log and the resynchronisation of one worker |
| `WorkerPool.dfy`, `PoolObjects.dfy` | lending, recycling, reload and maintenance; the pool object |
| `Rendezvous.dfy` | the READY/BUSY channel and draining |
| `Frames.dfy`, `Session.dfy` | frames, envelopes, streams, whole sessions |
| `Dismissal.dfy` | dismissers against a worker |
| `JsonMerge.dfy`, `OomKiller.dfy` | two algorithms |
| `ProjectCache.dfy`, `Catalog.dfy`, `Routes.dfy` | project cache, catalog, search paths |

## Where the code does less than it says

The model follows the code. In these places a comment, or the evident intention, promises more; for
each one the exact condition is proved.

- A `recv` call dropped while it waits stays counted in `pending`. The pool refuses every request
  for good, idle workers or not, exactly when more than `max_requests` calls were dropped
  (`StarvedIffCancelledExceedLimit`, `StarvationIsReachable`).
- The log is replayed newest entry first. A worker several versions behind can end up with a removed
  project or without a pulled one: without a newer Clear, exactly on the URIs with a positive even
  number of newer entries; with one, it ends up empty whatever was pulled since (`ReplayOutcome`).
  Such a worker is handed out (`RemovedProjectCanBeHandedOut`); over whole runs of the pool the
  condition is `IdleWorkersHoldPullsIff`.
- A worker at version 0 is only sent pulls, so it never drops a project (`VersionZeroKeepsEverything`).
- The shrink branch forgets the deaths recorded on entry but leaves `num_processes` counting them;
  `stats_raw` reports that many busy workers too many from then on (`ShrinkLosesRecordedDeaths`);
  over whole runs it is exact iff no shrink that completes began with a death (`StatisticsAreExactIff`).
- `drain_until_task_done` expects that all data has been read once the flag is READY. That is
  certain exactly when the child is idle and has no message to receive when the drain begins
  (`DrainIsCleanIffChildIsDone`), which a READY flag shows once the BUSY of the last message has
  been consumed (`ReadyDrainIsClean`, `StaleReadyStopsTooEarly`).
- `stream_bytes` calls `done()` after a stream error too, so nothing is drained. The next request is
  aligned exactly when the frame that ended the stream was the last one and every frame up to it fits
  into the buffer (`AlignedIffStopIsLast`). A frame that does not fit is refused with its content
  left in the pipe (`OversizedChunkLeaks`); so is the error of a handler that raises after the
  sentinel (`LateErrorAnswersNextRequest`). With reports on, a handler that raises before the
  sentinel leaves the server waiting for a report that is never sent
  (`BrokenStreamSwallowsNextResponse`). For whole sessions: `SessionsStayAlignedIff`.
- In `_dismiss` a failure after the mark and before the protected block, or a failure to reset the
  mark inside it, leaves the job marked for ever, even while it runs; nothing else does
  (`MarkIsOrphanedIffLeft`, `OrphanedMarkIsPermanent`). A revoke that is not delivered is only logged
  (`RunningAfterAnswerIffRevokeLost`).
- A task is sent before it is registered: a job that nobody dismisses runs exactly when it is
  registered by the time of its start check (`UndismissedJobRunsIffRegistered`).
- The listener of the rendez-vous sets BUSY when it loses its peer, but an I/O error ends it with
  the flag as it was, READY included (`FlagAfterTheEnd`).
- `project()` passes the `CacheEntry` to `update`, which needs a `uri`: every request for a cached
  project raises (`OnlyUncachedProjectsAreServed`). The bound on the cache is proved for the code as
  written and for the variant that passes the entry's metadata (the parameter `unwrap`).
- Evicting while an unpinned entry is as young as the clock divides by zero (`EvictionSparesPinned`).
- Updating with the old entry's metadata reloads the project at every checkout
  (`OldMetadataNeverSettles`); an update settles a project exactly when its metadata is as recent as
  what is stored (`UpdateSettlesIff`).
- Two files with one suffix-stripped public path can make the incremental catalog go stale
  (`SharedPathGoesStale`); `IncrementalIffKeepsItsFile` says exactly when.
- A dynamic route whose url names an unknown variable raises on every path it applies to, and no
  later route is tried (`RouteOutcome`, `FirstMatchDecides`).
- The comment in `kill_out_of_memory_processes` announces a descending order: it is descending in
  truncated thousandths, and in memory exactly when ties are listed smallest first
  (`VictimsDescendInMemoryIff`); the same condition decides whether it kills as few as possible
  (`KillerIsOptimalIff`).

## Model

| member | source | states |
|---|---|---|
| `NotifyQueue.ReachableStatesKeepWakeups` | qjazz-server/qjazz-pool/src/queue.rs:46-127 | No lost wake-up, in every reachable state: if a `recv` call is suspended un-notified, no permit is stored and every queued item has a notified call on its way; `pending` equals the suspended calls plus the calls ever dropped while suspended; `count` is the queue length |
| `NotifyQueue.StepKeepsInv` | qjazz-server/qjazz-pool/src/queue.rs:46-127 | Each of receive, resume, drop, send, send_all, retain, drain, drain_map and close keeps the wake-up and counter invariant |
| `NotifyQueue.RunKeepsInv` | qjazz-server/qjazz-pool/src/queue.rs:46-127 | The invariant holds along every interleaving |
| `NotifyQueue.NotifyTimesKeepsInv` | qjazz-server/qjazz-pool/src/queue.rs:85-100 | The n notifications of `send_all` restore the invariant that n pushed items had broken |
| `NotifyQueue.AbandonKeepsInv` | qjazz-server/qjazz-pool/src/queue.rs:57-59 | Dropping a suspended call loses no wake-up: a `notify_one` it had received is passed on |
| `NotifyQueue.StepCalls` | qjazz-server/qjazz-pool/src/queue.rs:46-127 | Which calls are suspended after a step, by name: a drop takes away exactly the dropped call, a `recv` that suspends adds exactly itself, one that returns leaves, and no other step changes the set |
| `NotifyQueue.SuspendedCallsStay` | qjazz-server/qjazz-pool/src/queue.rs:57-60 | Nobody is forgotten: in every run a suspended call that is neither resumed nor dropped stays suspended |
| `NotifyQueue.RunKeepsDistinct` | qjazz-server/qjazz-pool/src/queue.rs:46-61 | In every run each call is suspended at most once, in one place |
| `NotifyQueue.WaitersKeepTheirOrder` | qjazz-server/qjazz-pool/src/queue.rs:57-67 | First come, first woken: in every run the later of two waiting calls is never notified before the other |
| `NotifyQueue.NewcomersGoLast` | qjazz-server/qjazz-pool/src/queue.rs:57-58 | A call that suspends comes after everybody who already waits |
| `NotifyQueue.NotifyTimesOutcome` | qjazz-server/qjazz-pool/src/queue.rs:97-99 | Any number of notifications wakes the oldest waiters, and stores the one permit iff it exceeds them |
| `NotifyQueue.ClosingStoresNothing` | qjazz-server/qjazz-pool/src/queue.rs:124-127 | Closing stores no permit, and a call that waited and is dropped afterwards wakes nobody in its place |
| `NotifyQueue.KeptAt` | qjazz-server/qjazz-pool/src/queue.rs:73-82 | Retaining keeps each chosen element, at the position given by the chosen ones before it |
| `NotifyQueue.KeptWasChosen` | qjazz-server/qjazz-pool/src/queue.rs:73-82 | Retaining keeps nothing else |
| `NotifyQueue.PollOutcome` | qjazz-server/qjazz-pool/src/queue.rs:46-61 | A stretch of `recv` takes the front item iff the queue is open and not empty, reports closed iff it is closed, and raises `pending` iff it suspends |
| `NotifyQueue.ClosedQueueYieldsNothing` | qjazz-server/qjazz-pool/src/queue.rs:44-50 | Once closed, in every continuation no `recv` stretch returns an item; each one reports that the queue is closed |
| `NotifyQueue.DeliveryIsFifo` | qjazz-server/qjazz-pool/src/queue.rs:46-100 | Over every run without retain and drain: items held at the start plus items sent equal items delivered plus items left, as sequences, so each comes out once and in order |
| `NotifyQueue.PendingIsBounded` | qjazz-server/qjazz-pool/src/pool.rs:57-62 | For a fixed limit, `pending` never exceeds `max_requests + 1` in any admitted run |
| `NotifyQueue.CancelledCallsStarveTheQueue` | qjazz-server/qjazz-pool/src/pool.rs:57-62 | Once more than `max_requests` calls have been dropped while waiting, every later call of every continuation is refused |
| `NotifyQueue.StarvedIffCancelledExceedLimit` | qjazz-server/qjazz-pool/src/pool.rs:57-62 | The exact condition, from every state of the invariant: no admitted continuation ever admits a new call again iff more than `max_requests` calls have been dropped while waiting |
| `NotifyQueue.EverybodyCanBeServed` | qjazz-server/qjazz-pool/src/queue.rs:46-100 | From every state of the invariant some continuation serves everybody who waits; then `pending` counts the dropped calls only |
| `NotifyQueue.StarvationIsReachable` | qjazz-server/qjazz-pool/src/queue.rs:57-59 | For every limit, an explicit admitted run ends with an idle worker, nobody waiting, and new calls refused |
| `NotifyQueue.Queue.PollLoop` | qjazz-server/qjazz-pool/src/queue.rs:46-61 | The `recv` loop computes the specified outcome and state, and terminates: a stored permit lets it go round at most once more |
| `NotifyQueue.Queue.StartRecv` | qjazz-server/qjazz-pool/src/queue.rs:46-61 | A new call performs the receive step and keeps the invariant |
| `NotifyQueue.Queue.ResumeRecv` | qjazz-server/qjazz-pool/src/queue.rs:57-60 | A notified call performs the resume step and keeps the invariant |
| `NotifyQueue.Queue.DropRecv` | qjazz-server/qjazz-pool/src/queue.rs:57-59 | Takes away exactly the dropped call, with `pending` untouched, and keeps the invariant |
| `NotifyQueue.Queue.SendItem` | qjazz-server/qjazz-pool/src/queue.rs:64-68 | Push, count and notify are the send step and keep the invariant |
| `NotifyQueue.Queue.SendItems` | qjazz-server/qjazz-pool/src/queue.rs:85-100 | The notification loop gives the send_all step and keeps the invariant |
| `NotifyQueue.Queue.RetainItems` | qjazz-server/qjazz-pool/src/queue.rs:73-82 | Keeps each chosen item behind the chosen ones before it, returns how many were removed, keeps the invariant |
| `NotifyQueue.Queue.DrainItems` | qjazz-server/qjazz-pool/src/queue.rs:104-110 | Takes items from the front, n of them or all there are; taken followed by kept is the old queue |
| `NotifyQueue.Queue.CloseQueue` | qjazz-server/qjazz-pool/src/queue.rs:124-127 | Closing releases every waiter and keeps the invariant |
| `RestoreLog.LogIsSound` | qjazz-server/qjazz-pool/src/restore.rs:85-116 | For every history and every past point of it, replaying the newer entries oldest first over the pulls of that point gives the current pulls, and each entry had an effect when recorded |
| `RestoreLog.HistoryIsWellFormed` | qjazz-server/qjazz-pool/src/restore.rs:85-116 | For every history: log versions strictly increase and stay at most `update`, a Clear can only be the first entry, no Update is logged |
| `RestoreLog.ConfigIsTheLastOneSet` | qjazz-server/qjazz-pool/src/restore.rs:85-88 | For every history the log holds the argument of the last configuration update, and none iff there was none |
| `RestoreLog.PullsAreTheLastWord` | qjazz-server/qjazz-pool/src/restore.rs:91-116 | For every history a project is pulled iff the last word on it, pull, removal or clear, was a pull, or nothing was said and it was pulled initially |
| `RestoreLog.ReplayOutcome` | qjazz-server/qjazz-pool/src/restore.rs:48-83 | Exact outcome of the newest-first replay: a worker holding the pulls of version v >= 1 ends empty if a Clear is newer; otherwise it agrees with the current pulls on a URI iff that URI has no newer entry or an odd number of them |
| `RestoreLog.RestoredExactlyIff` | qjazz-server/qjazz-pool/src/restore.rs:48-83 | A worker that held the pulls of its version >= 1 ends with the current pulls iff no URI has a positive even number of newer entries, or, if a Clear is newer, nothing has been pulled since |
| `RestoreLog.ForwardParity` | qjazz-server/qjazz-pool/src/restore.rs:91-116 | Oldest first, each entry for a URI flips its membership |
| `RestoreLog.BackwardOldestWins` | qjazz-server/qjazz-pool/src/restore.rs:59-73 | Newest first, a mentioned URI ends on the opposite side of where it started, whatever the number of mentions |
| `RestoreLog.OneVersionBehindIsExact` | qjazz-server/qjazz-pool/src/restore.rs:48-83 | A worker at most one version behind always ends with exactly the current pulls |
| `RestoreLog.TwoVersionsBehindCanBeWrong` | qjazz-server/qjazz-pool/src/restore.rs:59-73 | A pull and a removal of one URI while a worker is out: it ends up holding the removed project |
| `RestoreLog.VersionZeroKeepsEverything` | qjazz-server/qjazz-pool/src/restore.rs:50-54 | A worker at version 0 ends with exactly the pulls iff it held nothing else: that branch never drops a project |
| `RestoreLog.Restore.Record` | qjazz-server/qjazz-pool/src/restore.rs:91-116 | The in-place update is the specified log update and keeps the log well formed |
| `RestoreLog.Restore.SetConfiguration` | qjazz-server/qjazz-pool/src/restore.rs:85-88 | The argument is stored at the new version, so every worker up to the old version will be sent it; the log stays well formed |
| `RestoreLog.Restore.UpdateWorkerConfig` | qjazz-server/qjazz-pool/src/restore.rs:40-46 | Sends the configuration iff it is newer than the worker; fails iff the child does not answer |
| `RestoreLog.Restore.PullAll` | qjazz-server/qjazz-pool/src/restore.rs:50-54 | The loop over `pulls`, in any order, unites them with the worker's set, or fails when the child stops answering |
| `RestoreLog.Restore.ReplayNewestFirst` | qjazz-server/qjazz-pool/src/restore.rs:57-73 | The reverse loop with its early break equals the newest-first replay of exactly the newer entries |
| `RestoreLog.Restore.RestoreWorker` | qjazz-server/qjazz-pool/src/restore.rs:78-83 | Succeeds iff the child answers every message; only then is the worker at the current version with the specified projects and configuration |
| `WorkerPool.HandedOutWorkersAreCurrent` | qjazz-server/qjazz-pool/src/receiver.rs:85-123 | In every run, a worker handed out by `get` is at the current log version and holds the argument of the last configuration update of the run, or none if there was none |
| `WorkerPool.PullsOfRun` | qjazz-server/qjazz-pool/src/receiver.rs:113-117 | Which projects are pulled after a run: those on which the last word of its updates was a pull |
| `WorkerPool.IdleWorkersHoldPullsIff` | qjazz-server/qjazz-pool/src/pool.rs:70-127 | Over every run in which clients leave the caches alone: idle workers always hold exactly the pulled projects iff no resynchronisation met a log that replays wrongly from the worker's version, or a version 0 worker with a project that is not pulled |
| `WorkerPool.HandedOutWorkersHoldThePulls` | qjazz-server/qjazz-pool/src/receiver.rs:85-123 | From the start, under that condition, a worker handed out holds exactly the pulled projects |
| `WorkerPool.OneVersionBehindResyncsExactly` | qjazz-server/qjazz-pool/src/restore.rs:48-83 | In such a run a worker that missed at most one version is always resynchronised exactly |
| `WorkerPool.RemovedProjectCanBeHandedOut` | qjazz-server/qjazz-pool/src/receiver.rs:113-117 | An explicit run from the start: a project is pulled and removed while a worker is recycled, and the worker is handed out at the current version holding the removed project |
| `WorkerPool.RunIsSynced` | qjazz-server/qjazz-pool/src/pool.rs:70-127 | In every run: idle workers are current, others are never ahead of the log, and whoever holds the read lock works from the current log |
| `WorkerPool.RecycleStepIsSynced` | qjazz-server/qjazz-pool/src/pool.rs:92-127 | Recycling puts a worker back only at the version the log still has |
| `WorkerPool.AdminStepIsSynced` | qjazz-server/qjazz-pool/src/receiver.rs:108-123 | Draining and bumping the version in one write-locked step leaves no stale worker idle |
| `WorkerPool.UpkeepStepIsSynced` | qjazz-server/qjazz-pool/src/pool.rs:275-334 | Maintenance keeps every idle worker current; grown workers join the queue current |
| `WorkerPool.EveryWorkerIsInOnePlace` | qjazz-server/qjazz-pool/src/pool.rs:92-127 | In every reachable state each worker ever launched is in exactly one of idle, lent, recycling, being launched or ended; none is lent twice |
| `WorkerPool.StepPlaces` | qjazz-server/qjazz-pool/src/pool.rs:75-380 | Every step moves workers between places; only launching adds some, with fresh ids |
| `WorkerPool.StatisticsOfEveryRun` | qjazz-server/qjazz-pool/src/pool.rs:250-255 | Over every run `stats_raw` never underflows, `failures <= dead_workers`, and the reported busy count exceeds the real one by exactly what shrinking lost |
| `WorkerPool.StatisticsAreExactIff` | qjazz-server/qjazz-pool/src/pool.rs:250-348 | Over every run: `num_processes = idle + busy + dead_workers` holds in every state iff no shrink that completes began with a recorded death |
| `WorkerPool.StepIsCounted` | qjazz-server/qjazz-pool/src/pool.rs:75-348 | Every step keeps `num_processes = idle + busy + dead_workers + drift` and the counters read before a suspension covered, deaths during `grow` included; only the end of a shrink adds drift |
| `WorkerPool.ShrinkLosesRecordedDeaths` | qjazz-server/qjazz-pool/src/pool.rs:275-348 | The shrink branch keeps the equation iff no death was recorded on entry, and otherwise overcounts by exactly that number |
| `WorkerPool.GrowReachesNominalLessDrift` | qjazz-server/qjazz-pool/src/pool.rs:284-334 | After a successful grow without deaths meanwhile, the live workers number the nominal size less the accumulated drift |
| `WorkerPool.CleanUpOutcome` | qjazz-server/qjazz-pool/src/pool.rs:264-272 | After the clean-up every idle worker is alive, each living one stays behind the living ones before it, and the deaths grow by the number of dead idle workers |
| `WorkerPool.MaintenanceOutcome` | qjazz-server/qjazz-pool/src/pool.rs:275-348 | An open pool grows or shrinks by the difference to the live workers, a closed one not at all; a shrink retires the longest idle ones, as many as it can up to the difference; no dead worker is left idle |
| `WorkerPool.FailedGrowIsRetried` | qjazz-server/qjazz-pool/src/pool.rs:284-334 | A grow that fails, while starting or while resynchronising its workers, is asked for again in full |
| `WorkerPool.StepCounters` | qjazz-server/qjazz-pool/src/pool.rs:75-127 | Exactly what each step adds to the counters of deaths and failures, and what a completed maintenance subtracts |
| `WorkerPool.CountersOfRun` | qjazz-server/qjazz-pool/src/pool.rs:75-127 | Until a maintenance completes, the counters grow by the failures and deaths of the run |
| `WorkerPool.WaitingClientsStay` | qjazz-server/qjazz-pool/src/queue.rs:57-60 | In every run of the pool a client that waits stays suspended until it is resumed or goes away |
| `WorkerPool.ReloadBoundsHandouts` | qjazz-server/qjazz-pool/src/receiver.rs:108-111 | After a reload, in every continuation an older worker is handed out at most once more, and never if it was idle, lent or not yet past its generation check |
| `WorkerPool.ReloadBoundInEveryRun` | qjazz-server/qjazz-pool/src/pool.rs:92-127 | The reload bound, zero case included, for every reachable state and every continuation |
| `WorkerPool.ReloadBoundIsTight` | qjazz-server/qjazz-pool/src/pool.rs:103-114 | An explicit run from the start in which a worker past its generation check at the reload, of an older generation after it, is handed out once more |
| `WorkerPool.CreditPaysForHandouts` | qjazz-server/qjazz-pool/src/pool.rs:92-127 | In every run the hand-outs of a worker of an older generation are at most its places past the check |
| `WorkerPool.RunKeepsQueueInv` | qjazz-server/qjazz-pool/src/queue.rs:46-127 | The wake-up invariant of the queue holds in every run of the whole pool |
| `PoolObjects.PoolObject.GetWorker` | qjazz-server/qjazz-pool/src/pool.rs:57-62 | Refused iff more calls than `max_requests` are counted as waiting; otherwise the get step; an item handed out is up to date |
| `PoolObjects.PoolObject.ResumeGet` | qjazz-server/qjazz-pool/src/queue.rs:57-60 | A waiting call that is resumed takes an up-to-date worker, reports closed or waits again; keeps all invariants |
| `PoolObjects.PoolObject.AbortGet` | qjazz-server/qjazz-pool/src/queue.rs:57-59 | Exactly the client that goes away leaves the suspended calls; it stays counted in `pending`; keeps all invariants |
| `PoolObjects.PoolObject.ReleaseWorker` | qjazz-server/qjazz-pool/src/receiver.rs:41-54 | Dropping a handle moves its worker to one new recycling task |
| `PoolObjects.PoolObject.TerminateFailure` | qjazz-server/qjazz-pool/src/pool.rs:75-84 | One busy worker becomes a dead one, deaths stay ahead of failures by the same number, and all invariants of the pool are kept |
| `PoolObjects.PoolObject.RecycleOwned` | qjazz-server/qjazz-pool/src/pool.rs:92-127 | Each stretch of recycling is the specified step and keeps conservation, currency and the queue invariant |
| `PoolObjects.PoolObject.Drain` | qjazz-server/qjazz-pool/src/receiver.rs:100-111 | With the handles dropped at once, as reload and the updates do: the queue is emptied and every idle worker recycled |
| `PoolObjects.PoolObject.TakeAllIdle` | qjazz-server/qjazz-rpc/src/service/admin.rs:215 | With the handles kept, as the cache dump does: every idle worker is handed out, up to date; keeps all invariants |
| `PoolObjects.PoolObject.ReloadWorkers` | qjazz-server/qjazz-pool/src/receiver.rs:108-111 | Bumps the generation and drains; keeps all invariants |
| `PoolObjects.PoolObject.UpdateRestore` | qjazz-server/qjazz-pool/src/receiver.rs:113-123 | Drains and records the change under the write lock, a new configuration at a new version; keeps all invariants |
| `PoolObjects.PoolObject.CleanupDeadWorkers` | qjazz-server/qjazz-pool/src/pool.rs:264-272 | No dead worker is left idle, each living one stays behind the living ones before it, and the deaths grow by the number removed; the counters stay balanced |
| `PoolObjects.PoolObject.MaintainPool` | qjazz-server/qjazz-pool/src/pool.rs:275-302 | The stretch up to the first await: the dead leave, then grow, shrink or nothing; no dead worker is left idle; keeps all invariants |
| `PoolObjects.PoolObject.SpawnFinished` | qjazz-server/qjazz-pool/src/pool.rs:311-326 | New workers get the generation read after the spawn, and the read lock |
| `PoolObjects.PoolObject.GrowFinished` | qjazz-server/qjazz-pool/src/pool.rs:326-333 | Queues the resynchronised workers and subtracts the counters read on entry; keeps all invariants |
| `PoolObjects.PoolObject.ShrinkFinished` | qjazz-server/qjazz-pool/src/pool.rs:294-298 | Subtracts the counters read on entry; keeps all invariants, with the loss recorded as drift |
| `PoolObjects.PoolObject.ShrinkDropped` | qjazz-server/qjazz-pool/src/pool.rs:337-348 | A maintenance dropped inside a shrink never subtracts its counters, and keeps all invariants |
| `PoolObjects.PoolObject.StatsRaw` | qjazz-server/qjazz-pool/src/pool.rs:250-255 | Never underflows; busy is the lent and recycling workers plus the drift |
| `PoolObjects.PoolObject.ClosePool` | qjazz-server/qjazz-pool/src/pool.rs:351-355 | Closes the queue and keeps all invariants |
| `PoolObjects.PoolObject.DrainClosed` | qjazz-server/qjazz-pool/src/pool.rs:372-378 | Leaves no idle worker |
| `Dismissal.RunKeepsInv` | qjazz-processes/src/qjazz_processes/executor/processes.py:285-394 | Every interleaving of the worker, the executor and any number of dismissers keeps the handshake invariant |
| `Dismissal.AtMostOneDismisserIsPast` | qjazz-processes/src/qjazz_processes/executor/processes.py:295-316 | Under every interleaving at most one dismisser has marked the job and is still acting on it |
| `Dismissal.LookOutcome` | qjazz-processes/src/qjazz_processes/executor/processes.py:296-312 | The locked section, exactly: not found iff absent, already dismissed iff marked, unavailable iff unmarked and offline, otherwise on to the mark |
| `Dismissal.OfflineJobsAreNeverMarked` | qjazz-processes/src/qjazz_processes/executor/processes.py:307-316 | In every run whose looks are all offline the job is never marked |
| `Dismissal.DismissalCanSucceed` | qjazz-processes/src/qjazz_processes/executor/processes.py:295-389 | From every state of the invariant with the lock free and the job registered and unmarked, an idle dismisser has a continuation that ends in a delivered dismissal, the job not running |
| `Dismissal.DecideOutcome` | qjazz-processes/src/qjazz_processes/executor/processes.py:323-348 | A revoke is decided iff the job has started, or is pending and known to a worker |
| `Dismissal.RevokeOutcome` | qjazz-processes/src/qjazz_processes/executor/processes.py:353-364 | A delivered revoke ends a job that is queued, starting or running, and leaves any other as it is |
| `Dismissal.BackendTellsHowItEnded` | qjazz-processes/src/qjazz_processes/worker/worker.py:386-393 | In every run the stored state tells how the job ended: success or failure of its own, refusal, or revocation |
| `Dismissal.RunningJobIsSeen` | qjazz-processes/src/qjazz_processes/executor/processes.py:323-345 | If the job passed its start check, the dismisser that marked it has read STARTED or UPDATED and decides to revoke it |
| `Dismissal.DismissedJobNeverRuns` | qjazz-processes/src/qjazz_processes/executor/processes.py:352-389 | Once `_dismiss` has answered with its revoke delivered or not needed, the job does not run, then or in any continuation |
| `Dismissal.RunningAfterAnswerIffRevokeLost` | qjazz-processes/src/qjazz_processes/executor/processes.py:353-382 | A running job survives the dismissal exactly when the revoke did not reach its worker; the answer is the same either way |
| `Dismissal.MarkedJobDoesNotStart` | qjazz-processes/src/qjazz_processes/worker/worker.py:386-393 | A registered job that is marked or deleted does not start in any continuation in which no mark is reset |
| `Dismissal.ResetLetsJobStart` | qjazz-processes/src/qjazz_processes/executor/processes.py:390-394 | Resetting the mark after a failure lets a task that is about to check start |
| `Dismissal.MarkIsOrphanedIffLeft` | qjazz-processes/src/qjazz_processes/executor/processes.py:316-394 | In every run: the job is marked with nobody acting upon it iff some dismisser failed between the mark and the protected block, or failed inside it and could not reset the mark |
| `Dismissal.CrashOrphansTheMark` | qjazz-processes/src/qjazz_processes/executor/processes.py:316-348 | Each of the two failures leaves an orphaned mark whatever the job is doing, running included |
| `Dismissal.OrphanedMarkIsPermanent` | qjazz-processes/src/qjazz_processes/executor/processes.py:296-303 | In every continuation an orphaned mark stays, and each later call is refused as already dismissed |
| `Dismissal.OrphanedJobIsLeftAlone` | qjazz-processes/src/qjazz_processes/executor/processes.py:352-364 | In every continuation an orphaned job that runs goes on to its own end without a revoke, and one that does not run never starts |
| `Dismissal.UndismissedJobRunsIffRegistered` | qjazz-processes/src/qjazz_processes/worker/worker.py:386-393 | In every run without a mark, the start check lets the job run iff it is already registered, and refuses it otherwise |
| `Dismissal.UnregisteredJobIsRefused` | qjazz-processes/src/qjazz_processes/executor/processes.py:214-230 | A witness: the task is sent before it is registered, and a fast worker refuses a job that nobody dismissed and that is registered afterwards |
| `Dismissal.Registry.RegisterJob` | qjazz-processes/src/qjazz_processes/worker/registry.py:32-61 | The job is present and not dismissed; other jobs are unchanged |
| `Dismissal.Registry.DismissJob` | qjazz-processes/src/qjazz_processes/worker/registry.py:131-138 | Sets or resets the mark iff the job is present; agrees with the handshake model; other jobs are unchanged |
| `Dismissal.Registry.DeleteJob` | qjazz-processes/src/qjazz_processes/worker/registry.py:141-148 | Removes exactly that job |
| `Dismissal.Registry.MayStart` | qjazz-processes/src/qjazz_processes/worker/worker.py:386-393 | The start check passes iff the handshake model lets the job run |
| `Rendezvous.ChildBytesAlternate` | qjazz-server/qjazz-rpc/python/qjazz_rpc/connection.py:89-112 | Whatever the child calls, its bytes are 0, 1, 0, 1, ... and it is busy iff their number is even |
| `Rendezvous.ListenerStopsIffPeerLost` | qjazz-server/qjazz-pool/src/rendezvous.rs:137-188 | The listener ends iff it reads more than ten consecutive ends of file or an I/O error |
| `Rendezvous.FlagAfterTheEnd` | qjazz-server/qjazz-pool/src/rendezvous.rs:149-185 | After its end the flag never changes again: BUSY if the peer was lost, whatever it was before if an I/O error ended it |
| `Rendezvous.FlagFollowsParity` | qjazz-server/qjazz-pool/src/rendezvous.rs:159-172 | After k alternating bytes the flag is READY iff k is odd, whatever reads return in between |
| `Rendezvous.ParentAgreesWithChild` | qjazz-server/qjazz-pool/src/rendezvous.rs:137-188 | End to end: any calls of the child, any prefix read; with all bytes read the two sides agree |
| `Rendezvous.DrainIsCleanIffChildIsDone` | qjazz-server/qjazz-pool/src/worker.rs:214-235 | The exact condition, in every state a drain can be in: it always stops on an empty pipe, blocking passes included, iff the child is idle and has no message to receive |
| `Rendezvous.ReadyDrainIsClean` | qjazz-server/qjazz-pool/src/worker.rs:259-266 | In every run, a drain begun on a READY flag after the last BUSY was consumed always stops on an empty pipe |
| `Rendezvous.StoppedDrainLeavesLateBytes` | qjazz-server/qjazz-pool/src/worker.rs:214-235 | With the last BUSY consumed, the loop stops with the child idle, nothing in flight, and exactly the bytes written between the last empty blocking read and the readiness check |
| `Rendezvous.QuickPassStopsClean` | qjazz-server/qjazz-pool/src/worker.rs:214-228 | A pass that does not enter the blocking drain stops only on an empty pipe with nothing left to come |
| `Rendezvous.BlockingPassCanLeaveData` | qjazz-server/qjazz-pool/src/pipes.rs:77-111 | A run from the idle state: a drain begun on a busy child whose BUSY was consumed stops with any given amount of data in the pipe |
| `Rendezvous.StaleReadyStopsTooEarly` | qjazz-server/qjazz-pool/src/worker.rs:221-226 | Before the BUSY of the last message is consumed, the drain stops at once on a stale READY and the response arrives afterwards |
| `Rendezvous.RunKeepsChain` | qjazz-server/qjazz-pool/src/rendezvous.rs:137-188 | In every run the values alternate from the parent's flag through the bytes in flight to the child's state |
| `Rendezvous.ChildRendezVous.Busy` | qjazz-server/qjazz-rpc/python/qjazz_rpc/connection.py:104-107 | Writes BUSY iff idle; the bytes keep alternating |
| `Rendezvous.ChildRendezVous.Done` | qjazz-server/qjazz-rpc/python/qjazz_rpc/connection.py:109-112 | Writes READY iff busy; the bytes keep alternating |
| `Rendezvous.RendezVousListener.Listen` | qjazz-server/qjazz-pool/src/rendezvous.rs:137-188 | The loop computes the specified listener state for every sequence of read results; nobody is left waiting on READY |
| `Rendezvous.RendezVousListener.WaitReady` | qjazz-server/qjazz-pool/src/rendezvous.rs:85-94 | Goes on at once iff READY, otherwise one more call waits |
| `Frames.HeaderRoundTrip` | qjazz-server/qjazz-pool/src/pipes.rs:53 | The four header bytes, most significant first, give the length back |
| `Frames.HeadersCompareAsLengths` | qjazz-server/qjazz-pool/src/pipes.rs:53 | Most significant byte first: headers compare as byte strings the way their lengths do |
| `Frames.PayloadWasFrame` | qjazz-server/qjazz-pool/src/pipes.rs:114-127 | Whatever is in the pipe, what is read as a payload was there as a frame |
| `Frames.ReadFailsIff` | qjazz-server/qjazz-pool/src/pipes.rs:114-127 | Whatever is in the pipe, each failure of a read has its one cause |
| `Frames.RecvFrameOutcome` | qjazz-server/qjazz-rpc/python/qjazz_rpc/connection.py:52-77 | The same for the child: what it reads was there as a frame, and each failure has its one cause |
| `Frames.FrameOutcome` | qjazz-server/qjazz-pool/src/pipes.rs:114-127 | For every frame and whatever follows it: recovered intact iff its length is 1 to the buffer size, None iff empty, overflow iff longer, and then its content stays in the pipe |
| `Frames.FramesRoundTrip` | qjazz-server/qjazz-pool/src/pipes.rs:114-127 | A list of payloads is recovered in full iff each one fits |
| `Frames.SignBitOverflows` | qjazz-server/qjazz-pool/src/pipes.rs:115-116 | A header with the sign bit set is always refused as overflow |
| `Frames.PutRecvRoundTrip` | qjazz-server/qjazz-pool/src/pipes.rs:47-56 | A message of the server reaches the child intact iff its length fits in 31 bits: the length is truncated to 32 bits when written |
| `Frames.Pipe.ReadBytes` | qjazz-server/qjazz-pool/src/pipes.rs:114-127 | For every pipe and every split of it into non-empty reads, the buffered loop returns the specified result and leaves the rest; a body cut short by end of file is waited for as long as the caller has patience |
| `Frames.Connection.SendBytes` | qjazz-server/qjazz-rpc/python/qjazz_rpc/connection.py:79-86 | For every split into non-empty writes the output gains exactly one frame; nothing when cancelled or too long |
| `Frames.Connection.Recv` | qjazz-server/qjazz-rpc/python/qjazz_rpc/connection.py:52-77 | For every pipe and every split of it into non-empty reads: the message, or the specific error, and the rest of the pipe; the cancelled flag is reset; a body cut short is waited for as long as the caller has patience |
| `Frames.SendAll` | qjazz-server/qjazz-rpc/python/qjazz_rpc/connection.py:79-86 | Sending a list of payloads writes their frames in order |
| `Frames.Transfer` | qjazz-server/qjazz-pool/src/pipes.rs:114-127 | Child to server for every list of payloads that fit and every split of writes and reads: the same list arrives |
| `Session.SessionsStayAlignedIff` | qjazz-server/qjazz-pool/src/pipes.rs:114-198 | Over bytes, for every sequence of requests: each gets the answer the child meant and leaves exactly the later responses, iff every frame of every response fits into the buffer and every response ends where the server stops reading |
| `Session.AnswersAreMeantIff` | qjazz-server/qjazz-pool/src/pipes.rs:114-198 | All answers of a session together, for responses that end where they should: they are the ones the child meant iff every frame fits |
| `Session.StatusDecides` | qjazz-server/qjazz-pool/src/pipes.rs:262-280 | A pair of status 200 or 206 is a success, of any other an error with that status, for each kind of read |
| `Session.ScalarDecides` | qjazz-server/qjazz-pool/src/pipes.rs:240-260 | A bare 204 ends a stream, a 206 announces a chunk, and no other integer is understood |
| `Session.EmptyFrameDecides` | qjazz-server/qjazz-pool/src/pipes.rs:145-198 | A frame of length zero is an error of its own, in place of a response and in place of a chunk |
| `Session.ServeConsumesItsResponseIff` | qjazz-server/qjazz-pool/src/pipes.rs:145-198 | One request of any kind, failing ones included: its answer is the one meant and its frames and only its frames are consumed, iff every frame fits and the child ends where the server stops reading |
| `Session.StreamStopsAtFirstOther` | qjazz-server/qjazz-pool/src/pipes.rs:181-198 | After any chunks a byte stream delivers them in order and stops at the first other frame if everything fits; otherwise it ends in an overflow and leaves the response from the content of the first frame that does not fit |
| `Session.AlignedIffStopIsLast` | qjazz-server/qjazz-rpc/src/service.rs:114-143 | For every byte stream, any ending frame and any frames behind it: the next request is aligned iff the ending frame was the last of the response and every frame up to it fits |
| `Session.StreamBytesRoundTrip` | qjazz-server/qjazz-rpc/python/qjazz_rpc/messages.py:360-365 | Chunks sent by the child come out of the byte stream in order and the sentinel is consumed, iff every frame fits |
| `Session.StreamObjectsRoundTrip` | qjazz-server/qjazz-rpc/python/qjazz_rpc/messages.py:368-374 | Objects come out in order up to the end marker or the error of the child if everything fits; otherwise the stream ends in an overflow and leaves the rest |
| `Session.LeftoversComeFirst` | qjazz-server/qjazz-rpc/src/service.rs:105-144 | Whatever bytes the child sent, what a stream leaves of them is exactly what the next reader finds first |
| `Session.OversizedChunkLeaks` | qjazz-server/qjazz-rpc/src/service.rs:121-143 | A chunk longer than the buffer: the stream ends in an error and the next request is read from the content of the chunk |
| `Session.LateErrorAnswersNextRequest` | qjazz-server/qjazz-rpc/python/qjazz_rpc/worker.py:293-296 | A handler that raises after the sentinel, no report being awaited: the next request is answered with its error, whatever its own response |
| `Session.BrokenStreamSwallowsNextResponse` | qjazz-server/qjazz-rpc/src/service.rs:132-143 | A handler that raises before the sentinel, a report being awaited: the server takes the next response for the report |
| `Session.Io.NextResponse` | qjazz-server/qjazz-pool/src/pipes.rs:145-156 | Reading through the buffered pipe gives the specified response and leaves the rest |
| `Session.Io.NextObject` | qjazz-server/qjazz-pool/src/pipes.rs:159-178 | Reading through the buffered pipe gives the specified stream element and leaves the rest |
| `Session.Io.NextChunk` | qjazz-server/qjazz-pool/src/pipes.rs:181-198 | Reading one frame, and the announced one through the same buffer, gives the specified chunk and leaves the rest |
| `Session.ByteStream.Next` | qjazz-server/qjazz-pool/src/stream.rs:22-39 | One chunk per call; an end or an error is sticky and nothing more is read |
| `Session.ObjectStream.Next` | qjazz-server/qjazz-pool/src/stream.rs:63-80 | One object per call; an end or an error is sticky and nothing more is read |
| `Session.ForwardBytes` | qjazz-server/qjazz-rpc/src/service.rs:114-129 | The forwarding loop delivers the whole stream, an error included, and terminates |
| `JsonMerge.Merge` | qjazz-server/qjazz-pool/src/utils.rs:10-27 | The loop over the members of the patch, in any order, equals the recursive MergePatch of section 2 of RFC 7396 |
| `JsonMerge.MergeIsIdempotent` | qjazz-server/qjazz-pool/src/utils.rs:10-27 | Applying a patch twice is applying it once |
| `JsonMerge.PassedPlacesAreKept` | qjazz-server/qjazz-pool/src/utils.rs:20-26 | At every depth: where the patch comes to a key it does not name, the document is untouched |
| `JsonMerge.ValuesAreSet` | qjazz-server/qjazz-pool/src/utils.rs:11-14 | At every depth: a value of the patch that is neither an object nor null is put in its place |
| `JsonMerge.NullsTakeAway` | qjazz-server/qjazz-pool/src/utils.rs:21-22 | At every depth: a null of the patch takes its member away |
| `JsonMerge.ObjectsAreMerged` | qjazz-server/qjazz-pool/src/utils.rs:23-25 | At every depth: an object of the patch is merged into what the document has in its place |
| `JsonMerge.UnnamedMembersAreKept` | qjazz-server/qjazz-pool/src/utils.rs:20-26 | Members the patch does not name are untouched, absent ones included |
| `JsonMerge.MergeKeepsNullFree` | qjazz-server/qjazz-pool/src/utils.rs:20-26 | An object patch keeps a document without null members outside arrays |
| `JsonMerge.EveryDocumentIsReachable` | qjazz-server/qjazz-pool/src/utils.rs:10-27 | Every null-free document is reached from every document by the patch that records their difference |
| `OomKiller.KillerIsNearOptimal` | qjazz-server/qjazz-rpc/src/oom.rs:84-103 | If any j processes would bring the total down to the mark less j thousandths, at most j are killed |
| `OomKiller.KillsAreFirstPrefix` | qjazz-server/qjazz-rpc/src/oom.rs:91-102 | The kills are the first prefix of the victims that brings the total below the mark, or all of them |
| `OomKiller.KillsIffAboveTheMark` | qjazz-server/qjazz-rpc/src/oom.rs:84-86 | Nobody is killed up to the mark; above it somebody is iff the signal reaches anybody |
| `OomKiller.KillableAt` | qjazz-server/qjazz-rpc/src/oom.rs:94-97 | Each process that the signal reaches is considered, behind the reachable ones before it; the others are skipped |
| `OomKiller.VictimsAreDescending` | qjazz-server/qjazz-rpc/src/oom.rs:90-91 | The victims are all the processes in descending order of the truncated key |
| `OomKiller.FirstOnesAreLargest` | qjazz-server/qjazz-rpc/src/oom.rs:90-91 | For every weight, the first processes of a descending list have the largest sum of all selections of that size |
| `OomKiller.VictimsDescendInMemoryIff` | qjazz-server/qjazz-rpc/src/oom.rs:88-91 | The victims are in descending order of memory iff processes with one truncated key are listed smallest first (the sort is stable) |
| `OomKiller.KillerIsOptimalIff` | qjazz-server/qjazz-rpc/src/oom.rs:84-103 | For every mark no smaller selection would have brought the total below it, iff processes with one truncated key are listed smallest first |
| `OomKiller.KillerIsNotAlwaysOptimal` | qjazz-server/qjazz-rpc/src/oom.rs:90 | A witness: two processes with one key, the larger one listed first |
| `OomKiller.KillInOrder` | qjazz-server/qjazz-rpc/src/oom.rs:91-102 | The loop, with failing kills skipped and not counted, kills the specified processes |
| `OomKiller.KillOutOfMemoryProcesses` | qjazz-server/qjazz-rpc/src/oom.rs:84-103 | Nothing is killed unless the total exceeds the mark; otherwise the specified processes are |
| `ProjectCache.RunsKeepBound` | qjazz-processes/src/qjazz_processes/worker/context.py:229-253 | Every run of `project()` requests without pinning keeps the cache within `max_cached_projects`, whatever is stored and whatever fails, as written and with the metadata taken out of the entry |
| `ProjectCache.ServesKeepsBound` | qjazz-processes/src/qjazz_processes/worker/context.py:237-253 | One request keeps every entry under its own uri and the size within the bound |
| `ProjectCache.OnlyUncachedProjectsAreServed` | qjazz-processes/src/qjazz_processes/worker/context.py:237-250 | As written a request is served iff the project is stored, not cached and loadable, and there is room or the eviction does not divide by zero; every request for a cached one raises and changes nothing |
| `ProjectCache.UnwrappedEntriesAreServed` | qjazz-processes/src/qjazz_processes/worker/context.py:250-253 | With the metadata taken out of the entry, an unchanged project is served from the cache and gains one hit |
| `ProjectCache.UnwrappedRemovalsLeave` | qjazz-processes/src/qjazz_processes/worker/context.py:239-241 | With the metadata taken out of the entry, a project removed from the storage leaves the cache |
| `ProjectCache.UpdateKeepsKeys` | qjazz-contrib/src/qjazz_cache/cachemanager.py:302-345 | An update keeps every entry under its own uri and touches no other entry |
| `ProjectCache.CheckedUpdateSettles` | qjazz-contrib/src/qjazz_cache/cachemanager.py:252-345 | Whatever a checkout finds, updating with what the storage says settles it: the next checkout is UNCHANGED, or NOTFOUND for a removed project |
| `ProjectCache.UpdateSettlesIff` | qjazz-contrib/src/qjazz_cache/cachemanager.py:302-345 | An update settles a project iff the metadata it uses is as recent as what is stored |
| `ProjectCache.LoadedEntriesAreFresh` | qjazz-contrib/src/qjazz_cache/cachemanager.py:347-381 | A project that is loaded gets the time of loading as its time stamp, no hits and no pin |
| `ProjectCache.UpdateRaisesIff` | qjazz-contrib/src/qjazz_cache/cachemanager.py:321-345 | When an update raises, exactly, and what it leaves: only a failing reload changes the cache |
| `ProjectCache.FreshMetadataSettles` | qjazz-contrib/src/qjazz_cache/cachemanager.py:252-345 | After an update with freshly read metadata the next checkout is UNCHANGED, until a later modification |
| `ProjectCache.OldMetadataNeverSettles` | qjazz-server/qjazz-rpc/python/qjazz_rpc/op_cache.py:162-165 | After any number of updates with the old entry's metadata, each of which reloads the project, it still needs an update |
| `ProjectCache.EvictionSparesPinned` | qjazz-contrib/src/qjazz_cache/extras.py:36-47 | Eviction keeps every pinned entry, and frees a place iff some entry is not pinned and none divides by zero |
| `ProjectCache.VictimIsLeastPopular` | qjazz-contrib/src/qjazz_cache/extras.py:38-42 | The evicted entry has the fewest hits for its age among the unpinned ones |
| `ProjectCache.EvictionMakesRoom` | qjazz-contrib/src/qjazz_cache/extras.py:36-47 | Without pinned entries a non-empty cache loses exactly one entry, or the eviction raises and changes nothing |
| `ProjectCache.CacheManager.UpdateEntry` | qjazz-contrib/src/qjazz_cache/cachemanager.py:302-345 | The specified update, failures included: a failing reload leaves the entry deleted |
| `ProjectCache.CacheManager.LeastPopular` | qjazz-contrib/src/qjazz_cache/extras.py:36-42 | Returns an unpinned entry of minimal hits over age, None iff all are pinned, an error iff some age is zero |
| `ProjectCache.CacheManager.EvictByPopularity` | qjazz-contrib/src/qjazz_cache/extras.py:17-47 | Removes that entry and nothing else |
| `ProjectCache.CacheManager.Project` | qjazz-processes/src/qjazz_processes/worker/context.py:229-253 | The request as a whole behaves as specified and keeps the keys |
| `Catalog.IncrementalEqualsRebuilt` | qjazz-contrib/src/qjazz_ogc/catalog.py:109-157 | After any run of updates the catalog equals one built from scratch, given modification times that advance with every change and distinct stripped paths |
| `Catalog.IncrementalIffKeepsItsFile` | qjazz-contrib/src/qjazz_ogc/catalog.py:125-147 | The exact condition on what the listing shows, shared paths included, when each file's clock advances: one update equals a rebuild iff, for each path that keeps an item, the last loadable project listed is the item's own file and not newer |
| `Catalog.RunsEqualRebuiltIff` | qjazz-contrib/src/qjazz_ogc/catalog.py:109-157 | The same over every run: each update leaves the catalog equal to a rebuild iff each listing keeps its files |
| `Catalog.IncrementalIffFaithful` | qjazz-contrib/src/qjazz_ogc/catalog.py:125-147 | Without any assumption on clocks: one update equals a rebuild iff every item it ends up keeping is the one that the last loadable project of its path builds |
| `Catalog.EveryUpdateEqualsRebuiltIff` | qjazz-contrib/src/qjazz_ogc/catalog.py:109-157 | That condition over every run of updates |
| `Catalog.UpdatedItems` | qjazz-contrib/src/qjazz_ogc/catalog.py:120-147 | The item of a path comes from the last project listed for it that was kept or loaded; a path without one has no item |
| `Catalog.RebuiltItems` | qjazz-contrib/src/qjazz_ogc/catalog.py:130-147 | Metadata, collection and location of a rebuilt item are those of the last loadable project of its path |
| `Catalog.OnlyChangedProjectsAreLoaded` | qjazz-contrib/src/qjazz_ogc/catalog.py:128-138 | An update loads only projects that are new under their path or newer than their item: what loading others would give makes no difference |
| `Catalog.SelectedAt` | qjazz-contrib/src/qjazz_ogc/catalog.py:120-126 | Exactly the wanted projects are considered, all or the pinned ones, in the order of the listing and under their stripped paths |
| `Catalog.BothKindsShareTheirPath` | qjazz-contrib/src/qjazz_ogc/catalog.py:125 | A file of either suffix is published under its bare name |
| `Catalog.UpdatedIsKeyed` | qjazz-contrib/src/qjazz_ogc/catalog.py:149-157 | Every item is stored under its own public path, and comes from a listed project |
| `Catalog.SharedPathGoesStale` | qjazz-contrib/src/qjazz_ogc/catalog.py:125-129 | A witness: two files that publish one stripped path violate the condition, and the incremental catalog differs from a rebuild |
| `Catalog.CatalogObject.Update` | qjazz-contrib/src/qjazz_ogc/catalog.py:109-157 | The generator loop collects the specified catalog |
| `Routes.PublicPathInvertsResolve` | qjazz-contrib/src/qjazz_cache/cachemanager.py:178-212 | Without a query template every path for which a route is found gets an url, and `public_path` of it is the path again |
| `Routes.InverseIffQueryIsPlain` | qjazz-contrib/src/qjazz_cache/cachemanager.py:201-212 | For every path that gets an url: the inverse returns the path iff formatting leaves the query as it is, or the path is the location itself |
| `Routes.ResolvesIff` | qjazz-contrib/src/qjazz_cache/cachemanager.py:194-218 | A path gets an url iff some route applies, the url of the first one that does names only variables of its location, and its query then names nothing but `path`; it is refused iff no route applies; otherwise resolution raises |
| `Routes.RouteOutcome` | qjazz-contrib/src/qjazz_cache/routes.py:192-200 | The three outcomes of one route, exactly: it passes iff it does not apply; one that applies raises iff its url names something other than its variables, whatever the path |
| `Routes.DynamicUrlIsFilledIn` | qjazz-contrib/src/qjazz_cache/routes.py:192-198 | The url of a dynamic route is its template with each variable replaced by what the path has in its place |
| `Routes.FormatSucceedsIff` | qjazz-contrib/src/qjazz_cache/routes.py:187-198 | Formatting raises iff the braces are malformed or a field has no value |
| `Routes.FormatUndoesDoubling` | qjazz-contrib/src/qjazz_cache/routes.py:187-198 | Any text can be put into a template: with its braces doubled it formats to itself |
| `Routes.QueryTemplateLosesPath` | qjazz-contrib/src/qjazz_cache/cachemanager.py:204-207 | With a query template the inverse returns the location only |
| `Routes.PathFieldRoundTrip` | qjazz-contrib/src/qjazz_cache/cachemanager.py:202-205 | The `path` field of a query stands for the relative path, the empty one included |
| `Routes.FirstMatchDecides` | qjazz-contrib/src/qjazz_cache/cachemanager.py:195-202 | The first route in configuration order that applies decides, by an url or by raising, whatever comes after it |
| `Routes.LocationIsMatchedPrefix` | qjazz-contrib/src/qjazz_cache/routes.py:174-198 | For every template and every match, formatting the captures gives exactly the matched text, a prefix of the input |
| `Routes.ResolvedLocationIsPrefix` | qjazz-contrib/src/qjazz_cache/routes.py:120-123 | The location of a resolved path is a component-wise prefix of it; a dynamic one is the matched text |
| `Routes.FormatterGivesMatchedText` | qjazz-contrib/src/qjazz_cache/routes.py:137-168 | `format_map` undoes the construction of the formatter, whatever follows it |
| `Routes.PiecesAreWellFormed` | qjazz-contrib/src/qjazz_cache/routes.py:141-158 | Every template that can be built has brace-free literals and identifier variables, so formatting needs no escaping |
| `Routes.PathRoundTrip` | qjazz-contrib/src/qjazz_cache/handlers/file.py:77-82 | Printing a path and parsing it again gives the same components |
| `Routes.BuildRoute` | qjazz-contrib/src/qjazz_cache/routes.py:133-168 | From the location to the template, its pattern and formatter, or the specific refusal; for a location that starts with a slash the two closing assertions always hold |
| `Routes.PartsMakeTheLocation` | qjazz-contrib/src/qjazz_cache/routes.py:141 | Splitting a location into text and variables loses nothing: the parts put together are the location |
| `Routes.PrintedTemplatesAreBuilt` | qjazz-contrib/src/qjazz_cache/routes.py:141-158 | Every template can be written down: a location printed from pieces, expressions with nested braces included, is built into those pieces |
| `Routes.EscapeIsLiteral` | qjazz-contrib/src/qjazz_cache/routes.py:158 | Escaped text stands for itself, with nothing left that the engine would interpret |
| `Routes.ComponentsAreValid` | qjazz-contrib/src/qjazz_cache/cachemanager.py:194 | Whatever the text, its path components are proper ones: empty ones and dots are gone |

## Left out

- `tokio::sync::Notify` is modelled by its documented behaviour: one stored permit, `notify_one` in
  order of arrival, `notify_waiters` storing nothing, a dropped notified call passing its
  `notify_one` on. Runs with several threads, where `send` could be interleaved, are not modelled.
- Real time and signals: timeouts, child deaths and failing messages are steps that may happen at
  any moment. Progress (that a suspended call eventually runs) is not stated.
- `grow` holds the read lock once per worker; the model takes the resynchronisation of all new
  workers and `send_all` as one read-locked section.
- Process ids, `remember`, `forget_pid` and the process scan of the out-of-memory killer: the killer
  starts from the list of processes with their memory fractions.
- WorkerPool.StatisticsOfEveryRun: states the equation with the drift that shrinking adds, because
  without it the equation is false; `StatisticsAreExactIff` says when it holds.
- WorkerPool.IdleWorkersHoldPullsIff: says nothing of runs in which clients load or drop projects in
  the workers they hold, because the pool does not see what they do.
- Frames.Pipe.ReadBytes: at end of file inside a body the source's loop never ends; the model gives
  up after `patience` empty reads, for every value of it, and reports `Stalled`.
- Frames.Connection.Recv: the same, reported as `Starved`. The header is read in one piece, and a
  shorter one raises, as in the source.
- MessagePack: the encoding is a parameter, with non-empty results that decode back. The message
  types and `read_nodata` are not modelled; a payload of 2^31 bytes or more cannot be packed into a
  frame and is not sent.
- Session.SessionsStayAlignedIff: the responses are those of handlers that answer, refuse, or raise
  before or after the end of their stream; a request cancelled by its client is not part of it.
- Session.ForwardBytes: the client stays to the end of the stream; when it goes away the loop stops
  and the worker is recycled with its response pending.
- `drain_until_task_done` and `cancel_timeout` are steps of a protocol rather than methods: whether
  the loop ends depends on the child.
- `_dismiss` follows one job; the registry lock is taken to exclude, although it has a timeout.
  Celery is taken to store STARTED before `before_start`. A deletion that takes effect and is
  reported as failed, expiry and glob matching of Redis keys, and `_job_status_pending` are not
  modelled.
- JsonMerge.Merge: returns the new document instead of writing through a reference.
- Memory fractions, time stamps and popularities are real numbers: rounding is not modelled.
- ProjectCache.CacheManager.LeastPopular: the order of a Python dictionary is not modelled, any
  minimal entry may be evicted.
- ProjectCache.CacheManager.Project: one clock reading stands for the eviction and the new entry.
- `CacheManager.update_cache` changes the dictionary it iterates over and is not modelled; nor are
  `Catalog.get_and_update`, direct path resolution and the suffix search of the file handler.
- Loading a project is an uninterpreted result; QGIS itself is not part of this model.
- Routes.BuildRoute: whether the assembled pattern compiles is the answer of the regular expression
  engine and a parameter of the model; two groups of one name never compile.
- Routes.LocationIsMatchedPrefix: the regular expression engine is taken to give a match whose
  literals and captures concatenate to a prefix of the input.
- Replacement fields with attributes, indices, conversions or format specifications, urls that
  cannot be split, captured values that contain `?` or `#`, and paths that start with two slashes
  are not modelled; scheme, path and query of an url are formatted apart.
- HTTP and gRPC handlers, TLS, CLIs, schemas, OGC and STAC models and access control are not
  modelled.
