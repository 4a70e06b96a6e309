# Bluetooth stack infrastructure, modelled and proved in Dafny

The Bluetooth stack rests on a handful of small services with real whole-run
invariants.  This project models them and proves those invariants.

| component | files |
|---|---|
| LRU cache: a list plus an index of list nodes | `RecencyList`, `LruHistory`, `LruCache` |
| metric id allocator over two LRU caches and a persistent store | `IdSpace`, `MetricIds`, `MetricIdRuns`, `MetricIdRecency`, `MetricIdAllocators` |
| module registry: dependency-ordered start, reverse teardown | `DependencyGraph`, `Registry` |
| metrics logger: sessions, A2DP statistics, bounded leaking queues, dumps | `LeakyQueue`, `A2dpMetrics`, `SessionLog`, `SessionLedger`, `SessionRecords`, `MetricsLog`, `MetricsLogger` |
| message loop thread: concurrent start, shutdown, posting | `MessageLoopThread`, `MessageLoopCalls`, `MessageLoopProgress` |
| repeating timer: catch-up arithmetic and cancellation | `TimerClock`, `RepeatingTimer`, `TimerCalls` |
| audio port and output stream | `AudioParams`, `AudioStream`, `AudioCalls`, `FeedingDelay` |
| packed deep copy of property arrays | `PropertyCopy` |

Objects the stack updates in place (the cache, the allocator, the registry, the
queues, the logger) are classes.  Each method is proved against a function on
plain values, and what the design promises is proved about that function over
every sequence of operations.  Code that several threads enter (message loop,
timer, audio port) is a step system: `Enabled` and `Do` give the atomic steps,
`Run` is any finite interleaving of them, and theorems hold in every state of
every run.  Clocks, store callbacks, session-control replies and the iteration
order of hash maps are parameters, so theorems hold for every choice of them.

`dafny verify dfyconfig.toml` checks the whole project.

## Where the code and its comments part

* The message loop header says a thread is running once `StartUp` returns.  A
  second caller can return while the worker has not yet published its loop
  (`StartUpMayReturnBeforeRunning`).  It returns to a running thread if and only
  if the worker has announced itself and has not exited
  (`SecondStartUpReturnsRunningIff`).  The caller that spawned the thread does
  if and only if the worker has not begun to take itself down, so in any case
  when nobody has posted a quit (`SpawnerReturnsRunningIff`).
* The same header says a thread is stopped once `ShutDown` returns.  During
  start-up `ShutDown` returns without stopping anything
  (`ShutDownMayMissStartingThread`).  It takes the thread down if and only if the
  worker is live and not already asked to quit (`ShutDownClaimsIff`), and then
  returns with no thread (`ClaimingShutDownReturnsStopped`).  Otherwise
  `IsRunning` still says yes if and only if the worker serves, and then another
  `ShutDown` has already posted its quit (`SecondShutDownReturnsStoppedIff`).
* The same header says a yes of `IsRunning` means the thread is able to do work,
  and a post returns whether it was scheduled.  Both also say yes of a worker
  that has left its loop (`RunningMayMeanLeaving`, `PostMayBeLost`).  Apart from
  that they are right, so in any case when no quit was posted
  (`RunningMeansAbleIff`, `PostMeansAbleIff`).
* `Cancel` of a repeating timer is documented to cancel the current closure.  One
  that is still under way also ends a scheduling made after it
  (`StaleCancelIsReachable`).  Without a new call something is cancelled if and
  only if a cancellation is under way (`StillCancelsIff`), and with none a
  scheduling stays as it is (`StaysScheduled`).
* A user closure of a repeating timer that calls into the timer while another
  thread waits inside `SchedulePeriodic` never gets through: such states occur
  (`BlockedIsReachable`), nothing but the end of the closure leaves them
  (`StaysBlocked`), and a call gets through if and only if nobody waits
  (`GetsThroughIff`, for cancelling and scheduling alike: `MayCallIsEither`).
* The first delay of a repeating timer is an unsigned 64-bit difference.  It
  leads to the first expected time if and only if the post is made no later than
  that; otherwise it has wrapped (`FirstDelayIff`), which happens
  (`LateFirstPostIsReachable`).  How the time library reads a
  wrapped delay is not part of this model: a late first post may fall due at any
  time from then on, and the timing theorems hold for every choice.
* The allocator does not check the ids it is restored with.  Its invariant holds
  after `Init` if and only if the saved ids are pairwise different
  (`InitialIffRestorable`, `RepeatedIdsBreakInv`).  A save that the store refuses
  is never tried again while the device stays paired (`RefusedSaveDiverges`,
  `RefusedSaveIsNotRetried`, `RefusedStaysOffDisk`), so the store equals the paired cache exactly when
  no refusal is outstanding (`DiskEqualsPairedIff`).
* On a graph where the requested module reaches a cycle, and only then, `Start`
  never returns (`StartTerminatesIff`, `SelfDependencyNeverStarts`).
* The integer media-timer average depends on the order of the merges
  (`AverageDependsOnOrder`).  It is exact if and only if every merge divides
  evenly (`AverageIsExactIff`), and two orders agree if and only if their merges
  truncate equally much (`OrderMattersIff`).
* `Reset` leaves the headset connection counters as they are (`RunHeadset`,
  `ResetKeepsConnection`).
* Device information is recorded with the type it was given if and only if that
  is BR/EDR (`DeviceTypeIsRecordedIff`).
* The stream header says the presented-frames counter is never reset.  Closing
  and exiting reset it (`ClosingResetsPresented`, `PresentedFalls`); no other step takes it back
  (`StepCountsFrames`).
* The queue header promises a null result for `Dequeue` on an empty queue, where
  the code has undefined behaviour.  The logger never gets there (`Drain`,
  `Build`), although the last loop of a dump looks at one queue and takes
  from another (`DrainWakes`).

## Model

| member | source | states |
|---|---|---|
| `RecencyList.IndexOf` | system/common/lru.h:79-87 | the first position that holds the key, or the length when none does |
| `RecencyList.MapSize` | system/common/lru.h:177-180 | with distinct keys, the list and the map it denotes have the same size |
| `RecencyList.TouchKeepsMap` | system/common/lru.h:79-87 | warming a key up changes no binding, keeps keys distinct and the length |
| `RecencyList.WithoutRemovesKey` | system/common/lru.h:156-170 | removal takes exactly one key out of the map and keeps keys distinct |
| `RecencyList.InsertBindsKey` | system/common/lru.h:128-148 | inserting binds the key within capacity; an eviction takes out exactly the victim, with its current value, and never the new key |
| `RecencyList.WriteBindsKey` | system/common/lru.h:79-87 | a write changes the value of a key that is there, and nothing else |
| `LruHistory.LastTouch` | system/common/lru.h:79-87 | the index of the last call that names the key, found or not, or -1 |
| `LruHistory.LastHitIsLast` | system/common/lru.h:79-87 | the index of the last successful touch of the key: a Put, or a Find that found it |
| `LruHistory.CachedKeysWereHit` | system/common/lru.h:79-87 | for a cached key the last call that names it is the last that touched it with success |
| `LruHistory.HistoryDeterminesList` | system/common/lru.h:64-170 | after every history: strictly ordered by last touch, every value the last one written, keys distinct, never over capacity |
| `LruHistory.PutEvictsLeastRecent` | system/common/lru.h:128-148 | a new key on a full cache evicts the one key whose last successful touch is strictly oldest, and hands back the value last written to it |
| `LruHistory.PutWithRoomEvictsNothing` | system/common/lru.h:128-148 | with room, or with the key already there, nothing is evicted and only that binding changes |
| `LruHistory.OtherCallsOnMaps` | system/common/lru.h:64-170 | after any history, a find changes no binding, a removal takes out exactly its key, a clear everything, and a write through the address exactly that value |
| `LruCache.LegacyLruCache.constructor` | system/common/lru.h:47-53 | an empty cache of the given positive capacity |
| `LruCache.LegacyLruCache.Clear` | system/common/lru.h:64-68 | empties list and index |
| `LruCache.LegacyLruCache.IndexAgrees` | system/common/lru.h:79-87 | the index holds exactly the listed keys, and points at the node of its own key |
| `LruCache.LegacyLruCache.Find` | system/common/lru.h:79-87 | refines the list's touch; hands out the node of the key, now at the front, or null exactly when the key is missing |
| `LruCache.LegacyLruCache.Get` | system/common/lru.h:97-106 | the value bound to the key, if any; the key becomes the most recent |
| `LruCache.LegacyLruCache.HasKey` | system/common/lru.h:115-118 | membership; asking also makes the key the most recent |
| `LruCache.LegacyLruCache.Poke` | system/common/lru.h:79-87 | a write through the address `Find` handed out changes that value and no order |
| `LruCache.LegacyLruCache.Put` | system/common/lru.h:128-148 | refines the list's insert and returns exactly its victim |
| `LruCache.LegacyLruCache.Remove` | system/common/lru.h:156-170 | refines the list's removal; true exactly when the key was there |
| `LruCache.LegacyLruCache.Size` | system/common/lru.h:177-180 | the number of entries listed |
| `LruCache.Replay` | system/common/lru.h:64-170 | any history of calls leaves the linked cache with the contents of the plain recency list |
| `IdSpace.TakenRunIsBounded` | system/common/metric_id_allocator.cc:41-45 | pigeonhole: n consecutive taken ids need n taken ids |
| `IdSpace.FirstFreeUnique` | system/common/metric_id_allocator.cc:129-135 | there is at most one first free id after a cursor |
| `IdSpace.NextFree` | system/common/metric_id_allocator.cc:129-135 | with fewer ids taken than exist, the search ends with a free id in range |
| `IdSpace.NextFreeIsFirst` | system/common/metric_id_allocator.cc:129-135 | what the search finds is the first free id cyclically at or after the cursor |
| `MetricIds.IdsBounded` | system/common/metric_id_allocator.cc:41-45 | the cache capacities keep the ids in use below the size of the id space |
| `MetricIds.AllocateKnown` | system/common/metric_id_allocator.cc:117-127 | a cached device keeps its id and no binding changes |
| `MetricIds.AllocateNew` | system/common/metric_id_allocator.cc:128-147 | a new device is bound to the next free id among the temporaries; an evicted temporary gives its own id back |
| `MetricIds.AllocateKeepsInv` | system/common/metric_id_allocator.cc:117-147 | keeps: ids in use are exactly the cached ones, caches disjoint, ids pairwise different and in range |
| `MetricIds.SaveOnMaps` | system/common/metric_id_allocator.cc:150-177 | a temporary moves to the paired cache with its id; anything else changes no binding and succeeds exactly for paired devices; an evicted pairing is forgotten |
| `MetricIds.SaveKeepsInv` | system/common/metric_id_allocator.cc:150-177 | keeps the same invariant, evictions included |
| `MetricIds.ForgetOnMaps` | system/common/metric_id_allocator.cc:180-195 | removes the device from the paired cache only |
| `MetricIds.ForgetKeepsInv` | system/common/metric_id_allocator.cc:180-205 | keeps the same invariant |
| `MetricIds.InitialIffRestorable` | system/common/metric_id_allocator.cc:51-89 | right after loading, the invariant holds if and only if the saved map fits, is in range and has pairwise different ids |
| `MetricIds.RepeatedIdsBreakInv` | system/common/metric_id_allocator.cc:69-79 | two devices saved with one id are accepted and break the invariant |
| `MetricIdRuns.RunIsSafe` | system/common/metric_id_allocator.cc:51-205 | the allocator invariant and the store invariant hold in every state of every run, across restarts from the store |
| `MetricIdRuns.AllocationPicksFirstFree` | system/common/metric_id_allocator.cc:117-147 | a known device gets its own id, a new one the first free id after the cursor, and is cached with it |
| `MetricIdRuns.RunKeepsId` | system/common/metric_id_allocator.cc:117-177 | a device's id never changes while it stays cached, also when it moves from temporary to paired |
| `MetricIdRuns.StoreEqualsPairedCache` | system/common/metric_id_allocator.cc:150-205 | if the store accepts every save, it equals the paired cache after every operation, evictions and restarts included |
| `MetricIdRuns.DiskEqualsPairedIff` | system/common/metric_id_allocator.cc:167-176 | the store equals the paired cache if and only if no refused save is outstanding |
| `MetricIdRuns.RefusedSaveDiverges` | system/common/metric_id_allocator.cc:167-176 | from scratch, allocating any device and saving it with a refusal leaves the store different from the paired cache |
| `MetricIdRuns.RefusedSaveIsNotRetried` | system/common/metric_id_allocator.cc:153-157 | saving again after a refusal reports success, calls nothing and leaves the store without the device |
| `MetricIdRuns.RefusedStaysOffDisk` | system/common/metric_id_allocator.cc:150-177 | over every run, until reopened, a refused device stays off the store as long as it stays paired |
| `MetricIdRuns.DiskIsRestorable` | system/common/metric_id_allocator.cc:51-89 | what the store holds can always be loaded again |
| `MetricIdRecency.RunKeepsOrder` | system/common/metric_id_allocator.cc:117-195 | in every state of every run both caches are in the order in which AllocateId and SaveDevice last named their devices |
| `MetricIdRecency.AllocateDropsOldest` | system/common/metric_id_allocator.cc:117-147 | over every run: a known device changes no binding; a new one is added with room, and otherwise replaces the temporary device that AllocateId was called for longest ago |
| `MetricIdRecency.SaveDropsOldest` | system/common/metric_id_allocator.cc:150-177 | over every run: only a temporary device moves; it is added with room, and otherwise replaces the paired device named longest ago, if any was since loading |
| `MetricIdAllocators.MetricIdAllocator.Init` | system/common/metric_id_allocator.cc:51-89 | refused when already initialised, aborted exactly on an oversized map or an id out of range, otherwise in the initial state for that map |
| `MetricIdAllocators.MetricIdAllocator.Close` | system/common/metric_id_allocator.cc:93-103 | true exactly when initialised; empties everything |
| `MetricIdAllocators.MetricIdAllocator.IsEmpty` | system/common/metric_id_allocator.cc:110-114 | true exactly when both caches are empty |
| `MetricIdAllocators.MetricIdAllocator.AdvanceCursor` | system/common/metric_id_allocator.cc:129-135 | the loop terminates with the cursor at the next free id |
| `MetricIdAllocators.MetricIdAllocator.AllocateId` | system/common/metric_id_allocator.cc:117-147 | refines allocation on the two recency lists, id set and cursor |
| `MetricIdAllocators.MetricIdAllocator.ForgetDevicePostprocess` | system/common/metric_id_allocator.cc:201-205 | the id is free again and the store is told |
| `MetricIdAllocators.MetricIdAllocator.SaveDevice` | system/common/metric_id_allocator.cc:150-177 | refines saving, with the callbacks in their order |
| `MetricIdAllocators.MetricIdAllocator.ForgetDevice` | system/common/metric_id_allocator.cc:180-195 | refines forgetting |
| `DependencyGraph.StartOneCorrect` | system/gd/module.cc:79-101 | a start keeps what was started, stays topologically ordered without repeats, and adds exactly what the factory reaches |
| `DependencyGraph.StartListCorrect` | system/gd/module.cc:68-72 | the same for a list of requests |
| `DependencyGraph.EnoughFuel` | system/gd/module.cc:79-101 | the recursion is never deeper than the number of factories on a graph without cycles |
| `DependencyGraph.CyclesNeverStart` | system/gd/module.cc:79-101 | a factory that reaches a cycle is not started at any recursion depth |
| `DependencyGraph.TopologicalIsCycleFree` | system/gd/module.cc:79-101 | whatever was started in dependency order reaches no cycle |
| `DependencyGraph.StartTerminatesIff` | system/gd/module.cc:79-101 | whatever was started before, in dependency order, `Start` returns if and only if the factory reaches no cycle |
| `DependencyGraph.SelfDependencyNeverStarts` | system/gd/module.cc:79-101 | a module that lists itself is not started at any recursion depth |
| `Registry.DependencyIsRunning` | system/gd/module.cc:48-56 | the dependencies of a started module come earlier in the order and are running |
| `Registry.TeardownIsReverse` | system/gd/module.cc:103-127 | the k-th stop and the k-th delete are of the k-th module from the end |
| `Registry.StopStep` | system/gd/module.cc:105-116 | when a module is stopped, all its dependencies are still running |
| `Registry.ModuleRegistry.GetDependency` | system/gd/module.cc:48-62 | fails exactly on an unlisted dependency or on one not started |
| `Registry.ModuleRegistry.LookUpAll` | system/gd/module.cc:48-62 | a module whose dependencies run finds every one of them, in order |
| `Registry.ModuleRegistry.LookupAfterStart` | system/gd/module.cc:48-62 | a listed dependency of a started module is always found |
| `Registry.ModuleRegistry.CallStart` | system/gd/module.cc:93-97 | needs a constructed module with running dependencies, which finds all of them from inside its own start |
| `Registry.ModuleRegistry.CallStop` | system/gd/module.cc:105-116 | needs a running module with running dependencies, which still finds all of them from inside its own stop |
| `Registry.ModuleRegistry.Delete` | system/gd/module.cc:117-123 | may be called only when every module is stopped |
| `Registry.ModuleRegistry.Start` | system/gd/module.cc:79-101 | refines the depth-first start, calls each constructor at most once and leaves the registry consistent |
| `Registry.ModuleRegistry.StartModules` | system/gd/module.cc:68-72 | the order extends the old one, is topological, and equals the started set: the old one plus the closure of the request |
| `Registry.ModuleRegistry.StopAll` | system/gd/module.cc:103-127 | stops everything once in reverse order, then deletes everything once in reverse order, and ends empty |
| `LeakyQueue.PushKeepsLast` | system/common/leaky_bonded_queue.h:103-110 | a push turns the last N of a history into the last N of the longer history |
| `LeakyQueue.PushAllKeepsLast` | system/common/leaky_bonded_queue.h:103-110 | after any pushes the queue is the last N of everything pushed |
| `LeakyQueue.LeakyBondedQueue.Enqueue` | system/common/leaky_bonded_queue.h:103-110 | pushes at the end, dropping the oldest when full |
| `LeakyQueue.LeakyBondedQueue.EnqueueWithPop` | system/common/leaky_bonded_queue.h:113-124 | the same, and hands back exactly what was dropped |
| `LeakyQueue.LeakyBondedQueue.Dequeue` | system/common/leaky_bonded_queue.h:127-132 | takes the oldest; undefined exactly on an empty queue |
| `LeakyQueue.LeakyBondedQueue.Clear` | system/common/leaky_bonded_queue.h:135-141 | the loop ends with an empty queue |
| `A2dpMetrics.Update` | system/common/metrics.cc:99-154 | field-by-field merging with -1 standing for unknown, as one function of the two arguments |
| `A2dpMetrics.DurationIsSum` | system/common/metrics.cc:99-103 | the merged duration is the sum of the known ones |
| `A2dpMetrics.MediaTimerExtremes` | system/common/metrics.cc:104-115 | merged minimum and maximum are attained by some metrics and bound all of them |
| `A2dpMetrics.OverrunsMerged` | system/common/metrics.cc:127-135 | overrun total is the sum, overrun maximum is attained and bounds all |
| `A2dpMetrics.CodecAndOffload` | system/common/metrics.cc:148-153 | the codec is the first known one; offload is set exactly when some metrics set it |
| `A2dpMetrics.CombineBounds` | system/common/metrics.cc:88-97 | one truncating merge lies between the two averages and loses less than the joint count |
| `A2dpMetrics.MergeLosesExactly` | system/common/metrics.cc:88-97 | one merge preserves average times count but for the remainder of its division |
| `A2dpMetrics.AverageLoses` | system/common/metrics.cc:116-126 | over any merges the exact weighted sum is average times count plus the remainders of all merges |
| `A2dpMetrics.AverageDrift` | system/common/metrics.cc:116-126 | over any merges: A*C <= S and S - A*C <= (n-1)*C for average A, count C, exact sum S and n averages |
| `A2dpMetrics.AverageIsExactIff` | system/common/metrics.cc:116-126 | the average is exact if and only if every merge divides evenly |
| `A2dpMetrics.AverageStaysInRange` | system/common/metrics.cc:116-126 | the stored average never leaves the range of the merged ones |
| `A2dpMetrics.AverageDependsOnOrder` | system/common/metrics.cc:88-97 | the same three averages in two orders give 1 and 2 |
| `A2dpMetrics.OrderMattersIff` | system/common/metrics.cc:116-126 | the same metrics in two orders give the same average if and only if both orders truncate equally much |
| `A2dpMetrics.RealCombine` | system/common/metrics.cc:77-86 | the fractional merge preserves average times count |
| `A2dpMetrics.UnderrunAverageIsExact` | system/common/metrics.cc:136-147 | over any merges the underrun average is the exact weighted mean |
| `SessionLedger.StepKeepsInv` | system/common/metrics.cc:357-577 | every logger call keeps: each closed session is leaked, emitted or queued in order, and each record summarises exactly its own calls |
| `SessionLedger.RunKeepsInv` | system/common/metrics.cc:357-577 | the accounting holds after every sequence of calls |
| `SessionLedger.EveryCallLandsOnce` | system/common/metrics.cc:408-442 | the calls since the last reset, in order, are cut into one list per session; every record, leaked, emitted, queued or current, is the summary of its own list |
| `SessionLedger.DurationIsConserved` | system/common/metrics.cc:99-103 | emitted, leaked, queued and current durations add up to all non-negative durations logged; with no session the accumulator is the default |
| `SessionLedger.DumpAfterRun` | system/common/metrics.cc:506-553 | after any calls a dump writes the last N sessions closed since the previous one, with their full number |
| `SessionLedger.RecordSummarises` | system/common/metrics.cc:408-442 | a record's media timer has the extremes of its own calls and an average off by exactly the truncated remainders |
| `SessionLedger.RecordSummarisesBuffers` | system/common/metrics.cc:408-442 | a record's overruns, underruns, codec and offload flag are the total and maximum, the exact mean, the first known one and the disjunction of its own calls |
| `SessionLedger.DeviceTypeIsRecordedIff` | system/common/metrics.cc:397-406 | device information is recorded with the given class, and with the given type if and only if that is BR/EDR |
| `SessionLedger.DurationIsElapsed` | system/common/metrics.cc:373-395 | a session lasts the elapsed milliseconds rounded down to seconds, modulo 2^64 when the end comes first |
| `SessionLedger.CutoffSplits` | system/common/metrics.cc:491-504 | a dump sends out the first half with its statistics and keeps connection and device in the second |
| `SessionLedger.A2dpOpensSession` | system/common/metrics.cc:408-442 | metrics without a session open a BR/EDR audio session whose first record is theirs |
| `SessionRecords.SessionIsRecorded` | system/common/metrics.cc:357-442 | after any history, a start, any additions and an end queue one record with the technology of the start, the reason of the end, the device and the metrics between, and the whole seconds between the timestamps, zero standing for the clock |
| `SessionRecords.StartClosesOpenSession` | system/common/metrics.cc:357-371 | a start while a session is open records that one as cut short by the next start, up to the clock |
| `SessionRecords.NothingToClose` | system/common/metrics.cc:373-378 | without an open session a start records nothing, and an end or a cut-off changes nothing |
| `SessionRecords.DeviceOpensSession` | system/common/metrics.cc:397-406 | device information opens a session of unknown technology if there is none, and touches nothing else of one that is there |
| `SessionRecords.ResetStartsOver` | system/common/metrics.cc:555-577 | after a reset the sessions are as if nothing had been logged |
| `MetricsLog.RunHolds` | system/common/metrics.cc:300-355 | each event channel holds the last N events since the last dump or reset and their full number |
| `MetricsLog.RunSessions` | system/common/metrics.cc:357-442 | event logging does not disturb sessions |
| `MetricsLog.RunHeadset` | system/common/metrics.cc:444-460 | a headset counter is the number of connections since the last dump, across resets |
| `MetricsLog.ResetKeepsConnection` | system/common/metrics.cc:555-577 | a headset connection is still counted after a reset |
| `MetricsLog.DumpWritesRecent` | system/common/metrics.cc:506-553 | after any calls a dump writes, for all four kinds, the last min(n, capacity) in order with counter n |
| `MetricsLog.HeadsetStatsExact` | system/common/metrics.cc:540-552 | a dump lists exactly the profiles with connections, with their numbers |
| `MetricsLogger.Drain` | system/common/metrics.cc:506-539 | a dequeue loop empties its queue in order and never meets an empty one |
| `MetricsLogger.DrainWakes` | system/common/metrics.cc:534-539 | the last loop meets an empty queue if and only if a session is still queued and too few wake events are; without a session it takes nothing |
| `MetricsLogger.BluetoothMetricsLogger.LogPairEvent` | system/common/metrics.cc:300-316 | refines adding to the pair channel |
| `MetricsLogger.BluetoothMetricsLogger.LogWakeEvent` | system/common/metrics.cc:318-333 | refines adding to the wake channel |
| `MetricsLogger.BluetoothMetricsLogger.LogScanEvent` | system/common/metrics.cc:335-355 | refines adding to the scan channel |
| `MetricsLogger.BluetoothMetricsLogger.LogHeadsetProfileRfcConnection` | system/common/metrics.cc:444-460 | counts headset and hands-free connections under their profiles and every other service under the unknown one |
| `MetricsLogger.BluetoothMetricsLogger.LogBluetoothSessionStart` | system/common/metrics.cc:357-371 | refines session start, ending a session left open |
| `MetricsLogger.BluetoothMetricsLogger.LogBluetoothSessionEnd` | system/common/metrics.cc:373-395 | refines session end, a no-op without a session |
| `MetricsLogger.BluetoothMetricsLogger.LogBluetoothSessionDeviceInfo` | system/common/metrics.cc:397-406 | refines device information, opening a session if needed |
| `MetricsLogger.BluetoothMetricsLogger.LogA2dpSession` | system/common/metrics.cc:408-442 | refines accumulation into the current session |
| `MetricsLogger.BluetoothMetricsLogger.CutoffSession` | system/common/metrics.cc:491-504 | refines the split |
| `MetricsLogger.BluetoothMetricsLogger.Build` | system/common/metrics.cc:506-553 | the log is exactly the dump of the state before, no loop meets an empty queue, and all queues end empty |
| `MetricsLogger.BluetoothMetricsLogger.WriteString` | system/common/metrics.cc:462-472 | returns that dump and leaves the state a dump leaves |
| `MetricsLogger.BluetoothMetricsLogger.Reset` | system/common/metrics.cc:555-577 | forgets everything but the headset counters |
| `MessageLoopThread.RunIsSafe` | system/common/message_loop_thread.cc:53-250 | in every state of every interleaving: no null field followed, nothing joined or freed twice, and mutex, fields, workers and joiner agree |
| `MessageLoopThread.FieldsSetTogether` | system/common/message_loop_thread.cc:219-250 | whenever the mutex is free, loop, run loop and thread id are all set, for a live worker that is the thread's, or all unset |
| `MessageLoopThread.JoinFindsItsThread` | system/common/message_loop_thread.cc:143-158 | the thread read without the lock at the join is the unjoined one seen under it, no other caller joins, and the joiner does not hold the mutex |
| `MessageLoopThread.WorkersJoinedAndFreed` | system/common/message_loop_thread.cc:117-158 | every worker that is no longer the thread's has exited and was joined and freed, once each |
| `MessageLoopThread.PostsReachLiveLoops` | system/common/message_loop_thread.cc:84-115 | a post goes to the live loop of the current thread |
| `MessageLoopCalls.PostIsTakenIff` | system/common/message_loop_thread.cc:84-115 | a post is taken, with the caller's own closure and by the current worker, if and only if that worker is live, and the caller is told which |
| `MessageLoopCalls.OnlyPostsPost` | system/common/message_loop_thread.cc:84-115 | no other step posts anything |
| `MessageLoopCalls.StartUpSpawnsIff` | system/common/message_loop_thread.cc:64-76 | a start-up spawns a new worker if and only if there is no thread, and otherwise changes nothing |
| `MessageLoopCalls.ReturnsOnlyWhen` | system/common/message_loop_thread.cc:53-177 | a call returns only where it may: a start-up with a thread there or its own worker announced, a shutdown with nothing taken down or the thread freed |
| `MessageLoopCalls.CallIsTheOneMade` | system/common/message_loop_thread.cc:53-177 | in every run a caller is in the call it last made, with the closure it made it with |
| `MessageLoopThread.IsRunningIsLive` | system/common/message_loop_thread.cc:174-177 | the answer is whether the current thread's worker has its loop up |
| `MessageLoopThread.RunningMeansAbleIff` | system/common/message_loop_thread.cc:174-177 | after a yes the worker can take up work if and only if it has not left its loop, and always when no quit was posted |
| `MessageLoopThread.PostMeansAbleIff` | system/common/message_loop_thread.cc:84-115 | the same of a post that is accepted |
| `MessageLoopThread.RunningMayMeanLeaving` | system/common/message_loop_thread.cc:174-177 | a reachable state where the answer is yes and the worker has left its loop |
| `MessageLoopThread.PostMayBeLost` | system/common/message_loop_thread.cc:84-115 | a reachable state where a post was accepted by a worker that has left its loop |
| `MessageLoopThread.ShutDownClaimsIff` | system/common/message_loop_thread.cc:117-143 | a shutdown takes the thread down if and only if its worker is live and not yet asked to quit |
| `MessageLoopThread.NoDeadlock` | system/common/message_loop_thread.cc:53-250 | while any call is in progress some step of a caller or a worker is possible |
| `MessageLoopProgress.StepUsesBudget` | system/common/message_loop_thread.cc:53-250 | every step of a call or worker uses up some of a budget read off their positions |
| `MessageLoopProgress.AllCallsReturn` | system/common/message_loop_thread.cc:53-250 | from any reachable state, once no new call begins, only boundedly many steps follow, and where none can follow every call has returned |
| `MessageLoopThread.StartUpMayReturnBeforeRunning` | system/common/message_loop_thread.cc:53-77 | a reachable state where a start-up returns with no thread id set |
| `MessageLoopThread.SecondStartUpReturnsRunningIff` | system/common/message_loop_thread.cc:64-72 | a start-up that found a thread returns with a thread, and with its id set if and only if the worker is announced and has not exited |
| `MessageLoopThread.SpawnerReturnsRunningIff` | system/common/message_loop_thread.cc:73-76 | a start-up that spawned returns with its worker's id set if and only if that worker has not begun to take itself down, and always when no quit was posted |
| `MessageLoopThread.ShutDownMayMissStartingThread` | system/common/message_loop_thread.cc:117-143 | a reachable state where a shutdown returns and leaves a starting thread alone |
| `MessageLoopThread.ClaimingShutDownReturnsStopped` | system/common/message_loop_thread.cc:151-157 | a shutdown that took the thread down returns with no thread and all fields unset |
| `MessageLoopThread.SecondShutDownReturnsStoppedIff` | system/common/message_loop_thread.cc:127-140 | any other shutdown returns while the thread id is set if and only if the worker serves, and then another shutdown has posted its quit |
| `TimerClock.DelayTargets` | system/common/repeating_timer.cc:149-163 | the next delay is never negative and hits the grid of the expected time: that time itself, or when late the least grid instant from now on |
| `TimerClock.FirstDelayIff` | system/common/repeating_timer.cc:67-67 | the unsigned delay leads to the first expected time if and only if computed in time; late, it has wrapped and its signed reading is how late |
| `TimerClock.FirstDueCoversReadings` | system/common/repeating_timer.cc:67-75 | both readings of that delay are among the due times considered, and the due time is the first expected time if and only if the post is in time |
| `RepeatingTimer.RunIsSafe` | system/common/repeating_timer.cc:44-167 | callbacks, control state, event order and times agree in every state of every run |
| `RepeatingTimer.AtMostOneLive` | system/common/repeating_timer.cc:44-167 | at most one pending callback can still invoke the user closure, also when that closure cancels or reschedules |
| `RepeatingTimer.NoInvocationAfterCancel` | system/common/repeating_timer.cc:119-130 | an invocation after a cancellation belongs to a later scheduling |
| `RepeatingTimer.InvokesScheduledTask` | system/common/repeating_timer.cc:139-167 | every invocation runs the closure its own scheduling was given |
| `TimerCalls.SchedulingWasAskedFor` | system/common/repeating_timer.cc:44-67 | in every run what is scheduled was asked for by one call: its closure, its period, and a first expected time one period after that call read the clock |
| `TimerCalls.InvocationsFollowTheCall` | system/common/repeating_timer.cc:139-167 | against the call that made it: invocation n is at least n + 1 periods after the clock reading, and their number is bounded accordingly |
| `TimerCalls.LoopInvokesIff` | system/common/repeating_timer.cc:139-167 | the loop thread invokes the scheduled closure exactly when the callback it takes is live |
| `TimerCalls.OnlyLoopInvokes` | system/common/repeating_timer.cc:139-167 | no other step invokes it |
| `TimerCalls.CancelEnds` | system/common/repeating_timer.cc:119-130 | a cancellation that is carried out leaves nothing scheduled and nothing live |
| `TimerCalls.CancelIsUnderWay` | system/common/repeating_timer.cc:88-117 | after Cancel a cancellation is under way exactly when something was scheduled or one was already |
| `TimerCalls.ScheduledIffPosted` | system/common/repeating_timer.cc:67-84 | a scheduling call leaves something scheduled exactly when its post succeeds and nothing cancelled it meanwhile; a failed one leaves nothing live |
| `TimerCalls.NewSchedulingAfterCancel` | system/common/repeating_timer.cc:60-66 | whatever was scheduled is cancelled before anything else is |
| `TimerCalls.ExactlyOneLive` | system/common/repeating_timer.cc:44-167 | as long as posts succeed, a timer that is scheduled and set up has exactly one live callback |
| `TimerCalls.WaitingScheduleFinishes` | system/common/repeating_timer.cc:44-130 | a waiting scheduling call can finish in three steps once no closure runs, and then what it asked for is scheduled |
| `RepeatingTimer.RunsAreNotEarly` | system/common/repeating_timer.cc:139-167 | invocation k is at or after T0 + k * period |
| `RepeatingTimer.RunsAreBounded` | system/common/repeating_timer.cc:139-167 | by time t at most (t - T0) / period + 1 invocations |
| `RepeatingTimer.PostsStayOnGrid` | system/common/repeating_timer.cc:149-163 | every live post is due no earlier than the expected time and, unless it is a first post made late, a whole number of periods from T0 |
| `RepeatingTimer.RepostsAreLeast` | system/common/repeating_timer.cc:149-163 | every re-post of every run is due at the expected time or, when late, at the least grid instant from now on, within a period |
| `RepeatingTimer.LateFirstPostIsReachable` | system/common/repeating_timer.cc:53-67 | a run whose first post is made late and falls due off the first expected time |
| `RepeatingTimer.StaysBlocked` | system/common/repeating_timer.cc:44-117 | once a scheduling thread waits for a running closure, no steps but the end of that closure let its calls into the timer through |
| `RepeatingTimer.GetsThroughIff` | system/common/repeating_timer.cc:44-117 | from any state inside the closure, some steps without its end let its call through if and only if no thread is waiting |
| `RepeatingTimer.MayCallIsEither` | system/common/repeating_timer.cc:44-117 | the closure could cancel exactly when it could schedule |
| `RepeatingTimer.BlockedIsReachable` | system/common/repeating_timer.cc:44-117 | a run that ends with a closure running and a scheduling thread waiting |
| `RepeatingTimer.StaysScheduled` | system/common/repeating_timer.cc:102-130 | with no cancellation under way, no steps without a new call cancel anything, and a scheduling stays as it is |
| `RepeatingTimer.StillCancelsIff` | system/common/repeating_timer.cc:102-130 | without a new call something can be cancelled if and only if a cancellation is under way |
| `RepeatingTimer.StaleCancelIsReachable` | system/common/repeating_timer.cc:102-130 | a run in which the second of two cancellations ends a scheduling made after both |
| `AudioParams.ParseAudioParams` | system/audio_bluetooth_hw/utils.cc:31-49 | the loop computes the map that the split segments denote, later ones overriding |
| `AudioParams.SplitJoins` | system/audio_bluetooth_hw/utils.cc:33-33 | splitting loses nothing: joining gives the string back, and no part holds the delimiter |
| `AudioParams.ParseConcat` | system/audio_bluetooth_hw/utils.cc:31-49 | parsing a;b is parsing a overridden by parsing b, for all strings |
| `AudioParams.ParseSegment` | system/audio_bluetooth_hw/utils.cc:31-49 | what one segment means: a key alone has an empty value, only the first two pieces count, a missing key means nothing |
| `AudioParams.PrintParams` | system/audio_bluetooth_hw/stream_apis.cc:478-481 | prints every entry once, in some order, and the result parses back to the map if and only if keys are non-empty and nothing holds a delimiter |
| `AudioParams.ParsePrint` | system/audio_bluetooth_hw/utils.cc:31-49 | parsing what was printed, in any order, gives the printed entries |
| `AudioParams.ParseIsClean` | system/audio_bluetooth_hw/utils.cc:31-49 | no parsed map has an empty key, or a key or value with a delimiter |
| `AudioParams.RoundTripIff` | system/audio_bluetooth_hw/stream_apis.cc:478-481 | printing and parsing gives a map back if and only if its keys are non-empty and keys and values have no delimiters |
| `AudioStream.EntersStartingIff` | system/audio_bluetooth_hw/device_port_proxy.cc:440-476 | Starting is entered exactly by a start request in Standby, in use |
| `AudioStream.EntersStartedIff` | system/audio_bluetooth_hw/device_port_proxy.cc:234-295 | Started is entered exactly by a success result in Starting, in use |
| `AudioStream.EntersSuspendingIff` | system/audio_bluetooth_hw/device_port_proxy.cc:478-510 | Suspending is entered exactly by a suspend request in Started, in use |
| `AudioStream.EntersStandbyIff` | system/audio_bluetooth_hw/device_port_proxy.cc:234-295 | Standby is entered exactly by a result that ends a start or a suspend, or by the request that re-enables |
| `AudioStream.EntersDisabledIff` | system/audio_bluetooth_hw/device_port_proxy.cc:234-310 | Disabled is entered exactly by a session change, a failed suspend, the end of an asked-for suspend, A2dpSuspended=true in a port not started, and a closing or exiting stop |
| `AudioStream.StartingHistory` | system/audio_bluetooth_hw/device_port_proxy.cc:440-476 | a starting port was in standby, got a start request and has been starting since |
| `AudioStream.StartedHistory` | system/audio_bluetooth_hw/device_port_proxy.cc:234-295 | a started port came from standby through a start request and then a success result, and has been started since |
| `AudioStream.StepLeavesDisabledIff` | system/audio_bluetooth_hw/stream_apis.cc:346-367 | a step ends the disabled state if and only if it sets A2dpSuspended to something other than true on an A2DP stream |
| `AudioStream.DisabledUntilReenabled` | system/audio_bluetooth_hw/device_port_proxy.cc:297-310 | once disabled the port stays so over any run without that step |
| `AudioStream.OtherKindsStayDisabled` | system/audio_bluetooth_hw/stream_apis.cc:346-367 | a stream that is not A2DP never leaves the disabled state |
| `AudioStream.ResultResolvesRequest` | system/audio_bluetooth_hw/device_port_proxy.cc:234-295 | a control result ends an outstanding request, and reaches what was asked for exactly on success |
| `AudioStream.RequestStaysOutstanding` | system/audio_bluetooth_hw/device_port_proxy.cc:408-510 | nothing but a result, a session change or parameters ends a request, not even a timed-out wait |
| `AudioStream.StepCountsFrames` | system/audio_bluetooth_hw/stream_apis.cc:533-538 | each counter grows by the frames of a successful write and goes to zero exactly at its resets; the presented one goes back only at a closing or exiting stop |
| `AudioStream.CountersAreSums` | system/audio_bluetooth_hw/stream_apis.cc:278-393 | in every run each counter is the frames written since its last reset, and rendered never exceeds presented |
| `AudioStream.ClosingResetsPresented` | system/audio_bluetooth_hw/stream_apis.cc:370-380 | closing takes both counters of any stream that is not disabled to zero |
| `AudioStream.PresentedFalls` | system/audio_bluetooth_hw/stream_apis.cc:370-380 | a run that starts a stream, writes one frame and closes it takes the presented counter from 1 to 0 |
| `AudioStream.FailedWriteIsPaced` | system/audio_bluetooth_hw/stream_apis.cc:540-560 | a write that went nowhere counts no frames and ends at the later of now and the end of its playing time |
| `AudioStream.PlayedIsPlayingTime` | system/audio_bluetooth_hw/stream_apis.cc:547-550 | the playing time of a write is its bytes over frame size and sample rate, in microseconds rounded down |
| `AudioStream.SuccessfulWriteIsTimed` | system/audio_bluetooth_hw/stream_apis.cc:533-538 | a write that went through is timed at its end and changes only the counters besides |
| `AudioCalls.ResumeStarts` | system/audio_bluetooth_hw/stream_apis.cc:636-665 | resuming a stream in standby ends started exactly on success and in standby otherwise; elsewhere it changes nothing |
| `AudioCalls.StandbySuspends` | system/audio_bluetooth_hw/stream_apis.cc:269-296 | standby of a started stream ends in standby exactly on success and disabled otherwise, with no frames rendered; elsewhere it changes nothing |
| `AudioCalls.InUseIff` | system/audio_bluetooth_hw/device_port_proxy.cc:218-232 | in every run a port is in use if and only if it was not torn down |
| `AudioCalls.ParametersAlone` | system/audio_bluetooth_hw/stream_apis.cc:304-398 | parameters that need no suspend: re-enabled if asked, then disabled by each request to suspend or stop, with the counters reset by a stop that finds the port enabled |
| `AudioCalls.SuspendedMeansDisabledIff` | system/audio_bluetooth_hw/stream_apis.cc:346-367 | whatever else happens until the call returns, A2dpSuspended=true on an A2DP stream leaves it disabled if and only if it was in use, started or disabled |
| `FeedingDelay.Calculate` | system/audio_bluetooth_hw/stream_apis.cc:53-132 | for P frames presented and L latency frames the position lies in [max(0,P-2L), max(0,P-L)] whatever the stack reports |
| `FeedingDelay.DelayIsReportedIff` | system/audio_bluetooth_hw/stream_apis.cc:74-100 | the delay is the reported whole milliseconds exactly when reported strictly between 50 and 1000, and otherwise the playing time of the buffer plus 200 |
| `FeedingDelay.LatencyIsDelay` | system/audio_bluetooth_hw/stream_apis.cc:109-110 | the latency in frames is the delay at the sample rate, rounded down |
| `FeedingDelay.PositionFallsBackAtMost` | system/audio_bluetooth_hw/stream_apis.cc:109-128 | at the same latency L and with m more frames presented the position goes back by at most L - m, and not at all while the stack's counters stay plausible |
| `PropertyCopy.ValuesDisjoint` | system/service/bluetooth_interface.cc:655-665 | no byte of the content belongs to two values, and every value is within it |
| `PropertyCopy.ContentIsCovered` | system/service/bluetooth_interface.cc:643-649 | every byte of the content belongs to some value |
| `PropertyCopy.ContentLength` | system/service/bluetooth_interface.cc:642-648 | the first loop counts exactly the bytes of positive-length values |
| `PropertyCopy.CopyEntries` | system/service/bluetooth_interface.cc:655-665 | the second loop gives every entry its own type, length and address in the block, or null, and its own bytes there |
| `PropertyCopy.PropertyDeepCopyArray` | system/service/bluetooth_interface.cc:638-668 | null for a non-positive count; otherwise one fresh block of exactly the counted size, entries first: each has its kind and length, null without a value, and else the address of its bytes in the block, in order without overlap |

## Left out

- `MetricIdAllocator` calls before `Init` or after `Close`: not guarded by the code, so a precondition here.
- LegacyLruCache: the list is a `seq` of node references and the hash map a `map`; iterators of nodes that have left the list, and the recursive mutex, are not modelled.
- StartOne: the value-level start takes a recursion bound; `StartTerminatesIff` and `MoreFuel` show that the bound only decides whether it returns.
- ModuleRegistry: handlers, `IsStarted` beyond membership, the 2 second stop timeout, test registries, `ModuleDumper` and `StackManager`.
- Update: accumulated counts are unbounded integers and float averages are reals; overflow and rounding are not modelled.
- BluetoothMetricsLogger: calls are taken one at a time, log records are datatypes, and protobuf serialisation, base64, `stats_write` events, the scan technology and the other enum mappers are not modelled.
- MessageLoopThread: the Rust branch, real-time scheduling, names and delays of posted closures; posting inside the loop is the arrival of the closure, not its execution.
- RepeatingTimer: modelled as a step system on values, because its fields are shared by threads; clock and period are at most 2^61 microseconds; one loop thread serves the timer and is always running, so posting a `CancelClosure` never fails; setting the fields in `SchedulePeriodic` is one step, although `CancelClosure` runs without the mutex; `OnceTimer` and the destructor are not modelled.
- AudioStream: modelled as a step system on values, because callbacks and stream calls interleave; each check-and-set of `Start` and `Suspend` is one step, as are the closing write of `out_write` and its sleep, and 64-bit overflow of the frame counters is not modelled.
- The failed-resume path of `out_write`: it returns before any counter or the port changes.
- Input streams: they have no rendered counter and no parameters that change the port.
- The HIDL port: the same state machine as the AIDL port that is modelled.
- Stream getters and `FrameCount`: single expressions over fields and parameters.
- Configuration loading, the data path and down-mixing: calls into the audio service and byte copying.
- Callbacks with the cookie of another session: dropped before they reach the port.
- FeedingDelay: only the output side; the input side differs by a sign.
- PropertyDeepCopyArray: an entry is one cell of the block, whatever the size of the C struct.
- LE audio and the rest of the HAL interface: dispatch to transports whose half of the start protocol is elsewhere.
- Service wrappers: they forward calls to the HAL.
- `IdGenerator`, `StateMachine` and `StopWatchLegacy`: a counter, a dispatch table and a ring of timestamps, without invariants across calls.
