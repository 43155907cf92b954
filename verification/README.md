# Verified model of the checkpoint, breaker, logging, search and startup services

The repository indexes code repositories and serves search over them. This project
models the hand-written data structures, state machines and concurrent protocols of
its application layer in Dafny and proves what they keep. `dafny verify
dfyconfig.toml` checks everything.

## What is modelled

**Checkpoint cache.** `CheckpointCache` is the map plus doubly linked list, on the heap,
with the same pointer writes as the program. It is proved to refine the sequence policy of
`LruSpec`; `LruStack` proves the stack theorem about that policy. `CheckpointRecords` and
`CheckpointCopy` model the checkpoint records as objects with pointers, slices and map
references, and the deep copy into recycled objects; `CheckpointPools` proves that hits,
releases and writes by callers never disturb a cached checkpoint or another copy.
`CachedCheckpoints` puts the cache on the checkpoint service and compares the two over
whole runs.

**Circuit breakers.** `LockedBreaker` is the mutex-protected breaker: each critical section
is a step, so a run is any interleaving of admissions and result recordings, and
`BreakerHistory` tells its state from the events of a run alone.
`AtomicBreaker` is the breaker on atomics: each load, store, add, compare-and-swap, clock
reading and mutex operation of each thread is a step. `AtomicBreakerSafety` proves what all
interleavings keep, `AtomicBreakerRecovery` when they keep the recovery timeout, and
`AtomicBreakerRaces` shows what some of them break. `SequentialBreaker` specifies whole calls,
`UndisturbedCalls` proves that every run of a thread without interference meets that
specification, `BreakerAccounts` tells its counters and times from the calls of a run, and
`BreakerBisimulation` compares the two breakers.

**Retrying.** `RetryPolicy` has the five policies, `BackoffTable` the precomputed tables and
their cache, `RetryLoop` the loop that runs an operation through a breaker.

**Protocols.** `AsyncLogger` is the bounded queue with its worker and its draining shutdown,
`PoolFactory` the double-checked pool creation, `SyncDispatcher` the paging dispatcher with
its semaphore and its wait group. Each is a state machine with one program counter per
thread, and `Common` has the counting of threads they share.

**Search.** `RankFusion` merges and ranks the results of two engines, `ResultOrder` has the
comparator and its order theory, `ChunkSelection` picks the chunk that stands for a match.

**Bookkeeping.** `RingBuffer` is the circular error buffer, `CleanupMetrics` the truncating
running averages, `ResourceRegistry` the registration, ordering and execution of cleanups,
`ConcurrentCleanup` the interleavings of the goroutines that clean a group at the same time.

A class here carries the fields of the program's struct, its methods change them in place,
and each method is proved against a specification function; the theorems are about those
functions. Ghost fields hold the abstract sequence or the node list.

## What the proofs found

- A hit after a create returns the checkpoint as it was stored, compressed, while the
  uncached service would decompress it. The IDs agree always, the payloads exactly if
  storing leaves nothing to decompress or the cache has no room
  (`CachedCheckpoints.SamePayloadsExactlyIf`).
- Copying a cached checkpoint panics exactly if a pooled resume point or metadata object has
  a nil map that must be written to. A created checkpoint can carry metadata with nil maps,
  and releasing one prepares such a panic (`CheckpointCopy.ReleaseOfCreatedBreaksCopies`).
- A miss and a create return the cached object itself. Once that is released, a hit on another
  job's checkpoint can overwrite the cached one (`CheckpointPools.ReleaseOfCachedMixesJobs`).
- The atomic breaker compares the clock with a lastStateChange it loaded earlier and swaps the
  state later, so it can leave the open state before the timeout is over, with any two threads
  and for every positive timeout (`AtomicBreakerRaces.EarlyExactlyIf`). It does so only if that load was made before
  the opening stored its time (`AtomicBreakerRecovery.RecoveryTimeout`): within the short window
  after the swap to open, or any time earlier, before a whole recovery and reopening. The
  recorded times can run ahead of lastStateChange, because they are added before it is stored
  (`AtomicBreakerRaces.RecordedTimesCanRunAhead`).
- The two breakers differ on the instant the timeout ends, and otherwise end in the same states
  exactly for success thresholds of at most one (`BreakerBisimulation.Bisimulation`,
  `BreakerBisimulation.SameStatesExactlyIf`); the condition for letting the same calls through is
  a little weaker (`BreakerBisimulation.SameAdmissionsExactlyIf`).
- Only a manual reset lets the locked breaker open twice within a timeout
  (`LockedBreaker.OpeningsApartUnlessReset`, `LockedBreaker.ResetBreaksSpacing`).
- A second shutdown call returns nil at once, whatever is still queued
  (`AsyncLogger.SecondShutdownPromisesNothing`), and an error accepted after the worker has
  finished is never handled (`AsyncLogger.AcceptedAfterDone`). An accepted nil error makes the
  worker panic (`AsyncLogger.NilErrorPanics`). The panic runs wg.Done before it ends the program,
  so a waiting shutdown can return nil with accepted errors unhandled: exactly those shutdowns
  can that find the service running after a nil error was accepted
  (`AsyncLogger.DrainsExactlyIf`).
- Paging over a listing that shrinks as connectors are synced skips connectors: a page that
  leaves takes the next one with it (`SyncDispatcher.ShrinkingListingLosesConnectors`).
- Unregistering a resource leaves it in the custom cleanup order, and the next cleanup of
  everything then dereferences a missing resource (`ResourceRegistry.FatalExactlyIfDropped`).
  A failing concurrent resource keeps all sequential ones from being cleaned, and a negative
  retry count makes a cleanup report success without an attempt
  (`ResourceRegistry.ResourceCleanupManager.CleanupAll`).
- Without chunk IDs, results of different files are merged if repository and path, joined by
  a bar, read the same (`RankFusion.MergedExactlyIf`); bars in names are needed for that.
- The adaptive retry policy allows five attempts even if fewer are configured
  (`RetryPolicy.AdaptiveAttempts`).

## Assumptions

- Time is an integer that never runs backwards, and a critical section under a mutex reads it
  once where the program reads it twice in a row. Clock readings, durations, random draws,
  outcomes of protected functions, and failures of the repository, of compression and of
  decompression are inputs, so the theorems hold for all of them.
- Integers and reals are exact: no overflow, no rounding. Conversion to a duration truncates.
- In `CheckpointPools` callers release and write to copies they got from hits, each released
  once: the two results above show what a release of anything else does. What a caller puts
  into a copy in place of a slice, a time or a nested record is new or nil, and it exchanges
  the slices and maps of a nested record only together with the record. The program has no
  caller of the release yet. Two different maps of one metadata object are different objects,
  which their types imply in the program.
- A failed insertion leaves the repository's newest checkpoint as it was, nobody else writes
  to or deletes from the repository, and decompressing a checkpoint keeps its ID.
- Thresholds below one act like one, as the comparisons in the program make them; no
  precondition excludes them. A table for a negative number of attempts is a failing
  allocation in the program and excluded by a precondition, as is a ring buffer method on
  the buffer that was never made.
- Identifiers are compared by their canonical text, text character by character. The sort is
  any sort: only the sorted order and the contents are used.
- The breaker of the retry loop is used by that loop only, and the context, once cancelled,
  stays cancelled.

## Model

| member | source | states |
|---|---|---|
| CheckpointCache.Cache.constructor | internal/application/service/job_checkpoint_performance.go:273-284 | a new cache is a well-formed list of two sentinels, an empty map and an empty recency sequence |
| CheckpointCache.Cache.Get | internal/application/service/job_checkpoint_performance.go:287-302 | result, new recency order and both counters are those of the sequence policy on the old order; map and list stay consistent |
| CheckpointCache.Cache.Put | internal/application/service/job_checkpoint_performance.go:305-331 | new recency order, eviction included, is that of the sequence policy, and there are at most maxSize entries; only fresh nodes join the list; the counters do not move |
| CheckpointCache.Cache.Remove | internal/application/service/job_checkpoint_performance.go:334-342 | the order loses exactly the entries of that key, present or not |
| CheckpointCache.Cache.Clear | internal/application/service/job_checkpoint_performance.go:345-354 | the order is empty, both counters are zero, and the sentinels are linked to each other again |
| CheckpointCache.Cache.EvictLru | internal/application/service/job_checkpoint_performance.go:405-411 | the order loses its last entry; an empty cache is left alone |
| CheckpointCache.Cache.MoveToFront | internal/application/service/job_checkpoint_performance.go:385-388 | one entry goes to the front of the order, everything else keeps its place; the nodes are the same and no key or value changes |
| CheckpointCache.Cache.AddToFront | internal/application/service/job_checkpoint_performance.go:391-396 | the four pointer writes put the node right after the head sentinel: next and prev are inverse along the whole new list, which has no node twice |
| CheckpointCache.Cache.RemoveFromList | internal/application/service/job_checkpoint_performance.go:399-402 | the two pointer writes cut the node out of the list; next and prev stay inverse along the rest |
| CheckpointCache.Cache.Shape | internal/application/service/job_checkpoint_performance.go:287-331 | the keys of the order are distinct, are exactly the keys of the map, and as many as the map has entries; between operations there are at most maxSize of them |
| LruSpec.StaysWithinCapacity | internal/application/service/job_checkpoint_performance.go:287-342 | reads, writes and removals all keep the number of entries within maxSize |
| LruSpec.Promotion | internal/application/service/job_checkpoint_performance.go:385-396 | touching a present key is moving its entry to the front, for reads and for overwrites |
| LruStack.StackTheorem | internal/application/service/job_checkpoint_performance.go:287-331 | over every run of Get and Put from an empty cache, of any size: a lookup yields the value stored last if fewer than maxSize distinct other keys were touched since the last touch of the key, and nothing otherwise |
| LruStack.CacheIsTopOfStack | internal/application/service/job_checkpoint_performance.go:287-331 | at every moment the cached keys, in order, are the first maxSize keys of the list of all touched keys by latest touch |
| LruStack.StackPosition | internal/application/service/job_checkpoint_performance.go:385-411 | the place of a key in the list by latest touch is the number of distinct keys touched after it, and the keys above it are exactly those |
| LruStack.CachedIsLastPut | internal/application/service/job_checkpoint_performance.go:287-331 | whatever is cached under a key is the value of the last Put of that key |
| LruStack.TouchedMeansStored | internal/application/service/job_checkpoint_performance.go:287-331 | a key has been touched exactly if it has been stored; misses leave no trace |
| CheckpointCopy.CopyCheckpoint | internal/application/service/job_checkpoint_performance.go:476-488 | whatever the pooled objects held before, the copy equals the original in every field and nested record, shares no object, array or map with it, and leaves it as it was; it panics exactly if a map that must be written to is missing from a pooled object |
| CheckpointCopy.CopyResumePoint | internal/application/service/job_checkpoint_performance.go:529-552 | a recycled resume point gets the value of the original; it fails exactly if its flag map is nil and there are flags to copy; it keeps its map object and otherwise consists of what it had and of fresh arrays |
| CheckpointCopy.CopyMetadata | internal/application/service/job_checkpoint_performance.go:555-579 | a recycled metadata object gets the value of the original; it fails exactly if one of its maps is nil and has to receive entries |
| CheckpointCopy.CopyFailureContext | internal/application/service/job_checkpoint_performance.go:582-630 | the new failure context has the value of the original and consists of fresh objects only |
| CheckpointCopy.CopyFailureContextSlices | internal/application/service/job_checkpoint_performance.go:607-619 | both slices get the elements of the original in fresh arrays |
| CheckpointCopy.CopyFailureContextMaps | internal/application/service/job_checkpoint_performance.go:622-630 | the system context gets the entries of the original in a fresh map |
| CheckpointCopy.CopyBasicFields | internal/application/service/job_checkpoint_performance.go:491-505 | the seven plain fields and the validation time are those of the original; the time is a fresh object |
| CheckpointCopy.CopyDataSlices | internal/application/service/job_checkpoint_performance.go:508-526 | the three slices get the elements of the original; only fresh arrays are added |
| CheckpointCopy.ResetCheckpoint | internal/application/service/job_checkpoint_performance.go:172-187 | a reset checkpoint has the empty value, no nested record, and no array it did not have before |
| CheckpointCopy.ResetMetadata | internal/application/service/job_checkpoint_performance.go:211-226 | a reset metadata object has the empty value and keeps both its map objects |
| CheckpointCopy.ResetResumePoint | internal/application/service/job_checkpoint_performance.go:229-240 | a reset resume point has the empty value and keeps its map object and its array |
| CheckpointCopy.ReleaseCheckpoint | internal/application/service/job_checkpoint_performance.go:633-651 | releasing detaches the nested resume point and metadata, hands exactly those back, and touches nothing else |
| CheckpointCopy.ReleaseOfCreatedBreaksCopies | internal/application/service/job_checkpoint_service.go:225-228 | once a created checkpoint without metadata of its own has been released, copying any checkpoint whose metadata has an entry into the pooled metadata panics |
| CheckpointCopy.SetCheckpointType | internal/application/service/job_checkpoint_service.go:225-228 | missing metadata is replaced by a fresh record with nil maps; the type is set |
| CheckpointCopy.CopyMap | internal/application/service/job_checkpoint_performance.go:540-542 | all entries arrive; writing to a nil map is the only way to fail |
| CheckpointRecords.CopySlice | internal/application/service/job_checkpoint_performance.go:510-513 | a non-empty slice is copied into a fresh array, an empty one leaves what is there |
| CheckpointRecords.EqualCheckpoints | internal/application/service/job_checkpoint_performance.go:491-505 | checkpoints of equal value agree in every field and every nested record, so that a copy of equal value leaves nothing out |
| CheckpointPools.Serve | internal/application/service/job_checkpoint_performance.go:436-651 | hits, releases, writes by callers into their copies, caching of created or fetched checkpoints and evictions, any number of each in any order, with any objects idle in the pools at the start and any number of copies out at a time: no created or fetched checkpoint ever changes, cached or not, and every copy that is out and has not been written to by its caller has the value of the checkpoint it was made from |
| CheckpointPools.Hit | internal/application/service/job_checkpoint_performance.go:436-488 | whatever idle objects the pools hold, and whichever of them the copy gets, the hit succeeds with the value of the cached checkpoint; every stored checkpoint and every copy that is out consists of the same objects and has the same value as before |
| CheckpointPools.Release | internal/application/service/job_checkpoint_performance.go:633-651 | the copy and exactly its nested records become idle in the three pools; every other copy and every cached checkpoint is as it was |
| CheckpointPools.Edit | internal/application/service/job_checkpoint_performance.go:436-488 | arbitrary writes into the plain fields of a copy and of its nested records and into its slices, maps and times, and new or nil slices, times and nested records put in place of old ones, change no stored checkpoint and no other copy |
| CheckpointPools.EmptyPools | internal/application/service/job_checkpoint_performance.go:19-64 | empty pools beside any stored checkpoints, which may share objects with each other, satisfy the invariant of the pools |
| CheckpointPools.ReleaseOfCachedMixesJobs | internal/application/service/job_checkpoint_performance.go:453-473 | if the result of a miss or a create, which is the cached object itself, is released, a later hit on another checkpoint can turn the cached entry into a copy of that other checkpoint |
| CachedCheckpoints.CachedAgreesWithPlain | internal/application/service/job_checkpoint_performance.go:436-473 | over every run of creates, failed creates, hits, misses and evictions, from any coherent cache of any size: each create returns what it returns without the cache; a fetch returns the same checkpoint ID, may only hide a failure, reports only errors the uncached service reports too, and always names the job's newest stored checkpoint |
| CachedCheckpoints.SamePayloadsExactlyIf | internal/application/service/job_checkpoint_performance.go:458-473 | the cached and the uncached service agree on every field in every run without failing reads if and only if decompressing a checkpoint that was stored compressed gives it back unchanged, or the cache has no room at all |
| CachedCheckpoints.HitAfterCreate | internal/application/service/job_checkpoint_performance.go:471-472 | create followed by fetch: the uncached service returns the stored checkpoint decompressed, the cached one returns it as stored |
| CachedCheckpoints.CreateKeepsCoherence | internal/application/service/job_checkpoint_performance.go:458-473 | after a create, failed or not, every cached checkpoint is still its job's newest stored one |
| CachedCheckpoints.FetchKeepsCoherence | internal/application/service/job_checkpoint_performance.go:436-455 | the same after a fetch, hit or miss, failed or not |
| CachedCheckpoints.PerformanceOptimizedCheckpointService.GetLatestCheckpoint | internal/application/service/job_checkpoint_performance.go:436-455 | result and new cache order are those of the specification: a hit returns the cached value, a miss what the repository yields, which is cached if it is not an error |
| CachedCheckpoints.PerformanceOptimizedCheckpointService.CreateCheckpoint | internal/application/service/job_checkpoint_performance.go:458-473 | result and repository are those of the uncached service; the cache changes exactly if the create succeeds |
| CachedCheckpoints.DefaultJobCheckpointService.CreateCheckpoint | internal/application/service/job_checkpoint_service.go:208-247 | errors in the order of the steps; on success the stored and returned checkpoint has the new ID, type, times and checksum, compressed last; a failure stores nothing |
| CachedCheckpoints.DefaultJobCheckpointService.GetLatestCheckpoint | internal/application/service/job_checkpoint_service.go:250-271 | the newest stored checkpoint, decompressed if it carries compressed data and there is a strategy; else the error of the step that fails |
| CachedCheckpoints.CreatedIs | internal/application/service/job_checkpoint_service.go:208-247 | a create succeeds exactly if no step fails, and reports the first that does; what it stores, before compression, carries the new ID, the type, one creation time for both times, the checksum of itself without one, and otherwise the strategy's data |
| CachedCheckpoints.FetchedIs | internal/application/service/job_checkpoint_service.go:250-271 | a fetch succeeds exactly if the checkpoint is there and can be read and, where needed, decompressed; it is decompressed exactly if it has compressed data and there is a strategy |
| LockedBreaker.InvariantOverRuns | internal/application/service/circuit_breaker_retry.go:139-278 | in every interleaving of admissions, results, inspections and resets: closed means fewer failures than the threshold and no successes, half-open fewer successes than the threshold, open no successes |
| LockedBreaker.ClosedDoorAfterOpening | internal/application/service/circuit_breaker_retry.go:139-163 | whatever happened before an event opens the breaker, in every later interleaving without reset no call is let through until more than the timeout after that event |
| LockedBreaker.NoAdmissionBeforeTimeout | internal/application/service/circuit_breaker_retry.go:139-163 | the same from any open state |
| LockedBreaker.OpeningsSpaced | internal/application/service/circuit_breaker_retry.go:178-224 | in runs without reset consecutive openings are more than a timeout apart |
| LockedBreaker.OpeningsBackOff | internal/application/service/circuit_breaker_retry.go:178-224 | the k-th opening comes more than k - 1 timeouts after the first, for k from 2 |
| LockedBreaker.OpeningsApartUnlessReset | internal/application/service/circuit_breaker_retry.go:178-278 | in every run, resets included, two openings are more than a timeout apart unless a reset lies between them |
| LockedBreaker.ResetBreaksSpacing | internal/application/service/circuit_breaker_retry.go:266-278 | for every configuration, a run with a reset in which two openings happen at the same instant |
| LockedBreaker.DefaultCircuitBreaker.CanExecute | internal/application/service/circuit_breaker_retry.go:139-163 | admission and new state are those of the specification |
| LockedBreaker.DefaultCircuitBreaker.RecordResult | internal/application/service/circuit_breaker_retry.go:166-235 | the new state is that of the specification, for successes and failures in all three states |
| LockedBreaker.DefaultCircuitBreaker.GetState | internal/application/service/circuit_breaker_retry.go:237-252 | reading the state makes the same move to half-open as an admission would |
| LockedBreaker.DefaultCircuitBreaker.ManualReset | internal/application/service/circuit_breaker_retry.go:266-278 | closed with both counts at zero; the time of the last failure stays |
| BreakerHistory.OpensExactlyIf | internal/application/service/circuit_breaker_retry.go:178-193 | over every run, successes, resets, admissions and inspections included: a breaker closed without failures opens if and only if at some moment as many failures have come in a row as the threshold, or one if that is less |
| BreakerHistory.StaysClosed | internal/application/service/circuit_breaker_retry.go:178-193 | and until then its failure count is the number of failures in a row and its last failure time that of the last failure |
| BreakerHistory.OpensAtThreshold | internal/application/service/circuit_breaker_retry.go:178-193 | the event that opens it is the failure that reaches the threshold, at the time of that failure |
| BreakerHistory.ClosesExactlyIf | internal/application/service/circuit_breaker_retry.go:197-224 | for every success threshold and every run without failures and resets: a breaker that has just become half-open is closed with both counts at zero if and only if as many successes have been recorded as the threshold, or one if that is less; before that it counts them |
| BreakerHistory.ReopensAtOnce | internal/application/service/circuit_breaker_retry.go:178-193 | a failure before that opens it again at once, at the time of the failure, whatever the failure threshold |
| BreakerHistory.StaysOpen | internal/application/service/circuit_breaker_retry.go:139-163 | an open breaker stays open since the same moment until somebody asks after the timeout, whatever late results come in |
| BreakerHistory.RecoversWhenAsked | internal/application/service/circuit_breaker_retry.go:139-163 | the first admission or inspection after that makes it half-open without successes, and a call is admitted |
| BreakerHistory.ResetStartsAnew | internal/application/service/circuit_breaker_retry.go:266-278 | a reset closes it with both counts at zero from every state, so that all of this holds again |
| BreakerHistory.RefusesExactlyIf | internal/application/service/circuit_breaker_retry.go:139-163 | in every reachable state a call is refused exactly by an open breaker whose timeout is not over |
| AtomicBreakerSafety.EveryInterleaving | internal/application/service/reliable_circuit_breaker.go:51-215 | in every interleaving of the atomic operations of any number of concurrent calls and Force calls: each started call is in exactly one outcome counter or still in flight; the state went along allowed moves only and each is counted once as soon as its section gets that far; the recorded times never exceed the breaker's age, nor lastStateChange minus creation unless a section is about to store the change |
| AtomicBreakerSafety.WithoutForceCalls | internal/application/service/reliable_circuit_breaker.go:51-159 | without Force calls every move is closed to open, open to half-open, half-open to open or half-open to closed, and there is none before failureThreshold calls have failed |
| AtomicBreakerSafety.StepKeepsInvariant | internal/application/service/reliable_circuit_breaker.go:51-215 | each single atomic operation of each thread keeps mutual exclusion, the call accounts, the state path and the time account |
| AtomicBreakerSafety.StepKeepsExclusive | internal/application/service/reliable_circuit_breaker.go:119-215 | the mutex is held exactly by the one thread inside a critical section |
| AtomicBreakerSafety.PcStepUnforced | internal/application/service/reliable_circuit_breaker.go:81-129 | each atomic operation keeps every failure counted before it can contribute to an opening |
| AtomicBreakerSafety.NoDeadlock | internal/application/service/reliable_circuit_breaker.go:51-215 | as long as a call is under way some call can go on |
| AtomicBreakerRecovery.RecoveryTimeout | internal/application/service/reliable_circuit_breaker.go:51-144 | in every interleaving each move from open to half-open comes at least a timeout after the lastStateChange its call loaded; if that load was made after the opening had stored its time, a whole timeout has passed since then and since the opening; an early move always relies on an older load |
| AtomicBreakerRecovery.StepKeepsRecovery | internal/application/service/reliable_circuit_breaker.go:51-144 | each single atomic operation keeps the account of stored times and of what every pending load has seen |
| AtomicBreakerRaces.EarlyExactlyIf | internal/application/service/reliable_circuit_breaker.go:113-144 | for any set of threads: some interleaving leaves the open state before the timeout is over if and only if the timeout is positive and there are at least two threads |
| AtomicBreakerRaces.EarlyFromTheWindow | internal/application/service/reliable_circuit_breaker.go:113-144 | for every positive timeout, every failure threshold and any two threads, an early move by a load between the swap to open and the store that belongs to it |
| AtomicBreakerRaces.EarlyFromAnOldLoad | internal/application/service/reliable_circuit_breaker.go:113-144 | for every positive timeout and every failure threshold, an early move by a load made before a whole recovery and reopening |
| AtomicBreakerRaces.RecordedTimesCanRunAhead | internal/application/service/reliable_circuit_breaker.go:132-144 | for every configuration, an interleaving in which the recorded times exceed lastStateChange minus creation, between the addition and the store |
| UndisturbedCalls.UndisturbedCall | internal/application/service/reliable_circuit_breaker.go:51-215 | every run in which one thread alone makes a call, of any kind and from any state in which nobody is in a critical section, leaves exactly what the sequential specification says for clock readings taken in order during that run; the function is called exactly if the specification admits it; no other thread is touched |
| UndisturbedCalls.StepUnderway | internal/application/service/reliable_circuit_breaker.go:51-215 | each single operation of such a call keeps the account of how far it is, or ends it with what it should leave |
| UndisturbedCalls.SectionStep | internal/application/service/reliable_circuit_breaker.go:119-215 | inside a critical section each operation keeps the account, Force sections included, and the last one leaves the whole transition |
| SequentialBreaker.SoloCall | internal/application/service/reliable_circuit_breaker.go:51-159 | and such runs exist from every state, for all delays between the clock readings |
| SequentialBreaker.ReliableCircuitBreaker.Execute | internal/application/service/reliable_circuit_breaker.go:51-78 | one whole call: whether the function is called, and all thirteen fields, as the sequential specification says |
| SequentialBreaker.ReliableCircuitBreaker.RecordFailure | internal/application/service/reliable_circuit_breaker.go:81-96 | the fields after a failure, with the opening it may cause |
| SequentialBreaker.ReliableCircuitBreaker.RecordSuccess | internal/application/service/reliable_circuit_breaker.go:99-110 | the fields after a success, with the closing it may cause |
| SequentialBreaker.ReliableCircuitBreaker.ForceState | internal/application/service/reliable_circuit_breaker.go:192-215 | the new fields are those that every undisturbed Force call of the step machine leaves, by UndisturbedCalls.UndisturbedCall |
| SequentialBreaker.ReliableCircuitBreaker.Reset | internal/application/service/reliable_circuit_breaker.go:218-236 | a reset breaker is a new one |
| BreakerBisimulation.Bisimulation | internal/application/service/circuit_breaker_retry.go:119-235 | with equal threshold and timeout and a success threshold of at most one, from agreeing states and over every run of calls: the two breakers let the same calls through if and only if no call arrives on the very instant the timeout ends, and then they end in agreeing states |
| BreakerBisimulation.FreshBreakersAgree | internal/application/service/reliable_circuit_breaker.go:113-116 | the same for two new breakers, with equal final states |
| BreakerBisimulation.SameStatesExactlyIf | internal/application/service/circuit_breaker_retry.go:197-212 | for every failure threshold and timeout, equal on both sides: two new breakers end in the same state in every run in time that never lands on the instant if and only if the success threshold is at most one |
| BreakerBisimulation.SameAdmissionsExactlyIf | internal/application/service/circuit_breaker_retry.go:139-212 | likewise, they let the same calls through in every such run in time if and only if the success threshold or the failure threshold is at most one or the timeout is not positive |
| BreakerBisimulation.PartWays | internal/application/service/circuit_breaker_retry.go:197-212 | the run that parts them: as many failures as are still missing, then one success after the timeout |
| BreakerAccounts.SequentialAccounts | internal/application/service/reliable_circuit_breaker.go:51-159 | over every sequential run of a new breaker: every call is counted as rejected, successful or failed, as it was; the counts in a row and the stamps are those of the calls let through; lastStateChange is the time of the last change; the transitions are two a recovery and one a trip; and the times are the lengths of the open and of the half-open intervals that ended in a closing |
| RetryLoop.RetryWithCircuitBreaker.ExecuteWithRetry | internal/application/service/circuit_breaker_retry.go:420-492 | terminates after at least one and at most max(1, GetMaxAttempts) breaker calls for every policy; after a failure of the operation it goes on exactly if the context is live and the configuration for that failure's own kind, else the one for unknown kinds, has attempts left, after a rejection exactly if the one for breaker failures has; returns nil exactly if the last call succeeded, else the last error, or the cancellation once the context has been cancelled; each wait ends when the policy's delay or the breaker's timeout is over and no later than the program is late; it never gets two rejections in a row from an unshared breaker; and does nothing to the breaker but these calls |
| RetryLoop.FullDiskEndsIt | internal/application/service/circuit_breaker_retry.go:372-378 | under the adaptive policy a failure on a full disk is always the last attempt, and its error is returned |
| RetryLoop.RetryWithCircuitBreaker.Pause | internal/application/service/circuit_breaker_retry.go:458-486 | after a rejection the wait ends at a moment at which the breaker admits a call; every wait ends when it is due or as much later as the program oversleeps; a cancellation during the wait ends the loop |
| RetryLoop.RetryWithCircuitBreaker.CallBreaker | internal/application/service/circuit_breaker_retry.go:119-136 | a call is cancelled, rejected, or runs and is recorded, and the breaker's new state is that of its own run over these events |
| RetryLoop.RetryWithCircuitBreaker.UpdatePolicy | internal/application/service/circuit_breaker_retry.go:512-528 | a nil policy is refused and changes nothing; any other replaces the old one |
| RetryPolicy.RetryMeansAttemptsLeft | internal/application/service/retry_policy.go:113-320 | every policy, the per-failure-type map with its fallbacks included, answers yes only while attempts are left by its own GetMaxAttempts |
| RetryPolicy.RetriesExactlyIf | internal/application/service/retry_policy.go:113-297 | every policy says yes if and only if the context is live and the deciding configuration has attempts left |
| RetryPolicy.ExponentialDelay | internal/application/service/retry_policy.go:113-142 | the delays of the exponential policy are the terms of the geometric sequence that begins with the base delay, truncated, limited by a positive MaxDelay, plus the share of the jitter |
| RetryPolicy.PerTypeDelay | internal/application/service/retry_policy.go:259-297 | the per-type policy waits like the exponential one with the deciding configuration, or a constant time if its multiplier is not positive |
| RetryPolicy.LinearAndFixedDelays | internal/application/service/retry_policy.go:174-240 | the linear policy adds the base delay from attempt to attempt up to the limit; the fixed one always waits the base delay |
| RetryPolicy.GetMaxAttempts | internal/application/service/retry_policy.go:309-321 | the largest count in the map, or zero; for the other policies the configured one |
| RetryPolicy.AdaptiveAttempts | internal/application/service/circuit_breaker_retry.go:376-401 | the adaptive policy allows max(5, MaxAttempts) attempts and never retries on a full disk |
| RetryPolicy.AdaptiveAttemptsLeft | internal/application/service/circuit_breaker_retry.go:366-396 | the adaptive policy allows one attempt on a full disk, five against the breaker, and the configured number for all other kinds |
| RetryPolicy.AdaptiveDelays | internal/application/service/circuit_breaker_retry.go:366-396 | it waits the breaker's timeout after a rejection and otherwise what is configured |
| BackoffTable.CreateTable | internal/application/service/backoff_table.go:77-107 | entry i is the capped delay of attempt i + 1, and there are MaxAttempts entries |
| BackoffTable.BackoffTableCache.GetTable | internal/application/service/backoff_table.go:49-74 | whatever was asked before, the answer is the table its key defines, and it is cached under that key |
| BackoffTable.BackoffTableCache.Clear | internal/application/service/backoff_table.go:110-115 | no table is left |
| BackoffTable.NewOptimizedPolicy | internal/application/service/backoff_table.go:136-153 | the policy holds its configuration and the table of that configuration, which a given cache has afterwards; without a cache it makes its own |
| BackoffTable.AgreesWithExponential | internal/application/service/backoff_table.go:155-180 | for a positive multiplier the table policy gives the verdict and the delay of the exponential policy, for every attempt, jitter included |
| BackoffTable.AgreesWithLinear | internal/application/service/backoff_table.go:155-180 | for a multiplier of zero or less and no jitter it gives those of the linear policy |
| BackoffTable.DelaysGrow | internal/application/service/backoff_table.go:80-100 | for multipliers of at least 1, and for linear tables, delays never shrink and stay within a positive MaxDelay |
| BackoffTable.DelaysNeverGrow | internal/application/service/backoff_table.go:80-100 | for multipliers between 0 and 1 the delays never grow |
| AsyncLogger.EveryInterleaving | internal/application/service/async_error_logging_service.go:55-239 | in every interleaving, the steps between a panic and the end of the program included: the accepted errors are, in order, the handled ones, the one in the worker's hands and the queued ones; the buffer is never overfull; droppedCount is the number of sends in the run that found the buffer full, short of those being counted; processedCount follows the classified errors; no nil error is ever handled, and the worker panics only on one that was accepted |
| AsyncLogger.EverySendEnds | internal/application/service/async_error_logging_service.go:55-91 | in every interleaving the accepted errors are exactly those whose sends found room or a waiting worker, the refusals exactly the sends into a full buffer, and only calls of LogAndClassifyError that find the service shut down are turned away; every error a call was started with is accepted, dropped, turned away or on its way, as often as there were such calls |
| AsyncLogger.ShutdownDrains | internal/application/service/async_error_logging_service.go:167-189 | when the call that performed the shutdown returns nil, the handled errors start with exactly those accepted before it began, each once and in acceptance order, if and only if none of those was nil; nil errors accepted later do not matter |
| AsyncLogger.DrainsExactlyIf | internal/application/service/async_error_logging_service.go:94-189 | from every reachable state: every shutdown begun there that returns nil after performing it has drained what was accepted before, if and only if the service is not running any more or no nil error was accepted; the failing run goes through wg.Done, which the panicking worker calls |
| AsyncLogger.ShutdownCanEnd | internal/application/service/async_error_logging_service.go:167-189 | in every reachable state a waiting shutdown can return: with a timeout, with nil as soon as the worker is done, and with nil after the worker's own steps if no nil error was accepted |
| AsyncLogger.DrainsForGood | internal/application/service/async_error_logging_service.go:109-121 | once the worker drains it goes on draining until it is done, and takes no error hand to hand |
| AsyncLogger.NilErrorPanics | internal/application/service/async_error_logging_service.go:124-136 | wherever a nil error has been accepted and the worker is not done, the worker's own steps lead to the panic, whose deferred calls run before the program ends |
| AsyncLogger.NothingHandledAfterDone | internal/application/service/async_error_logging_service.go:94-121 | once the worker has finished or panicked nothing is handled any more and nothing leaves the queue |
| AsyncLogger.AcceptedAfterDone | internal/application/service/async_error_logging_service.go:219-239 | an interleaving in which an error is accepted after the shutdown has returned nil, and is never handled whatever follows |
| AsyncLogger.SecondShutdownPromisesNothing | internal/application/service/async_error_logging_service.go:168-171 | an interleaving in which a second shutdown call returns nil with an accepted error unhandled |
| AsyncLogger.StepKeepsInvariant | internal/application/service/async_error_logging_service.go:55-239 | each single step of each thread and of the worker, a panicking one included, keeps order, capacity, counters and the account of what a returned shutdown has drained |
| RankFusion.Rank | internal/application/service/hybrid_ranking_service.go:40-86 | the listing is strictly sorted by the comparator and has the fused result of every key of the two inputs and nothing else; every result of either input is listed exactly once, as a result of the same chunk, or without a chunk of the same file or one named alike |
| RankFusion.MergedExactlyIf | internal/application/service/hybrid_ranking_service.go:119-129 | two results are merged if and only if they have the same chunk, or both have none and agree in repository and path, or their different repositories and paths read the same once joined by a bar |
| RankFusion.NoBars | internal/application/service/hybrid_ranking_service.go:119-129 | the last case cannot occur if no repository name has a bar, and no path without a repository |
| RankFusion.RankingIsUnique | internal/application/service/hybrid_ranking_service.go:64-83 | only one listing has that property, so the result does not depend on how the unstable sort treats ties |
| RankFusion.ListedResult | internal/application/service/hybrid_ranking_service.go:131-162 | the payload of a key is its earliest semantic result, or its earliest text result if there is none; the score is the sum of 1 / (60 + rank) over the engines that have it; the tag names exactly those engines |
| RankFusion.FusedKey | internal/application/service/hybrid_ranking_service.go:119-129 | fusing does not change the deduplication key |
| RankFusion.DominanceIsKept | internal/application/service/hybrid_ranking_service.go:131-140 | a key ranked at least as high by both engines, and higher by one, is listed before the other |
| RankFusion.RrfDecreases | internal/application/service/ranking/ranking_utils.go:10-13 | the score of a rank is positive and strictly decreasing |
| RankFusion.Merger.MergeSearchResult | internal/application/service/hybrid_ranking_service.go:89-117 | one result changes the entry of its own key only, a lower rank wins, and a new key joins the order once |
| ResultOrder.BeforeTotal | internal/application/service/hybrid_ranking_service.go:64-83 | any two results that differ in a compared field are ordered one way and not the other |
| ResultOrder.BeforeTransitive | internal/application/service/hybrid_ranking_service.go:64-83 | the comparator is transitive |
| ResultOrder.OneOrder | internal/application/service/hybrid_ranking_service.go:64-83 | two strictly sorted listings of the same results are equal |
| ResultOrder.ListedInOrder | internal/application/service/hybrid_ranking_service.go:64-83 | in a strictly sorted listing the score falls, and among equals the repository, then the path, the lines, the chunk, the tag and the content rise |
| ResultOrder.StringLessExactlyIf | internal/application/service/hybrid_ranking_service.go:64-83 | a string is less exactly if it is a proper prefix or has the smaller character where the two first differ |
| ChunkSelection.SelectBestOverlappingChunk | internal/application/service/search_service.go:500-527 | nothing exactly if no chunk overlaps; otherwise an overlapping chunk that no other beats by overlap, then span, then start, then ID, and the first such |
| ChunkSelection.BestOverlapIs | internal/application/service/search_service.go:500-527 | the chosen chunk shares the most lines with the range; among those it has the fewest lines, then starts first, then has the least ID |
| ChunkSelection.SelectBestPathOnlyChunk | internal/application/service/search_service.go:529-563 | the same by query score, over the chunks with an ID, for every scoring |
| ChunkSelection.BestPathOnlyIs | internal/application/service/search_service.go:529-563 | the chosen chunk has an ID and the highest score of all that have one; among those it is the shortest, then starts first, then has the least ID |
| ChunkSelection.NothingChosenExactlyIf | internal/application/service/search_service.go:500-563 | nothing is chosen exactly if no chunk shares a line with the range, or has an ID |
| ChunkSelection.ChoiceIgnoresOrder | internal/application/service/search_service.go:500-527 | if the overlapping chunks have distinct IDs, the chosen chunk is the same for every permutation of the candidates |
| ChunkSelection.PathOnlyChoiceIgnoresOrder | internal/application/service/search_service.go:529-563 | the same for the choice by query score, with distinct IDs among the chunks that have one |
| ChunkSelection.WeightCountsSharedLines | internal/application/service/search_service.go:591-599 | a chunk fits a range exactly if they share a line, and its weight is the number of shared lines |
| ChunkSelection.OverlapTestsAgree | internal/application/service/search_service.go:300-302 | the scoring test agrees with lineRangesOverlap exactly if neither range is empty or the latter says no |
| ChunkSelection.BeatsTransitive | internal/application/service/search_service.go:512-515 | the comparison of candidates is transitive |
| RingBuffer.CircularErrorBuffer.Add | internal/application/service/circular_error_buffer.go:35-54 | nil is refused; otherwise the bounded sequence gets a new last element and loses its first one if it was full; every slot outside the live window is nil |
| RingBuffer.CircularErrorBuffer.GetBatch | internal/application/service/circular_error_buffer.go:105-137 | returns and removes exactly the first min(count, size) elements, in order |
| RingBuffer.CircularErrorBuffer.GetAll | internal/application/service/circular_error_buffer.go:83-102 | the whole contents in order, in a fresh slice |
| RingBuffer.CircularErrorBuffer.Clear | internal/application/service/circular_error_buffer.go:140-152 | the contents are empty and every slot is nil |
| RingBuffer.CircularErrorBuffer.GetOldest | internal/application/service/circular_error_buffer.go:185-194 | the first element, nil if there is none |
| RingBuffer.CircularErrorBuffer.GetNewest | internal/application/service/circular_error_buffer.go:197-208 | the last element, nil if there is none |
| RingBuffer.CircularErrorBuffer.Clone | internal/application/service/circular_error_buffer.go:211-227 | another buffer with an array of its own and the same contents |
| RingBuffer.CircularErrorBuffer.HeadFormula | internal/application/service/circular_error_buffer.go:35-54 | head is (tail + size) mod capacity |
| RingBuffer.KeepsTheLast | internal/application/service/circular_error_buffer.go:35-54 | after any run of n additions the contents are the last min(n, capacity) elements in order |
| RingBuffer.NewCircularErrorBuffer | internal/application/service/circular_error_buffer.go:20-32 | no buffer for a capacity of zero or less, else an empty one |
| PoolFactory.EveryInterleaving | cmd/api.go:83-174 | in every interleaving of GetDatabasePool, UpdateDatabaseConfig and Close: outside the write lock every pool made has been closed once, in order, except the stored one, which is the newest; at most one pool is ever open; every attempt makes a pool or is an error that is returned; the write lock is taken exactly by the calls that found no pool before; and pools returned that were read with no reset between them are the same |
| PoolFactory.NoDeadlock | cmd/api.go:83-174 | as long as a call is under way some call can go on |
| PoolFactory.StepKeepsInvariant | cmd/api.go:83-174 | each single step keeps the read-write lock discipline, the books on pools and the memoization |
| SyncDispatcher.BoundedAndDrained | cmd/api.go:280-334 | in every interleaving and for every listing, even one that changes: at most five syncs are in flight, and the done channel closes only after every dispatched sync has finished |
| SyncDispatcher.DispatchesAll | cmd/api.go:280-334 | with a listing that stays fixed, no list error and no cancellation, when the channel closes one worker has synced each listed connector and finished, in listing order, by the least possible number of list calls |
| SyncDispatcher.DispatchesThePages | cmd/api.go:290-331 | for every listing, however it changes: without list error and cancellation, when the channel closes one worker has synced each connector of the pages walked and finished, in order; every page but the last announced another one and the last did not; so a connector is lost exactly if it is on none of them |
| SyncDispatcher.DispatchesAPrefix | cmd/api.go:290-331 | in every reachable state, list errors and cancellation included: worker number w syncs the connector dispatched as number w; those dispatched so far are those of the pages walked, short of a part of the page under way, and all of them, synced, once the channel is closed; every page but the last announced another one |
| SyncDispatcher.CancelStopsTheWalk | cmd/api.go:320-324 | once cancelled the walk lists no further page but one it was just about to |
| SyncDispatcher.ShrinkingListingLosesConnectors | cmd/api.go:290-331 | if the first page leaves a listing of more than one page, every such run skips exactly the connectors of the second page, and such a run exists |
| SyncDispatcher.EveryStepProgresses | cmd/api.go:280-334 | with a listing that never exceeds n connectors, fixed or not, each step brings a bound on the remaining steps down |
| SyncDispatcher.Terminates | cmd/api.go:280-334 | so from any reachable state the number of further steps is bounded |
| SyncDispatcher.InitialWork | cmd/api.go:280-334 | that bound is 8 n + 5 for n connectors at the start |
| SyncDispatcher.NoDeadlock | cmd/api.go:283-334 | until the end is reached some thread can move |
| SyncDispatcher.Finishes | cmd/api.go:280-334 | from every reachable state the walk can finish, without a further list error or cancellation |
| CleanupMetrics.AverageDrift | internal/application/service/resource_cleanup_manager.go:429-454 | after any n cleanups with total duration S: 0 <= 2 (S - n average) <= n (n - 1), average <= maximum, and successes plus failures make n |
| CleanupMetrics.MaximumIsLongest | internal/application/service/resource_cleanup_manager.go:449-451 | the maximum is the longest duration recorded, and zero without any |
| CleanupMetrics.DriftIsReached | internal/application/service/resource_cleanup_manager.go:446-448 | for every n some run loses all of that bound |
| CleanupMetrics.ResourceTypeMetrics.UpdateTypeMetrics | internal/application/service/resource_cleanup_manager.go:429-454 | the metrics of a type are those of all its recorded cleanups; other types are not touched |
| CleanupMetrics.WithCleanup | internal/application/service/resource_cleanup_manager.go:434-451 | the field updates of one recorded cleanup |
| ResourceRegistry.ResourceCleanupManager.CleanupAll | internal/application/service/resource_cleanup_manager.go:127-182 | refused without effect exactly while another cleanup is under way; panics exactly if the custom order names something unregistered, and then nothing was cleaned; otherwise visits first the concurrent resources of the order, all of them, and the others exactly if all of those got cleaned; succeeds exactly if every visit did, each resource of the order having been visited; every status shows the result of its last visit, and every type's metrics get what the visits to its resources report |
| ResourceRegistry.FatalExactlyIfDropped | internal/application/service/resource_cleanup_manager.go:96-124 | over every run of register, unregister and set-order calls: a cleanup of everything panics if and only if some name of the custom order in force was unregistered and not registered again |
| ResourceRegistry.ResourceCleanupManager.GetCleanupOrder | internal/application/service/resource_cleanup_manager.go:257-291 | the custom order if one is set, otherwise every registered resource once, by priority, highest first |
| ResourceRegistry.ResourceCleanupManager.CleanupSingleResource | internal/application/service/resource_cleanup_manager.go:349-403 | succeeds exactly if some attempt within the retries does after nothing but plain failures, or if the retry count is negative and nothing is attempted; the status ends accordingly; the metrics of the resource's type get exactly the cleanup the visit reports |
| ResourceRegistry.ReportedIs | internal/application/service/resource_cleanup_manager.go:363-400 | a visit reports a success exactly if it cleans and a failure exactly if all attempts fail, with the duration of its last attempt; a visit that finds the resource unhealthy reports nothing |
| ResourceRegistry.ResourceCleanupManager.CleanupGroup | internal/application/service/resource_cleanup_manager.go:332-346 | all names are visited, failures notwithstanding; every status shows the result of its last visit, all others are untouched, and the metrics get all reports in order |
| ConcurrentCleanup.EveryInterleaving | internal/application/service/resource_cleanup_manager.go:293-330 | in every interleaving of the goroutines of the concurrent group: never more under way than the limit; and once all are gone, there are errors unless every visit succeeds, every status shows the result of its visit, all others are untouched, and each type's metrics got the same cleanups as from one visit after the other, in some order |
| ConcurrentCleanup.Terminates | internal/application/service/resource_cleanup_manager.go:293-330 | whatever the scheduler does, a group of n takes at most n (a + 5) steps, a being the number of attempts allowed |
| ConcurrentCleanup.NoDeadlock | internal/application/service/resource_cleanup_manager.go:293-330 | with a limit of at least one some goroutine can move until all are gone |
| ConcurrentCleanup.StepKeepsInvariant | internal/application/service/resource_cleanup_manager.go:293-454 | each operation of each goroutine keeps the semaphore, the own visit's account, the accounts of all other visits and the metrics |
| ResourceRegistry.ResourceCleanupManager.RegisterResource | internal/application/service/resource_cleanup_manager.go:62-93 | refused exactly for an empty name, a nil resource or a name in use; order and status list go on naming every resource once |
| ResourceRegistry.ResourceCleanupManager.UnregisterResource | internal/application/service/resource_cleanup_manager.go:96-124 | refused exactly for an unknown name; order and status list lose exactly this name, the custom order keeps it |
| ResourceRegistry.ResourceCleanupManager.SetCleanupOrder | internal/application/service/resource_cleanup_manager.go:232-247 | accepted exactly if all names are registered |
| ResourceRegistry.ResourceCleanupManager.UpdateResourceStatus | internal/application/service/resource_cleanup_manager.go:406-426 | the status entry of this name changes and no other |

## Left out

- Logging, telemetry metrics, messaging, the database, HTTP, the command line, git, parsing
  and embedding calls: input and output; where their outcome matters it is an input.
- CheckpointCopy.CopyCheckpoint: values stored under interface types are opaque and copied as
  references, as the program does; nil and empty slices or maps have the same abstract value.
- CachedCheckpoints.PerformanceOptimizedCheckpointService.GetLatestCheckpoint: checkpoints are
  values in this module, so that a hit returns a copy and a miss the cached object itself is not
  in the contract; the copy is the subject of CheckpointCopy and CheckpointPools.
- CachedCheckpoints.PerformanceOptimizedCheckpointService.CreateCheckpoint: for the same reason,
  that the returned checkpoint is the cached object is not in the contract.
- CachedCheckpoints.CachedAgreesWithPlain: calls run one after another; a slow miss may
  overwrite a newer create when they overlap. Checkpoints are values in this module, so the
  aliasing of miss results with cached objects is not captured, and neither is a writer,
  update or deletion in the repository that bypasses the service.
- CheckpointCache.Cache.Get: access times, hit rates and the mutex; cache calls are sequential.
- CheckpointPools.Serve: calls run one after another; which checkpoints creates and misses will
  bring is known from the start, as an input. The set of idle objects stands for the library's
  pool, which may drop any of them. Progress and resource-usage pools work alike and are left
  out.
- LockedBreaker.InvariantOverRuns: the OnStateChange callback, and the adapter that makes
  the atomic breaker look like this one (its GetState compares with a different spelling of
  the half-open state, so states do not agree there).
- AtomicBreakerSafety.EveryInterleaving: Reset overwrites the counters one by one while calls
  are running, so it is left out of the interleavings and modelled for one caller at a time.
  The failureCount field is never used by the program, and the maximum response time and the
  statistics snapshot are not part of the model.
- RetryLoop.RetryWithCircuitBreaker.ExecuteWithRetry: recording of metrics; the classifier's
  matching of message texts is an input that gives each error its kind.
- RetryLoop.RetryWithCircuitBreaker.UpdatePolicy: the metrics; the lock keeps it from running
  during an execution.
- AsyncLogger.ShutdownDrains: nothing is claimed about errors sent while the shutdown is
  under way. A panic and its deferred calls are one step, as only wg.Done is seen by others.
  LogError's refusal of a nil classified error happens before anything else and is
  not a step; a request whose error is nil is modelled.
- PoolFactory.EveryInterleaving: the configuration itself, and the error values returned.
- SyncDispatcher.DispatchesAll: what a sync does and its timeout; a listing that changes
  during the walk can lose connectors, as stated above.
- ChunkSelection.SelectBestPathOnlyChunk: lowercasing and the scoring of a query text are an
  arbitrary function.
- Extraction of line ranges from matches and slicing of a result page in the search service:
  single loops and bounds over one list, which would only add easy members. HasMore in
  semantic search counts a fetch capped at limit plus offset and is never true.
- ResourceRegistry.ResourceCleanupManager.CleanupAll: the method visits concurrent resources in
  the order in which they are started; that their overlap comes to the same is the subject of
  ConcurrentCleanup. The timeouts and the health shown in a status are not modelled.
- ConcurrentCleanup.EveryInterleaving: statuses of a name listed twice in the concurrent group,
  whose visits may disturb each other; an attempt and the status update that follows it are one
  step, as an attempt touches nothing shared; a negative limit, with which making the semaphore
  panics.
- Disk monitoring, retention, dead-letter and acknowledgement services, request validation
  and configuration defaults: fixed mock values or single checks.
