# Verified model of the load generator's stateful core

The load generator keeps many accounts busy at a controlled rate and accounts for what
becomes of every transaction. This project models the small stateful components on which
its numbers depend, and proves what they keep over whole runs.

| module | component |
|---|---|
| `NonceAllocator` | one account's head counter and sorted free list, as a value that refines an infinite set |
| `Account` | the account object and its nonce handles, updated in place |
| `NonceRuns` | any interleaving of reserve, commit, two-step rollback and all three resyncs |
| `SenderProtocol` | worker, batch sender, callbacks, acknowledgement waits and permits, as a step relation |
| `SenderOutcomes` | which nonces the protocol spends, returns or strands, and that it never deadlocks |
| `SerialBatches` | the protocol at pipeline depth one, and why a deeper pipeline is different |
| `RateLimiter` | the strict limiter at a constant rate: reserve a slot, refund it on cancellation |
| `RateChanges` | the limiter while the rate changes between waits |
| `TxTracker` | the bounded send-time tracker: ring buffer and map |
| `FlowTracker` | per-transaction stages and the counters over them |
| `Collector` | sends, confirmations, discards, and what they conserve |
| `AdaptiveController` | rate control with a circuit breaker |
| `RollingWindow` | the rolling gas and transaction windows, pruned in place |
| `BlockFeed` | three feeds of block metrics into one record, drained by period |
| `ChainPoller` | the block cursor and the confirmation scan |
| `LatencyStats` | histogram, extremes, reservoir sample, percentiles |
| `Faucets` | funding from several faucets in strides over the allocator |
| `ReadLoad` | weighted method picker and block windows of the read load |
| `BatchDemux` | batch responses matched to requests and fanned out to callbacks |
| `AbiEncoding` | the call data of a position mint, filled in place |
| `Numbers` | positive numbers, maximum and minimum |

An object of the source is a class whose methods change the same fields. Each method's
postcondition names a function on values for the whole new state; what the component is for
is proved about that function, and about runs of it. Concurrency is a step relation: every
critical section or channel operation is one step, and a theorem about runs holds for every
interleaving. Calls to nodes are parameters of the step that makes them: the answer may be
anything, stale or failed.

## What the proofs found

Properties that hold only under a condition are stated with it, as an equivalence where both
directions are proved.

- Exclusivity of nonces survives a forced resync if and only if every nonce that a handle still
  keeps, committed ones included, is below the nonce read (`ExclusiveIffSafe`, and over runs
  `RunExclusiveIff`). Otherwise some continuation hands a kept nonce out again (`ForceSafeIff`).
  `StaleRollbackRun` and `StaleFastPathRun` are two such runs: in the second the allocator even
  stays well formed, because the fast path of a rollback has no duplicate check
  (`internal/account/account.go:117-128`).
- After a rollback all later reservations are distinct exactly if the nonce was below the head
  and not a free one right below it (`DistinctReservationsIff`).
- The plain resync drops the whole free list, so it can lose a nonce that the chain still
  needs. `ResyncNoHolesIff` says exactly when it does not, `RunNoHolesIff` lifts that to runs, and
  `PlainResyncLoses` is a run in which it does. The rate-limited resync of the sending path never
  loses one. A trip of the circuit breaker makes the plain one during a test, on the built-in
  sending accounts (`internal/loadgen/workers.go:649`, `internal/loadgen/builder.go:30-37`), right
  when rolled-back nonces are free. So the sender protocol keeps every needed nonce if and only if
  no such resync drops one (`SenderOutcomes.RunNoHolesIff`); `TripLosesNonce` is a run at any depth
  that loses one, and `NextBatchLowestIff` says what that means for the next batch.
- The head stays at or above the confirmed nonces that the resyncs have read exactly if no
  rollback returns the nonce right below a head that is itself the confirmed one (`HeadKeptIff`,
  `RunHeadKeptIff`); `HeadBelowConfirmed` is a run with such a rollback.
- Nonces ascend inside every batch exactly at depth one (`BatchesAscendIffSerial`).
- The documentation of the limiter promises a minimum interval between permits
  (`internal/ratelimit/limiter.go:12-16`). Reserved permit times fill the schedule, and so are an
  interval apart, throughout a run if and only if each cancellation refunds the newest
  reservation (`RunPackedIff`, `PackedSpaced`). Cancelling an older one makes the next call
  repeat a permit time (`CancelRepeatsIff`). The rate bound holds all the same, and some run
  reaches it (`RateReached`); in terms of the rate it is off by the truncation of the interval to
  whole nanoseconds (`RateBoundOfRate`, `RateReachedOfRate`).
- The same documentation says that bursts are prevented entirely. A limiter that was left idle
  catches up: `BurstIff` says how many calls then pass at the same moment, exactly as many as the
  schedule has slots from where it was left up to then.
- A refund subtracts the interval of the moment. `RateChangeDrift` gives the exact drift of the
  schedule when some of the waiting calls are cancelled after a rate change. From any state
  whose reservations fit the schedule, the rate bound is safe in every fair continuation if and
  only if the schedule's slack is not negative (`RobustIff`), so a cancellation keeps it safe if and only if its refund exceeds the
  reservation by no more than the slack (`GiveUpRobustIff`), and a run does throughout if and only
  if each of its cancellations does (`RunRobustIff`). `SlowdownBreaksBound` is a run in which two
  refunds after a slowdown let two calls pass where the fastest schedule has one slot.
- A hash may be set in the tracker again, as when a refused batch is rebuilt into the same
  transactions. The entry is then lost when the hash's older slot is taken over, at the Set
  itself or later. `SurvivesIff` is exact for all histories of nonzero hashes: within the window
  an entry survives if and only if none of the slots taken over since held the hash before it
  was set. `RecordedIff` is the case of the Set itself, `SetAgainLost` a loss one Set later. A
  hash that is not in the ring when it is set survives the whole window. A zero hash is never
  evicted (`ZeroHashStays`).
- The window of hashes sure to be tracked includes the newest one and is one wider than
  capacity less eviction batch; a batch of at most one clears one slot, and a batch as large as
  the capacity leaves only the newest hash. For distinct hashes `TrackedExactly` gives exactly the
  ones tracked.
- A hash that is sent again can be counted as confirmed again, exactly if its entry is recorded
  (`CountedAgainIff`), but never more often than it was sent (`Conservation`). A hash sent once is
  counted at most once and keeps its fate (`DistinctFates`, `FatesAreFinal`).
- The revoked counter of the flow tracker never leaves zero, because a revocation ends its
  flow before any confirmation can look at it (`PatternCounters`).
- The first block of a test enters the running totals but is reported in no period, unless a new
  head came first: there is no time yet to measure it from (`AppendedAreReported`).
- A new head records its block without adding it to the running totals, so a builder event or
  a poll of the same block adds nothing after it (`HeadHidesBlock`).
- A node that answers "null" for a block is taken for a success
  (`internal/loadgen/chainpoller.go:106-108`), and the poller's cursor passes a block that was never
  scanned. Blocks are scanned without a gap if and only if no block that the cursor passed was
  answered with null (`ContiguousIff`); a skipped one is never scanned later (`SkippedForever`,
  `NullSkips`).
- A comment at `internal/loadgen/workers.go:678` says that an open circuit trips again while
  failures stay high; the condition at line 628 excludes that. `OpenCircuitRestoresRate` proves
  that two probes after a trip the rate is back at its old value. The circuit section of the
  repository's README gives 5% and 20% as thresholds and a rate of 10 while open; the code has
  30% and 10%, and halves the rate with a floor of 50. The model follows the code.
- A critical backlog (above four times the target) is meant to cut the rate harder than a
  high one (above twice). For rates between 22 and 398 at the default step it cuts less
  (`CriticalCutsHarderIff`).
- A worker that stops on a cancelled permit wait leaves the nonces of its partial batch
  reserved for good (`StrandedForever`, `QuitStrands`).
- A faucet's expected nonce is reached exactly if none of its sends failed (`ExpectedNonceIff`).
- A negative big integer in a mint is encoded as its magnitude (`RoundTripIff`).

## Model

| member | source | states |
|---|---|---|
| NonceAllocator.ReserveExtractsMinimum | internal/account/account.go:89-106 | Reserving hands out the least nonce of the pool (free list and everything from the head up), removes exactly that one, and keeps the free list sorted and below the head. |
| NonceAllocator.RollbackInserts | internal/account/account.go:112-134 | Both paths of a rollback are the same insertion of one nonce into the pool. |
| NonceAllocator.RollbackWellFormedIff | internal/account/account.go:117-128 | A rollback keeps the allocator well formed if and only if the nonce is below the head and not a duplicate that takes the fast path. |
| NonceAllocator.ResyncPools | internal/account/account.go:249-285 | The rate-limited resync removes from the pool exactly what is below the chain's nonce; the plain one also removes the whole free list. |
| NonceAllocator.SamePoolSameReservations | internal/account/account.go:78-134 | Allocators with the same pool hand out the same nonces forever, whatever their head and free list are. |
| NonceAllocator.ReservationsAscend | internal/account/account.go:89-106 | Consecutive reservations are strictly ascending, come from the pool, and leave exactly the rest, all of it larger. |
| NonceAllocator.RollbackAllInserts | internal/account/account.go:112-134 | Rolling back distinct outstanding nonces in any order inserts exactly them. |
| NonceAllocator.RollbacksCommute | internal/account/account.go:112-134 | Two rollbacks commute as far as any later reservation can tell. |
| NonceAllocator.BatchReplays | internal/loadgen/workers.go:460-471 | After a whole batch is rolled back in any order, the next reservations replay the same nonces, lowest first. |
| NonceAllocator.StaleRollbackIssuesTwice | internal/account/account.go:112-134 | A nonce rolled back at or above the head is handed out twice, once from the list and once from the counter. |
| NonceAllocator.DistinctReservationsIff | internal/account/account.go:112-134 | After a rollback all future reservations are distinct if and only if the nonce was below the head and not a free one right below it. |
| NonceAllocator.LowestFirst | internal/account/account.go:89-106 | Whatever of the pool lies below a reservation was reserved before it. |
| Account.Account.constructor | internal/account/account.go:32-37 | A new account starts at nonce zero with no free nonce. |
| Account.Account.ReserveNonce | internal/account/account.go:89-106 | The in-place reservation is the allocator's, and the handle starts uncommitted. |
| Account.Account.Search | internal/account/account.go:125 | The binary search finds the first element that is not below the nonce. |
| Account.Account.ReturnNonce | internal/account/account.go:112-134 | Lowering the head, or opening a gap and filling it, is the allocator's rollback. |
| Account.Account.ResyncNonce | internal/account/account.go:139-176 | The plain resync takes the node's answer if higher and drops the free list; a failed read changes nothing. |
| Account.Account.ForceResyncNonce | internal/account/account.go:185-209 | The forced resync replaces head and free list; a failed read changes nothing. |
| Account.Account.MaybeResyncFromChain | internal/account/account.go:249-285 | It runs exactly when the interval has passed and the compare-and-swap is won; then it raises the head at most and filters the free list in order. |
| Account.Account.PeekNonce | internal/account/account.go:297-301 | Peeking returns the head and changes nothing. |
| Account.Handle.constructor | internal/account/account.go:50-54 | A handle keeps its nonce and account and is not settled. |
| Account.Handle.Commit | internal/account/account.go:63-65 | Committing sets the flag and leaves the allocator alone. |
| Account.Handle.Rollback | internal/account/account.go:70-75 | Only the first settlement of a handle can return its nonce to the allocator. |
| NonceRuns.StepKeepsExclusive | internal/account/account.go:63-176 | Every event but a forced resync keeps the free list sorted and below the head, held nonces out of the pool, and no held nonce reissued. |
| NonceRuns.StepOnPool | internal/account/account.go:63-285 | Each event's exact effect on the infinite pool, on the handles and on the confirmed nonce: take the least, insert one, keep what is not below the nonce read. |
| NonceRuns.ExclusiveIffSafe | internal/account/account.go:185-209 | An event keeps exclusivity if and only if it is not a forced resync to a nonce that some handle keeps or to one below it. |
| NonceRuns.RunExclusiveIff | internal/account/account.go:63-209 | A run is exclusive throughout if and only if each forced resync finds every held nonce below the nonce it reads. |
| NonceRuns.ForceSafeIff | internal/account/account.go:185-209 | No continuation of a forced resync reissues a held nonce if and only if all held nonces are below the one read. |
| NonceRuns.StaleRollbackRun | internal/account/account.go:112-134 | A run in which a handle from before a forced resync is rolled back and its nonce is held twice. |
| NonceRuns.StaleFastPathRun | internal/account/account.go:117-120 | The same on the fast path, with the allocator well formed. |
| NonceRuns.RunExclusive | internal/account/account.go:63-176 | Every run with safe forced resyncs is exclusive, with rollbacks split into the flag swap and the later insertion. |
| NonceRuns.RunOnlySettles | internal/account/account.go:57-75 | A handle's nonce never changes, and a settled handle stays as it is. |
| NonceRuns.CommittedNeverReturns | internal/loadgen/workers.go:204-258 | In such runs a nonce committed on success, on "already known" or on "nonce too low" is not the nonce of any handle issued later. |
| NonceRuns.StepKeepsNoHoles | internal/account/account.go:249-285 | Every event but the plain resync keeps each nonce from the highest confirmed one to the head free or held. |
| NonceRuns.RunNoHoles | internal/account/account.go:249-285 | Resyncs, however stale the nonces they read, leave no hole that nobody can send as long as the plain ones drop nothing that the chain needs; the rate-limited ones never do. |
| NonceRuns.RunNoHolesIff | internal/account/account.go:139-176 | A run has no hole at any point if and only if none of its plain resyncs drops a nonce that the chain still needs. |
| NonceRuns.PlainResyncLoses | internal/account/account.go:139-176 | A run of two reservations, one rollback and a plain resync after which the returned nonce is neither free nor held, though the chain needs it. |
| NonceRuns.ResyncNoHolesIff | internal/account/account.go:139-176 | The plain resync leaves no hole if and only if no free nonce that the chain still needs is dropped. |
| NonceRuns.HeadKeptIff | internal/account/account.go:112-134 | An event takes the head below the confirmed nonce if and only if it returns the nonce right below a head equal to the confirmed one. |
| NonceRuns.RunHeadKeptIff | internal/account/account.go:112-134 | In a run the head stays at or above every confirmed nonce read if and only if no such rollback occurs in it. |
| NonceRuns.HeadBelowConfirmed | internal/account/account.go:117-120 | A run with such a rollback, after which the head is below the nonce that a resync has read. |
| SenderProtocol.SettlesLive | internal/loadgen/workers.go:204-259 | Whatever a step commits or rolls back is live before it. |
| SenderProtocol.StepKeepsInv | internal/loadgen/workers.go:75-478 | Every step keeps each live handle owned by exactly one place: in hand, in the batch, or in a flight. |
| SenderProtocol.StepKeepsFlow | internal/loadgen/workers.go:337-459 | Every step keeps permits, semaphore slots, waiters and acknowledgement counts in balance. |
| SenderProtocol.RunKeepsFlow | internal/loadgen/workers.go:75-478 | Both invariants hold after every interleaving. |
| SenderProtocol.InFlightBounded | internal/loadgen/workers.go:412-459 | Until a wait is cut short at most `depth` batches are unacknowledged; the send semaphore is never overdrawn, disturbed or not. |
| SenderProtocol.AckNeverBlocks | internal/loadgen/workers.go:328-345 | A callback that has run always finds room in its batch's channel, timeouts and shutdown included. |
| SenderProtocol.StepLiveness | internal/loadgen/workers.go:204-259 | A step ends the life of the handle it settles and of no other, and a new handle is live. |
| SenderProtocol.SettledOnce | internal/loadgen/workers.go:204-471 | In every run each handle is settled at most once, and exactly once if it is no longer live. |
| SenderProtocol.FinishedBatchSettled | internal/sender/sender.go:84-110 | When a batch's callbacks are through, each nonce was settled once, by its own callback. |
| SenderProtocol.RefusedBatchSettled | internal/loadgen/workers.go:460-471 | Each nonce the worker has passed in a refused batch was rolled back once, by the worker. |
| SenderOutcomes.CallbackFate | internal/loadgen/workers.go:204-259 | By what the send was told: success, "already known" and "nonce too low" commit the handle and leave the pool alone; any other error returns the handle and puts exactly its nonce back into the pool. |
| SenderOutcomes.WorkerReturns | internal/loadgen/workers.go:86-179 | Whatever the worker gives up itself (a failed build, an expired linger, a cancelled permit wait, a refused batch) goes back into the pool, alone. |
| SenderOutcomes.SpentNeverReissued | internal/loadgen/workers.go:204-258 | Whatever happens afterwards, a nonce whose send was told of success, "already known" or "nonce too low" is never handed to the worker again. |
| SenderOutcomes.WorkerNeverStuck | internal/loadgen/workers.go:412-459 | A worker that has not stopped can take a step, or waits for a batch whose wait can end; no permit is ever lost. |
| SenderOutcomes.StrandedForever | internal/loadgen/workers.go:167-179 | Nonces in the partial batch of a worker that stopped stay live in every continuation. |
| SenderOutcomes.StoppedSettlesAllIff | internal/loadgen/workers.go:167-179 | After the worker stopped and all callbacks are through, every nonce is settled if and only if it stopped with an empty batch. |
| SenderOutcomes.QuitStrands | internal/loadgen/workers.go:167-171 | A run in which a cancelled permit wait strands a nonce. |
| SenderOutcomes.NoHolesStepIff | internal/loadgen/builder.go:30-37 | A step of the protocol loses no nonce that the chain needs if and only if it is not a plain resync that drops one. |
| SenderOutcomes.ResyncForgets | internal/loadgen/builder.go:30-37 | After a resync nothing below the nonce read is handed out; the rate-limited one keeps the rest of the pool, the plain one what is at or above the head. |
| SenderOutcomes.RunNoHolesIff | internal/loadgen/workers.go:252-295 | Whatever fails, times out or is resynced from a lagging node, at no point of a run is a needed nonce lost if and only if none of its plain resyncs, as a circuit trip makes them, drops one. |
| SenderOutcomes.TripLosesNonce | internal/loadgen/workers.go:649 | At any depth an undisturbed run in which a send fails, the circuit trips, and the failed send's nonce is lost with the free list. |
| SenderOutcomes.NextBatchLowestIff | internal/loadgen/workers.go:86-92 | At depth one, undisturbed, new batches of any size take the lowest nonces that are not spent (between the confirmed nonce and each of their own lie only committed nonces and their own) if and only if there is no hole. |
| SerialBatches.NothingInFlight | internal/loadgen/workers.go:456-458 | At depth one the worker finds every callback of every batch done whenever it is not waiting for one. |
| SerialBatches.StepKeepsSerial | internal/loadgen/workers.go:86-180 | Every step, resyncs and rollbacks included, keeps the batch ascending and below everything still to be handed out. |
| SerialBatches.NoneLiveAtBatchStart | internal/loadgen/workers.go:310-325 | At depth one no nonce of the account is live when a batch starts. |
| SerialBatches.BatchesAscend | internal/loadgen/workers.go:86-180 | At depth one every batch ever queued, and the one being filled, has strictly ascending nonces. |
| SerialBatches.DeeperPipelineDescends | internal/loadgen/workers.go:427-458 | Any deeper pipeline has an undisturbed run with a descending batch. |
| SerialBatches.BatchesAscendIffSerial | internal/loadgen/workers.go:909-926 | All batches of all undisturbed runs ascend if and only if the depth is one. |
| SerialBatches.BatchLimit | internal/loadgen/workers.go:86-92 | A batch of twenty can be filled, and no batch ever queued holds more, or none. |
| RateLimiter.Limiter.constructor | internal/ratelimit/limiter.go:27-39 | The first permit time is now, and the interval is the rate's. |
| RateLimiter.Limiter.Reserve | internal/ratelimit/limiter.go:43-56 | A wait takes the next permit time and moves the schedule by one interval. |
| RateLimiter.Limiter.Refund | internal/ratelimit/limiter.go:68-76 | A cancelled wait moves the schedule back by the current interval. |
| RateLimiter.Limiter.SetRate | internal/ratelimit/limiter.go:82-99 | A rate change replaces the interval and lifts a schedule in the past to now. |
| RateLimiter.IntervalPositiveIff | internal/ratelimit/limiter.go:27-34 | The truncated interval is at least a nanosecond exactly for rates up to one per nanosecond. |
| RateLimiter.IntervalOfRate | internal/ratelimit/limiter.go:27-34 | The interval times the rate is at most a second, and more than a second if the interval were a nanosecond longer; a rate that is not positive gives one second. |
| RateLimiter.StepOnSchedule | internal/ratelimit/limiter.go:43-78 | Each reservation, grant and refund keeps, for every time x, the permit times up to x within the schedule's slots up to x. |
| RateLimiter.RateBound | internal/ratelimit/limiter.go:41-78 | At a constant rate no interleaving of waits and cancellations grants more calls by time t than floor((t - start) / interval) + 1. |
| RateLimiter.RateBoundOfRate | internal/ratelimit/limiter.go:12-16 | In terms of the rate r: after t nanoseconds no interleaving has passed more than t * r / (10^9 - r) + 1 calls. |
| RateLimiter.RateReached | internal/ratelimit/limiter.go:41-78 | Some run passes exactly as many calls as the bound allows. |
| RateLimiter.RateReachedOfRate | internal/ratelimit/limiter.go:12-16 | Some run passes at least floor(t * r / 10^9) + 1 calls in t nanoseconds. |
| RateLimiter.NoSlotIsLost | internal/ratelimit/limiter.go:68-76 | Cancelled waits waste no capacity: the schedule advances only for calls granted or still waiting. |
| RateLimiter.PackedStepIff | internal/ratelimit/limiter.go:43-78 | From reserved times that fill the schedule, an event keeps them so if and only if it is not the cancellation of an older reservation. |
| RateLimiter.RunPackedIff | internal/ratelimit/limiter.go:43-78 | Reserved times fill the schedule throughout a run if and only if each cancellation refunds the newest reservation. |
| RateLimiter.PackedSpaced | internal/ratelimit/limiter.go:12-16 | Times that fill the schedule are distinct and at least an interval apart. |
| RateLimiter.CancelRepeatsIff | internal/ratelimit/limiter.go:68-76 | With distinct times up to the last slot, a cancellation makes the next call repeat one if and only if the cancelled call did not hold the last slot. |
| RateLimiter.RefundDuplicatesPermitTime | internal/ratelimit/limiter.go:68-76 | A run in which two waiting calls hold the same permit time. |
| RateLimiter.BurstIff | internal/ratelimit/limiter.go:53-60 | Of calls arriving together the (k+1)-st passes at once if and only if k is less than the slots of the schedule from where it was left up to now. |
| RateLimiter.NoBurstAfterSetRate | internal/ratelimit/limiter.go:90-99 | Of calls arriving together with a rate change the (k+1)-st passes at once if and only if k is zero and the schedule had not run ahead of it. |
| RateLimiter.RateChangeDrift | internal/ratelimit/limiter.go:68-99 | The exact place of the schedule after j of k waiting calls cancel across a rate change, and when it is the right one. |
| RateChanges.SlackIffAffordable | internal/ratelimit/limiter.go:43-99 | Waits, passes and rate changes keep the slack from going negative, and a cancellation does if and only if its refund exceeds its reservation by no more than the slack. |
| RateChanges.RobustIff | internal/ratelimit/limiter.go:43-99 | No fair continuation lets more calls pass by any time t than the schedule of the least interval has slots if and only if the slack is not negative. |
| RateChanges.GiveUpRobustIff | internal/ratelimit/limiter.go:68-76 | After a cancellation that bound is safe in every fair continuation if and only if the refund exceeds the reservation by no more than the slack. |
| RateChanges.RunRobustIff | internal/ratelimit/limiter.go:43-99 | The bound is safe at every point of a run with any rate changes if and only if each of its cancellations is affordable when it comes. |
| RateChanges.RateBoundUnderChanges | internal/ratelimit/limiter.go:43-99 | In such a run no more calls pass by time t than the schedule of the least interval has slots. |
| RateChanges.SlowdownBreaksBound | internal/ratelimit/limiter.go:68-99 | A run whose two calls cancelled after a slowdown had both blocked, in which two calls pass at once where the fastest schedule has one slot. |
| TxTracker.TxTracker.constructor | internal/metrics/txtracker.go:41-48 | A new tracker has an empty map and a ring of empty slots. |
| TxTracker.TxTracker.Set | internal/metrics/txtracker.go:52-74 | Set makes room when full, stores the time, forgets the slot's old hash and advances the ring. |
| TxTracker.TxTracker.EvictOldest | internal/metrics/txtracker.go:78-90 | The loop clears the batch of slots from the head on and forgets their hashes. |
| TxTracker.TxTracker.GetSentTime | internal/metrics/txtracker.go:93-98 | A lookup reads the map. |
| TxTracker.TxTracker.GetAndDelete | internal/metrics/txtracker.go:102-113 | A lookup that also removes the entry, and leaves the ring. |
| TxTracker.TxTracker.Reset | internal/metrics/txtracker.go:123-132 | A reset empties the map, every slot and the head. |
| TxTracker.EvictClears | internal/metrics/txtracker.go:78-90 | Evicting n slots empties the n oldest, keeps the others, and forgets exactly the hashes the n held. |
| TxTracker.EvictSaturates | internal/metrics/txtracker.go:78-90 | An eviction batch beyond the ring's size does no more than the ring's size. |
| TxTracker.RoomMadeIffFull | internal/metrics/txtracker.go:52-58 | Room is made exactly when the map is full, by emptying the batch of oldest slots and forgetting what they held. |
| TxTracker.RecordRing | internal/metrics/txtracker.go:52-74 | A Set keeps every slot's hash at its turn of the history and every tracked entry in the ring with its exact time. |
| TxTracker.FullRing | internal/metrics/txtracker.go:52-56 | When an eviction runs, every slot holds a different hash and all of them are tracked. |
| TxTracker.RecordSurvive | internal/metrics/txtracker.go:52-90 | A Set keeps the latest hashes of the window tracked unless deleted, or unless an older slot of the same hash was taken over since. |
| TxTracker.AgreesWithUnbounded | internal/metrics/txtracker.go:52-113 | For nonzero hashes, repeated or not, the tracker holds at most its capacity, invents and resurrects nothing, and answers like an unbounded map for the latest window of hashes of which no older slot was taken over since. |
| TxTracker.SurvivesIff | internal/metrics/txtracker.go:52-90 | Exactly when an entry survives the window in any history of nonzero hashes: if and only if none of the slots taken over since its Set held the same hash before it. |
| TxTracker.RecordedIff | internal/metrics/txtracker.go:62-71 | Right after its Set an entry is there if and only if the slot it took did not hold the same hash. |
| TxTracker.TrackedExactly | internal/metrics/txtracker.go:52-90 | After n Sets of distinct nonzero hashes exactly the latest n are tracked while n is at most the size, and otherwise exactly the latest size - b + 1 + (n - size - 1) mod b, where b is the eviction batch taken between one and the size. |
| TxTracker.SetAgainLost | internal/metrics/txtracker.go:62-71 | A recorded entry of a hash set twice is lost within the window with its older slot. |
| TxTracker.ZeroHashStays | internal/metrics/txtracker.go:66-68 | A tracked zero hash survives every Set. |
| FlowTracker.TxFlowTracker.HasStage | internal/metrics/txflow.go:61-68 | The search finds a stage exactly if the flow holds it. |
| FlowTracker.TxFlowTracker.RecordStage | internal/metrics/txflow.go:115-155 | A record extends or starts a flow, counts, and ends the flow on a terminal stage. |
| FlowTracker.TxFlowTracker.AppendStage | internal/metrics/txflow.go:119-139 | The transition joins the hash's live flow, or starts one that is counted. |
| FlowTracker.TxFlowTracker.UpdateConfirmedCounters | internal/metrics/txflow.go:158-186 | One pattern counter moves, by the stages of the confirmed flow. |
| FlowTracker.LiveIsSince | internal/metrics/txflow.go:115-155 | The live flow of a hash is what was recorded since its last terminal stage. |
| FlowTracker.PatternCounters | internal/metrics/txflow.go:158-186 | Direct, pending and preconfirmed counters partition the confirmations by the stages since the hash's last terminal one; the revoked counter stays zero. |
| FlowTracker.TrackedFlows | internal/metrics/txflow.go:115-155 | Flows ever tracked are the live ones plus the terminal records, and no live flow holds a terminal stage. |
| Collector.MemoryCollector.constructor | internal/metrics/collector.go:122-132 | A new collector has counted nothing. |
| Collector.MemoryCollector.RecordTxSent | internal/metrics/collector.go:143-146 | A send is tracked and starts or extends its flow. |
| Collector.MemoryCollector.RecordTxConfirmed | internal/metrics/collector.go:149-161 | A tracked hash is counted, timed and removed; any other hash only ends its flow. |
| Collector.MemoryCollector.RecordTxConfirmedFlowOnly | internal/metrics/collector.go:167-170 | The hash leaves the tracker and ends its flow without being counted. |
| Collector.MemoryCollector.RecordTxFailed | internal/metrics/collector.go:173-177 | A failure moves one counter. |
| Collector.MemoryCollector.DiscardTx | internal/metrics/collector.go:181-183 | A discard removes the hash from the tracker and counts nothing. |
| Collector.StepBalances | internal/metrics/collector.go:143-183 | Every call keeps, hash by hash, sends equal to the tracked entry plus confirmations, flow-only hits, discards, evictions and replacements. |
| Collector.Conservation | internal/metrics/collector.go:143-183 | In any run sends equal tracked plus confirmed plus flow-only plus discarded plus evicted plus replaced, latency samples equal confirmations, and no hash is confirmed or tracked more often than sent. |
| Collector.FlowsFollow | internal/metrics/collector.go:149-183 | The flow state is that of the stages that the calls stand for, one per send and one per confirmation of either kind, and only failed sends count as failed. |
| Collector.FlowCounters | internal/metrics/collector.go:149-171 | Over sends and confirmations the direct counter is the number of confirmations of either kind, and every other pattern counter is zero. |
| Collector.HitsAreTimed | internal/metrics/collector.go:149-160 | Every counted confirmation is timed from the latest send of its hash, in any history of nonzero hashes. |
| Collector.MillisecondsTruncate | internal/metrics/collector.go:157 | A latency is the duration's whole milliseconds, truncated towards zero. |
| Collector.UncountedUntilSent | internal/metrics/collector.go:149-183 | A hash that is not tracked is not counted until it is sent again. |
| Collector.CountedAgainIff | internal/metrics/collector.go:143-161 | A hash sent again is counted again if and only if the tracker's next slot does not hold it from before. |
| Collector.DistinctFates | internal/metrics/collector.go:143-183 | When every transaction is sent once, each is tracked or has exactly one fate. |
| Collector.RecentSendCounts | internal/metrics/collector.go:149-161 | A send within the tracker's window that met no other fate is counted by its confirmation, with its latency. |
| Collector.FatesAreFinal | internal/metrics/collector.go:179-183 | When every transaction is sent once, one that was discarded, evicted or confirmed is never counted as confirmed afterwards. |
| AdaptiveController.Controller.constructor | internal/loadgen/workers.go:555-580 | The controller starts closed, with defaults for settings that are not positive. |
| AdaptiveController.Controller.Tick | internal/loadgen/workers.go:604-750 | One tick with its early exits is the step function of the controller. |
| AdaptiveController.TripsIff | internal/loadgen/workers.go:620-649 | A closed circuit opens if and only if there were at least 100 sends and more than 3 in 10 failed or more than 1 in 10 was revoked; then the rate is halved, to no less than 50, and the old one remembered. |
| AdaptiveController.RecoversIff | internal/loadgen/workers.go:650-694 | An open circuit closes if and only if there were at least 20 sends and fewer than 1 in 20 failed or was revoked; otherwise the rate rises by half, up to the remembered one. |
| AdaptiveController.PressureHalves | internal/loadgen/workers.go:660-675 | Builder pressure above 0.8 halves the rate of a circuit that is closed after the check, to no less than 100, whatever the backlog is. |
| AdaptiveController.BacklogDecides | internal/loadgen/workers.go:696-750 | Without pressure the backlog alone decides: up one step below the target, unchanged at it, down one step, two steps or by half above it, twice it and four times it, to no less than ten. |
| AdaptiveController.RateFloor | internal/loadgen/workers.go:627-750 | From a closed circuit the rate never falls below ten, or below a smaller initial rate. |
| AdaptiveController.OpenCircuitRestoresRate | internal/loadgen/workers.go:677-694 | While the circuit stays open, the rate is at most the old one from the first probe on and equals it from the second on. |
| AdaptiveController.OverloadHalves | internal/loadgen/workers.go:708-721 | After k ticks of critical overload the rate is the initial one divided by two to the k, or ten. |
| AdaptiveController.RateDirection | internal/loadgen/workers.go:696-750 | A calm closed tick raises the rate exactly when there is room (or it was below ten), and lowers it exactly under overload above ten. |
| AdaptiveController.CriticalCutsHarderIff | internal/loadgen/workers.go:708-735 | A critical backlog cuts the rate at least as far as a high one if and only if the rate is at most 21 or at least four steps less one. |
| RollingWindow.Rolling.constructor | internal/loadgen/init.go:605-622 | A window starts empty, with no remembered rate. |
| RollingWindow.Rolling.Append | internal/loadgen/websocket.go:396-407 | A block adds one point. |
| RollingWindow.Rolling.Prune | internal/loadgen/blockmetrics.go:316-342 | The in-place compaction keeps exactly the points later than the cutoff, in order, with their sum and oldest timestamp. |
| RollingWindow.Rolling.Rate | internal/loadgen/blockmetrics.go:299-383 | A query's answer and the pruned window it leaves. |
| RollingWindow.WindowAgrees | internal/loadgen/blockmetrics.go:316-342 | Under a clock that does not go back, the pruned window and the whole history agree on every cutoff still to come. |
| RollingWindow.AfterExactly | internal/loadgen/blockmetrics.go:316-336 | Filtering decides point by point: each one is kept, in place, if and only if it is later than the cutoff. |
| RollingWindow.PrunedRateIsFullRate | internal/loadgen/blockmetrics.go:299-465 | After any appends and queries the pruned window gives the rate of the whole history. |
| RollingWindow.RateOfHistory | internal/loadgen/blockmetrics.go:299-383 | A query on the pruned window answers zero exactly without an amount in the last five seconds or with fewer than three points in less than a second; otherwise rate times elapsed time (at least 0.2 seconds) is the amount of those points of the whole history. |
| RollingWindow.UpperClampUnused | internal/loadgen/blockmetrics.go:357-364 | The five-second upper clamp is never taken. |
| BlockFeed.BlockMetrics.constructor | internal/loadgen/init.go:605-622 | The record starts empty. |
| BlockFeed.BlockMetrics.ProcessBuilderBlockMetrics | internal/loadgen/websocket.go:325-408 | A builder event is ignored outside the test, noted when already recorded, counted otherwise. |
| BlockFeed.BlockMetrics.RecordPolledBlockMetrics | internal/loadgen/chainpoller.go:173-223 | A polled block is counted unless its number is recorded already. |
| BlockFeed.BlockMetrics.ProcessNewHead | internal/loadgen/websocket.go:505-551 | A new head adds a point and records its number, without running totals. |
| BlockFeed.BlockMetrics.GetBlockMetricsForPeriod | internal/loadgen/blockmetrics.go:233-267 | A period's report is the sum of the collected points, which it clears. |
| BlockFeed.RunConsistent | internal/loadgen/websocket.go:357-395 | Over any interleaving of the feeds recorded numbers strictly increase, each enters the totals at most once, and the drained periods followed by the rest are exactly the appended points. |
| BlockFeed.PeriodsConserve | internal/loadgen/blockmetrics.go:239-267 | The reports returned by all drains, and the one still to come, sum to the gas, gas limits and number of exactly the blocks that get a point, told from the messages. |
| BlockFeed.RecordedAreMaxima | internal/loadgen/websocket.go:357-395 | The recorded blocks are exactly the messages whose number exceeds every earlier one, and the counted ones those of them that are not new heads. |
| BlockFeed.AppendedAreReported | internal/loadgen/websocket.go:379-393 | The blocks that get a point for the periods are exactly the recorded ones, in order, without the first one when that was a builder or polled block with no new head before it. |
| BlockFeed.NumbersAreOfMessages | internal/loadgen/chainpoller.go:177-193 | First, last and fallback block numbers are those of the first eligible message with a number, of the latest head or news, and of the last counted block. |
| BlockFeed.TotalsAreMaxima | internal/loadgen/chainpoller.go:173-190 | Running gas, gas limit and block count are the sums over those blocks, in runs in which the RPC fallback of a drain adds nothing. |
| BlockFeed.HeadHidesBlock | internal/loadgen/websocket.go:529-539 | A block whose new head comes first never enters the running totals. |
| ChainPoller.Poller.constructor | internal/loadgen/chainpoller.go:36-42 | The cursor starts behind the test's first block. |
| ChainPoller.Poller.RunTick | internal/loadgen/chainpoller.go:42-85 | One tick reads from the cursor to the capped head and stops at the first error; it scans, in order, the blocks passed that were answered with a block and not with null. |
| ChainPoller.ScannedIff | internal/loadgen/chainpoller.go:42-85 | Over any heads, decreasing ones included, and any answers, blocks are scanned in ascending order, none twice, and exactly those that the cursor passed on a block. |
| ChainPoller.ContiguousIff | internal/loadgen/chainpoller.go:69-108 | What was scanned is the whole range from the start to the cursor if and only if no block that the cursor passed was answered with null. |
| ChainPoller.NeverPastError | internal/loadgen/chainpoller.go:75-84 | The cursor never passes a block whose read failed. |
| ChainPoller.SkippedForever | internal/loadgen/chainpoller.go:42-85 | A block that was passed without being scanned is scanned in no continuation. |
| ChainPoller.NullSkips | internal/loadgen/chainpoller.go:106-108 | A run that skips the head's block on a null answer, whatever follows. |
| ChainPoller.TickProgress | internal/loadgen/chainpoller.go:56-84 | A tick passes every block up to the head, or fifty blocks, or stops at one that cannot be read. |
| ChainPoller.CatchUp | internal/loadgen/chainpoller.go:69-84 | While no read fails the cursor gains fifty blocks a tick until it reaches the head. |
| ChainPoller.ScanBlock | internal/loadgen/chainpoller.go:98-159 | The scan loop is the fold of the per-hash step, with its match count and saturating pending count. |
| ChainPoller.ScanBlockForConfirmations | internal/loadgen/chainpoller.go:98-159 | An error and a null change nothing, and the null is reported as success; a block is scanned hash by hash. |
| ChainPoller.ScanMatchesTracked | internal/loadgen/chainpoller.go:126-134 | A block matches exactly the tracked hashes in it, each once; they leave the tracker and end their flows as confirmed, and only inside the test's blocks are they counted and timed. |
| LatencyStats.StreamingLatencyStats.constructor | internal/metrics/latency.go:51-61 | Statistics start empty with a nonzero generator state. |
| LatencyStats.StreamingLatencyStats.GetBucketIndex | internal/metrics/latency.go:97-104 | The loop finds the first bound above the latency. |
| LatencyStats.StreamingLatencyStats.FastRand | internal/metrics/latency.go:109-115 | One round of xorshift and a 64-bit product. |
| LatencyStats.StreamingLatencyStats.AddExtreme | internal/metrics/latency.go:69-77 | Sum, minimum and maximum take in the sample. |
| LatencyStats.StreamingLatencyStats.AddSample | internal/metrics/latency.go:65-94 | A sample is counted, summed, put in its bucket, and kept or drawn into the reservoir. |
| LatencyStats.StreamingLatencyStats.Reset | internal/metrics/latency.go:176-189 | A reset clears everything but the generator. |
| LatencyStats.StateNeverZero | internal/metrics/latency.go:107-115 | A nonzero generator state stays nonzero. |
| LatencyStats.ScrambleInvertible | internal/metrics/latency.go:107-115 | The generator's round has an explicit inverse, so no two states lead to the same next one. |
| LatencyStats.OutputInvertible | internal/metrics/latency.go:115 | The output times the constant's inverse is the state, so different states have different outputs. |
| LatencyStats.BucketIsRange | internal/metrics/latency.go:97-104 | The bucket index is b exactly for latencies in the range of bucket b. |
| LatencyStats.BucketsCount | internal/metrics/latency.go:65-80 | Each bucket counts exactly the samples in its range, and together they count all. |
| LatencyStats.ReservoirSamples | internal/metrics/latency.go:81-94 | The reservoir has min(count, size) elements, each sample of the stream at most once, and all of them while they fit. |
| LatencyStats.NewestSample | internal/metrics/latency.go:81-94 | The newest sample joins a reservoir that is not full; otherwise it takes exactly the slot drawn below the number of samples seen, or none when that is beyond the end, and nothing else moves. |
| LatencyStats.ExtremesExact | internal/metrics/latency.go:69-77 | Sum, minimum and maximum are those of the whole stream, with zero as the maximum of negative latencies. |
| LatencyStats.PercentileMonotone | internal/metrics/latency.go:155-173 | The interpolated percentile is monotone in p. |
| LatencyStats.PercentileExact | internal/metrics/latency.go:155-173 | At p = i / (n - 1) the percentile is the i-th sorted sample, and in between it lies on the line from one sample to the next. |
| LatencyStats.PercentileWithin | internal/metrics/latency.go:155-173 | A percentile lies between the smallest and largest reservoir values, which are percentiles 0 and 1. |
| Faucets.VisitedOnce | internal/account/manager.go:394-420 | Strided loops visit each account index by exactly the faucet its remainder names. |
| Faucets.VisitsAscend | internal/account/manager.go:394-420 | A faucet visits its indices in strictly ascending order, each once. |
| Faucets.CountPerFaucet | internal/account/manager.go:430-440 | The per-faucet counts match the lengths of the strides. |
| Faucets.FundAccountFast | internal/account/manager.go:583-636 | One funding spends the allocator's next nonce, or leaves its pool as it was. |
| Faucets.RunFaucet | internal/account/manager.go:394-420 | After k successes among any failures, a resynced faucet has spent exactly start to start + k - 1 and continues at start + k. |
| Faucets.ExpectedNonceIff | internal/account/manager.go:430-450 | The expected nonce is the faucet's next one if and only if none of its sends failed. |
| Faucets.ChunksPartition | internal/account/manager.go:285-339 | The chunks of key generation cover every index exactly once. |
| Faucets.ChunkSize | internal/account/manager.go:285-339 | The chunk size is the smallest with which the workers cover all indices. |
| ReadLoad.Validate | internal/readload/readload.go:231-279 | An accepted enabled configuration has five shares in range that sum to one hundred. |
| ReadLoad.ValidIffSound | internal/readload/readload.go:231-279 | A configuration is accepted if and only if it is disabled, or its mix sums to one hundred without a negative share, its selection is known, and its rate, windows, depth and concurrency are in range; the upper bound of each share rejects nothing more. |
| ReadLoad.WithDefaults | internal/readload/readload.go:281-295 | Settings that are positive are kept, and those that are not become 64 blocks, 16 blocks and 100 percent; an unset selection becomes the recent one, and everything else is kept. |
| ReadLoad.BuildPicker | internal/readload/readload.go:195-212 | The loop builds the table of cumulative shares, leaving out empty ones. |
| ReadLoad.Pick | internal/readload/readload.go:540-549 | The loop picks the first row above the roll, and the last row where there is none. |
| ReadLoad.PickRange | internal/readload/readload.go:540-549 | A roll picks the method into whose stretch of the shares it falls, and falls through exactly beyond their sum. |
| ReadLoad.PickerIsFair | internal/readload/readload.go:195-212 | Of the hundred rolls exactly `share` pick each method, and none falls through. |
| ReadLoad.ArchiveNested | internal/readload/readload.go:638-647 | Archive windows end at the head, start in the chain, and are nested in the depth percentage. |
| ReadLoad.ArchiveLength | internal/readload/readload.go:638-647 | The archive window is that percentage of the chain, rounded down, or one block. |
| ReadLoad.TagExists | internal/readload/readload.go:599-626 | Every block tag is in [1, head] and in its selection's window, and when it is "latest". |
| ReadLoad.TagIff | internal/readload/readload.go:599-626 | A read can name exactly the blocks of its selection's window, each of them by some draw. |
| ReadLoad.LogsBounded | internal/readload/readload.go:650-684 | Every log range is in [1, head] and no longer than configured, and exists exactly when there is a block. |
| ReadLoad.LogsIff | internal/readload/readload.go:650-684 | A log query can name exactly the ranges of the configured length, or the chain's, that lie in the window, each by some draw; and the whole window where that is shorter. |
| BatchDemux.Demux | internal/rpc/client.go:930-951 | The two loops give, for each request, the reply with its id, or a missing-response error. |
| BatchDemux.SendRawTransactionBatch | internal/rpc/client.go:453-481 | One error slot per transaction; a failed exchange fills every slot. |
| BatchDemux.FanOut | internal/sender/sender.go:94-103 | Callback i gets error i, or none beyond the list. |
| BatchDemux.AnyOrder | internal/rpc/client.go:930-951 | Whatever order the server answers in, request i gets answer i. |
| BatchDemux.CallbackSucceedsIff | internal/rpc/client.go:453-481 | A callback is told of success if and only if the exchange held and the last response with its id has no error. |
| BatchDemux.CallbackError | internal/rpc/client.go:453-481 | A callback is told of the broken exchange's error, of the error of the last response with its id, or that there was none. |
| AbiEncoding.FillBytes | internal/uniswapv3/abi.go:193-242 | A number is written as a big-endian word, leaving the rest of the buffer alone. |
| AbiEncoding.EncodeMintPosition | internal/uniswapv3/abi.go:193-242 | The buffer filled word by word is the selector followed by the eleven words in order. |
| AbiEncoding.DecodeEncoded | internal/uniswapv3/abi.go:193-242 | Decoding the call data gives back every field, ticks with their sign, big integers as magnitudes. |
| AbiEncoding.AddressesAreNumbers | internal/uniswapv3/abi.go:193-242 | The word of an address has the value of its twenty bytes, so nothing stands in front of them. |
| AbiEncoding.RoundTripIff | internal/uniswapv3/abi.go:193-242 | Decoding inverts encoding if and only if no big integer is negative. |
| AbiEncoding.EncodingInjective | internal/uniswapv3/abi.go:193-242 | Unsigned mints with the same bytes are the same mint. |

## Left out

- Machine widths: nonces, block numbers, gas and rates are unbounded; wrap-around of 64-bit counters and overflow of time arithmetic are not modelled. The 64-bit generator of the latency sample is.
- Floating point: ratios, latencies and rates are exact reals; rounding is not modelled.
- Account.Account.MaybeResyncFromChain: the compare-and-swap of the throttle is a parameter that says who wins, so the stampede it prevents is not modelled.
- SenderProtocol.StepKeepsInv: a rollback is one step of the protocol, since its flag belongs to one goroutine at a time; `NonceRuns` has the two steps. Deposits into the pending count and the send statistics are not part of a step.
- SenderProtocol.InFlightBounded: nothing is claimed once an acknowledgement wait has timed out or the test is stopping; the semaphore bound does not depend on that.
- Account.Handle.Rollback: the flag swap and the insertion are one method here, so their interleaving with other goroutines is only in `NonceRuns`.
- RateLimiter.RateBound: it is about a constant rate of at most one call per nanosecond, the case in which the interval is positive; the timer that wakes a waiting call is a step that may come at any later time. `RateChanges` has the changing rates.
- RateChanges.RobustIff: clock readings of different steps are unrelated there, so a run may read times in any order; the refund of a call is one step, and only of a call that blocks.
- AdaptiveController.Controller.Tick: the timer of the tick, the limiter it adjusts and the asynchronous nonce resync are left out; the state keeps the resync flag.
- FlowTracker.TxFlowTracker.RecordStage: timestamps of transitions are left out, and so is the race of two records of one hash between the map and the flow's own lock.
- FlowTracker.TxFlowTracker.AppendStage: the race of two first records of one hash is left out.
- Collector.MemoryCollector.constructor: it starts the parts that are modelled; see the next line for the others.
- Collector.MemoryCollector.RecordTxSent: the per-type metrics, the tip histogram, the pending and preconfirmation latencies and the Prometheus mirror are left out.
- BlockFeed.BlockMetrics.GetBlockMetricsForPeriod: rates per period and the fill rate are left out, and so is the fallback that fetches blocks over RPC when no point was collected.
- BlockFeed.PeriodsConserve: a drain without a collected point reports zeros here; the fallback that asks a node instead is left out.
- Collector.FlowsFollow: the stages that the preconfirmation feed records are only in `FlowTracker`, not among the collector's events.
- BlockFeed.TotalsAreMaxima: a drain that finds no collected point asks a node instead and adds what it reports to the running gas; that fallback is left out.
- BlockFeed.BlockMetrics.ProcessBuilderBlockMetrics: timing fields are left out, and the rolling windows it appends to are in `RollingWindow`.
- BlockFeed.BlockMetrics.ProcessNewHead: the block time and the list of recent block numbers are left out.
- ChainPoller.ScanBlock: the block's metrics, the log records and the list of recent hashes are left out; what fetching the block gives is a parameter.
- BlockFeed.BlockMetrics.RecordPolledBlockMetrics: block times and the points' timing fields are left out; the rolling windows it appends to are in `RollingWindow`.
- LatencyStats.StreamingLatencyStats.constructor: the largest number, at which the minimum starts, is modelled as a value above every latency.
- Faucets.RunFaucet: signing, encoding and sending are one flag per account; the wait for confirmations is left out.
- BatchDemux.SendRawTransactionBatch: the retry loop of the batch call and the parsing of JSON are left out; an exchange is the outcome of the last attempt.
- AbiEncoding.EncodeMintPosition: the selector is a parameter, because it is a hash; encoders of other calls have the same words and are left out.
- HTTP, WebSocket, JSON, SQLite, the command line, signing, hashing and contract deployment: plumbing or foreign calls.
- Error classification by matching message texts: a send error carries the two flags that the callback reads.
- The deprecated nonce accessors that bypass the free list, and the self-healing of nonces outside the worker.
- Peak rates, load patterns, account sizing and number formatting: only easy members.
- The order of the two token addresses, which the source compares as checksummed text.
