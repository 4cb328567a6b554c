# gostack-kit: models and proofs

This project models the step-by-step protocols of the Go API kit and proves what they promise. Objects
whose methods change their fields are classes, loops are methods with invariants, and what the source
computes is proved against specification functions. Protocols with several actors are transition
systems over these functions: an event list says who acted and which external call failed, and the
theorems hold for every event list.

| file | what it models |
|---|---|
| `Retry.dfy`, `Topics.dfy` | the inner retry loop; the append-only topic registry |
| `Outbox.dfy` | outbox rows, the relay's query, publishing round, status writes and poll |
| `Transaction.dfy` | transactions whose body may fail or panic; creating an order with its event |
| `OutboxSafety.dfy` | whole runs: order creation, any number of relays, faults and crashes at every step |
| `OutboxPublished.dfy` | when a published row stays published, and the run in which it does not |
| `OutboxResets.dfy` | rounds and causes since the last RetryFailed, and the run in which a verdict outlives it |
| `OutboxCarryOver.dfy` | exactly which resets let a row fail without a cause |
| `RelayProgress.dfy` | one relay: rounds per entry, waiting time, draining |
| `OutboxPolls.dfy` | the poll as steps of the whole-run model, from any reachable state |
| `SlidingWindow.dfy` | the Redis sliding-window limiter against its full history |
| `DistLock.dfy`, `Scheduler.dfy` | leases in Redis; jobs of many pods under them |
| `Dispatcher.dfy`, `Batcher.dfy`, `Idempotency.dfy` | key-sharded workers, batches, deduplication |
| `OrderCache.dfy`, `TagIndex.dfy`, `Hub.dfy` | caches and indexes that have to agree with their source |
| `Cron.dfy`, `CronSchedule.dfy`, `Base64.dfy` | parsers and printers |
| `Strings.dfy`, `Sequences.dfy`, `Wrappers.dfy` | string functions of Go's standard library and what they compute, sequence lemmas, results |

## Where the code does less than it says

Each entry names the failing case and, beside it, the condition under which the code does what its
comments promise.

- Two relays on one database: the status updates at `pkg/broker/relay.go:125-157` name the row by id
  only, so a slower relay can write `failed` over `published` (`OutboxPublished.OverlapLosesPublished`).
  Exactly such a write takes a row out of `published` (`LeftExactly`), and none happens while no entry
  is in two hands at once, however polls overlap (`PublishedForEver`).
- `RetryFailed` resets rows that a second relay still works on; its verdict from before then fails the
  row again without a round (`OutboxResets.OverlapCarriesVerdict`). A reset can lead to a failure
  without a cause exactly when some relay does not leave the row alone
  (`OutboxCarryOver.SafeResetExactly`), which cannot be while no entry is in two hands at once
  (`NoEntryTwiceIsSafe`).
- A broker error marked permanent is still sent four times within a round
  (`Outbox.PermanentErrorsRepeat`): a call is followed by another exactly when `retry.IsRetryable` says
  so, it was not the fourth and the context goes on (`CallsAgain`), and `IsRetryable` does not look at
  `ProduceError`.
- A failing second query, or a lost reply to the insert, in `IdempotentBatchHandler` loses messages
  (`Idempotency.RequeryFailureLoses`): a message is lost exactly when the first insert of its position
  that took effect belongs to a delivery that did not get through (`LostExactly`), and a delivery hands
  on all its unseen messages exactly when it gets through or has none (`PassedExactly`).
- A write between `SMembers` and `Del` of `InvalidateByTag` survives exactly when its key was not among
  the members read (`TagIndex.WriteBetweenEscapes`, `EscapesExactly`). The index survives the `Del`
  exactly when the members read are up to date or there were none (`DeleteKeepsIndex`).
- `InvalidateByTag` subtracts one from the deleted keys for the tag set. When another instance has
  deleted the set in between, the count is one too low, and -1 if the members are gone as well
  (`TagIndex.SecondCountNegative`); it is right exactly when the set is still there (`CountExactly`).
- `Service.Cancel` passes version 0 to `UpdateStatus`. An update succeeds exactly when its version is
  the current one (`OrderCache.NoStaleUpdate`), and versions start at 1, so it never cancels
  (`OrderCache.CancelNeverSucceeds`).
- `parseField` accepts `*/9223372036854775807` in a field that starts at 1; the loop variable wraps
  around and leaves two negative values in the set (`Cron.OverflowingField`). Exactly the texts with
  such a part leave the bounds (`Cron.FieldRange`).
- `shardIndex` converts a 32-bit hash with `int(...)`; where `int` has 32 bits the index can be negative
  (`Dispatcher.NarrowIntFails`), exactly for the keys described in `Dispatcher.ShardInRange`.
- Joining a room after having been unregistered leaves a closed channel in the room, and the next
  broadcast panics (`Hub.LateJoinPanics`). A join keeps the invariant exactly when the client is
  registered (`Hub.JoinRoom`), and a broadcast panics exactly when a target's channel is closed.
- `Extend` by less than a millisecond deletes the key: its script passes zero to `PEXPIRE`. A
  successful extend keeps the lease exactly when it is by at least one (`DistLock.ExtendKeepsLease`).
- With repeated members (`now-random`) the limiter admits more than `limit` requests
  (`SlidingWindow.CollisionOverAdmits`); call by call, exactly when the members in the window are fewer
  than `limit` and the admissions are not (`DiffersExactly`).

## Model

| member | source | states |
|---|---|---|
| Retry.Do | pkg/retry/retry.go:40-73 | the loop returns the error and the number of calls of its specification, for every maximum and every behaviour of function and context |
| Retry.DoExact | pkg/retry/retry.go:40-73 | at most max + 1 calls, none after the context ended; success exactly if the last call succeeded; each call is followed by another exactly if its error is worth retrying, it was not the last allowed, and the context goes on |
| Retry.CallsByError | pkg/retry/retry.go:132-156 | a function that keeps failing is called max + 1 times for a network error, HTTP 429, HTTP 500 and above, and unknown errors; once for a cancelled context and any other HTTP status |
| Topics.Registry.RegisterTopic | pkg/broker/topic.go:39-53 | adds a new topic, refuses a known one and leaves the registry alone |
| Topics.RegistryGrows | pkg/broker/topic.go:32-53 | whatever is registered later, no entry is removed or overwritten |
| Topics.ValidKeyStaysValid | pkg/broker/topic.go:86-100 | a key valid when its row was written is valid whenever the row is published |
| Topics.ValidExactly | pkg/broker/topic.go:86-100 | a registered topic takes any key with KeyNone and otherwise every key but the empty one, whatever is registered later; an unregistered one takes none |
| Outbox.WrittenAsGiven | pkg/broker/outbox.go:43-70 | a written row has the topic, key, payload and headers it was given, pending and without retries |
| Outbox.RoundOutcome | pkg/broker/relay.go:93-123 | one round makes at most four calls; it ends in `published` exactly if a call succeeded, and then the broker holds a record; it is rescheduled only with a count below five; it gives up only for bad headers, an invalid key, a fifth error or a permanent broker error |
| Outbox.WaitLength | pkg/broker/relay.go:159-178 | a rescheduled entry waits 2, 4, 8 or 16 seconds after its first, second, third or fourth error; the cap of five minutes is never reached |
| Outbox.CallsAgain | pkg/retry/retry.go:40-73 | within a round a call of Publish is followed by another if and only if its error is retryable for retry.Do, it was not the fourth, and the context neither ended the wait nor was done before the next |
| Outbox.PermanentErrorsRepeat | pkg/broker/relay.go:106-116 | a broker that always refuses a message for good is asked four times before the row is failed |
| Outbox.AppliedExactly | pkg/broker/relay.go:125-187 | a status write changes the status, or the count and the wait, of its row, and nothing else of it or of other rows |
| Outbox.AppendedExactly | pkg/broker/relay.go:106-108 | a round leaves one record for each call that was accepted, or refused although the broker stored it |
| Outbox.ResetFresh | pkg/broker/relay.go:195-212 | RetryFailed leaves failed rows fresh and pending with their message, and every other row as it was |
| Outbox.Database.Query | pkg/broker/relay.go:72-81 | the answer is the eligible pending rows with the lowest ids, in id order, all of them unless the limit is reached |
| Outbox.Database.Update | pkg/broker/relay.go:125-157 | one update by primary key changes that row's status fields only; a failed write changes nothing |
| Outbox.Relay.PublishWithRetry | pkg/broker/relay.go:93-123 | rows, log and verdict after a round, for every outcome of the sends and of the status write; every record appended has the entry's topic, key, payload and headers, each in its own place |
| Outbox.Relay.ScheduleRetry | pkg/broker/relay.go:159-191 | the fifth error fails the row; before, the count goes up by one and the wait is 2^count seconds, at most five minutes |
| Outbox.Relay.Poll | pkg/broker/relay.go:72-91 | a poll handles a prefix of its batch, in order, up to the point where the context ends, and does nothing if the query fails; it leaves in the broker what the rounds of that prefix send |
| Outbox.Relay.RetryFailed | pkg/broker/relay.go:195-212 | exactly the failed rows become fresh pending ones, and their number is returned |
| Transaction.AllOrNothing | pkg/database/transaction.go:39-70 | for every body and fault the database holds all the body staged or is untouched, and success, error and panic say which |
| Transaction.Session.WithTransaction | pkg/database/transaction.go:39-70 | begin, run, commit or roll back: what is committed and returned is as specified, and a failing rollback leaves the transaction open with nothing of it committed |
| Transaction.FailuresLeaveNoTrace | pkg/database/transaction.go:39-70 | any sequence of transactions leaves the database as the bodies of those whose commit took effect would, run alone and without faults |
| Transaction.Price | modules/order/service.go:142-155 | the pricing loop computes the total, and for non-negative quantities the sum of the prices of all single units |
| Transaction.TotalOne | modules/order/service.go:155 | one item costs its unit price times its quantity |
| Transaction.TotalAppend | modules/order/service.go:142-155 | the total of two lists of items is the sum of their totals |
| Transaction.TotalOfAnyOrder | modules/order/service.go:142-155 | the total does not depend on the order of the items |
| Transaction.TotalOfUnits | modules/order/service.go:142-155 | priced by the item or by the single unit, an order costs the same |
| Transaction.OrderService.Create | modules/order/service.go:139-195 | orders, rows and outcome are those of one transaction, for a fault or panic at every step; an order that was created has the given fields, costs the sum over its single units, and has exactly one new pending row with its id as key and itself as payload |
| OutboxSafety.NothingOfARollback | modules/order/service.go:169-195 | a creation leaves the tables as they were, or adds the order and one pending row with its topic, key and payload; a failed one does so only if the reply to the commit was lost, a successful one always |
| OutboxSafety.WritesExactly | pkg/broker/outbox.go:43-70 | a write with a valid key adds exactly the row it was given, fresh and pending; one with an invalid key changes nothing |
| OutboxSafety.StepPreserves | pkg/broker/outbox.go:43-70 | no step removes a row or changes its topic, key, payload or headers; log, registry and counts only grow |
| OutboxSafety.StepRowsInv | modules/order/service.go:169-195 | every step of every actor keeps order table and outbox consistent |
| OutboxSafety.OrderAndEventTogether | modules/order/service.go:169-195 | in every reachable state an order is committed exactly when it has a created-event row, that row is the only one, and it carries the order as committed, with its id as the key |
| OutboxSafety.StepRelayInv | pkg/broker/relay.go:93-191 | every step keeps: held entries agree with their rows, owed status writes are justified, retry counts never exceed the errors seen |
| OutboxSafety.StatusHasACause | pkg/broker/relay.go:93-191 | in every reachable state, for any number of relays and resets: published only if some publish succeeded; failed only if the row ever met a permanent broker error or five errors; pending only with fewer than five rounds counted; headers decode and the key is valid |
| OutboxSafety.BrokerMatchesRows | pkg/broker/relay.go:93-138 | in every reachable state each record in the broker has the topic, key, payload and headers of a committed row, each in its own place, and every published row has such a record |
| OutboxSafety.BrokerTellsOrders | pkg/broker/relay.go:106-108 | whatever the broker holds under the created-order topic is a committed order as it was committed, with its id as the key |
| OutboxSafety.HistoriesAreTrue | pkg/broker/relay.go:93-123 | step by step the counted histories say what happened: acknowledged for a successful call, one more error for a round without one, permanent for a call refused for good, as many records as a round left |
| OutboxPublished.LeftExactly | pkg/broker/relay.go:125-157 | a step takes a row out of `published` if and only if it is a relay writing `failed` over that row; RetryFailed never does |
| OutboxPublished.PublishedForEver | pkg/broker/relay.go:125-157 | on every run in which no entry is in two hands at once, with any fault or crash and however polls overlap, `published` is never left |
| OutboxPublished.SingleRelay | pkg/broker/relay.go:50-91 | a single relay holds nothing while it queries, so no entry is in two hands and it never takes a row out of `published` |
| OutboxPublished.OverlapLosesPublished | pkg/broker/relay.go:125-157 | a run of two relays in which a published row becomes failed |
| OutboxResets.SinceCounts | pkg/broker/relay.go:93-212 | what is counted since the last reset is the number of rounds, of rounds without a successful call and of lost status writes since then |
| OutboxResets.ResetExactly | pkg/broker/relay.go:195-212 | RetryFailed keeps retry counts, verdicts in hand and causes justified by what happened since the reset if and only if every relay leaves the reset row alone |
| OutboxResets.StepCause | pkg/broker/relay.go:93-212 | every step of any number of relays, safe resets included, keeps: since its last reset a row has counted at most its errors and is failed only with a cause |
| OutboxResets.FailedSinceReset | pkg/broker/relay.go:93-212 | for any number of relays whose resets are safe, a failed row has met a permanent broker error or five errors since its last reset |
| OutboxResets.RoundsSinceReset | pkg/broker/relay.go:72-212 | on every run in which no entry is in two hands at once, with crashes, cancelled contexts, lost writes and resets at any step: since its last reset a row has had at most five rounds and twenty calls of Publish plus one round per lost write, is failed only with a cause from since then, and with nothing lost or owed its retry count is the number of its rounds |
| OutboxResets.VerdictOutlivesReset | pkg/broker/relay.go:140-157 | whenever a relay owes `failed` to a row that is already failed, a reset followed by its write fails the row without any round since |
| OutboxResets.OverlapCarriesVerdict | pkg/broker/relay.go:195-212 | a run of two relays in which that happens |
| OutboxCarryOver.UnsafeResetFails | pkg/broker/relay.go:159-212 | from every reached state with a failed row that some relay does not leave alone, a reset lets the run go on until the row is failed again without a permanent broker error or five errors since |
| OutboxCarryOver.SafeResetExactly | pkg/broker/relay.go:159-212 | after safe resets, some relay does not leave a failed row alone if and only if the run can go on, with a reset and no other, to a state in which the row is failed without a cause since |
| RelayProgress.EntryRow | pkg/broker/relay.go:83-88 | after a batch each row with an entry is changed by that entry's own round, whatever the others did |
| RelayProgress.TallyCounts | pkg/broker/relay.go:83-123 | a tally counts the polls that handled the entry, those whose status write was lost and those whose round ended in an error |
| RelayProgress.RunTallySplits | pkg/broker/relay.go:83-123 | the tally of several entries is the sum of theirs |
| RelayProgress.CreditIsSpent | pkg/broker/relay.go:159-191 | over any run, polls cut short by the context or a dying relay included, and any interval of ids: rounds taken plus credit (5 - retry_count of the pending rows) left never exceed the credit at the start plus the lost status writes, with at most four calls a round |
| RelayProgress.RoundsBound | pkg/broker/relay.go:93-123 | an entry gets at most five rounds and twenty calls of Publish until it is reset, plus one round for every lost write of its own, however its polls were cut short |
| RelayProgress.Settled | pkg/broker/relay.go:72-81 | a published or failed entry is never handled again and never changes |
| RelayProgress.FailedAfterFive | pkg/broker/relay.go:110-120 | an entry that starts fresh fails only after a round it could not survive (undecodable headers, an invalid key or a permanent error; OutboxResets.RoundsSinceReset rules out the first two) or five rounds ending in errors; while it is pending and no write is lost its retry count is the number of its rounds |
| RelayProgress.NoStarvation | pkg/broker/relay.go:72-91 | before an eligible entry is handled there are at most (credit below it + lost writes below it) / batch size whole polls, whatever is added above it and however many polls are cut short |
| RelayProgress.FirstRoundsInIdOrder | pkg/broker/relay.go:74-78 | an entry is not handled before an eligible one with a lower id has had a round, even while earlier ones wait for a retry or writes are lost |
| RelayProgress.WideApartIsDue | pkg/broker/relay.go:167-178 | polls that come 16 seconds after the status writes before them find no row resting, so while an entry is pending every whole poll finds it eligible |
| RelayProgress.Drains | pkg/broker/relay.go:72-91 | for any clock, cut-short polls and lost writes: an entry is published or failed once the whole polls that found it eligible are more than four, plus the writes lost on it, plus the batches that the credit and lost writes below it fill |
| RelayProgress.RestingBound | pkg/broker/relay.go:159-178 | with polls at least a gap apart, each round of an entry makes it rest for at most 16 seconds' worth of polls and one more |
| RelayProgress.DrainsInTime | pkg/broker/relay.go:50-91 | with polls at least a gap apart, an entry is published or failed once the whole polls exceed its rounds (four plus lost writes), the rests between them and the batches below it; 4 rounds and 68 rests at the default gap of a second |
| OutboxPolls.PollIsSteps | pkg/broker/relay.go:72-91 | a poll that handles k entries, whatever fails, is a sequence of enabled steps of the whole-run model and ends with the rows and the broker that the poll method leaves |
| OutboxPolls.ReachableIsSound | pkg/broker/relay.go:159-166 | in every reachable state every pending row has a retry count below five |
| OutboxPolls.PollStaysReachable | pkg/broker/relay.go:72-91 | after any poll in a reachable state the state is reachable again, so everything proved of runs holds |
| SlidingWindow.RedisKey.Run | pkg/middleware/ratelimit_redis.go:17-39 | the script changes the sorted set and its deadline as specified and replies accordingly, for every window and limit |
| SlidingWindow.RedisKey.FirstScore | pkg/middleware/ratelimit_redis.go:32-36 | ZRANGE 0 0 yields the lowest score of the set |
| SlidingWindow.RedisKey.Handle | pkg/middleware/ratelimit_redis.go:44-84 | the request is forwarded exactly when the script admits it or the call fails; a call whose reply is lost has recorded the request, one that was not made has not |
| SlidingWindow.PurgedIsWindow | pkg/middleware/ratelimit_redis.go:23-25 | after the purge the set holds exactly the members the never purged history has in the window |
| SlidingWindow.ExactOnMembers | pkg/middleware/ratelimit_redis.go:17-39 | on every run a call is admitted if and only if fewer than `limit` distinct members were admitted in (now - window, now], and `remaining` is what is left |
| SlidingWindow.Exact | pkg/middleware/ratelimit_redis.go:17-39 | with distinct members the same for requests, judged on the full history |
| SlidingWindow.DiffersExactly | pkg/middleware/ratelimit_redis.go:25-28 | call by call, without distinct members: the decision differs from the full history's if and only if the members in the window are fewer than `limit` and the admissions are not; nothing is denied that the history admits |
| SlidingWindow.MemberBound | pkg/middleware/ratelimit_redis.go:17-39 | on every run, repeated members or not, no interval of length `window` holds admissions of more than `limit` distinct members |
| SlidingWindow.RateBound | pkg/middleware/ratelimit_redis.go:17-39 | with distinct members, no interval of length `window`, wherever it ends, holds more than `limit` admissions |
| SlidingWindow.ExpiryIsInvisible | pkg/middleware/ratelimit_redis.go:27-30 | whenever Redis drops the expired key, or if it never does, the same requests are admitted |
| SlidingWindow.DeniedReset | pkg/middleware/ratelimit_redis.go:31-37 | on every run a denied call has admissions of exactly `limit` distinct members in its window, and `reset` is one window after the oldest |
| SlidingWindow.DeniedUntilReset | pkg/middleware/ratelimit_redis.go:31-37 | on every run, repeated members or not, every later call before `reset` is denied |
| SlidingWindow.AdmittedAtReset | pkg/middleware/ratelimit_redis.go:31-37 | on every run, repeated members or not, the first call at or after `reset` is admitted |
| SlidingWindow.CollisionOverAdmits | pkg/middleware/ratelimit_redis.go:28 | with a repeated member three requests pass a limit of two |
| DistLock.Redis.SetNX | pkg/distlock/distlock.go:156-163 | sets the key only if it is not live |
| DistLock.Redis.ReleaseScript | pkg/distlock/distlock.go:171-178 | deletes the key only for its owner |
| DistLock.Redis.ExtendScript | pkg/distlock/distlock.go:205-212 | re-expires the key only for its owner; a duration that is not positive deletes it |
| DistLock.Acquire | pkg/distlock/distlock.go:113-154 | success is one atomic SET NX after whatever the others did, for the configured time or 30 s; any other end leaves the store to the others, except that an attempt whose reply was lost may have set the key; a free key is taken at once; otherwise the first wake that is not an answered tick up to the deadline with the key taken decides: the key free, the deadline passed, the call failed or the context ended |
| DistLock.AwaitLock | pkg/distlock/distlock.go:137-153 | the retry loop goes on through every tick up to the deadline that finds the key taken, and ends with the answer of the next wake |
| DistLock.FirstFreeTick | pkg/distlock/distlock.go:137-153 | the first tick up to the deadline that finds the key free gets it, with exactly the others' commands up to then in between; a cancelled context or a failing call in its place ends the loop with that error |
| DistLock.ReleaseLock | pkg/distlock/distlock.go:187-198 | once the script has run the handle does not own the key, whoever owns it, reply or not; a call that was not made changes nothing |
| DistLock.ExtendLock | pkg/distlock/distlock.go:224-234 | reports success exactly to the owner when the reply arrives; the script may have run although it did not |
| DistLock.LeaseExact | pkg/distlock/distlock.go:113-234 | under any interleaving the store names a token as owner exactly while the lease computed from that token's own commands lasts, and until the same instant |
| DistLock.MutualExclusion | pkg/distlock/distlock.go:113-163 | at most one token has a lease on a key |
| DistLock.AcquireExact | pkg/distlock/distlock.go:156-163 | an acquire succeeds if and only if nobody's lease is running |
| DistLock.StaleHandle | pkg/distlock/distlock.go:171-234 | Release and Extend succeed exactly for a handle with a lease; a stale one leaves the store unchanged |
| DistLock.ExtendKeepsLease | pkg/distlock/distlock.go:205-234 | an extend that reports success leaves its token the lease and the key if and only if it was by at least a millisecond |
| DistLock.LeaseRuns | pkg/distlock/distlock.go:113-163 | a token that neither releases nor extends keeps its lease for exactly the granted time, whatever others do |
| Scheduler.Pod.Register | pkg/scheduler/scheduler.go:71-86 | appends the job, with a timeout of five minutes if it has none |
| Scheduler.Pod.Execute | pkg/scheduler/scheduler.go:127-179 | the function runs exactly if the lock was free and the grant arrived; a lost grant may leave the lock set for a run that did not happen; after a return, an error or a panic the released lock is not the pod's any more |
| Scheduler.Exclusion | pkg/scheduler/scheduler.go:127-179 | for any number of pods, two functions of one job run at once only if one of them started more than its timeout plus 30 000 ms ago |
| Scheduler.TriggerSkipped | pkg/scheduler/scheduler.go:144-150 | until its timeout plus 30 000 ms after the grant, a running function makes every other trigger of the job change nothing |
| Scheduler.LockHeld | pkg/scheduler/scheduler.go:142-146 | until then the running function's token owns the lock named after the job |
| Scheduler.OverrunOverlaps | pkg/scheduler/scheduler.go:127-179 | the margin is exact: a function that runs for its timeout plus 30 001 ms can be joined by another, for every job |
| Scheduler.FinishedReleases | pkg/scheduler/scheduler.go:155-179 | however the function ended, after a successful release its token does not own the key, and the key is free if it ended within its timeout plus 30 000 ms |
| Scheduler.LockKeyInjective | pkg/scheduler/scheduler.go:143 | two jobs share a lock exactly when they share a name |
| Dispatcher.ShardInRange | pkg/broker/dispatcher.go:52-60 | the index is in range for every key with a 64-bit int, and with a 32-bit one exactly for the keys named by a condition on their hash |
| Dispatcher.ShardIsResidue | pkg/broker/dispatcher.go:52-60 | the index differs from the hash by a multiple of the worker count; the empty key goes to the first worker |
| Dispatcher.FnvVector | pkg/broker/dispatcher.go:57-59 | a test vector of 32-bit FNV-1a |
| Dispatcher.NarrowIntFails | pkg/broker/dispatcher.go:52-60 | a key with a negative index where int has 32 bits |
| Dispatcher.StepInv | pkg/broker/dispatcher.go:39-92 | every step of dispatcher and workers keeps: sent to a worker = handled by it, in hand, queued, in order |
| Dispatcher.PerKeyOrder | pkg/broker/dispatcher.go:39-60 | for every key: dispatched = handled, then in hand, then queued at its one worker |
| Dispatcher.KeyOrder | pkg/broker/dispatcher.go:39-68 | on every run the handled messages of a key are a prefix of the dispatched ones, and all of them when the workers have exited |
| Dispatcher.Conservation | pkg/broker/dispatcher.go:39-92 | on every run the dispatched messages are exactly those handled, in hand or queued; after shutdown each was handled once, errors and panics included |
| Dispatcher.Pool.DispatchMessage | pkg/broker/dispatcher.go:39-42 | appends to the queue of the key's worker only |
| Dispatcher.Pool.TakeNext | pkg/broker/dispatcher.go:62-68 | a worker receives the first message of its channel |
| Dispatcher.Pool.FinishCurrent | pkg/broker/dispatcher.go:70-92 | its handler ends by return, error or panic, and the worker goes on |
| Dispatcher.Pool.Shutdown | pkg/broker/dispatcher.go:45-50 | at any moment, handlers at work included, returns with nothing in hand or queued and, for every key, the handled messages equal to the dispatched ones |
| Batcher.Buffer.AddMessage | pkg/broker/batcher.go:41-54 | buffers or flushes, nothing after a stop, and hands over exactly the flushed batch |
| Batcher.Buffer.FlushLocked | pkg/broker/batcher.go:99-105 | hands over the whole buffer and leaves it empty |
| Batcher.Buffer.OnTimer | pkg/broker/batcher.go:84-97 | flushes a non-empty buffer unless stopped |
| Batcher.Buffer.Stop | pkg/broker/batcher.go:66-82 | flushes the rest once and stops |
| Batcher.StepInv | pkg/broker/batcher.go:41-105 | every operation keeps: batches then buffer = accepted messages in order, batch sizes within bounds |
| Batcher.FlushesExactly | pkg/broker/batcher.go:41-105 | a timer or a shutdown empties the buffer in one batch; an add flushes exactly the full buffer |
| Batcher.RunAccepts | pkg/broker/batcher.go:41-82 | what is accepted is exactly what was added before the first shutdown |
| Batcher.Conserves | pkg/broker/batcher.go:41-105 | for any sequence of adds, timer flushes and shutdowns: batches in flush order then the buffer are the messages added before the shutdown, batches hold 1 to max(Size, 1), shutdown leaves nothing |
| Batcher.KeyOrderInBatches | pkg/broker/batcher.go:58-63 | behind the dispatcher, the messages of a key read off the batches are a prefix of those dispatched, in whatever order the two stop |
| Idempotency.KeyInjective | pkg/broker/broker.go:24-26 | two messages have the same key if and only if they have the same topic, partition and offset, slashes in topics included |
| Idempotency.KeyText | pkg/broker/broker.go:24-26 | a printed key |
| Idempotency.ProcessedEvents.InsertAll | pkg/broker/idempotency.go:78-82 | INSERT ... ON CONFLICT DO NOTHING of a batch adds exactly the first copy of each unseen key |
| Idempotency.ProcessedEvents.Handle | pkg/broker/idempotency.go:30-55 | table and outcome after one delivery, whether the insert was answered, not made, or made without an answer |
| Idempotency.ProcessedEvents.HandleBatch | pkg/broker/idempotency.go:60-140 | table after a batch, and the messages handed on: none on an error, lost reply included, else those with unseen keys in order |
| Idempotency.InsertedExactly | pkg/broker/idempotency.go:116-121 | the inserted keys of a batch are exactly its keys that were not recorded before |
| Idempotency.AllAdded | pkg/broker/idempotency.go:84-87 | the count of added rows equals the batch exactly when all keys are new and distinct |
| Idempotency.HandledExactlyFirst | pkg/broker/idempotency.go:30-55 | over any redelivery sequence the handler runs for a delivery exactly when its insert is answered and none of the same position took effect before |
| Idempotency.HandledAtMostOnce | pkg/broker/idempotency.go:30-55 | a position is handled at most once, lost replies included, and it is handled exactly if the answer to its first insert that took effect arrived |
| Idempotency.PassedExactly | pkg/broker/idempotency.go:60-140 | a delivery hands on all its unseen messages in order if and only if it gets through (insert answered, and second query fine or not needed) or has none; a message is handed on exactly if the delivery gets through and no earlier one took effect for its position |
| Idempotency.NeverPassedTwice | pkg/broker/idempotency.go:60-140 | no position is handed on by two deliveries |
| Idempotency.LostExactly | pkg/broker/idempotency.go:78-99 | a message is never handed on by any delivery of the run if and only if the first delivery of its position that took effect did not get through |
| Idempotency.RequeryFailureLoses | pkg/broker/idempotency.go:96-99 | a run in which a failing second query keeps a message from ever being handled |
| OrderCache.Service.GetByID | modules/order/service.go:90-121 | a live cached copy wins; otherwise the visible row, stored for the TTL if the cache answers |
| OrderCache.Service.UpdateStatus | modules/order/repository_gorm.go:134-150 | changes the row and raises its version exactly when the version matches and the row is not deleted |
| OrderCache.Service.SoftDelete | modules/order/repository_gorm.go:152-157 | marks the row deleted and changes nothing else of it or of other rows |
| OrderCache.Service.Cancel | modules/order/service.go:235-281 | never changes an order, and says why |
| OrderCache.StepFresh | modules/order/service.go:90-121 | every step keeps: cached, read and returned values were held by the database within their bounds |
| OrderCache.BoundedStaleness | modules/order/service.go:90-121 | under any interleaving, even when every delete of the cached copy fails, a returned value was the database's at some instant no older than the TTL plus the longest read-to-set gap |
| OrderCache.StalenessTight | modules/order/service.go:90-121 | the bound is met exactly: for every gap some run, in which every delete of the cached copy works, returns a value last held one TTL and one gap before |
| OrderCache.VersionsGrow | modules/order/repository_gorm.go:134-150 | of two successful updates the later has the larger version, so each version is produced at most once |
| OrderCache.NoStaleUpdate | modules/order/repository_gorm.go:134-150 | an update from a value that was returned, however old, succeeds if and only if that value is still current |
| OrderCache.CancelNeverSucceeds | modules/order/service.go:248 | in every reachable state an update with version 0 fails |
| OrderCache.RemovedForGood | modules/order/repository_gorm.go:152-157 | on every run a removed order is never read from the database again, no update of it succeeds and creating it again changes nothing |
| OrderCache.DeletedUntilStored | modules/order/service.go:273-278 | a deleted copy is not read again before some reader stores a new one |
| TagIndex.Client.SetWithTags | pkg/cache/invalidation.go:46-63 | the key is set and listed under the tags whose SADD was run, all of them unless the pipeline fails part of the way; a lost reply to SET sets it without tags |
| TagIndex.Client.InvalidateByTag | pkg/cache/invalidation.go:87-115 | removes the tag's keys and list, also when the reply to DEL is lost, and returns how many keys were live |
| TagIndex.Client.InvalidateByTags | pkg/cache/invalidation.go:118-128 | handles the tags up to the first failing call, which may have taken effect, and adds up the counts |
| TagIndex.StepSound | pkg/cache/invalidation.go:46-128 | every operation keeps: a live key is listed under each tag of its latest tagged write |
| TagIndex.InvalidationComplete | pkg/cache/invalidation.go:87-115 | over every run of undisturbed operations no key survives whose latest tagged write carried the tag, and keys not listed stay as they were |
| TagIndex.InvalidateAllEffect | pkg/cache/invalidation.go:118-128 | the total is the number of distinct live keys under any of the tags, and exactly those are gone |
| TagIndex.OrderIrrelevant | pkg/cache/invalidation.go:118-128 | count, keys and lists do not depend on the order or repetition of tags |
| TagIndex.PublishRoundTrip | pkg/cache/invalidation.go:199-240 | a published list of tags arrives as the same list if and only if every tag is non-empty, trimmed and free of commas |
| TagIndex.SubscriberAgrees | pkg/cache/invalidation.go:212-243 | a subscriber ends with the same cache and count as a direct call |
| TagIndex.WriteBetweenEscapes | pkg/cache/invalidation.go:87-115 | on any database, a write between reading the list and deleting survives if and only if its key was not among the members read, and is then still listed if and only if there were none |
| TagIndex.EscapesExactly | pkg/cache/invalidation.go:87-115 | on every run in which invalidations are two commands and anything happens in between: a key whose latest tagged write carries the tag survives if and only if it was not read, and if anything was deleted the next invalidation misses it |
| TagIndex.DeleteKeepsIndex | pkg/cache/invalidation.go:96-104 | the second command keeps live keys listed if and only if the members read are up to date or there were none |
| TagIndex.CountExactly | pkg/cache/invalidation.go:96-114 | the count is that of the live members deleted if and only if the tag set was still there, and otherwise one too low |
| TagIndex.SecondCountNegative | pkg/cache/invalidation.go:87-115 | on every database, the second of two instances that read the same members returns -1 |
| TagIndex.OverlappingInvalidationComplete | pkg/cache/invalidation.go:87-115 | with up-to-date members an overlapping invalidation is as complete as an undisturbed one |
| Hub.Hub.Register | pkg/ws/hub.go:157-166 | the client is indexed under its id; both invariants are kept if the id is free and the channel open |
| Hub.Hub.Unregister | pkg/ws/hub.go:167-182 | a known id is removed with all its rooms' memberships and its channel closed once more; a second close would panic, which the invariant excludes |
| Hub.RemovedAllMembers | pkg/ws/hub.go:172-180 | leaving some rooms removes the client from exactly those, every other membership stays, no emptied room stays |
| Hub.Hub.JoinRoom | pkg/ws/hub.go:119-127 | adds the member; the invariant that members are registered survives exactly if the client is registered |
| Hub.Hub.LeaveRoom | pkg/ws/hub.go:130-140 | removes the member, and the room with its last one |
| Hub.Hub.SendAll | pkg/ws/hub.go:52-62 | panics exactly if a target's channel is closed, otherwise every target with room gets the message once |
| Hub.Hub.Broadcast | pkg/ws/hub.go:48-63 | exactly the registered clients with room get the message; it cannot panic under the invariant |
| Hub.Hub.BroadcastToRoom | pkg/ws/hub.go:66-83 | exactly the members with room get it |
| Hub.Hub.BroadcastToRoomExcept | pkg/ws/hub.go:86-106 | exactly the members with another id and with room get it |
| Hub.Serve | pkg/ws/hub.go:48-182 | over any sequence of events that keep the rules: no stored room is empty, members list their room and are registered with an open channel, no broadcast hits a closed channel, no channel is closed twice |
| Hub.LateJoinPanics | pkg/ws/hub.go:119-127 | for every client and room, a join after unregistering makes the next broadcast panic |
| Cron.StepLoop | pkg/cron/cron.go:251-261 | the step loop adds every step-th value from min on, on 64-bit integers, wrap-around included |
| Cron.ParseField | pkg/cron/cron.go:237-297 | the loops compute the union over all parts or the first error |
| Cron.FieldRange | pkg/cron/cron.go:237-297 | an accepted text denotes a value in bounds, so the empty-field error is unreachable; nothing out of bounds exactly when no part steps by the largest 64-bit integer in a field starting at 1 |
| Cron.OverflowingField | pkg/cron/cron.go:251-261 | an accepted text with two stray negative values |
| Cron.CommaIsUnion | pkg/cron/cron.go:240-296 | for all texts a comma denotes union, or the first error |
| Cron.PrintParse | pkg/cron/cron.go:237-297 | printing any values of a field as comma-separated decimals and parsing gives exactly their set |
| Cron.StarField | pkg/cron/cron.go:244-249 | a star is every value of the field |
| Cron.RangeField | pkg/cron/cron.go:263-280 | a range is every value between its ends if they lie in order within the bounds, and an error otherwise |
| Cron.StepField | pkg/cron/cron.go:251-261 | a step is every step-th value from the lower bound on, unless the loop overflows; a step below one is an error |
| Cron.ValueField | pkg/cron/cron.go:282-289 | a number is itself within the bounds, and an error outside |
| CronSchedule.ParseFields | pkg/cron/cron.go:168-208 | five fields with their bounds, or the error of the first bad one |
| CronSchedule.PrintParse | pkg/cron/cron.go:168-208 | a whole expression printed field by field and parsed comes back |
| CronSchedule.Shortcuts | pkg/cron/cron.go:210-218 | @hourly, @daily and @weekly fire at every full hour, at midnight of every day and at midnight of every Sunday |
| CronSchedule.EveryShortcut | pkg/cron/cron.go:219-231 | @every takes durations of at least a minute and says why it refuses others |
| CronSchedule.OtherShortcuts | pkg/cron/cron.go:232 | every other shortcut is refused |
| CronSchedule.TimeFields | pkg/cron/cron.go:168-208 | hour and minute fields of an accepted expression are non-empty and in bounds |
| CronSchedule.FiringCount | pkg/cron/cron.go:132-138 | every accepted expression fires on a day at as many minutes as it has pairs of hour and minute, or never |
| CronSchedule.IntervalSchedule.Matches | pkg/cron/cron.go:146-159 | the first tick sets the start and fires; later ones fire on multiples of the whole minutes |
| CronSchedule.EveryFires | pkg/cron/cron.go:146-159 | over exact one-minute ticks an accepted interval fires at exactly the multiples of its whole minutes |
| Base64.DecodeEncode | pkg/types/filter.go:94-116 | each of the four encodings is inverted by its own decoder |
| Base64.DecodeExactly | pkg/types/filter.go:94-116 | for every text: an encoding decodes it to some bytes if and only if, line breaks aside, it is text of that alphabet and padding whose positions stand for them, six bits to a character and eight to a byte |
| Base64.EncodeMeans | pkg/types/filter.go:85-91 | what is encoded means the bytes that went in, with zero bits left over |
| Base64.GroupsAgree | pkg/types/filter.go:94-116 | on every text any two decoders that accept it agree |
| Base64.ChainUnambiguous | pkg/types/filter.go:94-116 | the chain gives what any accepting decoder gives and fails only when all four do |
| Base64.ChainExactly | pkg/types/filter.go:94-116 | the chain decodes a text to some bytes if and only if they are what it means in one of the four encodings |
| Base64.EmptyFilterText | pkg/types/filter.go:94-116 | "e30=" decodes to the two bytes of an empty JSON object |
| Base64.StripExactly | pkg/types/filter.go:94-116 | decoding skips the line breaks and nothing else |
| Base64.RoundTrip | pkg/types/filter.go:56-60 | every byte string in any of the four encodings, with any quotes around it, comes back unchanged |
| Base64.TrimExactly | pkg/types/filter.go:57 | quotes are trimmed from both ends, all of them and nothing else |
| Base64.FiltersRoundTrip | pkg/types/filter.go:85-91 | parsing what EncodeFilters wrote, quoted or not, gives the filters back |
| Base64.ParsesEveryEncoding | pkg/types/filter.go:49-71 | filters in any of the four encodings, in any number of quotes, are parsed to what their bytes say, or refused for their JSON |
| Base64.RejectsExactly | pkg/types/filter.go:49-71 | a text is rejected exactly when no decoder accepts it or its bytes are not JSON |
| Strings.JoinSplit | pkg/cron/cron.go:240 | splitting at a character cuts at each of them and drops nothing else |
| Strings.TrimExactly | pkg/cron/cron.go:242 | trimming takes white space from both ends and nothing else |
| Strings.FieldsSkip | pkg/cron/cron.go:175 | white space before a field is skipped, however much there is |
| Strings.AtoiOfText | pkg/cron/cron.go:253 | a sign or none, any zeros and the digits of a number are read as that number if it fits into 64 bits, and refused otherwise |
| Strings.DigitsExactly | pkg/broker/broker.go:24-26 | the printed number ends in the digit of its remainder by ten after the digits of its quotient, without leading zeros |

## Left out

Assumptions and external systems:

- Postgres and GORM, Redis, Kafka, gin, UUID and JSON are contracts: atomic statements and scripts, insert on conflict, fresh tokens, encode and decode that invert each other.
- One clock serves the limiter script's `now` and Redis expiry, and it does not run backwards.
- Redis drops a key once its expiry lies in the past, so a lock or a cached copy still exists in the millisecond of its expiry.
- Where Redis seeds the random numbers of a script anew on every execution, the limiter's random suffix is always the same, and distinct members means requests in distinct milliseconds.
- Writers of events other than orders do not use the created-order topic.
- Outbox ids are unique and never reused; rows of one table are visible as soon as they are committed.
- For batch deduplication, a row has an id after the insert exactly when it was inserted, as `pkg/broker/idempotency.go:114-121` relies on.
- Columns and outputs that no decision reads: `last_error`, `published_at`, HTTP headers, logs and metrics.

Contracts that state less than one might wish:

- SlidingWindow.Exact: needs distinct members, like RateBound, because both count requests; ExactOnMembers, MemberBound and DiffersExactly hold without, and CollisionOverAdmits shows why.
- OutboxPublished.PublishedForEver: assumes that no entry is in two hands at once, because otherwise it is false.
- OutboxSafety.StatusHasACause: counts errors over the whole life of a row, because for overlapping relays and arbitrary resets more is false (OutboxResets.OverlapCarriesVerdict); since the last reset it is OutboxResets.FailedSinceReset and RoundsSinceReset.
- RelayProgress.Drains: a poll that is cut short, or finds the entry waiting, does not count towards its bound; DrainsInTime bounds the second kind.
- RelayProgress.DrainsInTime: the gap between polls is an assumption; after a poll that outlasts the interval the next tick comes at once, and such polls come closer together.
- Idempotency.HandledExactlyFirst: a handler that fails is not called again for the position, as in the code; cleanup of old keys is not part of the runs.
- TagIndex.InvalidationComplete: operations complete one after the other (EscapesExactly and OverlappingInvalidationComplete do without), tagging succeeds, and keys lie outside the `tag:` namespace.
- Dispatcher.Pool.Shutdown: runs the workers' steps one at a time; any interleaving of them is covered by KeyOrder and Conservation.
- Transaction.AllOrNothing: a commit that took effect although the caller saw an error is a third outcome besides success and failure.

Behaviour outside the model:

- Per-key order across relay retries and exactly-once delivery end to end: the code promises neither.
- Delays and jitter of the inner retry loop, `DoWithResult`, `AggressiveConfig` and `CalculateDelay`.
- `Consumer.Close`, offset commits and consumer groups.
- The batch handler runs outside the batcher's lock, so only the order of flushes is stated, not the order in which handlers finish.
- `Hub.SendTo`, message handlers, the read and write pumps of a connection, and the hub's own shutdown.
- `InvalidateByPattern`, JSON helpers, and TTLs of cached entries other than as an explicit delete.
- `List`, `Count` and the background notifications of the order service; line items are reduced to their sum and number.
- The scheduler without a Redis client, negative timeouts, and the cron scheduler's own ticker and job goroutines.
- The day-of-month and day-of-week alternative of POSIX crontab: the code requires both.
- Reflection helpers in `pkg/types/filter.go`, authentication, HTTP clients, configuration, command line, images, S3, tracing and deployment.
