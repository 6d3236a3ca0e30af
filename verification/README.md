# Verification of the platform's reliability, token, price and user code

A Dafny model of five parts of the repository, with the properties they exist for proved over every
input, every run or every reachable state. `dafny verify dfyconfig.toml` checks everything.

## What is modelled

**Transactional outbox.** `DatabaseContext` is the command transaction: domain writes and event rows
take effect together. `OutboxRepository` is the table with its statements, `OutboxProcessor` one
processor instance as imperative code, `WakeUp` its trigger flags as a single-threaded machine whose
steps run from await to await. `OutboxProtocol` is all instances together: any number of them, one
statement or queue.add per step, in any order, with crashes, stalls, late marks and lost replies.
Two kinds of theorem are kept apart. Those of `OutboxProtocol`, `OutboxProgress` and
`CommandDelivery` hold of *all runs*. Those of `OutboxLease` and `OutboxPotential` hold of
*lease-respecting runs*: a mark lands no later than the lease it was claimed under, or never, and a
committed mark is answered. Both halves of that assumption are shown to be needed.

**Idempotency.** `DurableStrategy` (a Postgres row with a Redis cache in front) and `RedisStrategy`
(SET NX) are state machines in which requests interleave at every await with crashes, the
five-minute sweep and the daily delete. Both are proved to implement one abstract register
(`IdempotencyRegister`). `IdempotencyServices` holds the two `handle` methods as imperative code, for
one request that nobody disturbs, and `UndisturbedRequests` proves that the state machines, run for one
request alone, do the same. Assumed: statements and Redis calls do not fail (a failing mark would fall
into the error path and delete the record), responses are not null, a claimant has settled or deleted its
row by its expiry (durable) or within 300 s (Redis), and the cache is written before the record expires.
`IdempotencyDeadlines` drops the deadline assumption and says exactly which steps then do harm.
`IdempotencyErrors` follows an error from the handler through the record and the replay to what the API
tells the client.

**Action tokens.** The aggregate, the table with its version-guarded update, the four services, and
the interleaved protocol. Instants are nanoseconds there, because the finders truncate to milliseconds.

**Price timeline.** The BEFORE INSERT trigger with the CHECK, exclusion and unique constraints around
it, as one statement that either goes through or changes nothing, and the function from time to price
that the table is.

**User and UserSecurity.** Both as classes with in-place updates, each method tied to one
specification function. `UserCommands` says what that function does, column by column and event by
event; `UserHistory` is about its runs.

Conventions: one non-decreasing clock for database, Redis and processes; each SQL statement and each
Redis or queue call is one atomic step; hashes, ids and payloads are opaque and compared for equality;
ids drawn by the database are new. Reads see what was last committed: they go to the same server as
writes for as long as there is no replica (libs/database/src/database.provider.ts:49); behind a lagging
one the 409 and 500 answers of the refinement would not hold. Analytics is a second pool on the same
database. What a service reads from a clock or a random source is a parameter. Where a member's contract
says "whole new state", it equates the state after the call with a function of the state before.

## Findings

Places where the code does less than its names and comments suggest; each is a lemma.

- `markPublished` and `markFailed` select by id alone, so a mark after the lease can take the row from its
  next holder (`LateMarkBreaksExclusivity`); `ExclusivityKeptIff` says exactly which marks are harmless.
  A markPublished that commits but whose reply is lost is followed by markFailed, which makes a published
  event pending again (`LostReplyRevivesPublished`); without a lost reply or a late mark published and
  dead-lettered rows are final (`PublishedIsFinal`), and `FinalRowLeavesIff` is the exact step condition.
- Routes of one event that share a queue share a job id, so only the first of them gets a job
  (`PublishedPerRouteIffDistinctQueues`, with the run in `SharedQueueLosesRoute`). The route table as
  shipped has a single route.
- A recorded error is replayed as an infrastructure exception, which the API answers with 500 and a generic
  message. The claimant of a 4xx and its retries are therefore told different things
  (`ReplayedStatusIff`, `BadRequestReplayedAs500`).
- Neither strategy guards its delete, nor the Redis one its mark, by claimant. One that outlives its deadline
  can take the key from its successor, and a third handler may run beside that one (`DeadlineNeeded`,
  `RedisDeadlineNeeded`; the exact conditions are `KeptIff` and `RedisKeptIff`).
- The Redis key joins scope and header with a colon (libs/core/src/reliability/idempotency/strategies/durable.strategy.ts:146).
  Two scopes can therefore share keys exactly if one of them begins with the other and a colon
  (`RedisKeysMeetIff`). The model keys Redis by the pair, like the table; that is exact for all other scopes.
- A record cached at or after its expiry gets a TTL of 0 and is never evicted
  (`CacheExpiryIffWrittenInTime`).
- Two overlapping issues under a single-instance policy can leave two usable tokens, from any state
  (`OverlapLeavesTwo`); `SafeStartIff` shows that issuing one at a time is exactly what is needed.
- A cleanup batch size of 0 never ends (`EndsIff`); the shipped one is the constant 1000
  (libs/core/src/security/action-token/infrastructure/config/action-token.config.ts:9).
- A variant belongs to one store (libs/database/src/migrations/operational/1773143689984_product_variants.ts:13),
  but the foreign key of a price names only the variant, and the exclusion constraint is per variant while
  the trigger and the unique index are per store and variant. A price filed under a foreign store is
  therefore taken, is not closed by the owner's next price, and refuses it while the ranges overlap
  (`ForeignPriceBlocks`).
- A password change lifts a lockout without an event, so the event history goes on saying locked
  (`SilentLift`, with the exact condition in `HistoryTellsLockIff`).
- A TOTP set-up rejected for want of a secret has begun all the same and can be completed, which
  enables MFA without a secret (`EnabledWithoutSecret`).
- Likewise a profile update refused for one field has already changed the fields before it
  (`HalfUpdatedProfile`). These are the only two calls that throw half-applied (`ThrowChangesNothingIff`).
- Analytics writes of a command survive its rollback (`AnalyticsSurviveRollback`).

## Model

| member | source | states |
|---|---|---|
| `OutboxLease.LeaseExclusivity` | libs/core/src/reliability/outbox/persistence/outbox.kysely.repository.ts:18-100 | in every lease-respecting run, a row an instance still holds is locked under its name with the attempt count it was claimed with, and nobody else holds it |
| `OutboxLease.RetryBudget` | libs/core/src/reliability/outbox/services/outbox-processor.service.ts:191-210 | at most five failures, five exactly for dead-lettered events; claims = failures + releases + the one now out or successful; dead-lettered at least 75 s after the first failure |
| `OutboxLease.FailureSchedule` | libs/core/src/reliability/outbox/services/outbox-processor.service.ts:191-210 | the k-th failure (k < 5) schedules the next attempt 5000·2^(k−1) ms after it was noticed, the fifth dead-letters |
| `OutboxLease.ExclusivityKeptIff` | libs/core/src/reliability/outbox/persistence/outbox.kysely.repository.ts:48-85 | the exact condition, readable before the step: every unexpired lease stays good iff the step is no mark, or the marker is within its own lease and learns of the commit, or nobody is within a lease on the event |
| `OutboxLease.TimelyWhereContested` | libs/core/src/reliability/outbox/services/outbox-processor.service.ts:175-187 | where anyone is within a lease on the event, a mark belongs to a lease-respecting run iff it is harmless |
| `OutboxLease.LateMarkBreaksExclusivity` | libs/core/src/reliability/outbox/persistence/outbox.kysely.repository.ts:64-85 | and it does fail: a run in which a late mark takes a row from under its holder |
| `OutboxLease.PublishedIsFinal` | libs/core/src/reliability/outbox/persistence/outbox.kysely.repository.ts:48-85 | in every lease-respecting run a published or dead-lettered row never changes again |
| `OutboxLease.FinalRowLeavesIff` | libs/core/src/reliability/outbox/persistence/outbox.kysely.repository.ts:48-85 | in any run at all a row leaves published iff a failure report for it lands, and leaves dead-lettered iff a publish mark or an earlier failure report does |
| `OutboxLease.PublishedUntilFailure` | libs/core/src/reliability/outbox/persistence/outbox.kysely.repository.ts:48-85 | so in every run, late marks included, a published event stays published while no failure report for it lands |
| `OutboxLease.LostReplyRevivesPublished` | libs/core/src/reliability/outbox/services/outbox-processor.service.ts:181-188 | and one can land within the lease: a committed mark whose reply is lost leads to a failure report, and the event is pending again |
| `OutboxLease.LeasedInvariant` | libs/core/src/reliability/outbox/persistence/outbox.kysely.repository.ts:18-100 | the inductive invariant behind the results above survives every step of every instance |
| `OutboxPotential.DrainingIsBounded` | libs/core/src/reliability/outbox/services/outbox-processor.service.ts:96-210 | claims and marks of all instances together are bounded by the potential at the start plus 10 per insert and 1 per lease release |
| `OutboxPotential.DrainingStops` | libs/core/src/reliability/outbox/services/outbox-processor.service.ts:96-101 | so between inserts and releases draining stops after at most that many claims and marks |
| `OutboxPotential.PotentialStep` | libs/core/src/reliability/outbox/services/outbox-processor.service.ts:96-210 | each claimed row and each mark lowers the potential 2·(5−attempts), less 1 if locked; only inserts and releases raise it |
| `OutboxProtocol.NothingStranded` | libs/core/src/reliability/outbox/services/outbox-processor.service.ts:138-189 | in all runs, crashes, stalls and late marks included: lock columns set iff locked, a waiting row has a next attempt time, a published event is in every queue its routes name, a dead-lettered one failed five times or more |
| `OutboxProtocol.SafeStep` | libs/database/src/migrations/operational/1774107002423_outbox_events.ts:67-77 | the invariant behind it, every row shape included, survives every statement, queue.add, crash and tick |
| `OutboxProtocol.StepGrows` | libs/core/src/reliability/outbox/services/outbox-processor.service.ts:138-189 | no step forgets an event, changes its type, takes back an attempt, or drops or replaces a job |
| `OutboxProtocol.ClaimSize` | libs/core/src/reliability/outbox/services/outbox-processor.service.ts:29-30 | a claim takes 25 events or all that are due and not locked by others, and holds each for 30 s |
| `OutboxProtocol.OtherTasksStay` | libs/core/src/reliability/outbox/services/outbox-processor.service.ts:118-121 | a step on one row, or its end, touches no other row in hand; a crash changes nothing else |
| `OutboxProtocol.LandsLate` | libs/core/src/reliability/outbox/services/outbox-processor.service.ts:164-174 | an add that takes effect late stores its job unless one is there, and touches nothing else |
| `OutboxProtocol.PublishedPerRouteIffDistinctQueues` | libs/core/src/reliability/outbox/services/outbox-processor.service.ts:164-174 | a published event has a job of its own for every route iff no two of its routes share a queue (they share one job id) |
| `OutboxProtocol.SharedQueueLosesRoute` | libs/core/src/reliability/outbox/services/outbox-processor.service.ts:164-174 | it matters: a run that publishes an event with two routes on one queue and leaves a job for the first alone |
| `OutboxProgress.NoEventIsStuck` | libs/core/src/reliability/outbox/services/outbox-processor.service.ts:96-189 | from every reachable state some finite continuation publishes every pending or locked event and leaves all others as they are |
| `OutboxProgress.DrainEverything` | libs/core/src/reliability/outbox/services/outbox-processor.service.ts:96-136 | one idle instance, batch after batch, publishes everything due |
| `OutboxProgress.WaitAndRelease` | libs/core/src/reliability/outbox/services/outbox-processor.service.ts:68-78 | waiting and one release of expired locks make every waiting event due |
| `OutboxPolicy.BackoffShape` | libs/core/src/reliability/outbox/services/outbox-processor.service.ts:195-198 | for every n the delay is monotone, within [5000, 300000], and the cap exactly from n = 6 |
| `OutboxPolicy.RetrySchedule` | libs/core/src/reliability/outbox/services/outbox-processor.service.ts:191-198 | the delays an event can serve are 5, 10, 20 and 40 s, 75 s in all, and the fifth failure is the last |
| `OutboxRepository.EmptyClaimIffNothingDue` | libs/core/src/reliability/outbox/persistence/outbox.kysely.repository.ts:18-46 | a claim comes back empty iff every due row is locked by another transaction |
| `OutboxRepository.OldestExists` | libs/core/src/reliability/outbox/persistence/outbox.kysely.repository.ts:24-34 | ORDER BY occurred_at LIMIT n always has an answer |
| `OutboxRepository.ClaimTakesOldestDue` | libs/core/src/reliability/outbox/persistence/outbox.kysely.repository.ts:32-41 | in columns: every row taken is pending, due and free; a row left behind although due and free means the limit is reached and no row taken is younger |
| `OutboxRepository.ClaimAndRelease` | libs/core/src/reliability/outbox/persistence/outbox.kysely.repository.ts:18-46 | one event from insertion over claim to release: claimable from its insertion on, locked in the claimer's name, releasable after the lease and not before, then as it was |
| `OutboxRepository.MarksInColumns` | libs/core/src/reliability/outbox/persistence/outbox.kysely.repository.ts:48-85 | what each mark leaves in every column of its row, and that no other row changes |
| `OutboxRepository.OutboxKyselyRepository.Insert` | libs/core/src/reliability/outbox/persistence/outbox.kysely.repository.ts:13-16 | one pending row per event, due at once |
| `OutboxRepository.OutboxKyselyRepository.ClaimBatch` | libs/core/src/reliability/outbox/persistence/outbox.kysely.repository.ts:18-46 | locks exactly the oldest due rows that nobody else has locked, up to the limit, and returns them |
| `OutboxRepository.OutboxKyselyRepository.MarkPublished` | libs/core/src/reliability/outbox/persistence/outbox.kysely.repository.ts:48-62 | whole new table; nothing for an empty id list |
| `OutboxRepository.OutboxKyselyRepository.MarkFailed` | libs/core/src/reliability/outbox/persistence/outbox.kysely.repository.ts:64-85 | whole new table: attempts + 1, unlocked, pending again or dead-lettered |
| `OutboxRepository.OutboxKyselyRepository.ReleaseExpiredLocks` | libs/core/src/reliability/outbox/persistence/outbox.kysely.repository.ts:87-100 | returns exactly the rows whose lease is over to pending, and counts them |
| `OutboxProcessor.OutboxProcessorService.Drain` | libs/core/src/reliability/outbox/services/outbox-processor.service.ts:96-101 | terminates; jobs are only added and stand behind every newly published row; afterwards nothing is due but what others hold, unless the last claim failed; without faults every due row not held by others is published |
| `OutboxProcessor.OutboxProcessorService.ProcessBatch` | libs/core/src/reliability/outbox/services/outbox-processor.service.ts:103-136 | claims the oldest due rows; every one is dealt with unless a statement failed, and published if nothing failed; no other row changes |
| `OutboxProcessor.OutboxProcessorService.HandleRows` | libs/core/src/reliability/outbox/services/outbox-processor.service.ts:117-129 | one row's failure does not stop the others: with no outage every claimed row is published or has one more failure on record |
| `OutboxProcessor.OutboxProcessorService.SettleRow` | libs/core/src/reliability/outbox/services/outbox-processor.service.ts:118-121 | the same for one row of the batch, added to what is already done |
| `OutboxProcessor.OutboxProcessorService.ProcessRow` | libs/core/src/reliability/outbox/services/outbox-processor.service.ts:138-189 | marked published iff every queue accepted the job and the statement went through; otherwise failed, or left locked if that statement failed too |
| `OutboxProcessor.OutboxProcessorService.SendAll` | libs/core/src/reliability/outbox/services/outbox-processor.service.ts:164-174 | every route's add is called, in order, whichever fail; succeeds iff none did, and then every queue has the job |
| `OutboxProcessor.OutboxProcessorService.HandleFailure` | libs/core/src/reliability/outbox/services/outbox-processor.service.ts:191-210 | one more attempt, the backoff counted from the time it was noticed, dead letter at the fifth |
| `WakeUp.NoLostWakeUp` | libs/core/src/reliability/outbox/services/outbox-processor.service.ts:80-101 | at most one drain active; needsAnotherPass only while processing; never more drains than triggers; when idle, a drain began after the last trigger and ended on a claim that failed or found nothing due |
| `WakeUp.InvStep` | libs/core/src/reliability/outbox/services/outbox-processor.service.ts:80-136 | the invariant behind it survives every await-to-await stretch |
| `WakeUp.OutboxProcessorWakeUp.TriggerProcessing` | libs/core/src/reliability/outbox/services/outbox-processor.service.ts:80-88 | the stretch up to the first await, as a step of that machine |
| `WakeUp.OutboxProcessorWakeUp.AfterDrain` | libs/core/src/reliability/outbox/services/outbox-processor.service.ts:86-93 | the stretch after a drain, as a step of that machine |
| `EventRouter.EventRoutingService.constructor` | apps/outbox-processor/src/event-router.ts:9-15 | the index resolves each type to its declared routes, in declaration order |
| `EventRouter.DeclaredIffDefined` | apps/outbox-processor/src/event-router.ts:7-19 | a route is found for a type iff a definition declares it |
| `EventRouter.DeclaredSplits` | apps/outbox-processor/src/event-router.ts:9-15 | the routes of a type are collected in the order of the definitions |
| `EventRouter.DeclaredOnce` | apps/outbox-processor/src/event-router.ts:9-15 | one definition declares its route once, for its own type |
| `DatabaseContext.TransactionalOutbox` | libs/database/src/services/database.context.service.ts:16-43 | after any sequence of commands, refused or failing anywhere, the outbox rows are exactly the events of the committed ones in emit order, and the operational writes are theirs too |
| `DatabaseContext.EmittedInOrder` | libs/database/src/services/database.context.service.ts:69-75 | the events of a then b are the events of a followed by the events of b |
| `DatabaseContext.OperationalInOrder` | libs/database/src/services/database.context.service.ts:32-43 | the same of operational writes |
| `DatabaseContext.AnalyticsInOrder` | libs/database/src/services/database.context.service.ts:21-25 | the same of analytics writes |
| `DatabaseContext.OneStep` | libs/database/src/services/database.context.service.ts:69-75 | one step adds its own events or write to its own list and nothing to the others |
| `DatabaseContext.EmitOrderIsRowOrder` | libs/database/src/services/database.context.service.ts:27-27 | two emits on an empty outbox: two rows, the first event in the first |
| `DatabaseContext.CommitsIff` | libs/database/src/services/database.context.service.ts:16-43 | a command commits iff it is a platform command or names a store, the setting does not fail, nothing throws, publishing does not fail if anything was emitted, and the commit goes through; without a store nothing happens |
| `DatabaseContext.FailsAs` | libs/database/src/services/database.context.service.ts:16-43 | and otherwise fails as the first of these says |
| `DatabaseContext.CommittedAppends` | libs/database/src/services/database.context.service.ts:32-43 | a commit appends its writes to each log and its rows to the outbox |
| `DatabaseContext.ThrownHalfWay` | libs/database/src/services/database.context.service.ts:21-25 | writes on both connections before a throw: the analytics ones stay, in order, and all else is rolled back |
| `DatabaseContext.AnalyticsSurviveRollback` | libs/database/src/services/database.context.service.ts:21-25 | a command that does not commit changes nothing iff it had written nothing to analytics, which is outside the transaction |
| `DatabaseContext.DatabaseContextService.Command` | libs/database/src/services/database.context.service.ts:16-30 | whole new state and outcome; refused without a store, and given up if the store cannot be set, before anything runs |
| `DatabaseContext.DatabaseContextService.PlatformCommand` | libs/database/src/services/database.context.service.ts:32-43 | the same without the store check |
| `DatabaseContext.DatabaseContextService.Transaction` | libs/database/src/services/database.context.service.ts:32-43 | written in place and put back: after a throw anywhere only analytics differ, after a commit writes and event rows are both there |
| `DatabaseContext.DatabaseContextService.RunOperation` | libs/database/src/services/database.context.service.ts:34-39 | the operation up to its end or its throw; events collect in emit order (EmittedInOrder, OneStep say what that is) |
| `DatabaseContext.DatabaseContextService.Publish` | libs/database/src/services/database.context.service.ts:40-40 | one row per event, nothing when there is none |
| `CommandDelivery.CommittedEventsAreDeliverable` | libs/database/src/services/database.context.service.ts:20-29 | end to end: from any reachable state of the processors, committing a command is one protocol step, and some finite continuation puts each of its events in every queue of its type |
| `CommandDelivery.NothingLostNothingInvented` | libs/database/src/services/database.context.service.ts:16-43 | in every run of commands and processors together the table holds exactly the committed events in emit order, the analytics are the commands' own, every job is one a committed event is routed to, and a published event is in all its queues |
| `CommandDelivery.SystemRun` | libs/database/src/services/database.context.service.ts:16-43 | the invariant behind it, processor safety included, over every such run |
| `DurableSafety.AtMostOneExecution` | libs/core/src/reliability/idempotency/strategies/durable.strategy.ts:38-131 | at most one handler in flight per key; none while the key is settled; starts = cancellations + expiry deletions + the row that stands |
| `DurableSafety.SettledUntilExpiry` | libs/core/src/reliability/idempotency/strategies/durable.strategy.ts:38-131 | once a handler succeeded the key stays settled until the expired row is deleted |
| `DurableSafety.WriteOnce` | libs/core/src/reliability/idempotency/persistence/idempotency.kysely.repository.ts:45-112 | the status/response/error shape always holds; a row leaves in_progress at most once and is then fixed |
| `DurableSafety.ReplaysAgree` | libs/core/src/reliability/idempotency/strategies/durable.strategy.ts:149-158 | all replays of one claim carry the outcome first recorded, and go only to the claimant's hash; other hashes get 400 |
| `DurableSafety.ClaimantAgrees` | libs/core/src/reliability/idempotency/strategies/durable.strategy.ts:53-72 | in every timely run a replay of a claim is the sweep's time-out, or reproduces what is recorded of the claimant's result: a response whole, an error by message, code and category; the status told is the same iff the result was a response or an error told as 500 in any case |
| `IdempotencyErrors.RecordedThenReconstructed` | libs/core/src/reliability/idempotency/strategies/durable.strategy.ts:57-63 | message and code of a recorded error come back, the category up to its INTERNAL default; class, name and status do not |
| `IdempotencyErrors.ReplayedStatusIff` | libs/framework/src/nest/filters/infrastructure-exception.filter.ts:21-32 | every recorded error is replayed with status 500; its claimant was told the recorded 4xx iff the error was an HTTP, domain or application exception, and the two statuses agree iff it was none of these |
| `IdempotencyErrors.ReplayedTellingIff` | libs/framework/src/nest/filters/infrastructure-exception.filter.ts:21-32 | claimant and replay are told the very same iff the error was an infrastructure exception |
| `IdempotencyErrors.DeterministicIff` | libs/core/src/reliability/idempotency/strategies/durable.strategy.ts:133-143 | which errors are recorded, by class, status and category: 4xx but 408 and 429 |
| `IdempotencyErrors.RecordedInFull` | libs/core/src/reliability/idempotency/strategies/durable.strategy.ts:57-63 | what the payload keeps of each class of error |
| `IdempotencyErrors.ToldByCategory` | libs/framework/src/nest/utils/map-exception-category-to-status.ts:4-25 | the status that each category is told with |
| `IdempotencyErrors.ToldAs500` | libs/framework/src/nest/filters/infrastructure-exception.filter.ts:21-32 | an infrastructure error is told with a fixed text and its code |
| `DurableStrategy.ToldAlikeIff` | libs/core/src/reliability/idempotency/strategies/durable.strategy.ts:155-169 | both put together for any result that is recorded |
| `DurableStrategy.KeptForReplayIff` | libs/core/src/reliability/idempotency/strategies/durable.strategy.ts:133-143 | every response is kept for replay, and exactly the deterministic errors |
| `DurableSafety.CacheStaleness` | libs/core/src/reliability/idempotency/strategies/durable.strategy.ts:82-163 | a cache hit is what the table would answer, or a finished record that expired less than a second ago |
| `DurableSafety.CacheExpiryIffWrittenInTime` | libs/core/src/infrastructure/redis/redis.service.ts:24-27 | a cached record leaves within a second of its expiry iff it was written before it; written later its TTL of 0 keeps it for ever |
| `DurableSafety.InvStep` | libs/core/src/reliability/idempotency/strategies/durable.strategy.ts:38-131 | the inductive invariant behind these results survives every step |
| `DurableRefinement.DurableRefinesRegister` | libs/core/src/reliability/idempotency/strategies/durable.strategy.ts:38-163 | every timely run, sweeps included, is a history of the abstract register of each key, with the same answers; only a cancellation or the deadline ends a run or a result |
| `DurableRefinement.DurableExecutionsAreApart` | libs/core/src/reliability/idempotency/strategies/durable.strategy.ts:38-131 | between any two executions for one key the claimant deleted its row after a retryable failure, or the daily delete removed the expired row |
| `DurableRefinement.DurableStep` | libs/core/src/reliability/idempotency/strategies/durable.strategy.ts:38-131 | step by step: a step is one register operation, and where it is silent the register stays as it is |
| `IdempotencyDeadlines.KeptIff` | libs/core/src/reliability/idempotency/persistence/idempotency.kysely.repository.ts:45-95 | the exact deadline condition, with no assumption on time: a step leaves every claimant in time its row iff it is no delete or settling mark by a late claimant while somebody else is in time on the key |
| `IdempotencyDeadlines.OneInTime` | libs/core/src/reliability/idempotency/strategies/durable.strategy.ts:38-131 | so while steps are harmless at most one handler per key is in flight and in time |
| `IdempotencyDeadlines.LateDeleteLetsTwoRun` | libs/core/src/reliability/idempotency/persistence/idempotency.kysely.repository.ts:89-95 | the delete is by key alone: from any state in which a late claimant is about to delete under a running one, two handlers can run in time |
| `IdempotencyDeadlines.DeadlineNeeded` | libs/core/src/reliability/idempotency/persistence/idempotency.kysely.repository.ts:89-95 | and such a state is reached |
| `RedisStrategy.RedisRefinesRegister` | libs/core/src/reliability/idempotency/strategies/redis.strategy.ts:33-151 | every timely run is a history of the same register, whose runs and results end only by cancellation or at their TTL; at most one handler in flight |
| `RedisStrategy.RedisExecutionsAreApart` | libs/core/src/reliability/idempotency/strategies/redis.strategy.ts:33-114 | between any two executions for one key the claimant deleted its record after a retryable failure, or the record reached its TTL |
| `RedisStrategy.InvStep` | libs/core/src/reliability/idempotency/strategies/redis.strategy.ts:33-114 | the key of a request in flight holds that request's own pending record, through every step |
| `RedisStrategy.OtherRequestsStay` | libs/core/src/reliability/idempotency/strategies/redis.strategy.ts:33-74 | a step of one request, or its crash, leaves all others as they were |
| `IdempotencyDeadlines.RedisKeptIff` | libs/core/src/reliability/idempotency/strategies/redis.strategy.ts:90-114 | the same exact condition for the record in Redis, which neither delete nor mark guards |
| `IdempotencyDeadlines.RedisOneInTime` | libs/core/src/reliability/idempotency/strategies/redis.strategy.ts:33-114 | so while steps are harmless at most one handler per key is in flight and in time |
| `IdempotencyDeadlines.RedisLateDeleteLetsTwoRun` | libs/core/src/reliability/idempotency/strategies/redis.strategy.ts:90-92 | from any state in which a late claimant is about to delete under a running one, two handlers can run in time |
| `IdempotencyDeadlines.RedisDeadlineNeeded` | libs/core/src/reliability/idempotency/strategies/redis.strategy.ts:90-92 | and such a state is reached, after a stall of 300 seconds |
| `IdempotencyRegister.OneRunAtATime` | libs/core/src/reliability/idempotency/strategies/durable.strategy.ts:38-79 | what the register promises, whatever requests arrive and look meanwhile: up to the earliest deadline and unless cancelled, nobody else is told to run, a result stays the result, and answers come from that run |
| `IdempotencyRegister.RunsAreApart` | libs/core/src/reliability/idempotency/strategies/durable.strategy.ts:38-131 | any two runs of a history have a cancellation or an end of time between them |
| `IdempotencyRepository.ResolveThenRead` | libs/core/src/reliability/idempotency/persistence/idempotency.kysely.repository.ts:45-87 | what a resolution records is what a replay reads back |
| `IdempotencyRepository.RowLife` | libs/core/src/reliability/idempotency/persistence/idempotency.kysely.repository.ts:14-112 | a row from its claim on, column by column: found and markable until its TTL is over, deleted after that instant, swept after five minutes |
| `IdempotencyRepository.ResolvedRowStays` | libs/core/src/reliability/idempotency/persistence/idempotency.kysely.repository.ts:14-87 | an existing key cannot be claimed, a resolved row is neither marked nor swept, and marks touch no other key |
| `IdempotencyRepository.IdempotencyKyselyRepository.Claim` | libs/core/src/reliability/idempotency/persistence/idempotency.kysely.repository.ts:14-28 | inserts iff the key is absent; an existing row, expired or not, is left alone |
| `IdempotencyRepository.IdempotencyKyselyRepository.FindActiveRecord` | libs/core/src/reliability/idempotency/persistence/idempotency.kysely.repository.ts:30-43 | the row iff it has not expired |
| `IdempotencyRepository.IdempotencyKyselyRepository.MarkCompleted` | libs/core/src/reliability/idempotency/persistence/idempotency.kysely.repository.ts:45-65 | changes and returns the row iff it is open and unexpired |
| `IdempotencyRepository.IdempotencyKyselyRepository.MarkFailed` | libs/core/src/reliability/idempotency/persistence/idempotency.kysely.repository.ts:67-87 | the same for an error |
| `IdempotencyRepository.IdempotencyKyselyRepository.DeleteRecord` | libs/core/src/reliability/idempotency/persistence/idempotency.kysely.repository.ts:89-95 | removes the row whatever its status |
| `IdempotencyRepository.IdempotencyKyselyRepository.DeleteExpired` | libs/core/src/reliability/idempotency/persistence/idempotency.kysely.repository.ts:97-102 | removes exactly the expired rows |
| `IdempotencyRepository.IdempotencyKyselyRepository.SweepStaleInProgress` | libs/core/src/reliability/idempotency/persistence/idempotency.kysely.repository.ts:104-112 | fails exactly the rows in progress for more than five minutes |
| `IdempotencyServices.DurableIdempotencyStrategy.Handle` | libs/core/src/reliability/idempotency/strategies/durable.strategy.ts:38-80 | answer, table and cache of one undisturbed request in every branch, the missing header included, with time passing between any two calls; the lemmas after it say what that is for the literal header and scope |
| `IdempotencyServices.TouchesOwnKeyOnly` | libs/core/src/reliability/idempotency/strategies/durable.strategy.ts:38-80 | a request changes row and cached record at its own header and scope alone; without a header nothing |
| `IdempotencyServices.AnswersForOwnKeyAlone` | libs/core/src/reliability/idempotency/strategies/durable.strategy.ts:38-80 | its answer depends on row and cached record at that header and scope alone |
| `IdempotencyServices.LeavesForOwnKeyAlone` | libs/core/src/reliability/idempotency/strategies/durable.strategy.ts:38-80 | and so does what it leaves there |
| `IdempotencyServices.ScopesAreApart` | libs/core/src/reliability/idempotency/strategies/durable.strategy.ts:145-147 | a request under another scope, or with another header, is answered as if this one had never come |
| `IdempotencyServices.RedisKeysMeetIff` | libs/core/src/reliability/idempotency/strategies/durable.strategy.ts:145-147 | the Redis keys of two scopes can coincide iff one scope begins with the other and a colon; within a scope never for two headers |
| `IdempotencyServices.AnsweredFromRecord` | libs/core/src/reliability/idempotency/strategies/durable.strategy.ts:149-158 | a request that finds a record changes nothing: 400 for another payload, 409 while in progress, else the recorded response or error |
| `IdempotencyServices.ExpiredRowIsNotFound` | libs/core/src/reliability/idempotency/strategies/durable.strategy.ts:73-78 | an expired row that is still there: 500, and no handler runs |
| `IdempotencyServices.RetryableRunsAgain` | libs/core/src/reliability/idempotency/strategies/durable.strategy.ts:68-70 | after a 5xx, 408 or 429 nothing is left and the next request runs its handler |
| `IdempotencyServices.OutlastedTtl` | libs/core/src/reliability/idempotency/strategies/durable.strategy.ts:109-119 | a handler that outlasts its TTL: its client is told the result, nothing is recorded, the next request is told 500 |
| `IdempotencyServices.CachedAfterSettling` | libs/core/src/reliability/idempotency/strategies/durable.strategy.ts:113-118 | a settled record is cached until its expiry rounded up to the second, or for ever if cached after it |
| `IdempotencyServices.DurableIdempotencyStrategy.Run` | libs/core/src/reliability/idempotency/strategies/durable.strategy.ts:53-73 | the handler and its bookkeeping: settled and cached, left to expire, or deleted |
| `IdempotencyServices.DurableIdempotencyStrategy.GetRecord` | libs/core/src/reliability/idempotency/strategies/durable.strategy.ts:82-88 | the cache first, then the table |
| `IdempotencyServices.DurableIdempotencyStrategy.Mark` | libs/core/src/reliability/idempotency/strategies/durable.strategy.ts:109-131 | settles an open row and caches what was settled, with the remaining TTL rounded up |
| `IdempotencyServices.ExecutedThenReplayed` | libs/core/src/reliability/idempotency/strategies/durable.strategy.ts:38-80 | what one request settled answers later requests with its hash until expiry, others get 400; a response comes back whole, an error by message, code and category, and with the claimant's status only if that was 500 |
| `IdempotencyServices.ReplayedForADay` | libs/core/src/reliability/idempotency/strategies/durable.strategy.ts:48-48 | without a TTL given a response is replayed for 86 400 s and not longer |
| `IdempotencyServices.BadRequestReplayedAs500` | libs/core/src/reliability/idempotency/strategies/durable.strategy.ts:165-169 | it happens: BadRequestException('Invalid input') is told as 400 with its message, and its replay as 500 with the generic one |
| `IdempotencyServices.RedisIdempotencyStrategy.Handle` | libs/core/src/reliability/idempotency/strategies/redis.strategy.ts:33-82 | answer and store of one undisturbed request in every branch, the missing header and an unreadable store included; the lemmas after it say what that is for the literal header and scope |
| `IdempotencyServices.RedisTouchesOwnKeyOnly` | libs/core/src/reliability/idempotency/strategies/redis.strategy.ts:33-74 | a request changes the record at its own header and scope alone |
| `IdempotencyServices.RedisAnswersForOwnKeyAlone` | libs/core/src/reliability/idempotency/strategies/redis.strategy.ts:33-74 | its answer, and what it leaves there, depends on that record alone |
| `IdempotencyServices.RedisScopesAreApart` | libs/core/src/reliability/idempotency/strategies/redis.strategy.ts:128-130 | requests under different scopes or headers never see each other |
| `IdempotencyServices.RedisExecutedThenReplayed` | libs/core/src/reliability/idempotency/strategies/redis.strategy.ts:94-114 | what was settled is replayed to its own hash for the TTL given, a day without one, for ever with 0 |
| `IdempotencyServices.RedisAnsweredFromRecord` | libs/core/src/reliability/idempotency/strategies/redis.strategy.ts:76-82 | a request that finds a record is answered from it; 503 if Redis cannot be read |
| `IdempotencyServices.RedisRetryableRunsAgain` | libs/core/src/reliability/idempotency/strategies/redis.strategy.ts:62-64 | after a retryable failure nothing is left and the next request runs its handler |
| `UndisturbedRequests.DurableAlone` | libs/core/src/reliability/idempotency/strategies/durable.strategy.ts:38-80 | the interleaved protocol restricted to one request, from any state, leaves and answers what Handle does |
| `UndisturbedRequests.LostClaimSteps` | libs/core/src/reliability/idempotency/strategies/durable.strategy.ts:73-78 | a request whose claim is refused is answered from cache or table on a second look, or with 500, and changes nothing |
| `UndisturbedRequests.RedisAlone` | libs/core/src/reliability/idempotency/strategies/redis.strategy.ts:33-74 | the Redis protocol restricted to one request leaves and answers what its own Handle does |
| `UndisturbedRequests.RedisLostClaimSteps` | libs/core/src/reliability/idempotency/strategies/redis.strategy.ts:67-72 | a refused SET NX is answered from the record, or with 500 once that is gone |
| `UndisturbedRequests.LastMillisecond` | libs/core/src/reliability/idempotency/strategies/durable.strategy.ts:109-119 | timely runs leave a handler its whole TTL but for a millisecond |
| `UndisturbedRequests.RedisLastMillisecond` | libs/core/src/reliability/idempotency/strategies/redis.strategy.ts:84-88 | on Redis 300 s but for a millisecond |
| `RedisStore.RedisService.Lookup` | libs/core/src/infrastructure/redis/redis.service.ts:19-22 | the value iff present and not past its expiry |
| `RedisStore.RedisService.Set` | libs/core/src/infrastructure/redis/redis.service.ts:24-27 | a TTL of 0 stores without expiry |
| `RedisStore.RedisService.SetNX` | libs/core/src/infrastructure/redis/redis.service.ts:29-32 | succeeds iff no live value is there, and stores only then |
| `RedisStore.ReadBackUntil` | libs/core/src/infrastructure/redis/redis.service.ts:19-32 | a value is read back until its TTL is over, for ever with 0; no other key is touched; NX keeps a live value |
| `ActionTokenProtocol.SingleConsumption` | libs/core/src/security/action-token/infrastructure/persistence/action-token.kysely.repository.ts:33-109 | in every interleaving a token is consumed at most once; version = consumed + revoked, never both; consumed before expiry; a spent row never changes again |
| `ActionTokenProtocol.StepFreezes` | libs/core/src/security/action-token/infrastructure/persistence/action-token.kysely.repository.ts:33-109 | one step leaves every consumed or revoked row as it is, and no row changes identity |
| `ActionTokenProtocol.InvStep` | libs/core/src/security/action-token/infrastructure/persistence/action-token.kysely.repository.ts:33-124 | the invariant behind it survives every read, write, revocation and cleanup |
| `ActionTokenProtocol.ConsumedAlone` | libs/core/src/security/action-token/application/services/consume-action-token.service.ts:21-28 | a consumer on its own: can begin iff the token is open, unexpired and of its purpose, and stores it consumed |
| `ActionTokenProtocol.RevokedAlone` | libs/core/src/security/action-token/application/services/revoke-action.token.service.ts:21-52 | a revoker on its own: exactly the open tokens it asked for, in columns |
| `ActionTokenProtocol.IssuedAlone` | libs/core/src/security/action-token/application/services/issue-action-token.service.ts:29-63 | an issuer on its own: the usable tokens of the pair superseded, and a new one of that user and purpose |
| `ActionTokenProtocol.CleanupTakesExpired` | libs/core/src/security/action-token/infrastructure/persistence/action-token.kysely.repository.ts:111-124 | cleanup removes its rows and nothing else, and every one of them had expired |
| `ActionTokenProtocol.OtherProcessesStay` | libs/core/src/security/action-token/infrastructure/persistence/action-token.kysely.repository.ts:33-109 | a step or crash of one process leaves the others as they were |
| `ActionTokenIssue.SingleActiveToken` | libs/core/src/security/action-token/application/services/issue-action-token.service.ts:29-63 | with issues for a pair one after another, interleaved with anything else, at most one of its tokens is usable at any time |
| `ActionTokenIssue.SafeStartIff` | libs/core/src/security/action-token/application/services/issue-action-token.service.ts:29-63 | the serial condition is exact: starting an issue is safe for every serial continuation iff no issue of the pair is under way |
| `ActionTokenIssue.OverlapLeavesTwo` | libs/core/src/security/action-token/application/services/issue-action-token.service.ts:29-63 | from any state in which two issues of a pair overlap, some continuation leaves two usable tokens |
| `ActionTokenIssue.OverlappingIssuesLeaveTwo` | libs/core/src/security/action-token/application/services/issue-action-token.service.ts:29-63 | and from every reachable state two issues can overlap |
| `ActionTokenIssue.PairInvStep` | libs/core/src/security/action-token/application/services/issue-action-token.service.ts:29-63 | the invariant behind it survives every step |
| `ActionToken.FinderAgreesWithIsUsable` | libs/core/src/security/action-token/infrastructure/persistence/action-token.kysely.repository.ts:54-84 | the millisecond filter agrees with isUsable on whole-millisecond expiries, which is what is stored; for an open token they agree at all times only then |
| `ActionToken.CommandsKeepConsistency` | libs/core/src/security/action-token/domain/aggregates/action-token.aggregate.ts:83-94 | consume and revoke keep version = consumed + revoked and exclude each other |
| `ActionToken.ConsumedIff` | libs/core/src/security/action-token/domain/aggregates/action-token.aggregate.ts:83-87 | consumable iff neither consumed nor revoked, unexpired and of this purpose; the instant is kept |
| `ActionToken.RevokedOnce` | libs/core/src/security/action-token/domain/aggregates/action-token.aggregate.ts:89-94 | revoked once, expired or not, unless consumed; a second revocation does nothing |
| `ActionToken.ActionTokenAggregate.Consume` | libs/core/src/security/action-token/domain/aggregates/action-token.aggregate.ts:83-87 | succeeds iff usable and of this purpose; a throw changes nothing |
| `ActionToken.ActionTokenAggregate.Revoke` | libs/core/src/security/action-token/domain/aggregates/action-token.aggregate.ts:89-94 | whole new state; nothing on a spent token |
| `ActionToken.ActionTokenKyselyRepository.Create` | libs/core/src/security/action-token/infrastructure/persistence/action-token.kysely.repository.ts:22-31 | inserts iff id and hash are new and the expiry follows the creation |
| `ActionToken.InsertableIff` | libs/core/src/security/action-token/infrastructure/persistence/action-token.kysely.repository.ts:22-31 | stored iff id and hash are new and it expires in a later millisecond than it was created; what the row then holds |
| `ActionToken.ActionTokenKyselyRepository.Update` | libs/core/src/security/action-token/infrastructure/persistence/action-token.kysely.repository.ts:33-43 | writes iff the row is at the version the token was read at |
| `ActionToken.ActionTokenKyselyRepository.FindByHash` | libs/core/src/security/action-token/infrastructure/persistence/action-token.kysely.repository.ts:45-52 | a row with the hash, iff there is one |
| `ActionToken.ActionTokenKyselyRepository.RevokeUsableByIds` | libs/core/src/security/action-token/infrastructure/persistence/action-token.kysely.repository.ts:95-109 | revokes exactly the listed rows still open |
| `ActionToken.ActionTokenKyselyRepository.DeleteExpired` | libs/core/src/security/action-token/infrastructure/persistence/action-token.kysely.repository.ts:111-124 | deletes some min(limit, expired) of the expired rows and counts them |
| `ActionTokenServices.IssueActionTokenService.Execute` | libs/core/src/security/action-token/application/services/issue-action-token.service.ts:29-63 | whole new state and result, with a clock reading of its own for the finder, each token revoked in memory, the row update, the expiry and the creation; an issued row carries the very user, purpose and hash, is open, and expires a TTL after the reading, in whole milliseconds |
| `ActionTokenServices.IssuedIsOnlyUsable` | libs/core/src/security/action-token/application/services/issue-action-token.service.ts:29-63 | under a single-instance policy, from the moment the old ones were looked for, a token of the pair is usable iff it is the new one and its stored expiry lies ahead |
| `ActionTokenServices.IssuedIsConsumableIff` | libs/core/src/security/action-token/application/services/consume-action-token.service.ts:21-28 | what was issued can be consumed with its hash for its own purpose and no other, and exactly until the stored expiry |
| `ActionTokenServices.SupersedesThePairAlone` | libs/core/src/security/action-token/application/services/issue-action-token.service.ts:48-63 | a row is superseded iff it is of this very user and purpose and still usable, and otherwise unchanged |
| `ActionTokenServices.FinderFindsUsable` | libs/core/src/security/action-token/infrastructure/persistence/action-token.kysely.repository.ts:54-71 | the finder selects exactly the usable tokens of the pair |
| `ActionTokenServices.IssueActionTokenService.RevokeExistingTokens` | libs/core/src/security/action-token/application/services/issue-action-token.service.ts:48-63 | supersedes exactly the usable tokens of the pair |
| `ActionTokenServices.ConsumeActionTokenService.Execute` | libs/core/src/security/action-token/application/services/consume-action-token.service.ts:21-28 | succeeds iff some token has this hash and purpose and is open and unexpired; stores it consumed and changes nothing else |
| `ActionTokenServices.RevokeActionTokenService.AllForUser` | libs/core/src/security/action-token/application/services/revoke-action.token.service.ts:21-24 | revokes exactly the usable tokens of the user, in columns; every other row is unchanged |
| `ActionTokenServices.RevokeActionTokenService.ByPurpose` | libs/core/src/security/action-token/application/services/revoke-action.token.service.ts:32-40 | revokes exactly the usable tokens of the pair, in columns; every other row is unchanged |
| `ActionTokenServices.RevokeActionTokenService.ById` | libs/core/src/security/action-token/application/services/revoke-action.token.service.ts:26-30 | revokes the token with this id if it is open, expired or not; every other row is unchanged |
| `ActionTokenServices.RevokeActionTokenService.RevokeTokens` | libs/core/src/security/action-token/application/services/revoke-action.token.service.ts:42-52 | the bulk update leaves each row as the token in memory that was revoked one by one, whatever its state |
| `ActionTokenServices.RevokeLoaded` | libs/core/src/security/action-token/application/services/revoke-action.token.service.ts:49-49 | the loop revokes every loaded token still open, and no other object |
| `ActionToken.ActionTokenKyselyRepository.Load` | libs/core/src/security/action-token/infrastructure/persistence/action-token.kysely.repository.ts:54-93 | one new aggregate per selected row, equal to it |
| `ActionTokenServices.CleanupExpiredActionTokensService.Execute` | libs/core/src/security/action-token/application/services/cleanup-expired-action-tokens.service.ts:20-35 | terminates, removes exactly the rows expired before the cutoff, counts them, spares every usable token |
| `ActionTokenServices.CleanupExpiredActionTokensService.ExecuteUpTo` | libs/core/src/security/action-token/application/services/cleanup-expired-action-tokens.service.ts:20-35 | the same loop cut off after any number of passes, for every batch size: how many rows are gone and whether it has ended |
| `ActionTokenServices.EndsIff` | libs/core/src/security/action-token/application/services/cleanup-expired-action-tokens.service.ts:24-34 | the loop ends within n passes iff the size is negative, or positive with n·size above the number of expired rows; so with size 0 never |
| `PriceTimeline.TableIsTimeline` | libs/database/src/migrations/operational/1777996525503_product_pricing.ts:40-86 | after any inserts the table holds at every instant of every variant what a timeline built from the insertions alone holds: same price, same store, open since the same instant |
| `PriceTimeline.TakenIffAdmitted` | libs/database/src/migrations/operational/1777996525503_product_pricing.ts:40-86 | and took exactly the insertions that timeline admits, by its own rule |
| `PriceTimeline.RangesDisjoint` | libs/database/src/migrations/operational/1777996525503_product_pricing.ts:40-46 | so the ranges of a variant stay disjoint, with at most one open |
| `PriceTimeline.InsertWrites` | libs/database/src/migrations/operational/1777996525503_product_pricing.ts:55-86 | one accepted insert is one functional override of the timeline |
| `PriceTimeline.FitsIffRoom` | libs/database/src/migrations/operational/1777996525503_product_pricing.ts:40-46 | the constraints between ranges are a condition on each instant of the timeline |
| `PriceTimeline.InsertOverrides` | libs/database/src/migrations/operational/1777996525503_product_pricing.ts:55-86 | an accepted insert overrides from its start on and changes nothing before it or for other variants |
| `PriceTimeline.AcceptedIff` | libs/database/src/migrations/operational/1777996525503_product_pricing.ts:40-52 | an insert is accepted iff it is valid, starts after the row it closes and overlaps no other of its variant |
| `PriceTimeline.FirstPriceAcceptedIff` | libs/database/src/migrations/operational/1777996525503_product_pricing.ts:30-41 | a variant's first price is accepted iff its amounts are not negative, its discount is within [0, 1] and its end is after its start |
| `PriceTimeline.AcceptedAfterOpenRow` | libs/database/src/migrations/operational/1777996525503_product_pricing.ts:40-86 | with an open row of the store: accepted iff valid and later than that row; all other rows of the variant, foreign ones too, end before it starts |
| `PriceTimeline.NextPriceAcceptedIff` | libs/database/src/migrations/operational/1777996525503_product_pricing.ts:30-86 | the same in columns, and the table after it: the open row ends where the new one starts, and no other changes |
| `PriceTimeline.ForeignPriceBlocks` | libs/database/src/migrations/operational/1777996525503_product_pricing.ts:12-13 | a price filed under a store that does not own the variant is taken, and refuses the owner's price exactly while the ranges overlap |
| `PriceTimeline.QuoteIsUnique` | libs/database/src/migrations/operational/1777996525503_product_pricing.ts:42-46 | at most one row quotes a price for a variant at an instant |
| `PriceTimeline.QuotedThroughout` | libs/database/src/migrations/operational/1777996525503_product_pricing.ts:42-46 | after any inserts each row is its variant's price from its start up to, not including, its end |
| `PriceTimeline.RowsAreSane` | libs/database/src/migrations/operational/1777996525503_product_pricing.ts:30-41 | after any inserts no row holds a negative amount, a discount outside [0, 1] or an empty range |
| `PriceTimeline.OverlapIffShared` | libs/database/src/migrations/operational/1777996525503_product_pricing.ts:42-46 | two ranges are excluded iff some instant lies in both |
| `PriceTimeline.ProductVariantPrices.Insert` | libs/database/src/migrations/operational/1777996525503_product_pricing.ts:55-86 | trigger, checks and rollback: accepted iff all constraints hold afterwards; a rejected insert changes nothing |
| `UserSecurity.LockoutBound` | libs/contexts/src/identity/domain/user/entities/user-security.entity.ts:91-110 | over any run of failures: at most 10 + one per half hour elapsed are counted, counted ones from the tenth on are over half an hour apart, and exactly max(0, n−9) lockout events are emitted, with the right end and count |
| `UserSecurity.CountedIff` | libs/contexts/src/identity/domain/user/entities/user-security.entity.ts:91-110 | over any run: the next failure is counted iff fewer than ten were, or it comes more than half an hour after the last counted one |
| `UserSecurity.LockColumns` | libs/contexts/src/identity/domain/user/entities/user-security.entity.ts:91-110 | the columns after any such run: count, last attempt, lock end and reason |
| `UserSecurity.Forgives` | libs/contexts/src/identity/domain/user/entities/user-security.entity.ts:112-125 | a login and a password change clear count and lock, stamp their own instant and leave MFA alone |
| `UserSecurity.TotpLife` | libs/contexts/src/identity/domain/user/entities/user-security.entity.ts:127-157 | a TOTP set-up from start to end: secret and key id in their own columns, each instant in its own |
| `UserSecurity.EmailIsEnabledAtOnce` | libs/contexts/src/identity/domain/user/entities/user-security.entity.ts:127-136 | MFA by email is enabled at once and stores no secret |
| `UserSecurity.MfaSucceedsIff` | libs/contexts/src/identity/domain/user/entities/user-security.entity.ts:127-157 | each MFA command succeeds in exactly one status, and says elsewhere what is in the way |
| `UserSecurity.RunInvStep` | libs/contexts/src/identity/domain/user/entities/user-security.entity.ts:91-110 | the invariant behind it survives one more failure |
| `UserSecurity.UserSecurityEntity.constructor` | libs/contexts/src/identity/domain/user/entities/user-security.entity.ts:69-83 | no failures, no lock, MFA disabled |
| `UserSecurity.UserSecurityEntity.RecordFailedLogin` | libs/contexts/src/identity/domain/user/entities/user-security.entity.ts:91-110 | whole new state and events; nothing counted up to and including the end of a lock, and counting goes on after it (CountedIff) |
| `UserSecurity.UserSecurityEntity.RecordSuccessfulLogin` | libs/contexts/src/identity/domain/user/entities/user-security.entity.ts:112-120 | whole new state: unlocked |
| `UserSecurity.UserSecurityEntity.RecordPasswordChange` | libs/contexts/src/identity/domain/user/entities/user-security.entity.ts:122-125 | whole new state: unlocked |
| `UserSecurity.UserSecurityEntity.Unlock` | libs/contexts/src/identity/domain/user/entities/user-security.entity.ts:186-190 | failures and lock cleared, the rest kept |
| `UserSecurity.UserSecurityEntity.StartMfaSetup` | libs/contexts/src/identity/domain/user/entities/user-security.entity.ts:127-136 | whole new state and error; a missing secret is noticed after the set-up has begun |
| `UserSecurity.UserSecurityEntity.CompleteMfaSetup` | libs/contexts/src/identity/domain/user/entities/user-security.entity.ts:138-143 | enables iff a set-up is pending |
| `UserSecurity.UserSecurityEntity.DisableMfa` | libs/contexts/src/identity/domain/user/entities/user-security.entity.ts:145-152 | clears MFA iff enabled |
| `UserSecurity.UserSecurityEntity.RecordMfaUsed` | libs/contexts/src/identity/domain/user/entities/user-security.entity.ts:154-157 | only while enabled |
| `UserHistory.HistoryFoldsToState` | libs/contexts/src/identity/domain/user/aggregates/user.aggregate.ts:122-303 | after any run, throws and pulls included, the events fold to status and verification time, and to the lock while one is set; pending iff unverified; MFA enabled iff it has an enabling time |
| `UserHistory.HistoryTellsLockIff` | libs/contexts/src/identity/domain/user/aggregates/user.aggregate.ts:196-277 | the events fold to the lock, set or not, iff no password change has lifted one with neither login nor lockout recorded since |
| `UserHistory.LockToldIff` | libs/contexts/src/identity/domain/user/aggregates/user.aggregate.ts:196-200 | step by step: a reader who knows the lock goes on knowing it iff the command is not a password change of a locked user |
| `UserHistory.SilentLift` | libs/contexts/src/identity/domain/user/aggregates/user.aggregate.ts:196-200 | and that happens: a run after which the history says locked and the user is not |
| `UserHistory.CommandKeepsAgreement` | libs/contexts/src/identity/domain/user/aggregates/user.aggregate.ts:167-303 | the events of one command take a reader of the history along with the state |
| `UserHistory.CommandKeepsSound` | libs/contexts/src/identity/domain/user/aggregates/user.aggregate.ts:167-303 | every command, thrown or not, keeps the invariant on status, MFA and lock |
| `UserHistory.NeverUndone` | libs/contexts/src/identity/domain/user/aggregates/user.aggregate.ts:73-253 | disabled is absorbing, verification and deletion are final, over any run |
| `UserHistory.DeletionFreezes` | libs/contexts/src/identity/domain/user/aggregates/user.aggregate.ts:299-332 | after a deletion only the status can still change |
| `UserHistory.GateCharacterised` | libs/contexts/src/identity/domain/user/aggregates/user.aggregate.ts:322-328 | a login passes iff active or suspended, undeleted and outside a lockout, whose end GateOpens and LoginAfterFailures give; a blocked one changes nothing and reports the reason |
| `UserHistory.OpenAfterVerification` | libs/contexts/src/identity/domain/user/aggregates/user.aggregate.ts:322-328 | for reachable users: iff verified, not disabled, not deleted, not locked |
| `UserHistory.FailedLoginsCountOrBlock` | libs/contexts/src/identity/domain/user/aggregates/user.aggregate.ts:255-265 | the gate does not disturb the count: same state and lockouts as the entity alone, and every attempt is counted or blocked |
| `UserHistory.LoginAfterFailures` | libs/contexts/src/identity/domain/user/aggregates/user.aggregate.ts:267-277 | after any run of failures a login goes through iff fewer than ten were counted or the last counted is more than half an hour ago; else it is told locked out |
| `UserHistory.SecretLostIff` | libs/contexts/src/identity/domain/user/entities/user-security.entity.ts:127-136 | a TOTP user comes to lack its secret by a command iff that command begins a TOTP set-up without one |
| `UserHistory.SecretHeldOverRuns` | libs/contexts/src/identity/domain/user/aggregates/user.aggregate.ts:279-287 | without such a call no run leads there |
| `UserHistory.EnabledWithoutSecret` | libs/contexts/src/identity/domain/user/aggregates/user.aggregate.ts:279-287 | with such a call one does: MFA enabled, TOTP, no secret |
| `UserHistory.ThrowChangesNothingIff` | libs/contexts/src/identity/domain/user/aggregates/user.aggregate.ts:167-303 | a throwing command changes nothing and raises nothing, exactly unless it begins a TOTP set-up without a secret or is a profile update that took a name before the refused field |
| `UserHistory.ProfileThrowIff` | libs/contexts/src/identity/domain/user/aggregates/user.aggregate.ts:202-217 | the profile half of that, on its own |
| `UserHistory.ThrowsCanBeDropped` | libs/contexts/src/identity/domain/user/aggregates/user.aggregate.ts:167-303 | so in a run without those the throwing commands may be left out: same user, same events pulled and buffered |
| `UserHistory.HalfUpdatedProfile` | libs/contexts/src/identity/domain/user/aggregates/user.aggregate.ts:202-217 | with one they may not: first name accepted, last name refused, first name changed |
| `UserCommands.GateOpens` | libs/contexts/src/identity/domain/user/aggregates/user.aggregate.ts:322-328 | with a lock until u, logins are blocked up to and including u, and counted or let through after it |
| `UserCommands.TenthLocks` | libs/contexts/src/identity/domain/user/aggregates/user.aggregate.ts:255-265 | without a lock: the tenth failure locks for half an hour and says so |
| `UserCommands.BlockedUser` | libs/contexts/src/identity/domain/user/aggregates/user.aggregate.ts:322-328 | which reason is given, in which order: deleted, pending, disabled |
| `UserCommands.Registration` | libs/contexts/src/identity/domain/user/aggregates/user.aggregate.ts:122-187 | from registration over the first verification to the second: state and events |
| `UserCommands.EmailVerifiedIff` | libs/contexts/src/identity/domain/user/aggregates/user.aggregate.ts:167-187 | an email is verified iff the user is pending, or active and undeleted |
| `UserCommands.StatusChangesIff` | libs/contexts/src/identity/domain/user/aggregates/user.aggregate.ts:73-78 | disable, enable and suspend succeed iff active, suspended or already there; a change is told with its reason, and is all that changes |
| `UserCommands.RefusedUnlessActive` | libs/contexts/src/identity/domain/user/aggregates/user.aggregate.ts:310-312 | the other eight commands are refused to a user who is not active or is deleted, and change nothing |
| `UserCommands.PasswordReplaced` | libs/contexts/src/identity/domain/user/aggregates/user.aggregate.ts:196-200 | the new hash is stored, the change stamped and the lock lifted; a refused hash changes nothing |
| `UserCommands.ProfileTaken` | libs/contexts/src/identity/domain/user/aggregates/user.aggregate.ts:202-217 | a profile update goes through iff no field is refused, sets each field given and no other, and unverifies a phone given |
| `UserCommands.ProfileRefused` | libs/contexts/src/identity/domain/user/aggregates/user.aggregate.ts:202-217 | a refused one keeps the names before the refused field and changes nothing else |
| `UserCommands.PhoneVerifiedOnce` | libs/contexts/src/identity/domain/user/aggregates/user.aggregate.ts:189-194 | verified at the first instant given; refused without a phone |
| `UserCommands.DeletedOnce` | libs/contexts/src/identity/domain/user/aggregates/user.aggregate.ts:299-303 | stamped once; a second deletion is refused |
| `UserCommands.TotpOfUser` | libs/contexts/src/identity/domain/user/aggregates/user.aggregate.ts:279-297 | a TOTP set-up through the aggregate: enabled with instant 0, used with its own, and then gone |
| `UserCommands.MfaThrowsOfUser` | libs/contexts/src/identity/domain/user/aggregates/user.aggregate.ts:279-297 | the error each MFA command throws in the wrong status; email MFA with instant 0 |
| `User.UserAggregate.constructor` | libs/contexts/src/identity/domain/user/aggregates/user.aggregate.ts:122-149 | pending, unverified, one registration event |
| `User.UserAggregate.PullDomainEvents` | libs/shared-kernel/src/bases/aggregate-root.base.ts:7-15 | hands over the buffer and empties it |
| `User.UserAggregate.VerifyEmail` | libs/contexts/src/identity/domain/user/aggregates/user.aggregate.ts:167-187 | new state, events and outcome are those of the specification the history theorems are about |
| `User.UserAggregate.VerifyPhone` | libs/contexts/src/identity/domain/user/aggregates/user.aggregate.ts:189-194 | the same |
| `User.UserAggregate.ChangePassword` | libs/contexts/src/identity/domain/user/aggregates/user.aggregate.ts:196-200 | the same; a refused hash throws before anything changes, and an accepted one lifts a lock without an event |
| `User.UserAggregate.UpdateProfile` | libs/contexts/src/identity/domain/user/aggregates/user.aggregate.ts:202-217 | the same, for names and phone; a refused value throws and leaves the fields before it changed |
| `User.UserAggregate.UpdateNames` | libs/contexts/src/identity/domain/user/aggregates/user.aggregate.ts:204-212 | the names are taken one by one, up to the first refused |
| `User.UserAggregate.Disable` | libs/contexts/src/identity/domain/user/aggregates/user.aggregate.ts:219-229 | the same |
| `User.UserAggregate.Enable` | libs/contexts/src/identity/domain/user/aggregates/user.aggregate.ts:231-241 | the same |
| `User.UserAggregate.Suspend` | libs/contexts/src/identity/domain/user/aggregates/user.aggregate.ts:243-253 | the same |
| `User.UserAggregate.RecordFailedLogin` | libs/contexts/src/identity/domain/user/aggregates/user.aggregate.ts:255-265 | the same; a loop appends the entity's events |
| `User.UserAggregate.RecordSuccessfulLogin` | libs/contexts/src/identity/domain/user/aggregates/user.aggregate.ts:267-277 | the same |
| `User.UserAggregate.StartMfaSetup` | libs/contexts/src/identity/domain/user/aggregates/user.aggregate.ts:279-282 | the same; the instant passed on is 0 |
| `User.UserAggregate.CompleteMfaSetup` | libs/contexts/src/identity/domain/user/aggregates/user.aggregate.ts:284-287 | the same |
| `User.UserAggregate.DisableMfa` | libs/contexts/src/identity/domain/user/aggregates/user.aggregate.ts:289-292 | the same |
| `User.UserAggregate.RecordMfaUse` | libs/contexts/src/identity/domain/user/aggregates/user.aggregate.ts:294-297 | the same |
| `User.UserAggregate.SoftDelete` | libs/contexts/src/identity/domain/user/aggregates/user.aggregate.ts:299-303 | the same |

## Left out

- OutboxProcessor: the class handles the rows of a batch one after the other, where the source runs up to five at a time; a statement that fails there has not committed. The interleavings and lost replies are those of OutboxProtocol.
- IdempotencyServices: one undisturbed request; the interleavings are those of DurableStrategy and RedisStrategy.
- IdempotencyRegister: failing statements and failing Redis calls are assumed away, as stated above.
- ActionTokenServices.CleanupExpiredActionTokensService.Execute: requires a batch size other than 0, because Dafny accepts only loops that end; ExecuteUpTo and EndsIff cover every size, 0 included.
- ActionTokenServices.IssueActionTokenService.Execute: the caller's transaction, which also undoes the revocations when the insert fails, is not modelled; the contract says what the service leaves to it.
- User.UserAggregate.UpdateProfile: whether a name or phone is accepted is decided by its value object, which is not modelled; the command carries the verdict.
- DatabaseContext.DatabaseContextService.Command: setting the store on the transaction can fail, but what row-level security then hides is not modelled, nor are queries; rows are numbered in insertion order.
- IdempotencyServices.ScopesAreApart: the cache is keyed by header and scope, not by their joined string; RedisKeysMeetIff says for which scopes that differs.
- OutboxRepository: trace, correlation, partition and payload columns, the cancelled status (no code sets it), and max-attempt job options of the queue; removal of finished jobs by BullMQ.
- PriceTimeline: concurrent inserts, which the trigger serialises with FOR UPDATE only when an open row exists, and row-level security.
- The listener on database notifications: the outbox does not depend on it, a cron poll every ten seconds does the same.
- Validation of emails, phones, names and password hashes; mappers and snapshots: they would only add easy members. Of the framework's own error handling only its bare 500 for unknown errors is assumed.
- Logging, tracing, metrics, module wiring, interceptors, guards, DTOs, e-mail, and the internals of Postgres, Redis, BullMQ and cryptography.
