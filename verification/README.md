# TaskFlow scheduler core

A model of the scheduling half of TaskFlow and proofs about it. A client submits a task; the scheduler gives it a
64-bit id, stores a record in Redis and pushes the id on one of three priority lists. One loop pops ids, asks a load
balancer for a worker and records the assignment; completions, failures and retries come back on other threads.
Around that sit a circuit breaker per worker, a pool of Redis connections and the id generator.

Each object the source updates in place is a class here, with the source's fields; each of its methods is proved
against a function on the value of those fields, and the theorems about runs are proved about these functions.

| module | models |
|---|---|
| `Texts`, `Division`, `Bits` | byte strings, map order, decimal numerals; quotients; 64-bit words |
| `Snowflakes` | the id generator over an arbitrary clock, and the packing of its ids |
| `Hashing` | the ring hash on 64-bit words |
| `CircuitBreakers` | the timed three-state breaker and its histories |
| `LoadBalancers`, `Balancing` | the balancer object; what its selections and its reconciliation promise over runs |
| `Selections` | who can be chosen, who is, and how the counter moves, said of the fields alone |
| `BreakerRuns`, `WorkerRuns` | the breakers and the workers inside the balancer, over runs of its operations |
| `RedisStores`, `RedisPools` | the data in Redis with the task operations on it; the connection pool |
| `Dispatching`, `Schedulers` | the dispatcher's methods; the scheduler's dispatch and check loops |
| `DispatchRecords` | what each dispatcher call does to the record a reader sees |
| `DispatchBreakers` | what dispatcher calls tell the breakers, and whom that excludes |
| `DispatchRuns`, `DispatchWitnesses` | runs of whole dispatcher calls: load counters, the balancer's mirror, exceptions; runs that miscount |
| `DispatchSpreads` | how even least-connection dispatching keeps the counters |
| `Delivery`, `DeliveryCalls` | the same calls one Redis command at a time, on any number of threads, with the balancer; that a call left alone is the call of `Dispatching` and a round of the loop that of `Schedulers` |
| `DeliveryRecords`, `DeliveryIds` | queues against records under every interleaving; why submitted ids are new |
| `DeliveryRetries`, `DeliveryAdmissions` | how often a task is retried and delivered, under every interleaving; the guard of a retry |
| `DeliveryLoads`, `DeliveryMirror` | load counters and the balancer's copy of them, under every interleaving |
| `DeliveryFaults` | exceptions under every interleaving |

Granularity. The dispatcher declares a mutex and never takes it (include/scheduler/task_dispatcher.h:59), so its
methods interleave at Redis commands. `DispatchRuns` takes each call as one step; the `Delivery` modules take each
command as one step. Methods of the balancer, the breaker, the generator and the pool hold a lock and are one step.

## Where the code falls short of what it is for

- Two retries of one task that overlap defeat the bound of 3, in two ways: they can lose an increment of the count
  (`DeliveryRetries.OverlapIsUnbounded`), and they can pass the guard together and count in turn
  (`OvershootWithoutStaleWrite`). The count is exact at every moment if and only if no write of it was stale
  (`CountIsExactUnlessStale`). At most three retries are ever admitted if and only if the guard passes none when three
  have been, pushed or not (`DeliveryAdmissions.RoomUnlessOveradmitted`); and once more have been, and none of them is
  about to throw, they can go on to push more than three times, and only then (`GoingOnPassesThreeExactly`). Retries
  that do not overlap stay within the bound (`DeliveryRetries.RetriesAreBounded`).
- Two releases of one worker can take its last slot twice; the counter then goes negative
  (`DeliveryLoads.OverlapGoesNegativeExactlyAtOne`, reached in `DeliveryFaults.LastSlotFreedTwice`). Every release that
  decides to free a slot has one if and only if none reads a slot as taken that others have already decided to free
  (`CoversUnlessOversold`), and then the counter is never negative; once one has, the releases under way can take it
  below 0, and only then (`ActsGoNegativeExactly`). Releases of a worker that do not overlap never oversell.
- An assignment records its worker before it counts it. A completion, failure or retry of the task in between reads a
  counter that need not exist, and `std::stoll("")` throws (`DeliveryFaults.EarlyReleaseThrows`); the connection it
  holds is then never given back. A call throws exactly if it releases in that window of the worker's first
  assignment, or reads a retry count beyond 32 bits (`CallThrowsExactly`; reached too, `CountOverflowThrows`). Releases that follow completed assignments
  never do, and with retries that do not overlap no call throws at all (`NoStepThrows`). Taken whole, calls never throw
  from a sound store (`DispatchRuns.NoCallThrows`).
- `failTask` and `retryTask` both release the slot and neither clears the recorded worker, so failing and then
  retrying releases twice (`DispatchWitnesses.FailAndRetryMiscounts`). And a task retried while still queued is queued twice, so it can be assigned again while its
  first assignment is outstanding, whose slot no release can name any more (`ReassignmentStrands`). A counter is the number of outstanding
  assignments throughout a run if and only if neither happens (`DispatchRuns.CountsExactlyUnless`); stranded slots
  stay counted (`LoadCountsOutstanding`).
- A call reads the counter back and then writes it into the balancer, so a later writer can write an older value. When
  no such write is pending, the balancer's load is the counter exactly if the last value written was the counter's
  when it was written (`DeliveryMirror.MirrorAgreesExactly`); `LateWriteGoesWrong` is a run in which it stays wrong. If
  no counter changes while a copy of it is still to be written, that cannot happen (`MirrorAgreesWhenSpaced`).
- The repository's README announces an exponential back-off. The code computes 1, 2 and 4 seconds and sets a key that
  nothing reads; the task is queued at once.
- The test for a missing record cannot fire for a non-empty id, because `getTask` always sets the id. A missing
  record reads as whatever memory held (`junk` in the model), so theorems about records ask that retried and
  finished tasks were saved; `DispatchRecords.MissingIsAssigned` and `MissingIsRetried` say what happens otherwise.
- Round robin stays fair across a wrap of its 64-bit counter exactly when the number of workers divides 2^64
  (`Balancing.WrapIsFairExactly`; with three, one worker is missed, `ThreeWorkersMissOne`). Ids are ordered for 2^42 milliseconds around the epoch and no longer
  (`Snowflakes.OrderBreaksExactlyPastWindow`, `OrderBreaksAtWindowEnd`).

## Model

| member | source | states |
|---|---|---|
| Texts.NumeralRoundTrip | src/common/redis_client.cpp:354-369 | parsing a printed 64-bit integer gives it back, whatever its sign |
| Texts.StollReadsPrefix | src/common/redis_client.cpp:354-360 | parsing reads the run of digits after an optional minus sign, ignores the rest, and throws on numbers that do not fit and without a digit |
| Texts.StollRejects | src/common/redis_client.cpp:354-360 | parsing throws on a text that begins with anything but a blank, a sign or a digit |
| Texts.ToStringInjective | src/scheduler.cpp:42 | different ids print differently |
| Texts.LessIsLexicographic | src/scheduler/load_balancer.cpp:131 | the order of map keys is that of the first differing byte, a proper prefix coming first |
| Texts.InOrder | src/scheduler/load_balancer.cpp:131 | the keys of a map, each once, in strictly ascending byte order |
| Snowflakes.Snowflake.Init | src/common/snowflake.cpp:12-18 | accepts exactly the worker ids 0 to 31 and sets only that field |
| Snowflakes.Snowflake.NextId | src/common/snowflake.cpp:25-50 | the fields and the answer of a call, for every sequence of clock readings; a refused call changes nothing |
| Snowflakes.Snowflake.WaitNextMillis | src/common/snowflake.cpp:52-59 | ends with the first reading later than the last timestamp, none before it being later, and waits on exactly when there is none |
| Snowflakes.NextFollows | src/common/snowflake.cpp:30-44 | a call throws exactly on an earlier reading, blocks exactly when the millisecond is used up and no later reading comes, and otherwise issues the gap-free successor: of its first reading, or, the millisecond used up, of the first later one |
| Snowflakes.NextSequence | src/common/snowflake.cpp:36 | masking the increment counts modulo 4096 |
| Bits.OrAndByBits | src/common/snowflake.cpp:36-49 | the word operations act bit by bit |
| Snowflakes.IdIsSum | src/common/snowflake.cpp:46-49 | shifts and ORs are the arithmetic sum of the fields modulo 2^64, counted from 1609459200000 ms, for every timestamp |
| Snowflakes.IdIsExactInWindow | src/common/snowflake.cpp:46-49 | the id is the plain sum if and only if the timestamp is within 2^41 ms of the epoch, and then non-negative exactly from the epoch on |
| Snowflakes.DecodeUndoesPacking | src/common/snowflake.cpp:46-49 | all four fields can be read back from the id |
| Snowflakes.IdsAreUnique | include/common/snowflake.h:26-37 | two ids are equal exactly when all four fields are, so generators with different worker ids never share one |
| Snowflakes.IdsOrderAsFields | include/common/snowflake.h:34-37 | ids order as (timestamp, datacenter, worker, sequence) |
| Snowflakes.StampsIncrease | src/common/snowflake.cpp:25-50 | over every run and every clock, backward jumps included, stamps strictly increase and are numbered without gaps inside a millisecond |
| Snowflakes.MillisecondHolds4096 | src/common/snowflake.cpp:35-39 | at most 4096 ids carry one millisecond |
| Snowflakes.IdsIncrease | src/common/snowflake.cpp:25-50 | the ids of a run strictly increase while the clock is in the window |
| Snowflakes.TaskIdsAreFresh | src/scheduler.cpp:42 | the printed ids of two submissions of a run differ |
| Snowflakes.OrderBreaksExactlyPastWindow | src/common/snowflake.cpp:46 | a later stamp has the larger id if and only if it is still in the window |
| Snowflakes.OrderBreaksAtWindowEnd | src/common/snowflake.cpp:46 | the first millisecond past the window yields negative ids after positive ones |
| Hashing.Hash | src/scheduler/load_balancer.cpp:212-218 | the shift-and-add loop computes 5381 * 33^n plus the base-33 sum of the signed characters, modulo 2^64 |
| Hashing.HashOfConcat | src/scheduler/load_balancer.cpp:212-218 | the hash of a concatenation from the hash of its first part |
| Hashing.NearNamesNeverCollide | src/scheduler/load_balancer.cpp:212-218 | names that differ only in a short stretch of characters at most 32 apart have different hashes |
| Hashing.WorkerNamesNeverCollide | src/worker.cpp:178 | "worker-m" and "worker-n" have different hashes for all 32-bit m and n that differ, of any lengths |
| CircuitBreakers.CircuitBreaker.AllowRequest | src/common/circuit_breaker.cpp:12-39 | answer and new state; OPEN admits exactly from the timeout after the last failure and then turns HALF_OPEN |
| CircuitBreakers.CircuitBreaker.RecordSuccess | src/common/circuit_breaker.cpp:41-52 | the whole new state |
| CircuitBreakers.CircuitBreaker.RecordFailure | src/common/circuit_breaker.cpp:54-67 | the whole new state |
| CircuitBreakers.CircuitBreaker.ResetBreaker | src/common/circuit_breaker.cpp:82-85 | the whole new state |
| CircuitBreakers.CircuitBreaker.TripOpen | src/common/circuit_breaker.cpp:87-91 | OPEN, no successes, the rest unchanged |
| CircuitBreakers.CircuitBreaker.ResetToClosed | src/common/circuit_breaker.cpp:99-104 | CLOSED with both counters 0, last failure time unchanged |
| CircuitBreakers.RangesInductive | src/common/circuit_breaker.cpp:41-67 | the success counter's range in each state, and the failure counter's while CLOSED, are kept by every history |
| CircuitBreakers.FailuresStayCounted | src/common/circuit_breaker.cpp:54-67 | out of CLOSED the failure counter is at least the threshold, over every history with too few failures to wrap 32 bits |
| CircuitBreakers.WrapLosesCount | src/common/circuit_breaker.cpp:57 | the failure that wraps the counter takes it below every threshold and leaves the breaker OPEN |
| CircuitBreakers.CountIsUncleared | src/common/circuit_breaker.cpp:44-57 | over every history the count is the number of failures recorded since a success or reset last left the breaker CLOSED, wrapped at 32 bits |
| CircuitBreakers.FailureTimeIsLatest | src/common/circuit_breaker.cpp:54-67 | over every history from every state the failure time is that of the latest failure, the one that tripped the breaker included |
| CircuitBreakers.AdmitsExactly | src/common/circuit_breaker.cpp:12-39 | after any history a request is admitted if and only if the breaker is not OPEN or the timeout has passed since the latest failure in it |
| CircuitBreakers.TripsExactlyAtThreshold | src/common/circuit_breaker.cpp:49-65 | a closed breaker trips at the call that completes the threshold of failures with no success between, and not before |
| CircuitBreakers.SecondsFloorIsExact | src/common/circuit_breaker.cpp:21-25 | the whole-second comparison as an exact one in nanoseconds, for every timeout and sign |
| CircuitBreakers.OpenUntilTimeout | src/common/circuit_breaker.cpp:19-31 | while OPEN nothing is admitted until the timeout after the latest failure, failures recorded meanwhile included; what ends OPEN |
| CircuitBreakers.TrialEndsExactly | src/common/circuit_breaker.cpp:44-48 | a trial ends by one failure, by a reset, or by exactly the threshold of successes |
| CircuitBreakers.TrialHasOrigin | src/common/circuit_breaker.cpp:25-28 | every HALF_OPEN breaker was admitted out of OPEN and has seen no failure nor reset since; its counter is the successes since |
| CircuitBreakers.ClosedRegainedOnlyBy | src/common/circuit_breaker.cpp:44-48 | the call by which a breaker closes, every time it does, is a reset or completes a trial of exactly the threshold of successes and no failure |
| CircuitBreakers.ClosesAfresh | src/common/circuit_breaker.cpp:99-104 | every closing call leaves both counters at 0 |
| CircuitBreakers.TripsAgainExactly | src/common/circuit_breaker.cpp:54-65 | after a closing the breaker stays closed over what follows if and only if that never brings the threshold of failures with no success between |
| CircuitBreakers.LastClosing | src/common/circuit_breaker.cpp:99-104 | a breaker closed now and not closed before has such a closing call, and has stayed closed since |
| LoadBalancers.LoadBalancer.UpdateWorkers | src/scheduler/load_balancer.cpp:28-77 | the new state is the reconciliation with the list; new breakers are new objects |
| LoadBalancers.LoadBalancer.EraseUnlisted | src/scheduler/load_balancer.cpp:68-76 | erasing while iterating removes exactly the unlisted workers and their breakers |
| LoadBalancers.LoadBalancer.UpdateWorkerLoad | src/scheduler/load_balancer.cpp:79-87 | sets the load of a known worker and nothing else |
| LoadBalancers.LoadBalancer.RemoveWorker | src/scheduler/load_balancer.cpp:89-96 | removes the worker and its breaker and nothing else |
| LoadBalancers.LoadBalancer.MarkWorkerDead | src/scheduler/load_balancer.cpp:98-106 | sets the status of a known worker and nothing else |
| LoadBalancers.LoadBalancer.SelectWorker | src/scheduler/load_balancer.cpp:108-126 | every answer is one the strategy allows; the new state, breakers asked but not chosen included |
| LoadBalancers.LoadBalancer.RoundRobinSelect | src/scheduler/load_balancer.cpp:128-147 | the eligible worker the counter points at in key order; the counter advances modulo 2^64 only if there is one |
| LoadBalancers.LoadBalancer.LeastConnectionSelect | src/scheduler/load_balancer.cpp:149-170 | the smallest load, and the smallest id among those |
| LoadBalancers.LoadBalancer.ConsistentHashSelect | src/scheduler/load_balancer.cpp:172-210 | the choice of the ring, or of least connection without a task id; "" exactly when nobody is eligible |
| LoadBalancers.LoadBalancer.RingSelect | src/scheduler/load_balancer.cpp:177-209 | sort and scan return a circular successor of the task's hash |
| LoadBalancers.Sort | src/scheduler/load_balancer.cpp:197-201 | an order by hash, a permutation of the input, nothing said about equal hashes |
| LoadBalancers.Scan | src/scheduler/load_balancer.cpp:203-209 | the first place at or after the hash, else the first of all, is nearest clockwise |
| LoadBalancers.LoadBalancer.IsWorkerAvailable | src/scheduler/load_balancer.cpp:245-263 | true exactly for eligible workers; asking may turn an expired breaker HALF_OPEN |
| LoadBalancers.LoadBalancer.RecordSuccess | src/scheduler/load_balancer.cpp:265-272 | passes the event to the worker's breaker and touches no other |
| LoadBalancers.LoadBalancer.RecordFailure | src/scheduler/load_balancer.cpp:274-285 | passes the event to the worker's breaker and touches no other |
| Balancing.AnswerIsEligible | src/scheduler/load_balancer.cpp:108-195 | every strategy answers a worker of the eligible set, and "" exactly when that is empty |
| Selections.AnswersAreAvailable | src/scheduler/load_balancer.cpp:108-195 | every answer is an active worker whose breaker, if it has one, is not OPEN or saw its latest failure at least 30 s ago, and "" is answered exactly when no worker is that |
| Selections.AskedIsAvailable | src/scheduler/load_balancer.cpp:245-263 | asking after one worker says exactly that of it |
| Selections.ListedAreAvailable | src/scheduler/load_balancer.cpp:32-66 | after a reconciliation exactly the listed workers that are new, or could be chosen before, can be chosen; a new one has load 0 |
| Selections.LeastConnectionAnswers | src/scheduler/load_balancer.cpp:149-175 | no such worker has less load than the answer, nor the same load and a smaller id; a task without an id under consistent hashing included |
| Selections.ConsistentHashAnswers | src/scheduler/load_balancer.cpp:177-209 | going up from the task's hash and on from 0, no such worker's hash comes before the answer's |
| Selections.RoundRobinAnswers | src/scheduler/load_balancer.cpp:128-147 | of n such workers the answer is the one with as many smaller ids among them as the counter leaves modulo n |
| Selections.CounterCountsRounds | src/scheduler/load_balancer.cpp:141-145 | over every run of balancer operations the counter advances, modulo 2^64, at the round-robin selections that find a worker and at nothing else |
| Selections.CounterCountsAnswers | src/scheduler/load_balancer.cpp:141-145 | after any run of selections the counter is the initial one plus the number of answers that name a worker, modulo 2^64 |
| Balancing.SelectionOnlyHalfOpensExpired | src/scheduler/load_balancer.cpp:131-139 | a selection moves the expired OPEN breakers of active workers to HALF_OPEN, chosen or not, and does nothing else |
| Balancing.RingChoiceUnique | src/scheduler/load_balancer.cpp:197-209 | with distinct hashes one worker is the circular successor, whatever the sort does; with collisions one place is |
| Balancing.CollidingNamesTie | src/scheduler/load_balancer.cpp:212-218 | "ab" and "bA" collide, so either may be chosen |
| Balancing.DeathMovesOnlyItsOwnTasks | src/scheduler/load_balancer.cpp:177-209 | on the ring, a worker's death changes no task's choice but of those that had chosen it |
| Balancing.JoiningMovesTasksOnlyToItself | src/scheduler/load_balancer.cpp:177-209 | on the ring, a new worker changes a choice only to itself |
| Balancing.RemovalIsMinimal | src/scheduler/load_balancer.cpp:177-209 | taking any eligible worker away keeps every other choice, up to colliding hashes |
| Balancing.AdditionIsMinimal | src/scheduler/load_balancer.cpp:177-209 | adding any eligible worker changes choices only to it, up to colliding hashes |
| Balancing.WorkerNamesHaveDistinctHashes | src/worker.cpp:178 | the names workers register under always meet that condition |
| Balancing.ReconciliationIsExact | src/scheduler/load_balancer.cpp:28-77 | workers and breakers are exactly the listed ids for any list with duplicates; survivors keep load, status and breaker, new ones get a closed breaker with nothing counted; the last duplicate gives address and port; strategy and counter stay |
| Balancing.KeysAlwaysAgree | src/scheduler/load_balancer.cpp:28-106 | over every run, every worker has a breaker and every breaker a worker |
| Balancing.DeadStaysUnchosen | src/scheduler/load_balancer.cpp:98-106 | over every run, a worker marked dead is never selected until it has been dropped |
| WorkerRuns.WorkerIsItsHistory | src/scheduler/load_balancer.cpp:28-106 | over every run that does not drop it, a worker's load is the one last written, it is dead if and only if it was or was marked so, and address, port and heartbeat are those of its latest listing |
| WorkerRuns.KnownIsListed | src/scheduler/load_balancer.cpp:28-96 | over every run the balancer knows a worker, and has a breaker for it, if and only if the latest list named it, or there was none and it was known, and it was not removed since |
| BreakerRuns.BreakerIsItsHistory | src/scheduler/load_balancer.cpp:108-285 | over every run that does not drop the worker, its breaker (3 failures, 30 s, 1 success) has been through exactly the failures, successes and askings addressed to that worker, in order |
| BreakerRuns.AvailableAfterRun | src/scheduler/load_balancer.cpp:108-285 | so an active worker can be chosen after it if and only if that history does not leave its breaker OPEN with the latest failure less than 30 s ago |
| BreakerRuns.FewFailuresKeepAvailable | src/common/circuit_breaker.cpp:54-66 | an active worker that never had three failures with no success between can be chosen at every moment |
| BreakerRuns.ThirdFailureExcludes | src/common/circuit_breaker.cpp:19-31 | the third such failure takes the worker out of every answer until 30 s after the latest, whatever but a reset is recorded or asked meanwhile |
| BreakerRuns.SuccessfulTrialRestores | src/common/circuit_breaker.cpp:44-48 | a request from then on is let through, and one success closes the breaker with nothing counted, so the worker can be chosen at every moment again |
| BreakerRuns.FailedTrialExcludes | src/common/circuit_breaker.cpp:60-61 | a failure of the trial takes the worker out for exactly the 30 s after it |
| Balancing.RoundRobinIsFair | src/scheduler/load_balancer.cpp:145-146 | in selections of which k find the same n workers and the others nobody, in any order, each of the n is chosen floor(k/n) or ceil(k/n) times, if the counter does not wrap or n divides 2^64 |
| Balancing.WrapIsFairExactly | src/scheduler/load_balancer.cpp:145-146 | of the n selections that begin at the counter's last value the last worker gets its one if and only if n divides 2^64, and else none |
| Balancing.ThreeWorkersMissOne | src/scheduler/load_balancer.cpp:145-146 | a balancer of three workers whose three selections around the wrap leave one worker out |
| Balancing.LeastConnectionBalances | src/scheduler/load_balancer.cpp:149-170 | selecting and assigning never widens the spread beyond the larger of itself and 1, and after finitely many steps it is at most 1 for good |
| RedisStores.RedisServer.HSet | src/common/redis_client.cpp:196-205 | sets one field of one hash, creating it if need be |
| RedisStores.RedisServer.SaveTask | src/common/redis_client.cpp:376-393 | writes ten fields over whatever the hash held |
| RedisStores.RedisServer.GetTask | src/common/redis_client.cpp:343-374 | the decoded record; a missing one keeps the id and indeterminate integers; a malformed integer throws |
| RedisStores.RedisServer.UpdateTaskStatus | src/common/redis_client.cpp:395-412 | status, error text if not empty, finish time for statuses 2 and 3 |
| RedisStores.RedisServer.IncrementTaskRetry | src/common/redis_client.cpp:414-419 | the count plus one, 1 if absent, throws exactly on a malformed one |
| RedisStores.RedisServer.PushToPriorityQueue | src/common/redis_client.cpp:421-429 | appends to the high list for priority 2, the medium for 1, the low for every other number |
| RedisStores.RedisServer.PopFromPriorityQueue | src/common/redis_client.cpp:431-439 | the heads of the three lists in turn |
| RedisStores.RedisServer.IncrementWorkerLoad | src/common/redis_client.cpp:441-445 | one more, from 0 if absent |
| RedisStores.RedisServer.DecrementWorkerLoad | src/common/redis_client.cpp:447-454 | one less if positive; throws exactly on a missing counter |
| RedisStores.RedisServer.GetWorkerLoad | src/common/redis_client.cpp:456-460 | the counter, 0 if absent |
| RedisStores.SavedTaskReadsBack | src/common/redis_client.cpp:343-393 | every record reads back exactly as saved |
| RedisStores.FieldWriteIsLocal | src/common/redis_client.cpp:343-412 | a later single-field write changes that field of that record only |
| RedisStores.NarrowKeepsLowBits | src/common/redis_client.cpp:362-369 | a stored 64-bit value read into a 32-bit field keeps its low 32 bits, as a signed number |
| RedisStores.StoiReadsExactly | src/common/redis_client.cpp:417 | reading a count accepts exactly the numerals of 32-bit integers |
| RedisStores.PopTakesFront | src/common/redis_client.cpp:431-439 | a pop takes the earliest-pushed entry of those whose priority none outranks, 2 before 1 before every other number |
| RedisStores.ListsAreOnePriorityQueue | src/common/redis_client.cpp:421-439 | over every run of pushes and pops the three lists answer as one stable queue ordered by the numbers pushed, 2 before 1 before every other, "" only when it is empty |
| RedisStores.EmptyListsAreOnePriorityQueue | src/common/redis_client.cpp:421-439 | in particular from empty lists on |
| RedisStores.PopTakesOne | src/common/redis_client.cpp:431-439 | a pop takes exactly the id it answers out of the queues |
| RedisPools.RedisClient.Connect | src/common/redis_client.cpp:22-45 | connected afterwards exactly if it was or the server is reachable |
| RedisPools.RedisPool.constructor | src/common/redis_client.cpp:462-474 | holds exactly the clients that connected, distinct and free |
| RedisPools.RedisPool.GetConnection | src/common/redis_client.cpp:481-502 | leases the first free client, else a new one if it connects; null exactly when neither |
| RedisPools.RedisPool.ReturnConnection | src/common/redis_client.cpp:504-513 | frees the slot of that client only; a stranger changes nothing |
| RedisPools.RedisPool.GetActiveConnections | src/common/redis_client.cpp:515-522 | the number of leased slots |
| RedisPools.LeasesAreExclusive | src/common/redis_client.cpp:481-513 | over every run in which threads return what they hold, no client is in two hands, and a slot is in use exactly while one thread holds it |
| RedisPools.StrayReturnBreaksExactly | src/common/redis_client.cpp:504-513 | returning a client one does not hold breaks that if and only if someone holds it |
| RedisPools.PoolIsTight | src/common/redis_client.cpp:462-502 | the pool's length is the larger of the initial connections and the peak of concurrent leases |
| RedisPools.SettledLeavesLeases | src/scheduler/task_dispatcher.cpp:12-177 | a dispatcher call leaves the leases as it found them on every path, except the one it leaks if an exception leaves it |
| Dispatching.TaskDispatcher.SubmitTask | src/scheduler/task_dispatcher.cpp:12-43 | record saved and queued, leases as before; false and nothing changed exactly without a connection |
| Dispatching.TaskDispatcher.PopNextTask | src/scheduler/task_dispatcher.cpp:45-60 | the pop, leases as before; "" and nothing changed without a connection |
| Dispatching.TaskDispatcher.AssignTaskToWorker | src/scheduler/task_dispatcher.cpp:62-93 | the new store and balancer, the answer and the leases, on every path |
| Dispatching.TaskDispatcher.CompleteTask | src/scheduler/task_dispatcher.cpp:95-116 | the new store, balancer and breaker, the answer and the leases, on every path |
| Dispatching.TaskDispatcher.FailTask | src/scheduler/task_dispatcher.cpp:118-138 | the new store, balancer and breaker, the answer and the leases, on every path |
| Dispatching.TaskDispatcher.RetryTask | src/scheduler/task_dispatcher.cpp:140-177 | the new store and balancer, the answer and the leases, on every path |
| DispatchRecords.SubmitRecords | src/scheduler/task_dispatcher.cpp:19-34 | the record reads back as the request with status and count 0; the id is at the tail of its class; nothing else changes |
| DispatchRecords.AssignRecords | src/scheduler/task_dispatcher.cpp:69-85 | status 1, start time and worker change in the record, one counter goes up, nothing else changes; the call returns true |
| DispatchRecords.MissingIsAssigned | src/scheduler/task_dispatcher.cpp:69-85 | a task without a record is assigned too, whatever memory held, and from then on has one of type 0 and priority 0 |
| DispatchRecords.EmptyIsRefused | src/scheduler/task_dispatcher.cpp:70-74 | the empty id is refused and nothing changes |
| DispatchRecords.CompleteRecords | src/scheduler/task_dispatcher.cpp:102-108 | status 2, finish time and result change in the record, one slot is freed, the worker stays recorded; it throws exactly if that worker has no counter, the record written all the same |
| DispatchRecords.FailRecords | src/scheduler/task_dispatcher.cpp:125-130 | status 3, finish time and a non-empty error text change in the record, one slot is freed, the worker stays recorded; it throws exactly if that worker has no counter, the record written all the same |
| DispatchRecords.RetryRecords | src/scheduler/task_dispatcher.cpp:147-172 | from count 3 on nothing happens, nor, with an exception, if the recorded worker has no counter; otherwise only the count changes in the record, the back-off is 2^count and the id joins the tail of its queue at once |
| DispatchRecords.MissingIsRetried | src/scheduler/task_dispatcher.cpp:147-172 | a retry of a task without a record is refused or not by whatever memory held; if not, it is queued at low priority with a count of 1 |
| DispatchBreakers.BreakerIsWhatItWasTold | src/scheduler/task_dispatcher.cpp:107-133 | over every run of whole dispatcher calls and balancer operations a worker's breaker has been through a success for each completion and a failure for each failure of a task recorded on it, what the operations say, and nothing else |
| DispatchBreakers.ThreeReportsExclude | src/scheduler/task_dispatcher.cpp:129-133 | if a run tells a new breaker up to three failures and nothing else, the third takes the worker out of every answer for exactly 30 s from then, and fewer do not |
| DispatchRecords.FailRetryComplete | src/scheduler/task_dispatcher.cpp:12-177 | a task that fails, is retried and completes: its final record field by field, queued twice, three releases for two assignments leave the counter at 0 |
| Schedulers.DispatchRound | src/scheduler.cpp:194-223 | every way a round can end, exactly when it ends so, and the store, balancer and leases it leaves then |
| Schedulers.PutBack | src/scheduler.cpp:204-214 | a requeue goes to the tail of the list of the stored priority; the task is lost exactly without a connection; a malformed record throws |
| Schedulers.RoundConservesTasks | src/scheduler.cpp:194-223 | what leaves the queues in a round is the one task it dispatched, lost or crashed on; it loses one only for want of a connection, crashes only on a malformed record and idles only without a connection or a task |
| Schedulers.CheckHeartbeats | src/scheduler.cpp:176-186 | exactly the workers silent for more than 15000 ms become dead, nothing else changes |
| DispatchRuns.LoadStep | src/scheduler/task_dispatcher.cpp:85-159 | a call moves a counter by one, only of the worker it takes or frees, and never below 0 |
| DispatchRuns.LoadIsLargestSuffix | src/common/redis_client.cpp:441-454 | for every run from 0 a load is the largest excess of assignments over releases in a final stretch of it |
| DispatchRuns.LoadCountsOutstanding | src/scheduler/task_dispatcher.cpp:80-159 | if each assignment is released at most once before the task is assigned again, a load is the number of outstanding assignments and of those a reassignment has stranded |
| DispatchRuns.CallKeepsCountExactly | src/scheduler/task_dispatcher.cpp:85-159 | a call keeps a load equal to the outstanding assignments if and only if it does not assign a task outstanding on the worker, nor release a taken slot that nothing outstanding holds |
| DispatchRuns.CountsExactlyUnless | src/scheduler/task_dispatcher.cpp:80-159 | for every run, disciplined or not, a load is the number of outstanding assignments throughout if and only if no call of it does either |
| DispatchWitnesses.FailAndRetryMiscounts | src/scheduler/task_dispatcher.cpp:125-159 | a run after which a task is outstanding on a worker whose load is 0, because another was failed and then retried |
| DispatchWitnesses.ReassignmentStrands | src/scheduler/task_dispatcher.cpp:85-172 | a run with no stray release after which a worker with nothing outstanding has load 1, because its task was queued and assigned twice |
| DispatchRuns.OutstandingIsRecorded | src/scheduler/task_dispatcher.cpp:82 | while an assignment is outstanding the record names its worker |
| DispatchRuns.CallsKeepMirror | src/scheduler/task_dispatcher.cpp:87-88 | every dispatcher call keeps every worker's mirrored load equal to the counter |
| DispatchRuns.MirrorBreaksExactly | src/scheduler.cpp:151-163 | a balancer operation breaks that if and only if it writes another load or introduces the worker while its counter is not 0 |
| DispatchRuns.MirrorAgrees | src/scheduler/load_balancer.cpp:79-87 | over every run of whole calls without those operations the balancer's load is the counter after every call |
| DispatchRuns.SelectThenAssignRaisesLeast | src/scheduler/task_dispatcher.cpp:85-88 | selecting and then assigning is the step of the least-connection theorem |
| DispatchSpreads.DispatchKeepsMirror | src/scheduler/task_dispatcher.cpp:85-88 | selecting and then assigning keeps the balancer's loads of all eligible workers equal to their counters |
| DispatchSpreads.DispatchesBalance | src/scheduler.cpp:202-220 | over a run of selections and assignments from a mirrored state the spread of the Redis loads never grows beyond the larger of itself and 1, and after finitely many it is at most 1 for good |
| DispatchRuns.NoCallThrows | src/common/redis_client.cpp:447-454 | over every run of whole calls from a sound store no numeral is malformed and no counter missing, so no call throws and every lease is returned |
| DispatchRuns.EmptyStoreIsSound | src/scheduler/task_dispatcher.cpp:12-43 | the empty store is sound |
| Delivery.DeliveryBalances | src/scheduler.cpp:194-223 | over every interleaving of single commands, for every id: submit pushes plus retry pushes equal queued plus held plus taken to a worker, plus dropped for the empty id |
| Delivery.StepBalances | src/scheduler/task_dispatcher.cpp:34-172 | every single command keeps that balance |
| DeliveryCalls.SubmitAlone | src/scheduler/task_dispatcher.cpp:28-42 | the commands of a submission, uninterrupted, end as the method: same answer, store and balancer |
| DeliveryCalls.CompleteAlone | src/scheduler/task_dispatcher.cpp:102-115 | the commands of a completion, uninterrupted, end as the method: same answer or exception, store and balancer, breakers included |
| DeliveryCalls.FailAlone | src/scheduler/task_dispatcher.cpp:125-137 | the commands of a failure, uninterrupted, end as the method: same answer or exception, store and balancer, breakers included |
| DeliveryCalls.RetryAlone | src/scheduler/task_dispatcher.cpp:147-176 | the commands of a retry, uninterrupted, end as the method: same answer or exception, store and balancer |
| DeliveryCalls.AssignAlone | src/scheduler/task_dispatcher.cpp:69-92 | the commands of an assignment, uninterrupted, leave what the method leaves, and stop the loop exactly where the method throws |
| DeliveryCalls.RoundAlone | src/scheduler.cpp:195-220 | the commands of a loop round, uninterrupted, are a dispatch round: how it ends, what it leaves of store, balancer and leases, and that the loop goes on unless it crashed |
| DeliveryRecords.RecordsStaySound | src/scheduler/task_dispatcher.cpp:28-172 | over every interleaving with new submissions, records, queues, loop and calls fit together for every id, and an id is submitted once |
| DeliveryRecords.QueuedTasksAreFiled | src/scheduler.cpp:209-212 | at every moment a queued id has a record, and its queue is the one of the stored priority |
| DeliveryIds.DistinctIdsAreProper | src/scheduler/task_dispatcher.cpp:28 | if no id is submitted twice, no submission finds its id in the store or in another call, so `saveTask` overwrites nothing |
| DeliveryIds.GeneratedIdsAreProper | src/scheduler.cpp:42 | every run from an empty store whose submissions take the generator's ids is such a run |
| DeliveryRetries.CountIsExactUnlessStale | src/common/redis_client.cpp:414-419 | over every interleaving the stored count is the number of retries at every moment if and only if no write of it was stale |
| DeliveryRetries.StepExact | src/common/redis_client.cpp:414-419 | one command keeps the count exact if and only if it is not a stale write |
| DeliveryRetries.RetriesAreBounded | src/scheduler/task_dispatcher.cpp:147-172 | when retries of a task do not overlap, it goes to workers at most 1 + count <= 4 times, is neither lost nor duplicated, and its back-offs are 1, 2, 4 |
| DeliveryRetries.LoneRunsStayOrderly | src/scheduler/task_dispatcher.cpp:147-172 | such runs keep what a retry has read current, and write nothing stale |
| DeliveryAdmissions.StepRoom | src/scheduler/task_dispatcher.cpp:147-161 | one command keeps the retries admitted, pushed or not, at three or fewer if and only if it is not the guard passing one when three have been |
| DeliveryAdmissions.RoomUnlessOveradmitted | src/scheduler/task_dispatcher.cpp:147-161 | over every interleaving at most three retries of a task are admitted, at every moment, if and only if the guard never does that |
| DeliveryAdmissions.RoomBoundsDelivery | src/scheduler/task_dispatcher.cpp:147-172 | then at most three retries count or push, and the task goes to workers at most four times |
| DeliveryAdmissions.GoingOnPassesThreeExactly | src/scheduler/task_dispatcher.cpp:155-172 | from any moment at which no admitted retry is about to throw, the admitted retries can push more than three times in all, by going on, if and only if more than three have been admitted |
| DeliveryRetries.OverlapIsUnbounded | src/scheduler/task_dispatcher.cpp:147-172 | for every k, k overlapping retries of one task all push and leave the count at 1 |
| DeliveryRetries.OvershootWithoutStaleWrite | src/scheduler/task_dispatcher.cpp:147-172 | for every k up to 2^31, k retries that pass the guard together and count in turn all push, leave the count at k and write nothing stale |
| DeliveryLoads.LevelIsLargestSuffix | src/common/redis_client.cpp:447-454 | under every interleaving in which releases of a worker do not overlap, its counter less the decrements decided is what whole calls would give, and never negative |
| DeliveryLoads.StepLevel | src/common/redis_client.cpp:441-454 | each such command acts as an increment or a floored decrement taken at one moment |
| DeliveryLoads.ReleaseKeepsFloorExactly | src/common/redis_client.cpp:449-452 | a decrement keeps the counter from going negative if and only if it decided not to act or a slot is still taken |
| DeliveryLoads.StepCovers | src/common/redis_client.cpp:449-452 | one command keeps a slot for every release that has decided to free one if and only if it is not a release that reads a slot as taken when none is left over |
| DeliveryLoads.CoversUnlessOversold | src/common/redis_client.cpp:447-454 | for every run, whether releases overlap or not, there is such a slot throughout if and only if no release reads so; and then the counter is never negative |
| DeliveryLoads.ActsGoNegativeExactly | src/common/redis_client.cpp:450-452 | from any moment of any run the releases that have read the counter can take it below 0, by acting, if and only if more of them have decided to than there are slots |
| DeliveryLoads.OverlapGoesNegativeExactlyAtOne | src/common/redis_client.cpp:449-452 | two releases, of completions, failures or retries, that both read first differ from one after the other, and go negative, exactly at load 1 |
| DeliveryMirror.StepCopy | src/scheduler/load_balancer.cpp:79-87 | what every single step does to the balancer's copy of a counter, and that a changed counter leaves a copy still to be written |
| DeliveryMirror.MirrorAgreesExactly | src/scheduler/task_dispatcher.cpp:87-158 | for every run of any calls and balancer operations: when no copy is still to be written, the balancer's load is the counter if and only if the last value written was the counter's at that moment |
| DeliveryMirror.MirrorAgreesWhenSpaced | src/scheduler/task_dispatcher.cpp:87-158 | if no counter changes while a copy of it is still to be written and no balancer operation writes another load, nothing outdated is written and the copy agrees whenever none is still to be written |
| DeliveryMirror.LateWriteGoesWrong | src/scheduler/task_dispatcher.cpp:87-131 | a run that ends with no copy to write, the counter at 0 and the balancer's load at 1 |
| DeliveryFaults.WorkersStayBacked | src/scheduler/task_dispatcher.cpp:82-85 | over every interleaving, a worker that a task's record or a call on the task names has a counter, unless the loop is between recording and counting that task's assignment to it |
| DeliveryFaults.CounterExistsExactly | src/common/redis_client.cpp:441-445 | a worker has a counter from its first counted assignment on, and not before |
| DeliveryFaults.CallThrowsExactly | src/common/redis_client.cpp:447-454 | over every interleaving with new submissions the next command of a call throws if and only if it releases between the recording and the counting of the worker's first assignment, or has read a retry count beyond 32 bits |
| DeliveryFaults.NoStepThrows | src/scheduler/task_dispatcher.cpp:82-161 | when releases follow completed assignments and retries of a task do not overlap, no command of any call throws |
| DeliveryFaults.LoopNeverStops | src/scheduler.cpp:209-220 | over every interleaving with new submissions no record the loop reads is malformed, so nothing stops it |
| DeliveryFaults.EarlyReleaseThrows | src/scheduler/task_dispatcher.cpp:82-85 | a run in which a failure reported during its task's assignment throws |
| DeliveryFaults.CountOverflowThrows | src/common/redis_client.cpp:416-417 | a run in which a retry reads a count beyond 32 bits and throws |
| DeliveryFaults.LastSlotFreedTwice | src/common/redis_client.cpp:449-452 | a run in which two releases make a counter negative |

## Left out

- gRPC services, the HTTP gateway, request parsing and JSON: plumbing around the calls modelled here.
- hiredis, sockets and failing commands: commands succeed once a connection is leased. Whether a connection attempt succeeds is a parameter; the command-by-command modules assume connections are to be had, and do not follow the leases of a call that throws.
- A pooled client that lost its connection: only connected clients enter the pool, so the reconnect branch of `getConnection` is not reached.
- etcd, the service registry, YAML configuration, logging, signals, start-up: the service list, strategy and ids are inputs.
- Clocks: readings are parameters, one per use; the breaker's clock is in nanoseconds, the wall clock in milliseconds. `last_check` is written and never read.
- Uninitialised integers (`started_at`, `finished_at` at submission, all of them in a missing record) are parameters.
- Key prefixes and the names of hash fields: records and counters are separate maps, field names an enumeration.
- Bytes of value 0 inside texts, which the C string interface to Redis cuts off: texts are taken whole.
- Load counters are integers: the text they are kept as, and `stoi` failing from 2^31 on, are not modelled.
- `char` is taken as signed, as on the platforms the build targets.
- `retry + 1` at the largest 32-bit count, which has no defined result: the model writes the next integer.
- Evaluation of `1 << retry_count` for a negative count, which has no defined result; the model gives 0 and no run from an empty store reaches it.
- The retry delay in real time and the expiry of its key: the code enforces neither.
- Waiting in the loops, and `g_running`: rounds follow each other.
- `getWorkers`, `getWorker`, `getWorkerCount`, `getTaskRetryCount`, `getTaskStatus`, `getTaskInfo`, queue sizes: reads. `setStrategy` is an arbitrary change of strategy; the names of the strategies are left out.
- The pointer `getWorker` returns, through which callers could change a worker without the lock.
- `CircuitBreakerManager`, `attemptReset`: not used by the balancer.
- `stats.cpp`, `tracker.cpp`, the task bodies of `worker.cpp`: read-only forwarding and simulation.
- Delivery.DeliveryBalances: a task that the loop pops but finds no connection for is lost in the code (`Schedulers.Round.Lost` models it); at command granularity connections are always to be had.
