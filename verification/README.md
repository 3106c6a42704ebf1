# rentfree: a verified model

rentfree is a two-layer cache (memory and Redis) with its own circuit breaker, retry
loop, bulkhead, asynchronous Redis writer and shutdown protocol. This project models that
logic in Dafny 4.11 and proves what it guarantees. `dafny verify dfyconfig.toml` checks
everything.

## How it is built

Code that updates an object in place is a `class` whose methods are proved against
specification functions on values. What the source promises is then proved about those
functions, for every input and every history, and where a method's result is given by such a
function its contract also says in plain terms what it comes to. Code that many goroutines run at once is, in
addition, a transition system in which every shared access is one label, and theorems are
about every run of labels.

| component | object, driven by one caller | every interleaving |
|---|---|---|
| circuit breaker | `BreakerClass.dfy` over `Breaker.dfy` | `BreakerProtocol.dfy` |
| retry and backoff | `Retry.dfy`, `Backoff.dfy` | |
| bulkhead | `Bulkhead.dfy` | `BulkheadProtocol.dfy`, `BulkheadQueue.dfy` |
| policy (bulkhead, retry, breaker, operation) | `Policy.dfy` | |
| Redis layer: connection, queue and worker | `RedisCache.dfy` | `LinkProtocol.dfy`, `AsyncWriter.dfy` |
| lookups and queued writes in Redis through the policy | `RedisThroughPolicy.dfy` | |
| manager: reads and writes of both layers | `Manager.dfy` | `Layers.dfy`, `LayersUse.dfy`, `Coherence.dfy` |
| manager: `GetOrCreate` | | `SingleFlight.dfy` |
| manager: `runBackground` and `CloseWithTimeout` | | `Shutdown.dfy` |
| metrics tracker | `Tracker.dfy`, `Percentile.dfy` | |
| clearing by pattern | `Pattern.dfy` | |

`Errors.dfy` holds the error values and the two retryability tests, `Counting.dfy` counts
threads at program points, `Outcomes.dfy` measures the run of failures that ends a log.

Inputs rather than code: the clock (an integer number of nanoseconds), the replies and
running times of a caller's operation, the random draws of the jitter, the moment a context
becomes done, whether a client call, a ping or a memory access succeeds, and what the
scheduler does. Mutexes, wait groups, channels and singleflight are primitives.

A closure that captures a component which may be switched off is an object with a nullable
field (`RetryClass.Attempt`, `BulkheadClass.Task`); `null` stands for the Disabled variants.

## Where the code and its documentation differ

The model follows the code.

- `maxConcurrent` does not bound running operations: queue slots run too
  (`MaxConcurrentIsExceeded`). `maxQueue` does not bound the queue, because its length is
  loaded before it is raised (`QueueIsUnbounded`); the calls between load and add are exactly
  what it can exceed its limit by (`QueueBound`, `QueueBoundTight`).
- `Allow` loads the state without the lock, so a stale reader can restart a half-open count
  or drag a closed breaker back into half-open (`AdmissionBoundTight`,
  `StaleReaderReopensClosed`); no other step leaves the documented edges
  (`UndocumentedEdgeIff`). A request that loaded Closed or HalfOpen before the circuit opened
  can be let in while it is open (`LetsInWhileOpenIff`, `StaleReaderLetInWhileOpen`). The cap of `halfOpenMaxRequests` holds when `Allow` is atomic
  (`AtomicAdmissionCap`).
- No constructor compares `successThreshold` with `halfOpenMaxRequests`. A breaker can always
  recover if and only if the first does not exceed the second (`RecoveryIff`).
- A cache miss in Redis counts as a failure for breaker and retry, although callers are told
  that it is not retryable (`ClassificationsDisagree`, `MissesOpenTheCircuit`). One lookup of
  an absent key asks Redis several times, and with the default attempts and threshold the
  second such lookup opens the circuit for every key (`AbsentKeyLookup`, `AbsentKeysOpenIff`,
  `PresentKeysAreRefused`).
- `internal/resilience/errors.go` means to retry refused and reset connections and passed
  deadlines, but its tests for them are dead: those errors implement `net.Error`, which the test
  before decides. A refused or reset connection is not retried (`SystemCallTestIsDead`,
  `RetryableIff`).
- `maxBackoff` caps the wait before jitter, not after it (`WaitWithinCapIff`, `RunWithinCapIff`).
- `GetOrCreate` fails without calling the factory while Redis is down
  (`NeverCalledWithRedisDown`); a cold caller reaches the factory only through a miss in
  Redis (`FactoryCalledIff`).
- A background populate can undo a newer write or a removal (`LatePopulateUndoes`,
  `WriteIsWhatIsReadIff`, `RemovedStaysRemovedIff`), and a batch read at the Redis-only level populates memory too
  (`PopulatesInvisibleIff`).
- `Close` of the Redis layer can leave it marked as connected, through a drained write or
  through a health check it waits for that had loaded the flag as down (`DownAfterCloseIff`,
  `ComesBackIff`).
- A write that may be forgotten is not forgotten at once when its queue is full or the link is
  down: it is retried with waits, counted as dropped once per attempt, and counted by the
  breaker, so a full queue closes Redis to reads (`RefusedWrite`, `RefusedWritesOpenIff`).
- Without health checks five failures in a row take the Redis layer down for good, because
  nobody is let through any more to clear them and nothing calls `Reconnect`
  (`FiveFailuresAreFinal`); a success can be
  lost against the fifth failure (`LostRevival`).
- Patterns with several stars, or with one star between overlapping parts, do not mean what
  a star pattern means (`AgreesIff`).

## Model

| member | source | states |
|---|---|---|
| BreakerSpec.Config.Normalised | internal/resilience/circuit.go:63-88 | each setting is judged by itself: a positive one is kept, any other becomes its default, so every breaker has positive thresholds |
| BreakerClass.CircuitBreaker.ChangeTo | internal/resilience/circuit.go:195-229 | a transition sets state, counters and opening time as the target state demands and does nothing when already there |
| BreakerClass.CircuitBreaker.Allow | internal/resilience/circuit.go:108-142 | the answer and the new fields are those of the replayed history with one more request |
| BreakerClass.CircuitBreaker.RecordSuccess | internal/resilience/circuit.go:145-165 | the fields stay the replay of the history with one more success |
| BreakerClass.CircuitBreaker.RecordFailure | internal/resilience/circuit.go:168-188 | the fields stay the replay of the history with one more failure |
| BreakerClass.CircuitBreaker.Reset | internal/resilience/circuit.go:271-279 | the fields stay the replay of the history with one more reset, which keeps the opening time |
| BreakerClass.CircuitBreaker.Execute | internal/resilience/circuit.go:91-105 | a refused call does not run the operation; an admitted one runs it once and records exactly its outcome at the time it ends |
| BreakerSpec.EveryHistoryWellFormed | internal/resilience/circuit.go:144-229 | over every history, no success is counted in Closed or Open, fewer than the threshold in Closed (failures) and HalfOpen (successes), and half-open admissions stay within the limit |
| BreakerSpec.OnlyDocumentedEdges | internal/resilience/circuit.go:107-188 | with an atomic Allow and apart from Reset only the four documented transitions occur, each on its own kind of event |
| BreakerSpec.OpenWindow | internal/resilience/circuit.go:107-188 | when every Allow is atomic, an open breaker stays open, keeps its opening time and refuses every request until openDuration has passed, whatever late outcomes are recorded |
| BreakerAutomaton.TrailingFailuresMeaning | internal/resilience/circuit.go:175-179 | the last n outcomes are all failures exactly when n is at most the length of the trailing run of failures |
| BreakerAutomaton.StepRefines | internal/resilience/circuit.go:107-188 | each event keeps the counters in step with the outcome-log automaton |
| BreakerAutomaton.BreakerRefinesAutomaton | internal/resilience/circuit.go:107-279 | for every history the counters implement the outcome-log automaton and give the same answer to every request |
| BreakerAutomaton.OpensExactlyOnThreshold | internal/resilience/circuit.go:175-179 | a closed breaker opens on an event if and only if it completes failureThreshold failures in a row |
| BreakerAutomaton.LeavesHalfOpenExactly | internal/resilience/circuit.go:152-188 | a half-open breaker closes on exactly the success that completes successThreshold and opens, from that time on, on any failure |
| BreakerProtocol.StepKeepsInv | internal/resilience/circuit.go:107-188 | every step of any request, tick or reset keeps: successes plus outstanding probes cover the admissions of the episode, and the admission bound |
| BreakerProtocol.HalfOpenNeverWedges | internal/resilience/circuit.go:107-188 | in every interleaving with successThreshold within the limit, a full half-open breaker has an admitted request of this episode that has still to report |
| BreakerProtocol.AdmissionBound | internal/resilience/circuit.go:107-142 | with the load as its own step, an episode admits at most (openBranchAdmissions - 1) * halfOpenMaxRequests + halfOpenRequests requests |
| BreakerProtocol.AdmissionBoundTight | internal/resilience/circuit.go:107-142 | for every k there is a reachable state in which k stale readers have admitted exactly k full rounds |
| BreakerProtocol.AtomicAdmissionCap | internal/resilience/circuit.go:130-137 | when every Allow is atomic, an episode admits at most halfOpenMaxRequests requests |
| BreakerProtocol.UndocumentedEdgeIff | internal/resilience/circuit.go:107-188 | a step of any interleaving leaves the documented edges if and only if it is the late locked section of a reader of Open that finds the circuit closed and the open period over |
| BreakerProtocol.StaleReaderReopensClosed | internal/resilience/circuit.go:109-125 | under every configuration a run without reset closes the circuit through successful probes and leaves a reader of Open behind whose locked section moves it from Closed to HalfOpen |
| BreakerProtocol.OpenWindowInterleaved | internal/resilience/circuit.go:107-188 | in every interleaving without reset the circuit stays open with its opening time and episode until openDuration has passed, and only requests that loaded Closed or HalfOpen before are let in |
| BreakerProtocol.LetsInWhileOpenIff | internal/resilience/circuit.go:108-141 | while the circuit is open a locked section lets its request in if and only if it had loaded Closed, or HalfOpen with a slot left over, or Open and the period is over |
| BreakerProtocol.StaleReaderLetInWhileOpen | internal/resilience/circuit.go:109-114 | under every configuration a run leads to such an admission at the moment the circuit has opened |
| BreakerProtocol.RecoverFromHalfOpen | internal/resilience/circuit.go:130-161 | from every half-open state of every interleaving some continuation without reset closes the breaker, when the thresholds fit |
| BreakerProtocol.DeadForever | internal/resilience/circuit.go:130-137 | once every slot is used and nobody has to report, no continuation without reset changes anything: every request at every later time is refused |
| BreakerProtocol.ReachDead | internal/resilience/circuit.go:72-83 | with successThreshold above the limit the sequential all-success run reaches such a state |
| BreakerProtocol.RecoveryIff | internal/resilience/circuit.go:72-188 | the breaker can close again from every reachable state if and only if successThreshold is at most halfOpenMaxRequests |
| Errors.ClassificationsDisagree | internal/resilience/errors.go:31-66 | the retry loop's test and the one published for callers disagree on exactly the stated causes: cache misses, a closed manager and invalid keys one way, bulkhead refusals and network or system call errors that are no timeouts the other |
| Errors.RetryableIff | internal/resilience/errors.go:31-66 | an error is retried if and only if its cause is neither an open circuit, nor a bulkhead refusal, nor a network or system call error that is no timeout |
| Errors.SystemCallTestIsDead | internal/resilience/errors.go:50-66 | whatever satisfies the tests for system calls and deadlines has been decided before; a refused or reset connection is not retried, however deep it is wrapped |
| Backoff.RetryConfig.Normalised | internal/resilience/retry.go:27-50 | each setting is judged by itself: a positive one is kept, any other becomes its default |
| Backoff.BaseBounds | internal/resilience/retry.go:147-154 | the base is positive, at most maxBackoff, and equals the smaller of maxBackoff and initial * m^(k-1) |
| Backoff.BaseRecurrence | internal/resilience/retry.go:147-154 | the first base is the smaller of initial and maxBackoff, and below the cap each further one is the multiplier times the one before |
| Backoff.BaseGrows | internal/resilience/retry.go:147-154 | with a multiplier of at least one the base never decreases from one attempt to a later one |
| Backoff.BaseShrinks | internal/resilience/retry.go:147-154 | with a multiplier of at most one the base never increases |
| Backoff.JitterBounds | internal/resilience/retry.go:156-161 | jitter keeps a wait within [0.75, 1.25) of the base |
| Backoff.JitterLinear | internal/resilience/retry.go:156-161 | the shift is proportional to base and draw, from a quarter less at no draw through the base at one half |
| Backoff.WaitBounds | internal/resilience/retry.go:147-164 | the wait lies in that range (or is the base without jitter), is not negative, and loses less than one nanosecond to truncation |
| Backoff.WaitWithinCapIff | internal/resilience/retry.go:151-161 | whatever is drawn the wait of an attempt stays within maxBackoff if and only if there is no jitter or 1.25 times its base does |
| Backoff.CappedWaitExceedsIff | internal/resilience/retry.go:151-161 | a capped wait exceeds maxBackoff exactly with jitter and a draw above one half |
| Backoff.RunWithinCapIff | internal/resilience/retry.go:60-161 | no wait of a run can exceed maxBackoff if and only if there is no jitter, no wait, or the largest base, the last or the first as the multiplier goes, leaves room for it |
| RetrySpec.Conservation | internal/resilience/retry.go:60-144 | in every run, cancelled or not, attempts equal retries plus successes plus failures, are at most maxAttempts, and the error is nil exactly on success |
| RetrySpec.GivesUpOnlyForCause | internal/resilience/retry.go:60-100 | a run stops before its last attempt only on success, on an error that is not retryable or on cancellation |
| RetrySpec.RunMeaning | internal/resilience/retry.go:60-144 | in every run the calls before the last failed with an error worth repeating, success and result are those of the last call, and a failed run was refused by the breaker, cancelled, or ends with the last call's error, final or out of attempts |
| RetrySpec.RunIsChain | internal/resilience/retry.go:63-97 | a run is a chain of attempts, each followed by exactly the wait computed for it, the last by none, a whole one or one the context cut short |
| RetrySpec.AnsweredMeaning | internal/resilience/retry.go:186-199 | with retry switched off a closure is one call, recorded once, or the breaker's refusal; otherwise a run |
| RetrySpec.TieMakesNoDifference | internal/resilience/retry.go:134-138 | when the context becomes done as the timer fires, either choice of the select leads to the same outcome, counters included |
| RetrySpec.BareRun | internal/resilience/retry.go:103-144 | without a breaker a run calls the operation once per attempt, and returns nil error and the result exactly when the last call succeeded |
| RetrySpec.OneOutcomePerCall | internal/resilience/policy.go:80-101 | a guarded run records, per call of the operation, exactly that call's outcome in call order, and leaves the breaker where its history puts it |
| RetrySpec.TotalWait | internal/resilience/retry.go:89-95 | from any attempt on, the waits add up to at most 1.25 times (1 without jitter) the sum of the capped bases |
| RetrySpec.SumBounds | internal/resilience/retry.go:147-154 | that sum is at most the geometric sum and at most one maxBackoff per wait |
| RetrySpec.RunWaitBound | internal/resilience/retry.go:60-164 | a whole run waits at most 1.25 * (maxAttempts - 1) * maxBackoff and at most 1.25 times the geometric sum |
| RetryClass.Attempt.Call | internal/resilience/policy.go:82-86 | one call of the operation with its reply, running time and record, or the breaker's refusal without a call |
| RetryClass.RetryPolicy.TryOnce | internal/resilience/retry.go:107-126 | the first half of an iteration: cancellation, success, non-retryable error or an error to retry, each with its counter, and whether the closure was called |
| RetryClass.RetryPolicy.Pause | internal/resilience/retry.go:132-139 | the second half: a retry is counted and the wait ends early exactly when the context is done by then |
| RetryClass.RetryPolicy.ExecuteWithResult | internal/resilience/retry.go:103-144 | the loop performs the specified run; calls, last reply, error and result are as `RunMeaning` says; one success or at most one failure is counted, none only on cancellation; calls of the closure stay equal to retries plus successes plus failures over any history of runs |
| RetryClass.RetryPolicy.ExecuteCtx | internal/resilience/retry.go:60-100 | the loop without result agrees with the other on error, counters and effects |
| RetryClass.RetryPolicy.Reset | internal/resilience/retry.go:172-176 | the counters and the attempts they account for start again at zero |
| BulkheadClass.BulkheadConfig.Normalised | internal/resilience/bulkhead.go:24-47 | each setting is judged by itself: a positive one is kept, any other becomes its default |
| BulkheadClass.Task.Run | internal/resilience/policy.go:94-99 | the closure is the retried attempt, or without retry one call recorded once or the breaker's refusal |
| BulkheadClass.Task.RunCtx | internal/resilience/policy.go:81-87 | the same without a result |
| BulkheadClass.Bulkhead.Acquire | internal/resilience/bulkhead.go:88-117 | a free slot is taken at once; otherwise a full queue refuses, and a wait ends when a slot is free, the context is done or the timeout is over, whichever comes first, with no error, the context's error or the timeout error; each refusal is counted once |
| BulkheadClass.Bulkhead.ExecuteWithResult | internal/resilience/bulkhead.go:73-86 | an accepted task runs once and its slot and gauge are given back, also when every slot was running at entry and one came free; a refused one does not run |
| BulkheadClass.Bulkhead.ExecuteCtx | internal/resilience/bulkhead.go:57-70 | agrees with ExecuteWithResult on error, counters and effects |
| PolicyClass.Policy.constructor | internal/resilience/policy.go:43-66 | each pattern is present exactly when enabled, with normalised settings |
| PolicyClass.Policy.ExecuteWithResult | internal/resilience/policy.go:93-101 | an accepted call is the guarded operation, once when retry is off and repeated when it is on, with the reply of its last call; a refused call touches neither breaker nor operation |
| PolicyClass.Policy.Execute | internal/resilience/policy.go:80-89 | agrees with ExecuteWithResult on error and on every effect on breaker, counters and operation |
| PolicySpec.OpenPhase | internal/resilience/policy.go:68-89 | after the breaker opened, each wait of at least openDuration buys one more call and the first shorter one ends the run with the circuit-open error |
| PolicySpec.ClosedPhase | internal/resilience/policy.go:68-89 | the same from an attempt that finds the breaker closed |
| PolicySpec.ComposedCallCount | internal/resilience/policy.go:68-101 | alone against an always-failing operation, a run makes exactly the computed number of calls, whatever the waits, and returns the operation's error exactly when it used every attempt |
| PolicySpec.SmallerCountIff | internal/resilience/policy.go:68-101 | the calls number the smaller of maxAttempts and failureThreshold - c if and only if the first is not the larger or the wait after the opening call is shorter than openDuration |
| PolicySpec.OpensCircuitIff | internal/resilience/circuit.go:168-188 | an always-failing run leaves the circuit open if and only if maxAttempts reaches the failures to go, whatever the waits; otherwise each attempt is on record |
| PolicySpec.SucceedsAt | internal/resilience/policy.go:93-101 | a run whose first success comes in time for retry and breaker ends with it and clears the failures |
| PolicySpec.ShortWaitsCallCount | internal/resilience/policy.go:68-101 | a configuration whose longest wait is shorter than openDuration has that count in every run |
| PolicySpec.MissesOpenTheCircuit | internal/resilience/circuit.go:98-99 | an operation that only misses leaves the circuit open if and only if maxAttempts reaches the failures to go |
| PolicyTheorem.PolicyCallCount | internal/resilience/policy.go:93-101 | the exact call count, error and final breaker state for the nested run of a policy object, whatever the waits |
| BulkheadProtocol.StepKeepsInv | internal/resilience/bulkhead.go:57-121 | every step of every call keeps the accounting of slots, both gauges and both counters |
| BulkheadProtocol.Accounting | internal/resilience/bulkhead.go:57-121 | in every interleaving slots in use are the calls between acquire and release, 0 <= active <= slots <= maxConcurrent + maxQueue, and calls started are executed plus rejected plus not yet counted |
| BulkheadProtocol.Quiescence | internal/resilience/bulkhead.go:57-121 | when all calls are over every slot is back, both gauges are zero, and each call was counted once on the right side |
| BulkheadProtocol.LoneCallServed | internal/resilience/bulkhead.go:73-121 | one call with a free slot goes through and changes only the executed counter |
| BulkheadProtocol.LoneCallRefused | internal/resilience/bulkhead.go:95-99 | one call facing full slots and a full queue changes only the rejected counter |
| BulkheadProtocol.HolderFinishes | internal/resilience/bulkhead.go:63-69 | a call that holds a slot, wherever it is, leaves the gauges it is in, is counted once and gives its slot back |
| BulkheadProtocol.LoneCallWaits | internal/resilience/bulkhead.go:95-121 | one call facing full slots waits for any holder to leave and goes through, and both are counted once |
| BulkheadProtocol.LeaverMatchesSteps | internal/resilience/bulkhead.go:57-121 | in every reachable state with all slots in use, what the object takes out of its gauges for a call that leaves is what that call's own steps take out |
| BulkheadProtocol.MaxConcurrentIsExceeded | internal/resilience/bulkhead.go:39-45 | under every configuration maxConcurrent + maxQueue operations can run at once |
| BulkheadProtocol.QueueIsUnbounded | internal/resilience/bulkhead.go:95-101 | under every configuration any queue length is reachable |
| BulkheadProtocol.AtomicJoinBoundsQueue | internal/resilience/bulkhead.go:95-101 | with load and add in one step the queue never exceeds maxQueue |
| BulkheadQueue.OverflowStepIff | internal/resilience/bulkhead.go:95-101 | a step takes the queue over maxQueue if and only if it is the join of a call that loaded a length below the limit when the queue has reached it since |
| BulkheadQueue.QueueBound | internal/resilience/bulkhead.go:95-101 | in every run with at most k calls at a time between load and add the queue stays within maxQueue + k - 1 |
| BulkheadQueue.QueueBoundTight | internal/resilience/bulkhead.go:95-101 | under every configuration and for every k such a run reaches that length |
| AsyncWriter.StepKeepsInv | internal/cache/redis.go:184-232 | every step of senders and worker keeps order, counters, store and exit facts |
| AsyncWriter.FifoExactlyOnce | internal/cache/redis.go:184-232 | in every run written, in hand and queued operations are the accepted ones in order; pendingWrites and droppedWrites are exact up to uncounted steps |
| AsyncWriter.ReplayedMeaning | internal/cache/redis.go:219-232 | after any writes each key holds the value of the last successful one of it, or what it held before |
| AsyncWriter.RefusedIffFull | internal/cache/redis.go:184-197 | a send is refused if and only if it finds the queue full |
| AsyncWriter.NothingDroppedWithinCapacity | internal/cache/redis.go:184-197 | in every run with no more writes than the queue has places all are accepted |
| AsyncWriter.LostIffAcceptedLate | internal/cache/redis.go:199-217 | when the worker has left it has written exactly what was accepted before; a write is lost if and only if it was accepted after that |
| AsyncWriter.WorkerNeverStuck | internal/cache/redis.go:202-216 | a stopped worker always has a step until it has left |
| AsyncWriter.DrainTerminates | internal/cache/redis.go:434-445 | with no later send a stopped worker leaves after exactly the computed number of its own steps, whatever senders still count in between, with every accepted operation written |
| AsyncWriter.StoreIsAcceptedInOrder | internal/cache/redis.go:199-232 | if all writes succeed and none is accepted late, the store is the accepted operations applied in order |
| RedisLink.ErrorCountMeaning | internal/cache/redis.go:457-489 | the error count is the number of failed calls since the last success or restoring check, and a link with five of them is never connected |
| RedisLink.LinkAfter | internal/cache/redis.go:457-489 | after any history a health check leaves the link up or down as its ping says if that differs from the flag it had loaded, and alone otherwise; Close disconnects it, a success reconnects it exactly when an error is on record, and a failure never connects it |
| RedisLink.DisconnectsOnFifth | internal/cache/redis.go:457-473 | a failing call disconnects exactly when it is the fifth on record |
| RedisLink.DrainedState | internal/cache/redis.go:219-232 | connection and error count after any stretch of writes that starts disconnected |
| RedisLink.DrainedFromUp | internal/cache/redis.go:219-232 | after a stretch of writes that starts connected the link is up if and only if fewer than five errors are on record |
| RedisLink.ChecksThenDrain | internal/cache/redis.go:434-445 | the link after Close, given the flag and answer of a check under way at the mark, the answers of the checks that follow, and the outcomes of the drain |
| RedisLink.DownAfterCloseIff | internal/cache/redis.go:250-270 | for every order of writes and ends of checks after the mark, with whatever flags the checks had loaded, the link ends down if and only if the writes after the last check that moved the flag end in five failures, or that check did not restore it and no write succeeds over a recorded error |
| RedisLink.StraddlingChecks | internal/cache/redis.go:250-270 | a check that loaded the flag as up before the mark does not bring the link up, and one that loaded the mark does not drop a link revived meanwhile |
| RedisClass.RedisCache.HandleError | internal/cache/redis.go:457-473 | one more failure in the history of the link |
| RedisClass.RedisCache.ClearError | internal/cache/redis.go:475-481 | one more success in the history of the link |
| RedisClass.RedisCache.PerformHealthCheck | internal/cache/redis.go:250-270 | a check that nothing comes between leaves the link as its ping says |
| RedisClass.RedisCache.StartHealthCheck | internal/cache/redis.go:250-256 | the flag is loaded before the ping |
| RedisClass.RedisCache.FinishHealthCheck | internal/cache/redis.go:256-270 | the loaded flag and the answer alone decide what is done, wherever the link stands by then |
| RedisClass.RedisCache.Reconnect | internal/cache/redis.go:504-512 | a good ping sets the flag and clears the errors whatever they were; a bad one changes nothing |
| RedisClass.RedisCache.Get | internal/cache/redis.go:129-150 | unavailable, failed, missed or found, as the lookup on values that `RedisThroughPolicy` repeats, and only failures and hits reach the history |
| RedisClass.RedisCache.Set | internal/cache/redis.go:153-182 | unavailable, queued or dropped, or written at once, with the effect on store and history |
| RedisClass.RedisCache.SetAsync | internal/cache/redis.go:184-197 | an operation is appended to the queue if there is room and counted as dropped otherwise |
| RedisClass.RedisCache.ExecuteWrite | internal/cache/redis.go:219-232 | one operation reaches the store exactly if its write succeeds, and is no longer pending |
| RedisClass.RedisCache.Close | internal/cache/redis.go:434-445 | the steps of the health worker, in the middle of a check or not, and the worker's writes interleave as given; the queue is drained in order into the store, nothing stays pending, and the link ends down if and only if the last check that moved the flag and the writes after it leave it so |
| RedisClass.RedisCache.TakeTurn | internal/cache/redis.go:199-270 | a step of either worker: a load logs nothing, an answer acts with the loaded flag, a write is logged as it ends |
| RedisClass.ClosingTurns | internal/cache/redis.go:434-445 | for every schedule the events of Close are those of its turns in order and then the remaining writes; every ping is answered with the flag that stood when its check began |
| RedisClass.ClosingWrites | internal/cache/redis.go:199-217 | the writes among those events are all the queued ones in order |
| RedisClass.CloseMeetsStraddlingChecks | internal/cache/redis.go:434-445 | the two straddling checks are what Close meets with a check under way at the mark, and with one around a reviving write |
| LinkProtocol.ComesBackIff | internal/cache/redis.go:250-270 | in every interleaving of calls, checks and Close, without new health checks the link can be up later if and only if it is up, a thread is about to set the flag, or a call in flight can succeed with an error on record |
| LinkProtocol.DownForGood | internal/cache/redis.go:129-143 | a link that cannot come back never does, and every later call is refused |
| LinkProtocol.CheckBringsBack | internal/cache/redis.go:250-270 | one good ping brings any link back |
| LinkProtocol.FiveFailuresAreFinal | internal/cache/redis.go:457-481 | without health checks five failures in a row, with nothing else in flight, take the link down for good, in a reachable state |
| LinkProtocol.LostRevival | internal/cache/redis.go:463-481 | a success that swaps out the fifth failure before its compare-and-swap leaves the link down with no error on record, in a reachable state |
| LinkProtocol.EndsWhereLastSet | internal/cache/redis.go:250-270 | in every interleaving of single accesses the flag ends as the last of the five deciding steps left it |
| LinkProtocol.WholeEvent | internal/cache/redis.go:457-481 | the end of a call or check that nothing comes between is the event that stands for it in the history of the link |
| LinkProtocol.CheckStraddlesMark | internal/cache/redis.go:434-445 | a check under way at the mark had loaded the flag as up and its ping succeeds: the link is down for good, in a reachable state |
| LinkProtocol.CheckStraddlesRevival | internal/cache/redis.go:250-270 | from any state with an error on record and a call in flight, a check that loads the mark does not drop the link the call revives |
| LinkProtocol.FailureSplitsRestore | internal/cache/redis.go:265-267 | a fifth failure counted between the two steps of a restoring check leaves the link down, although either order of the two would leave it up |
| RedisThroughPolicy.AbsentKeyLookup | internal/cache/manager.go:210-229 | one lookup of an absent key asks Redis as often as the policy calls a failing operation, leaves the link alone, and reports a miss exactly when every attempt was used |
| RedisThroughPolicy.DeadServerLookup | internal/cache/redis.go:129-150 | of the calls of one lookup on a server that fails in a way worth repeating exactly those up to the fifth error reach it |
| RedisThroughPolicy.RefusedServerLookup | internal/resilience/retry.go:76-81 | a failure not worth repeating ends the lookup after one call, one error on the link and one failure on the breaker |
| RedisThroughPolicy.PresentKeyLookup | internal/cache/manager.go:210-229 | one lookup of a present key is one call and clears the failures of breaker and link |
| RedisThroughPolicy.RefusedWrite | internal/cache/manager.go:280-288 | a fire-and-forget write that meets a full queue or a link that is down is repeated as often as the policy calls a failing operation, counted as dropped once per attempt, and can open the circuit |
| RedisThroughPolicy.LateRoom | internal/cache/redis.go:184-197 | a write that finds room in time is queued, although it has been counted as dropped before |
| RedisThroughPolicy.FailingCallsOpenIff | internal/resilience/circuit.go:168-188 | over any number of failing calls, however far apart, the circuit is open exactly from the one on that completes the threshold |
| RedisThroughPolicy.AbsentKeysOpenIff | internal/cache/redis.go:136-144 | that holds for lookups of absent keys; with default attempts and threshold the second one opens the circuit |
| RedisThroughPolicy.RefusedWritesOpenIff | internal/cache/redis.go:184-197 | any number of refused fire-and-forget writes open the circuit exactly when their attempts reach the threshold |
| RedisThroughPolicy.PresentKeysAreRefused | internal/resilience/circuit.go:116-128 | while the circuit is open no key is looked up, present or not |
| Shutdown.StepKeepsGroup | internal/cache/manager.go:665-734 | every step keeps the wait group equal to the tracked threads, and nothing is added once closed is set |
| Shutdown.StepKeepsClosers | internal/cache/manager.go:665-713 | every step keeps one winner among the closers and exact counts of layer closes |
| Shutdown.ShutdownSafety | internal/cache/manager.go:665-734 | in every interleaving no addition to the wait group follows closed, and each layer is closed at most once |
| Shutdown.ClosedExactlyOnce | internal/cache/manager.go:665-713 | once the manager is closed and every thread is over, each layer has been closed exactly once |
| Shutdown.OnTimeMeansQuiet | internal/cache/manager.go:686-706 | from the moment a closer that did not time out is about to close memory, no background function runs or ever starts |
| Shutdown.CancelledBeforeWaiting | internal/cache/manager.go:671-677 | a closer has cancelled the shutdown context before it waits, and only after closed was set |
| Shutdown.RefusedOnlyWhenClosing | internal/cache/manager.go:718-726 | without a closer no background function is refused |
| Shutdown.NoneStartsAfterClose | internal/cache/manager.go:718-726 | a background function not let through when closed is set never runs |
| Shutdown.TimedOutIff | internal/cache/manager.go:686-700 | a closer reports a timeout if and only if its own timer fired first |
| Shutdown.NeverStuck | internal/cache/manager.go:665-734 | without any timer, while a thread is unfinished some thread can step or the wait group is ready to report |
| Shutdown.TimeoutClosesUnderBackground | internal/cache/manager.go:689-702 | on the timeout branch memory can be closed while a background function runs |
| SingleFlight.StepKeepsInv | internal/cache/manager.go:291-342 | every step of any number of callers keeps one leader and the bound on successful factory calls |
| SingleFlight.FactoryCallBound | internal/cache/manager.go:291-342 | successful factory calls exceed the removals of a cached entry by at most one, in every interleaving |
| SingleFlight.AtMostOneSuccess | internal/cache/manager.go:305-330 | without removals there is at most one success and the factory is never called again after it |
| SingleFlight.EveryCallerGetsTheOneValue | internal/cache/manager.go:332-341 | at the memory-only level every value returned is the one the factory made, as encoded or re-encoded |
| SingleFlight.NeverCalledWithRedisDown | internal/cache/manager.go:296-303 | with Redis refusing and memory cold, every caller fails and no factory call happens |
| SingleFlight.FactoryCalledIff | internal/cache/manager.go:291-330 | a lone cold caller calls the factory if and only if its level has no Redis, or Redis first answers with a miss and then with anything but a hit |
| SingleFlight.LoneCallerGets | internal/cache/manager.go:291-342 | a lone cold caller gets Redis's first hit as it is, a failure if Redis refuses, its second hit encoded anew, and otherwise the factory's value or failure |
| SingleFlight.FilledMeanwhile | internal/cache/manager.go:305-312 | a leader that finds the key filled when it looks again returns that value encoded anew without calling the factory |
| SingleFlight.WarmCaller | internal/cache/manager.go:291-299 | a caller that finds the key in memory gets that value as it is |
| SingleFlight.EveryValueHasSource | internal/cache/manager.go:291-342 | at every level, in every interleaving, a value returned came from Redis, a writer or the factory, at most encoded anew |
| SingleFlight.WaitersShareTheOutcome | internal/cache/manager.go:305-341 | whoever waits for a flight gets what its leader gets, whatever happens meanwhile |
| SingleFlight.FailureHasCause | internal/cache/manager.go:296-341 | in every interleaving a caller fails only after Redis refused its own lookup or a factory call failed |
| SingleFlight.NeverStuck | internal/cache/manager.go:291-342 | while a caller has not returned, some caller can take a step, whatever the answers |
| SingleFlight.CallersCanFinish | internal/cache/manager.go:291-342 | from every reachable state all callers can return, within the computed number of steps |
| Layers.StepKeepsEverywhere | internal/cache/manager.go:185-276 | any property of all entries in layers, queue, populates and clients' hands survives every step, repeated writes included, and holds of what is returned |
| LayersUse.LoneRead | internal/cache/manager.go:440-486 | a read left alone returns memory's values and Redis's for the keys memory lacks, changes no layer and schedules each of Redis's values once |
| LayersUse.FailedReadGoesToRedis | internal/cache/manager.go:457-465 | a key whose read in memory fails is asked of Redis like one memory does not hold |
| LayersUse.LoneWrite | internal/cache/manager.go:232-276 | a write left alone puts the value into both layers |
| LayersUse.LoneRemoval | internal/cache/manager.go:345-381 | a removal left alone takes the key out of both layers |
| LayersUse.LatePopulateUndoes | internal/cache/manager.go:200-204 | from every state in which Redis alone holds a key some run writes or removes it and then reads the old value |
| Coherence.Expose | internal/cache/manager.go:184-207 | any entry left anywhere can be brought to a reader by some continuation that writes nothing |
| Coherence.ReadsSatisfyIff | internal/cache/manager.go:184-276 | all later reads satisfy a property if and only if every entry anywhere does |
| Coherence.WriteIsWhatIsReadIff | internal/cache/manager.go:200-204 | a written value is what is read from then on exactly when no other value for the key is left; an older pending populate breaks it |
| Coherence.RemovedStaysRemovedIff | internal/cache/manager.go:345-381 | a removed key stays unreadable exactly when nothing for it is left; a pending populate breaks it |
| Coherence.QuietWrite | internal/cache/manager.go:232-276 | in every run in which a write to both layers begins with nothing under way for the key and no other access to the key begins before it is done, later reads are right exactly when neither layer holds another value; without a failure they are, and both layers hold the value unless it was lost |
| Coherence.UninterruptedWrite | internal/cache/manager.go:232-276 | left alone such a write is done in two steps, so the runs that `QuietWrite` is about exist from every quiet state |
| Coherence.QuietRemoval | internal/cache/manager.go:345-381 | the same for a removal: without a failure nothing can be read until the next write |
| Coherence.Provenance | internal/cache/manager.go:454-485 | every value ever returned for a key was written under it before or was in Redis at the start |
| ManagerSpec.PopulatesMakeReadsLocal | internal/cache/manager.go:470-483 | after its populates, a two-layer batch result can be read from memory alone |
| ManagerSpec.PopulatesInvisibleIff | internal/cache/manager.go:472-481 | populates change no two-layer read exactly when they meet no different value in memory |
| ManagerSpec.WriteVisibleIff | internal/cache/manager.go:232-287 | which reads see a write: a Redis-only write stays hidden behind an older value in memory, and a reported failure of memory can leave the value visible through Redis |
| ManagerSpec.RemovalInvisibleIff | internal/cache/manager.go:345-381 | a removal makes the key invisible to a reader if and only if no layer the reader looks at still holds it |
| ManagerClass.Manager.ReadMemory | internal/cache/manager.go:457-465 | found are exactly the requested keys that memory holds and delivers, missing exactly the others |
| ManagerClass.Manager.RunBackground | internal/cache/manager.go:718-734 | a populate is scheduled exactly once, and not at all after close |
| ManagerClass.Manager.TakeOver | internal/cache/manager.go:473-481 | every answer of Redis is taken over and scheduled for memory exactly once |
| ManagerClass.Manager.LookUpMany | internal/cache/manager.go:453-485 | the batch result key by key: memory's value if memory is used, holds the key and delivers it, otherwise Redis's if Redis is used and answers; each of Redis's values is scheduled for memory once |
| ManagerClass.Manager.GetMany | internal/cache/manager.go:440-486 | the same with its error cases; when Redis does not answer the result is the memory part |
| ManagerClass.Manager.Get | internal/cache/manager.go:131-207 | a single read sees what a batch read sees when the policy passes Redis's answer on, decoded; a value that cannot be decoded is an error though it has been scheduled for memory, and every other failure has its exact error |
| ManagerClass.Manager.Set | internal/cache/manager.go:232-287 | with both layers only memory decides the result; each layer that takes the write holds the new value, no other key is touched, and a value that cannot be encoded changes nothing |
| ManagerClass.Manager.SetMany | internal/cache/manager.go:489-542 | all or nothing on encoding, item by item in memory, silent on Redis; every other key keeps what it had |
| ManagerClass.Manager.Delete | internal/cache/manager.go:345-381 | both layers are tried, the call succeeds exactly when each tried layer removed the key, and no other key is touched |
| ManagerClass.Manager.DeleteMany | internal/cache/manager.go:384-405 | every key is tried in spite of failures, and the result is nil exactly when all removals succeeded |
| ManagerUse.ReadAcrossWrite | internal/cache/manager.go:131-287 | a write changes nothing for a read of another key, at whatever levels and with whatever failures |
| ManagerUse.ReadAfterWrite | internal/cache/manager.go:131-287 | what was written to memory is what a read that can use memory sees, decoded |
| ManagerUse.ReadAfterRemoval | internal/cache/manager.go:345-381 | a removal reported as done leaves nothing to read at any level |
| ManagerUse.BatchAfterWrites | internal/cache/manager.go:440-486 | a batch read sees what two writes have just put into memory |
| Percentiles.SortSorts | internal/metrics/tracker.go:185-188 | the sorted copy is ordered and holds the same samples |
| Percentiles.PercentileRank | internal/metrics/tracker.go:180-192 | the percentile is a sample, at least (n-1)*p/100 + 1 samples are at most it and at least n - (n-1)*p/100 are at least it |
| Percentiles.PercentileOfMultiset | internal/metrics/tracker.go:180-192 | the percentile depends only on the multiset of samples |
| Percentiles.PercentilesOrdered | internal/metrics/tracker.go:137-143 | higher percentiles are not smaller, also after truncation to milliseconds |
| Percentiles.AverageBounds | internal/metrics/tracker.go:169-178 | the truncated average lies between the smallest and the largest sample |
| Percentiles.AverageMeaning | internal/metrics/tracker.go:169-178 | the average times the number of samples is their sum, but for less than one unit a sample towards zero |
| Percentiles.SumMeaning | internal/metrics/tracker.go:169-178 | the sum takes every sample in exactly once |
| Percentiles.QuotientMeaning | internal/metrics/tracker.go:137-143 | the truncated quotient is the whole number next to the exact one on the side of zero |
| TrackerClass.Tracker.RecordLatency | internal/metrics/tracker.go:95-103 | the ring goes on representing the log with one more latency, at wrap-around too |
| TrackerClass.Tracker.CopyOut | internal/metrics/tracker.go:108-122 | the copy is exactly the last latencies since the last reset that fit, oldest first |
| TrackerClass.LastUpToMeaning | internal/metrics/tracker.go:108-122 | those latencies end the log in its order and are as many as fit |
| TrackerClass.Tracker.Reset | internal/metrics/tracker.go:161-164 | the ring represents the empty log |
| TrackerClass.Tracker.TakeSnapshot | internal/metrics/tracker.go:106-146 | the snapshot holds average and percentiles of that copy in milliseconds, in order, and zeros when nothing was recorded |
| TrackerClass.AverageOf | internal/metrics/tracker.go:169-178 | the loop computes the truncated average of the array |
| Patterns.GlobOneStar | internal/cache/memory.go:251-255 | a pattern with one star means prefix, suffix and enough length |
| Patterns.MatchOneStar | internal/cache/memory.go:241-256 | for one star, wherever it stands, the matcher tests prefix and suffix independently |
| Patterns.MatchesWhatIsMeant | internal/cache/memory.go:236-259 | with at most one star the matcher accepts every key the pattern means |
| Patterns.AcceptsTooMuchIff | internal/cache/memory.go:251-255 | it accepts more exactly for keys shorter than prefix and suffix together |
| Patterns.MissesWithManyStars | internal/cache/memory.go:251-258 | for every pattern with two or more stars it rejects a key the pattern means |
| Patterns.ManyStarsMeaning | internal/cache/memory.go:236-259 | what the matcher does with two stars or more: all but one final or leading star are taken literally, character by character |
| Patterns.AgreesIff | internal/cache/memory.go:236-259 | the matcher agrees with the star pattern on all keys if and only if there is no star, or one whose sides do not overlap |
| MemoryClass.MemoryCache.ClearByPattern | internal/cache/memory.go:149-180 | what stays are the entries that do not match, cannot be read or cannot be deleted; with no failure and an understood pattern, exactly those the pattern does not mean |
| MemoryClass.MemoryCache.Collect | internal/cache/memory.go:154-166 | the keys collected are the readable entries that match |
| MemoryClass.MemoryCache.DeleteKeys | internal/cache/memory.go:168-172 | exactly the collected keys that can be deleted are gone |

## Left out

- Redis client calls, TLS, dialling, SCAN and pipeline traffic, key prefixes, TTLs and the internals of bigcache: foreign; layers are maps whose accesses may fail and whose entries may vanish.
- JSON: encoding is a partial function; `GetOrCreate` re-encodes through an arbitrary function.
- State-change callbacks of the breaker: they run after the lock is released and read nothing back.
- Panics inside callers' functions: a panicking operation records no outcome.
- 64-bit wrap-around of counters and float rounding: unbounded integers and reals.
- Key validation: a predicate on keys; its individual tests would only add easy members.
- Configuration, logging, publishers, timers, tags, health reports, `Contains` and `Clear`: no deep property.
- `slices.Sort` and the `copy` builtin: a sorting function and parallel assignments.
- Fairness and real-time progress of the scheduler: safety, exact counts and absence of stuck states only.
- BulkheadClass.Bulkhead.Acquire: in the object form the one call that leaves during the wait is given, with its time, because other callers are not part of one call; the protocol has them all.
- RedisClass.RedisCache.ClearError: swap and compare-and-swap happen at once, because the object is driven by one caller; `LinkProtocol` interleaves them.
- ManagerClass.Manager.DeleteMany: the error returned is the last one, where the source joins all of them; that it is nil is exact.
- RedisLink.DownAfterCloseIff: a write and the end of a check each take effect at one instant; `LinkProtocol` has their single steps, and `FailureSplitsRestore` is a run in which that matters.
- Errors.RetryableIff: an error of package net is taken whole, with its own answer about timeouts; what it wraps is not modelled, because the test for net.Error stops at it.
- Layers.StepKeepsEverywhere: whether the bounded queue has room is an input; the bound itself is in `AsyncWriter`.
- LinkProtocol.ComesBackIff: a queued write counts as in flight at once, and several may be under way where the source has one worker.
- SingleFlight.EveryCallerGetsTheOneValue: only for the memory-only level without other writers, because Redis answers and background populates may bring any value at the other levels.
