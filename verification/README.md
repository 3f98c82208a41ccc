# Rivexis control plane and release chain, verified

A Dafny model of the two parts of Rivexis whose promises span many functions, and of the
scanner that reads its SQL schema.

**Provider control plane.** One logical provider call goes through a TTL cache with one flight per
key, a circuit breaker, a 60-second sliding-window budget and a bounded retry loop, and is counted
and logged. Budgets and circuits are kept in process, in Redis or in PostgreSQL, which are meant to
be interchangeable. `SlidingWindow`, `BudgetStores` and `Circuits` compare the stores;
`CircuitStores` compares the circuits of several keys; `PostgresSchedule` and `CircuitSchedule` run
PostgreSQL budgets and circuits statement by statement under every schedule, and `CircuitOrders` asks
which order of the operations explains what a circuit schedule did; `ControlPlanes` holds the three
planes as objects and `PlaneRuns` sends whole call lists through them; `ProviderRuntime` is the call
itself, `ProviderReplies` what its caller gets, told from outcomes and starts alone, `ProviderRuns` and
`ProviderTallies` what whole runs of calls keep; `SingleFlight` interleaves calls on one cache key.

**Release certification and trust chain.** Runners on separate machines seal staging reports under an
execution manifest; the reports are aggregated into a release bundle; several signers sign a request
for it within time windows; the signatures are assembled into an attestation; and attestations are
published along a hash-linked lineage. `CanonicalJson`, `CanonicalForm` and `Certification` are the
texts that are hashed, `Profiles` and `ExecutionManifest` the plan, `StagingReports`, `ReleaseCertification`,
`ReleaseBundles` and `BundleAgreement` the reports, the bundle and the agreement of its producer
with its verifier, `ReleaseTrust`, `SigningRequests`, `ReleaseSigning` and `ReleaseAttestation` the
ceremony, `ReleaseLineage` the lineage. `ReleaseFacts` and `TrustFacts` say what acceptance means of each
record, `ReleaseSeals` what its hash binds, `ReleaseChain` what an accepted or published release stands for
when all of them are put together, and `ReleasePipeline` leads from reports to a published release and back.

**Schema scanner.** `SchemaContract` is the top-level splitter, `TableBlocks` the search for table
bodies; `SchemaQuotes` and `TableHeaders` say what both find in terms of the text alone. `Common`,
`Strings` and `Permutations` are shared vocabulary.

How to read it: code that changes things step by step is a method or a class whose contract ties the
result or the new state to a specification function or predicate; the theorems are lemmas about those
specifications. Python exceptions are `None` or `false`. What the surroundings decide (clock readings,
random identifiers, what a provider function does, schedules, file contents) is a parameter, and each
theorem holds for every value of it. Hash functions are parameters too. No digest function is free of
collisions, so theorems that need their absence say which two texts would have to clash.

Results that say where the code does not do what its surroundings suggest:

- Redis and PostgreSQL join scope and provider with a colon, the in-process store keys by the pair:
  the stores agree exactly on sets of keys whose joined texts differ (`BudgetStores`, `CircuitStores`).
- Raising the failure threshold while a circuit is open separates memory from PostgreSQL; a failure that
  comes a time to live or more after the one before it finds its Redis hash expired, which forgets
  failures that memory still counts, and can let calls through that memory refuses (`Circuits`).
- `record_success` takes no lock, so a concurrent `record_failure` can write back the count that it
  cleared. The answers are then no longer those of the sequential run in the order in which the
  operations took effect (`CircuitSchedule`). Another order that respects time and locks explains answers
  and rows exactly when that row is gone again before it has been used (`CircuitOrders`).
- A provider function interrupted by an exception outside `Exception` leaves a logical call and an attempt
  counted with no ending, no cost and no event (`ProviderRuns`, `ProviderTallies`).
- `verify_execution_manifest` normalizes paths under the old seal, so what it returns is accepted again
  only when the paths were spelled canonically; `validate_staging_report` verifies the returned
  manifest, so aggregation works only then, and only for a digest in lower case (`ExecutionManifest`,
  `ReleaseCertification`).
- Several checks cannot fail where they stand: the repeated path, missing profile and uncovered gate of a
  manifest, the unknown gate and differing source trees of reports, the repeated fingerprint of a quorum.

To verify: `dafny verify dfyconfig.toml`.

## Model

| member | source | states |
|---|---|---|
| `SlidingWindow.PopExpiredKeepsLive` | apps/api/rivexis_api/runtime_backend.py:39-41 | on a sorted deque, popping from the head removes every expired stamp and no other |
| `SlidingWindow.AdmitKeepsSorted` | apps/api/rivexis_api/runtime_backend.py:34-45 | with a clock that does not go back the deque stays sorted and no stamp lies in the future |
| `SlidingWindow.AdmitCounts` | apps/api/rivexis_api/runtime_backend.py:34-45 | on a sorted deque a charge is granted exactly when fewer than `limit` stamps are younger than sixty seconds |
| `SlidingWindow.AdmitEntriesCounts` | apps/api/rivexis_api/runtime_backend.py:81-93 | on a store without order, whatever order its stamps came in, a charge is granted exactly when fewer than `limit` entries are younger than sixty seconds, and exactly these and the new one stay |
| `SlidingWindow.PostgresCounts` | apps/api/rivexis_api/postgres_control.py:35-61 | the transaction accepts exactly when fewer than `limit` rows of its bucket are younger than sixty seconds |
| `SlidingWindow.LiveEntriesRepresent` | apps/api/rivexis_api/runtime_backend.py:87 | removing by score from an unordered store keeps exactly what head-popping keeps on the deque it represents |
| `SlidingWindow.AdmitEntriesRepresents` | apps/api/rivexis_api/runtime_backend.py:87-92 | one admission gives the same answer on a deque and on a set of uniquely named entries, and keeps the two in step: cardinality counts acceptances |
| `SlidingWindow.PostgresConsumeOneBucket` | apps/api/rivexis_api/postgres_control.py:35-61 | a budget transaction is one admission on its own bucket and leaves the rows of every other bucket alone |
| `BudgetStores.PostgresConsumeInStep` | apps/api/rivexis_api/postgres_control.py:35-61 | if the table holds the deque's stamps, one call answers alike in process and in PostgreSQL and the table holds the stamps again |
| `BudgetStores.VisibleSetHolds` | apps/api/rivexis_api/runtime_backend.py:81-93 | while the sorted set lives, the script answers as the deque does and the set then holds the new deque |
| `BudgetStores.ExpiredSetHolds` | apps/api/rivexis_api/runtime_backend.py:81-93 | letting a whole set expire 70 seconds after its last acceptance never loses a stamp that is still in the window |
| `BudgetStores.RedisMembersUsed` | apps/api/rivexis_api/runtime_backend.py:119-121 | every stored member carries a sequence number its instance has already used, so the next member is always new |
| `BudgetStores.RunsAgree` | apps/api/rivexis_api/runtime_backend.py:34-45 | for every call sequence with nondecreasing time over keys with different texts the three stores answer alike, call by call |
| `BudgetStores.StoresAgreeExactlyWhenLabelsDiffer` | apps/api/rivexis_api/runtime_backend.py:113-114 | the stores are interchangeable on a set of keys if and only if no two of its keys share a joined text |
| `BudgetStores.ColonFreeScopesDiffer` | apps/api/rivexis_api/runtime_backend.py:173-174 | scopes without a colon never share a text: a guard callers can check |
| `BudgetStores.ColonsCanCollide` | apps/api/rivexis_api/runtime_backend.py:113-114 | two concrete keys that share one Redis or PostgreSQL budget and have two in process |
| `PostgresSchedule.CommitIsAtomic` | apps/api/rivexis_api/postgres_control.py:39-69 | the separate statements of a committing attempt or clearing add up to one indivisible one |
| `PostgresSchedule.OtherTxUndisturbed` | apps/api/rivexis_api/postgres_control.py:29-32 | a commit under one lock changes nothing that the holder of another lock has seen, whatever locks collide |
| `PostgresSchedule.EveryScheduleIsSequential` | apps/api/rivexis_api/postgres_control.py:29-69 | for every interleaving of attempts and clearings, abort and lock hash, rows and answers are those of a sequential run of what was committed, and transactions sharing a lock appear in lock order |
| `PostgresSchedule.WorkersProceed` | apps/api/rivexis_api/postgres_control.py:29-69 | after every schedule a worker inside a transaction has a next statement or may commit, and an idle one may begin while nobody holds its lock |
| `PostgresSchedule.BucketsAreIndependent` | apps/api/rivexis_api/postgres_control.py:30-32 | the rows of a bucket are those its own attempts and clearings leave when taken alone |
| `PostgresSchedule.AcceptedUpToLimit` | apps/api/rivexis_api/postgres_control.py:35-69 | in a sequential run, of N attempts with one stamp on a bucket empty at first or after its last clearing exactly min(N, limit) are accepted, and the bucket then holds their stamps |
| `PostgresSchedule.ExactlyLimitAccepted` | scripts/certify_postgres_distributed_controls.py:35-42 | N completed attempts with one stamp on a bucket found empty, or since it was last cleared, are accepted exactly min(N, limit) times under every schedule |
| `Circuits.MemoryAgreesWithPostgresExactlyWhen` | apps/api/rivexis_api/postgres_control.py:72-141 | the two circuit stores return the same on an operation trace if and only if no failure lands below its threshold while an opening time is on record |
| `Circuits.FixedThresholdAgrees` | apps/api/rivexis_api/runtime_backend.py:47-65 | with one threshold of at least 1 the stores are interchangeable on every trace |
| `Circuits.RaisedThresholdDisagrees` | apps/api/rivexis_api/postgres_control.py:122-123 | a concrete trace on which raising the threshold separates them |
| `Circuits.ExpiryOutlastsCooldown` | apps/api/rivexis_api/runtime_backend.py:153 | the hash lives longer than the cooldown, so expiry never lifts an open circuit early |
| `Circuits.TimeToLiveIsWhole` | apps/api/rivexis_api/runtime_backend.py:153 | the time to live is the whole seconds of the cooldown and sixty more, and sixty for a negative one |
| `Circuits.ReadMirrors` | apps/api/rivexis_api/runtime_backend.py:133-141 | a read answers open or closed as the in-process store does, expired hash or not |
| `Circuits.FailureMirrors` | apps/api/rivexis_api/runtime_backend.py:146-154 | a failure returns the in-process state exactly when it does not find its hash expired over a nonzero count |
| `Circuits.RedisAgreesExactlyWhen` | apps/api/rivexis_api/runtime_backend.py:133-154 | from stores that mirror each other, on traces with one configuration and nondecreasing time, Redis answers as the in-process store does (a read open or closed, a failure with its count and opening time) if and only if no failure finds its hash expired while failures are still counted |
| `Circuits.FreshRedisAgreesExactlyWhen` | apps/api/rivexis_api/runtime_backend.py:133-154 | from empty stores, Redis gives those answers as the in-process store does if and only if every failure of a streak comes less than the time to live after the failure before it: a condition on the times of the operations alone |
| `Circuits.OneStep` | apps/api/rivexis_api/runtime_backend.py:133-154 | one operation is answered alike by both stores exactly when it is in time, which is exactly when it does not find its hash expired over a nonzero count; and then both stores still hold what the streak explains |
| `Circuits.NeverForgetsExactlyWhenTight` | apps/api/rivexis_api/runtime_backend.py:146-154 | what the two stores hide decides no more than the operation times do: the run never forgets a count if and only if its failures are in time |
| `Circuits.CloseFailuresAgree` | apps/api/rivexis_api/runtime_backend.py:146-154 | a guard for callers: while successive failures on a key lie less than its time to live apart, the two stores are interchangeable |
| `Circuits.LateFailureDisagrees` | apps/api/rivexis_api/runtime_backend.py:153 | two failures 90 seconds apart under a 30 second cooldown, which memory counts as two and Redis as one |
| `Circuits.RedisFollowsItsStreak` | apps/api/rivexis_api/runtime_backend.py:133-154 | on every trace, expired hashes included, a Redis hash holds the count and opening time of the failures since its last reset or expiry, and a read is answered open exactly when these keep the circuit open |
| `Circuits.OpenAnswersAgreeExactlyWhen` | apps/api/rivexis_api/provider_runtime.py:234-235 | looking only at whether calls are let through: from empty stores Redis and the in-process store open alike on a trace if and only if at each read the streak of all failures and the streak Redis still counts both keep the circuit open or neither does |
| `Circuits.ForgottenFailureLetsCallsThrough` | apps/api/rivexis_api/runtime_backend.py:153 | two failures 90 seconds apart at threshold 2: a call one second later is refused in process and let through on Redis |
| `Circuits.SuccessInsideFailureSerializableExactlyWhen` | apps/api/rivexis_api/postgres_control.py:97-104 | a success committing between a failure's select and upsert leaves a row and an answer that one of the two orders explains if and only if there was no failure to forget |
| `CircuitStores.KeyedRunsAgree` | apps/api/rivexis_api/runtime_backend.py:113-154 | over keys with different texts, any interleaving of their operations is answered alike in process and in Redis while each key's own failures are in time |
| `CircuitStores.SharedHashDisagrees` | apps/api/rivexis_api/runtime_backend.py:113-114 | two keys with one joined text: a failure on the first opens the circuit of the second in Redis and not in process |
| `CircuitStores.CircuitsAgreeExactlyWhenLabelsDiffer` | apps/api/rivexis_api/runtime_backend.py:113-114 | the circuits of a set of keys are the same in process and in Redis on all traces ordinary for each key alone, if and only if no two of the keys share a joined text |
| `CircuitSchedule.EndedIsAtomic` | apps/api/rivexis_api/postgres_control.py:107-141 | a committing read or failure writes and answers as one undisturbed operation does exactly when no success has overtaken it |
| `CircuitSchedule.EveryScheduleIsSequentialExactlyWhen` | apps/api/rivexis_api/postgres_control.py:72-141 | over every interleaving of reads, failures, aborts and lock-free successes and every lock hash: the answers are those of the sequential run in the order in which the operations took effect if and only if no failure commits after a success overtook it between its select, which saw failures, and its end; the rows are then those of that run too, and locked operations stand in it in lock order |
| `CircuitSchedule.LockedOperationsAreSequential` | apps/api/rivexis_api/postgres_control.py:72-141 | reads and failures alone give, under every schedule, the answers and rows of the sequential run in order of effect, which is lock order |
| `CircuitSchedule.WorkersProceed` | apps/api/rivexis_api/postgres_control.py:72-141 | after every schedule a worker inside a transaction has a next statement or may commit, an idle one may begin while nobody holds its lock, and a success may commit unless its row has been written and not yet committed |
| `CircuitSchedule.OvertakenFailureIsLost` | apps/api/rivexis_api/postgres_control.py:97-104 | for every circuit with failures there is a schedule in which a success is lost: the failure it overtakes writes the cleared count plus one |
| `CircuitOrders.InsertedAnswers` | apps/api/rivexis_api/postgres_control.py:72-141 | an operation put in before successes of its own circuit changes no other answer and no other circuit, and the whole is explained exactly when the rest is and the operation finds its own answer there |
| `CircuitOrders.LinearizableExactlyWhen` | apps/api/rivexis_api/postgres_control.py:72-141 | over every schedule and lock hash: some order in which each operation stands between its lock and the moment it took effect, and each success at its moment, explains all answers and the final rows, if and only if no answer came from a row that an overtaken failure had written back and no such row is left |
| `CircuitOrders.EveryOrderKeepsLocks` | apps/api/rivexis_api/postgres_control.py:29-32 | each such order, explaining or not, keeps operations that share a lock in the order in which they took it |
| `CircuitOrders.UnlostIsExplained` | apps/api/rivexis_api/postgres_control.py:72-141 | when no overtaken failure commits, the order of effect is such an order |
| `CircuitOrders.LeftRowHasNoOrder` | apps/api/rivexis_api/postgres_control.py:97-104 | an overtaken failure whose row stays is explained by no order at all |
| `CircuitOrders.ClearedRowIsExplained` | apps/api/rivexis_api/postgres_control.py:97-104 | when one more success deletes that row before anyone selects it, the order with the failure first explains everything |
| `ControlPlanes.MemoryControlPlane.ConsumeBudget` | apps/api/rivexis_api/runtime_backend.py:34-45 | the deques and the answer are those of the budget specification; on a sorted deque the answer is yes exactly when fewer than `limit` stamps are younger than sixty seconds |
| `ControlPlanes.MemoryControlPlane.ReadCircuit` | apps/api/rivexis_api/runtime_backend.py:47-53 | a lapsed opening is cleared in place and the cleared state returned |
| `ControlPlanes.MemoryControlPlane.Success` | apps/api/rivexis_api/runtime_backend.py:55-57 | the circuit of this key alone is closed |
| `ControlPlanes.MemoryControlPlane.Failure` | apps/api/rivexis_api/runtime_backend.py:59-65 | the circuit of this key alone counts one more failure and opens at the threshold |
| `ControlPlanes.RedisServer.EvalBudgetScript` | apps/api/rivexis_api/runtime_backend.py:81-93 | the script changes the sorted sets and answers as specified: yes exactly when fewer than `limit` visible members are younger than sixty seconds, and the set then expires seventy seconds on |
| `ControlPlanes.RedisControlPlane.ConsumeBudget` | apps/api/rivexis_api/runtime_backend.py:116-131 | a limit of 0 touches nothing; otherwise the next sequence number names the member handed to the script, and the answer follows the members younger than sixty seconds |
| `ControlPlanes.RedisControlPlane.ReadCircuit` | apps/api/rivexis_api/runtime_backend.py:133-141 | a lapsed hash is deleted, any other kept, and no other key touched |
| `ControlPlanes.RedisControlPlane.Success` | apps/api/rivexis_api/runtime_backend.py:143-144 | exactly this circuit's hash disappears |
| `ControlPlanes.RedisControlPlane.Failure` | apps/api/rivexis_api/runtime_backend.py:146-154 | count, opening time and expiry of this hash are those specified, and nothing else changes |
| `ControlPlanes.PostgresTables.ConsumeBudget` | apps/api/rivexis_api/postgres_control.py:35-61 | one committed transaction is one run of the budget specification; with a fresh row id it accepts exactly when fewer than `limit` rows of the bucket are younger than sixty seconds |
| `ControlPlanes.PostgresTables.ClearBudget` | apps/api/rivexis_api/postgres_control.py:64-69 | this bucket is empty afterwards and every other as before |
| `ControlPlanes.PostgresTables.ReadCircuit` | apps/api/rivexis_api/postgres_control.py:72-94 | a lapsed row is deleted, any other returned, and other rows are untouched |
| `ControlPlanes.PostgresTables.RecordSuccess` | apps/api/rivexis_api/postgres_control.py:97-104 | exactly this circuit's row is removed |
| `ControlPlanes.PostgresTables.RecordFailure` | apps/api/rivexis_api/postgres_control.py:107-141 | the row written and the state returned are those of the circuit specification; other rows are untouched |
| `PlaneRuns.BudgetsInMemory` | apps/api/rivexis_api/runtime_backend.py:34-45 | a list of calls through the in-process object is answered as the run of its store says |
| `PlaneRuns.BudgetsInPostgres` | apps/api/rivexis_api/runtime_backend.py:176-179 | the same for the PostgreSQL tables |
| `PlaneRuns.BudgetsInRedis` | apps/api/rivexis_api/runtime_backend.py:116-131 | the same for one worker's Redis plane and its server |
| `PlaneRuns.CompareBudgets` | apps/api/rivexis_api/runtime_backend.py:17-23 | the same calls through three fresh planes get the same answers when the joined texts of their keys differ |
| `PlaneRuns.CircuitInMemory` | apps/api/rivexis_api/runtime_backend.py:47-65 | a list of circuit operations through the in-process object is answered as the trace of its store says |
| `PlaneRuns.CircuitInPostgres` | apps/api/rivexis_api/postgres_control.py:72-141 | the same for the PostgreSQL tables |
| `PlaneRuns.CircuitInRedis` | apps/api/rivexis_api/runtime_backend.py:133-154 | the same for the Redis plane |
| `PlaneRuns.CompareCircuits` | apps/api/rivexis_api/runtime_backend.py:17-23 | through three fresh planes under one configuration PostgreSQL returns what memory returns, and Redis answers as memory does if and only if the failures are in time |
| `ProviderRuntime.Runtime.PersistEvent` | apps/api/rivexis_api/provider_runtime.py:133-167 | one event is appended for a workspace call and none for a call outside workspaces |
| `ProviderRuntime.Runtime.FinishCall` | apps/api/rivexis_api/provider_runtime.py:260-267 | the counter of the way the call ended goes up by one and its event is written |
| `ProviderRuntime.Runtime.StartAttempt` | apps/api/rivexis_api/provider_runtime.py:271-287 | once its budget is granted the attempt is counted and the provider function starts; nothing is charged yet |
| `ProviderRuntime.Runtime.ChargeAttempt` | apps/api/rivexis_api/provider_runtime.py:293-295 | the cost of an attempt is added once the function has returned or raised |
| `ProviderRuntime.Runtime.CountRetry` | apps/api/rivexis_api/provider_runtime.py:296-298 | one retry is counted for this key |
| `ProviderRuntime.Runtime.StoreResult` | apps/api/rivexis_api/provider_runtime.py:318-327 | a success closes the circuit and fills the cache when the call is cacheable |
| `ProviderRuntime.Runtime.TryOnce` | apps/api/rivexis_api/provider_runtime.py:256-334 | one pass of the retry loop either ends the call as specified, an interruption that no handler catches included, or leaves the state from which the rest of the specification continues |
| `ProviderRuntime.Runtime.RunFunction` | apps/api/rivexis_api/provider_runtime.py:273-345 | once started, the function's return, error or interruption ends the call or leads to the next attempt as specified |
| `ProviderRuntime.Runtime.AttemptLoop` | apps/api/rivexis_api/provider_runtime.py:256-335 | the loop computes the specified run of attempts; the statement after it is unreachable |
| `ProviderRuntime.Runtime.ExecuteCall` | apps/api/rivexis_api/provider_runtime.py:204-335 | cache, circuit, budget, retries, telemetry, events and reply of one logical call are those of the specification about which the run theorems are proved |
| `ProviderRuns.ExecuteLeavesOthers` | apps/api/rivexis_api/provider_runtime.py:213-215 | a call on one scope and provider touches no counter, budget, circuit or event of another |
| `ProviderRuns.ExecuteEndsOnce` | apps/api/rivexis_api/provider_runtime.py:226-332 | every call ends exactly once; all of its attempts but a final one were retried, and all but an interrupted one were charged; inside a workspace the end is one persisted event unless the call was interrupted |
| `ProviderRuns.RunEndsCalls` | apps/api/rivexis_api/provider_runtime.py:133-167 | as many ends as calls, and the persisted events are those of workspace calls that were not interrupted |
| `ProviderRuns.TelemetryReplaysCalls` | apps/api/rivexis_api/provider_runtime.py:217-325 | after every completed call the counters of a key equal what the ends of its calls replay to |
| `ProviderRuns.PersistedEventsReplayTelemetry` | apps/api/rivexis_api/provider_runtime.py:133-167 | inside a workspace the persisted events alone account for every counter if and only if no call was interrupted |
| `ProviderRuns.TelemetryIsConserved` | apps/api/rivexis_api/provider_runtime.py:204-335 | for any behaviour of the provider function, exceptions outside `Exception` included: logical calls = hits + circuit rejections + rate limited + failures + successes + interruptions; attempts = successes + failures + retries + interruptions; cost = unit cost times the attempts not interrupted; and the three laws without interruptions hold if and only if no call was interrupted |
| `ProviderTallies.CountersAreReplies` | apps/api/rivexis_api/provider_runtime.py:217-325 | after any run each counter of a key is the number of its calls that were answered in that way (hit, refused, rate limited, failed, fresh), and the attempts are the starts of the provider function |
| `ProviderTallies.InterruptionsAreAborted` | apps/api/rivexis_api/provider_runtime.py:289-335 | the interruptions of a key are exactly its calls whose callers saw an exception no handler catches |
| `ProviderTallies.BalancedExactlyWhenNoneAborted` | apps/api/rivexis_api/provider_runtime.py:289-335 | the laws of the counters hold after a run if and only if no caller's call was interrupted |
| `ProviderTallies.ExecuteAdds` | apps/api/rivexis_api/provider_runtime.py:204-335 | one call adds one to the counter of the reply its caller got and to no other, and counts exactly its starts |
| `ProviderRuns.CostIsProduct` | apps/api/rivexis_api/provider_runtime.py:266 | adding the unit cost once per attempt gives attempts times cost |
| `ProviderRuns.SpacedBoundsWindow` | apps/api/rivexis_api/provider_runtime.py:256-288 | stamps that are a window apart at distance `limit` put at most `limit` of themselves in any window |
| `ProviderRuns.AdmitKeepsRate` | apps/api/rivexis_api/runtime_backend.py:34-45 | the deque is always the live tail of all accepted stamps, and a charge is granted exactly when the window ending now holds fewer than `limit` |
| `ProviderRuns.RateIsBounded` | apps/api/rivexis_api/provider_runtime.py:256-288 | over any run with a nondecreasing clock the provider function of one key starts, retries included, at most `limit` times in any window of sixty seconds (t - 60, t] |
| `ProviderRuns.ChargeGrantedExactlyWhenRoom` | apps/api/rivexis_api/provider_runtime.py:256-259 | the bound is tight: after any run a charge is refused only when its window is full |
| `ProviderReplies.OneDecides` | apps/api/rivexis_api/provider_runtime.py:252-310 | each call has exactly one deciding attempt: the first that does not raise a retryable error, or the last allowed |
| `ProviderReplies.OutcomesDecide` | apps/api/rivexis_api/provider_runtime.py:252-345 | a call that goes to the provider and is granted its charges starts the function once for each attempt up to the deciding one, replies with the value returned, the error raised or the interruption there, and is recorded with these attempts, retries and cost |
| `ProviderReplies.RefusalDecides` | apps/api/rivexis_api/provider_runtime.py:256-269 | refused a charge before that, it replies with the refusal and has started the function once for each charge granted |
| `ProviderReplies.OtherwiseNothingStarts` | apps/api/rivexis_api/provider_runtime.py:220-247 | a call that finds a fresh item or an open circuit starts nothing, charges nothing and replies with the item or the refusal |
| `ProviderReplies.CallIsDecidedByOutcomes` | apps/api/rivexis_api/provider_runtime.py:252-345 | after any run, with fewer than `limit` starts in the last sixty seconds at each attempt up to the deciding one, the starts and the reply are those of its outcomes |
| `ProviderReplies.CallIsRefusedWithoutRoom` | apps/api/rivexis_api/provider_runtime.py:256-269 | after any run, with `limit` starts in the last sixty seconds at some earlier attempt, the call is refused at the first such |
| `ProviderReplies.HitsWereReturned` | apps/api/rivexis_api/provider_runtime.py:220-231 | after any run, a value from the cache was returned to the deciding attempt of an earlier call with the same scope, provider, operation and cache key, and its time to live has not passed |
| `ProviderReplies.FreshAnswersNext` | apps/api/rivexis_api/provider_runtime.py:321-335 | a value returned through the provider answers the next call with its key exactly until its time to live has passed, and nothing starts |
| `ProviderReplies.StaleItemGoes` | apps/api/rivexis_api/provider_runtime.py:232-233 | a stale item is dropped unless a fresh one replaces it, and a call without cache key or time to live leaves the cache alone |
| `ProviderRuns.CircuitIsStreak` | apps/api/rivexis_api/provider_runtime.py:289-325 | the stored failure count is always the number of terminal failures since the last success or lapsed read; retried attempts and budget refusals never change it |
| `ProviderRuns.OpenCircuitRefusesRun` | apps/api/rivexis_api/provider_runtime.py:217-244 | while a circuit is open any sequence of calls on its key yields cache hits or refusals, starts nothing, charges nothing and leaves the circuit as it is |
| `ProviderRuns.FailsFast` | apps/api/rivexis_api/provider_runtime.py:217-244 | once the threshold-th failure landed at f, no call before f plus cooldown starts the function or consumes budget |
| `SingleFlight.LastExpiresLast` | apps/api/rivexis_api/provider_runtime.py:326-327 | fills that respect earlier lifetimes expire in order |
| `SingleFlight.EveryRunIsSafe` | apps/api/rivexis_api/provider_runtime.py:188-233 | under every interleaving of cacheable calls on one key: at most one function in flight, fills at least the earlier lifetime apart, every hit the latest fill and strictly younger than its lifetime, no start while a fill is fresh |
| `SingleFlight.NeverStuck` | apps/api/rivexis_api/provider_runtime.py:188-233 | after every interleaving, while a call is open some thread can take its next step, and a new caller with any lifetime can come |
| `SingleFlight.FollowersHit` | apps/api/rivexis_api/provider_runtime.py:188-233 | a waiting caller that finds the lock free is answered by the last fill while that is fresh and no function starts; otherwise the function can start for it |
| `Strings.StripStrips` | apps/api/rivexis_api/release_certification.py:39-40 | stripping leaves no blank at either end and is idempotent |
| `CanonicalJson.DecimalReads` | apps/api/rivexis_api/certification.py:17-18 | the decimal text of a number reads back to it |
| `CanonicalJson.EscapePrefix` | apps/api/rivexis_api/certification.py:17-18 | an escaped string ends at its closing quote and nowhere else, so it can be read only one way |
| `CanonicalJson.TextPrefix` | apps/api/rivexis_api/certification.py:17-18 | the canonical text of a value is a prefix code with respect to what may follow a value |
| `CanonicalJson.TextIsInjective` | apps/api/rivexis_api/certification.py:17-18 | two values have one canonical text if and only if they are equal, whatever order their keys were inserted in |
| `CanonicalForm.EscapeReads` | apps/api/rivexis_api/certification.py:17-18 | a reader of JSON strings gets back what was written, whatever the string contains |
| `CanonicalForm.EscapedExactly` | apps/api/rivexis_api/certification.py:17-18 | only quotes, backslashes and control characters are escaped, by the short escape where there is one and otherwise by four lower-case hexadecimal digits |
| `CanonicalForm.ScalarTexts` | apps/api/rivexis_api/certification.py:17-18 | null, true, false and numbers are written as JSON writes them, numbers in decimal without leading zero |
| `CanonicalForm.StringTexts` | apps/api/rivexis_api/certification.py:17-18 | a string is its escaped characters in quotes |
| `CanonicalForm.ArrayText` | apps/api/rivexis_api/certification.py:17-18 | an array is its items joined by commas, without blanks, in brackets |
| `CanonicalForm.ObjectText` | apps/api/rivexis_api/certification.py:17-18 | an object is its members by ascending name, each a name, a colon and a value, joined by commas, without blanks, in braces |
| `Certification.SealVerifies` | apps/api/rivexis_api/certification.py:46-60 | a sealed payload verifies, keeps its other fields, and sealing again changes nothing |
| `Certification.VerifiedExactlyWhenSealed` | apps/api/rivexis_api/certification.py:46-60 | the payloads that verify (with a textual seal) are exactly the fixed points of sealing |
| `Certification.VerifiedExactlyWhen` | apps/api/rivexis_api/certification.py:54-60 | a payload verifies exactly when its seal spells the digest of the rest, as a text or as a number |
| `Certification.SealBindsBody` | apps/api/rivexis_api/certification.py:54-60 | two verified payloads with one seal are equal, unless their two texts clash under the hash |
| `Certification.ChangedFieldBreaksSeal` | apps/api/rivexis_api/certification.py:54-60 | changing, adding or replacing any other field breaks the seal, unless the two texts clash |
| `Certification.SourceTreeFingerprint` | apps/api/rivexis_api/certification.py:29-43 | the count is the number of counted files and the digest that of their rows in order |
| `Certification.CountedExactlyWhen` | apps/api/rivexis_api/certification.py:9-15 | a file is counted unless it lies under a transient directory, has a transient or runner-made name, or ends with a transient extension in any case |
| `Certification.FingerprintTextIsInjective` | apps/api/rivexis_api/certification.py:41-43 | the hashed text determines the rows, even when paths contain newlines |
| `Certification.FingerprintBindsTree` | apps/api/rivexis_api/certification.py:29-43 | equal fingerprints mean the same counted paths with the same contents, unless named texts or contents clash |
| `ReleaseLineage.SealedVerifies` | apps/api/rivexis_api/release_lineage.py:174-185 | a checkpoint made by an advance verifies on its channel under its own hash |
| `TrustFacts.CodenameExactlyWhen` | apps/api/rivexis_api/release_lineage.py:22-26 | the codename of release n is exactly the letter P and the decimal of n, which is at least 1 |
| `TrustFacts.VerifiedCheckpointMeans` | apps/api/rivexis_api/release_lineage.py:53-106 | a verified checkpoint has the documented form, carries the hash of its other fields, and is of the channel and head asked for |
| `ReleaseLineage.SealBindsCheckpoint` | apps/api/rivexis_api/release_lineage.py:47-50 | two verified checkpoints with one seal are the same checkpoint, unless their texts clash |
| `ReleaseLineage.NextLinkOk` | apps/api/rivexis_api/release_lineage.py:161-172 | an advance that names the head extends the chain by one verified, higher-numbered link, whatever checkpoint the caller presents, short of a forged head |
| `ReleaseLineage.EveryRunKeepsChain` | apps/api/rivexis_api/release_lineage.py:123-185 | in every run of arbitrary requests each published head verifies, names its predecessor, counts its place and raises the release number, unless a request forges the hash of the head it names |
| `ReleaseLineage.EveryRun` | apps/api/rivexis_api/release_lineage.py:123-185 | the whole-run form of the same, with the links in place |
| `ReleaseLineage.NumbersRise` | apps/api/rivexis_api/release_lineage.py:169-170 | release numbers rise strictly along a chain |
| `ReleaseLineage.SequenceAtMostNumber` | apps/api/rivexis_api/release_lineage.py:171 | a sequence is the place in the chain and never exceeds the release number |
| `ReleaseLineage.HeadDeterminesHistory` | apps/api/rivexis_api/release_lineage.py:47-50 | two chains with one head hash have the same checkpoints throughout, unless two of them clash |
| `ReleaseLineage.OnlyTheHeadVerifies` | apps/api/rivexis_api/release_lineage.py:102-105 | under the trusted head hash only the head itself verifies, unless forged |
| `ReleaseLineage.OlderReleasesAreRefused` | apps/api/rivexis_api/release_lineage.py:188-232 | every attestation published before the head is refused, whatever is presented with it, short of a forged head |
| `ReleaseLineage.HeadAcceptsExactlyItsRelease` | apps/api/rivexis_api/release_lineage.py:188-232 | against the head exactly the attestation and artifact it published are accepted, and only when no later release is asked for |
| `ReleaseLineage.AdvanceFollows` | apps/api/rivexis_api/release_lineage.py:123-185 | a first checkpoint needs leave and no named head; any other names the trusted head and raises sequence and release number on its channel; each carries the attestation, artifact and time of its request |
| `ReleaseLineage.GenesisSucceeds` | apps/api/rivexis_api/release_lineage.py:150-156 | with leave and no head named, exactly a valid attestation of a release on a channel is published first |
| `ReleaseLineage.HonestAdvanceSucceeds` | apps/api/rivexis_api/release_lineage.py:157-185 | whoever presents the true head publishes exactly a valid attestation of a later release |
| `Profiles.NormalizeIsIdempotent` | apps/api/rivexis_api/certification_profiles.py:130-134 | a normalized profile normalizes to itself |
| `Profiles.ProductionIsNormalized` | apps/api/rivexis_api/certification_execution.py:13-23 | the production profiles are spelled in normal form |
| `Profiles.ConstantsAreDistinct` | apps/api/rivexis_api/certification_execution.py:13-23 | no production profile and no required gate is listed twice |
| `Profiles.ProductionCoversGates` | apps/api/rivexis_api/certification_profiles.py:83-94 | the gates some production profile may record are exactly the required gates |
| `ExecutionManifest.PlainNameIsSafe` | apps/api/rivexis_api/certification_execution.py:33-38 | a single plain name is a safe path and is returned as spelled |
| `ExecutionManifest.CanonicalExactlyWhen` | apps/api/rivexis_api/certification_execution.py:192-200 | the checks on one report pass exactly for the canonical plan of a production profile |
| `ExecutionManifest.CheckedIsRearranged` | apps/api/rivexis_api/certification_execution.py:189-213 | nine reports that pass one by one are, by counting, a rearrangement of the nine canonical plans, and every rearrangement passes |
| `ExecutionManifest.AllGatesSeen` | apps/api/rivexis_api/certification_execution.py:208-211 | any such rearrangement names every profile and covers every gate, so the two final checks cannot fail |
| `ExecutionManifest.LoopStep` | apps/api/rivexis_api/certification_execution.py:189-207 | after a report passed its other checks its path is new: the check for a repeated path cannot fail |
| `ExecutionManifest.VerifyReports` | apps/api/rivexis_api/certification_execution.py:182-211 | the loop accepts exactly the rearrangements of the nine canonical plans |
| `ExecutionManifest.VerifyExecutionManifest` | apps/api/rivexis_api/certification_execution.py:146-227 | accepts exactly the sealed frames around such a rearrangement with the aggregate commands of that order (and the current tree, when one is given), and returns them with normalized paths |
| `ExecutionManifest.BuiltIsAcceptedExactlyWhen` | apps/api/rivexis_api/certification_execution.py:103-138 | a built manifest is accepted exactly when at least one file was counted, and is returned unchanged |
| `ExecutionManifest.RearrangedIsAccepted` | apps/api/rivexis_api/certification_execution.py:182-215 | any rearrangement of an accepted manifest's reports, with aggregate and seal rebuilt, is accepted |
| `ExecutionManifest.ReverifiesExactlyWhenCanonical` | apps/api/rivexis_api/certification_execution.py:222-227 | what is returned is accepted again exactly when both paths were spelled canonically, that is, when nothing was changed |
| `ExecutionManifest.BlankIsAcceptedOnce` | apps/api/rivexis_api/certification_execution.py:33-38 | a manifest whose directory is spelled with a blank is accepted once and its returned form refused |
| `ReleaseFacts.ParentIsRefused` | apps/api/rivexis_api/certification_execution.py:33-38 | a path that goes up anywhere is refused, whatever stands around it |
| `ReleaseFacts.AbsoluteIsRefused` | apps/api/rivexis_api/certification_execution.py:33-38 | so is an absolute path, with either slash |
| `ReleaseFacts.AcceptedManifestMeans` | apps/api/rivexis_api/certification_execution.py:146-227 | an accepted manifest carries its own hash, the execution id of its tree, release, profiles, gates and paths, and one plan for each profile with its gates, sorted prerequisites, destructive gates and command, and an aggregate command naming each report in order |
| `StagingReports.ValidateGateResults` | apps/api/rivexis_api/release_certification.py:32-49 | accepts exactly the rows that, stripped and upper-cased, name different gates with a known status, and returns those rows in order |
| `StagingReports.FullPassExactlyWhen` | apps/api/rivexis_api/release_certification.py:52-53 | the three count comparisons behind `certified` say that every row passed |
| `StagingReports.CountsAddUp` | apps/api/rivexis_api/release_certification.py:52-53 | every validated row is counted under exactly one status |
| `StagingReports.ValidateStagingReport` | apps/api/rivexis_api/release_certification.py:56-133 | accepts exactly sealed, complete, truly counted reports silent on gates the runner may not judge and bound to the manifest when one is given, and returns the normalized report |
| `ReleaseFacts.ReportAcceptedExactlyWhen` | apps/api/rivexis_api/release_certification.py:56-133 | a report is accepted exactly when it carries its own hash and true counts, judges the nine gates in order, says PASS or FAIL only where its profile may, has its formats in order, and is about the execution, tree and profiles of the manifest |
| `StagingReports.CheckAuthorized` | apps/api/rivexis_api/release_certification.py:105-111 | passes exactly when every row beyond SKIP is for a gate of the profile; the check for an unknown gate cannot fail |
| `StagingReports.MergeIsJoin` | apps/api/rivexis_api/release_certification.py:201-210 | the merged status of two lists of reports is the worse of their two statuses, with SKIP < PASS < FAIL |
| `StagingReports.OnlyTheSetMatters` | apps/api/rivexis_api/release_certification.py:201-210 | order and repetition of reports never change a merged status |
| `StagingReports.FilterChangesNothing` | apps/api/rivexis_api/release_certification.py:201 | dropping unauthorized observations never changes a status, because validation forced them to SKIP |
| `StagingReports.FailIsNeverOutvoted` | apps/api/rivexis_api/release_certification.py:202-204 | one validated FAIL decides its gate whatever the other reports say |
| `ReleaseCertification.LookupFinds` | apps/api/rivexis_api/release_certification.py:175 | looking a gate up finds its one row, if there is one |
| `ReleaseCertification.ObservedExactlyWhenRecorded` | apps/api/rivexis_api/release_certification.py:178-201 | the list of authorized observed statuses contains a status exactly when some authorized report recorded it |
| `ReleaseCertification.MergeGate` | apps/api/rivexis_api/release_certification.py:177-211 | the loop over reports yields the observations in report order and the status that the recorded results determine |
| `ReleaseCertification.MergeAll` | apps/api/rivexis_api/release_certification.py:176-211 | the loop over gates yields exactly one merged row for each required gate, in order |
| `ReleaseCertification.SourceMatches` | apps/api/rivexis_api/release_certification.py:157-164 | the comparison of the reports' trees with each other cannot fail; the comparison with the manifest fails exactly for a digest not in lower case |
| `ReleaseCertification.PassesExactlyWhenGood` | apps/api/rivexis_api/release_certification.py:150-153 | validating every report against the returned manifest passes exactly when that manifest verifies again and every report is good and bound to it |
| `ReleaseCertification.AggregateStagingReports` | apps/api/rivexis_api/release_certification.py:136-250 | returns exactly for an accepted manifest in canonical spelling and lower-case digest with at least one report, all good and bound to it, under the required gates; and then returns the sealed bundle of those reports |
| `ReleaseCertification.CapitalDigestIsNeverAggregated` | apps/api/rivexis_api/release_certification.py:157-164 | a manifest sealed by hand around a digest with a capital, which the builder never writes, is accepted and returned unchanged, and no list of reports is ever aggregated under it |
| `ReleaseCertification.CapitalsAreADigest` | apps/api/rivexis_api/certification_execution.py:141-143 | sixty-four capital letters are a valid digest that is not in lower case |
| `ReleaseBundles.CheckInputs` | apps/api/rivexis_api/release_certification.py:315-340 | the loop accepts exactly inputs of required profiles with one common execution whose profiles are the observed ones, and builds the index-to-profile map |
| `ReleaseBundles.CheckObservations` | apps/api/rivexis_api/release_certification.py:342-358 | accepts exactly when every observation names its report's profile, the profile's true authorization, and no more than it allows |
| `ReleaseBundles.VerifyReleaseBundle` | apps/api/rivexis_api/release_certification.py:253-371 | accepts exactly the bundles that meet every stated condition, with the manifest's conditions when one is given |
| `ReleaseFacts.AcceptedBundleMeans` | apps/api/rivexis_api/release_certification.py:253-371 | an accepted bundle carries its own hash and counts, a row for each required gate, observations and coverage that follow from its inputs, and is certified exactly when every row passed under full coverage; under a manifest it agrees with it in release, tree, execution, profiles and gates |
| `BundleAgreement.SortedNamesSorts` | apps/api/rivexis_api/release_certification.py:214 | the observed profiles are listed in strict order, each once |
| `BundleAgreement.ProducedObservations` | apps/api/rivexis_api/release_certification.py:183-200 | every observation that aggregation writes passes the verifier's checks on observations |
| `BundleAgreement.ProducedCoverage` | apps/api/rivexis_api/release_certification.py:214-217 | the coverage block aggregation writes is one the verifier accepts |
| `BundleAgreement.ProducerAndVerifierAgree` | apps/api/rivexis_api/release_certification.py:136-371 | whenever aggregation returns, for every number and order of reports, the verifier accepts the bundle under the same manifest, and accepts it as complete exactly when it says certified |
| `BundleAgreement.CompleteBundleMeans` | apps/api/rivexis_api/release_certification.py:253-371 | a bundle accepted as complete under a manifest, whoever made it, has the required gates in order, each with a PASS, and an input from every production profile, all for that manifest's execution and source tree |
| `BundleAgreement.CertifiedExactlyWhen` | apps/api/rivexis_api/release_certification.py:213-223 | certified holds exactly when every required gate has an authorized PASS and no authorized FAIL and every required profile reported |
| `BundleAgreement.SameReportsSameVerdict` | apps/api/rivexis_api/release_certification.py:213-223 | the same reports in another order or repeated give the same verdict |
| `BundleAgreement.DefaultGatesAreRequired` | apps/api/rivexis_api/release_certification.py:141 | the default gate list survives stripping and de-duplication and is the list the manifest asks for |
| `ReleaseTrust.KeysAreUnique` | apps/api/rivexis_api/release_trust.py:173-179 | in a verified policy an entry is determined by its key id and by its fingerprint |
| `ReleaseTrust.AuthorizedExactlyWhen` | apps/api/rivexis_api/release_trust.py:190-218 | a signer is authorized exactly when some entry with its key id entitles it; stopping at the first such entry loses nothing |
| `ReleaseTrust.FingerprintsFollowKeyIds` | apps/api/rivexis_api/release_trust.py:173-179 | two authorized signers share a fingerprint exactly when they share a key id |
| `ReleaseTrust.QuorumMetExactlyWhen` | apps/api/rivexis_api/release_trust.py:221-259 | the quorum is met exactly when the key ids differ, all are authorized, enough signed and the roles are covered; the fingerprint check never decides |
| `TrustFacts.PolicyAcceptedExactlyWhen` | apps/api/rivexis_api/release_trust.py:42-182 | a policy is accepted exactly when it lists two or more keys with different ids and fingerprints, each with its formats, dates and releases in order, asks for at least two signatures in at least two roles that some key holds, and bounds its ceremony |
| `Permutations.NoRepeatsExactlyWhen` | apps/api/rivexis_api/release_trust.py:236-239 | comparing a list's length with that of its set finds every repetition |
| `Permutations.Pigeonhole` | apps/api/rivexis_api/certification_execution.py:189-209 | as many different elements as there are, all from a list, are a rearrangement of it |
| `SigningRequests.Least` | apps/api/rivexis_api/release_signing.py:195 | the oldest report time is one of the times and no greater than any |
| `SigningRequests.Greatest` | apps/api/rivexis_api/release_signing.py:196 | the newest report time is one of the times and no less than any |
| `SigningRequests.SummaryBoundsReports` | apps/api/rivexis_api/release_signing.py:179-197 | every input report of the bundle is dated between the oldest and newest times of the certification block |
| `SigningRequests.VerifySigningRequest` | apps/api/rivexis_api/release_signing.py:369-457 | accepts exactly sealed requests whose ceremony, policy, artifact and evidence bindings all hold and whose evidence is fresh at creation |
| `SigningRequests.BuildReleaseSigningRequest` | apps/api/rivexis_api/release_signing.py:332-366 | returns exactly when policy, manifest, complete bundle and freshness allow, and then the sealed request over them |
| `SigningRequests.BuiltRequestVerifies` | apps/api/rivexis_api/release_signing.py:277-366 | a built request is accepted by the verifier and is open at the instant it was built |
| `TrustFacts.OpenExactlyWhen` | apps/api/rivexis_api/release_signing.py:224-258 | a request is open at an instant exactly when it is accepted and the instant lies between creation and expiry, give or take the skew |
| `TrustFacts.AcceptedRequestMeans` | apps/api/rivexis_api/release_signing.py:179-258 | the evidence of an accepted request was timely when the request was created, and its ceremony is named by a digest |
| `TrustFacts.TimelyExactlyWhen` | apps/api/rivexis_api/release_signing.py:179-221 | the dates of the evidence are summarized and found fresh at an instant exactly when manifest, every report and bundle are dated, were made in this order and before it, give or take the skew, and no report is too old |
| `SigningRequests.SigningWindow` | apps/api/rivexis_api/release_signing.py:261-274 | the accepted signing instants of an accepted request are exactly one closed interval, and it contains the instant of creation |
| `SigningRequests.SignaturesAreClose` | apps/api/rivexis_api/release_signing.py:200-274 | two signatures of one request lie at most ttl + 2 skew, so at most 87000 seconds, apart; at each the oldest report is at most max age + skew old |
| `ReleaseSigning.SignReleaseRequest` | apps/api/rivexis_api/release_signing.py:484-537 | signs exactly for an accepted open request, a valid key id, an instant in the window and an entitled key, and returns the signed statement |
| `ReleaseSigning.SignedEnvelopeVerifies` | apps/api/rivexis_api/release_signing.py:540-609 | every envelope made by signing verifies under the public half of the key and yields the same policy entry |
| `ReleaseSigning.SortPermutes` | apps/api/rivexis_api/release_signing.py:686 | sorting rearranges the envelopes |
| `ReleaseSigning.SortOrders` | apps/api/rivexis_api/release_signing.py:686 | envelopes with different key ids end in strict order |
| `ReleaseSigning.OrderIsUnique` | apps/api/rivexis_api/release_signing.py:686 | a set of envelopes has one strict order only |
| `ReleaseAttestation.AcceptedFingerprints` | apps/api/rivexis_api/release_signing.py:668-675 | two accepted envelopes share a fingerprint exactly when they share a key id |
| `ReleaseAttestation.CollectSignatures` | apps/api/rivexis_api/release_signing.py:655-679 | the loop passes exactly when all envelopes are accepted with different key ids, and collects their roles; its fingerprint check cannot fail |
| `ReleaseAttestation.AssembleReleaseAttestation` | apps/api/rivexis_api/release_signing.py:634-692 | returns an attestation exactly for an accepted request and an accepted quorum, and then in the canonical order |
| `ReleaseAttestation.AssemblyIgnoresOrder` | apps/api/rivexis_api/release_signing.py:634-692 | any rearrangement of the envelopes gives the same attestation, or none either way |
| `ReleaseAttestation.AssemblyIsIdempotent` | apps/api/rivexis_api/release_signing.py:634-692 | assembling the signatures of an assembled attestation gives it back |
| `ReleaseAttestation.FixedExactlyWhenInOrder` | apps/api/rivexis_api/release_signing.py:718-731 | an attestation equals its own assembly exactly when its request is accepted and its signatures are an accepted quorum in strict order of key id |
| `ReleaseAttestation.VerifyReleaseAttestation` | apps/api/rivexis_api/release_signing.py:695-740 | accepts exactly the fixed points of assembly, with the policy id and signers the caller expects |
| `ReleaseAttestation.QuorumsAgree` | apps/api/rivexis_api/release_signing.py:655-685 | for envelopes signed at one instant, the quorum counted in the assembly loop is the one `require_authorized_quorum` decides on the list of signers |
| `ReleaseChain.AcceptedIsInTime` | apps/api/rivexis_api/release_signing.py:261-274 | an accepted signature was made at an instant at which its request could be signed |
| `ReleaseChain.EnvelopeAcceptedExactlyWhen` | apps/api/rivexis_api/release_signing.py:540-609 | an envelope on an accepted request is accepted exactly when its signature verifies under a key whose fingerprint is that of an active entry with its key id and role, valid then and for release 37, at an instant of the request's window |
| `ReleaseChain.AcceptedAttestationMeans` | apps/api/rivexis_api/release_signing.py:695-740 | an accepted attestation stands for a sealed request about the present artifact, tree, policy and the hashes of bundle and manifest, a complete certification, and a quorum of different keys with the roles asked for: each signature verifies under a key whose fingerprint is that of an active entry with its key id and role, valid then and for release 37; all lie in the window of the request, close together, on fresh reports |
| `ReleaseChain.HonestCeremonySucceeds` | apps/api/rivexis_api/release_signing.py:484-692 | enough entitled signers in the roles asked for, each signing an accepted request with the key it lists: the signatures assemble, and what is assembled is accepted |
| `ReleaseSeals.BundleSealBinds` | apps/api/rivexis_api/release_certification.py:258-261 | two accepted bundles with one evidence text have one body, or the two bodies collide |
| `ReleaseSeals.ReportSealBinds` | apps/api/rivexis_api/release_certification.py:60-64 | two accepted reports with one evidence text have one body, or the two bodies collide |
| `ReleaseSeals.ManifestSealBinds` | apps/api/rivexis_api/certification_execution.py:146-181 | two accepted manifests with one evidence text have one body, and with one execution id one tree, or these collide |
| `ReleaseSeals.RequestHashBinds` | apps/api/rivexis_api/release_signing.py:369-392 | two accepted requests with one signed hash have one body, or the two bodies collide |
| `ReleaseSeals.SignedHashBindsAll` | apps/api/rivexis_api/release_signing.py:369-457 | two accepted requests with one signed hash are about one artifact, tree, bundle, manifest and policy, or records of one kind collide |
| `ReleaseSeals.InputsAreReports` | apps/api/rivexis_api/release_certification.py:181-199 | the inputs of an aggregated bundle are its reports in order, each with its own evidence, date, runner, runtime, execution and true counts |
| `ReleaseSeals.ObservationsAreRows` | apps/api/rivexis_api/release_certification.py:176-213 | each of the nine gates of an aggregated bundle has one observation for each report, in order, repeating its evidence, date, runner and what its row of that name says, and a reason that fits the status |
| `ReleaseSeals.BundleBindsReports` | apps/api/rivexis_api/release_certification.py:136-250 | one aggregated bundle comes from one list of reports, or two reports at one place collide |
| `ReleaseChain.PublishedReleaseMeans` | apps/api/rivexis_api/release_lineage.py:123-185 | in every run of the lineage without a forged head, each link published for an accepted attestation and its artifact names that release, the artifact its signers signed and the hash of the attestation, and the release stands for all of the above |
| `ReleaseChain.MatchedReleaseMeans` | apps/api/rivexis_api/release_lineage.py:188-232 | a release matched against a trusted head is the one the presented checkpoint names, by codename, signed artifact and attestation hash, stands for all of that too, and is not below the minimum asked for |
| `ReleasePipeline.CertifiedExactlyWhenCovered` | apps/api/rivexis_api/release_certification.py:136-250 | an aggregated bundle is certified exactly when the reports as written cover the gates: an entitled PASS and no FAIL on each, and every production profile reported |
| `ReleasePipeline.ReleaseRestsOnReports` | apps/api/rivexis_api/release_signing.py:695-740 | behind an accepted attestation about an aggregated bundle stand reports that cover every gate, each sealed, for the signed execution and tree, and not stale at any signature |
| `ReleasePipeline.HonestReleaseSucceeds` | apps/api/rivexis_api/release_signing.py:332-692 | covering reports, evidence in order at one instant and enough entitled signers: the request built is signed by all of them and becomes an accepted attestation |
| `ReleasePipeline.AcceptedIsPublished` | apps/api/rivexis_api/release_lineage.py:123-185 | an accepted attestation is published by whoever presents the true head of an earlier release, in a checkpoint that names it |
| `SchemaContract.SplitTop` | scripts/check_schema_contract.py:16-34 | the loop returns the stripped non-empty pieces between the top-level commas |
| `SchemaContract.PiecesRejoin` | scripts/check_schema_contract.py:16-34 | the unstripped pieces of any text rejoin to it |
| `SchemaContract.WholeExactlyWhenOnePiece` | scripts/check_schema_contract.py:22-32 | the splitter leaves a text in one piece if and only if no position of it holds a comma at depth 0 outside quotes |
| `SchemaContract.PiecesOfJoin` | scripts/check_schema_contract.py:16-34 | texts without a comma at depth 0 outside quotes that scan back to where they began come back from their join; of the last only the comma condition is asked |
| `SchemaContract.SplitInvertsJoin` | scripts/check_schema_contract.py:16-34 | the pieces of a text are the one list of texts without such a comma, all but the last scanning back, whose join it is |
| `SchemaContract.ItemsComeBack` | scripts/check_schema_contract.py:31-34 | non-empty stripped items, each without a comma at depth 0 outside quotes and each scanning back to depth 0 outside quotes, come back from their comma-join |
| `SchemaQuotes.ScanCounts` | scripts/check_schema_contract.py:20-31 | the scan of a text knows exactly the parity of the quotes not after a backslash, and the opening less the closing parentheses outside quotes |
| `SchemaQuotes.OnePieceExactlyWhen` | scripts/check_schema_contract.py:16-34 | a text stays in one piece exactly when no comma stands at level 0 outside quotes, both counted without scanning |
| `SchemaQuotes.PiecesAreCounted` | scripts/check_schema_contract.py:30-32 | there is one piece more than there are such commas |
| `SchemaQuotes.SplitExactlyWhen` | scripts/check_schema_contract.py:16-34 | the pieces are the one list of texts without such a comma, all but the last ending at level 0 outside quotes, whose comma-join is the text |
| `SchemaQuotes.OnlyEmptyItemsGo` | scripts/check_schema_contract.py:34 | dropping the empty items drops nothing else |
| `SchemaQuotes.LiteralsAreClosed` | scripts/check_schema_contract.py:22-25 | a quoted literal is one piece and balanced, whatever commas and parentheses it holds |
| `TableBlocks.FindEnd` | scripts/check_schema_contract.py:45-59 | the inner loop stops at the first place where the text closes, or at its end |
| `TableBlocks.BodyEndsAtMatch` | scripts/check_schema_contract.py:48-59 | a body ends at the parenthesis matching its opening one or at the end of the text: up to there the depth stays positive |
| `SchemaQuotes.BodyEndsExactlyAt` | scripts/check_schema_contract.py:45-59 | a table body ends at the first closing parenthesis outside quotes that brings the level to 0, both counted without scanning |
| `SchemaQuotes.BalancedExactlyWhen` | scripts/check_schema_contract.py:45-59 | a body is balanced exactly when its level ends at 0 outside quotes and is never negative |
| `TableHeaders.MatchExactlyWhen` | scripts/check_schema_contract.py:40 | a header is matched at the front exactly when the text begins with the keywords in any case, blanks, a name, blanks or none, and a parenthesis |
| `TableHeaders.SearchIsLeftmost` | scripts/check_schema_contract.py:40 | the search finds the leftmost header, and nothing only when there is none |
| `TableBlocks.TableBlocksOf` | scripts/check_schema_contract.py:37-61 | the outer loop ends, its cursor passing every body it yields, with the blocks found one after another |
| `TableBlocks.SchemaComesBack` | scripts/check_schema_contract.py:37-61 | a rendered schema with valid names and balanced bodies parses back to exactly its tables, whatever the bodies contain |

## Left out

- Floating point: Python's floats are modelled by `real`, so rounding of times and costs is not captured.
- `CircuitOrders.LinearizableExactlyWhen`: an operation's time runs from its lock to the statement with which it takes effect, and a success is the moment its delete commits; the time a caller waits before and after is not counted, so orders that only such waiting would allow are not considered.
- `RateIsBounded` and the other run theorems of `ProviderRuns` are about sequential runs on the in-process plane; interleavings are treated for PostgreSQL budgets and circuits and for one cache key, not for the whole call.
- Latency totals, `last_error_code`, `last_success_at` and `last_failure_at`, spans, endpoint labels, retry delays and swallowed failures of the event store: they never feed back into a decision.
- `snapshot`, `reset_runtime_state` and the choice of a plane from the environment.
- `ControlPlanes.RedisControlPlane.Failure`: models HINCRBY, HSET and EXPIRE with nothing in between, because the code gives no guarantee when they interleave; a hash left without expiry by a crash between them is not captured.
- `BudgetStores.RedisMembersUsed`: keeps a member as its three parts, so the rounding of the stamp to six decimals inside the name is not captured; the sequence number alone makes names differ within an instance.
- Uniqueness of UUIDs: a fresh row id and a distinct instance id per plane are inputs of the model.
- PostgreSQL itself: a statement sees committed rows and its own writes, advisory locks exclude and end with the transaction; other isolation effects and DDL are not modelled.
- `ExecutionManifest.VerifyExecutionManifest`: takes a typed record: the checks that a JSON value is an object, list, string, integer or boolean, and that a record has exactly the documented fields, are not modelled.
- `StagingReports.ValidateGateResults`: takes a typed record: the checks that a JSON value is an object, list, string, integer or boolean, and that a record has exactly the documented fields, are not modelled.
- `StagingReports.ValidateStagingReport`: takes a typed record: the checks that a JSON value is an object, list, string, integer or boolean, and that a record has exactly the documented fields, are not modelled.
- `ReleaseCertification.AggregateStagingReports`: takes a typed record: the checks that a JSON value is an object, list, string, integer or boolean, and that a record has exactly the documented fields, are not modelled.
- `ReleaseBundles.VerifyReleaseBundle`: takes a typed record: the checks that a JSON value is an object, list, string, integer or boolean, and that a record has exactly the documented fields, are not modelled.
- `SigningRequests.VerifySigningRequest`: takes a typed record: the checks that a JSON value is an object, list, string, integer or boolean, and that a record has exactly the documented fields, are not modelled.
- `ReleaseAttestation.VerifyReleaseAttestation`: takes a typed record: the checks that a JSON value is an object, list, string, integer or boolean, and that a record has exactly the documented fields, are not modelled.
- `ProviderRuntime.Runtime.PersistEvent`: the endpoint label, latency, error class and cache flag of an event, and failures of the event store, which are swallowed, are not modelled.
- `PlaneRuns.BudgetsInRedis`: drives the calls of one worker; runs of several workers on one server are those of `BudgetStores`.
- `CanonicalJson.TextIsInjective`: JSON numbers are integers; floats and non-string keys are not modelled. It reaches the seals of payloads and checkpoints; requests, execution manifests, staging reports and bundles are typed records hashed by abstract functions, so `ReleaseSeals` names the records that would have to collide, not their texts.
- Unicode: `Strings` knows the blanks of Latin-1 and ASCII case only; text is a sequence of characters and its UTF-8 encoding is part of the hash.
- SHA-256, Ed25519, base64, OpenSSL processes, file reading, path resolution and the parsing of timestamps are functions or values given from outside; datetime overflow is not modelled.
- Anything that would make `verify_release_bundle` recompute row statuses from observations: it does not, and only aggregation fixes them.
- A second genesis, or two advances from one head: the code allows both, and lineage runs assume one register that every advance names.
- `classify_gate_process_result`, `gate_enabled`, `certification_plan`, `report_plan_for_profile`: lookups in constant tables and matching of fixed texts.
- The rest of `check_schema_contract.py` (regular expressions over items, SQLite inspection), and the decision engines, chains, providers, HTTP services, user interface and database migrations of the repository.
