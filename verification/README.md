# Reliastra: proofs about the protocols behind monitoring, sessions and requests

Reliastra probes third-party dependencies from several regions, opens and resolves incidents by
quorum, and serves an API whose sessions, tokens, caches and limits live in PostgreSQL and Redis.
This project models the parts of it that are small protocols or algorithms with a promise of their
own, one module per part, and proves that promise over all inputs, all runs, or all interleavings.

| module | part |
|---|---|
| `CheckQuorum` | concurrent check transactions: insert, row lock, read, evaluate, open or resolve, commit or abort |
| `CheckLifecycle` | what deletion, pausing, blocked URLs and aborts rule out for those checks |
| `CheckWindow` | what those openings and resolutions mean in terms of the 60 s window and of consecutive successes |
| `DueScheduler` | the bounded oldest-first scheduling pass |
| `RefreshTokens`, `RefreshRaces` | refresh-token families, serially and with interleaved transactions |
| `Idempotency` | the response cache and single-flight lock, step by step over Redis |
| `CircuitBreaker` | the counter document and the half-open probe lease |
| `RateLimiter` | the pruned, expiring sorted set against the full log |
| `CursorPagination` | walking a list by cursor while rows are inserted and soft-deleted |
| `Calendar`, `Partitions`, `PartitionRuns` | monthly partitions: calendar arithmetic, one maintenance run, any sequence of runs |
| `PinnedRedirects` | the redirect loop with pinned addresses and cached transports |
| `LastUsedFlush` | API-key use times in Redis and their batched flush |
| `Attribution` | the five signals, their weighted confidence, and the evidence lists |
| `CheckStats` | uptime statistics, single and grouped |
| `SessionCommit` | committing only sessions that wrote |
| `Runs`, `OrderedQuery`, `Options`, `Rounding` | runs of a guarded transition system, `ORDER BY ... LIMIT`, option values, Python's `round` |

Objects that the program updates in place are classes here, and each of their methods is proved
against a function of the old state; the theorems are about those functions and about transition
systems built from them. What an outside party decides is a parameter: query results (constrained to
be a possible answer of the query), clocks, DNS answers, server replies, handler answers, the
interleaving, and which transactions abort. Redis always answers. Times are integers (microseconds)
or reals (seconds).

## Where the code and its own text disagree

The model follows the code.

- `app/modules/checks/service.py:347` speaks of two regions with two consecutive successes; the code asks for one success of another region among the four newest rows. `CheckWindow.ResolvesIffOtherAmongFour` and `CheckWindow.ResolutionIsUnbrokenIff` are the exact conditions, `CheckWindow.ResolvesOverNewerFailure` a run that resolves over a newer failure.
- `app/modules/checks/service.py:315` asks for two regions that failed within 60 s; the evaluating check's own region counts however old its row has become while it waited for the lock. `CheckWindow.EventsInWindow` gives the exact condition for every opening. The task's soft time limit of 60 s (`app/modules/checks/tasks.py:24`) keeps the promise when it is enforced (`CheckWindow.SoftLimitKeepsWindow`); the run `CheckWindow.StaleOwnRowOpens` needs a task that outlives it.
- `app/modules/auth/service.py:182-184` says that reuse revokes the whole family; the request then raises and `get_db` rolls the revocation back (`RefreshTokens.ReuseRevocationIsLost`). Overlapping requests reach that branch (`RefreshRaces.ReuseReachable`), and the family's newest token stays redeemable (`RefreshRaces.ReuseLeavesNewestRedeemable`).
- `app/main.py:152-155` says that only the first concurrent request runs the handler; a request that missed the cache before the first answer was stored runs it again if and only if nobody holds the lock when it tries (`Idempotency.HandlerStartsIff`, with the run `Idempotency.HandlerCanRunTwice`), and a handler that raises is called a second time without the lock (`Idempotency.RaiseBreaksSingleFlight`).
- `app/main.py:107-110` guarantees that two principals never share a cached answer; `Idempotency.CredentialsAreApart` proves it for names without a colon (users, API keys, IPv4 clients), and `Idempotency.PrincipalsMeetIff` is the exact condition for all, which addresses written with colons can fail.
- `app/core/circuit_breaker.py:11-12` describes a half-open state; the document is only ever open or closed. Its outcomes are all counted if and only if no two records overlap (`CircuitBreaker.OutcomesCountedIff`).
- `app/modules/checks/partition_manager.py:58` promises the current month plus the next `count`; the loop yields `count` months, the current one included.
- `app/modules/api_keys/tasks.py:1-8` says every recorded use is drained to the table; a use between a flush's read and its delete is dropped (`LastUsedFlush.OverwrittenUseIsLost`). `LastUsedFlush.StoredIff` says exactly which uses arrive.

## Model

| member | source | states |
|---|---|---|
| `CheckQuorum.TwoRegions` | app/modules/checks/service.py:316-322 | the quorum count reaches two exactly when another region reports the same outcome |
| `CheckQuorum.Decide` | app/modules/checks/service.py:314-361 | when a check is confirmed, when it opens an incident, and when it resolves the open one, each as an if-and-only-if over the recent rows; the next two rows say it with the numbers written out |
| `CheckQuorum.RecoveryReadsFour` | app/modules/checks/service.py:346-353 | a success resolves the open incident if and only if one of the four newest rows is a success of another region |
| `CheckQuorum.FailureNeedsAnother` | app/modules/checks/service.py:314-333 | a failure is confirmed if and only if some recent row is a failure of another region, and opens an incident if and only if it is confirmed and none is open |
| `CheckQuorum.FirstOpen` | app/modules/checks/service.py:340-344 | finds an open incident exactly when there is one |
| `CheckQuorum.CheckSession.EvaluateQuorum` | app/modules/checks/service.py:314-361 | the row and the incident list after one evaluation: a failure that another region confirms appends one open incident if none is open, a success that another region confirms among the four newest rows closes the open one, and nothing else changes |
| `CheckQuorum.IncidentsAlternate` | app/modules/checks/service.py:299-361 | in every reachable state of the interleaved transactions at most one incident is open and the log strictly alternates between opening and resolving |
| `CheckQuorum.EventsAreWitnessed` | app/modules/checks/service.py:314-361 | every opening and every automatic resolution was made by a committed check that, when it evaluated, had seen another region's result of the same outcome, committed by then and at most 60,000,000 µs old; every check that opened is quorum-confirmed |
| `CheckQuorum.ConfirmedIff` | app/modules/checks/service.py:314-327 | over all runs, a committed check is quorum-confirmed if and only if it failed on a live dependency and another region's failure was visible in its window, and an incident was then open at its commit |
| `CheckQuorum.QuorumNeverMissed` | app/modules/checks/service.py:299-333 | if committed failing probes cover two regions and all lie within 60 s when the last of them to take the lock evaluates, that one is confirmed and commits with an incident open, whatever the interleaving, aborts and retries |
| `CheckWindow.ConfirmedInWindowIff` | app/modules/checks/service.py:316-322 | a confirmation rests on failures of two regions in the 60 s up to its evaluation if and only if the check waited at most 60 s for it or the rows it read already covered two regions |
| `CheckWindow.EventsInWindow` | app/modules/checks/service.py:314-361 | for every entry of the incident log: what its check saw lies in the 60 s up to the evaluation; an opening is confirmed, and has two regions inside the window under exactly that condition; a resolution saw another region's success |
| `CheckWindow.SoftLimitKeepsWindow` | app/modules/checks/tasks.py:24 | with the soft time limit in force, over all runs every opening and every confirmation rests on two regions inside the window |
| `CheckWindow.LimitedStepIff` | app/modules/checks/tasks.py:24 | the limit forbids evaluations more than 60 s after the insert and nothing else |
| `CheckWindow.TimesOrderedKept` | app/modules/checks/repository.py:22-40 | every step keeps row times no later than the clock, and rows committed before an evaluation no later than it |
| `CheckWindow.StaleOwnRowOpens` | app/modules/checks/service.py:321-322 | without the limit, a run in which a check that waited 61 s for the lock opens an incident on one region's recent failure |
| `CheckWindow.ResolvesIffOtherAmongFour` | app/modules/checks/service.py:346-353 | an open incident is resolved if and only if another region's newest success is among the four newest rows, whatever failures are newer |
| `CheckWindow.ResolutionIsUnbrokenIff` | app/modules/checks/service.py:346-353 | a resolution rests on a success with no newer failure if and only if no failing row precedes the newest success of another region |
| `CheckWindow.ResolvingStepIsUnbrokenIff` | app/modules/checks/service.py:309-353 | the same for every evaluation, in any state of the transactions, that decides to resolve |
| `CheckWindow.ResolvesOverNewerFailure` | app/modules/checks/service.py:346-353 | a run from the empty state that resolves over a newer failure, with no region having two successes |
| `CheckQuorum.TwoInsertsDeadlock` | app/modules/checks/models.py:34-38 | with the foreign key's row locks, two checks that have both inserted never take the lock in any continuation in which neither is aborted |
| `CheckQuorum.EvaluationIsAlone` | app/modules/checks/service.py:299-307 | with those locks, whenever a check holds the row lock every other row of the dependency is committed or gone |
| `CheckQuorum.LocksSerialiseKept` | app/modules/checks/service.py:299-307 | every step keeps the order of evaluations equal to the order of their commits |
| `CheckQuorum.SawIsStable` | app/modules/checks/repository.py:70-90 | what an evaluation has seen is not changed by any later step of any transaction |
| `CheckQuorum.CommitKeepsIncidents` | app/infrastructure/async_tasks.py:145-157 | a commit applies the decided change to the incidents as they are at the commit, keeping at most one open |
| `CheckQuorum.InvKept` | app/modules/checks/service.py:287-361 | every step of every transaction keeps the whole invariant |
| `CheckLifecycle.DeletionStopsChecks` | app/modules/checks/service.py:193-195 | once a dependency is soft-deleted, in every continuation no check of it begins, and none that had not been evaluated by then is confirmed or changes an incident |
| `CheckLifecycle.AbortLeavesNothing` | app/infrastructure/async_tasks.py:145-157 | in every reachable state an uncommitted check can abort; it then holds no lock, and no row, incident or other check has changed |
| `CheckLifecycle.PausedBeginsNothing` | app/modules/checks/service.py:193-195 | while a dependency is paused no check of it begins, whatever the checks under way do |
| `CheckLifecycle.BlockedNeverEvaluates` | app/modules/checks/service.py:219-228 | a check whose URL was blocked stores a failure or nothing, and in no continuation takes the lock, evaluates or is confirmed |
| `DueScheduler.Scheduler.ScheduleDueChecks` | app/modules/checks/service.py:145-161 | every row of the batch was due and is set to the pass plus its interval in seconds, with its other fields and all other rows kept, and the batch's tasks are queued in order |
| `DueScheduler.Scheduler.Dispatch` | app/modules/checks/service.py:148-155 | the loop over the batch, against the table it started from: each next check is its own interval after the pass |
| `DueScheduler.Scheduler.Enqueue` | app/modules/checks/service.py:152-155 | one task for each region, in order |
| `DueScheduler.BatchIsDue` | app/modules/dependencies/repository.py:59-80 | a batch holds at most 500 active, undeleted rows that are due, oldest first, and all of them when it is not full |
| `DueScheduler.AdvancedMeans` | app/modules/checks/service.py:148-149 | after a pass a row of the batch is due at a time if and only if it is active, not deleted, and its interval has passed since; everything else is as before |
| `DueScheduler.DispatchedPairs` | app/modules/checks/service.py:148-155 | a pair is dispatched if and only if its dependency is in the batch and its region is one of the dependency's |
| `DueScheduler.DispatchesEachPairOnce` | app/modules/checks/service.py:148-155 | a pass dispatches every pair of its batch exactly once and no other, with us-east and eu-west for dependencies that list no regions |
| `DueScheduler.SkippedPassIsFull` | app/modules/dependencies/repository.py:59-80 | a pass that leaves an overdue row out consists of 500 rows due no later than it |
| `DueScheduler.SkippedPassRemovesRivals` | app/modules/checks/service.py:148-149 | such a pass takes exactly 500 rows out of the waiting row's way |
| `DueScheduler.NoStarvation` | app/modules/checks/service.py:145-161 | an overdue active dependency with A rows due at or before it is dispatched within A/500 + 1 passes, whatever is added or changed behind it |
| `DueScheduler.DispatchesAreSpaced` | app/modules/checks/service.py:145-161 | over any passes, two dispatches of one dependency are at least its interval apart |
| `DueScheduler.DispatchedAfterInterval` | app/modules/checks/service.py:145-161 | and an active dependency is dispatched again by the first pass, its batch not full, that comes its interval after the last dispatch |
| `RefreshTokens.LatestSequence` | app/modules/auth/repository.py:51-59 | the greatest sequence of the family, 0 when it has no rows |
| `RefreshTokens.AuthStore.RevokeFamily` | app/modules/auth/repository.py:61-76 | revokes every row of the family and no other, and counts them |
| `RefreshTokens.AuthStore.RevokeRefreshToken` | app/modules/auth/repository.py:78-88 | revokes the one row of the token, and says whether there was one |
| `RefreshTokens.AuthStore.CreateRefreshToken` | app/modules/auth/repository.py:20-40 | adds one live row and keeps tokens unique |
| `RefreshTokens.AuthStore.Refresh` | app/modules/auth/service.py:158-216 | the session's rows and the answer, for every error path and for rotation |
| `RefreshTokens.IssuedIff` | app/modules/auth/service.py:158-203 | a refresh is granted if and only if the token decodes, its user is active, and its row is live and carries the greatest sequence of its family |
| `RefreshTokens.IssuedRows` | app/modules/auth/service.py:204-215 | a granted refresh revokes the presented row, appends the issued token with the family's next sequence, and changes nothing else |
| `RefreshTokens.FailureIs` | app/modules/auth/service.py:161-198 | which of the five errors a refused refresh gets, each as an if-and-only-if over the rows and the request |
| `RefreshTokens.AuthStore.HandleRefresh` | app/db/session.py:206-218 | the committed table after a refresh request: granted under exactly that condition and then rotated as stated, and in every other case as it was |
| `RefreshTokens.AuthStore.HandleLogout` | app/modules/auth/service.py:218-223 | commits the revocation of the presented token alone |
| `RefreshTokens.LiveRowIsLast` | app/modules/auth/service.py:185-190 | a live token carries its family's latest sequence, so reuse is not reported for it |
| `RefreshTokens.RotationKeepsChain` | app/modules/auth/service.py:204-215 | rotating a live token keeps every family a chain 1..n in which only token n can be live |
| `RefreshTokens.StepKeepsInv` | app/modules/auth/service.py:140-223 | logins, refreshes and logouts keep all families chains with unique tokens |
| `RefreshTokens.SerialRotation` | app/modules/auth/service.py:158-216 | in every state that serial requests reach, each family's sequences are exactly 1..n, only token n can be live, and the reuse branch is unreachable |
| `RefreshTokens.RedeemedOnce` | app/modules/auth/service.py:168-171 | once a token has been redeemed, presenting it again fails after any further requests |
| `RefreshTokens.LogoutKillsFamily` | app/modules/auth/service.py:218-223 | after logging out with the live token, no token of the family is ever live or redeemable again |
| `RefreshTokens.ReuseRevocationIsLost` | app/modules/auth/service.py:190-198 | on any table where reuse is detected, the revocation stays in the session: the committed table is unchanged, and the newest live token can still be redeemed |
| `RefreshRaces.ForkNeedsOverlap` | app/modules/auth/service.py:165-215 | a family with two live tokens, or a live token below its maximum, has two committed refreshes of one token that overlapped in time |
| `RefreshRaces.DoubleRedemptionOverlaps` | app/modules/auth/service.py:165-215 | two committed refreshes of the same token always overlapped |
| `RefreshRaces.ForkReachable` | app/modules/auth/service.py:165-215 | a run of two overlapping refreshes, the second update waiting for the first commit, that forks a family |
| `RefreshRaces.RefreshGoesThrough` | app/modules/auth/service.py:165-215 | a live newest token whose row is not locked is redeemed by a whole refresh, from any state |
| `RefreshRaces.ReuseReachable` | app/modules/auth/service.py:187-198 | a run that reaches the reuse branch while the family's newest token is live |
| `RefreshRaces.ReuseLeavesNewestRedeemable` | app/db/session.py:216-218 | after the request that detected reuse is rolled back, the family's newest token is redeemed as before, from any state |
| `RefreshRaces.OneTokenPerSequence` | app/modules/auth/service.py:204-211 | where no token was redeemed twice, a family has one token per sequence |
| `RefreshRaces.LowerIsRevoked` | app/modules/auth/service.py:212-215 | and every token below another one of its family is revoked |
| `RefreshRaces.StepKeepsInv` | app/modules/auth/service.py:158-223 | every read, check, insert, revoke, commit and abort keeps the invariant of the interleaved system |
| `RefreshRaces.DetectedReuseOnlyRollsBack` | app/db/session.py:216-218 | a transaction that detected reuse can only roll back, changing no token |
| `RefreshRaces.RevokedRowIsLocked` | app/modules/auth/repository.py:78-88 | in every run, while one refresh holds an uncommitted revocation no other one does for that token, and no step but its own commit changes the row |
| `Idempotency.CacheKeyLooksLikeLock` | app/main.py:141-156 | a cache key can equal some lock key only for client keys that are "lock" or end in ":lock" |
| `Idempotency.PrincipalsMeetIff` | app/main.py:141-142 | two different principals can share a cache key, for some client keys, if and only if one of them continues the other past a colon |
| `Idempotency.CredentialsAreApart` | app/main.py:103-128 | principals whose names have no colon share a cache key only when kind, name and client key are all equal |
| `Idempotency.Middleware.Dispatch` | app/main.py:140-207 | which outcome a request gets, as an if-and-only-if over the entry, the lock and the clock, and what it leaves: an executed answer of status 2xx, 404, 409 or 422 is stored for 86,400 s, any other leaves the cache as it was |
| `Idempotency.RetryIsReplayed` | app/main.py:142-150 | after an answer of status 2xx, 404, 409 or 422, a retry within 86,400 s replays it and changes nothing, and a later one runs the handler |
| `Idempotency.RetryIsExecuted` | app/main.py:178-207 | after any other answer every retry runs the handler again |
| `Idempotency.ServedIsARun` | app/main.py:140-207 | the uninterrupted request is a run of the interleaved steps |
| `Idempotency.AtMostOneInFlight` | app/main.py:156-176 | when handlers do not raise and finish within the lock's 60 s, no two handlers for one key are in flight together |
| `Idempotency.HandlerStartsIff` | app/main.py:152-168 | on calm runs a request that has missed the cache starts the handler if and only if no request is between taking and releasing the lock |
| `Idempotency.OnlyEarlyReadersRun` | app/main.py:142-206 | the handler runs only for requests whose cache read came before each store of a cacheable answer, or 24 h after it |
| `Idempotency.ReplaysAreExecutions` | app/main.py:142-150 | every replay is the answer of an earlier execution under the same key, of status 2xx, 404, 409 or 422 |
| `Idempotency.StoredStatuses` | app/main.py:98-100 | over all runs, every response that was stored has status 2xx, 404, 409 or 422 |
| `Idempotency.FinishStoresIff` | app/main.py:178-207 | a request that released its lock stores its answer for 86,400 s if and only if its status is one of these |
| `Idempotency.RaisedStoresNothing` | app/main.py:208-210 | a request whose handler raised ends with the second call's answer and stores nothing, in any continuation |
| `Idempotency.HandlerCanRunTwice` | app/main.py:142-177 | a calm run in which a second handler starts after the first one's answer was stored |
| `Idempotency.RaiseBreaksSingleFlight` | app/main.py:208-210 | a run in which a handler that raised runs again beside another one |
| `Idempotency.SlowHandlerBreaksSingleFlight` | app/main.py:157 | a run in which a handler slower than 60 s is joined by a second one |
| `CircuitBreaker.Breaker.ShouldDispatch` | app/core/circuit_breaker.py:91-120 | a closed breaker dispatches; an open one if and only if 60 s have passed since its opening and no lease is held, and then takes one for 60 s |
| `CircuitBreaker.Breaker.Record` | app/core/circuit_breaker.py:128-160 | the stored document and the lease after one outcome |
| `CircuitBreaker.FailureRefines` | app/core/circuit_breaker.py:148-157 | recording a failure keeps the counters equal to what the whole history says |
| `CircuitBreaker.SuccessRefines` | app/core/circuit_breaker.py:133-147 | so does recording a success |
| `CircuitBreaker.CountersRefineHistory` | app/core/circuit_breaker.py:128-158 | after any outcomes the breaker is open if and only if some three consecutive failures are not followed by two consecutive successes, and its opening time is that of the last failure that ended a run of three or more |
| `CircuitBreaker.OutcomesCountedIff` | app/core/circuit_breaker.py:128-158 | however loads and saves interleave, the breaker is what the outcomes it counts say, and it counts all of them if and only if no record was saved between another one's load and save |
| `CircuitBreaker.OverlappingRecordsLoseAFailure` | app/core/circuit_breaker.py:132-158 | a run of loads and saves in which three failures leave the breaker closed although the history says open |
| `CircuitBreaker.GrantsAreSpaced` | app/core/circuit_breaker.py:103-118 | in every run of any number of schedulers, half-open grants are at least 60 s apart, across a close and reopen too, and at least 60 s after the latest opening |
| `CircuitBreaker.ProbeGrantedIff` | app/core/circuit_breaker.py:103-118 | in every reachable state an open breaker grants a probe if and only if its latest opening and every grant since it last closed are at least 60 s ago |
| `CircuitBreaker.StepKeepsGrantInv` | app/core/circuit_breaker.py:136-157 | every report and every dispatch keeps that spacing |
| `RateLimiter.SlidingWindowRateLimiter.Check` | app/core/rate_limit.py:77-95 | as long as the clock does not go back, an attempt is accepted if and only if fewer than `limit` members, and with distinct members fewer than `limit` attempts, of the full log lie in its window |
| `RateLimiter.KeptIsWindow` | app/core/rate_limit.py:82 | pruning and expiry leave exactly the members with an attempt in the window |
| `RateLimiter.CountIsCardinality` | app/core/rate_limit.py:83-84 | the members of a window are at most its attempts, and as many if and only if the attempts have distinct members |
| `RateLimiter.StoreTracksLog` | app/core/rate_limit.py:81-85 | after any attempts the set is the sound and sufficient part of the log |
| `RateLimiter.DecidesLikeFullLog` | app/core/rate_limit.py:77-95 | the pruned, expiring set decides as a limiter that keeps the full log, for every limit, if and only if the attempts in the window have distinct members |
| `RateLimiter.NeverStricter` | app/core/rate_limit.py:77-95 | whatever the members, the set never refuses what the full log would allow |
| `RateLimiter.AcceptedAreRecent` | app/core/rate_limit.py:90-95 | accepted attempts of a window are among those the limiter counts at its last attempt |
| `RateLimiter.AtMostLimitPerWindow` | app/core/rate_limit.py:77-95 | with members distinct within a window, no half-open window of the limiter's length holds more than `limit` accepted requests |
| `RateLimiter.SharedMemberOverruns` | app/core/rate_limit.py:84 | attempts that share a member string are counted once, and three pass a limit of two |
| `CursorPagination.SlicePage` | app/core/pagination.py:90-97 | the page is a prefix of at most `limit` rows, and has a cursor, its last row, exactly when rows remain |
| `CursorPagination.PageDescends` | app/modules/dependencies/repository.py:22-45 | a page holds only rows that are not deleted and older than the cursor, in strictly descending order |
| `CursorPagination.PageLeavesOlder` | app/core/pagination.py:90-97 | every admitted row a page leaves out is no newer than the cursor the page then has, and older when creation times are distinct |
| `CursorPagination.WalkRepeatsNothing` | app/modules/dependencies/repository.py:22-45 | following cursors under concurrent inserts and soft deletes returns no row twice, in descending order |
| `CursorPagination.WalkFindsLiveRows` | app/modules/dependencies/repository.py:37-43 | from any cursor, a finished walk reaches every row that stays live and is older than the cursor |
| `CursorPagination.FullPages` | app/core/pagination.py:90-97 | every request but the last takes a full page |
| `CursorPagination.WalkTerminates` | app/core/pagination.py:90-97 | all pages but the last fill up with rows that existed at the start, so the walk ends |
| `CursorPagination.WalkReturnsLiveRowsOnce` | app/modules/dependencies/repository.py:22-45 | a finished walk returns every row live throughout exactly once |
| `CursorPagination.WalkReturnsOnlyLive` | app/modules/dependencies/repository.py:22-45 | whatever changes between the requests, every row a walk returns was not deleted when its page was read |
| `CursorPagination.StaticWalkIsWholeList` | app/modules/dependencies/repository.py:22-45 | on a table nobody changes, the pages concatenate to exactly the rows that are not deleted, each once, newest first |
| `CursorPagination.WalkStaysBefore` | app/modules/dependencies/repository.py:37-43 | whatever the creation times, a walk returns only rows older than the cursor it started from |
| `CursorPagination.ReturnedIffNotTied` | app/modules/dependencies/repository.py:37-43 | whatever the creation times, a finished walk returns a row that stays live if and only if no page border before it is tied with it |
| `CursorPagination.TiedRowIsSkipped` | app/modules/dependencies/repository.py:37-43 | a walk over two rows of the same creation time that never returns the second |
| `Calendar.BoundsAreTheMonth` | app/modules/checks/partition_manager.py:34-41 | a month's bounds contain exactly the instants of that month, and only December 9999 has none |
| `Partitions.RangesAreDisjoint` | app/modules/checks/partition_manager.py:34-41 | ranges of two months overlap only when the months are the same |
| `Calendar.DecimalIsInjective` | app/modules/checks/partition_manager.py:44-45 | a number is determined by its decimal digits |
| `Calendar.TextIsInjective` | app/modules/checks/partition_manager.py:44-45 | distinct months have distinct partition names |
| `Calendar.TextReads` | app/modules/checks/partition_manager.py:44-45 | the name is the table's, then the year in decimal, then the month in two digits |
| `Partitions.MonthsAhead` | app/modules/checks/partition_manager.py:57-68 | exactly `count` consecutive months starting with the current one, or the error past year 9999 |
| `Partitions.CreateAddsMonth` | app/modules/checks/partition_manager.py:48-55 | a statement adds its month, and is refused exactly when the month is new and DEFAULT holds a row of it |
| `Partitions.CreationKeepsApart` | app/modules/checks/partition_manager.py:48-55 | whatever the names and ranges, a statement that goes through keeps all ranges pairwise apart, with no DEFAULT row in the new one |
| `Partitions.PartitionManager.CreateMonth` | app/modules/checks/partition_manager.py:81-88 | one month's statement, and when it fails |
| `Partitions.PartitionManager.CreateAll` | app/modules/checks/partition_manager.py:80-88 | the loop goes through if and only if no month of the window is blocked, and then covers all of it |
| `Partitions.PartitionManager.EnsurePartitions` | app/modules/checks/partition_manager.py:71-91 | a run commits the partitions of its whole window or leaves the table's partitions as they were |
| `PartitionRuns.OnePartitionAtMost` | app/modules/checks/partition_manager.py:48-55 | a timestamp lies in a monthly partition if and only if its month has one, and in no second one |
| `PartitionRuns.DefaultRowsHaveNoPartition` | app/modules/checks/partition_manager.py:1-12 | at every point of every run, rows in DEFAULT lie in none of the monthly ranges |
| `PartitionRuns.CoveredIff` | app/modules/checks/partition_manager.py:71-91 | a month has a partition if and only if some earlier run that went through had it in its window |
| `PartitionRuns.InDefaultIff` | app/modules/checks/partition_manager.py:1-12 | a row is in DEFAULT if and only if it was inserted while its month had no partition |
| `PartitionRuns.TimelyRunsLeaveNoGap` | app/modules/checks/partition_manager.py:71-91 | when runs are at most `count` months apart, each goes through, the partitions have no gap, and DEFAULT stays empty |
| `PartitionRuns.TimelyRowsHaveOnePartition` | app/modules/checks/partition_manager.py:71-91 | on such runs every inserted row lies in exactly one of the tables' partitions |
| `PartitionRuns.LateMonthIsNeverRepaired` | app/modules/checks/partition_manager.py:82-88 | once a row of a month is in DEFAULT, no later run creates that month, and every run whose window holds it fails as a whole |
| `PinnedRedirects.NetworkIsRange` | app/core/ssrf_protection.py:35-45 | matching a network's leading bits is lying between its first and last address |
| `PinnedRedirects.BlockedIff` | app/core/ssrf_protection.py:35-45 | an address is blocked if and only if it lies in one of the eight ranges, given by their first and last addresses |
| `PinnedRedirects.ResolvePinnedTarget` | app/core/ssrf_protection.py:138-157 | a target's addresses are those of its second resolution, non-empty and all outside the blocked networks, and the first resolution passed too |
| `PinnedRedirects.TargetIff` | app/core/ssrf_protection.py:66-157 | a URL is a target if and only if its scheme is http or https, it has a host and a readable port, no address it names or first resolved to lies in a blocked range, and its second resolution gave only addresses outside them |
| `PinnedRedirects.TransportCache.PinnedTransportFor` | app/core/ssrf_protection.py:229-247 | the transport, cached or new, connects to the target's own validated address; cached entries are kept |
| `PinnedRedirects.TransportCache.ClosePinnedTransports` | app/core/ssrf_protection.py:250-257 | leaves the cache empty |
| `PinnedRedirects.ChainsAgree` | app/modules/checks/service.py:258-269 | the redirect chain is determined by the answers |
| `PinnedRedirects.EndIsUnique` | app/modules/checks/service.py:254-270 | once a chain has ended, no other one reaches an expected response |
| `PinnedRedirects.UpIffReached` | app/modules/checks/service.py:272-279 | a check is up if and only if some chain within the limit reaches an expected response |
| `PinnedRedirects.Prober.Probe` | app/modules/checks/service.py:217-285 | for every DNS and server behaviour: at most six requests, each to an address of its own hop's resolution, all of whose addresses lie outside the blocked ranges, and up if and only if following at most five redirects of status 301, 302, 303, 307 or 308 reaches an expected response that is no redirect |
| `LastUsedFlush.BatchIsPointwiseMax` | app/modules/api_keys/repository.py:99-122 | the batched CASE update is a pointwise maximum, in whatever order the dictionary lists its entries |
| `LastUsedFlush.Flusher.DrainLastUsed` | app/modules/api_keys/tasks.py:24-44 | at most 500 entries, each with its current value, and all of the scanned ones unless the batch is full |
| `LastUsedFlush.Flusher.Flush` | app/modules/api_keys/tasks.py:59-95 | a flush on its own moves every drained entry to its row, raises no other row, and deletes only what it drained |
| `LastUsedFlush.StepKeepsInv` | app/modules/api_keys/repository.py:111-121 | row locks keep every flush's uncommitted values right for the rows as they are |
| `LastUsedFlush.RowsNeverGoBack` | app/modules/api_keys/repository.py:106-108 | whatever uses, expiries and flushes interleave, no stored time ever decreases |
| `LastUsedFlush.StoredIsAUse` | app/modules/api_keys/service.py:58-69 | every stored time is the initial one or that of a real use |
| `LastUsedFlush.CommitDelivers` | app/modules/api_keys/tasks.py:80-95 | a flush that commits leaves each drained row at the drained time or later |
| `LastUsedFlush.StoredIff` | app/modules/api_keys/tasks.py:59-95 | over all runs a row has reached a time if and only if it started there or a committed flush had read a time at least as late for its key |
| `LastUsedFlush.LatestUseDeliveredIff` | app/modules/api_keys/tasks.py:1-8 | a key's latest use is in the table if and only if some flush that read it or a later time committed, or the row already stood there |
| `LastUsedFlush.NeverLaterThanLatestUse` | app/modules/api_keys/service.py:58-69 | with a clock that does not go back, a time that a flush has stored is never later than the key's latest use |
| `LastUsedFlush.QuietMeansDelivered` | app/modules/api_keys/tasks.py:59-95 | with nothing left in Redis or in flight, a key's latest use is in the table unless it expired, was overwritten between read and delete, or its flush failed to commit |
| `LastUsedFlush.OverwrittenUseIsLost` | app/modules/api_keys/tasks.py:67-91 | from every state with a use newer than what a flush read, finishing the flush drops that use from Redis and leaves an earlier time in the row |
| `LastUsedFlush.OverwriteIsReachable` | app/modules/api_keys/tasks.py:24-44 | a run of two uses and one flush reaches such a state |
| `Attribution.CoefficientBound` | app/modules/attribution/service.py:97-111 | the squared coefficient before clamping is at most n - 1 times (mean / (mean + 1)) squared |
| `Attribution.VarianceBound` | app/modules/attribution/service.py:107-110 | the variance of n latencies is at most n - 1 times the squared mean |
| `Attribution.DeviationIsUnique` | app/modules/attribution/service.py:106-111 | the latencies determine mean and deviation |
| `Attribution.LatencySignalIs` | app/modules/attribution/service.py:97-111 | with two latencies or more the signal is the deviation over the mean plus one, 1 at most; with fewer it is 0 |
| `Attribution.ErrorSignalBounds` | app/modules/attribution/service.py:113-126 | the error signal is at least one over the number of error types, and 1 if and only if there is one type |
| `Attribution.ErrorSignalIsLargestShare` | app/modules/attribution/service.py:113-126 | it is the share of the commonest error type |
| `Attribution.SignalsAre` | app/modules/attribution/service.py:31-95 | the other signals: another incident open, the largest correlation confidence up to 1, sound infrastructure |
| `Attribution.SignalsInRange` | app/modules/attribution/service.py:31-41 | for any observations all five signals lie in 0..1 if and only if not all correlation confidences are negative |
| `Attribution.ConfidenceInRange` | app/modules/attribution/service.py:42-47 | confidence lies in 0..100, at most 85 with the infrastructure at fault and at least 15 without |
| `Attribution.ClassifiedIff` | app/modules/attribution/service.py:42-55 | confidence is the nearest hundredth to the sum weighted 20, 25, 25, 15 and 15 percent, and each class is given if and only if that sum is in its range: from 74.995, from 49.995, or below with the infrastructure at fault or not |
| `Attribution.ScoresAreNearest` | app/modules/attribution/service.py:41-41 | each score is a nearest ten-thousandth to its signal |
| `Attribution.RaisingSignalsRaisesConfidence` | app/modules/attribution/service.py:42-55 | raising signals other than the infrastructure one never lowers the rounded confidence or the class |
| `Attribution.OrderIsIrrelevant` | app/modules/attribution/service.py:97-126 | reordering the observations changes no sum, deviation or signal |
| `Attribution.CollectSupporting` | app/modules/attribution/service.py:128-151 | supporting evidence is the failing observations in order and then the signals of at least one half |
| `Attribution.EvidenceSplitsSignals` | app/modules/attribution/service.py:146-161 | every signal is evidence exactly once, for or against |
| `Attribution.SignalSides` | app/modules/attribution/service.py:146-161 | a signal supports the attribution if and only if its score is at least one half, and contradicts it otherwise |
| `CheckStats.GroupByDependency` | app/modules/checks/repository.py:154-168 | one pass over the results gives each wanted dependency with rows the aggregate of its own rows |
| `CheckStats.StatsOfGroups` | app/modules/checks/repository.py:170-174 | one entry for every row of the grouped query |
| `CheckStats.SetDefaults` | app/modules/checks/repository.py:175-186 | ids without an entry get the default, entries stay |
| `CheckStats.GetAggregatedStatsBulk` | app/modules/checks/repository.py:144-187 | for every table and id list, the bulk result holds exactly the listed ids, each with its single-dependency statistics |
| `CheckStats.OneRowAggregates` | app/modules/checks/repository.py:136-147 | a row counts if and only if it is the dependency's, executed at or after the window's start, and the dependency is not deleted |
| `CheckStats.AggregateAdds` | app/modules/checks/repository.py:136-147 | the aggregate of a table is that of its parts, added up |
| `CheckStats.GroupsPartitionRows` | app/modules/checks/repository.py:154-168 | the groups' counts add up to the rows in the window: none lost, none counted twice |
| `CheckStats.StatsMeaning` | app/modules/checks/repository.py:106-126 | the counts are the aggregate's, ups and downs make up the checks, the percentage lies in 0..100, and 100.00 is reported if and only if at most one check in 20000 was down |
| `CheckStats.FiguresAreNearest` | app/modules/checks/repository.py:115-126 | the percentage is a nearest hundredth to the share of successes, and the latency one to the mean latency |
| `CheckStats.DeletedHasNoChecks` | app/modules/checks/repository.py:133-143 | a soft-deleted dependency is reported like one without results |
| `SessionCommit.UnflaggedWroteNothing` | app/db/session.py:23-46 | a session whose flag is unset has written nothing in its transaction, after any operations |
| `SessionCommit.ElisionIsSound` | app/db/session.py:203-215 | leaving out the commit gives the database an unconditional commit would |
| `SessionCommit.ElisionSoundIff` | app/db/session.py:203-215 | for any operations, eliding agrees with an unconditional commit on every database if and only if the guard commits or the transaction wrote nothing |
| `SessionCommit.FlagIff` | app/db/session.py:36-46 | the flag is set if and only if a statement other than SELECT was executed or a flush had something to write |
| `SessionCommit.RequestLeavesIntended` | app/db/session.py:192-220 | a request leaves the table that its additions, changes, deletions and statements, done one by one, leave, with rollbacks and failed flushes taking back what came before |
| `SessionCommit.WritingSelectIsLost` | app/db/session.py:42-46 | a SELECT that writes sets no flag, and its write is rolled back |
| `SessionCommit.Database.GetDb` | app/db/session.py:192-220 | a request that raises leaves the database unchanged, any other leaves what an unconditional commit would |
| `OrderedQuery.ShortResultIsComplete` | app/modules/dependencies/repository.py:67-80 | a query that did not fill its limit returned every admitted row |
| `Rounding.RoundIsMonotone` | app/modules/attribution/service.py:42-47 | rounding half to even keeps the order |
| `Rounding.RoundIsNearest` | app/modules/attribution/service.py:41-47 | the result is the one integer within a half, or the even one of two |

## Left out

- Redis failures: every module assumes Redis answers; the fail-open paths are not modelled.
- HTTP, TLS, SMTP, S3, payment, OAuth and AI providers: probe outcomes, DNS answers and replies are arbitrary inputs.
- `SessionCommit.RequestLeavesIntended`: for sessions that add objects under new keys only, do not change a deleted object, and execute no statement on a row they still buffer, because statements do not flush; a change is taken to write its row.
- Cryptography: tokens, hashes and principals are opaque distinct values.
- `SessionCommit.ElisionIsSound`: SELECT statements are taken to write nothing, and statements sent past the session through its connection are not part of the model; `SessionCommit.ElisionSoundIff` is the exact condition and `SessionCommit.WritingSelectIsLost` a failing case. A final commit that itself fails is not modelled.
- `CursorPagination.WalkReturnsLiveRowsOnce`: requires distinct creation times, because the cursor compares times only; `CursorPagination.ReturnedIffNotTied` gives the exact condition without that.
- `Idempotency.AtMostOneInFlight`: for handlers that do not raise and that finish within 60 s; the two failing cases are the runs beside it.
- `RateLimiter.DecidesLikeFullLog`: requires times that do not go back, because scores are the callers' clocks.
- `RateLimiter.AtMostLimitPerWindow`: requires members distinct within a window, because the set counts a shared member once; `RateLimiter.DecidesLikeFullLog` says exactly when that matters.
- `CircuitBreaker.GrantsAreSpaced`: load and save are one step there; `CircuitBreaker.OutcomesCountedIff` treats them as separate steps.
- `Attribution.CoefficientBound`: signals are exact reals, and the square root is given by its square; floating-point rounding is not modelled.
- `LastUsedFlush.QuietMeansDelivered`: sufficient only, and `LastUsedFlush.LatestUseDeliveredIff` is exact; malformed entries and ids are not modelled, since the program writes all of them itself.
- Partition names of years before 1000, whose printing depends on the platform; the model prints the year without padding.
- The observations table's partitions: the same code under another table name.
- Manual incident resolution, which takes no row lock, and the incident service beyond creating when none is open and resolving the given one.
- The observation outbox, alerts, evidence export and partner commissions.
- The cursor parameter of the check-results endpoint, which is accepted and not used.
- Registration, OAuth, e-mail verification, billing plans, RBAC levels, scopes, admin, dashboards and badges: aggregation and plumbing that would only add easy members.
- Task retries and time limits: any uncommitted transaction may abort at any time, and a retry is a new transaction.
