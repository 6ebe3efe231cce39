# Relay Desk in Dafny

Relay Desk is a gateway that forwards chat requests either through a pool of proxies or
through the accounts of a Resin gateway. This project models the state machines, caches and
codecs underneath it and proves what they promise over whole runs.

| file | what it models |
|---|---|
| `RuntimeCache`, `ModelRuntimeCache`, `RoutingLimitCache` | configuration caches: double-checked loads with several queries, interleaved with writers that commit first and clear the cache afterwards |
| `Gateway`, `GatewayLaws`, `GatewayOutcomes` | the attempt loop of a chat request against an arbitrary behaviour of client, helper, upstream and other requests |
| `SessionRouting`, `SessionRoutingLaws` | sticky proxies, quotas and Resin generations |
| `KeyLimiter`, `KeyLimiterLaws` | the sharded sliding-window limiter against a plain log |
| `ResinScores`, `ResinScoreLaws` | decaying account scores with weighted choice and eviction |
| `ChatCollapse`, `ChatCollapseLaws` | folding an event stream into one completion |
| `SseDetector`, `SseDetectorLaws`, `SseCopyLaws` | watching an event stream in arbitrary chunks, and the bounded copy |
| `Identifiers`, `IdentifierLaws` | the logical clock and the fixed-width encodings |
| `ProxyPool`, `ProxyPoolLaws` | the snapshot of usable proxies over the table |
| `ClientCache`, `ClientCacheLaws` | the cache of HTTP clients and its concurrent callers |
| `JsonTree`, `ImageRewrite`, `ImageRewriteLaws` | decoded JSON on the heap, deep clones and image rewriting |
| `ToolShape`, `ToolShapeLaws` | shaping requests for the free tier |
| `Arithmetic`, `Iteration`, `Wrappers` | quotients, visiting a map in no particular order, and optional values |

Objects that the program updates in place are classes whose methods are proved against
specification functions; the `...Laws` modules prove theorems about those functions, and so
about every run of the objects. Where goroutines interleave (`RuntimeCache`, `ClientCacheLaws`)
the steps are the critical sections and the theorems quantify over every interleaving.
The theorems write statuses, limits and durations out as numbers, so that they do not rest on
the constants and tests of the specification functions. `dafny verify dfyconfig.toml` checks
everything.

## Where the code does less than it seems to

Each of these is stated by a lemma or a contract below, with the exact condition where there is one.

- A model refresh that commits but cannot save its metadata returns before clearing the caches
  (`cmd/server/main.go:1655-1658`); the cache then stays wrong until some other writer clears it.
- The routing limit keeps the default when its first read fails, until it is invalidated.
- The wait announced with a token refusal is exact only if the live tokens without those of the
  oldest instant are below the limit; otherwise it is too short.
- A load of several queries stores a mixture exactly when a writer commits between its first and
  last query.
- `external` on record does not mean that the client cancelled: every forwarded 5xx, 451 or 499
  is recorded so, and every reply whose error text holds one of ten markers.
- A stream that cannot be folded is a 502 to the client and its own status on record.
- A Resin reply that asks for another account is scored twice when no attempt is left.
- The 256-account bound of the score store needs some stored stamp to be before the new
  observation; with equal stamps nothing is evicted.
- A tool fragment without an index is merged into another tool when the number of tools so far
  is an index that was sent explicitly.
- A tool name sent in pieces loses text exactly when a piece begins with all the pieces before it.
- A content line longer than 2^20 bytes is found or lost depending on where the stream is cut,
  and what is left of one can be taken for a line.
- A proxy that is cooling down when the pool's snapshot is taken stays hidden after its cooldown,
  until a change of the table drops the snapshot; recovery is promised for later snapshots only.
- Shaping a shaped request gives the same request but is reported as a change.
- In reachable limiter states every stored window holds an entry that was not evicted, so idle
  clean-up removes nothing; it is proved transparent, not useful.

## Assumptions

Clock readings are parameters. The limiter's theorems take the readings of one key as
non-decreasing, because the program reads the clock before it takes the lock; the score store's
bound takes readings of observations as strictly increasing. Identifiers, scores, gateway runs
and the client cache take any readings.

## Model

| member | source | states |
|---|---|---|
| RuntimeCache.RunKeepsInv | cmd/server/runtime_cache.go:208-266 | every state of every interleaving of loaders and writers keeps the invariant: versions read in order, a filled cache no older than the newest flushed commit, the lock held exactly by the loader in progress |
| RuntimeCache.StaleOnlyWhileAWriteIsUnflushed | cmd/server/runtime_cache.go:208-266 | a filled cache that differs from the database holds a row that predates a commit, and every commit made since that row was read belongs to a writer that has not cleared the cache |
| RuntimeCache.CoherentOnceTheNewestWriteIsFlushed | cmd/server/runtime_cache.go:111-117 | once the writer of the newest commit has cleared the cache, a filled cache equals the database, however many older writers are pending |
| RuntimeCache.NeverOlderThanAFlushedWrite | cmd/server/runtime_cache.go:208-266 | a load that begins after a writer cleared the cache returns nothing older than that write, even when commits fall between its queries |
| RuntimeCache.EarlyReturnLeavesTheCacheStale | cmd/server/main.go:1651-1660 | a refresh that commits and then fails to save its metadata leaves the cache as it was, and so wrong exactly when it changed the table; the invalidations still due are those that were due before |
| RuntimeCache.ReturnedEarlyForGood | cmd/server/main.go:1655-1660 | in the rest of every run that writer never clears the cache, nor becomes due to |
| RuntimeCache.OneVersionIsOneTable | cmd/server/runtime_cache.go:225-262 | in every run, a filled cache whose first and last answers have one version is the table the database held at that version |
| RuntimeCache.TornIffVersionsDiffer | cmd/server/runtime_cache.go:225-262 | where commits change every answer, a filled cache is a table the database once held if and only if its first and last answers have one version |
| RuntimeCache.UntornIffNoCommitBetween | cmd/server/runtime_cache.go:225-262 | what a load stores has one version if and only if no writer committed between its first query and its last |
| RuntimeCache.EveryLoadSpans | cmd/server/runtime_cache.go:225-265 | every load that stores has such a first and a last query |
| RuntimeCache.TornUntilCleared | cmd/server/runtime_cache.go:111-117 | while a cache filled at several versions is there, the commits since its first answer are not cleared, and the first writer that does clear empties it |
| RuntimeCache.ALoadCanBeTorn | cmd/server/runtime_cache.go:225-262 | such runs exist: a commit between the two queries makes the cache hold a pair of answers the database never had, its writer still due to clear it |
| ModelRuntimeCache.ModelCache.Peek | cmd/server/runtime_cache.go:209-215 | the read-locked check is one step of the interleaving and hands out the maps of a load |
| ModelRuntimeCache.ModelCache.Fill | cmd/server/runtime_cache.go:217-266 | the locked part of a load, with writers committing between its queries and either query failing, takes exactly the listed steps; on success it returns and keeps the maps of what its two queries saw, on failure the cache stays empty |
| ModelRuntimeCache.FillMap | cmd/server/runtime_cache.go:230-245 | the row loop builds the map in which a later row with the same key wins |
| ModelRuntimeCache.LastRowWins | cmd/server/runtime_cache.go:230-245 | a key is in the map exactly if some row has it, and then with the value of its last row |
| ModelRuntimeCache.ModelCache.Commit | cmd/server/model_policies.go:83-86 | a write changes the database and leaves the cache as it is |
| ModelRuntimeCache.ModelCache.Invalidate | cmd/server/runtime_cache.go:111-117 | the writer's invalidation empties the cache and is one step of the interleaving |
| ModelRuntimeCache.ModelCache.IsReached | cmd/server/runtime_cache.go:208-266 | every state of the cache object is the end of a run of the interleaving, so the theorems about runs hold for it |
| ModelRuntimeCache.ModelCache.ShowsTheDatabase | cmd/server/runtime_cache.go:208-266 | once the newest writer has cleared it, the maps handed out are those of the database |
| RoutingLimitCache.LimitCache.CachedRoutingLimit | cmd/server/runtime_cache.go:119-144 | a use answers the cached limit, or stores what the setting means, or stores 50 when the read fails |
| RoutingLimitCache.LimitCache.InvalidateRoutingLimit | cmd/server/runtime_cache.go:146-151 | invalidating forgets the limit |
| RoutingLimitCache.FirstReadDecides | cmd/server/runtime_cache.go:119-144 | until it is invalidated the cache answers what its first read found: the setting if that read succeeded and it is a number from 0 to 100000, and 50 if not |
| Gateway.GatewayHandler.GatewayChat | cmd/server/main.go:2105-2363 | the attempt loop does, for every behaviour of client, helper, upstream and other requests, exactly the effects the case table lists, in order |
| Gateway.GatewayHandler.TakeTurn | cmd/server/main.go:2118-2358 | one turn of the loop: its effects, the exit it takes, its attempt entry and how the loop goes on |
| Gateway.GatewayHandler.HelperTurn | cmd/server/main.go:2146-2248 | the vision helper part of a turn and all its exits |
| Gateway.GatewayHandler.FailedSend | cmd/server/main.go:2256-2282 | what follows a request that could not be sent |
| Gateway.GatewayHandler.ResinReply | cmd/server/main.go:2285-2358 | what follows a reply through a Resin account |
| Gateway.GatewayHandler.PoolReply | cmd/server/main.go:2285-2358 | what follows a reply through a pool proxy |
| Gateway.GatewayHandler.CopyResponse | cmd/server/main.go:2725-2747 | a reply is forwarded with its status, but a 502 if the client wanted one document and the stream could not be folded |
| Gateway.GatewayHandler.UsageErrorOrigin | cmd/server/main.go:3908-3935 | whose fault a forwarded reply is, by its status, the markers in its error text and its success |
| Gateway.GatewayHandler.Finish | cmd/server/main.go:2360-2362 | the failure status, its record and its reply |
| GatewayLaws.EveryRequestIsAnsweredOnce | cmd/server/main.go:2105-2362 | every run produces exactly one response and one chat record, at most one gateway failure, and nothing of the engine that is not configured |
| GatewayLaws.AttemptsAreBoundedAndDistinct | cmd/server/main.go:2105-2142 | at most min(3, n) pool attempts or 10 Resin attempts; pool attempts use pairwise different offered proxies and no proxy is marked as failed twice |
| GatewayLaws.RecordsTellTheRun | cmd/server/main.go:2261-2361 | the record lists exactly the requests sent, in order; without the helper the attempts are numbered 1 to n with n the retry count plus one; every retry was justified, and a retryable status is recorded as forwarded only from the last attempt |
| GatewayLaws.AnswersMatchTheRecord | cmd/server/main.go:2725-2747 | the client is answered with the status on record, except for a 502 when a stream could not be folded, which is on record as a failure with its own status |
| GatewayLaws.OriginsAreExact | cmd/server/main.go:2458-2467 | every record of a run without a forwarded reply is external if the client's cancellation was read and internal if not; of a run with one it is what status, error text and success say, and no cancellation was read; after a cancellation is read only the record and the reply follow |
| GatewayLaws.ExternalIff | cmd/server/main.go:3908-3935 | a run is recorded as external if and only if the client's cancellation was read, or a reply was forwarded whose status is 0, 451, 499 or at least 500 or whose error text holds a marker |
| GatewayLaws.PickerNeverRunsDry | cmd/server/main.go:2131-2142 | in every attempt a pool run reaches the picker has a proxy left, whatever other requests do to the table |
| GatewayLaws.RunStaysInItsEngine | cmd/server/main.go:2256-2335 | a Resin run touches no pool health and no sticky route, and a pool run rotates, scores and fails nothing of Resin, from any attempt on |
| GatewayLaws.RunClosesOnce | cmd/server/main.go:2336-2362 | from any attempt on, a run ends with one response and one record |
| GatewayLaws.RunTriesNewExits | cmd/server/main.go:2131-2142 | from any attempt on, a run sends to new exits only |
| GatewayLaws.RunRecords | cmd/server/main.go:2261-2361 | from any attempt on, the records of a run number and justify its attempts |
| GatewayLaws.RunStopsForTheClient | cmd/server/main.go:2119-2123 | from any attempt on, a cancellation that is read ends the run and decides the origin on record |
| GatewayLaws.RunAnswers | cmd/server/main.go:2336-2358 | from any attempt on, answer and record agree |
| GatewayLaws.TurnIsOk | cmd/server/main.go:2118-2358 | everything the theorems use of one turn |
| GatewayLaws.LastRotationIsScoredTwice | cmd/server/main.go:2307-2355 | a reply is scored at least once, and twice exactly when it asks for another account and no attempt is left |
| GatewayOutcomes.WhatARunDoes | cmd/server/main.go:2105-2363 | over every run, each mark, cleared route, rotation, gateway result, score, helper record, request and forwarded reply is there if and only if some attempt the run makes met the statuses and errors it is due for, which are written out |
| GatewayOutcomes.FailureMarksExactly | cmd/server/main.go:2146-2293 | a proxy is marked as failed if and only if an attempt through it met a transport error with no cancellation read after it, in the chat request or in a helper request sent the same way, or a 407 |
| GatewayOutcomes.SuccessMarksExactly | cmd/server/main.go:2288-2293 | a proxy is marked as healthy if and only if an attempt through it got a reply below 500 that is neither a 407 nor a rejected 403 |
| GatewayOutcomes.ComesToTheNext | cmd/server/main.go:2118-2335 | a run makes its next attempt if and only if the last one was made and its outcome leads on, and then has tried exactly the proxies of the attempts made |
| GatewayOutcomes.TurnInOrder | cmd/server/main.go:2118-2358 | in every turn the helper is on record before the request, the request goes out before anything is done about it, and after a forwarded reply there is only its score |
| GatewayOutcomes.TurnDoesEachOnce | cmd/server/main.go:2118-2358 | no turn marks, clears, rotates, sends or forwards twice, or scores more than twice |
| GatewayOutcomes.WhatIsRecorded | cmd/server/main.go:2336-2362 | the record is that of the attempt that forwards its reply, with its status, success, text and blame; otherwise 499 or 504 if the client was found to be gone and 502 if not |
| GatewayOutcomes.OriginIsFromOutside | cmd/server/main.go:3908-3935 | a forwarded reply is external exactly for 0, 451, 499, 500 and above or a text that contains one of the ten markers |
| GatewayOutcomes.FailureReplies | cmd/server/main.go:2360-2362 | a failure reply is sent exactly with the status of a record without a forwarded reply |
| GatewayOutcomes.RequestsOnRecord | cmd/server/main.go:2261-2361 | an entry is on record if and only if an attempt of the run sent a request with that number, exit, status and failure |
| GatewayOutcomes.RetryIsTheLastAttempt | cmd/server/main.go:2114-2143 | the retry count on record is the number of the last attempt made |
| SessionRouting.SessionRouter.PickSessionProxy | cmd/server/main.go:3258-3302 | the picker keeps a binding within its quota, otherwise takes the next unused proxy in turn and binds it; database faults leave the table as far as it got |
| SessionRouting.SessionRouter.EligibleProxies | cmd/server/main.go:3285-3290 | exactly the proxies not used yet, in order |
| SessionRouting.SessionRouter.ClearSessionProxy | cmd/server/main.go:3304-3314 | removes the binding only if it is to this proxy |
| SessionRouting.SessionRouter.NextResinAccount | cmd/server/resin.go:549-579 | the generation a session uses next and its new row |
| SessionRouting.SessionRouter.AdvanceResinAccount | cmd/server/resin.go:581-590 | moves a session to its next generation with nothing served |
| SessionRoutingLaws.BindingServesUntilItsQuota | cmd/server/main.go:3265-3284 | while its proxy stays eligible, retries included, a binding serves every pick of its session up to the quota, and without end if the limit is 0, however the picks of other sessions are interleaved |
| SessionRoutingLaws.FreshBindingServesExactlyItsQuota | cmd/server/main.go:3265-3301 | a proxy that a pick selects serves exactly L consecutive picks of the session, and pick L + 1 selects by turn again |
| SessionRoutingLaws.PickIsExact | cmd/server/main.go:3258-3302 | for every table and fault: when a pick fails, when it keeps the binding and when it takes the next in turn, and which row and counter change |
| SessionRoutingLaws.UnusedKeepTheirOrder | cmd/server/main.go:3285-3290 | the proxies not tried stay in the order in which they are offered |
| SessionRoutingLaws.WithoutALimitNothingMoves | cmd/server/resin.go:549-579 | with a limit of 0 or less and no rotation every call of every run uses the first generation |
| SessionRoutingLaws.RotationMovesOn | cmd/server/resin.go:581-590 | after a rotation every later call uses a later generation, the next one exactly the next |
| SessionRoutingLaws.WhatMovesNothing | cmd/server/resin.go:549-590 | a call without a session, of another session or with a failing statement, and a rotation without a row, leave the row alone |
| SessionRoutingLaws.UsedUpBindingIsReplaced | cmd/server/main.go:3285-3301 | a binding at its quota is replaced by a fresh one that has served once |
| SessionRoutingLaws.OthersKeepTheBinding | cmd/server/main.go:3258-3302 | a pick for one session leaves the bindings of all others alone |
| SessionRoutingLaws.RoundVisitsEachOnce | cmd/server/main.go:3294 | n sessionless picks in a row over n fixed proxies visit each exactly once, from any counter value |
| SessionRoutingLaws.NoGenerationExceedsItsQuota | cmd/server/resin.go:549-579 | no generation of a session serves more than its quota over any run with rotations and database faults, and the row counts what it served |
| SessionRoutingLaws.GenerationsNeverDecrease | cmd/server/resin.go:549-590 | a session's generation never goes back while its row lives |
| SessionRoutingLaws.KthCallUsesItsGeneration | cmd/server/resin.go:549-579 | without rotations the k-th served call of a session uses generation (k-1)/L, whatever other sessions do and whichever calls fail |
| KeyLimiter.ClientKeyLimiter.Allow | cmd/server/client_keys.go:63-108 | the sharded, head-indexed, compacting limiter decides like a plain log of admissions filtered to the last minute, and admissions are logged |
| KeyLimiter.ClientKeyLimiter.RecordTokens | cmd/server/client_keys.go:110-125 | a usage sample with a positive total is logged, anything else changes nothing |
| KeyLimiter.KeyWindow.Evict | cmd/server/client_keys.go:75-83 | advancing the heads leaves exactly the live entries, and the running total is their sum |
| KeyLimiter.KeyWindow.Check | cmd/server/client_keys.go:84-89 | both reject paths read their head in range and answer as the log does |
| KeyLimiter.KeyWindow.Admit | cmd/server/client_keys.go:90-98 | admitting and compacting keep what the window holds |
| KeyLimiter.LimiterShard.CleanUp | cmd/server/client_keys.go:99-106 | idle clean-up removes only windows without a live entry, so no later answer changes |
| KeyLimiter.ClientKeyLimiter.CleanUpShard | cmd/server/client_keys.go:99-106 | no reachable window is empty, so clean-up leaves the windows of a shard as they were |
| KeyLimiterLaws.KeysAreIndependent | cmd/server/client_keys.go:63-125 | a key's answers depend only on that key's own calls |
| KeyLimiterLaws.NoMinuteExceedsTheLimit | cmd/server/client_keys.go:76-90 | with a constant limit L no 60-second window of any run holds more than L admissions |
| KeyLimiterLaws.RunKeepsDiscipline | cmd/server/client_keys.go:76-90 | any L+1 admissions in a row span at least a minute, over whole runs |
| KeyLimiterLaws.RpmWaitIsExact | cmd/server/client_keys.go:84-86 | with no token limit and no other call, a refused key is refused at every earlier instant and admitted from the announced one on |
| KeyLimiterLaws.TpmWaitIsALowerBound | cmd/server/client_keys.go:87-89 | a key refused for tokens, whatever its request limit, is refused at every instant before the announced one |
| KeyLimiterLaws.AdmittedWhenAnnounced | cmd/server/client_keys.go:80-89 | it is admitted at the announced instant if and only if its live tokens, less those reported at the oldest instant, are below the limit |
| KeyLimiterLaws.TpmWaitIsExactIff | cmd/server/client_keys.go:80-89 | after any run, the announced duration is exact, that is the key is refused at precisely the instants before it, if and only if the same holds |
| KeyLimiterLaws.TpmWaitCanBeTooShort | cmd/server/client_keys.go:87-89 | a run of two reports after which it is not exact |
| KeyLimiterLaws.AllowedIff | cmd/server/client_keys.go:63-108 | every answer of every run: allowed if and only if the admissions of the last minute are fewer than the request limit, if there is one, and the tokens reported in it fewer than the token limit, if there is one; a refusal names the request limit whenever that is reached and waits for the oldest entry of the minute |
| KeyLimiterLaws.LogIsHistory | cmd/server/client_keys.go:63-125 | what a run leaves of a key is exactly the instants at which it was admitted under a limit and the positive reports it made |
| ResinScores.ResinScoreStore.Pick | cmd/server/resin.go:425-454 | decays every score, moves the cursor and chooses by the weights; the final fallback is never reached |
| ResinScores.ResinScoreStore.Observe | cmd/server/resin.go:456-493 | scores the outcome, clamps it, stamps it, and evicts the entry with the oldest stamp when there are too many |
| ResinScores.ResinScoreStore.DecayScores | cmd/server/resin.go:429-437 | decaying in any order of the accounts gives the decayed store and the total weight |
| ResinScores.ResinScoreStore.EvictIfFull | cmd/server/resin.go:484-492 | eviction removes an entry with the smallest stamp before now, or nothing |
| ResinScores.TotalIsOrderFree | cmd/server/resin.go:430-437 | the total weight does not depend on the order in which the accounts are visited |
| ResinScoreLaws.DecayIsPathIndependent | cmd/server/resin.go:495-507 | decaying at t1 and again at t2 equals decaying once at t2 |
| ResinScoreLaws.DecayNeverCrossesZero | cmd/server/resin.go:495-507 | decay moves a score towards zero and never past it |
| ResinScoreLaws.DecayIsExact | cmd/server/resin.go:495-507 | after k whole five-minute steps the value has moved k points towards zero, but not past it, and the stamp exactly k steps |
| ResinScoreLaws.SilentAccountsAreNotEligible | cmd/server/resin.go:425-507 | over every run, an account of which nothing was recorded in the last 100 minutes is eligible for no pick |
| ResinScoreLaws.ScoresStem | cmd/server/resin.go:456-507 | every reachable score stems from an observation of its account and has lost a point for each step its stamp moved since |
| ResinScoreLaws.ObservationScores | cmd/server/resin.go:465-483 | an observation leaves the decayed score plus the points of the outcome, within -20 and 20, stamped with its instant |
| ResinScoreLaws.PointsAreExact | cmd/server/resin.go:467-480 | 10 points off for 401 and 429, 6 for timeouts, 408 and 504, 5 for other 5xx, 4 for other errors, 3 more for 2xx, 0 else |
| ResinScoreLaws.TheOldestLeaves | cmd/server/resin.go:484-492 | up to 256 accounts nobody leaves; the 257th displaces one with the smallest stamp if that is before now; all others stay as they are |
| ResinScoreLaws.ScoresStayInRange | cmd/server/resin.go:456-493 | in every reachable store all values lie in [-20, 20] |
| ResinScoreLaws.StoreIsBounded | cmd/server/resin.go:484-492 | when the clock readings of observations increase strictly, no reachable store holds more than 256 accounts |
| ResinScoreLaws.ObservationFits | cmd/server/resin.go:484-492 | an observation keeps the bound if and only if it is ignored, known, below capacity, or some stored stamp is before now |
| ResinScoreLaws.ObservedAccountSurvives | cmd/server/resin.go:481-492 | eviction never removes the account just observed |
| ResinScoreLaws.PicksLeaveNoTrace | cmd/server/resin.go:425-437 | without eviction, interleaved picks leave every later decayed score as if only the observations had happened |
| ResinScoreLaws.FittingRunsAreQuiet | cmd/server/resin.go:425-493 | runs that never overflow are runs of the store without eviction |
| ResinScoreLaws.PickIsNewcomerOrEligible | cmd/server/resin.go:438-453 | a pick is the new account or an unused one with a positive score |
| ResinScoreLaws.ChoiceIsItsPlace | cmd/server/resin.go:429-453 | a cursor value explores exactly if its remainder is below 4, and otherwise takes the account in whose interval, as long as its score, the remainder falls |
| ResinScoreLaws.ChoiceIsProportional | cmd/server/resin.go:429-453 | over any `total` picks in a row with unchanged scores the new account is chosen exactly 4 times and every other account exactly its score times, unless the wrap of the 64-bit cursor disturbs them |
| ResinScoreLaws.EachPlaceOnceIffUndisturbed | cmd/server/resin.go:438-439 | `total` picks in a row point at each of the `total` places once if and only if the cursor does not wrap after the first of them, or the total divides 2^64 |
| ResinScoreLaws.DeltaFollowsTheOutcome | cmd/server/resin.go:467-480 | only a 2xx answer raises a score, by 3; exactly timeouts, errors, 401, 408, 429 and 5xx lower it, by 4 to 10 |
| ResinScoreLaws.FailuresPullDown | cmd/server/resin.go:456-507 | from anywhere in a run, n failures of an account without an answer leave it at most at 20 - 4n or zero, whatever picks, time, evictions and other accounts do |
| ResinScoreLaws.FiveFailuresRuleOut | cmd/server/resin.go:429-437 | so after five failures without an answer no pick can take the account |
| ChatCollapse.CollapseChatCompletionStream | cmd/server/agent_shape.go:199-229 | the drained stream gives the document of the fold over its events, or the error of its first unreadable event, of the read or of an empty stream |
| ChatCollapse.ChatCollapseAccumulator.Drain | cmd/server/agent_shape.go:204-222 | reads lines up to the end marker and folds each event |
| ChatCollapse.ChatCollapseAccumulator.Consume | cmd/server/agent_shape.go:272-305 | one event is folded into the accumulator |
| ChatCollapse.ChatCollapseAccumulator.ConsumeDelta | cmd/server/agent_shape.go:307-346 | one delta is folded into text and tools |
| ChatCollapse.ChatCollapseAccumulator.ConsumeTool | cmd/server/agent_shape.go:321-343 | a fragment is merged into the tool of its index, or opens one; the list and the index of tools stay in bijection |
| ChatCollapse.CollapsedTool.WriteMergedName | cmd/server/agent_shape.go:427-442 | a repeated name is not appended again |
| ChatCollapse.ChatCollapseAccumulator.Encode | cmd/server/agent_shape.go:369-425 | the document that the accumulated state renders to |
| ChatCollapseLaws.SplitThenCollapse | cmd/server/agent_shape.go:272-346 | any fragmentation of a message, with its fragments interleaved across tools in any way, collapses to the same content, reasoning and tools in first-appearance order |
| ChatCollapseLaws.StreamedMessageIsRestored | cmd/server/agent_shape.go:199-229 | the same for the document of a whole stream up to its terminator, its lines, events and choices included; old-style reasoning counts only where there is no other |
| ChatCollapseLaws.OutcomeIsExact | cmd/server/agent_shape.go:199-229 | for every stream: an undecodable event before the terminator fails it, else a read error without a terminator, else having no event; nothing else does |
| ChatCollapseLaws.FinishAndUsage | cmd/server/agent_shape.go:290-301 | for every stream the finish reason is the last that any choice gave, neither empty nor null, or stop; the usage is the last one sent |
| ChatCollapseLaws.HeadIsTheFirst | cmd/server/agent_shape.go:283-291 | id and model are the first ones sent that are not empty, or the defaults |
| ChatCollapseLaws.CreationIsTheFirst | cmd/server/agent_shape.go:286-288 | and so is the creation time |
| ChatCollapseLaws.MarkedExactly | cmd/server/agent_shape.go:307-346 | the first token is marked if and only if some choice sent text of any kind or a tool fragment |
| ChatCollapseLaws.FoldStaysListed | cmd/server/agent_shape.go:321-343 | in every reachable state the tools listed are exactly the tools indexed, each once |
| ChatCollapseLaws.OrderIsAppearance | cmd/server/agent_shape.go:321-343 | tools come in the order of their first fragment |
| ChatCollapseLaws.ArgumentsConcatenate | cmd/server/agent_shape.go:321-343 | a tool's arguments are its fragments' arguments, joined in order |
| ChatCollapseLaws.IdIsKept | cmd/server/agent_shape.go:321-343 | an id sent once or repeatedly is kept |
| ChatCollapseLaws.LastIdIsKept | cmd/server/agent_shape.go:333-335 | of several ids sent for one index the last counts |
| ChatCollapseLaws.GrowingNamesEndWithTheLast | cmd/server/agent_shape.go:427-442 | a name sent longer and longer is the last one sent |
| ChatCollapseLaws.NameIsKept | cmd/server/agent_shape.go:427-442 | a name sent whole, once or repeatedly, is kept once |
| ChatCollapseLaws.NameIsMerged | cmd/server/agent_shape.go:336-338 | a tool's name is the merge of the names sent for its index, whatever is interleaved between them |
| ChatCollapseLaws.PiecesMakeTheName | cmd/server/agent_shape.go:427-442 | a name sent in pieces is restored if and only if no piece begins with everything sent before it; otherwise it comes out shorter |
| ChatCollapseLaws.UnindexedFragmentsStaySeparate | cmd/server/agent_shape.go:321-343 | fragments without an index each make a tool of their own |
| ChatCollapseLaws.UnindexedOpensATool | cmd/server/agent_shape.go:321-343 | a fragment without an index opens a tool if and only if the number of tools is not an index in use |
| ChatCollapseLaws.MixedIndicesCanCollide | cmd/server/agent_shape.go:321-343 | mixed with explicit indices it can be merged into another tool |
| SseDetector.SseContentDetector.Observe | cmd/server/main.go:2824-2844 | a chunk is appended, its ended lines are looked at up to the first hit, and a rest over a mebibyte is dropped |
| SseDetector.SseContentDetector.Flush | cmd/server/main.go:2846-2853 | the rest is looked at as a line |
| SseDetector.SseContentDetector.ObserveLine | cmd/server/main.go:2855-2879 | a line hits exactly when it is a data line with a payload that has content |
| SseDetector.LimitedCapture.Write | cmd/server/main.go:2914-2923 | after every cut of what was written, the buffer is its first `limit` bytes |
| SseDetector.CopyEventStream | cmd/server/main.go:2749-2789 | the client gets the chunks up to the first failure, the capture their first 2 MiB, and the first token is marked once if the status is below 400 and the detector reports the stream, and never otherwise |
| SseDetectorLaws.ReportedExactlyForContent | cmd/server/main.go:2824-2879 | however a stream with lines of at most 2^20 bytes is cut, it is reported exactly when one of its lines has content |
| SseDetectorLaws.ReportedAsSoonAsItEnds | cmd/server/main.go:2824-2844 | and after each chunk exactly when a line that has ended has content |
| SseDetectorLaws.AnsweredAtMostOnce | cmd/server/main.go:2824-2853 | at most one chunk is answered with yes, for lines of any length |
| SseDetectorLaws.LongLinesDependOnTheCut | cmd/server/main.go:2840-2842 | a content line that arrives before its newline is found exactly when it is at most 2^20 bytes long, and at any length when it arrives with it |
| SseDetectorLaws.SafeCutsAgree | cmd/server/main.go:2824-2879 | a stream in which every payload of a long line, whole or less more than 2^20 bytes of its beginning, is the payload of a short line too, is reported exactly for its content under every cut |
| SseDetectorLaws.CutsMatterIffUnsafe | cmd/server/main.go:2824-2879 | and those are exactly the streams on which no cut can mislead the detector, whatever counts as content |
| SseDetectorLaws.NoDataIsSafe | cmd/server/main.go:2840-2842 | streams whose long lines do not mention `data:` are among them |
| SseCopyLaws.CopyIsExact | cmd/server/main.go:2750-2800 | by the read that ends it: the client gets everything before that read and what it brought if the client takes it, the record keeps the first two mebibytes of everything read, and the copy has failed exactly if the upstream broke or the client refused |
| SseCopyLaws.TrimIsExact | cmd/server/main.go:2856-2860 | trimming takes white space, all of it and nothing else off both ends |
| SseCopyLaws.PayloadIsExact | cmd/server/main.go:2855-2863 | what is decoded of a line: white space, data:, white space and the trimmed payload, neither empty nor [DONE] |
| Identifiers.EncodeFixed | cmd/server/main.go:622-629 | the digit loop fills the fixed-width representation |
| Identifiers.OpenCodeClock.OpenCodeID | cmd/server/main.go:645-683 | the clock advances to its next tick and the id is built from it; without randomness the tick is spent and there is no id |
| IdentifierLaws.IdsStrictlyIncrease | cmd/server/main.go:645-683 | for any clock readings, jumps back and more than 4096 calls a millisecond included, ids with one prefix increase strictly as strings and have one length, whatever the random tails, while the clock stays below 2^48 |
| IdentifierLaws.TicksIncrease | cmd/server/main.go:657-670 | the logical clock increases strictly over any readings |
| IdentifierLaws.TicksFollowTheClock | cmd/server/main.go:657-670 | over any readings no tick is behind its reading, and a reading ahead of all earlier ticks is taken as it is with number 0 |
| IdentifierLaws.StandingClock | cmd/server/main.go:657-670 | while the clock stands still or goes back, call j after the first gets millisecond j / 4096 later and number j modulo 4096 |
| IdentifierLaws.LaterTickGreaterId | cmd/server/main.go:672-682 | a later tick gives a greater id |
| IdentifierLaws.IdDecodes | cmd/server/main.go:645-683 | prefix, the 48 low bits of the millisecond, the number and every random character are recovered from a message id |
| IdentifierLaws.TailCharacters | cmd/server/main.go:679-681 | each random byte is the symbol of its remainder modulo 62 |
| IdentifierLaws.DigitsRoundTrip | cmd/server/main.go:622-629 | fixed-width digits decode to their number |
| IdentifierLaws.DigitsKeepOrder | cmd/server/main.go:622-629 | fixed-width digits compare as their numbers do |
| IdentifierLaws.HexOfBytes | cmd/server/main.go:716-726 | hex of the big-endian bytes is the hex of the word |
| IdentifierLaws.TimePartShape | cmd/server/main.go:716-726 | the time part is 9 hex digits of the inverted kept bits followed by `ffe` |
| IdentifierLaws.FourteenDigitsSuffice | cmd/server/main.go:713-739 | 14 base62 digits hold any 80 bits and 13 do not |
| IdentifierLaws.SessionIdDecodes | cmd/server/main.go:701-714 | the 36 kept time bits and the 80-bit tail are recovered from a session id, whose shape is fixed |
| IdentifierLaws.FirstBits | cmd/server/main.go:716-719 | the kept time bits are the first 36 bits of the hash |
| IdentifierLaws.TenBytes | cmd/server/main.go:711-713 | the tail is the last ten hash bytes as one number, the first counting most |
| IdentifierLaws.SessionIdsCollideOnlyOnDroppedBits | cmd/server/main.go:701-739 | two hashes give one session id exactly when they differ in the 12 dropped bits only |
| ProxyPool.ProxyRuntime.Available | cmd/server/proxy_runtime.go:60-85 | what is returned is what a fresh load would return now, but for rows that were cooling down when the snapshot was taken; a fresh snapshot hides none |
| ProxyPool.ProxyRuntime.LoadFromDB | cmd/server/main.go:3117-3156 | expired rows are deleted and the usable ones read |
| ProxyPool.ProxyRuntime.DeleteExpiredProxies | cmd/server/main.go:3192-3202 | deletes exactly the expired rows and drops the snapshot if there were any |
| ProxyPool.ProxyRuntime.ReplaceHealth | cmd/server/proxy_runtime.go:87-113 | the snapshot's copy of a row gets the same health |
| ProxyPool.ProxyRuntime.MarkProxyFailure | cmd/server/main.go:3315-3333 | a failure adds one to the count and cools the row down, in table and snapshot alike |
| ProxyPool.ProxyRuntime.MarkProxySuccess | cmd/server/main.go:3334-3341 | a success clears count and cooldown, in table and snapshot alike |
| ProxyPool.ProxyRuntime.InsertProxy | cmd/server/main.go:3686-3705 | a new address gets a new row and drops the snapshot; a known one changes nothing |
| ProxyPool.ProxyRuntime.PatchProxy | cmd/server/main.go:3709-3739 | enabling or disabling changes that row only and drops the snapshot |
| ProxyPool.ProxyRuntime.DeleteProxy | cmd/server/main.go:3740-3759 | deletes that row and drops the snapshot |
| ProxyPool.ProxyRuntime.BulkDeleteProxies | cmd/server/main.go:3761-3806 | deletes those rows and drops the snapshot |
| ProxyPool.SeenThenUsable | cmd/server/proxy_runtime.go:76-84 | filtering the snapshot gives the usable rows of the table without those cooling down when it was taken |
| ProxyPool.FreshLoadIsSeen | cmd/server/main.go:3117-3156 | a snapshot just taken shows exactly the usable rows |
| ProxyPool.SetHealthOfSeen | cmd/server/proxy_runtime.go:87-113 | changing health in table and snapshot alike keeps one the view of the other |
| ProxyPool.ExpiredRowsAreUnusable | cmd/server/main.go:3117-3156 | deleting expired rows first does not change what a load returns |
| ProxyPool.BackoffIsCappedDoubling | cmd/server/main.go:3321-3325 | k failures cool down for the smaller of 2^(k-1) and 30 minutes |
| ProxyPool.FailuresAddUp | cmd/server/main.go:3315-3333 | after k failures in a row the row cools down from the last of them for the capped doubling of its whole count |
| ProxyPoolLaws.OfferedExactly | cmd/server/proxy_runtime.go:60-85 | a row is offered if and only if it is enabled, its cooldown is absent or over, it has not expired, and it was not cooling down when the snapshot was taken; each once, in order |
| ProxyPoolLaws.ViewAfter | cmd/server/proxy_runtime.go:60-75 | a use without a snapshot takes one, which hides exactly the unexpired rows then cooling down; every change of the table but to health drops it |
| ProxyPoolLaws.RowsAfter | cmd/server/main.go:3315-3341 | what each operation does to each row: a failure adds one and cools down for its delay, a success clears both, the others touch no health |
| ProxyPoolLaws.BackoffIsDelay | cmd/server/main.go:3321-3325 | the delays are 60, 120, 240, 480, 960 and from then on 1800 seconds |
| ProxyPoolLaws.NotOfferedBeforeTheDelay | cmd/server/proxy_runtime.go:76-84 | over every run, after the k-th failure in a row a proxy is offered to no use before the delay is over, unless it is reported healthy |
| ProxyPoolLaws.OfferedAfterTheDelay | cmd/server/proxy_runtime.go:60-85 | over every run, from then on every snapshot taken from then on offers it again, unless it failed again or its row is gone, disabled or expired |
| ClientCache.HttpClients.Lookup | cmd/server/proxy_runtime.go:122-129 | a hit answers the cached client and stamps it, a miss changes nothing |
| ClientCache.HttpClients.Install | cmd/server/proxy_runtime.go:134-179 | after checking again: sweep, evict for room, insert; or keep the client of another caller and close the one built |
| ClientCache.HttpClients.Sweep | cmd/server/proxy_runtime.go:143-151 | exactly the clients unused for ten minutes are dropped and closed |
| ClientCache.HttpClients.EvictOldest | cmd/server/proxy_runtime.go:154-176 | at 256 dynamic clients one used longest ago is dropped and closed, otherwise none |
| ClientCache.HttpClients.Survey | cmd/server/proxy_runtime.go:155-169 | the count of dynamic clients and a key of one used longest ago; the empty key stands for none |
| ClientCache.HttpClients.Invalidate | cmd/server/proxy_runtime.go:50-57 | every client is dropped and closed |
| ClientCache.HttpClients.ClientFor | cmd/server/proxy_runtime.go:119-180 | uninterrupted: the cached client if there is one, otherwise the one built, which is cached from then on |
| ClientCacheLaws.AtMost256Dynamic | cmd/server/proxy_runtime.go:154-176 | no state of any interleaving of callers holds more than 256 dynamic clients |
| ClientCacheLaws.WhyAClientLeaves | cmd/server/proxy_runtime.go:119-180 | a client leaves the cache if and only if all are dropped, or it was unused for ten minutes when another key is installed, or it is a dynamic one used longest ago that makes room for another while 256 are in use |
| ClientCacheLaws.EntriesAfter | cmd/server/proxy_runtime.go:119-180 | each step stamps the entry under the caller's key or makes it the caller's own client, and leaves every other entry that stays as it was |
| ClientCacheLaws.CallersShareAClient | cmd/server/proxy_runtime.go:119-142 | two callers of one key get the same client, however their steps interleave, unless the cache was without the key in between |
| ClientCacheLaws.SameClientWhileCached | cmd/server/proxy_runtime.go:119-142 | a key keeps its client while it stays cached |
| ClientCacheLaws.StepIsBounded | cmd/server/proxy_runtime.go:154-179 | each step keeps the bound on dynamic clients |
| ClientCacheLaws.EveryClientIsAccountedFor | cmd/server/proxy_runtime.go:119-180 | in every reachable state each client ever built is in the cache under one key, with the one caller that built it, or closed; none is lost and none is in two places |
| ClientCacheLaws.KeysTellProxiesApart | cmd/server/proxy_runtime.go:115-117 | proxies whose address and user name hold no NUL have one key exactly when they are equal |
| JsonTree.Clone | cmd/server/main.go:2544-2561 | the clone is the same document on nodes of its own; the original is not changed |
| JsonTree.OffTheWay | cmd/server/main.go:2544-2561 | a document does not depend on nodes it does not lie on the way to |
| ImageRewrite.IsImageContentPart | cmd/server/main.go:2970-2983 | a part is an image by its kind or by having an image address |
| ImageRewrite.ContainsImageContent | cmd/server/main.go:2954-2968 | a content is an image or a list with one |
| ImageRewrite.RequestHasImageInput | cmd/server/main.go:2929-2952 | a request has images exactly when some message does |
| ImageRewriteLaws.ImagesAreThese | cmd/server/main.go:2929-2983 | a request has images exactly if the content of some message is an image or a list with one, by the three kinds or an image address |
| ImageRewrite.ReplaceImageContentValue | cmd/server/main.go:2647-2666 | every image of a content is replaced, the other parts are shared in their places |
| ImageRewrite.ReplaceImageContentPayload | cmd/server/main.go:2619-2645 | rewriting in place succeeds exactly when detection reports an image, and otherwise leaves the request as it was |
| ImageRewrite.BodyForAttempt | cmd/server/main.go:2236-2241 | an attempt forwards a described clone and the request it was cloned from keeps its images |
| ImageRewrite.BodiesForAttempts | cmd/server/main.go:2236-2241 | every later attempt describes the images afresh |
| ImageRewriteLaws.NoImageIsLeft | cmd/server/main.go:2619-2670 | no image is left afterwards, exactly because `text` folds to no image kind |
| ImageRewriteLaws.OnlyImagesChange | cmd/server/main.go:2619-2670 | fields, messages and parts keep their number and order, every part that is no image stays, and every image becomes the captioned text |
| ImageRewriteLaws.OnlyOneRewriting | cmd/server/main.go:2619-2670 | that determines the rewritten request |
| ToolShape.ShapeFreeModelBody | cmd/server/agent_shape.go:60-84 | the shaped body and exactly when a change is reported; an unreported body is returned as it came |
| ToolShape.ChatRequest.ForceIncludeUsage | cmd/server/agent_shape.go:89-101 | usage is asked for, other stream options stay |
| ToolShape.ChatRequest.ForceAgentTools | cmd/server/agent_shape.go:108-149 | the tool list is shaped in place and a change reported exactly when something was recognised or missing |
| ToolShape.ReplaceRecognised | cmd/server/agent_shape.go:118-134 | each recognised item is overwritten by the genuine definition |
| ToolShape.MissingTools | cmd/server/agent_shape.go:135-140 | the core tools not declared, in their order |
| ToolShapeLaws.EveryCoreToolIsThere | cmd/server/agent_shape.go:108-149 | a shaped list has a tool named shell, edit, glob, grep and read each |
| ToolShapeLaws.RecognisedToolsAreGenuine | cmd/server/agent_shape.go:127-133 | every tool of it with a known name carries the known description and parameters, and nothing else |
| ToolShapeLaws.DeclaredToolsKeepTheirPlaces | cmd/server/agent_shape.go:118-144 | declared tools keep their index, those with a known name with the known definition and the others as they were declared; what follows them are the core tools not declared, in order |
| ToolShapeLaws.MissingInOrder | cmd/server/agent_shape.go:135-140 | the tools appended are those of shell, edit, glob, grep and read that are not declared, in this order |
| ToolShapeLaws.ReportedExactly | cmd/server/agent_shape.go:60-149 | a change is reported exactly if streaming or usage was not asked for, no tools were declared, or a tool has a known name or a core tool is missing |
| ToolShapeLaws.OnlyThreeFieldsChange | cmd/server/agent_shape.go:60-149 | only three fields change: streaming and usage are asked for, other stream options stay, and tools are shaped if they are a list or missing |
| ToolShapeLaws.ShapingTwiceIsShapingOnce | cmd/server/agent_shape.go:60-149 | shaping a shaped request gives the same request |
| ToolShapeLaws.ShapedRequestsAreReportedAgain | cmd/server/agent_shape.go:131-134 | yet it is reported as changed exactly when the shaped list has a recognised tool |

## Left out

- HTTP handlers, authentication, the Bun bridge and all byte-level I/O: replies are an arbitrary sequence of outcomes.
- JSON text, SQL text and SQLite: documents are trees, tables are maps and sequences, a statement or transaction is one atomic step.
- SHA-256, HMAC, encryption, bcrypt and randomness: hashes and random bytes are inputs.
- `rotateEncryptionKey`, the alert outbox, probe jobs, login throttling, status buckets and pagination: small counters or abstract cryptography.
- Texts of error messages other than that of a forwarded reply, durations, first-token latencies and headers.
- The number of recent Resin failures and its re-check timer: a gateway failure is one effect.
- `SessionRouting` does not model the hashing of session keys to 64 locks; each operation on a session is one atomic step.
- `Identifiers.TimeBits` works on disjoint bit fields by arithmetic instead of shifts and masks.
- ProxyPool.ProxyRuntime.Available: sequential runs only, because `invalidate` does not take the load lock; the compare-and-swap loop of `replaceHealth` is a single update, and failing statements are not modelled.
- KeyLimiter.ClientKeyLimiter.Allow: token totals are unbounded integers, not 64-bit ones.
- SessionRouting.SessionRouter.PickSessionProxy: the round-robin counter does not wrap at 2^64.
- ResinScoreLaws.ChoiceIsProportional: takes one fixed order of visiting the accounts.
- ResinScoreLaws.PicksLeaveNoTrace: takes runs without eviction.
- SseDetector.SseContentDetector.ObserveLine: whether a payload is an event with content is a parameter.
- ChatCollapse.CollapseChatCompletionStream: lines come already trimmed and decoded; the 4 MiB limit of the line scanner is a failing read.
- ToolShape.ChatRequest.ForceAgentTools: nested values are not shared, while the program lets shaped requests share the parameters of a genuine definition, which nothing changes; a body of `null` is left out, since a request without a model is refused before it is shaped.
- ImageRewrite.RequestHasImageInput: trimming and lower-casing a kind is a parameter.
- ClientCache.HttpClients.ClientFor: closing idle connections is recorded as a set of closed clients; building a client is a parameter.
- ModelRuntimeCache.ModelCache.Fill: how a row reads is a parameter; the upstream, engine and client-key caches follow the same protocol with one query or more and have no object of their own here.
- Free-model classification, URL and header validation, the console and deployment files.
