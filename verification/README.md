# ServGate: models and proofs

ServGate is an API gateway. This project models its stateful algorithms and its pure transformations
in Dafny and proves what they keep over every run, or do to every input.

| file | models |
|---|---|
| `Backpressure.dfy` | the per-route concurrency limiter: two bounded channels, a timeout, a release closure, route reloads |
| `RateLimiter.dfy` | the sliding-window limiter, in the gateway and in the admin server |
| `CircuitBreaker.dfy` | the three-state breaker, its 50-sample window and its p99 |
| `WasmPool.dfy`, `WasmHotSwap.dfy`, `WasmManager.dfy` | the WASM middleware manager: hot swap and instance pools, what is kept over runs, its methods |
| `WeightedSplit.dfy`, `Balancer.dfy`, `Canary.dfy` | weighted selection, least-connections, backpressure balancing, round robin, the canary loop |
| `ResponseCache.dfy`, `CacheKey.dfy`, `SemanticCache.dfy` | the TTL cache, its keys, the prompt cache |
| `JsonRename.dfy` | renaming of JSON keys |
| `Policy.dfy` | the `.policy` compiler, the metadata it reads and the decision it gives |
| `GrpcFraming.dfy`, `WebSocketFrames.dfy` | length-prefixed gRPC messages, WebSocket text frames |
| `Base64Url.dfy`, `ConfigSigning.dfy` | base64url and signed configurations |
| `Text.dfy`, `Bytes.dfy`, `Options.dfy` | splitting, joining, sorting and trimming; big-endian numbers; Option |

## How the source is represented

- Objects that the source updates in place are classes. Their methods are proved against functions on
  values, and the results over runs are about those functions.
- Concurrent code is a state machine. One event is one channel operation or one lock section, and a
  run is any sequence of enabled events. `Backpressure`, `WasmPool` and the second half of
  `ResponseCache` are of this kind. The methods of `WasmManager.MiddlewareManager` are calls nothing
  interrupts; each is shown to be a run of the machine.
- A call under one mutex is one step, reading the clock once. Time is an integer. Where order matters
  it is a hypothesis that the clock does not go back.
- Go slices that share a backing array (`history[:0]`) are a `Slice` over a Dafny array. A map
  iteration takes keys in an arbitrary order.
- Random draws, HTTP status codes, the engine's answers, SHA-256, HMAC, JSON text and the tables for
  lower case and white space are parameters. Injectivity or a round trip is assumed of them only where
  a `requires` says so.
- The canary's error rate and the cosine are real numbers, the cosine through its square. Lengths in
  framing follow Go's `uint32`; other integers are unbounded. A character stands for a byte, but for a
  rune where lower-casing and splitting into fields is used (prompts, policies), as in Go.

## Where the code does less than one might claim

Each of these has a lemma with the exact condition, most have a lemma with a concrete case as well.

- The two rate limiters agree exactly for positive limits: for others the gateway never refuses and
  the admin server always does (`RateLimiter.ImplementationsAgreeIffPositive`).
- Limiter keys of different clients and routes can be equal, since the client may be text from a
  request header: exactly when one client straddles the other's prefix
  (`RateLimiter.LimiterKeysCollideIff`, `RateLimiter.AgentsCanShareAKey`).
- At start-up the last route of a prefix that asks for a limiter wins, in a reload the first one does
  (`Backpressure.LastLimitedRouteWins`, `Backpressure.ReloadsAddFirst`).
- Returning an instance panics exactly when a `Register` of the same name has replaced the pool, or
  begun to drain it, since the Run captured it (`WasmHotSwap.ReturnPanicsIffSwapped`,
  `WasmManager.HotSwapCanAbortARun`).
- `ResponseCache.Get` deletes after unlocking and can drop a fresh entry. The cache fails to answer
  like the log exactly when the log has an answer and a Get deleted the key after its last Set
  (`ResponseCache.AnswersLikeTheLogIff`, `ResponseCache.RacingDeleteLosesFreshEntry`).
- Backpressure balancing uses -1 as a marker for "none yet", but a reported load can be -1
  (`Balancer.BackpressurePicksLeastIff`, `Balancer.BackpressureCanPickTheBusiest`).
- Weighted splits are exact only if no weight is negative (`WeightedSplit.SplitIsExactIffNonNegative`,
  `WeightedSplit.NegativeWeightSkewsTheSplit`).
- A fully promoted canary is never rolled back (`Canary.FullPromotionIsFinal`). A failing canary on
  trial escapes its rollback exactly when an earlier route with the same canary is rolled back or
  promoted in the same tick (`Canary.RollbackIff`, `Canary.SharedCanaryCanEscape`).
- Cache keys of different requests are equal exactly when one path holds the other's sorted query, or
  for methods with ':' in the same way with the method (`CacheKey.KeyIffSameHead`,
  `CacheKey.KeyIffSameRequest`, `CacheKey.DelimitersCollide`). Go's server rejects methods with ':', so
  only paths with '?' matter there.
- Renaming keys can be undone exactly when no unmapped key looks renamed (`JsonRename.RoundTripIff`,
  `JsonRename.LookalikeIsLost`).
  Its result depends on the iteration order exactly when colliding keys carry values that do not rename
  alike (`JsonRename.OrderDoesNotMatterIff`, `JsonRename.CollisionIsOrderDependent`).
- A policy action other than the literal `deny` allows (`Policy.AllowedIff`).
- Unpacking gRPC messages that announce one of the five largest lengths panics
  (`GrpcFraming.PanicsIff`, `GrpcFraming.LongestBodiesPanic`).
- The two base64 decoders disagree exactly on well-formed strings with '+' or '/', such as "+/+/"
  (`Base64Url.DecodersAgreeIff`, `Base64Url.DecodersCanDisagree`).
- The expiry of a signature is checked only if it is positive (`ConfigSigning.VerifyOfToken`).

## Model

| member | source | states |
|---|---|---|
| Backpressure.TokensMatchHolders | pkg/proxy/handler.go:172-201 | in every interleaving, permits equal permit holders, queue tokens equal waiting requests, neither above its capacity |
| Backpressure.AdmissionIsExact | pkg/proxy/handler.go:172-201 | in every run, a permit is granted at once exactly below maxConcurrent holders, a request waits exactly below maxQueue waiters and is told "queue full" otherwise, and a waiter can take a slot exactly when one is free |
| Backpressure.FinishedMeansDrained | pkg/proxy/handler.go:172-201 | both channels are empty once all requests have finished |
| Backpressure.ReceivesNeverBlock | pkg/proxy/handler.go:176-184 | the release closure and the deferred receive always find a token |
| Backpressure.BlockedOnlyWhenFull | pkg/proxy/handler.go:172-201 | an unfinished request cannot go on exactly when it waits and every slot is taken |
| Backpressure.NoDeadlock | pkg/proxy/handler.go:172-201 | while one request is unfinished, some request can go on without any timer or cancellation |
| Backpressure.RunsEnd | pkg/proxy/handler.go:172-201 | n requests make at most 6n steps |
| Backpressure.MaximalRunDrains | pkg/proxy/handler.go:172-201 | a run no request inside can extend has finished every request and emptied both channels |
| Backpressure.NoEarlyTimeout | pkg/proxy/handler.go:186-195 | "queue timeout" comes no earlier than the full timeout after joining the queue |
| Backpressure.WaiterCanLeave | pkg/proxy/handler.go:186-195 | in every run, a waiter can time out exactly once the timeout has passed since it joined, and can be cancelled at any time |
| Backpressure.VerdictFollowsEvents | pkg/proxy/handler.go:186-195 | over every run Acquire ends in "queue timeout" iff the timer fired for it, in cancellation iff the client cancelled |
| Backpressure.RefusedWaitEndsAs | pkg/proxy/handler.go:184-195 | timer or cancellation, then the deferred receive: the verdict, one queue token given back, no permit touched |
| Backpressure.GrantedWaitEndsAs | pkg/proxy/handler.go:184-191 | a slot won, then the deferred receive: one permit held, one queue token given back |
| Backpressure.ReleaseEndsAs | pkg/proxy/handler.go:176 | a release gives back one permit |
| Backpressure.BackpressureLimiter.constructor | pkg/proxy/handler.go:165-169 | a new limiter is idle |
| Backpressure.BackpressureLimiter.TryFast | pkg/proxy/handler.go:174-178 | the first select is the machine's step and keeps the token counts exact |
| Backpressure.BackpressureLimiter.TryEnqueue | pkg/proxy/handler.go:181-200 | the second select is the machine's step; false is "queue full" |
| Backpressure.BackpressureLimiter.WinSlot | pkg/proxy/handler.go:189-191 | the send branch of the inner select is the machine's step |
| Backpressure.BackpressureLimiter.LeaveQueue | pkg/proxy/handler.go:184 | the deferred receive never blocks and gives back one queue token |
| Backpressure.BackpressureLimiter.Release | pkg/proxy/handler.go:176 | the closure never blocks and gives back one permit |
| Backpressure.LastLimitedRouteWins | pkg/proxy/handler.go:339-341 | after start-up a prefix has a limiter iff some route asked for one, with the limits of the last such route and five seconds if it gives no timeout |
| Backpressure.StartUpPanicsIff | pkg/proxy/handler.go:157-170 | start-up panics iff some route limits concurrency with a negative queue size |
| Backpressure.LimiterTable.Populate | pkg/proxy/handler.go:305-342 | the start-up loop assigns the last limits of each prefix; all limiters are fresh and idle |
| Backpressure.ReloadsAddFirst | pkg/proxy/handler.go:453-457 | a prefix without a limiter gets one from the first route of any later reload that asks for one |
| Backpressure.InstallIsFirstWins | pkg/proxy/handler.go:453-457 | installing routes keeps every existing limiter; a new prefix gets the limits of its first route that asks for some, if any |
| Backpressure.InstallPanicsIff | pkg/proxy/handler.go:453-457 | a reload panics iff some route limits concurrency with a negative queue size, for a prefix without a limiter so far |
| Backpressure.LimiterTable.UpdateRoutes | pkg/proxy/handler.go:453-457 | existing limiter objects are kept, new ones are fresh and idle, a panic for a negative queue size stops the loop |
| Backpressure.LimiterTable.RegisterRoute | pkg/proxy/handler.go:520-524 | the same for one route |
| Backpressure.ReloadsKeepLimiters | pkg/proxy/handler.go:453-457 | however reloads and other prefixes' requests interleave, a limiter keeps its configuration, moves by its own events only and stays within its bounds |
| Backpressure.RouteLimitsAreEnforced | pkg/proxy/handler.go:305-342 | from start-up over any run, reloads included, a prefix has exactly the limits of the last start-up route that asked for some, and its holders and waiters stay within them |
| RateLimiter.HistoryIsRecentLog | pkg/proxy/handler.go:655-677 | the compacted history is the full admission log cut 60 s before the last call |
| RateLimiter.HistoryAgreesWithLog | pkg/proxy/handler.go:655-677 | at any later time history and full log have the same admissions in the last minute |
| RateLimiter.RefusedIffWindowFull | pkg/proxy/handler.go:671-677 | a call is refused exactly when its window holds at least limit admissions |
| RateLimiter.WindowsStayWithinLimit | main.go:907-934 | every one-minute window of every run, wherever it ends, holds at most as many admissions as the largest limit |
| RateLimiter.ImplementationsAgreeIffPositive | pkg/proxy/handler.go:612-615 | the two implementations give the same verdict iff the limit is positive, and then the same history |
| RateLimiter.KeysAreIndependent | pkg/proxy/handler.go:642-648 | a key's history is that of its own calls alone |
| RateLimiter.LimiterKeysCollideIff | pkg/proxy/handler.go:617 | for all clients and prefixes, limiter keys are equal iff both parts are, or one client goes on with ':' and text the other's prefix starts with |
| RateLimiter.LimiterKeysAreDistinct | pkg/proxy/handler.go:617 | so keys are distinct for prefixes without ':', whatever client text the callers pass, and for clients without '/' and prefixes that begin with one |
| RateLimiter.AgentsCanShareAKey | pkg/proxy/handler.go:982 | an X-Agent-ID with '/' and a prefix with ':' do share a history |
| RateLimiter.Compact | pkg/proxy/handler.go:656-663 | the in-place filter leaves exactly the instants after the cutoff, in order, in the same array |
| RateLimiter.Append | main.go:931 | append adds one instant at the end, in place or in a new array |
| RateLimiter.Limiter.Limit | pkg/proxy/handler.go:650-677 | history and verdict are those of the specification |
| RateLimiter.Gateway.LimiterFor | pkg/proxy/handler.go:642-648 | the limiter of a key is found or created empty; no history changes |
| RateLimiter.Gateway.LimitFound | pkg/proxy/handler.go:650-677 | under the limiter's lock one key's history moves by the specification, although slices are compacted in place |
| RateLimiter.Gateway.LimitKey | pkg/proxy/handler.go:642-677 | the local path: one key's history moves by the specification, no other key's history changes |
| RateLimiter.Gateway.IsRateLimited | pkg/proxy/handler.go:612-678 | the same for address and prefix; limits that are not positive turn it off |
| RateLimiter.AdminRateLimiter.Limit | main.go:907-934 | the address's history and the verdict are those of the specification; other addresses' histories do not change |
| RateLimiter.AdminRateLimiter.LimitSlice | main.go:919-932 | the slice handling of Limit, against the specification |
| CircuitBreaker.SortedSorts | pkg/proxy/handler.go:2398-2400 | sorting gives an ascending rearrangement |
| CircuitBreaker.SortIsUnique | pkg/proxy/handler.go:2400 | there is only one such, whatever algorithm sorts |
| CircuitBreaker.P99IsMaximum | pkg/proxy/handler.go:2397-2406 | with at most 100 samples the p99 is the largest one |
| CircuitBreaker.P99ExceedsIffSomeDoes | pkg/proxy/handler.go:2386-2390 | the p99 breaches the SLO iff some sample does |
| CircuitBreaker.CircuitBreaker.Allow | pkg/proxy/handler.go:2329-2351 | the state and answer of the step function |
| CircuitBreaker.CircuitBreaker.RecordRequest | pkg/proxy/handler.go:2353-2395 | the state of the step function |
| CircuitBreaker.CircuitBreaker.CalculateP99 | pkg/proxy/handler.go:2397-2406 | the p99 of the window, which for up to 100 samples is its largest |
| CircuitBreaker.TripsAreCooled | pkg/proxy/handler.go:2329-2384 | over any run, unless open, the last event is more than 5 s after every opening and failure |
| CircuitBreaker.CoolingIsRespected | pkg/proxy/handler.go:2336-2344 | after an opening or failure at s nothing is let through until now - s > 5 s |
| CircuitBreaker.OpenAllowsIffCooled | pkg/proxy/handler.go:2336-2344 | an open breaker lets a request through, turning half-open, exactly when the latest opening or failure is more than 5 s ago |
| CircuitBreaker.HalfOpenTrials | pkg/proxy/handler.go:2369-2384 | half-open has fewer than three records since entry, all successes within the SLO, and successCount is their number |
| CircuitBreaker.StartsClosed | pkg/proxy/handler.go:2322-2327 | a breaker starts closed and without samples |
| CircuitBreaker.RecoveryIsThreeFastSuccesses | pkg/proxy/handler.go:2357-2384 | from half-open: closed exactly on the third success within the SLO, open exactly on a failure or a slow success |
| CircuitBreaker.ClosesOnlyFromHalfOpen | pkg/proxy/handler.go:2369-2384 | every closing is the end of three fast successes in a row |
| CircuitBreaker.WindowIsLastFifty | pkg/proxy/handler.go:2364-2367 | the window is the last 50 of the successes since the last close |
| CircuitBreaker.ClosedMeansFast | pkg/proxy/handler.go:2386-2394 | a closed breaker with five samples or more holds none above the SLO |
| CircuitBreaker.ClosedOpensExactly | pkg/proxy/handler.go:2357-2394 | a closed breaker opens exactly on a failure, on the fifth success if any of the five is slow, or later on a slow success |
| WasmHotSwap.InstancesHaveOneOwner | pkg/wasm/runner.go:69-209 | under all interleavings an instance is in at most one pool, or with one Run, or with the draining Register; is closed at most once; and then with nobody |
| WasmHotSwap.InstancesAreAccountedFor | pkg/wasm/runner.go:69-209 | conservation: every instance is held, was closed once, or was lost by a Run that panicked |
| WasmHotSwap.PoolsHoldTheirVersion | pkg/wasm/runner.go:94 | pools hold no instance twice, at most ten, all of the version current when the pool was made |
| WasmPool.StepKeepsBinding | pkg/wasm/runner.go:69-209 | every event keeps pools, modules, Runs and the lock's progress bound to their versions |
| WasmHotSwap.RunsExecuteWhatTheyCaptured | pkg/wasm/runner.go:101-209 | a Run holds and executes only the version it captured |
| WasmHotSwap.CurrentVersionIsLive | pkg/wasm/runner.go:78-94 | with the mutex free, a name's module is not scheduled for closing and its pool is open and of that version |
| WasmHotSwap.LaterRunsAreNewer | pkg/wasm/runner.go:86-104 | a name's version never goes back for Runs that start later |
| WasmHotSwap.NoStaleRunAfterRegister | pkg/wasm/runner.go:69-209 | a Run that starts after a Register returned never outputs an older version, whatever else happens |
| WasmHotSwap.ReturnPanicsIffSwapped | pkg/wasm/runner.go:183-192 | a return panics exactly when the captured pool has been replaced or is being drained |
| WasmManager.HotSwapCanAbortARun | pkg/wasm/runner.go:89 | a run in which a second Register overtakes a Run and the return panics |
| WasmHotSwap.ReturnPoolsIffRoom | pkg/wasm/runner.go:183-192 | over every run, a return to an open pool of fewer than ten appends exactly that instance and ends in output; a full pool stays as it is and the instance goes on to be closed |
| WasmHotSwap.DropCloses | pkg/wasm/runner.go:192-206 | over every run, an instance that is not pooled is closed for the first time |
| WasmHotSwap.ReplacedModulesAreClosed | pkg/wasm/runner.go:78-84 | over every run, exactly the replaced modules are closed or wait for their delayed close |
| WasmHotSwap.MutexExcludes | pkg/wasm/runner.go:70-71 | while a Register holds the mutex no Run captures or instantiates, and no other Register compiles |
| WasmManager.MiddlewareManager.DrainNext | pkg/wasm/runner.go:90-92 | one turn of the range: an instance leaves the closed pool and is closed |
| WasmManager.MiddlewareManager.DrainPool | pkg/wasm/runner.go:90-92 | the range is a run of the machine that empties the pool and touches no other |
| WasmManager.MiddlewareManager.CompileModule | pkg/wasm/runner.go:73-76 | the compiled module becomes the newest version |
| WasmManager.MiddlewareManager.SwapCompiled | pkg/wasm/runner.go:78-89 | cache entry, delayed close and closing of the pool are the machine's event |
| WasmManager.MiddlewareManager.CompileAndSwap | pkg/wasm/runner.go:73-89 | both together are a run of the machine; the name now has the new version |
| WasmManager.MiddlewareManager.Replace | pkg/wasm/runner.go:73-93 | up to the drained old pool, a run of the machine |
| WasmManager.MiddlewareManager.InstallPool | pkg/wasm/runner.go:94 | the new empty pool is for the version now in the cache |
| WasmManager.MiddlewareManager.Register | pkg/wasm/runner.go:69-97 | a run of the machine; on success new version, new empty open pool, old pool empty; on failure nothing changes |
| WasmManager.MiddlewareManager.CaptureLocked | pkg/wasm/runner.go:101-108 | version and pool are captured together, both live |
| WasmManager.MiddlewareManager.TakePooled | pkg/wasm/runner.go:116-126 | the receive with default is the machine's event |
| WasmManager.MiddlewareManager.GiveBack | pkg/wasm/runner.go:183-189 | it panics iff the pool has been closed, pools the instance iff an open pool holds fewer than ten, and leaves the pool as it is otherwise |
| WasmManager.MiddlewareManager.NoInstance | pkg/wasm/runner.go:141-152 | an engine that makes no instance ends the Run with output or an error |
| WasmManager.MiddlewareManager.Create | pkg/wasm/runner.go:138-153 | a new instance of the captured version, or the outcome without one |
| WasmManager.MiddlewareManager.Obtain | pkg/wasm/runner.go:116-153 | a pooled or new instance of the captured version; none exactly if the pool is empty and the engine makes none |
| WasmManager.MiddlewareManager.CloseUnpooled | pkg/wasm/runner.go:192-206 | an instance that is not pooled is closed once |
| WasmManager.MiddlewareManager.Conclude | pkg/wasm/runner.go:157-209 | output of the captured version, or a panic exactly for a return to a closed pool; what the pool holds afterwards |
| WasmManager.MiddlewareManager.Execute | pkg/wasm/runner.go:110-209 | Run after its capture, whatever became of module and pool since: exactly when it outputs, fails or panics |
| WasmManager.MiddlewareManager.Run | pkg/wasm/runner.go:100-209 | a run of the machine that reports an unregistered name, fails exactly if the pool is empty and the engine fails, and else outputs the cached version |
| WeightedSplit.TotalWeight | pkg/proxy/handler.go:1656-1659 | the sum of the weights |
| WeightedSplit.PickIndex | pkg/proxy/handler.go:1662-1669 | the accumulating loop returns the owner of the draw; for draws in [0, total) it never falls back |
| WeightedSplit.SelectWeightedTarget | pkg/proxy/handler.go:1655-1671 | the target that owns the draw, or none exactly for a total that is not positive |
| WeightedSplit.SelectWASMMiddleware | pkg/proxy/handler.go:1718-1738 | the same for the WASM split, which falls back to the route's middleware |
| WeightedSplit.DrawsAreAnInterval | pkg/proxy/handler.go:1662-1668 | for any integer weights, an index owns exactly the draws between the highest sum before it and its own |
| WeightedSplit.ZeroWeightIsNeverPicked | pkg/proxy/handler.go:1662-1668 | a target of weight zero or less owns no draw |
| WeightedSplit.EveryDrawHasOneOwner | pkg/proxy/handler.go:1662-1669 | every draw has exactly one owner, for any integer weights; the fallback is unreachable |
| WeightedSplit.SplitIsExactIffNonNegative | pkg/proxy/handler.go:1655-1671 | every index owns as many draws as its weight iff no weight is negative |
| WeightedSplit.NegativeWeightSkewsTheSplit | pkg/proxy/handler.go:1655-1671 | with weights 2 and -1 the first target owns one draw |
| Balancer.PickLeast | pkg/proxy/handler.go:1680-1691 | the loop of least_conn and backpressure against the scan with its marker -1 |
| Balancer.ScanFindsFirstLeast | pkg/proxy/handler.go:1680-1691 | unless a load is -1, the scan finds the first least one |
| Balancer.BackpressurePicksLeastIff | pkg/proxy/handler.go:1693-1709 | the pick has the least load iff some load is below -1, none is -1, or the last is -1 |
| Balancer.BackpressureCanPickTheBusiest | pkg/proxy/handler.go:1700-1703 | with loads -1 and 100 the second is picked |
| Balancer.BackpressurePicksFirstLeast | pkg/proxy/handler.go:1693-1715 | without a load of -1 the first target with the least load is picked; if it is the empty string the round robin goes on |
| Balancer.NoListMeansTheTarget | pkg/proxy/handler.go:1673-1675 | a route without a target list gets its single target |
| Balancer.GatewayBalancer.IncConn | pkg/proxy/handler.go:1768-1772 | activeConns equals requests in flight; one more for the target |
| Balancer.GatewayBalancer.DecConn | pkg/proxy/handler.go:1774-1781 | activeConns equals requests in flight; the count was at least one, so the clamp never fires |
| Balancer.GatewayBalancer.SelectTarget | pkg/proxy/handler.go:1653-1716 | the owner of the draw if weights are usable, else the balancer's choice; only rrIndices may change |
| Balancer.SelectTargetTakesThePosition | pkg/proxy/handler.go:1711-1715 | the default branch takes the position of the round-robin run and stores its next index |
| Balancer.PicksGoRound | pkg/proxy/handler.go:1711-1715 | while the target count is unchanged, picks are q full rounds and r of the next, from any stored index |
| Balancer.RoundRobinIsFair | pkg/proxy/handler.go:1711-1715 | two positions' counts differ by at most one over any run, whatever other prefixes do |
| Balancer.RoundRobinCoversAll | pkg/proxy/handler.go:1711-1715 | n picks take each position once, even from an index left by a longer list |
| Balancer.LeastConnPicksFirstFewest | pkg/proxy/handler.go:1680-1691 | selectTarget returns the first target with the fewest connections |
| Balancer.SelectAndCountIsAnArrival | pkg/proxy/handler.go:1296-1298 | selecting and counting, as one step, is one arrival, for any list of targets |
| Balancer.ArrivalsStayEven | pkg/proxy/handler.go:1680-1691 | over arrivals the spread between busiest and idlest target never exceeds one or what it was, and counts above the first ones are within one of the least |
| Balancer.ArrivalsBecomeEven | pkg/proxy/handler.go:1680-1691 | from any counts with spread d, d arrivals for each target bring the spread to one |
| Canary.CanaryEngine.TickRoute | pkg/proxy/canary.go:17-85 | the loop body for one route against the verdict and its effect |
| Canary.CanaryEngine.RunTick | pkg/proxy/canary.go:15-87 | one turn of the ticker loop is the tick function |
| Canary.CanaryEngine.SetWeights | pkg/proxy/canary.go:41-42 | only the first two weights of one route change |
| Canary.CanaryEngine.RecordResponse | pkg/proxy/handler.go:1612-1624 | only responses of a route's canary URL are counted, status 500 and above as errors |
| Canary.TickActsOnce | pkg/proxy/canary.go:17-85 | in a tick a route changes only at its own turn, by that moment's verdict |
| Canary.VerdictIff | pkg/proxy/canary.go:18-65 | for every route and tick: promoted iff on trial, not rolled back, its clock set an interval ago and not set earlier in this tick; first seen, switched off and skipped exactly when |
| Canary.VerdictsDo | pkg/proxy/canary.go:25-77 | what each verdict makes of the route, in literal weights |
| Canary.ClockDuringTick | pkg/proxy/canary.go:59-76 | within a tick a prefix's clock is as before it until a route of that prefix is promoted or first seen |
| Canary.IntervalSpelled | pkg/proxy/canary.go:55-58 | the interval is promoteSec seconds, or one second |
| Canary.ErrorsNeverExceedCalls | pkg/proxy/handler.go:1612-1624 | recorded errors never exceed calls, over any run |
| Canary.StatsDuringTick | pkg/proxy/canary.go:30-84 | within a tick a canary's statistics are as before it until a route with that canary is promoted or rolled back |
| Canary.StatsCountResponses | pkg/proxy/handler.go:1612-1624 | over every run, the statistics are the canary's responses and server errors since the last tick that promoted or rolled back a route with that canary |
| Canary.WeightsFollowVerdicts | pkg/proxy/canary.go:17-85 | over any run the canary's weight is its first weight plus a step per promotion, capped at 100, or 0 after a rollback, of which there is at most one |
| Canary.WeightsArePercentages | pkg/proxy/canary.go:41-42 | from 0..100 weights stay in 0..100, and add up to 100 once something changed; before that nothing did |
| Canary.PromotionsEnd | pkg/proxy/canary.go:65-73 | at most ceil((100 - w0) / step) promotions |
| Canary.PromotionRaisesWeight | pkg/proxy/canary.go:69-73 | each promotion strictly raises the weight, to at most 100 |
| Canary.SwitchedOffIsFinal | pkg/proxy/canary.go:18-20 | once automatic promotion is off, the route stays as it is |
| Canary.RolledBackCanaryGetsNothing | pkg/proxy/canary.go:39-50 | after a rollback no later selection picks the canary index; with weights that are not negative stable owns all of 100 draws |
| Canary.FullPromotionIsFinal | pkg/proxy/canary.go:25-28 | a canary at 100 keeps its weight for good, whatever its error rate |
| Canary.SeparateRoutesAreJudgedAlone | pkg/proxy/canary.go:30-37 | routes with a prefix and canary of their own are judged by the state before the tick |
| Canary.RollbackIff | pkg/proxy/canary.go:30-53 | every route is rolled back iff it is on trial, its canary was failing before the tick, and no earlier route with that canary is promoted or rolled back in this tick |
| Canary.RollbackFollowsResponses | pkg/proxy/canary.go:30-53 | over every run, the same in terms of responses since the last reset |
| Canary.SharedCanaryIsRolledBackOnce | pkg/proxy/canary.go:46-48 | of routes that share a canary a tick rolls back at most one, and none after promoting another |
| Canary.SharedCanaryCanEscape | pkg/proxy/canary.go:79-83 | both ways to escape happen: a route with a failing canary keeps its weights because an earlier one is rolled back, or promoted |
| Canary.PromotionsTakeTime | pkg/proxy/canary.go:55-76 | k promotions take at least k intervals, over any run |
| Canary.PromotionCompletes | pkg/proxy/canary.go:17-85 | over every run, a route on trial that is never rolled back has its full weight once there were more ticks, an interval apart, than the room left to the routes of its prefix and two more |
| ResponseCache.ResponseCache.Get | pkg/proxy/cache.go:57-75 | a hit exactly for a stored entry not yet expired; an expired one is removed |
| ResponseCache.ResponseCache.Set | pkg/proxy/cache.go:78-90 | the entry is stored with its expiry, others are unchanged |
| ResponseCache.ResponseCache.Invalidate | pkg/proxy/cache.go:94-112 | exactly the entries under the prefix go, and their number is returned |
| ResponseCache.WithoutExactly | pkg/proxy/cache.go:105-110 | which entries go under a prefix |
| ResponseCache.ResponseCache.EvictExpired | pkg/proxy/cache.go:126-136 | exactly the expired entries go |
| ResponseCache.CacheRefinesLog | pkg/proxy/cache.go:57-136 | used by one caller at a time, Get answers by the last Set or covering Invalidate alone; eviction and lazy deletion are unobservable |
| ResponseCache.EntriesAreLastSets | pkg/proxy/cache.go:78-90 | under any interleaving a stored entry is the last one set for its key |
| ResponseCache.CarriedSinceRead | pkg/proxy/cache.go:58-60 | what a Get carries past its unlock is what the table held at its read |
| ResponseCache.CheckAnswersAsOfRead | pkg/proxy/cache.go:58-74 | under any interleaving, a Get goes on to delete iff the entry it read is expired by its check; else it returns that entry's value, or a miss if there was none |
| ResponseCache.DeleteAnswersMiss | pkg/proxy/cache.go:66-72 | after its delete it answers with a miss and has removed its key only |
| ResponseCache.UninterruptedGet | pkg/proxy/cache.go:57-75 | the steps of a Get without interruption are the sequential Get, answer and table |
| ResponseCache.UninterruptedSet | pkg/proxy/cache.go:78-90 | the steps of a Set without interruption are the sequential Set |
| ResponseCache.CommitsWhatWasSet | pkg/proxy/cache.go:78-90 | under any interleaving a Set commits the value it was called with, to expire ttl after it built the entry |
| ResponseCache.ClearAndEvictExactly | pkg/proxy/cache.go:94-136 | Invalidate and eviction remove exactly their entries |
| ResponseCache.HitsAreSound | pkg/proxy/cache.go:57-75 | under any interleaving a hit is the value last set as of the read, unexpired at the check |
| ResponseCache.AnswersLikeTheLogIff | pkg/proxy/cache.go:57-136 | under any interleaving the cache answers like the log, unless the log has an answer and a Get has deleted the key since its last Set |
| ResponseCache.DeleteLosesIffOvertaken | pkg/proxy/cache.go:66-72 | the lazy delete takes away an answer iff the log has one and no earlier delete took it; then a Set has overtaken the Get |
| ResponseCache.RaceFreeCacheIsComplete | pkg/proxy/cache.go:57-136 | in particular, if no Get deletes after being overtaken, the cache answers exactly like the log |
| ResponseCache.RacingDeleteLosesFreshEntry | pkg/proxy/cache.go:66-72 | a trace in which a fresh entry is lost |
| CacheKey.SortedQueryIff | pkg/proxy/cache.go:146-151 | the sorted query is the one ascending listing of the parameters |
| CacheKey.SortedQueryIsCanonical | pkg/proxy/cache.go:145-151 | the sorted query is the same exactly for the same parameters up to order |
| CacheKey.KeyIffSameHead | pkg/proxy/cache.go:140-156 | with an injective hash and any method and path, keys are equal iff the heads before the query are and the parameters are up to order, or one head holds the other's sorted query |
| CacheKey.KeyIffSameRequest | pkg/proxy/cache.go:140-156 | for methods without ':', iff methods are equal and either paths and parameters are, or one path holds the other's sorted query, which needs a '?' in it |
| CacheKey.DelimitersCollide | pkg/proxy/cache.go:140-156 | both kinds of collision happen for every method, path and non-empty query |
| Text.JoinOfSplit | pkg/proxy/cache.go:148-151 | joining a split gives the string back and no part holds the separator |
| Text.SplitOfJoin | pkg/proxy/provider.go:292 | splitting joined parts gives them back if none holds the separator |
| Text.AscendingIsUnique | pkg/proxy/cache.go:149 | there is one ascending arrangement, whatever algorithm sorts |
| Text.LexLeIff | pkg/proxy/cache.go:149 | the order of strings: prefixes first, else the first difference |
| Text.FieldsOfWoven | main.go:800 | the words of a text, its maximal runs without white space in order, are its fields |
| Text.WovenFromFields | main.go:800 | every text is woven from its fields and white space |
| Text.TrimCuts | main.go:794 | trimming removes outer characters of the cutset only, and all of them |
| Text.TrimIsUnique | main.go:811 | nothing else is what trimming gives |
| Text.SplitCounts | pkg/proxy/provider.go:292 | a text splits into one part more than it has separators |
| SemanticCache.Tokenize | pkg/proxy/ai.go:90-100 | the table counts exactly the bag of trimmed lower-case words |
| SemanticCache.BagCounts | pkg/proxy/ai.go:92-97 | each non-empty word is in the bag as often as a lower-case field trims to it |
| SemanticCache.MagnitudeSquared | pkg/proxy/ai.go:102-108 | the sum of squares, in any iteration order |
| SemanticCache.DotProduct | pkg/proxy/ai.go:114-119 | the dot product over all words, though only one table is iterated |
| SemanticCache.DotIsSymmetric | pkg/proxy/ai.go:110-121 | it is symmetric and not negative |
| SemanticCache.CauchySchwarz | pkg/proxy/ai.go:110-121 | similarity never exceeds 1 |
| SemanticCache.EqualityIffProportional | pkg/proxy/ai.go:110-121 | it is 1 exactly for proportional count vectors |
| SemanticCache.ThresholdOneIsProportionality | pkg/proxy/ai.go:132-137 | at threshold 1 two prompts are similar exactly if not empty and proportional |
| SemanticCache.SelfSimilarIff | pkg/proxy/ai.go:132-137 | a vector reaches a positive threshold against itself iff the threshold is at most 1 |
| SemanticCache.SimilarIsSymmetric | pkg/proxy/ai.go:110-121 | stored and asked prompt can be exchanged |
| SemanticCache.SimilarByMagnitudes | pkg/proxy/ai.go:110-121 | similar means that the dot product reaches threshold times the exact magnitudes |
| SemanticCache.Compare | pkg/proxy/ai.go:110-137 | cosineSimilarity and its comparison decide similarity |
| SemanticCache.NothingAboveOne | pkg/proxy/ai.go:132-137 | no threshold above 1 is ever reached |
| SemanticCache.SameBagHits | pkg/proxy/ai.go:123-140 | a prompt with the words of a stored one always hits, for thresholds up to 1 |
| SemanticCache.SimilarAboveHits | pkg/proxy/ai.go:110-137 | with rounded arithmetic, a prompt hits that is similar at the threshold enlarged by a factor given by the relative errors |
| SemanticCache.HitIsSimilarBelow | pkg/proxy/ai.go:110-137 | with rounded arithmetic, what hits is similar at the threshold reduced by such a factor |
| SemanticCache.SameBagHitsDespiteRounding | pkg/proxy/ai.go:110-137 | with rounded arithmetic, the words of a stored prompt hit for thresholds up to lo / hi^3, where each operation is between lo and hi times exact |
| SemanticCache.AnswersAreStable | pkg/proxy/ai.go:131-158 | once a prompt hits, later Sets never change its answer |
| SemanticCache.SemanticCache.constructor | pkg/proxy/ai.go:81-88 | a threshold that is not positive becomes 0.85 |
| SemanticCache.SemanticCache.LookUp | pkg/proxy/ai.go:131-139 | the response of the first similar entry, a miss exactly if none is similar |
| SemanticCache.SemanticCache.Get | pkg/proxy/ai.go:123-140 | the same for the prompt's word counts |
| SemanticCache.FirstHitAnswers | pkg/proxy/ai.go:131-139 | the recursive form of the search gives this answer and no other |
| SemanticCache.SemanticCache.Set | pkg/proxy/ai.go:142-158 | appends one entry, or nothing for a prompt without words |
| JsonRename.TransformValue | pkg/proxy/handler.go:2130-2151 | for any given order over every object's keys, the result is the tree that order makes |
| JsonRename.TransformObject | pkg/proxy/handler.go:2132-2141 | the same for the loop over one object |
| JsonRename.LaterVisitsWin | pkg/proxy/handler.go:2132-2141 | keys visited later overwrite what earlier ones with the same name left |
| JsonRename.EveryOrderRenames | pkg/proxy/handler.go:2130-2151 | whatever the orders, the result is a renaming of the tree |
| JsonRename.EveryRenamingIsReached | pkg/proxy/handler.go:2130-2151 | every renaming is the result of some order |
| JsonRename.OrderDoesNotMatterIff | pkg/proxy/handler.go:2130-2151 | the result is the same for all orders iff, at every depth, keys that get one name carry values that rename alike |
| JsonRename.ResultIsUnique | pkg/proxy/handler.go:2130-2151 | in particular it is without colliding names |
| JsonRename.EntriesKeptIff | pkg/proxy/handler.go:2132-2141 | an object keeps its number of entries iff no two of its keys get one name |
| JsonRename.CollisionIsOrderDependent | pkg/proxy/handler.go:2132-2141 | for any two keys with one new name and different scalars, there are orders that keep the one and the other |
| JsonRename.ValuesAreKept | pkg/proxy/handler.go:2130-2151 | at any depth every value stays, at its renamed path with the same array positions |
| JsonRename.NothingIsInvented | pkg/proxy/handler.go:2130-2151 | every path of the result is the renamed path of an original value |
| JsonRename.AvoidingTreesDoNotCollide | pkg/proxy/handler.go:2130-2151 | injective mappings do not collide on trees whose unmapped keys avoid the mapping's range |
| JsonRename.RoundTripIff | pkg/proxy/handler.go:2130-2151 | renaming and renaming back restores the tree iff its unmapped keys avoid the mapping's range |
| JsonRename.LookalikeIsLost | pkg/proxy/handler.go:2130-2151 | an unmapped key in the mapping's range is missing after the way back |
| Policy.CompilePolicy | main.go:790-834 | the loop emits the program of the compiled lines |
| Policy.EmittedRuleMeansTheRule | main.go:793-834 | a line is compiled iff it is a rule, and the emitted condition holds iff the rule matches |
| Policy.OneLinePolicy | main.go:793-868 | in the line's fields alone: it prints its first field for exactly the requests whose method, path and header fit, "deny" for others |
| Policy.CompilerPreservesMeaning | main.go:793-868 | the emitted program prints exactly the first matching rule's action, else deny |
| Policy.PoliciesCompose | main.go:793-834 | compiling A followed by B decides by A, and by B where no rule of A matches |
| Policy.SkippedLinesDoNotMatter | main.go:794-802 | blank lines, comments and lines under three fields never change a decision |
| Policy.RulesAfterCatchAllAreDead | main.go:815-833 | nothing after an unconditional `* *` rule changes a decision |
| Policy.BuildMetadata | pkg/proxy/handler.go:1226-1236 | names in lower case with the first values of the headers that have one |
| Policy.HeaderNamesIgnoreCase | pkg/proxy/handler.go:1220-1236 | end to end, a header condition compares the request's first value, or "", whatever the case of the name |
| Policy.AllowedIff | pkg/proxy/handler.go:1252-1258 | a request is allowed iff some rule matches and the first such action is not "deny" |
| Policy.DeniedIff | pkg/proxy/handler.go:1252-1253 | output is a denial iff it is "deny" within white space |
| GrpcFraming.UnpackOfPackIff | pkg/proxy/handler.go:1435-1463 | unpacking a packed body, whatever follows it, gives it back iff its length is at most 2^32 - 6 |
| GrpcFraming.LongestBodiesPanic | pkg/proxy/handler.go:1561-1579 | the five longer lengths make unpacking panic |
| GrpcFraming.PanicsIff | pkg/proxy/handler.go:1438-1441 | unpacking panics iff the announced length is one of the five largest |
| GrpcFraming.UnpackedIsFirstMessage | pkg/proxy/handler.go:1438-1441 | what is unpacked is the first message; packing it gives its bytes, flag aside |
| GrpcFraming.PackedBytes | pkg/proxy/handler.go:1454-1458 | flag 0, four bytes of length most significant first, the body |
| GrpcFraming.FlagIsIgnored | pkg/proxy/handler.go:1438-1441 | unpacking does not depend on the flag |
| Bytes.BigEndianRoundTrip | pkg/proxy/handler.go:1457 | PutUint32 and Uint32 give a number back, truncated to its bytes |
| Bytes.BigEndianIsOnto | pkg/proxy/handler.go:1439 | every byte string is the encoding of the number it decodes to |
| Bytes.FourBytes | pkg/proxy/handler.go:1457 | PutUint32 byte by byte |
| Bytes.FromFourBytes | pkg/proxy/handler.go:1439 | Uint32 from its four bytes |
| WebSocketFrames.BuildTextFrame | pkg/proxy/websocket.go:52-73 | the step-by-step header and its shift loop give the big-endian frame |
| WebSocketFrames.Session.Send | pkg/proxy/websocket.go:80-84 | the connection carries exactly the frames of the texts sent, in order, and of a failed write the part that was taken |
| WebSocketFrames.ParseOfStream | pkg/proxy/websocket.go:52-84 | a parser after section 5.2 of RFC 6455 recovers exactly the payloads, below 2^63 bytes each |
| WebSocketFrames.StreamOfParse | pkg/proxy/websocket.go:52-84 | whatever parses is the concatenation of the emitted frames |
| WebSocketFrames.StreamsAndPayloadsCorrespond | pkg/proxy/websocket.go:52-84 | a stream parses to these texts iff it is their frames |
| WebSocketFrames.ReceivedOfCutStream | pkg/proxy/websocket.go:118-135 | a connection that breaks inside a frame has delivered exactly the texts sent before |
| WebSocketFrames.HeaderIsMinimal | pkg/proxy/websocket.go:59-68 | of all headers in the 7, 16 and 64-bit forms that announce a length, the emitted one is the only shortest |
| WebSocketFrames.HeaderBytes | pkg/proxy/websocket.go:56-68 | the header byte by byte |
| Base64Url.DecodeOfEncode | pkg/proxy/provider.go:346-351 | repadding and decoding undoes RawURLEncoding, for all data |
| Base64Url.AlphabetsAreTheTables | pkg/proxy/provider.go:255 | the alphabets are those of tables 1 and 2 of RFC 4648 |
| Base64Url.PadBitsAreZero | pkg/proxy/provider.go:255 | the bits of the last symbol that no byte uses are zero |
| Base64Url.QuantumIsItsBits | pkg/proxy/provider.go:350 | a group decodes to the leading bytes of its 24 bits |
| Base64Url.PadFillsTheGroup | pkg/proxy/provider.go:347-349 | restoring the padding fills the last group of four |
| Base64Url.LineBreaksAreIgnored | pkg/proxy/provider.go:350 | line breaks may stand anywhere |
| Base64Url.DecodesIffWellFormed | pkg/proxy/handler.go:1941 | a padded text decodes iff it is groups of four symbols with '=' only as the last one or two characters |
| Base64Url.DecodersAgreeIff | pkg/proxy/handler.go:1935-1942 | the two decoders agree iff the string has no '+' or '/' or is malformed |
| Base64Url.DecodersDisagreeOnStandardText | pkg/proxy/handler.go:1935-1942 | they disagree on every text of the standard alphabet, in groups of four, that has a '+' or '/' |
| Base64Url.DecodersCanDisagree | pkg/proxy/handler.go:1935-1942 | "+/+/" is one |
| ConfigSigning.GatewayConfig.Sign | pkg/proxy/provider.go:248-285 | the signature becomes the token of routes, secret and time |
| ConfigSigning.TokenHasThreeParts | pkg/proxy/provider.go:276-283 | a signature always splits into its three parts |
| ConfigSigning.AcceptedIffGenuine | pkg/proxy/provider.go:287-344 | every string: accepted iff it has three parts, its MAC is that of the first two under the secret, and its claims decode, are unexpired, and carry the issuer and the routes' hash |
| ConfigSigning.VerdictOnParts | pkg/proxy/provider.go:296-341 | when each refusal of a signature of three parts is given |
| ConfigSigning.VerdictOnFormat | pkg/proxy/provider.go:288-295 | missing iff empty, malformed iff not exactly two dots |
| ConfigSigning.OtherSecretIsRefused | pkg/proxy/provider.go:298-306 | a token signed under another secret is refused iff the MACs differ |
| ConfigSigning.VerifyOfToken | pkg/proxy/provider.go:287-344 | the verdict on a token signed under the same secret for any routes: expired, hash mismatch or accepted |
| ConfigSigning.UnchangedVerifiesForADay | pkg/proxy/provider.go:287-344 | an unchanged configuration verifies exactly until 24 hours after signing, or always if the expiry would not be after 1969 |
| ConfigSigning.AcceptedRoutesAreTheSigned | pkg/proxy/provider.go:327-341 | a token is accepted exactly in time and for the routes signed, under an injective hash and serialisation |

## Left out

- RolledBackCanaryGetsNothing: is about the canary's index; a third weighted target, or the stable one, may carry the same URL.
- ArrivalsStayEven: takes selecting and counting as one step; the code takes the lock twice, and requests between the two see the old count.
- ResponseCache.ResponseCache.Get: reads, checks and deletes in one step; the split form is the machine behind `HitsAreSound`.
- SemanticCache.SemanticCache.Get: takes the cosine in exact arithmetic through its square. Rounding is bounded by `SimilarAboveHits` and `HitIsSimilarBelow` on assumed relative errors, not modelled bit by bit.
- SameBagHits: is exact arithmetic. In float64, at a threshold of exactly 1.0, five distinct words miss against themselves, since 5 / (sqrt 5 * sqrt 5) rounds to just below 1; `SameBagHitsDespiteRounding` says for which thresholds no rounding matters.
- SelfSimilarIff: is exact arithmetic too, with the same input at threshold 1.0.
- CircuitBreaker.CircuitBreaker.CalculateP99: takes the index as n * 99 / 100 in integers, the source through float64; for up to 50 samples both are n - 1.
- RollbackIff: divides real numbers, the source float64.
- CompilePolicy: emits statements, not Go text; quoting of strings in Go source and `go build` are not modelled.
- WebSocketFrames.Session.Send: is for a connection on which no write has failed yet; the handler ends the session after the first failure.
- Interleaving inside a canary tick: a tick, a recorded response and a selection are one step each, and one tick reads the clock once. The slice of weights that `selectTarget` shares with the loop is therefore read at one moment.
- ReplacedModulesAreClosed: the five seconds before a replaced module is closed have no counterpart, the close may come at any later time.
- PromotionCompletes: is for routes that are not replaced meanwhile.
- Fairness of Go's `select` and the promptness of timers: a waiting request is shown to be able to go on, or not to be blocked by the limiter, not to be served first.
- The WASM engine: compiling, instantiating and calling succeed or fail by parameters, except that no instance is made of a closed module; the content of the output, time limits and memory access are not modelled.
- The Redis path of `isRateLimited`; S3, registry, ACME and TLS.
- The rest of `ServeHTTP`: routing, proxying, retries, WebSocket tunnels, plugins, the queue bridge.
- JSON text: trees are renamed, not parsed or printed, so the shortcut of `transformJSON` for an empty body or mapping has no counterpart.
- The positions base64 errors report, and the wording of errors and log lines.
- `SelectABPromptVersion`: iterates a Go map in a new random order at each call, so it promises no distribution across calls.
- PII and prompt-injection patterns, IP ranges, request validation, API documentation, governance score, access log, metrics and replay statistics.
- 64-bit overflow of counters, weights and times.
