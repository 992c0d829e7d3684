# forwardlimit: a verified model of the decision core

forwardlimit answers one question per request: may it proceed? Each replica walks a list of limiters,
asks a store (block cache over circuit breaker over Redis), and rejects on the first enforced block.
This project models that core in Dafny and proves what it promises over whole runs: every sequence of
calls, every number of replicas, every interleaving of their steps.

`dafny verify dfyconfig.toml` checks everything.

## Reading order

| file | models |
|---|---|
| `Prelude`, `Store`, `StorageKeys` | durations, rules, keys; how a key becomes Redis keys |
| `Redis` | the keyspace with expiries, and the `decide` and `take` scripts command by command |
| `StoreRuns` | arbitrary runs of store calls on arbitrary keys |
| `WindowRuns`, `BucketRuns` | what the fixed window and the token bucket promise over those runs |
| `Fake`, `FakeWindows`, `FakeTokens` | the in-memory reference store, and exactly when it answers as the scripts do |
| `Breaker`, `BlockCache` | the two decorators |
| `Stack` | cache over breaker over Redis, whole calls as steps; transparency |
| `Fleet`, `FleetSteps`, `FleetBounds`, `FleetUnblock` | many replicas, requests split into steps, faults; the steps against stack and breaker; the distributed bounds; what an unblock does |
| `Paths`, `Engine`, `EngineMeaning` | scoping, the limiter walk, and what its decisions say about the store's answers |
| `EngineTransparency` | the engine over the whole stack against the engine on the bare store |
| `DryRun`, `DryRunLimits` | dry-run non-interference, and exactly where it ends |
| `Normaliser`, `Config` | the limiter file: validation and building |
| `Deployment` | the results above, restated for every file that passes validation |

Code that changes state step by step is a class or a loop proved against a function (`DecideCell`,
`TakeCell`, `AllowStep`, `RememberStep`, `Walk`, ...), and the run-level results are lemmas about that
function.

## Assumptions

- Instants and durations are integers in nanoseconds. Redis keeps exact expiries, and a key is gone
  when `now >= expiry`. Tokens are exact: thousandths in the script, billionths in the fake.
- The store clock never steps back. Each replica has its own clock, which never steps back either and is
  otherwise unrelated to the store's. `Stack` and `Engine`, where calls are instantaneous, use one clock.
- A call the breaker admits always reaches `record`. The clock never shows Go's zero time, which the
  source uses for "closed" (here `None`).
- The store may lose a request or a reply; both reach the caller as an error. A script runs at most
  once per call: the client's own retries are not part of this model.
- A key that holds a value of the wrong type makes a script fail, as Redis does; runs that start with an
  empty keyspace never get there (`AnswersSucceed`).
- A keyer is an arbitrary function of the request that yields a bucket, declines, or panics.
- Case folding and white space are those of ASCII and Latin-1; one `char` is one character.

## Where code and prose differ

- `breaker.go` speaks of "exactly one probe". A call admitted before the circuit opened clears `probing`
  when it records, so a second probe can go out beside the first. `SingleProbeExactly` gives the exact
  condition: two calls can be in flight during an outage if and only if some call other than the probe is
  in flight already.
- `store.go` says a caller can push twice the limit through a window boundary. The true maximum is one
  less (`UnderTwiceTheLimit`), and every rule reaches it (`UnderTwiceTheLimitIsTight`).
- `engine.go` says a dry-run limiter must not change what any other limiter does. It can, in two ways: its
  lost calls count towards opening the circuit, and its cached blocks take up capacity. Over every history,
  with calls lost at will, erasing dry-run limiters leaves every response alone if and only if the breaker is
  off and the cache is off or unbounded (`AlwaysErasedExactly`, and for every valid file
  `ConfiguredDryRunExactly`); `SharedCircuit` and `SharedCapacity` are the failing histories, for every
  setting outside. The hypothesis that a breaker has a positive cooldown is the one of `config.go` (line 396).
  While the store answers no rejection ever changes, and the wait survives if and only if the cache is off or
  unbounded (`ErasedWhileAnsweringExactly`).
- The fake claims the real semantics. For the window this holds exactly of whole-second rules, although
  configuration accepts others (`WholeSecondsExactly`), and of keys that do not become one once braces are
  stripped (`AliasesExactly`). For the token bucket it holds exactly as long as a changed bucket is steady
  (`FakeTakeRefines`), which one bucket per key always is. The fake's wait is cut to a nanosecond; on each
  refusal it rounds up to the script's if and only if that cut does not show (`WaitsAgreeExactly`), and up
  to the configured maximum rate it never shows.
- `build.go` calls a failing build unreachable after validation for keys, and that is so; but validation only
  asks whether a body file exists, so a build still fails exactly when one that is wanted cannot be read
  (`ValidBuildsUnlessUnreadable`).
- The counter and the block marker of a key share a cluster slot unless the bucket consists of braces only
  (`SameSlot`).
- An invalid rule is an error, except on a cache hit, which does not look at the rule
  (`InvalidRuleNeedsMiss`). The engine never sends one.

## Model

| member | source | states |
|---|---|---|
| `Store.SanitizeBucket` | internal/store/store.go:95-100 | the result has no brace, and is the input exactly when the input had none |
| `Store.SanitizeConcat` | internal/store/store.go:95-100 | stripping commutes with concatenation: characters are dropped one by one, none is moved or added |
| `Store.SanitizeChar` | internal/store/store.go:95-100 | a single brace becomes nothing and any other single character stays, which with concatenation fixes the result for every string |
| `StorageKeys.StorageKeyInjective` | internal/store/redisstore/redisstore.go:248-249 | two storage keys are equal if and only if limiter, sanitised bucket and kind (counter, block, tokens) are |
| `StorageKeys.KeyStringInjective` | internal/store/store.go:46 | the rendered key determines limiter and bucket, for validated names |
| `StorageKeys.SameSlot` | internal/store/redisstore/redisstore.go:248-249 | counter and block keys have one hash tag ("Hash tags" in the Redis Cluster specification) if and only if the sanitised bucket is not empty |
| `Redis.Seconds` | internal/store/redisstore/redisstore.go:296-301 | at least one; otherwise the least number of whole seconds that covers the duration |
| `Redis.Rounded` | internal/store/redisstore/redisstore.go:296-301 | a positive whole-second duration, never shorter than configured and unchanged when already whole |
| `Redis.Server.Decide` | internal/store/redisstore/redisstore.go:69-91 | TTL, INCR, EXPIRE, SET and DEL together transform the two keys as `DecideCell` does and leave the rest of the keyspace alone |
| `Redis.Server.TakeToken` | internal/store/redisstore/redisstore.go:101-135 | read, refill, take or wait, write and expire together transform one key as `TakeCell` does, and nothing else |
| `Redis.RedisStore.Consume` | internal/store/redisstore/redisstore.go:243-265 | an invalid rule errs and touches nothing; otherwise the script runs with durations rounded up |
| `Redis.RedisStore.Take` | internal/store/redisstore/redisstore.go:268-288 | an invalid bucket errs and touches nothing; otherwise the script runs on the bucket's key |
| `Redis.PutCellGet` | internal/store/redisstore/redisstore.go:248-249 | writing one key's counter and block back changes no other Redis key |
| `StoreRuns.StepFrame` | internal/store/redisstore/redisstore.go:243-288 | a call leaves the counter, block and tokens of every other limiter and bucket alone |
| `StoreRuns.CellStep` | internal/store/redisstore/redisstore.go:243-265 | in any run each call changes a key's counter and block as the script does, or not at all, and answers accordingly |
| `StoreRuns.BucketStep` | internal/store/redisstore/redisstore.go:268-288 | the same for a key's token bucket |
| `WindowRuns.ReachableCells` | internal/store/redisstore/redisstore.go:69-91 | in every reachable state a live block excludes a live counter, and every counter has an expiry and lies in 1..limit |
| `WindowRuns.BlockFreezes` | internal/store/redisstore/redisstore.go:69-91 | from the moment a block is set until it lifts, no call on any key with any rule changes that key's state |
| `WindowRuns.BlockIsExact` | internal/store/redisstore/redisstore.go:69-91 | before the block lifts every call is refused with count -1 and the exact remainder and writes nothing; the first call at or after that instant is allowed with count 1 |
| `WindowRuns.WindowInvariantHolds` | internal/store/redisstore/redisstore.go:69-91 | seen from any call on: allows never exceed limit per window opened since plus what the first window had left, and windows open at least min(window, block) apart |
| `WindowRuns.WindowBound` | internal/store/redisstore/redisstore.go:69-91 | in any half-open interval of length T fewer than limit * (1 + ceil(T / min(window, block))) calls on a key are allowed |
| `WindowRuns.UnderTwiceTheLimit` | internal/store/store.go:59-64 | one window length admits fewer than twice the limit when the block is no shorter than the window |
| `WindowRuns.UnderTwiceTheLimitIsTight` | internal/store/store.go:59-64 | for every valid rule there is a run in which one window length admits exactly 2 * limit - 1 |
| `BucketRuns.LevelIgnoresExpiry` | internal/store/redisstore/redisstore.go:130-132 | the tokens a take finds are those it would find if keys never expired: the PEXPIRE span covers a full refill |
| `BucketRuns.ForgottenTenSecondsLate` | internal/store/redisstore/redisstore.go:131-132 | a bucket key lives exactly until ten seconds after the first millisecond at which it would be full again |
| `BucketRuns.RefillComposes` | internal/store/redisstore/redisstore.go:117-119 | refilling in two parts equals refilling once, under the cap |
| `BucketRuns.LevelAtMostBudget` | internal/store/redisstore/redisstore.go:101-135 | the tokens held never exceed what any earlier take's full bucket would have left |
| `BucketRuns.LevelIsSomeBudget` | internal/store/redisstore/redisstore.go:101-135 | the tokens held are the cap, or exactly what some earlier take's full bucket would have left |
| `BucketRuns.Exactness` | internal/store/redisstore/redisstore.go:101-135 | a take is allowed if and only if, counted from every earlier take on the key, the tokens taken stay within burst plus rate times elapsed time |
| `BucketRuns.IntervalBound` | internal/store/redisstore/redisstore.go:101-135 | no interval admits more than burst plus rate times its length |
| `BucketRuns.RetryAfterSeconds` | internal/httpapi/httpapi.go:306-311 | at least one second; otherwise the least whole number of seconds that covers the wait |
| `BucketRuns.RetryAdvice` | internal/store/redisstore/redisstore.go:121-134 | after a refusal the next take succeeds if and only if the advised milliseconds have passed; the advised duration and the whole-second header both suffice |
| `BucketRuns.RefusedTakesUnobservable` | internal/store/redisstore/redisstore.go:117-132 | deleting any set of refused takes, and keeping bucket keys for ever or not, changes no answer of any remaining call |
| `Fake.FakeStore.CountOne` | internal/store/storetest/fake.go:83-90 | rolls the window when it has ended, then counts one |
| `Fake.FakeStore.ConsumeAt` | internal/store/storetest/fake.go:76-101 | the three maps change under this key only, as `ConsumeCell` says |
| `Fake.FakeStore.Consume` | internal/store/storetest/fake.go:64-102 | every call is counted; a failing fake answers the error and changes nothing else |
| `Fake.FakeStore.Take` | internal/store/storetest/fake.go:106-139 | whatever the bucket, valid or not, the bucket map changes under this key only, as `TakeState` says, and the answer is `TakeAnswer`; a failing fake answers the error |
| `Fake.WaitMeaning` | internal/store/storetest/fake.go:137 | for every nonzero rate the wait is the exact quotient cut towards zero, with the sign of the rate |
| `FakeWindows.WindowsSimulate` | internal/store/storetest/fake.go:64-102 | after any run, seen from now on, both stores hold the same live block and the same live count of a key |
| `FakeWindows.FakeConsumeRefines` | internal/store/storetest/fake.go:64-102 | on every call of every multi-key run the fake and the script give the same blocked, count and wait, if the calls on that key use whole seconds and do not alias |
| `FakeWindows.WholeSecondsExactly` | internal/store/storetest/fake.go:86-99 | for every valid rule: both agree on every call of every run if and only if window and block are whole seconds |
| `FakeWindows.AliasesExactly` | internal/store/storetest/fake.go:73 | for any two keys that Redis stores alike: counting both at once agrees if and only if they are one key |
| `FakeTokens.TakeAgrees` | internal/store/storetest/fake.go:106-139 | from the same tokens, both allow alike and hold the same tokens afterwards if and only if the bucket is steady: a live key has seen time pass or fits the new cap, a forgotten key would have refilled it |
| `FakeTokens.TokensSimulate` | internal/store/storetest/fake.go:106-139 | after any run of steady takes both hold the same tokens counted at the same instant |
| `FakeTokens.FakeTakeRefines` | internal/store/storetest/fake.go:106-139 | over every run, whatever buckets the calls bring: both agree on all takes of a key if and only if each found a steady bucket; then remaining agrees too, and the wait of a refusal is the script's, rounded up to the millisecond, if and only if the cut does not show |
| `FakeTokens.TwoTakesExactly` | internal/store/storetest/fake.go:118-130 | for any two buckets and any delay, the exact condition for two takes to agree |
| `FakeTokens.ChangingBucketsShow` | internal/store/storetest/fake.go:124-130 | a bucket that shrinks at once, and one that grows while Redis forgets the key, make the stores part |
| `FakeTokens.FixedBucketIsSteady` | internal/store/storetest/fake.go:106-139 | one bucket per key is always steady, although one store expires keys and the other never does |
| `FakeTokens.ConfiguredTakesRefine` | internal/store/storetest/fake.go:106-139 | with one bucket per key both agree on allowed, remaining and, up to the configured maximum rate, the wait rounded up to the millisecond |
| `FakeTokens.FractionsOfMilliseconds` | internal/store/storetest/fake.go:124-130 | for all instants: the script grants the next token of a one-per-second bucket when a thousand millisecond marks have gone by, the fake when a second has |
| `FakeTokens.WaitsAgreeExactly` | internal/store/storetest/fake.go:137 | the truncated wait rounds up to the script's if and only if the missing part divides evenly or leaves at least a nanosecond |
| `FakeTokens.ConfiguredWaitsAgree` | internal/store/storetest/fake.go:137 | at a rate of at most 1,000,000 every wait agrees |
| `Breaker.CircuitBreaker.Allow` | internal/store/breaker/breaker.go:100-120 | the fields and the answer change as `AllowStep` says |
| `Breaker.CircuitBreaker.Record` | internal/store/breaker/breaker.go:122-142 | the fields change as `RecordStep` says |
| `Breaker.CircuitInvariant` | internal/store/breaker/breaker.go:100-146 | under every interleaving `failures` is the length of the trailing failure run in record order, open iff that reaches the threshold, probing only while open |
| `Breaker.OneAdmissionPerRecord` | internal/store/breaker/breaker.go:108-119 | an open circuit admits nothing before `openUntil`, and at most one call between two records |
| `Breaker.OthersOnlyFall` | internal/store/breaker/breaker.go:100-142 | while the circuit is open the calls in flight other than the probe never become more |
| `Breaker.FirstProbeAlone` | internal/store/breaker/breaker.go:98-120 | a probe admitted with nothing in flight is the only call in flight until the circuit closes |
| `Breaker.SingleProbeExactly` | internal/store/breaker/breaker.go:98-142 | from any open circuit, a continuation with two calls in flight exists if and only if a call other than the probe is in flight now |
| `Breaker.StragglerReachable` | internal/store/breaker/breaker.go:100-142 | under every positive threshold and every cooldown there is a trace that ends in an open circuit with a call other than the probe in flight, so two in flight do happen |
| `Breaker.OutageSpacing` | internal/store/breaker/breaker.go:67-142 | during an outage each call beyond the threshold costs a whole cooldown |
| `Breaker.OutageCost` | internal/store/breaker/breaker.go:67-142 | a continuously failing store is called at most threshold + floor(elapsed / cooldown) times |
| `Breaker.Recovery` | internal/store/breaker/breaker.go:67-142 | once the store is healthy from u, every call at or after u + cooldown reaches it and leaves the circuit closed |
| `BlockCache.Cache.Find` | internal/store/blockcache/blockcache.go:138-147 | an entry is found exactly while its time has not come |
| `BlockCache.Cache.Remember` | internal/store/blockcache/blockcache.go:149-163 | writes the capped expiry unless the key is new and the cache is full |
| `BlockCache.Cache.Sweep` | internal/store/blockcache/blockcache.go:179-189 | whatever the iteration order: from now on every lookup of every key finds what it found before, and every entry left is still trusted |
| `BlockCache.RememberFound` | internal/store/blockcache/blockcache.go:149-163 | a remembered key is found again for exactly min(wait, cap), unless it is new and the cache full; refreshing an entry is always possible, and no other key is affected |
| `BlockCache.RememberBounded` | internal/store/blockcache/blockcache.go:157-162 | a positive capacity is never exceeded |
| `Stack.StoreStack.Inner` | internal/store/breaker/breaker.go:67-86 | allow, inner call and record compose as `InnerStep`; a refused call reaches nothing |
| `Stack.StoreStack.Call` | internal/store/blockcache/blockcache.go:89-120 | lookup, inner call and remember compose as `StackStep`; takes bypass the cache |
| `Stack.BlocksOnlyGrow` | internal/store/redisstore/redisstore.go:69-91 | no call shortens a block |
| `Stack.AnswersSucceed` | internal/store/redisstore/redisstore.go:243-288 | a store that started empty never errs on a valid call |
| `Stack.ErrsExactly` | internal/store/redisstore/redisstore.go:243-288 | a store call errs if and only if its rule or bucket is invalid or its live key holds a value of another kind, and then changes nothing |
| `Stack.CacheTransparent` | internal/store/blockcache/blockcache.go:89-189 | with any capacity, cap, breaker settings and sweeps at any time, every call of every run gets the uncached store's verdict and count and leaves its keyspace; a hit's wait is positive and never exceeds the real remainder |
| `Stack.SweepsUnseen` | internal/store/blockcache/blockcache.go:179-189 | with an unbounded cache, whatever is swept and whenever, every call of every run gets the answer, and leaves the keyspace, circuit and hit count, that it would without sweeps |
| `Stack.HitsCounted` | internal/store/blockcache/blockcache.go:92-98 | the hit counter is the number of calls answered from the cache |
| `Stack.InvalidRuleNeedsMiss` | internal/store/blockcache/blockcache.go:89-101 | on a closed circuit an invalid rule is answered as the store would if and only if the cache misses |
| `Stack.BackedUnderFaults` | internal/store/blockcache/blockcache.go:89-111 | lost requests, lost replies and open circuits never leave a cache entry outliving its block |
| `Stack.RefusalIsTrue` | internal/store/blockcache/blockcache.go:89-111 | whatever the stack refuses, the store itself would refuse at that instant |
| `Fleet.InvAlways` | internal/store/blockcache/blockcache.go:89-189 | after every schedule of lookups, admissions, scripts, records, remembers, sweeps and manual unblocks, on any number of replicas: executed scripts form a run, every answer has its source, every cache entry its cause |
| `FleetSteps.BackToBack` | internal/store/blockcache/blockcache.go:89-120 | one request's moves made back to back on any replica of any fleet state, with any fault, cache and circuit, give the keyspace, circuit, entries and answer of one call of the stack; the answer comes from the cache iff it hit, from the breaker iff it missed and was not admitted, from the script iff admitted and nothing was lost |
| `FleetSteps.CircuitIsTrace` | internal/store/breaker/breaker.go:67-142 | over every schedule each replica's circuit is what the breaker makes of that replica's own questions and records; only admitted requests record, and the trace counts as in flight exactly the requests on their way |
| `FleetSteps.AskDecides` | internal/store/breaker/breaker.go:67-75 | a request that asks becomes admitted if and only if its replica's trace admits it, and is answered by the breaker if and only if it does not |
| `FleetSteps.OnlyAskDecides` | internal/store/breaker/breaker.go:67-75 | no other move of any replica brings a request past the breaker or makes the breaker answer it |
| `FleetSteps.FleetCircuit` | internal/store/breaker/breaker.go:100-146 | on every replica of every fleet `failures` is the trailing run of failures, the circuit is open iff that reaches the threshold, and probing only while open |
| `FleetSteps.FleetOneAdmission` | internal/store/breaker/breaker.go:108-119 | on every replica an open circuit admits nothing before its time and at most one request between two records |
| `FleetSteps.FleetSingleProbe` | internal/store/breaker/breaker.go:98-120 | a replica with an open circuit and no request on its way to Redis has at most one there until the circuit closes, whatever arrives |
| `FleetSteps.FleetSweep` | internal/store/blockcache/blockcache.go:179-189 | a sweep changes nothing but one replica's entries: every later lookup finds the same, and what is left is still trusted |
| `Fleet.HitsAreJustified` | internal/store/blockcache/blockcache.go:89-163 | every hit at t, under every interleaving, repeats a blocked script answer for the same key remembered on that replica at t2 <= t < t2 + min(wait, MaxTTL) |
| `FleetUnblock.UnblockTakesEffect` | internal/store/blockcache/blockcache.go:17-20 | for every schedule with a manual unblock of a key in it: a hit on that key, at or after the replica's clock at the unblock plus MaxTTL, rests on a script that ran after the unblock and on a block that counting past the limit set anew after it, or on an answer that was on its way to the cache at the unblock |
| `Fleet.CapacityHolds` | internal/store/blockcache/blockcache.go:157-162 | under every interleaving no replica's cache exceeds a positive MaxEntries |
| `FleetBounds.AllowsComeFromScripts` | internal/store/blockcache/blockcache.go:89-111 | every go-ahead a request gets was given by its own script execution |
| `FleetBounds.FleetBound` | internal/store/redisstore/redisstore.go:243-265 | any number of replicas, caches, breakers, faults and interleavings: fewer than limit * (1 + ceil(T / min(window, block))) requests are allowed on a key in an interval of length T |
| `FleetBounds.FleetCapacity` | internal/store/redisstore/redisstore.go:268-288 | the same for a token bucket: never more than burst plus rate times the interval |
| `Paths.MatchesPath` | internal/limiter/limiter.go:88-117 | the search loop decides whether some pattern matches the path; no patterns match everything |
| `Paths.MatchesMethod` | internal/limiter/limiter.go:133-143 | the search loop decides whether some method matches without regard to case |
| `Paths.FoldingIsCase` | internal/limiter/limiter.go:92-103 | folding identifies two strings if and only if they have the same length and at each place the same character or the two cases of one letter |
| `Paths.ScopeMeaning` | internal/limiter/limiter.go:88-117 | for rooted paths the search succeeds if and only if there is no pattern or some pattern covers the path, said without folding |
| `Paths.MethodMeaning` | internal/limiter/limiter.go:133-143 | the method search succeeds if and only if there is no method or some method is the request's up to case |
| `Paths.UnderIsSegmentPrefix` | internal/limiter/limiter.go:104-111 | equal-or-prefix-with-slash holds if and only if the slash-split segments are a prefix |
| `Paths.PatternMeaning` | internal/limiter/limiter.go:88-126 | for rooted paths a "/*" pattern matches iff its segments are, up to case, the first of the path's; any other iff it spells the path up to case and one trailing slash |
| `Paths.CaseInvariant` | internal/limiter/limiter.go:92-103 | replacing patterns, methods or path by the same strings in other case changes neither search |
| `Paths.SlashInvariant` | internal/limiter/limiter.go:121-126 | one trailing slash changes nothing, and is dropped exactly when it does not follow another |
| `Paths.ValidPatternMatches` | internal/config/file.go:210-224 | every accepted pattern matches some rooted path |
| `Engine.LimiterEngine.Apply` | internal/limiter/engine.go:121-149 | one store call, token bucket first, read in one shape; errors stay errors |
| `Engine.LimiterEngine.Applies` | internal/limiter/limiter.go:78-80 | path search and method search together decide the scope |
| `Engine.LimiterEngine.Weigh` | internal/limiter/engine.go:53-91 | one answer is folded into the decision as `Judge` says, whose meaning `EvaluationsMean` and `DecisionMeans` give, and ends the walk exactly on an enforced block |
| `Engine.LimiterEngine.Evaluate` | internal/limiter/engine.go:39-95 | the loop, with its path and method searches and its early return, computes `Walk`: decision and new state of cache, breaker and store |
| `Engine.First` | internal/limiter/engine.go:77-87 | the least index of a limiter that enforces a block in a complete evaluation, or none |
| `Engine.WalkIsTruncation` | internal/limiter/engine.go:39-95 | a request is rejected if and only if some limiter of a complete evaluation enforces a block; the walk is that evaluation cut right after the first one, and names it with its count, wait and advice |
| `Engine.BlockedOnlyLast` | internal/limiter/engine.go:77-87 | VerdictBlocked appears iff the request is rejected, and only as the last evaluation, under the named limiter |
| `EngineMeaning.EvaluationsMean` | internal/limiter/engine.go:53-91 | one evaluation per limiter that has a say, up to the first enforced refusal: failed open iff the call failed, allowed iff it succeeded and was not refused, would block iff a dry-run limiter was refused, blocked iff an enforcing one was |
| `EngineMeaning.DecisionMeans` | internal/limiter/engine.go:39-95 | rejected iff some enforcing limiter was refused, reporting the first one with the count (or tokens left) and wait of its answer and its own advice; otherwise it reports the first refused dry-run limiter, and if there is none it is undecided |
| `EngineMeaning.FailedOpen` | internal/limiter/limiter.go:189-199 | the search finds whether some evaluation failed open |
| `EngineMeaning.FailedOpenMeans` | internal/limiter/limiter.go:189-199 | a request failed open if and only if some limiter it was asked of got an error |
| `EngineMeaning.ConsultedMeaning` | internal/limiter/limiter.go:71-80 | a limiter has a say iff some pattern covers the path, some method is the request's up to case, it has a valid algorithm and its keyer yields a bucket |
| `EngineMeaning.OutOfScopeIsAbsent` | internal/limiter/engine.go:42-50 | removing the limiters out of scope changes neither decision nor state |
| `EngineMeaning.BucketTakesPrecedence` | internal/limiter/engine.go:130-142 | a limiter with both algorithms behaves in every walk as the same limiter without its window |
| `Engine.RejectionsAreTrue` | internal/limiter/engine.go:39-149 | after any history of requests with any faults, sweeps and other replicas' scripts, a rejection names the first enforcing blocked limiter and the shared store itself refuses that call at that instant |
| `EngineTransparency.WalkTransparent` | internal/limiter/engine.go:39-95 | from aligned states, one request walked over cache and breaker or straight on a store that answers gets the same decision and leaves the same keyspace |
| `EngineTransparency.EngineTransparent` | cmd/forwardlimit/main.go:244-313 | over any history of requests to a store that answers, sweeps and other replicas' scripts, with any cache and breaker settings, decisions and evaluations are those of the undecorated store and so is the keyspace; only a block's reported wait may be shorter, and stays positive |
| `DryRun.ErasureInOneRequest` | internal/limiter/engine.go:63-75 | from states no enforcing limiter can tell apart, walking with and without the dry-run limiters ends in such states and in one response |
| `DryRun.DryRunErasure` | internal/limiter/engine.go:39-95 | over any history, where limiters share no cache capacity: removing all dry-run limiters changes no rejection, limiter, count, wait or advice, no enforcing evaluation and no enforcing limiter's store state; whatever requests and replies are lost if the breaker is off, and with any breaker if none is |
| `DryRun.StackDryRunErasure` | internal/limiter/engine.go:63-75 | with any cache and breaker, while the store answers: removing all dry-run limiters changes no rejection, limiter, count or advice, no enforcing evaluation and no enforcing limiter's store state |
| `DryRunLimits.SharedCircuit` | internal/limiter/engine.go:63-66 | for every breaker: a history of lost dry-run calls after which a request the store would refuse is let through, and is rejected without the dry-run limiter |
| `DryRunLimits.SharedCapacity` | internal/limiter/engine.go:63-66 | for every bounded cache: a history of dry-run blocks after which a lost request is let through, and is rejected without the dry-run limiter; with nothing lost the wait differs where the cap is shorter than the block |
| `DryRunLimits.AlwaysErasedExactly` | internal/limiter/engine.go:63-66 | whatever is lost, erasing dry-run limiters never changes a response if and only if the breaker is off and the cache is off or unbounded |
| `DryRunLimits.ErasedWhileAnsweringExactly` | internal/limiter/engine.go:63-66 | while the store answers, it never changes a response, wait included, if and only if the cache is off or unbounded |
| `Normaliser.ParseNames` | internal/config/file.go:321-363 | up to surrounding space, each plain name parses to its own normaliser and nothing else does; only "ipsubnet" and "ipsubnet/..." give a subnet |
| `Normaliser.TrimMeaning` | internal/config/file.go:322 | trimming takes all the space around a string and nothing else |
| `Normaliser.ParseOnePrefix` | internal/config/file.go:319-320 | "ipsubnet/N" parses to (N, 64) iff N <= 32, else is refused |
| `Normaliser.ParseTwoPrefixes` | internal/config/file.go:319-320 | "ipsubnet/N,M" parses to (N, M) iff both are in range, else is refused |
| `Normaliser.PrefixesPadded` | internal/config/file.go:338-350 | space around a prefix length does not matter, and a third one is refused |
| `Normaliser.AtoiSigned` | internal/config/file.go:343-347 | a sign is read as one; a sign alone or twice is not a number |
| `Config.KeyProblems` | internal/config/file.go:288-314 | no problem is reported if and only if every node of the key tree is valid |
| `Config.KeyProblemMeaning` | internal/config/file.go:288-314 | each kind of problem is reported if and only if some node of the tree has it |
| `Config.SourcesMeaning` | internal/config/file.go:102-120 | the count of sources is zero iff none is set, one iff exactly one is, more iff two different ones are |
| `Config.WindowProblems` | internal/config/file.go:253-263 | each range problem is reported iff its field is outside 1..10,000, 1 s..1 h or 1 s..24 h |
| `Config.BucketProblems` | internal/config/file.go:265-272 | each range problem is reported iff its field is outside 1..1,000,000 |
| `Config.ValidatePaths` | internal/config/file.go:210-224 | one problem for every bad pattern, in order, and none if and only if every pattern is valid |
| `Config.PathProblemMeaning` | internal/config/file.go:214-222 | empty, relative, and starred other than in a final "/*": each reported exactly then |
| `Config.ValidateMethods` | internal/config/file.go:228-251 | one problem for every empty, malformed or repeated method, in order, and none if and only if all are tokens and pairwise different without regard to case |
| `Config.MethodProblemMeaning` | internal/config/file.go:233-249 | empty, malformed and repeated: each reported exactly then, and the same for names |
| `Config.ValidateLimiter` | internal/config/file.go:160-201 | every problem of the entry, its response included; none if and only if the entry is valid and its name new; a well-formed name is recorded |
| `Config.Validate` | internal/config/file.go:134-156 | every problem of the file and of every entry, in order; none if and only if the file is valid: non-empty, valid entries and responses, distinct names |
| `Config.ValidateResponse` | internal/config/file.go:274-286 | one problem each for a status outside 4xx and 5xx, two bodies, and a missing body file |
| `Config.EveryProblemReported` | internal/config/file.go:131-156 | whatever is wrong with an entry is in the report, whatever else is wrong with the file |
| `Config.ValidKeyBuilds` | internal/config/build.go:158-212 | a valid key always builds; hashing is reported, and present in the keyer, iff some node asks for it; subnet prefixes are in range |
| `Config.KeyerMirrors` | internal/config/build.go:158-228 | at every node the keyer reads the spec's source in order, with its normaliser, separator and hashing |
| `Config.Build` | internal/config/build.go:73-134 | errs iff a key does not build or a body file that is wanted cannot be read; otherwise yields the kept limiters, the overrides of the kept ones, the default response, a warning per dropped one in order, and a last one iff none is left |
| `Config.ValidBuildsUnlessUnreadable` | internal/config/build.go:89-127 | an entry of a valid file stops the build if and only if it is kept and its body file cannot be read |
| `Config.Resolve` | internal/config/build.go:232-252 | errs iff the body file cannot be read; a status, content type or body that is set is the result's own, a body file is what the body is, and what is unset comes from the base |
| `Config.OverrideOf` | internal/config/build.go:120-126 | each kept limiter with a response has exactly its own override, and no one else has one |
| `Config.EffectiveResponse` | internal/config/build.go:79-126 | the response to a kept limiter's rejection has, field by field, what its entry sets, else what the file sets, else status 429, JSON and the small default body |
| `Config.BuiltLimiters` | internal/config/build.go:73-134 | the built limiters are the file's, in order, without exactly those that ask for hashing when the secret is empty; names are distinct and each has exactly one valid algorithm |
| `Deployment.ConfiguredRejections` | internal/limiter/engine.go:39-149 | for every valid file, every history with sweeps and other replicas, and all faults: a rejection is the store's own refusal of the named limiter's call |
| `Deployment.ConfiguredDryRun` | internal/limiter/engine.go:58-75 | for every valid file, taking the dry-run limiters out changes no enforcement while the store answers; where limiters share no cache capacity not even the wait, and with the breaker off whatever is lost |
| `Deployment.ConfiguredDryRunExactly` | internal/limiter/engine.go:63-66 | over all valid files and all their histories, lost calls included, dry-run limiters never change a response if and only if the breaker is off and the cache is off or unbounded |
| `Deployment.OnlyEngineCallsAlways` | internal/limiter/engine.go:121-149 | in every reachable fleet state, every request and every executed script is a call of a configured limiter |
| `Deployment.AlgorithmIsFixed` | internal/config/file.go:172-175 | unique names make every key be counted by one rule or one bucket only |
| `Deployment.ConfiguredBound` | internal/config/build.go:109-114 | for every valid file, window limiter, bucket, fleet and schedule: the distributed bound, and fewer than twice the limit per window when the block is no shorter |
| `Deployment.ConfiguredCapacity` | internal/config/build.go:115-117 | for every valid file, token-bucket limiter, bucket, fleet and schedule: at most burst plus rate times the interval |

## Left out

- Redis client, TLS, pooling, Ping, retries and cluster construction: library plumbing; the model starts at the two scripts.
- Redis's whole-second rounding of `TTL`, and double rounding in Lua and in the fake: time and arithmetic are exact here. Integers are unbounded; values stay far below 64 bits for every accepted configuration.
- CRC16: only the hash tag that feeds it is modelled.
- HTTP handling, body reading, panic recovery outside the keyer, and response writing, apart from the Retry-After rounding: I/O.
- JSON, query and header extraction, `net.ParseIP` and HMAC: a keyer is an arbitrary function; what is proved is which keyer is built.
- Environment loading and YAML decoding: parsing libraries. Numeric bounds are kept as constants, and the file system is two functions: does a file exist, and what does reading it give.
- Observability, the no-op store, the sweeper's ticker, end-to-end manifests: no property of the kind proved here. A sweep is a step that may happen at any time.
- Unicode case folding beyond ASCII: easy members only.
- A panic inside the store, which `apply` turns into an error: it would skip `record`, which the breaker results assume happens.
- FakeWindows.FakeConsumeRefines: asks for whole seconds and unaliased keys, because the answers differ otherwise; `WholeSecondsExactly` and `AliasesExactly` say so for all rules and keys.
- FakeTokens.FakeTakeRefines: asks for whole-millisecond instants and valid buckets, because the script counts milliseconds (`FractionsOfMilliseconds`) and refuses invalid buckets, and the fake does neither.
- DryRun.StackDryRunErasure: does not keep the reported wait equal, because a bounded cache is shared; `ErasedWhileAnsweringExactly` gives the condition.
- Engine.RejectionsAreTrue: lets other replicas run scripts between requests and not between two limiters of one request; the interleaving of single steps is the subject of `Fleet`.
- Breaker.OutageCost: covers sequential calls, because concurrent calls admitted before the circuit opens are bounded only by how many arrive.
