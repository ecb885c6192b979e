# Verified model of the URL shortener

This project models the parts of the shortener in which several threads, instances or clocks meet, and
proves what they guarantee over every run. `dafny verify dfyconfig.toml` checks it.

| file | models |
|---|---|
| `LruCache.dfy` | the bounded LRU cache with per-entry expiry |
| `LinkStore.dfy` | the link table, bulk hit counts and the sweep of expired rows |
| `ReadPath.dfy` | `resolve`, its inner `load`, `SingleFlight` and the cache, one atomic region at a time, under every interleaving |
| `ReadEffects.dfy` | what single steps and whole requests of that model do, and what its history variables stand for |
| `Waiters.dfy` | what single flight does to the answers of the requests that wait |
| `App.dfy` | one instance as an object: `resolve` and `takedown` from start to end |
| `InvalidationLog.dfy` | the invalidation log and one undisturbed poll |
| `InvalidationSchedules.dfy` | overlapping, dying and interleaved polls of a fleet |
| `TokenBucket.dfy`, `LimiterStores.dfy` | the token bucket, the SQLite store that never forgets and the Redis script that does |
| `Base62.dfy`, `Snowflake.dfy`, `RandomCodes.dfy`, `CodeAllocator.dfy` | short codes, ids, random codes, and allocation by a fleet |
| `CircuitBreaker.dfy` | the breaker and the limiter it guards |
| `HitCounter.dfy` | batched hit counting |

Objects that the program updates in place are classes. Each of their methods is proved to take exactly
the step of a function on values, and the theorems are about all runs of those functions. Where threads
interleave, a step is what the program does under one lock, in one transaction or in one script, and a
run is any sequence of steps. Clock readings, raised exceptions and numbers skipped by AUTOINCREMENT are
parameters, so every theorem holds for all of them. Automatic induction is off for all lemmas: every
induction is written out.

## Main results

* **Stampede law.** The store reads of a code that found a live link are exactly as many as the times its
  cache entry disappeared, plus one while it is cached or about to be. So a cold key costs one read,
  whatever the number of concurrent requests.
* **Single flight.** One leader per key, which pops its own call; a waiter never runs the load and gets
  its leader's outcome; some request can always move, and every schedule ends.
* **The cache is transparent.** Under every interleaving, including purging a row and creating its code
  again, a request that hits the cache or loads by itself gets an answer that an uncached lookup would
  have given at some moment of the request. The one condition is that no sweep before its arrival used a
  later time than the request's own.
* **Waiters** get their leader's truth, which need not be their own: a link that existed before a request
  arrived can be answered with 404, and an expired one with a redirect. When that cannot happen is an
  if-and-only-if.
* **Invalidation never skips**, with overlapping polls and polls that die half-way.
* **Token bucket.** The admission bound for arbitrary clocks, the exact retry-after time, when a denied
  call is invisible, and over which runs the store that forgets agrees with the one that does not.
* **Codes.** Ids of a fleet never repeat for clocks that step back, and allocation never collides.
* **Breaker.** Who is admitted, as a function of the history alone; when there is a single probe in flight;
  probes and calls to a dead store per span of time, also with overlapping callers.
* **Hits** are conserved.

## Where the code and its documentation differ

The model follows the code.

* `src/shortener/ids.py:43` says that codes grow to 11 characters in 2038. With this epoch and these
  field widths they do on 6 May 2031 (`Snowflake.ElevenCharactersFrom2031`).
* `README.md` says that a code collision returns 500 and is not retried. `CodeAllocator` retries, and
  only exhausting the attempts is an error.
* `src/shortener/breaker.py:21-23` and `README.md` promise a single probe. Each entry into the half-open state
  admits one caller, but a late failure of an older call reopens the circuit while that probe is still
  running (`CircuitBreakers.TwoProbesInFlight`). The promise holds for probes that report within a time `d`
  exactly if `d` is shorter than the cooldown (`CircuitBreakers.SingleProbeIff`).
* Single flight answers a waiter for its leader's time and its leader's look at the store
  (`Waiters.CreatedLinkAnswers404`, `Waiters.ExpiredLinkRedirects`; when it is right: `Waiters.WaiterIsRightIff`,
  `Waiters.EarlyWaiterIsRightIff`, `Waiters.LateWaiterIsRightIff`, `Waiters.WaiterIsRight`).
* At refill rate 0 the two limiter stores are not equivalent, because the script falls back to a TTL of
  one hour (`TokenBuckets.HardQuotaComesBack`). `TokenBuckets.StoresAgreeIff` says over which runs they are, for
  every policy, and `TokenBuckets.HardQuotaAgreesIff` says it for rate 0 in terms of the calls alone.
* A denied call can cause a later admission, because it overwrites the bucket's time: if the clock had stepped
  back to it (`TokenBuckets.BackwardDenialIsVisible`), and also if the clock steps back after it
  (`TokenBuckets.DenialBeforeStepBackIsVisible`). It is invisible in all continuations exactly if it came at the
  bucket's own time, nothing is ever refilled, or the bucket was full (`TokenBuckets.DenialInvisibleIff`). If no
  later call comes before it, it is enough that the clock had not stepped back to it
  (`TokenBuckets.DenialInvisibleLaterIff`).
* A cursor of the invalidation log can step back (`InvalidationSchedules.OverlappingPollsSetCursorBack`), exactly
  when the poll that wrote last had seen more, or the instance was meanwhile told to start after
  (`InvalidationSchedules.CursorStepsBackIff`). Nothing is skipped even then.
* `register` without a number promises to replay everything, but a poll that is in flight meanwhile overrules it
  (`InvalidationSchedules.RegisteringUnderPollSkips`). Registered while none of its polls is in flight, an
  instance misses nothing (`InvalidationSchedules.NeverSkipsSinceRegistered`).

## Model

| member | source | states |
|---|---|---|
| `LruCaches.LruCache.Get` | src/shortener/store.py:130-146 | a lookup returns the value of the key's entry exactly if that has not expired at the given time, makes it the most recent, deletes an expired one, keeps all others, and counts a hit or a miss |
| `LruCaches.LruCache.Put` | src/shortener/store.py:148-153 | the entry written is the most recent one if anything can be stored; nothing else comes in, and others leave only a full cache |
| `LruCaches.PutThenGet` | src/shortener/store.py:130-153 | after every run, a lookup right after a put finds the value that was put, unless that has expired, and counts a hit |
| `LruCaches.CountersAreTrue` | src/shortener/store.py:130-146 | after every run the hit counter is the number of answered lookups, and both counters together are all lookups |
| `LruCaches.LruCache.Invalidate` | src/shortener/store.py:155-157 | removes the key and nothing else |
| `LruCaches.LruCache.Clear` | src/shortener/app.py:182-190 | forgets all entries, keeps the counters and returns how many entries there were |
| `LruCaches.RunIsBounded` | src/shortener/store.py:148-153 | after every run keys are distinct and the capacity is respected |
| `LruCaches.RecencyAndFreshness` | src/shortener/store.py:130-157 | after every run the entries are in order of the last operation that used their key, and each holds the latest write of its key |
| `LruCaches.EvictsLeastRecentlyUsed` | src/shortener/store.py:148-153 | a put evicts only from a full cache, and everything that stays was used after the victim |
| `LruCaches.Inclusion` | src/shortener/store.py:130-157 | on the same operations a smaller cache holds a subsequence of a larger one, which has at most the difference in capacity more entries and at least as many hits |
| `LinkStores.LinkStore.Create` | src/shortener/store.py:69-81 | a free code gets exactly one new row, with the given code and target, created at the given time, else at the wall clock's, and expiring the given seconds after it; a taken code raises and changes nothing; time 0 and ttl 0 count as absent; afterwards the target is found exactly before the expiry |
| `LinkStores.CreatedIsFound` | src/shortener/store.py:69-88 | a new row is found exactly at the times before its expiry, and no other code's answer changes |
| `LinkStores.LinkStore.Get` | src/shortener/store.py:83-88 | the row of the code, expired or not |
| `LinkStores.LinkStore.RecordHitsBulk` | src/shortener/store.py:96-108 | adds all counts or none |
| `LinkStores.LinkStore.PurgeExpired` | src/shortener/pgstore.py:184-206 | removes exactly the rows whose expiry is not after the given time, keeps the others as they are, and returns the number removed |
| `LinkStores.PurgeIsInvisible` | src/shortener/pgstore.py:184-206 | no lookup at the sweep's time or later can tell that the sweep happened |
| `ReadPath.SingleFlightSafety` | src/shortener/store.py:195-229 | in every schedule: at most one request per key runs `fn`, a finishing leader's key maps to its own call, and a waiter that never ran `fn` has the outcome of a leader for the same code that did and is done |
| `ReadPath.StampedeLaw` | src/shortener/app.py:268-282 | in every schedule: store reads of a code equal fruitless reads plus disappearances of its entry plus one if it is cached or about to be |
| `ReadEffects.CountsAreTrue` | src/shortener/app.py:275 | the store reads of that law are the steps of the schedule in which the store is read, and the fruitless ones those that raise or find no live row |
| `ReadEffects.RemovalHasReason` | src/shortener/store.py:139-157 | an entry disappears only by an invalidation or a flush, by a lookup of its key at or after its expiry, or by a put of another key into a full cache (of any key into one of capacity 0) |
| `ReadPath.NoOneStuck` | src/shortener/store.py:205-229 | in every schedule an unfinished request can move, or waits for a leader that can |
| `ReadPath.SchedulesEnd` | src/shortener/store.py:195-229 | requests run at most eight regions each, and when no work is left all are done |
| `ReadPath.Linearizable` | src/shortener/app.py:256-285 | a request answered from the cache or by its own load was told what an uncached lookup at its own time would have answered at some moment between its arrival and its end |
| `ReadEffects.AnsweredAtSomeMoment` | src/shortener/app.py:256-285 | such a request is redirected or told 404, and at some moment between its arrival and its end an uncached lookup at its own time finds just that |
| `ReadEffects.PunctualIff` | src/shortener/pgstore.py:184-206 | the one condition on it holds exactly if no sweep before its arrival used a later time than its own |
| `ReadEffects.AnswersHaveReasons` | src/shortener/app.py:261-285 | in every schedule 410 comes only from the takedown mark of a withdrawn code, the cache only redirects, and 404 and failures come only from a load |
| `ReadEffects.FailedMeansRaised` | src/shortener/store.py:220-229 | a request fails only if the store raised when the request, or the leader it waited for, read it |
| `ReadEffects.HitIsRedirected` | src/shortener/app.py:268-296 | from any state, a request for a code that is cached and live takes two regions and is redirected to the cached value |
| `ReadEffects.MissAsksStore` | src/shortener/app.py:268-285 | from any state, a request for a code that is neither cached nor being loaded, run by itself, fails if the store raises, is redirected to a live row's target, which is then cached with its expiry, and is told 404 otherwise |
| `ReadEffects.EnvironmentTells` | src/shortener/app.py:299-312 | invalidations, flushes, withdrawals, new links and sweeps each do their one thing and leave all requests where they are |
| `ReadEffects.CacheTells` | src/shortener/app.py:268-280 | both lookups of a request refresh or drop its key in the cache, its put stores the row that was read, and no other region touches the cache |
| `ReadEffects.RegistryTells` | src/shortener/store.py:205-229 | a missing key is registered by its leader, who pops just that key and publishes its own outcome; no other region touches the registry |
| `ReadPath.WithdrawnIsGone` | src/shortener/app.py:261-266 | a request that arrives after its code was withdrawn on the instance is answered 410, never from the cache |
| `ReadEffects.WithdrawalStops` | src/shortener/abuse.py:177-189 | after a withdrawal, at any place of any schedule, no later request for the code gets any other answer than 410 |
| `Waiters.FollowerHasLeadersTruth` | src/shortener/store.py:205-229 | in every schedule a waiter is told what its leader was told, which is right for the leader's time at some moment of the leader's request |
| `Waiters.WaiterIsRightIff` | src/shortener/app.py:272-282 | a waiter whose leader has decided will be answered rightly in every continuation exactly if, since the waiter arrived, an uncached lookup at its own time has given the leader's outcome |
| `Waiters.LateWaiterIsRightIff` | src/shortener/app.py:268-282 | a request that misses the cache and arrives after its leader has decided is answered rightly in every continuation in which it joins exactly if the row it finds on arrival, at its own time, still shows the leader's outcome |
| `Waiters.EarlyWaiterIsRightIff` | src/shortener/app.py:268-282 | a waiter that arrived before its leader reads the store, and whose row has not changed since, is answered rightly in every continuation of that read exactly if the row is expired at both requests' times or at neither |
| `Waiters.WaiterIsRight` | src/shortener/app.py:268-282 | a waiter's answer is right if the row it is about was expired at both requests' times or at neither, and the waiter had arrived when the leader looked or found the row unchanged when it did |
| `Waiters.CreatedLinkAnswers404` | src/shortener/app.py:272-285 | the row must be unchanged: a schedule in which a link that existed before a request arrived is answered with 404, at one and the same time |
| `Waiters.ExpiredLinkRedirects` | src/shortener/app.py:272-282 | the times must agree: a schedule in which a request past the link's expiry is redirected because its leader is not past it |
| `App.SingleFlight.Enter` | src/shortener/store.py:205-211 | joins the registered call or registers a new one, as leader |
| `App.SingleFlight.Leave` | src/shortener/store.py:220-229 | publishes the outcome and unregisters the key |
| `App.CachedAnswerIsStores` | src/shortener/app.py:268-280 | a coherent cache answers what the store would, at any time not before the last sweep |
| `App.Instance.Load` | src/shortener/app.py:272-280 | the load re-checks the cache and otherwise agrees with the store; it raises exactly if the store does and the cache has no live copy; what it returns is then the most recent cached entry |
| `App.Instance.Find` | src/shortener/app.py:261-285 | resolves as a service without a cache would: 410 exactly for a withdrawn code, a redirect to the row's target or 404; it fails exactly if the store raises and no live copy is cached |
| `App.Instance.Resolve` | src/shortener/app.py:256-296 | as `Find`, and exactly the redirects count as one hit each, written or pending, even if the write fails |
| `App.Instance.Withdraw` | src/shortener/abuse.py:177-189 | marks the code, purges the local cache, appends one event |
| `App.Instance.Drain` | src/shortener/invalidation.py:221-229 | applies the instance's unseen events in order, catches up with the head and moves no other cursor |
| `App.Instance.Takedown` | src/shortener/app.py:299-312 | afterwards the code is withdrawn, exactly its entry and those of unseen events left the cache, and this instance has no lag |
| `App.Instance.Create` | src/shortener/store.py:69-81 | a free code gets a row with the given target, creation time and expiry, found exactly before that; and the cached entries of this and all other instances stay coherent |
| `App.Instance.Sweep` | src/shortener/pgstore.py:184-206 | sweeping rows keeps the cached entries of this and all other instances coherent or expired by the latest sweep |
| `InvalidationLogs.SqliteInvalidationBus.Publish` | src/shortener/invalidation.py:121-128 | appends one event with a number above all earlier ones |
| `InvalidationLogs.SqliteInvalidationBus.Register` | src/shortener/invalidation.py:137-148 | the cursor starts at the given number, or at zero to replay everything |
| `InvalidationLogs.SqliteInvalidationBus.Poll` | src/shortener/invalidation.py:150-171 | applies the unseen rows in order and then advances the cursor to the head; if a row fails, the earlier ones were applied and no cursor moved |
| `InvalidationLogs.UnseenInOrder` | src/shortener/invalidation.py:153-154 | the rows of a poll are in the order of the log, each once |
| `InvalidationLogs.SqliteInvalidationBus.Lag` | src/shortener/invalidation.py:177-179 | zero exactly when the cursor has reached the head, else the distance |
| `InvalidationLogs.BatchRemovesItsCodes` | src/shortener/invalidation.py:153-157 | applying a batch removes exactly the entries of its codes, and replaying it changes nothing |
| `InvalidationSchedules.NeverSkips` | src/shortener/invalidation.py:150-171 | in every schedule an event at or below an instance's cursor was applied there, unless the instance had been told to start after it when the poll began that wrote the cursor, and a code that is cached now was put after that first application |
| `InvalidationSchedules.NeverSkipsSinceRegistered` | src/shortener/invalidation.py:137-171 | an instance that is only registered, or registered again, while none of its polls is in flight has heard every event between its latest start and its cursor |
| `InvalidationSchedules.RegisteringUnderPollSkips` | src/shortener/invalidation.py:146-170 | a run in which an instance registered from zero under one of its own polls never hears an event |
| `InvalidationSchedules.CompletedPollPropagates` | src/shortener/invalidation.py:200-209 | one completed poll suffices for every event that was in the log when it read its rows, whatever overlapping polls did |
| `InvalidationSchedules.UndisturbedPoll` | src/shortener/invalidation.py:150-171 | a poll with nothing in between removes from its own cache exactly the codes of the events above its cursor, touches no other cache and no other cursor, and leaves its cursor at the head |
| `InvalidationSchedules.EnvironmentTells` | src/shortener/invalidation.py:121-148 | publishing appends one event with a number above the head, and registering sets the cursor to the given number or to zero |
| `InvalidationSchedules.AppliedTells` | src/shortener/invalidation.py:164-166 | an event counts as applied from the first time an own poll applies it, and for ever |
| `InvalidationSchedules.DeathIsFinal` | src/shortener/invalidation.py:200-209 | a poll that dies changes nothing else, and neither applies nor writes any more |
| `InvalidationSchedules.CursorsAreSeparate` | src/shortener/invalidation.py:94-97 | over a whole run from any state, only registering an instance and its own polls that write move its cursor |
| `InvalidationSchedules.IdleInstanceIsUntouched` | src/shortener/invalidation.py:94-97 | a run in which an instance takes no step, however long, leaves its cursor, its polls, its cache and what it has applied as they were |
| `InvalidationSchedules.CursorStepsBackIff` | src/shortener/invalidation.py:151-170 | in every schedule, writing a cursor sets the instance back exactly when the poll that wrote last had seen events that this one did not, or, if none wrote since the instance was registered, when it was told to start after them, which needs a poll that began before |
| `InvalidationSchedules.OverlappingPollsSetCursorBack` | src/shortener/invalidation.py:151-170 | two overlapping polls after which the cursor goes from 2 to 1 |
| `LimiterStores.SqliteStore.Consume` | src/shortener/limiter.py:131-163 | one transaction refills the key's bucket for the time since its last call, at most to the capacity, takes the cost exactly if it is there, reports what is left, and leaves all other keys alone |
| `LimiterStores.RedisStore.Consume` | src/shortener/limiter.py:38-84 | one script run does the same, treats an expired key as missing, and lets the key live for the whole milliseconds of a refill and ten seconds more, or for an hour at rate 0 |
| `LimiterStores.RateLimiter.Check` | src/shortener/limiter.py:190-193 | on either store, a check charges the client's own bucket by that store's rules and no other client's |
| `LimiterStores.ClientsAreSeparate` | src/shortener/limiter.py:190-193 | on either store and for any mix of clients, each client gets exactly the decisions that its own calls, with the costs and times it passed, would get on a store of its own |
| `LimiterStores.ClientAdmissionBound` | src/shortener/limiter.py:190-193 | in any window of any run, the cost admitted to one client is at most the capacity plus the credit of the clock's forward movements between its own calls; on Redis as long as only full buckets are forgotten |
| `TokenBuckets.LazyEqualsEager` | src/shortener/limiter.py:144-145 | one refill for n milliseconds equals n capped refills of one millisecond |
| `TokenBuckets.ConsumeTells` | src/shortener/limiter.py:147-163 | a call is admitted exactly if its cost is there, then exactly the cost is taken and otherwise nothing; the decision reports what is left; an admitted caller need not wait, a denied one as long as the missing tokens take, or for ever at rate 0 |
| `TokenBuckets.TtlTells` | src/shortener/limiter.py:73-80 | the expiry is the whole milliseconds of a refill plus ten seconds, or an hour at rate 0 |
| `TokenBuckets.RunInRange` | src/shortener/limiter.py:144-149 | tokens never become negative over any run, and stay at most the capacity if costs are not negative |
| `TokenBuckets.Budget` | src/shortener/limiter.py:131-163 | admitted cost plus remaining tokens never exceeds the first refill plus what the clock's forward movements earn |
| `TokenBuckets.AdmissionBound` | src/shortener/limiter.py:131-163 | any window of any run admits at most the capacity plus the credit of the forward movements inside it, which is the elapsed time for a clock that never steps back |
| `TokenBuckets.BurstIsExact` | src/shortener/limiter.py:144-149 | a burst of unit calls is admitted exactly as often as whole tokens are there |
| `TokenBuckets.FreshBurstIsExact` | src/shortener/limiter.py:139-149 | an unused bucket admits exactly its capacity, rounded down |
| `TokenBuckets.DenialsInvisible` | src/shortener/limiter.py:144-155 | with a clock that never steps back, deleting all denied calls changes no decision and no token count of the others |
| `TokenBuckets.OneDenialInvisible` | src/shortener/limiter.py:144-155 | with a clock that never steps back, deleting any one denied call changes nothing about the other calls, admitted or denied |
| `TokenBuckets.DenialInvisibleIff` | src/shortener/limiter.py:144-155 | deleting a denied call changes nothing in any continuation, whatever its times, exactly if it came at the bucket's own time, or the rate is 0, or the bucket was full |
| `TokenBuckets.DenialInvisibleLaterIff` | src/shortener/limiter.py:144-155 | over the continuations that start no earlier than the denied call, exactly if the clock had not stepped back to it, or the rate is 0, or the bucket was full |
| `TokenBuckets.FirstDenialInvisible` | src/shortener/limiter.py:138-155 | a denied first call of a bucket changes no continuation |
| `TokenBuckets.BackwardDenialIsVisible` | src/shortener/limiter.py:151-155 | if the clock stepped back to it, a denied call can cause a later admission |
| `TokenBuckets.DenialBeforeStepBackIsVisible` | src/shortener/limiter.py:151-155 | so it can if the clock steps back after it, with calls of cost 1 alone |
| `TokenBuckets.RetryAfterIsExact` | src/shortener/limiter.py:94-106 | after a denial the same cost is admitted at a later time exactly if it fits the capacity and the time is at least `retry_after_s` away; at rate 0 never |
| `TokenBuckets.ForgettingIsHarmlessIff` | src/shortener/limiter.py:49-52 | the script's call gives the decision of the bucket that never forgets exactly when the key is there or that bucket would be full |
| `TokenBuckets.StoresAgreeIff` | src/shortener/limiter.py:38-84 | for every policy and run, the two stores give the same decisions and tokens exactly if the bucket that never forgets is full at every call that finds its key expired |
| `TokenBuckets.ExpiryRefinement` | src/shortener/limiter.py:38-84 | for a positive rate the script and the SQLite bucket take the same decisions over every run in which the app's clock has moved by the refill time whenever a key has expired |
| `TokenBuckets.SmallDriftKeepsUp` | src/shortener/limiter.py:66-81 | the slack of ten seconds covers an app clock that falls behind the server's by no more than that between calls |
| `TokenBuckets.HardQuotaAgreesIff` | src/shortener/limiter.py:73-80 | at rate 0 the stores agree exactly over the runs in which no idle hour follows the first charge |
| `TokenBuckets.HardQuotaComesBack` | src/shortener/limiter.py:73-80 | at rate 0 the script admits again after an hour and SQLite does not |
| `Base62.EncodeBase62` | src/shortener/ids.py:62-71 | the loop computes the positional digits, and a negative number raises |
| `Base62.DecodeBase62` | src/shortener/ids.py:74-81 | the loop computes the positional value, and the first character outside the alphabet raises |
| `Base62.DecodeEncode` | src/shortener/ids.py:62-81 | decoding an encoded natural gives it back |
| `Base62.EncodeDecodeIffCanonical` | src/shortener/ids.py:62-81 | encoding a decoded string gives it back exactly if it has no superfluous leading zero |
| `Base62.LengthIff` | src/shortener/ids.py:62-71 | a positive number has k digits exactly between the powers of 62 |
| `Base62.OrderPreserved` | src/shortener/ids.py:52-53 | among strings of one length string order is numeric order |
| `Snowflake.SnowflakeGenerator.NextId` | src/shortener/ids.py:99-130 | raises exactly when the first reading is over five seconds behind, and otherwise issues at the first reading that can give an unused pair; both waits end if there is such a reading, so also on a clock that stands still while numbers are left |
| `Snowflake.AdvancingClockReturns` | src/shortener/ids.py:103-127 | with readings that eventually exceed any time, every call returns |
| `Snowflake.SnowflakeGenerator.SpinPast` | src/shortener/ids.py:114-122 | a waiting loop stops at the first reading past the bound |
| `Snowflake.SnowflakeGenerator.NextCode` | src/shortener/ids.py:132-133 | the code of the issued id, or the reason why there is none |
| `RandomCodes.RandomCodeGenerator.NextCode` | src/shortener/ids.py:186-187 | the code that the next `length` picks spell |
| `RandomCodes.SpelledInKeyspace` | src/shortener/ids.py:186-190 | a random code has its length and decodes to a number below 62 to that power |
| `Snowflake.DecodeRecoversParts` | src/shortener/ids.py:136-141 | `decode_id` recovers time, instance and sequence, before the epoch as well |
| `Snowflake.IssueIncreases` | src/shortener/ids.py:117-130 | the next id of a generator is larger and its sequence fits twelve bits |
| `Snowflake.IssueTells` | src/shortener/ids.py:112-130 | an id decodes to the reading it was issued at, the instance, and the next sequence number of that millisecond, counted from 0 |
| `Snowflake.IdsPerMillisecond` | src/shortener/ids.py:112-122 | at one reading a generator issues exactly 4096 ids without waiting |
| `Snowflake.CallIssues` | src/shortener/ids.py:99-130 | a call that can issue does, at its reading, and moves no other generator |
| `Snowflake.IdsAreUnique` | src/shortener/ids.py:99-130 | ids of a fleet with distinct instances never repeat, and those of one generator increase, for arbitrary clocks and calls that raise |
| `Snowflake.ElevenCharactersFrom2031` | src/shortener/ids.py:43-44 | codes have at most ten characters before one millisecond of May 2031 and at least eleven after it |
| `CodeAllocation.NextCodeIsFree` | src/shortener/ids.py:214-216 | a generator that is ahead of the store issues a code that is not stored |
| `CodeAllocation.CodeAllocator.Allocate` | src/shortener/ids.py:212-225 | with either generator, takes the codes that it yields one after the other, uses the one that `FindsFirstFree` describes for exactly one new row with the given target and expiry, and otherwise leaves the store alone |
| `CodeAllocation.FindsFirstFree` | src/shortener/ids.py:213-225 | the first free code among at most `max_attempts` is used, unless the generator raises before it; the attempts are exhausted exactly if all of these codes are taken |
| `CodeAllocation.AheadNeverCollides` | src/shortener/ids.py:212-225 | a snowflake generator that no row is ahead of succeeds with its first code or raises, and stays ahead |
| `CodeAllocation.RandomAllocates` | src/shortener/ids.py:186-187 | with random codes every attempt returns |
| `CodeAllocation.AdvancingClockAllocates` | src/shortener/ids.py:212-225 | with readings that eventually exceed any time, every attempt of an allocation returns |
| `CodeAllocation.FrozenClockAllocates` | src/shortener/ids.py:117-127 | on a clock that stands still too, for a generator that is ahead of the store and has numbers left |
| `CodeAllocation.FleetNeverCollides` | src/shortener/ids.py:193-225 | snowflake allocators with distinct instances on a store that only they fill never collide, whatever order their threads issue, insert and die in, and never touch an earlier link |
| `CodeAllocation.HappenTells` | src/shortener/ids.py:212-225 | every issued code can be inserted, under that code and with the target and expiry of its link, and no other row changes |
| `CircuitBreakers.CircuitBreaker.Allow` | src/shortener/breaker.py:59-73 | admits while closed, and once when the cooldown has passed since the circuit opened, which half-opens it and counts a probe; otherwise counts a caller turned away |
| `CircuitBreakers.CircuitBreaker.RecordSuccess` | src/shortener/breaker.py:75-79 | a success closes the circuit, clears the run of failures and forgets when it opened |
| `CircuitBreakers.CircuitBreaker.RecordFailure` | src/shortener/breaker.py:81-93 | a failure counts, opens a half-open circuit or one with enough failures as of now, and counts a trip exactly when that circuit was closed |
| `CircuitBreakers.CountersAreTrue` | src/shortener/breaker.py:59-93 | over every sequence of events `trips` is the number of times the circuit went from closed to open, and `short_circuited` the number of callers turned away |
| `CircuitBreakers.CrowdTells` | src/shortener/breaker.py:59-93 | a caller is outstanding from its admission to its own report, and in flight as a probe if the circuit was not closed when it was admitted |
| `CircuitBreakers.NotClosedIffEnoughFailures` | src/shortener/breaker.py:75-93 | the circuit is away from closed exactly while the failures since the last success reach the threshold |
| `CircuitBreakers.AdmittedIff` | src/shortener/breaker.py:59-93 | a caller is admitted exactly if the run of failures is short, or it is the first to ask a cooldown after the last failure |
| `CircuitBreakers.OneCallerPerHalfOpen` | src/shortener/breaker.py:64-73 | until somebody reports, a circuit that is not closed admits one caller at most |
| `CircuitBreakers.ProbesPerWindow` | src/shortener/breaker.py:64-68 | probes are a cooldown apart, so a span of time sees at most one plus the whole cooldowns in it |
| `CircuitBreakers.SingleProbeIff` | src/shortener/breaker.py:59-93 | over all schedules of honest callers whose probes report within `d`, at most one probe is in flight, exactly if `d` is shorter than the cooldown |
| `CircuitBreakers.TwoProbesInFlight` | src/shortener/breaker.py:81-88 | for every threshold and cooldown, a run in which a late report puts two probes in flight although each reports within a cooldown |
| `CircuitBreakers.DeadStoreUnderLoad` | src/shortener/breaker.py:59-93 | callers that overlap, `n` at most at a time, call a dead store fewer than `threshold + n` times, plus once per cooldown since the trip |
| `CircuitBreakers.BreakerGuardedLimiter.Check` | src/shortener/breaker.py:130-147 | an admitted caller gets the store's reply as it is, which closes the circuit, or the configured answer if the store fails; others get the configured answer at once; the counters tell them apart |
| `CircuitBreakers.HealthyStoreDecides` | src/shortener/breaker.py:133-147 | over every run in which the store always replies, the callers get its replies one by one, each check calls it once, and nothing is counted as failed |
| `CircuitBreakers.RepliesReachCallers` | src/shortener/breaker.py:133-147 | after every run, a caller whose check calls the store gets its reply, and everybody else the configured answer |
| `CircuitBreakers.FailOpenIsAccounted` | src/shortener/breaker.py:133-147 | fail-open answers are the short-circuited checks plus the errors, and a failing store always means the configured answer |
| `CircuitBreakers.DeadStoreBound` | src/shortener/breaker.py:130-147 | a dead store is called `threshold` times and then at most once per cooldown |
| `HitCounting.HitCounter.Record` | src/shortener/counters.py:42-51 | counts one hit and flushes exactly when the size or the time trigger fires |
| `HitCounting.HitCounter.Flush` | src/shortener/counters.py:53-71 | writes all pending counts or puts them back |
| `HitCounting.HitsAreConserved` | src/shortener/counters.py:42-71 | in every interleaving stored, pending and in-flight hits together are the initial ones plus one per record |
| `HitCounting.OwnAccount` | src/shortener/counters.py:42-71 | what one counter holds or has swapped out changes only by its own records and by the writes of its own batches |
| `HitCounting.ActionIsLocal` | src/shortener/counters.py:42-71 | only a write changes the store, by exactly its batch, and a failed batch goes back to the counter that it came from |
| `HitCounting.FlushedStoreHasEveryHit` | src/shortener/counters.py:53-71 | with nothing pending or in flight the store has every hit |

## Left out

- HTTP wiring, request validation, HTML, headers, metrics and `reset_metrics`: input and output around the parts above.
- SQL, WAL, fsync, connection pools and Redis client calls: a transaction, script or row fetch is one atomic step, and commits are in sequence order.
- Floating point: token counts, times of the breaker and retry-after are real numbers; NaN is an absent value.
- The collision odds of random codes, `measure_propagation`: statements about probabilities; the picks of the random source are arbitrary.
- `ReputationPolicy`, host matching and interstitial pages: case tables over URL parsing.
- `RedisPubSubBus`, `FailOpenLimiter`, the load generators and fault drills: best-effort push, a superseded wrapper, and network code.
- Restarts: a new generator starts from scratch, so uniqueness is per generator object; pending hits are lost on a crash.
- Unlocked statistics (`collapsed`, `polls`, `applied`): lost updates are possible in the program and are not modelled under interleaving.
- `call` of the breaker: its three steps are events of the interleaved model.
- App.Instance.Resolve: rate limiting before it and the interstitial page after it are not part of the method; an interstitial counts as a redirect.
- ReadPath.Linearizable: is about requests that hit the cache or loaded by themselves; waiters are in `Waiters`.
- Waiters.WaiterIsRight: is sufficient for one run; a row that changes and changes back, or whose old and new targets agree, can make an answer right by luck. `Waiters.WaiterIsRightIff` is exact over all continuations.
- InvalidationSchedules.NeverSkips: is about cache entries; another instance may load a withdrawn code again from its row, because withdrawal marks are per process.
- CircuitBreakers.DeadStoreBound: is about checks that each run to completion; overlapping callers are in `CircuitBreakers.DeadStoreUnderLoad`.
- CircuitBreakers.SingleProbeIff: needs a clock that does not step back, as `time.monotonic` is.
- TokenBuckets.DenialInvisibleIff: is about buckets within their range, which costs that are not negative never leave (`TokenBuckets.RunInRange`).
- TokenBuckets.HardQuotaAgreesIff: costs are not negative; with negative costs `TokenBuckets.StoresAgreeIff` applies.
