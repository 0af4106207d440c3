# Spark Connect gateway: a verified model

The gateway forwards Spark Connect calls to backends. Four parts of it keep state that concurrent
requests, or several gateway replicas, share. This project models those four parts in Dafny and
proves properties that hold in every run, every interleaving and for every input.

* **Session affinity.** `Affinity.dfy` is a transition system: any number of replicas run any number
  of router calls against one Redis, and each Redis command (GET, EXPIRE, SET NX EX, SET, DEL) is one
  atomic step. Commands can be lost or run after their caller has given up on them, replies can be
  lost, callers can go away half-way, entries expire, pools change at any time. `AffinityFaults.dfy`
  holds what is true whatever fails, `AffinityUnstored.dfy` exactly when an answer is stored nowhere,
  `AffinityAgreement.dfy` agreement across replicas, how long it lasts and who reports a binding as
  new, `AffinityIsolation.dfy` tenant isolation of sessions, `AffinityProgress.dfy` which commands
  every call has sent and why a resolve lacks a backend, `AffinityOperations.dfy` the operation index, `AffinityRuns.dfy` complete runs that refute documented promises. `Keys.dfy`, `Redis.dfy` and
  `Routing.dfy` are its vocabulary. `Stores.dfy` has the two stores as objects and the refinement
  between them, `Router.dfy` the router as an object and its agreement with the protocol.
* **Rate limiting.** `TokenBucket.dfy` is the in-process bucket and its exact admission law.
  `BucketLives.dfy` is a bucket that expires on the server's clock while callers send readings of
  their own, `LuaBucket.dfy` the Redis script for it, `ClockSkew.dfy` the price of replicas whose
  clocks differ. `Limiter.dfy` is the two-level check over interleaved bucket accesses, with expiry,
  lost and late commands; `LimiterExpiry.dfy` says when expiry costs nothing, `LimiterIsolation.dfy`
  when tenants are independent, `LimiterLaws.dfy` states verdicts and quotas from the configuration; `LimiterObjects.dfy` has both limiters as objects.
* **Health checking.** `Health.dfy` shows that the state and streak kept per backend say exactly what
  the backend's history says; `HealthPool.dfy` lifts that to the whole pool; `RoundRobin.dfy` is the
  64-bit cursor and its fairness.
* **Verification keys.** `KeyCache.dfy` is the key cache with its refresh lock and refresh floor,
  `KeyCacheAnswers.dfy` says exactly when a caller gets no key.

`Retry.dfy` is the bounded retry loop of the startup, `Wrappers.dfy` and `Arithmetic.dfy` are shared
helpers. `dafny verify dfyconfig.toml` checks everything.

## Where the code does less than its comments say

The model follows the code. Each of these is a proved statement, with the exact condition.

* `newly_bound` is said to fire once per session (`crates/routing/src/lib.rs:198-203`). It is
  `winner == chosen` (line 290), so two racers with the same pick both report: `TwoRacersBothReport`
  is such a run. The inserting call is the only reporter if and only if no other answered call picked
  the winning backend (`FreshBindingReport`).
* A SET NX miss followed by an empty GET answers with a pick that is stored nowhere
  (`crates/store-redis/src/lib.rs:147-154`), although the loser of a race is said to return the
  winner's value (lines 21-24). `UnstoredAnswerSplitsSession` is a fault-free run in which this sends
  one session to two backends. A bind whose last command is answered leaves its answer unstored if
  and only if the entry was lost after the SET NX miss and not inserted again before the GET; one
  whose last command fails, if and only if the key then holds something else or nothing
  (`UnstoredAnswerIff`).
* Strict isolation is said to keep unmapped tenants from every backend (`docs/multitenancy.md:33`).
  The operation index is consulted before the tenant (`crates/routing/src/lib.rs:307-312`) and its keys
  carry no tenant, so `DeniedTenantReachesBackend`. A tenant's answers all stay in its own pool if and
  only if the operations the index resolved for it were remembered with backends of that pool
  (`TenantConfinedIffOperationsAre`).
* The Lua script stores the caller's timestamp even when it is behind the stored one
  (`crates/ratelimit/src/redis.rs:93-102`). The quota with an allowance of `span` seconds holds, for
  all rates, bursts and repetitions, if and only if `span` covers the sum of the forward jumps within
  the lives of the bucket (`QuotaHoldsIffSpanCoversForward`).
* Every visit gives the bucket a new lifetime on the server's clock, and an expired bucket comes back
  full (`crates/ratelimit/src/redis.rs:103`). Each expiry can cost one more burst (`TenantQuota`,
  `UserQuota`). With clocks within `delta` of the server's, the quota proper holds if and only if rate
  times the lifetime, less twice `delta`, covers the burst (`TenantQuotaProperIffTtlCoversBurst`,
  `UserQuotaProperIffTtlCoversBurst`), and with unrelated clocks for no lifetime at all
  (`TenantQuotaProperNeedsBoundedSkew`).
* The refresh floor is said to keep bogus tokens from hammering the identity provider
  (`crates/auth/src/oidc.rs:48-51`). A failed or dropped fetch does not advance `last_refreshed`, so
  the floor spaces successes and not attempts: `UnfinishedFetchIsRetriedAtOnce` are such runs,
  `FetchStartsIffFloorSinceSuccess` says exactly when a fetch starts, and
  `FetchesAreFloorApartAfterSuccess` when two are spaced.
* The health-checked pool is said to evict after consecutive failures
  (`crates/healthcheck/src/lib.rs:15-16`). Hints count too: one failed probe evicts after enough
  reports (`ReportsCountTowardsEviction`, with the exact number), and hints never change a state if
  and only if the quota is one (`HintsNeverMatterIffQuotaIsOne`). The entry point for hints,
  `Router::mark_unhealthy` (`crates/routing/src/lib.rs:317-321`), has no caller in the repository.
* Tenant and user names that contain `|` make keys collide; `SessionKeyRoundTrip`,
  `StoresAgreeIffKeyClean`, `UserBucketKeyRoundTrip` and `IndependentIffNameClean` give the exact
  conditions.
* Round-robin fairness holds until the 64-bit cursor wraps, and beyond if and only if the number of
  backends divides 2^64 (`FairForeverIffLengthDividesWrap`).

Two comments describe other code than there is: the documented Redis schema omits the tenant
(`crates/store-redis/src/lib.rs:14`), which the key has; and the health-checked pool is said to retry a
pick that draws an unhealthy backend (`crates/healthcheck/src/lib.rs:20-22`), where it picks from the
filtered list.

## Model

| member | source | states |
|---|---|---|
| `Keys.SessionKeyRoundTrip` | crates/store-redis/src/lib.rs:98-104 | reading a session key's string back gives the key if and only if tenant and user contain no separator (the session id is arbitrary); every other key shares its string with a clean one |
| `Keys.SessionKeyInjective` | crates/store-redis/src/lib.rs:98-104 | separator-free keys with the same string are the same key |
| `Keys.SessionAndOpKeysDiffer` | crates/store-redis/src/lib.rs:98-108 | no session and no operation ever share a Redis key |
| `Keys.OpKeyInjective` | crates/store-redis/src/lib.rs:106-108 | two operations share a Redis key if and only if they are the same operation |
| `Keys.UserBucketKeyRoundTrip` | crates/ratelimit/src/redis.rs:220-222 | a user-bucket key reads back if and only if the tenant has no separator; otherwise it is also a bucket of another tenant |
| `Keys.BucketKeysDiffer` | crates/ratelimit/src/redis.rs:216-222 | tenant buckets never collide with each other or with user buckets |
| `Affinity.StepValid` | crates/store-redis/src/lib.rs:113-217 | every step of every call, fault or late command or not, keeps the protocol invariant: calls sit only where their request leads, only commands that some call sent are under way, no expired entry is visible |
| `Affinity.RunValid` | crates/routing/src/lib.rs:256-339 | the protocol invariant holds in every state of every run |
| `Affinity.SessionEntryEffect` | crates/store-redis/src/lib.rs:113-177 | a session entry appears exactly when an executed SET NX, late ones included, meets an absent key, then holds the value it carries, and never changes value while present |
| `AffinityFaults.AnswersAreExplained` | crates/store-redis/src/lib.rs:113-169 | in every run, whatever fails or arrives late: a session answer was stored under the key at some instant of the call, or it is the call's own pick after a failed SET NX, a failed second GET, or the loss of the entry between the two |
| `AffinityUnstored.UnstoredAnswerIff` | crates/store-redis/src/lib.rs:132-169 | in every run, a bind whose last command is answered leaves its answer unstored if and only if that is the second GET and the entry was lost after the SET NX miss and not inserted again; one whose last command fails, if and only if the key at that instant holds something else than the pick, or nothing |
| `AffinityUnstored.EmptyRereadIffLost` | crates/store-redis/src/lib.rs:147-154 | in every run the GET after a SET NX miss finds nothing if and only if the entry went away since the miss and nobody inserted it again |
| `AffinityRuns.UnstoredAnswerSplitsSession` | crates/store-redis/src/lib.rs:147-154 | there is a fault-free run in which a resolve answers with a backend the store does not hold and a later resolve of the session is bound to another one |
| `AffinityFaults.StoredValueNeverChanges` | crates/store-redis/src/lib.rs:132-177 | in every run, whatever fails: a stored session keeps its backend as long as the entry exists |
| `AffinityAgreement.AgreementStep` | crates/routing/src/lib.rs:256-292 | every step that neither loses the entry nor fails a bind keeps all answers for the key equal to what the store holds |
| `AffinityAgreement.CrossReplicaAgreement` | crates/routing/src/lib.rs:256-292 | in every interleaving of any number of replicas and calls, with the key undisturbed, all session answers for it are the one backend the store holds |
| `AffinityAgreement.BindingSurvivesIffRefreshedInTime` | crates/store-redis/src/lib.rs:113-146 | a binding nobody forgets survives the run if and only if every state is reached less than one TTL after the last executed SET or EXPIRE of the key |
| `AffinityAgreement.TimedStickiness` | crates/store-redis/src/lib.rs:113-169 | a key refreshed in time, never forgotten and whose binds do not fail resolves to one backend for the whole run, however pools change and however many lookups fail |
| `AffinityProgress.CallsSendWhatTheyAreFor` | crates/store-redis/src/lib.rs:113-217 | in every run, whatever fails: an answer found in the store was preceded by an EXPIRE of its key with the session TTL, an answer of the index by one of the operation with its TTL, and a call that remembers or forgets has sent its SET or DEL |
| `AffinityProgress.HitRenews` | crates/store-redis/src/lib.rs:113-130 | a fault-free hit leaves the entry it finds with a deadline one TTL after that instant |
| `AffinityProgress.HitsKeepSessionAlive` | crates/store-redis/src/lib.rs:113-146 | in every run, a session that is hit without a fault at gaps shorter than the TTL and never forgotten is never lost and keeps its backend |
| `AffinityProgress.LoserRenewsNothing` | crates/store-redis/src/lib.rs:147-154 | a resolve that lost the race leaves the store, deadlines included, as it was |
| `AffinityProgress.NoBackendMeansEmptyPool` | crates/routing/src/lib.rs:256-292 | in every run, whatever fails, a resolve ends without a backend only if the pool configured for its tenant was empty when the call asked it, or neither the tenant nor the default has a pool |
| `AffinityAgreement.NewlyBoundMeansOwnPick` | crates/routing/src/lib.rs:278-291 | in every run, whatever fails, an answer is reported as new if and only if it is the call's own pick |
| `AffinityAgreement.ReportersPickedTheWinner` | crates/routing/src/lib.rs:278-291 | without disturbance the calls that report the binding are exactly the answered calls whose pick won |
| `AffinityAgreement.FreshBindingReport` | crates/routing/src/lib.rs:198-292 | an undisturbed key is inserted exactly once; the inserter, unless it went away, reports it, and is the only reporter if and only if no other answered call picked the winner |
| `AffinityRuns.TwoRacersBothReport` | crates/routing/src/lib.rs:198-203 | there is a fault-free run in which two racing resolves of one session both report it as new |
| `AffinityIsolation.PoolConfinement` | crates/routing/src/lib.rs:184-292 | over separator-free keys, every stored session and every session answer of every run names a backend of the pool configured for the tenant, or of the default pool for a tenant without one under the default policy; keys without a session id are never stored |
| `AffinityIsolation.DeniedIffUnknownAndRejected` | crates/routing/src/lib.rs:184-195 | in every run a resolve that session routing answers is denied if and only if its tenant has no pool configured and the policy rejects such tenants |
| `AffinityIsolation.BoundIffSessionId` | crates/routing/src/lib.rs:66-68 | in every run an answer is bound if and only if its key has a session id, and an unbound pick otherwise |
| `AffinityIsolation.UnservedTenantNeverTouchesSessions` | crates/routing/src/lib.rs:184-195 | a resolve for a tenant without a pool never waits on any session entry, and ends denied under the reject policy and without a backend otherwise, unless the operation index answers |
| `AffinityOperations.OpEntryEffect` | crates/store-redis/src/lib.rs:179-217 | the index entry of an operation appears and changes only through an executed SET of that operation, and goes only by loss |
| `AffinityOperations.RememberedOpAnswers` | crates/routing/src/lib.rs:302-335 | from the step that executes a remember of an operation until it is next bound, forgotten, expired or its lookup fails, every later resolve of it answers with the remembered backend, whatever the session key, sessions, pools and policy |
| `AffinityOperations.UnknownOpRoutesBySession` | crates/routing/src/lib.rs:302-313 | the lookup of an operation leaves the store alone and falls through if and only if it fails or finds nothing; the call then stands where a fresh session resolve of the key stands, and the rest of the run is step for step a run of that resolve |
| `AffinityOperations.IndexAnswersAreRemembered` | crates/routing/src/lib.rs:302-328 | every answer of the index is the backend the operation had last been remembered with when the call looked it up |
| `AffinityOperations.TenantConfinedIffOperationsAre` | crates/routing/src/lib.rs:302-313 | in every run over separator-free keys, all answers a tenant gets name backends of its own pool if and only if every operation the index resolved for it had been remembered with such a backend |
| `AffinityRuns.DeniedTenantReachesBackend` | crates/routing/src/lib.rs:302-313 | for every denied tenant, operation and backend there is a fault-free run in which the tenant is answered with that backend |
| `Stores.MemoryStore.constructor` | crates/store-memory/src/lib.rs:23-48 | both tables start empty |
| `Stores.MemoryStore.Lookup` | crates/store-memory/src/lib.rs:24-26 | answers as the table specification and changes nothing |
| `Stores.MemoryStore.BindIfAbsent` | crates/store-memory/src/lib.rs:28-31 | returns the binding that exists afterwards; an existing one is never replaced and nothing else changes |
| `Stores.MemoryStore.Forget` | crates/store-memory/src/lib.rs:33-35 | exactly this session's binding is gone |
| `Stores.MemoryStore.FindOp` | crates/store-memory/src/lib.rs:37-39 | answers as the table specification and changes nothing |
| `Stores.MemoryStore.Remember` | crates/store-memory/src/lib.rs:41-43 | exactly this operation is overwritten |
| `Stores.MemoryStore.ForgetOperation` | crates/store-memory/src/lib.rs:45-47 | exactly this operation is gone |
| `Stores.RedisStore.Lookup` | crates/store-redis/src/lib.rs:113-130 | misses if and only if the GET fails or the key is absent; a hit is what was stored, and leaves it with a full session TTL once the EXPIRE has run; without faults it is the atomic specification |
| `Stores.RedisStore.BindIfAbsent` | crates/store-redis/src/lib.rs:132-169 | under any fault the answer is the caller's backend or what was stored, an existing binding is untouched, a new one gets a full session TTL and no other key changes; without faults the answer is what is stored |
| `Stores.RedisStore.Forget` | crates/store-redis/src/lib.rs:171-177 | the entry remains if and only if it was there and the command was lost; no other key changes |
| `Stores.RedisStore.FindOp` | crates/store-redis/src/lib.rs:179-193 | misses if and only if the GET fails or the key is absent; a hit is what was stored, and leaves it with a full operation TTL once the EXPIRE has run |
| `Stores.RedisStore.Remember` | crates/store-redis/src/lib.rs:195-209 | once executed the operation holds the backend for a full operation TTL even if the reply is lost; a lost command changes nothing |
| `Stores.RedisStore.ForgetOperation` | crates/store-redis/src/lib.rs:211-217 | the entry remains if and only if it was there and the command was lost |
| `Stores.RedisStoreRefinesMemoryStore` | crates/store-redis/src/lib.rs:98-217 | with separator-free keys, no fault and no expiry, every sequence of whole calls to the Redis store is answered as by the in-process store, and the contents stay in correspondence |
| `Stores.StoresAgreeIffKeyClean` | crates/store-redis/src/lib.rs:98-104 | the two stores agree on all call sequences over clean keys and `k` if and only if `k` is clean |
| `Router.SessionRouter.ResolveSessionDetailed` | crates/routing/src/lib.rs:256-292 | the result and the new store are those of the sequential specification; the pool is asked if and only if the tenant is served and the key is unbound or has no session id |
| `Router.SessionRouter.ResolveOperation` | crates/routing/src/lib.rs:302-313 | a known operation answers from the index and changes nothing; any other gives the result and effect of session routing |
| `Router.SessionRouter.RememberOperation` | crates/routing/src/lib.rs:323-328 | an empty id is never indexed, any other is overwritten, sessions are untouched |
| `Router.SessionRouter.ForgetOperation` | crates/routing/src/lib.rs:330-335 | exactly this operation is gone, nothing for an empty id |
| `Router.SessionRouter.ForgetSession` | crates/routing/src/lib.rs:337-339 | exactly this session's binding is gone |
| `Router.UninterruptedCallIsSequential` | crates/routing/src/lib.rs:256-339 | a protocol call over Redis that nothing interrupts, for each of the five requests, runs to its end, and answers and leaves the store as the router over the in-process store |
| `TokenBucket.Bucket.constructor` | crates/ratelimit/src/lib.rs:143-151 | a new bucket is full and has seen no request |
| `TokenBucket.Bucket.TryTake` | crates/ratelimit/src/lib.rs:153-165 | for any order of timestamps, the fields are the balance of the request history and the decision is the one the history determines |
| `TokenBucket.ExactAdmission` | crates/ratelimit/src/lib.rs:153-165 | with timestamps that never go back, a request is admitted if and only if every window ending in it, it included, stays within burst plus rate times the window length |
| `TokenBucket.LevelIsLeastSlack` | crates/ratelimit/src/lib.rs:153-165 | the tokens a request finds are the least slack over all windows that end in it, and some window attains it |
| `TokenBucket.WindowBound` | crates/ratelimit/src/lib.rs:153-165 | every window admits at most burst plus rate times its length |
| `TokenBucket.GreedyOptimal` | crates/ratelimit/src/lib.rs:153-165 | in every prefix of any arrivals the bucket has admitted at least as many requests as any policy that respects the same quota |
| `TokenBucket.BucketConforms` | crates/ratelimit/src/lib.rs:153-165 | the bucket's own decisions respect the quota, so the optimum is attained |
| `TokenBucket.BalanceBounded` | crates/ratelimit/src/lib.rs:153-165 | for timestamps in any order the balance stays between zero and the burst |
| `TokenBucket.ForwardBound` | crates/ratelimit/src/lib.rs:153-165 | in process, for timestamps in any order, every window admits at most burst plus rate times the forward movement of the clock in it |
| `LuaBucket.TokenBucketScript` | crates/ratelimit/src/redis.rs:75-105 | for any stored hash, any timestamp and any instant of the server's clock, the new hash, its deadline and the decision are those of one visit to a bucket that expires |
| `BucketLives.TakeSlotExtends` | crates/ratelimit/src/redis.rs:75-105 | serving one more visit continues the history of the bucket over all its lives, whatever the callers' and the server's clocks say |
| `BucketLives.ExpiringBounded` | crates/ratelimit/src/redis.rs:86-103 | for any clocks and any expiries the balance stays between zero and the burst |
| `BucketLives.ExpiringForwardBound` | crates/ratelimit/src/redis.rs:75-105 | for any clocks, every window of visits admits at most one burst, one more for each life of the bucket that begins in it, and rate times the forward movement of the callers' clocks within the lives |
| `BucketLives.ExpiringExactAdmission` | crates/ratelimit/src/redis.rs:75-105 | for any clocks and any expiries, a visit is admitted if and only if every window of the bucket's current life that ends in it, it included, stays within burst plus rate times the forward movement of the callers' clocks |
| `BucketLives.ExpiringLevelIsLeastSlack` | crates/ratelimit/src/redis.rs:75-105 | for any clocks and any expiries, the tokens a visit finds are the least slack over all windows of the current life, and some window attains it |
| `BucketLives.LongLivedBucketsAgree` | crates/ratelimit/src/redis.rs:75-105 | a bucket whose every new life begins after a full refill has the same balance and decisions as one that never expires |
| `BucketLives.ExpiryUnobservableIffTtlCoversBurst` | crates/ratelimit/src/redis.rs:228-243 | with callers' clocks within `delta` of the server's, expiry changes no decision on any sequence of visits if and only if rate times (TTL - 2 `delta`) is at least the burst |
| `ClockSkew.StutterSpendsEverything` | crates/ratelimit/src/redis.rs:75-105 | the bound is reached: enough repeated requests spend all of it but less than one token for each life |
| `ClockSkew.QuotaHoldsIffSpanCoversForward` | crates/ratelimit/src/redis.rs:75-105 | for any order of clock readings and any expiries, the quota of one burst for each life and rate times `span` holds for all rates, bursts and repetitions if and only if `span` covers the forward movement within the lives |
| `ClockSkew.AlternatingReplicasExceedQuota` | crates/ratelimit/src/redis.rs:93-102 | two replicas one second apart that alternate exceed the quota of the second they span |
| `Limiter.AccessesMakeOneCheck` | crates/ratelimit/src/redis.rs:248-305 | two bucket accesses of a check with time passing in between amount to one uninterrupted check, under any faults |
| `Limiter.TenantBucketSeesTenantVisits` | crates/ratelimit/src/redis.rs:228-305 | in every interleaving the tenant's bucket, deadline included, is what exactly the tenant's executed accesses, in order and on both clocks, leave behind |
| `Limiter.UserBucketSeesUserVisits` | crates/ratelimit/src/redis.rs:228-305 | the same for every user's bucket |
| `Limiter.TenantConservation` | crates/ratelimit/src/redis.rs:248-305 | in every interleaving without failed accesses, however often buckets expire, tokens taken from the tenant bucket are admissions plus user-scope refusals plus checks still between the buckets |
| `Limiter.TenantQuota` | crates/ratelimit/src/redis.rs:228-326 | over any window of any interleaving, whatever fails or arrives late and however clocks disagree, the checks that get past the tenant bucket stay within one burst, one more for each expiry of the bucket in the window, and rate times the clock movement; only fail-open mode adds failed accesses |
| `Limiter.AdmittedHavePassed` | crates/ratelimit/src/redis.rs:248-305 | admissions and checks in flight never exceed the checks that got past the tenant bucket |
| `Limiter.UserQuota` | crates/ratelimit/src/redis.rs:228-326 | the same bound for the admissions of each user |
| `LimiterExpiry.TenantQuotaProperIffTtlCoversBurst` | crates/ratelimit/src/redis.rs:228-305 | with clocks within `delta` of the server's, the quota of one burst plus rate times clock movement holds for the tenant in every run and window if and only if rate times (lifetime - 2 `delta`) covers the burst |
| `LimiterExpiry.UserQuotaProperIffTtlCoversBurst` | crates/ratelimit/src/redis.rs:228-305 | the same if and only if for each user, whatever the tenant's bucket and the fail mode |
| `LimiterExpiry.UserRunExceeds` | crates/ratelimit/src/redis.rs:228-305 | where the lifetime is too short there is a fault-free run, with the tenant's bucket on the server's clock, that breaks the user's quota |
| `LimiterExpiry.TenantQuotaProperNeedsBoundedSkew` | crates/ratelimit/src/redis.rs:228-243 | when callers and server read unrelated clocks, some fault-free run breaks the quota proper whatever the rate, burst and lifetime |
| `LimiterLaws.FirstVerdict` | crates/ratelimit/src/redis.rs:248-326 | in every interleaving the verdict of a first access follows from the tenant's override, or the fallback without one: unavailable for a failed access in fail-closed mode, refused exactly when the visit fits not every window of the bucket's life, else on to the user bucket or admitted |
| `LimiterLaws.SecondVerdict` | crates/ratelimit/src/redis.rs:248-326 | the same for the second access and the user bucket |
| `LimiterLaws.QuotasFollowConfiguration` | crates/ratelimit/src/redis.rs:248-326 | both quotas hold with the rate and burst of the tenant's override, or of the fallback for a tenant without one |
| `LimiterLaws.ProperQuotasFollowConfiguration` | crates/ratelimit/src/redis.rs:228-305 | both lifetime conditions are exact for those rates and bursts |
| `LimiterLaws.OthersLimitsDoNotMatter` | crates/ratelimit/src/lib.rs:293-299 | changing the fallback, or another tenant's override, changes no verdict of a tenant with an override of its own |
| `LimiterIsolation.TenantsAreIndependent` | crates/ratelimit/src/lib.rs:293-344 | in every interleaving, with or without expiry, deleting all accesses of other tenants changes none of a tenant's verdicts or buckets |
| `LimiterIsolation.RedisKeysRefineScopes` | crates/ratelimit/src/redis.rs:216-305 | with separator-free tenant names, the limiter over Redis keys gives the same verdicts as the limiter over scopes, event by event, in every interleaving and under the same faults and expiries |
| `LimiterIsolation.RedisTenantsAreIndependent` | crates/ratelimit/src/redis.rs:216-305 | with separator-free tenant names, independence of tenants holds over Redis keys, expiry included |
| `LimiterIsolation.IndependentIffNameClean` | crates/ratelimit/src/redis.rs:216-222 | over Redis keys a name leaves all tenants independent, in every setup and run with otherwise clean names, if and only if it contains no separator |
| `LimiterObjects.MemoryLimiter.CheckRequest` | crates/ratelimit/src/lib.rs:293-344 | the verdict and the buckets held by the nested maps are those of one check over scopes |
| `LimiterObjects.MemoryLimiter.TakeTenant` | crates/ratelimit/src/lib.rs:293-344 | creating the entry on first use and serving its bucket is the tenant stage of the check |
| `LimiterObjects.MemoryLimiter.TakeUser` | crates/ratelimit/src/lib.rs:293-344 | creating the user's bucket on first use and serving it is the user stage of the check |
| `LimiterObjects.RedisLimiter.TakeOne` | crates/ratelimit/src/redis.rs:228-243 | running the script on the stored hash, expired or not, is one bucket access that renews the lifetime, and a lost reply still spends the token |
| `LimiterObjects.RedisLimiter.HandleRedisError` | crates/ratelimit/src/redis.rs:310-326 | a failed access refuses the request if and only if the mode is fail-closed |
| `LimiterObjects.RedisLimiter.CheckRequest` | crates/ratelimit/src/redis.rs:248-305 | the verdict and the stored hashes with their lifetimes are those of one check over Redis keys, under any faults and clocks |
| `RoundRobin.StaticPool.Create` | crates/pool-static/src/lib.rs:20-33 | an empty address list, and only that, is refused |
| `RoundRobin.StaticPool.Pick` | crates/pool-static/src/lib.rs:37-44 | the pick is the position the 64-bit cursor names, the cursor advances by one and wraps |
| `RoundRobin.PickRepeatedly` | crates/pool-static/src/lib.rs:37-44 | any number of picks in a row from a pool of distinct backends gives each backend its floor or ceiling share, as long as the cursor does not wrap or the number of backends divides 2^64 |
| `RoundRobin.FairUntilWrap` | crates/pool-static/src/lib.rs:37-44 | of any `m` consecutive picks from `n` backends before the cursor wraps, each position gets floor(m/n) or ceil(m/n) |
| `RoundRobin.FairForeverIffLengthDividesWrap` | crates/pool-static/src/lib.rs:37-44 | fairness holds for every cursor and every number of picks, wrapping included, if and only if `n` divides 2^64 |
| `Health.StateEqualsHistory` | crates/healthcheck/src/lib.rs:209-308 | over all sequences of probes and hints, the backend is unhealthy if and only if some failed probe completed the quota of complaints and no run of successes has made up for it since |
| `Health.TransitionsEqualHistory` | crates/healthcheck/src/lib.rs:283-308 | eviction happens exactly at a failed probe where failures plus hints since the last success reach the threshold; re-admission exactly at the success that completes the run since any unrecovered trouble; 32-bit saturation never matters |
| `Health.HintsNeverMatterIffQuotaIsOne` | crates/healthcheck/src/lib.rs:209-222 | deleting the hints from a history never changes the state if and only if the eviction quota is one |
| `Health.FlapBound` | crates/healthcheck/src/lib.rs:283-308 | `n` probes allow at most n/(1+healthy threshold) evict-and-readmit cycles, and n/(both thresholds) without hints |
| `HealthPool.HealthAwarePool.ProbeAll` | crates/healthcheck/src/lib.rs:138-175 | one round forgets unlisted backends and applies the results in order |
| `HealthPool.HealthAwarePool.ApplyProbe` | crates/healthcheck/src/lib.rs:283-308 | one probe result moves the status as the history semantics says |
| `HealthPool.HealthAwarePool.MarkUnhealthy` | crates/healthcheck/src/lib.rs:209-222 | a report counts as a hint for a known backend and is ignored for an unknown one |
| `HealthPool.HealthAwarePool.HealthySnapshot` | crates/healthcheck/src/lib.rs:177-192 | the listed backends that are not evicted, in order |
| `HealthPool.SnapshotIsSubsequence` | crates/healthcheck/src/lib.rs:177-192 | the places of the snapshot correspond, in strictly increasing order, to exactly the list positions of backends that are not evicted |
| `HealthPool.HealthAwarePool.Pick` | crates/healthcheck/src/lib.rs:196-203 | the pick is an admitted backend at the cursor's position; nothing is picked exactly when none is admitted, and then the cursor stays |
| `HealthPool.PickRepeatedly` | crates/healthcheck/src/lib.rs:196-203 | any picks in a row from an unchanged list and status map answer unless every backend is evicted, and give each listed backend in service its floor or ceiling share and evicted ones none, until the cursor wraps or if the number in service divides 2^64 |
| `HealthPool.EntryEqualsPast` | crates/healthcheck/src/lib.rs:138-222 | over any life of the pool a backend has an entry exactly when it has a past since its last removal, and the entry is the replay of that past |
| `HealthPool.ReportsCountTowardsEviction` | crates/healthcheck/src/lib.rs:209-308 | over a life of rounds and reports, one failed probe evicts a backend that was reported `n` times since its last success if and only if `n` + 1 reaches the quota |
| `HealthPool.NoneOfferedIffAllEvicted` | crates/healthcheck/src/lib.rs:177-203 | nothing is offered if and only if every listed backend is evicted |
| `HealthPool.OfferedEqualsHistory` | crates/healthcheck/src/lib.rs:177-203 | over any life of the pool a backend is offered if and only if it is listed and its past does not leave it evicted |
| `KeyCache.Cache.KeyFor` | crates/auth/src/oidc.rs:189-223 | without other callers the answer is what the cache then holds; the cache changes only on a miss, past the floor, by a successful fetch |
| `KeyCache.StepValid` | crates/auth/src/oidc.rs:189-223 | every step of every caller, dropped callers included, keeps the lock with exactly the caller that refreshes |
| `KeyCache.AtMostOneRefresh` | crates/auth/src/oidc.rs:189-223 | in every interleaving at most one caller is between its second look and the end of its refresh |
| `KeyCache.RefreshesAreFloorApart` | crates/auth/src/oidc.rs:189-223 | in every interleaving successful refreshes are at least the floor apart |
| `KeyCache.FetchStartsIffFloorSinceSuccess` | crates/auth/src/oidc.rs:199-203 | a fetch starts if and only if the floor has passed since the last successful refresh |
| `KeyCache.FetchesAreFloorApartAfterSuccess` | crates/auth/src/oidc.rs:199-217 | in every interleaving two fetches start at least the floor apart, counted from the end of the first, whenever the first installs its keys before the second starts |
| `KeyCache.UnfinishedFetchIsRetriedAtOnce` | crates/auth/src/oidc.rs:218-221 | for every floor there are runs in which a failed fetch, and a dropped one, is followed by another at the same instant |
| `KeyCache.AnswersAreCacheContents` | crates/auth/src/oidc.rs:189-223 | in every interleaving each answer, a key or none, is what the cache held for that key id at some instant of the call |
| `KeyCacheAnswers.NoKeyIff` | crates/auth/src/oidc.rs:189-223 | in every interleaving an answered caller gets no key if and only if the cache lacked it after the caller took the lock, and then the floor had not passed since the last install, or its own fetch failed, or it installed keys and still found it lacking |
| `KeyCacheAnswers.InstalledKeyIsFound` | crates/auth/src/oidc.rs:194-198 | in every interleaving a caller whose key is in the cache when it takes the lock answers with that key |
| `KeyCacheAnswers.LoneCallerIsKeyFor` | crates/auth/src/oidc.rs:189-223 | a caller alone in a run answers, and leaves the cache, as the object does |
| `Retry.RetryWithBudget` | crates/gateway/src/main.rs:386-429 | returns the first success, or the first failure at or after the deadline, for any interval; with a positive one at most ceil(budget/interval)+1 attempts; never gives up before the budget has elapsed |
| `Retry.PositiveIntervalEnds` | crates/gateway/src/main.rs:386-429 | with a positive interval the loop always comes to an end |
| `Retry.RetryRedisConnect` | crates/gateway/src/main.rs:365-381 | with the startup constants at most 31 attempts are made, and the loop gives up only after 60 seconds |

## Left out

- gRPC forwarding, dialing, streams and tracing: input and output, no logic of their own.
- JWT and OIDC verification and the HTTP fetch of keys: foreign libraries; a fetch is a step that returns any key set or fails.
- The Kubernetes watcher: pools change arbitrarily between steps instead.
- The network side of health probing: a probe result is an arbitrary boolean, and the list of inner backends is arbitrary in each round.
- Forwarding a hint to the inner pool (`crates/healthcheck/src/lib.rs:209-222`): the wrapped pools ignore it.
- f64 rounding and number formatting in the buckets: tokens and seconds are reals.
- Configuration, tenant resolver, static tokens, audit log, metrics and drain: single-branch mappings and counters that would add only easy members.
- The connection lock of each replica: the protocol allows the commands of one replica to interleave freely, which covers every run with the lock.
- Which check a late bucket command belonged to: the limiter allows a stray access at any time, which covers every late command.
- The cast of time-to-live values to i64, and the unit of the Redis server's clock in the affinity protocol.
- Overflow of the u32 attempt counter in the retry loop: at startup it stays below 32.
- `Router.dfy` takes what the pool would hand out as an argument; the pools themselves are in `RoundRobin.dfy` and `HealthPool.dfy`.
- Retry.RetryWithBudget: requires that some attempt succeeds or outlasts the deadline, because the loop does not end otherwise; a positive interval guarantees it.
- AffinityRuns.TwoRacersBothReport: shows one run, as the counterexample to the documented promise; the law for all runs is `AffinityAgreement.FreshBindingReport`.
- AffinityRuns.UnstoredAnswerSplitsSession: shows one run; the law for all runs is `AffinityUnstored.UnstoredAnswerIff`.
