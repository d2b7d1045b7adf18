# Rentify backend: verified models

This project models the stateful core of the Rentify backend in Dafny and proves what it keeps over
whole runs. `dafny verify dfyconfig.toml` checks everything.

Each component has its own modules. Where the source updates fields, tables or maps in place, a class
with those fields does the same, and every method is proved against a function on the abstract state;
the theorems are about those functions and about runs of them. Where many callers interleave between
awaits, the component is a state machine with one step per store command.

| component | modules |
|---|---|
| dependency-injection container | `Registry`, `CycleSearch`, `Resolution`, `ResolutionProofs`, `ContainerTheorems`, `RootDisposal`, `ContainerRuns`, `Container` |
| read-through stale-while-revalidate cache | `CacheLifetimes`, `SwrProtocol`, `SwrInvariant`, `SwrProofs`, `SwrTheorems`, `SwrLock`, `SwrSteps`, `SwrWitness` |
| rate limiter | `SlidingWindow`, `SlidingWindowTheorems`, `TokenBucket`, `TokenBucketTheorems`, `RateLimiter` |
| XML printer | `XmlPrinter`, `XmlReader` |
| leased locks | `LeasedLocks`, `FlowLocks` |
| booking requests | `Bookings`, `BookingsRepository`, `BookingDecisions`, `BookingTheorems`, `ConversionLease` |
| accounts, lockout, code limiter | `Accounts`, `AccountService`, `AccountDecisions`, `AccountTheorems`, `Bursts`, `LoginLockout`, `OtpLimiter` |
| circuit breaker of the search client | `CircuitBreaker` |

Time is an explicit clock that never runs backwards; every Redis command, script and database
transaction is one step; random identifiers and lock tokens are unique; token buckets compute with
exact rationals.

## Properties that hold only under a condition

- **Fence of the cache, stored values.** A value stored under generation g was loaded after the g-th
  invalidation exactly when it is not a write of the timeout fallback that an invalidation overtook
  (`WritesAreFenced`). The weight lies in the other loads: for a fallback write the equivalence follows
  from where its load stands among the invalidations.
- **Fence of the cache, returned values.** What a get returns misses an invalidation that preceded the
  get exactly when a fallback wrote it and the key was invalidated after its load began and before the
  get did (`ReturnedIsFenced`). `FallbackBreaksFence` is such a run under the default policy.
- **Serving window.** The direct, leader and polling paths never return an entry at or past its stale
  deadline (`ServedInWindow`). The fallback does not look at the age of what it finds:
  `FallbackReturnsPastStale` is a run under the default policy, and `FallbackEntryAge` bounds by how much.
- **Disposal of the root.** Within one lifetime disposal is dependents-first. Across lifetimes the root
  disposes its scoped services before any singleton; for a validated registry some run ends with a wrong
  order exactly when a walk of the dependency graph leads from a disposable singleton to a disposable
  scoped service (`RootDisposalOrderExact`, `RootDisposalOrderCanFail`).
- **Orphan hold blocks.** A step leaves a hold block without an owner exactly when it is an approval by the
  owner, in time and on free dates, or an expiry of an overdue request, and the request is pending and
  owns the block (`OrphansExactly`, `PendingHoldIsOrphaned`). The repository's own operations never give a
  request a block; an orphan, once there, refuses overlapping approvals in every later run
  (`OrphanRefusesForever`).
- **Conversion lease.** The holder of a lapsed lease clears a later one exactly when both carry the same
  pair of timestamps, which cannot happen when a lease ends after its grant (`StaleReleaseClearsExactly`,
  `StaleReleaseIsHarmless`). It can with leases that end as they begin (`EmptyLeaseIsNotFenced`); no present
  caller makes one, since the only caller asks for five minutes (rentings.service.ts, lines 44-48).
- **Unlinking.** An unlink that goes through keeps the account usable exactly when it has a password or an
  identity with another provider; the guard in the code ensures this only together with the database's
  unique (user, provider) pair (`UnlinkKeepsSignInExactly`, `TwoOfOneProviderStrand`).

docs/booking-locking-tradeoffs.md (line 52) lists multi-key lock acquisition as not solved; the code
takes several keys by nested calls, and the model follows the code.

## Model

| member | source | states |
|---|---|---|
| `Registry.MissingOfExact` | backend/src/app/configuration/container/core.ts:84-100 | the missing-dependency report lists exactly the declared dependencies nobody registered |
| `Registry.TopologicalIsAcyclic` | backend/src/app/configuration/container/core.ts:102-139 | if tokens can be listed with each after all its dependencies, as finishing order does, no closed walk exists |
| `CycleSearch.BackEdgeCloses` | backend/src/app/configuration/container/core.ts:111-119 | the reported slice of the path, closed by the token met again, is a closed walk of the dependency graph |
| `CycleSearch.DependencySearch.Visit` | backend/src/app/configuration/container/core.ts:106-135 | a reported cycle is a closed walk; otherwise path and open set are as before, the token is finished, and the search invariant holds; terminates because unseen registrations shrink |
| `CycleSearch.DependencySearch.VisitDependencies` | backend/src/app/configuration/container/core.ts:124-130 | the loop over dependencies finishes every registered one or reports a closed walk |
| `Container.ServiceContainer.Register` | backend/src/app/configuration/container/core.ts:66-81 | only the root accepts registrations; a later one replaces an earlier one of the same token |
| `Container.ServiceContainer.CollectMissing` | backend/src/app/configuration/container/core.ts:84-94 | the nested loops compute the missing-dependency report, in registration order |
| `Container.ServiceContainer.Validate` | backend/src/app/configuration/container/core.ts:83-140 | returns normally if and only if every dependency is registered and the graph is acyclic; otherwise reports all missing pairs exactly, or a real closed walk |
| `Container.ServiceContainer.ResolveRegistration` | backend/src/app/configuration/container/core.ts:179-203 | missing and circular errors and the dispatch on lifetime, as the resolution function |
| `Container.ServiceContainer.ResolveSingleton` | backend/src/app/configuration/container/core.ts:205-219 | a singleton is built by the root, remembered and tracked there |
| `Container.ServiceContainer.ResolveScoped` | backend/src/app/configuration/container/core.ts:221-233 | a scoped service is built, remembered and tracked by the container that was asked |
| `Container.ServiceContainer.CreateInstance` | backend/src/app/configuration/container/core.ts:235-244 | a factory resolves its dependencies in order with the token pushed on the stack |
| `Container.ServiceContainer.CreateScope` | backend/src/app/configuration/container/core.ts:146-153 | a scope shares registrations and singletons and starts with no scoped instance |
| `Container.ServiceContainer.Dispose` | backend/src/app/configuration/container/core.ts:155-177 | disposers run newest first, the root's scoped ones before its singletons, and the scoped cache is emptied; the singletons are emptied by the root alone |
| `ResolutionProofs.ResolveKeeps` | backend/src/app/configuration/container/core.ts:179-259 | each cache holds exactly the instances of its kind, one per token, and resolving forgets nothing |
| `ContainerTheorems.ValidatedContainerResolves` | backend/src/app/configuration/container/core.ts:142-244 | after any run, any registered token of a validated registry resolves in any container, with a stack no deeper than the number of registrations |
| `ContainerTheorems.SingletonBuiltOnce` | backend/src/app/configuration/container/core.ts:205-219 | until disposal a singleton is built once across all scopes, by the root |
| `ContainerTheorems.ScopedBuiltOnce` | backend/src/app/configuration/container/core.ts:221-233 | until its disposal a container builds a scoped service once |
| `ContainerTheorems.DisposalIsReverseDependencyOrder` | backend/src/app/configuration/container/core.ts:155-177 | within one lifetime of one container every tracked instance is disposed once and before anything it depends on, directly or through transients |
| `ContainerTheorems.CapturedByRoot` | backend/src/app/configuration/container/core.ts:205-244 | everything reachable from a singleton was built by the root, never by a request scope |
| `ContainerRuns.WiredExactly` | backend/src/app/configuration/container/core.ts:205-244 | in every run an instance is built from earlier instances of exactly its declared dependencies, in order: singletons of the root, everything else of the container that built it |
| `ContainerRuns.ResolvedExactly` | backend/src/app/configuration/container/core.ts:179-233 | a caller gets an instance of the very token it asked for, of the root if a singleton and of its own container otherwise |
| `ContainerRuns.DisposesExactly` | backend/src/app/configuration/container/core.ts:155-177 | a disposal empties the scoped cache of that container alone; the singletons go exactly when it is the root; nothing is built |
| `ContainerRuns.OneSingletonPerRun` | backend/src/app/configuration/container/core.ts:155-219 | in a run that never disposes the root, at most one instance of a singleton is ever built, however many scopes are disposed |
| `ContainerRuns.OneScopedPerRun` | backend/src/app/configuration/container/core.ts:155-233 | in a run that never disposes a scope, at most one instance of a scoped service is built for it |
| `ContainerRuns.SingletonLastsUntilRootDisposal` | backend/src/app/configuration/container/core.ts:155-219 | once resolved, a singleton is the same instance for every container until the root is disposed, whatever else happens |
| `ContainerRuns.ScopedLastsUntilDisposal` | backend/src/app/configuration/container/core.ts:155-233 | a container keeps its instance of a scoped service until it is disposed itself |
| `ContainerRuns.TransientIsNew` | backend/src/app/configuration/container/core.ts:200-203 | every resolution of a transient gives an instance that did not exist before |
| `ContainerRuns.DisposalEndsInstances` | backend/src/app/configuration/container/core.ts:155-177 | after a disposal the next resolution builds a new instance, of a singleton too when it was the root |
| `ContainerRuns.DisposedExactly` | backend/src/app/configuration/container/core.ts:155-177 | after any run a disposal runs exactly the disposers of the instances that container owns and nobody disposed before, those of a scope dependents-first |
| `ContainerRuns.ErrorsAreReal` | backend/src/app/configuration/container/core.ts:179-203 | without validation too, a resolution fails only for an unregistered token or a chain of dependencies that returns to a token on it |
| `RootDisposal.RootDisposalOrderExact` | backend/src/app/configuration/container/core.ts:155-177 | for a validated registry, some run ends with a root disposal that is not dependents-first if and only if a walk of the dependency graph leads from a disposable singleton to a disposable scoped service |
| `RootDisposal.RootDisposalOrderCanFail` | backend/src/app/configuration/container/core.ts:155-177 | a valid registry and run in which a singleton's scoped dependency is disposed before it |
| `RootDisposal.DisposedOnce` | backend/src/app/configuration/container/core.ts:155-177 | over a whole run, with any number of disposals of any containers, no instance is disposed twice |
| `CacheLifetimes.LifetimesOrdered` | backend/src/app/features/cache/read-through-swr-cache.service.ts:309-328 | after jitter and rounding fresh lifetime, stale lifetime and Redis lifetime are in that order, whatever the policy and the random number |
| `CacheLifetimes.JitterBounds` | backend/src/app/features/cache/read-through-swr-cache.service.ts:309-319 | jitter moves a lifetime by at most the ratio either way, to within half a millisecond, and reaches both ends |
| `CacheLifetimes.LifetimesAsConfigured` | backend/src/app/features/cache/read-through-swr-cache.service.ts:309-328 | both lifetimes of a value are the configured ones up to jitter and rounding, and absence lives as configured without jitter |
| `CacheLifetimes.MakeEnvelope` | backend/src/app/features/cache/read-through-swr-cache.service.ts:301-331 | fresh deadline at most the stale one, equal for absent values, and both within the key's lifetime |
| `CacheLifetimes.DeadlinesExact` | backend/src/app/features/cache/read-through-swr-cache.service.ts:320-331 | the deadlines of a value are now plus its lifetimes, to the millisecond |
| `SwrProofs.RunKeeps` | backend/src/app/features/cache/read-through-swr-cache.service.ts:46-331 | the protocol invariant holds after every interleaving of gets, refreshes, loads, invalidations and time |
| `SwrTheorems.WritesAreFenced` | backend/src/app/features/cache/read-through-swr-cache.service.ts:125-256 | what is stored under generation g was loaded after the g-th invalidation, if and only if it is not an overtaken fallback write |
| `SwrTheorems.StoreHoldsWrites` | backend/src/app/features/cache/read-through-swr-cache.service.ts:301-352 | the store holds only written entries under their own generation, each at least until its stale deadline |
| `SwrTheorems.ReturnedIsFenced` | backend/src/app/features/cache/read-through-swr-cache.service.ts:46-256 | what a get returns misses an invalidation that preceded the get if and only if a fallback wrote it and the key was invalidated after its load began and before the get did, equivalently if the generation at its load start is behind the one at the start of the get; with any number of leaders |
| `SwrTheorems.FencedWithoutFallback` | backend/src/app/features/cache/read-through-swr-cache.service.ts:105-239 | in runs without a fallback load the fence holds for the whole store and every call |
| `SwrTheorems.SingleFlight` | backend/src/app/features/cache/read-through-swr-cache.service.ts:258-299 | in one process at most one unfinished load per key, generation and mode |
| `SwrTheorems.PendingDrains` | backend/src/app/features/cache/read-through-swr-cache.service.ts:272-281 | once no call is outstanding the pending table is empty and every load has settled |
| `SwrTheorems.ServedInWindow` | backend/src/app/features/cache/read-through-swr-cache.service.ts:58-220 | the direct, leader and polling paths never return an entry at or past its stale deadline, nor an absent value past its fresh one |
| `SwrSteps.GetServesExactly` | backend/src/app/features/cache/read-through-swr-cache.service.ts:58-75 | in every state a get returns what it found exactly while that is fresh or stale, and goes to rebuild otherwise; a refresh is started exactly when it is stale and no longer fresh, and goes for the lock exactly when this process has no load of the key and generation |
| `SwrSteps.PollServesExactly` | backend/src/app/features/cache/read-through-swr-cache.service.ts:204-224 | a poll returns what it found exactly while that is fresh or stale, and polls on otherwise |
| `SwrSteps.LockedServesExactly` | backend/src/app/features/cache/read-through-swr-cache.service.ts:130-182 | the lock holder takes what it found exactly while that is fresh, and otherwise awaits a load under the generation it read after getting the lock |
| `SwrSteps.LocksExactly` | backend/src/app/features/cache/read-through-swr-cache.service.ts:116-169 | the rebuild lock is got exactly when no lease on the key ends later; who misses it follows if it is a get and gives up if it is a refresh |
| `SwrSteps.RefreshChecksGeneration` | backend/src/app/features/cache/read-through-swr-cache.service.ts:126-130 | a refresh goes on exactly if the generation is still the one it was started for |
| `SwrSteps.JoinsExactly` | backend/src/app/features/cache/read-through-swr-cache.service.ts:157-209 | a call joins a pending load of its process for its key and generation exactly when there is one, a rebuild before a refresh |
| `SwrSteps.WaitsExactly` | backend/src/app/features/cache/read-through-swr-cache.service.ts:199-227 | a follower polls again exactly before its deadline, and after it awaits a load of its own process, started as a fallback if there is none |
| `SwrSteps.AwaitsExactly` | backend/src/app/features/cache/read-through-swr-cache.service.ts:258-282 | whoever awaits a load goes on exactly when it is over, with its value or its failure; the one that started it takes it off the table |
| `SwrSteps.ReadsExactly` | backend/src/app/features/cache/read-through-swr-cache.service.ts:146-220 | each look at the store, before and after the lock and in each poll, takes the generation or the entry that stands there at that moment |
| `SwrSteps.ReleasesExactly` | backend/src/app/features/cache/read-through-swr-cache.service.ts:142-186 | the rebuild lock is given back if it is still the call's own, and the call ends with its result |
| `SwrSteps.FailsExactly` | backend/src/app/features/cache/read-through-swr-cache.service.ts:230-299 | a failure ends a load that was not over and stores nothing |
| `SwrSteps.LoadsExactly` | backend/src/app/features/cache/read-through-swr-cache.service.ts:230-331 | a load makes an entry of what the loader returned, under the generation it was started for, or in the fallback under that of the moment unless an entry is there |
| `SwrSteps.InvalidatesExactly` | backend/src/app/features/cache/read-through-swr-cache.service.ts:77-87 | an invalidation raises the generation of its key by one, and nothing else raises any |
| `SwrSteps.StoredLasts` | backend/src/app/features/cache/read-through-swr-cache.service.ts:324-352 | what a load stored is found under its generation for its lifetime in the store and not after it, while nothing overwrites it |
| `SwrSteps.WarmGet` | backend/src/app/features/cache/read-through-swr-cache.service.ts:46-75 | a get of a key with a servable entry under its current generation returns that entry in three steps |
| `SwrSteps.ColdGet` | backend/src/app/features/cache/read-through-swr-cache.service.ts:146-186 | a get with nothing to serve and nobody to follow takes the lock, loads, stores the entry under the current generation for its whole lifetime, gives the lock back and returns that entry |
| `SwrTheorems.FallbackEntryAge` | backend/src/app/features/cache/read-through-swr-cache.service.ts:247-253 | an entry the fallback finds is past its stale deadline by less than one second plus the time its write took to reach the store |
| `SwrLock.RebuildLockExclusive` | backend/src/app/features/cache/read-through-swr-cache.service.ts:116-186 | of two calls on one key, in any processes, that both got the rebuild lock and have not given it back, the lease of one has ended |
| `SwrWitness.FallbackBreaksFence` | backend/src/app/features/cache/read-through-swr-cache.service.ts:199-256 | a complete run under the default policy, with a follower that polls in vain until its deadline, in which a get begun after an invalidation returns a value loaded before it |
| `SwrWitness.FallbackReturnsPastStale` | backend/src/app/features/cache/read-through-swr-cache.service.ts:199-256 | a complete run under the default policy in which a get returns an entry past its stale deadline |
| `SlidingWindow.MemoryRefines` | backend/src/app/configuration/middlewares/rate-limiter.middleware.ts:337-371 | the in-memory limiter answers as a reference that remembers every admission |
| `SlidingWindow.RedisRefines` | backend/src/app/configuration/middlewares/rate-limiter.middleware.ts:55-82 | so does the script, with the sorted set expiring as a whole |
| `SlidingWindow.ExpiryUnobservable` | backend/src/app/configuration/middlewares/rate-limiter.middleware.ts:77-78 | what key expiry drops lies outside every later window |
| `SlidingWindowTheorems.LimitersAgree` | backend/src/app/configuration/middlewares/rate-limiter.middleware.ts:55-82 | on every trace over any keys and policies both forms give the same flag, remaining count and retry seconds |
| `SlidingWindowTheorems.WindowBound` | backend/src/app/configuration/middlewares/rate-limiter.middleware.ts:337-371 | in every window, wherever it ends, each form admits at most `limit`, and with fallback between them at most twice that in all |
| `SlidingWindowTheorems.RefusedExactlyWhenFull` | backend/src/app/configuration/middlewares/rate-limiter.middleware.ts:345-361 | a request is refused exactly when `limit` were admitted in the window that ends now |
| `SlidingWindowTheorems.RemainingExact` | backend/src/app/configuration/middlewares/rate-limiter.middleware.ts:345-371 | after every decision the admissions of the window that ends now and the remaining count make up the limit, in both forms |
| `SlidingWindowTheorems.RetryAfterExact` | backend/src/app/configuration/middlewares/rate-limiter.middleware.ts:347-360 | waiting the advertised whole seconds suffices and one second less does not (Retry-After, section 10.2.3 of RFC 9110) |
| `TokenBucket.TtlRefills` | backend/src/app/configuration/middlewares/rate-limiter.middleware.ts:405 | the entry lifetime is long enough to refill from empty |
| `TokenBucket.TtlExact` | backend/src/app/configuration/middlewares/rate-limiter.middleware.ts:405 | the entry lifetime is twice the time to refill, rounded up to milliseconds and at least a second |
| `TokenBucket.CeilTwice` | backend/src/app/configuration/middlewares/rate-limiter.middleware.ts:108-109 | rounding up to milliseconds and then to seconds equals rounding up to seconds |
| `TokenBucket.ExpiryUnobservable` | backend/src/app/configuration/middlewares/rate-limiter.middleware.ts:105-106 | an expired entry holds a full bucket, as a missing one does |
| `TokenBucket.PruningUnobservable` | backend/src/app/configuration/middlewares/rate-limiter.middleware.ts:445-453 | pruning an expired bucket changes no later level, answer or stored entry |
| `TokenBucket.StepsAgree` | backend/src/app/configuration/middlewares/rate-limiter.middleware.ts:84-117 | on equal levels the script and the in-memory form answer alike and store the same entry |
| `TokenBucketTheorems.TokensInRange` | backend/src/app/configuration/middlewares/rate-limiter.middleware.ts:398-443 | tokens stay between zero and the capacity in both stores |
| `TokenBucketTheorems.AdmissionsUnderCurve` | backend/src/app/configuration/middlewares/rate-limiter.middleware.ts:398-443 | over any trace the admissions of a key in [s, t] number at most capacity + rate (t - s) / 1000 |
| `TokenBucketTheorems.RefusedExactlyWhenExceeding` | backend/src/app/configuration/middlewares/rate-limiter.middleware.ts:411-427 | a request is refused exactly when admitting it would exceed that bound for some interval ending now |
| `TokenBucketTheorems.RemainingExact` | backend/src/app/configuration/middlewares/rate-limiter.middleware.ts:411-443 | after every decision as many more admissions as it says remain stay within the bound for every interval ending now, and one more does not, in both forms |
| `TokenBucketTheorems.LimitersAgree` | backend/src/app/configuration/middlewares/rate-limiter.middleware.ts:84-117 | on every trace, with sweeps anywhere, both forms give the same flag, remaining count and retry seconds |
| `TokenBucketTheorems.RetryAfterExact` | backend/src/app/configuration/middlewares/rate-limiter.middleware.ts:415-426 | the advertised retry time is exact in both forms after every trace |
| `RateLimiter.RateLimiter.EvaluateSlidingWindow` | backend/src/app/configuration/middlewares/rate-limiter.middleware.ts:55-82 | the script, command by command, as one step on the sorted set |
| `RateLimiter.RateLimiter.EvaluateSlidingWindowInMemory` | backend/src/app/configuration/middlewares/rate-limiter.middleware.ts:337-371 | the in-memory sliding window, as one step on its table |
| `RateLimiter.RateLimiter.EvaluateTokenBucket` | backend/src/app/configuration/middlewares/rate-limiter.middleware.ts:84-117 | the token-bucket script as one step on the hash |
| `RateLimiter.RateLimiter.EvaluateTokenBucketInMemory` | backend/src/app/configuration/middlewares/rate-limiter.middleware.ts:398-443 | the in-memory token bucket as one step on its table |
| `RateLimiter.RateLimiter.PruneExpiredMemoryEntries` | backend/src/app/configuration/middlewares/rate-limiter.middleware.ts:445-453 | deleting while iterating leaves exactly the buckets that have not expired |
| `RateLimiter.RateLimiter.EvaluateRateLimit` | backend/src/app/configuration/middlewares/rate-limiter.middleware.ts:480-511 | Redis decides unless it cannot be reached; only then the process's own tables do, after a sweep; other errors are thrown and change nothing |
| `XmlPrinter.EscapeIsOnePass` | backend/src/app/configuration/middlewares/output-format.middleware.ts:12-19 | the five whole-string passes equal one pass that replaces character by character |
| `XmlReader.TagIsName` | backend/src/app/configuration/middlewares/output-format.middleware.ts:21-29 | every tag is a legal name (XML 1.0, section 2.3) |
| `XmlReader.TagFollowsName` | backend/src/app/configuration/middlewares/output-format.middleware.ts:21-29 | the tag is the key with kept characters in place and a dash for each other code unit, with `item-` before it exactly when it does not start with a letter or underscore, and `item` for the empty key |
| `XmlReader.TagIsStable` | backend/src/app/configuration/middlewares/output-format.middleware.ts:21-29 | sanitising a tag again changes nothing |
| `XmlReader.ReadEscaped` | backend/src/app/configuration/middlewares/output-format.middleware.ts:12-19 | reading escaped character data gives back the text (XML 1.0, sections 2.4 and 4.6) |
| `XmlReader.ReadNode` | backend/src/app/configuration/middlewares/output-format.middleware.ts:31-62 | reading a printed node gives its tree and leaves the rest of the input untouched |
| `XmlReader.PrintReadRoundTrip` | backend/src/app/configuration/middlewares/output-format.middleware.ts:64-66 | for every body and root name, reading the printed document gives the same nesting, sanitised names and text |
| `LeasedLocks.LockStore.AcquireLock` | backend/src/app/features/cache/cache.service.ts:181-203 | set if absent or lapsed, with a lease |
| `LeasedLocks.TakenExactly` | backend/src/app/features/cache/cache.service.ts:181-203 | a key is taken exactly when it has no lease that ends later, so also when its lease lapsed, and the lease lasts the asked time |
| `LeasedLocks.TakeableExactly` | backend/src/app/features/cache/cache.service.ts:181-203 | after any operations of anyone, the next to ask gets the key exactly when no lease on it ends later |
| `LeasedLocks.LapsedIsTakeable` | backend/src/app/features/cache/cache.service.ts:181-203 | a lease nobody renews is takeable from its end on and not before |
| `LeasedLocks.LockStore.ReleaseLock` | backend/src/app/features/cache/cache.service.ts:205-216 | deletes the key only if it still holds the caller's token |
| `LeasedLocks.LockStore.ExtendLock` | backend/src/app/features/cache/cache.service.ts:218-235 | renews the lease only if the key still holds the caller's token |
| `LeasedLocks.ReleasedExactly` | backend/src/app/features/cache/cache.service.ts:205-216 | a lease is given back exactly by its own token before it ends, and no other key changes |
| `LeasedLocks.ExtendedExactly` | backend/src/app/features/cache/cache.service.ts:218-235 | a lease is renewed exactly by its own token before it ends, to last the asked time from now |
| `LeasedLocks.OthersCannotTouch` | backend/src/app/features/cache/cache.service.ts:205-235 | no sequence of operations with other tokens releases, extends, takes over or forges an unlapsed lease |
| `LeasedLocks.LockStore.WithFlowLocks` | backend/src/app/features/cache/cache-locks.ts:18-55 | with arbitrary interference at every await: the body runs exactly when every key before the first empty one was got, a refusal is a conflict, and on any outcome no live lock of the call is left |
| `LeasedLocks.SectionShape` | backend/src/app/features/cache/cache-locks.ts:37-55 | the nested calls acquire in order, run the body or meet a refusal, and release exactly what they acquired in reverse order |
| `FlowLocks.OneLiveHolder` | backend/src/app/features/cache/cache.service.ts:181-203 | in every interleaving, of two leases on one key, of one flow or two, one has lapsed |
| `FlowLocks.NextExactly` | backend/src/app/features/cache/cache-locks.ts:18-55 | in every run a flow gets its next named key, with a lease of fifteen seconds, exactly when the table has no lease on it that ends later; with none left to take it runs its body |
| `FlowLocks.BeginsExactly` | backend/src/app/features/cache/cache-locks.ts:18-35 | a call begins with nothing held, and what others do reaches the store as it is |
| `FlowLocks.UnwindsExactly` | backend/src/app/features/cache/cache-locks.ts:30-34 | unwinding gives back one lock after another, last first, if the flow still holds it, and ends with the outcome it began with |
| `FlowLocks.BodyHoldsEveryKey` | backend/src/app/features/cache/cache-locks.ts:37-55 | a running body got every named key and still holds each unless the full lifetime has passed since the flow began |
| `FlowLocks.BodiesNeverOverlap` | backend/src/app/features/cache/cache-locks.ts:4-35 | two flows sharing a key are never both in their bodies within the lock lifetime |
| `FlowLocks.NothingLeftBehind` | backend/src/app/features/cache/cache-locks.ts:30-34 | a finished flow has no live lock, whatever its outcome |
| `FlowLocks.OnlyOwnerTouches` | backend/src/app/features/cache/cache.service.ts:205-235 | no step of anyone else ends or changes a live lease, so a lapsed holder cannot harm its successor |
| `FlowLocks.FlowsFinish` | backend/src/app/features/cache/cache-locks.ts:24-28 | nobody waits for a lock: an unfinished flow always has a step, and each brings its end nearer |
| `BookingsRepository.Repository.CreateIfWithinActiveRequestLimit` | backend/src/app/features/bookings/bookings.repository.ts:94-157 | counts active unconverted requests and inserts a pending one only below the cap |
| `BookingsRepository.Repository.UpdatePending` | backend/src/app/features/bookings/bookings.repository.ts:187-281 | changes the terms of the renter's own request while it is pending and its hold has not lapsed |
| `BookingsRepository.Repository.HasBlockingAvailabilityOverlap` | backend/src/app/features/bookings/bookings.repository.ts:678-720 | true exactly when an overlapping block has no owning request or is held by another paid, unconverted one |
| `BookingsRepository.Repository.Approve` | backend/src/app/features/bookings/bookings.repository.ts:431-559 | only the owner's open pending request moves to awaiting payment, and not over blocked dates |
| `BookingsRepository.Repository.Decline` | backend/src/app/features/bookings/bookings.repository.ts:561-632 | only the owner's open pending request is declined |
| `BookingsRepository.Repository.ListExpiredCandidates` | backend/src/app/features/bookings/bookings.repository.ts:634-676 | lists distinct overdue requests, the first ones by hold expiry and creation, and all of them when below the limit |
| `BookingsRepository.Repository.Expire` | backend/src/app/features/bookings/bookings.repository.ts:722-809 | expires exactly an overdue request and deletes its hold block when it was past pending |
| `BookingsRepository.Repository.ReserveForConversion` | backend/src/app/features/bookings/bookings.repository.ts:811-853 | reserves a paid, unconverted request whose earlier reservation is absent or over |
| `BookingsRepository.Repository.ReleaseConversionReservation` | backend/src/app/features/bookings/bookings.repository.ts:855-877 | clears the reservation only if both timestamps match |
| `BookingDecisions.CreatedExactly` | backend/src/app/features/bookings/bookings.repository.ts:94-157 | a creation goes through exactly while fewer than the limit of the renter's requests for the posting are active and unconverted, counted by status |
| `BookingDecisions.UpdatedExactly` | backend/src/app/features/bookings/bookings.repository.ts:187-281 | terms change exactly on the renter's own pending request before its hold expires, and nothing else does |
| `BookingDecisions.ApprovedExactly` | backend/src/app/features/bookings/bookings.repository.ts:431-559 | an approval goes through exactly for the owner, on a pending request before its hold expires, when every overlapping block of the posting is the hold of a request that is not another paid, unconverted one |
| `BookingDecisions.DeclinedExactly` | backend/src/app/features/bookings/bookings.repository.ts:561-632 | a decline goes through exactly for the owner, on a pending request before its hold expires |
| `BookingDecisions.ExpiredExactly` | backend/src/app/features/bookings/bookings.repository.ts:722-809 | a request expires exactly when it is open or approved and unpaid, unconverted, its hold over and no conversion reservation live; its block goes only past pending |
| `BookingDecisions.GrantedExactly` | backend/src/app/features/bookings/bookings.repository.ts:811-853 | a conversion lease is granted exactly on the owner's paid request that is not converted and has no reservation ending later |
| `BookingDecisions.ReleasedExactly` | backend/src/app/features/bookings/bookings.repository.ts:855-877 | a release clears the reservation exactly when owner and both timestamps match |
| `BookingDecisions.OverdueExactly` | backend/src/app/features/bookings/bookings.repository.ts:634-676 | the sweep lists exactly what an expiry at that moment would expire |
| `BookingTheorems.RunEvolves` | backend/src/app/features/bookings/bookings.repository.ts:94-877 | over every run requests keep their parties and move only forward: pending to awaiting payment, declined or expired; unpaid ones to expired |
| `BookingTheorems.FinalStays` | backend/src/app/features/bookings/bookings.repository.ts:561-809 | declined and expired are never left |
| `BookingTheorems.PendingLeftOnce` | backend/src/app/features/bookings/bookings.repository.ts:431-809 | a request leaves pending at most once and is not pending again |
| `BookingTheorems.CapHolds` | backend/src/app/features/bookings/bookings.repository.ts:94-157 | no run with capped creations takes a posting and renter over the cap, for any cap (the service's is 2) |
| `BookingTheorems.RefusedExactlyAtCap` | backend/src/app/features/bookings/bookings.repository.ts:100-113 | a creation is refused exactly at the cap, and otherwise adds one active request |
| `BookingTheorems.OrphansExactly` | backend/src/app/features/bookings/bookings.repository.ts:431-809 | a step orphans a hold block if and only if it is an approval by the owner, in time and on free dates, or an expiry of an overdue request, of a pending request that owns one |
| `BookingTheorems.HoldsStayOwned` | backend/src/app/features/bookings/bookings.repository.ts:762-804 | if every hold block has one owner and pending requests own none, this stays so over every run |
| `BookingTheorems.HoldBlocksExactlyWhenPaid` | backend/src/app/features/bookings/bookings.repository.ts:470-501 | in such runs a hold block refuses an approval exactly when another paid, unconverted request owns it |
| `BookingTheorems.OrphanRefusesForever` | backend/src/app/features/bookings/bookings.repository.ts:479-501 | a block without an owner refuses every overlapping approval in every later state |
| `BookingTheorems.PendingHoldIsOrphaned` | backend/src/app/features/bookings/bookings.repository.ts:793-804 | a concrete state in which expiring a pending request orphans its block |
| `BookingTheorems.SweepExpiresAll` | backend/src/app/features/bookings/bookings.repository.ts:722-809 | expiring listed overdue requests one after another expires each and touches no other |
| `BookingTheorems.SweepLeavesNothingOverdue` | backend/src/app/features/bookings/bookings.repository.ts:634-809 | after expiring a complete list nothing is overdue |
| `ConversionLease.LeasesNeverOverlap` | backend/src/app/features/bookings/bookings.repository.ts:811-853 | two leases on one request do not overlap unless the earlier was given back first |
| `ConversionLease.LeasesArePaidAndUnconverted` | backend/src/app/features/bookings/bookings.repository.ts:821-835 | in every run the request of every lease ever granted is paid, unconverted and of the owner who got the lease |
| `ConversionLease.LiveLeaseIsRecorded` | backend/src/app/features/bookings/bookings.repository.ts:837-840 | a live lease is the pair its row carries, whatever other operations run |
| `ConversionLease.StaleReleaseClearsExactly` | backend/src/app/features/bookings/bookings.repository.ts:855-877 | a stale release clears a later lease exactly when the timestamp pairs are equal and the later one is still recorded |
| `ConversionLease.StaleReleaseIsHarmless` | backend/src/app/features/bookings/bookings.repository.ts:855-877 | a lease that ends after its grant can never be used to clear a later one, each being released at most once |
| `ConversionLease.EmptyLeaseIsNotFenced` | backend/src/app/features/bookings/bookings.repository.ts:855-877 | a run with two leases that end as they begin, such as no present caller makes, in which the first holder clears the second's |
| `AccountService.AuthService.LocalSignup` | backend/src/app/features/auth/auth.service.ts:162-195 | a sign-up for a verified address changes nothing; any other is kept pending |
| `AccountService.AuthService.VerifyEmail` | backend/src/app/features/auth/auth.service.ts:288-349 | creates or activates the account with the pending password, never one already verified |
| `AccountService.AuthService.ResetPassword` | backend/src/app/features/auth/auth.service.ts:255-286 | only a verified password account gets a new, different password |
| `AccountService.AuthService.ChangePassword` | backend/src/app/features/auth/auth.service.ts:395-425 | the same, by the account itself with its current password |
| `AccountService.AuthService.AuthenticateOAuthProfile` | backend/src/app/features/auth/auth.service.ts:736-759 | signs in the owner of the identity, refuses a taken address, or creates account and identity together |
| `AccountService.AuthService.LinkOAuthProvider` | backend/src/app/features/auth/auth.service.ts:514-541 | adds an identity unless it belongs to another account or the provider is linked already |
| `AccountService.AuthService.UnlinkOAuthProvider` | backend/src/app/features/auth/auth.service.ts:552-568 | refuses to unlink the last sign-in method |
| `AccountService.AuthService.UnlinkOAuthIdentity` | backend/src/app/features/auth/auth.repository.ts:270-281 | deletes exactly the account's identities with the provider |
| `AccountDecisions.ProofIsRequired` | backend/src/app/features/auth/auth.service.ts:255-425 | a reset or verification without a valid code, and a change without the current password, are rejected and leave accounts and identities as they were |
| `AccountDecisions.ResetExactly` | backend/src/app/features/auth/auth.service.ts:255-286 | a password is reset exactly with a valid code, to a different one, on the verified password account of the address |
| `AccountDecisions.ChangedExactly` | backend/src/app/features/auth/auth.service.ts:395-425 | a password is changed exactly with the current one, to a different one, on a verified password account |
| `AccountDecisions.PendingExactly` | backend/src/app/features/auth/auth.service.ts:162-195 | a sign-up is kept pending exactly when the address has no verified account, and accounts stay as they were |
| `AccountDecisions.VerifiedExactly` | backend/src/app/features/auth/auth.service.ts:288-349 | a verification creates or activates an account exactly with a valid code, a pending sign-up and no verified account of the address |
| `AccountDecisions.SignedInExactly` | backend/src/app/features/auth/auth.service.ts:736-759 | the owner of an identity is signed in if there is one; otherwise account and identity are created exactly when the address is free |
| `AccountDecisions.LinkedExactly` | backend/src/app/features/auth/auth.service.ts:514-541 | a profile is linked exactly when it is verified, belongs to nobody and the account has none of its provider |
| `AccountDecisions.UnlinkedExactly` | backend/src/app/features/auth/auth.service.ts:552-568 | an unlink is refused exactly when it would take the last way to sign in, and otherwise takes the identity with the provider alone |
| `AccountTheorems.ConsistentKept` | backend/src/app/features/auth/auth.repository.ts:127-281 | every operation keeps addresses, (provider, subject) and (user, provider) unique and identities owned |
| `AccountTheorems.UnlinkKeepsSignInExactly` | backend/src/app/features/auth/auth.service.ts:552-568 | an unlink that goes through keeps a sign-in method exactly when there is a password or an identity with another provider |
| `AccountTheorems.EveryAccountKeepsSignIn` | backend/src/app/features/auth/auth.service.ts:514-568 | over all runs of sign-up, verification, social sign-in, link, unlink and password change every account has a password or an identity |
| `AccountTheorems.TwoOfOneProviderStrand` | backend/src/app/features/auth/auth.repository.ts:270-281 | without the unique (user, provider) pair an unlink can strand an account |
| `AccountTheorems.OthersLeaveCredentials` | backend/src/app/features/auth/auth.service.ts:288-759 | a verified account's password and identities change only by its own actions: a reset with a valid code, a change with the current password, a link or an unlink |
| `AccountTheorems.LinkThenUnlink` | backend/src/app/features/auth/auth.service.ts:514-568 | after a link the profile signs in to the account, and unlinking restores everything |
| `Bursts.SpreadBoundsWindows` | backend/src/app/features/auth/auth.service.ts:1049-1059 | if any limit + 1 events in a row take a gap, no half-open window of that length holds more than limit |
| `LoginLockout.LoginAttempts.RecordFailedLocalLoginAttempt` | backend/src/app/features/auth/auth.service.ts:953-975 | counts one more failure, locking at five with the longer lifetime |
| `LoginLockout.LoginAttempts.LocalAuthenticate` | backend/src/app/features/auth/auth.service.ts:120-160 | the reply and the record after a sign-in attempt; other addresses are untouched |
| `LoginLockout.RecordCounts` | backend/src/app/features/auth/auth.service.ts:953-975 | a failure record counts 1 to 5 and is locked exactly at 5 |
| `LoginLockout.FivePlainRefusalsTakeLong` | backend/src/app/features/auth/auth.service.ts:120-160 | without a clear, any five plain refusals in a row take at least fifteen minutes |
| `LoginLockout.AtMostFourPlainRefusals` | backend/src/app/features/auth/auth.service.ts:120-160 | so a window shorter than that holds at most four |
| `LoginLockout.ReplyFollowsCount` | backend/src/app/features/auth/auth.service.ts:126-153 | a wrong password gets the plain refusal exactly while fewer than four came before it; a right one is never locked out |
| `LoginLockout.LockedExactly` | backend/src/app/features/auth/auth.service.ts:120-160 | after every run a wrong password is answered as locked exactly for thirty minutes from the attempt that locked, and when it comes within fifteen minutes of the fourth plain refusal of a burst, which alone locks |
| `OtpLimiter.OtpRateLimiter.ConsumePublicOtpRateLimit` | backend/src/app/features/auth/auth.service.ts:986-1067 | looks at every counter first, names the first full scope, and raises all three or none |
| `OtpLimiter.RefusalChangesNothing` | backend/src/app/features/auth/auth.service.ts:1030-1039 | a refused request changes no counter |
| `OtpLimiter.WindowBound` | backend/src/app/features/auth/auth.service.ts:986-1067 | in any half-open hour accepted requests per email, address and device number at most 5, 20 and 10, although each refreshes the expiry |
| `OtpLimiter.FullExactlyAfterBurst` | backend/src/app/features/auth/auth.service.ts:1026-1030 | a counter refuses exactly when its last unbroken burst of acceptances is at the limit and not an hour old |
| `OtpLimiter.VerdictExactly` | backend/src/app/features/auth/auth.service.ts:1007-1039 | of address, network address and device, each only if known, the first whose counter has reached 5, 20 or 10 and is alive refuses the request |
| `OtpLimiter.AcceptedExactly` | backend/src/app/features/auth/auth.service.ts:1041-1066 | an accepted request counts once on each of its known address, network address and device, and nothing else counts |
| `OtpLimiter.RefusedExactlyAfterBurst` | backend/src/app/features/auth/auth.service.ts:986-1067 | after every run a request is refused exactly when a known one of its three keys, the first in order, has a burst of accepted requests at the limit that is not an hour old |
| `CircuitBreaker.ElasticsearchClient.GetCircuitBreakerState` | backend/src/app/configuration/resources/elasticsearch.ts:73-87 | open, half-open or closed |
| `CircuitBreaker.ElasticsearchClient.RecordFailure` | backend/src/app/configuration/resources/elasticsearch.ts:197-207 | one more failure; opens at the threshold unless already open |
| `CircuitBreaker.ElasticsearchClient.RequestJson` | backend/src/app/configuration/resources/elasticsearch.ts:93-190 | a fetch starts if and only if the client is configured and the breaker is not open; each fetch records one success, one failure or neither, whatever others record meanwhile |
| `CircuitBreaker.ReportExactly` | backend/src/app/configuration/resources/elasticsearch.ts:120-190 | a failure is an aborted or broken fetch and, save for a tolerated 404 and a 204, an unreadable body or a status of 500 and more; a success is a tolerated 404, a 204 or a readable 2xx |
| `CircuitBreaker.ReplyExactly` | backend/src/app/configuration/resources/elasticsearch.ts:120-190 | what the caller gets: the body, nothing, the status or unavailability, each exactly when |
| `CircuitBreaker.OpenExactly` | backend/src/app/configuration/resources/elasticsearch.ts:69-87 | open until the opening time, half-open from then on while the failures are at the threshold |
| `CircuitBreaker.FieldsMeanFailures` | backend/src/app/configuration/resources/elasticsearch.ts:192-207 | however requests overlap, the counter holds the failures since the last success, and an opening time is set exactly when these reached the threshold |
| `CircuitBreaker.NotedExactly` | backend/src/app/configuration/resources/elasticsearch.ts:192-207 | in every run a success clears the opening time, and a failure at the threshold sets a new one of one cooldown exactly when the breaker is not open |
| `CircuitBreaker.HalfOpenExactly` | backend/src/app/configuration/resources/elasticsearch.ts:73-87 | half-open means the threshold was reached since the last success and the cooldown is over |
| `CircuitBreaker.OpenOnlyAfterFailure` | backend/src/app/configuration/resources/elasticsearch.ts:197-207 | every opening time is one cooldown after a failure that was at least the threshold-th in a row and came while not open |
| `CircuitBreaker.OutageBound` | backend/src/app/configuration/resources/elasticsearch.ts:104-207 | from a reset breaker, failing requests taken one after another over a time T make at most threshold + floor(T / cooldown) fetches |

## Left out

- The cache service, `read-through-swr-cache.service.ts`, and the interleaving of lock flows are state machines over values, not classes: every await lets other calls run, so each step is a step of the machine.
- Failing store commands: Redis and database calls succeed in the cache, the locks and the bookings; only loaders, lock bodies and fetches fail. Redis eviction and deletion of unparsable entries are not modelled.
- Normalisation of cache namespaces and keys, and the early return for an empty key; cache keys are pairs, lock keys and limiter keys are taken as they are.
- The poll interval of a cache follower: time may pass by any amount between steps instead.
- A registration added after resolving has begun, factories that resolve undeclared tokens, and disposers that fail or run concurrently with resolving. One object holds a root and all its scopes.
- Containers that do not exist: the container methods take the number of an existing one, as the source can name no other.
- Floating-point rounding, the text form of numbers in Redis, clock skew and backward clock jumps.
- The rate-limit policy table, request identity, headers and the logging cooldown; a policy is fixed per key.
- XML line-end normalisation, illegal control characters, cyclic values and invalid dates; the Accept header.
- The uncapped `create` of booking requests, listing and pagination, and every transition of the payments and rentings services; the booking theorems start from any tables and cover runs of the repository's own operations.
- The several clock readings inside one booking transaction, which are one instant here.
- bcrypt, one-time codes, tokens, devices and e-mails: a password or code check is a flag, a hash is any text of bcrypt form.
- Racing read-modify-write in the authentication service: each operation is one step. Lower-casing is for ASCII letters.
- Metrics and logging of the search client, and its authorisation header.
