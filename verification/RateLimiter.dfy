/** The rate limiter's operations on its two stores: Redis, whose scripts run atomically, and the
    process's own tables, used when Redis cannot be reached. */
module RateLimiter {
  import S = SlidingWindow
  import T = TokenBucket
  import opened SlidingWindowTheorems
  import opened TokenBucketTheorems

  datatype Strategy = SlidingWindowStrategy | TokenBucketStrategy

  datatype Policy = Policy(strategy: Strategy, window: S.WindowPolicy, bucket: T.BucketPolicy)

  /** How the script call ends: with a reply, with an error that names the connection, or otherwise. */
  datatype Connection = Up | Unreachable | Failing

  datatype Backend = Memory | Redis

  datatype Evaluation = Evaluated(backend: Backend, result: S.Decision) | Thrown

  class RateLimiter {
    var slidingWindowMemoryStore: map<string, seq<int>>
    var tokenBucketMemoryStore: map<string, T.Bucket>
    var redisSets: map<string, S.SortedSet>
    var redisBuckets: map<string, T.Bucket>

    constructor ()
      ensures slidingWindowMemoryStore == map[] && tokenBucketMemoryStore == map[]
      ensures redisSets == map[] && redisBuckets == map[]
    {
      slidingWindowMemoryStore, tokenBucketMemoryStore := map[], map[];
      redisSets, redisBuckets := map[], map[];
    }

    method EvaluateSlidingWindow(key: string, p: S.WindowPolicy, now: nat) returns (d: S.Decision)
      modifies this`redisSets
      ensures var (z, d') := S.RedisStep(At(old(redisSets), key, S.NO_SET), p, now);
              d == d' && redisSets == old(redisSets)[key := z]
    {
      var windowStart := now - p.windowMs;
      var expired := key !in redisSets || redisSets[key].expiresAt <= now;
      var z := if expired then S.NO_SET else redisSets[key];
      z := z.(scores := S.RemoveRangeByScore(z.scores, windowStart));
      var current := |z.scores|;
      if current >= p.limit {
        var retryMs: int := p.windowMs;
        if z.scores != [] {
          retryMs := S.Max(1, z.scores[0] + p.windowMs - now);
        }
        redisSets := redisSets[key := z];
        return S.Decision(false, 0, S.CeilSeconds(retryMs));
      }
      redisSets := redisSets[key := S.SortedSet(S.AddScore(z.scores, now), now + p.windowMs)];
      d := S.Decision(true, p.limit - current - 1, 0);
    }

    method EvaluateSlidingWindowInMemory(key: string, p: S.WindowPolicy, now: nat) returns (d: S.Decision)
      modifies this`slidingWindowMemoryStore
      ensures var (entries, d') := S.MemoryStep(At(old(slidingWindowMemoryStore), key, []), p, now);
              d == d' && slidingWindowMemoryStore == old(slidingWindowMemoryStore)[key := entries]
    {
      var windowStart := now - p.windowMs;
      var entries := if key in slidingWindowMemoryStore then slidingWindowMemoryStore[key] else [];
      var activeEntries := S.After(entries, windowStart);
      if |activeEntries| >= p.limit {
        var oldestTimestamp: int := now;
        if activeEntries != [] {
          oldestTimestamp := activeEntries[0];
        }
        slidingWindowMemoryStore := slidingWindowMemoryStore[key := activeEntries];
        return S.Decision(false, 0, S.Max(1, S.CeilSeconds(oldestTimestamp + p.windowMs - now)));
      }
      activeEntries := activeEntries + [now];
      slidingWindowMemoryStore := slidingWindowMemoryStore[key := activeEntries];
      d := S.Decision(true, S.Max(0, p.limit - |activeEntries|), 0);
    }

    method EvaluateTokenBucket(key: string, p: T.BucketPolicy, now: nat) returns (d: S.Decision)
      modifies this`redisBuckets
      ensures var (slot, d') := T.RedisStep(SlotOf(old(redisBuckets), key), p, now);
              d == d' && slot.Found? && redisBuckets == old(redisBuckets)[key := slot.bucket]
    {
      hide T.TtlMs, T.Earned, T.Ceil;
      var tokens: real, lastRefillMs: int := p.capacity, now;
      if key in redisBuckets && now < redisBuckets[key].expiresAtMs {
        tokens, lastRefillMs := redisBuckets[key].tokens, redisBuckets[key].lastRefillMs;
      }
      var elapsedMs := S.Max(0, now - lastRefillMs);
      tokens := T.AtMost(p.capacity, tokens + T.Earned(p, elapsedMs));
      if tokens < 1.0 {
        redisBuckets := redisBuckets[key := T.Bucket(tokens, now, now + T.TtlMs(p))];
        var retryMs := T.Ceil((1.0 - tokens) / p.rate * 1000.0);
        return S.Decision(false, tokens.Floor, S.CeilSeconds(S.Max(1, retryMs)));
      }
      tokens := tokens - 1.0;
      redisBuckets := redisBuckets[key := T.Bucket(tokens, now, now + T.TtlMs(p))];
      d := S.Decision(true, tokens.Floor, 0);
    }

    method EvaluateTokenBucketInMemory(key: string, p: T.BucketPolicy, now: nat) returns (d: S.Decision)
      modifies this`tokenBucketMemoryStore
      ensures var (slot, d') := T.MemoryStep(SlotOf(old(tokenBucketMemoryStore), key), p, now);
              d == d' && slot.Found? && tokenBucketMemoryStore == old(tokenBucketMemoryStore)[key := slot.bucket]
    {
      hide T.TtlMs, T.Earned, T.Ceil;
      var tokens: real, lastRefillMs: int := p.capacity, now;
      if key in tokenBucketMemoryStore {
        tokens, lastRefillMs := tokenBucketMemoryStore[key].tokens, tokenBucketMemoryStore[key].lastRefillMs;
      }
      var elapsedMs := S.Max(0, now - lastRefillMs);
      tokens := T.AtMost(p.capacity, tokens + T.Earned(p, elapsedMs));
      if tokens < 1.0 {
        tokenBucketMemoryStore := tokenBucketMemoryStore[key := T.Bucket(tokens, now, now + T.TtlMs(p))];
        return S.Decision(false, S.Max(0, tokens.Floor), S.Max(1, T.Ceil((1.0 - tokens) / p.rate)));
      }
      tokens := tokens - 1.0;
      lastRefillMs := now;
      tokenBucketMemoryStore := tokenBucketMemoryStore[key := T.Bucket(tokens, lastRefillMs, now + T.TtlMs(p))];
      d := S.Decision(true, S.Max(0, tokens.Floor), 0);
    }

    /** Deletes expired buckets one by one while walking the table. */
    method PruneExpiredMemoryEntries(now: nat)
      modifies this`tokenBucketMemoryStore
      ensures tokenBucketMemoryStore == PrunedTable(old(tokenBucketMemoryStore), now)
      ensures forall k :: k in tokenBucketMemoryStore <==>
                k in old(tokenBucketMemoryStore) && now < old(tokenBucketMemoryStore)[k].expiresAtMs
      ensures forall k :: k in tokenBucketMemoryStore ==>
                tokenBucketMemoryStore[k] == old(tokenBucketMemoryStore)[k]
    {
      var keys := tokenBucketMemoryStore.Keys;
      while keys != {}
        invariant forall k :: k in tokenBucketMemoryStore <==>
                    && k in old(tokenBucketMemoryStore)
                    && (k in keys || !(old(tokenBucketMemoryStore)[k].expiresAtMs <= now))
        invariant forall k :: k in tokenBucketMemoryStore ==>
                    tokenBucketMemoryStore[k] == old(tokenBucketMemoryStore)[k]
        invariant keys <= tokenBucketMemoryStore.Keys
        decreases |keys|
      {
        var key :| key in keys;
        if tokenBucketMemoryStore[key].expiresAtMs <= now {
          tokenBucketMemoryStore := tokenBucketMemoryStore - {key};
        }
        keys := keys - {key};
      }
    }

    /** A request goes to Redis; only when Redis cannot be reached is it decided from the process's
        own tables, after a sweep of the buckets. */
    method EvaluateRateLimit(key: string, policy: Policy, now: nat, connection: Connection) returns (e: Evaluation)
      modifies this
      ensures connection.Failing? <==> e.Thrown?
      ensures e.Evaluated? ==> (e.backend.Redis? <==> connection.Up?)
      ensures redisSets == old(redisSets) || (connection.Up? && policy.strategy.SlidingWindowStrategy?)
      ensures redisBuckets == old(redisBuckets) || (connection.Up? && policy.strategy.TokenBucketStrategy?)
      ensures !connection.Unreachable? ==>
                slidingWindowMemoryStore == old(slidingWindowMemoryStore) &&
                tokenBucketMemoryStore == old(tokenBucketMemoryStore)
      ensures connection.Up? && policy.strategy.SlidingWindowStrategy? ==>
                var (z, d) := S.RedisStep(At(old(redisSets), key, S.NO_SET), policy.window, now);
                e.result == d && redisSets == old(redisSets)[key := z]
      ensures connection.Up? && policy.strategy.TokenBucketStrategy? ==>
                var (slot, d) := T.RedisStep(SlotOf(old(redisBuckets), key), policy.bucket, now);
                e.result == d && slot.Found? && redisBuckets == old(redisBuckets)[key := slot.bucket]
      ensures connection.Unreachable? && policy.strategy.SlidingWindowStrategy? ==>
                var (entries, d) := S.MemoryStep(At(old(slidingWindowMemoryStore), key, []), policy.window, now);
                e.result == d && slidingWindowMemoryStore == old(slidingWindowMemoryStore)[key := entries] &&
                tokenBucketMemoryStore == PrunedTable(old(tokenBucketMemoryStore), now)
      ensures connection.Unreachable? && policy.strategy.TokenBucketStrategy? ==>
                var swept := PrunedTable(old(tokenBucketMemoryStore), now);
                var (slot, d) := T.MemoryStep(SlotOf(swept, key), policy.bucket, now);
                e.result == d && slot.Found? && tokenBucketMemoryStore == swept[key := slot.bucket] &&
                slidingWindowMemoryStore == old(slidingWindowMemoryStore)
    {
      hide S.RedisStep, S.MemoryStep, T.RedisStep, T.MemoryStep, PrunedTable;
      var result: S.Decision;
      match connection {
        case Up =>
          if policy.strategy.SlidingWindowStrategy? {
            result := EvaluateSlidingWindow(key, policy.window, now);
          } else {
            result := EvaluateTokenBucket(key, policy.bucket, now);
          }
          e := Evaluated(Redis, result);
        case Failing =>
          e := Thrown;
        case Unreachable =>
          PruneExpiredMemoryEntries(now);
          if policy.strategy.SlidingWindowStrategy? {
            result := EvaluateSlidingWindowInMemory(key, policy.window, now);
          } else {
            result := EvaluateTokenBucketInMemory(key, policy.bucket, now);
          }
          e := Evaluated(Memory, result);
      }
    }
  }
}
