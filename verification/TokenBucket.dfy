/** The token-bucket limiter in both of its forms, over exact rationals. Times are milliseconds. */
module TokenBucket {
  import opened SlidingWindow

  type Rate = r: real | r > 0.0 witness 1.0

  type Capacity = r: real | r >= 1.0 witness 1.0

  datatype BucketPolicy = BucketPolicy(capacity: Capacity, rate: Rate)

  datatype Bucket = Bucket(tokens: real, lastRefillMs: int, expiresAtMs: int)

  datatype Slot = Missing | Found(bucket: Bucket)

  function Ceil(x: real): int {
    -((-x).Floor)
  }

  /** What refilling for `ms` milliseconds adds, before the cap. */
  function Earned(p: BucketPolicy, ms: int): real {
    ms as real / 1000.0 * p.rate
  }

  function TtlMs(p: BucketPolicy): int {
    Max(Ceil(p.capacity / p.rate * 1000.0 * 2.0), 1000)
  }

  function AtMost(cap: real, x: real): real {
    if x < cap then x else cap
  }

  /** The tokens a request at `now` finds. */
  function Level(slot: Slot, p: BucketPolicy, now: int): real {
    var tokens := if slot.Found? then slot.bucket.tokens else p.capacity;
    var last := if slot.Found? then slot.bucket.lastRefillMs else now;
    AtMost(p.capacity, tokens + Earned(p, Max(0, now - last)))
  }

  // ----- the in-memory form -----

  function MemoryStep(slot: Slot, p: BucketPolicy, now: int): (Slot, Decision) {
    var tokens := Level(slot, p, now);
    if tokens < 1.0 then
      (Found(Bucket(tokens, now, now + TtlMs(p))),
       Decision(false, Max(0, tokens.Floor), Max(1, Ceil((1.0 - tokens) / p.rate))))
    else
      (Found(Bucket(tokens - 1.0, now, now + TtlMs(p))), Decision(true, Max(0, (tokens - 1.0).Floor), 0))
  }

  /** One entry's part of the pruning sweep. */
  function Pruned(slot: Slot, now: int): Slot {
    if slot.Found? && slot.bucket.expiresAtMs <= now then Missing else slot
  }

  // ----- the stored-script form: a hash that expires -----

  function RedisStep(slot: Slot, p: BucketPolicy, now: int): (Slot, Decision) {
    var live := if slot.Found? && now < slot.bucket.expiresAtMs then slot else Missing;
    var tokens := Level(live, p, now);
    if tokens < 1.0 then
      var retryMs := Ceil((1.0 - tokens) / p.rate * 1000.0);
      (Found(Bucket(tokens, now, now + TtlMs(p))), Decision(false, tokens.Floor, CeilSeconds(Max(1, retryMs))))
    else
      (Found(Bucket(tokens - 1.0, now, now + TtlMs(p))), Decision(true, (tokens - 1.0).Floor, 0))
  }

  // ----- arithmetic -----

  lemma EarnedAdds(p: BucketPolicy, a: int, b: int)
    ensures Earned(p, a + b) == Earned(p, a) + Earned(p, b)
    ensures Earned(p, 0) == 0.0
  {
  }

  lemma EarnedGrows(p: BucketPolicy, a: int, b: int)
    requires a <= b
    ensures Earned(p, a) <= Earned(p, b)
  {
    var x, y := a as real / 1000.0, b as real / 1000.0;
    assert (y - x) * p.rate >= 0.0;
  }

  lemma DivideTimes(a: real, r: Rate)
    ensures a / r * r == a
  {
  }

  /** An entry lives long enough to refill from empty. */
  lemma TtlRefills(p: BucketPolicy)
    ensures Earned(p, TtlMs(p)) >= p.capacity
  {
    var q := p.capacity / p.rate;
    DivideTimes(p.capacity, p.rate);
    assert q * p.rate == p.capacity;
    assert q > 0.0;
    assert TtlMs(p) as real >= 2000.0 * q;
    var seconds := TtlMs(p) as real / 1000.0;
    assert seconds >= q;
    assert (seconds - q) * p.rate >= 0.0;
  }

  /** It lives twice as long as that, rounded up to milliseconds, and at least a second. */
  lemma TtlExact(p: BucketPolicy)
    ensures var twice := 2.0 * (p.capacity / p.rate * 1000.0);
            && twice <= TtlMs(p) as real && 1000 <= TtlMs(p)
            && (TtlMs(p) > 1000 ==> TtlMs(p) as real < twice + 1.0)
  {
  }

  /** Rounding up to milliseconds and then to seconds is rounding up to seconds. */
  lemma CeilTwice(x: real)
    ensures CeilSeconds(Ceil(x * 1000.0)) == Ceil(x)
  {
    var n, m := Ceil(x), Ceil(x * 1000.0);
    assert (n - 1) as real < x <= n as real;
    assert (m - 1) as real < x * 1000.0 <= m as real;
    assert (n - 1) as real * 1000.0 < m as real;
    assert m as real < n as real * 1000.0 + 1.0;
    assert (1000 * (n - 1)) as real < m as real < (1000 * n + 1) as real;
    CeilSecondsBounds(m);
  }

  // ----- expiry -----

  ghost predicate Stored(slot: Slot, p: BucketPolicy, time: int) {
    slot.Found? ==>
      && 0.0 <= slot.bucket.tokens <= p.capacity
      && slot.bucket.lastRefillMs <= time
      && slot.bucket.expiresAtMs == slot.bucket.lastRefillMs + TtlMs(p)
  }

  lemma LevelBounds(slot: Slot, p: BucketPolicy, time: int, now: int)
    requires Stored(slot, p, time) && time <= now
    ensures 0.0 <= Level(slot, p, now) <= p.capacity
  {
    hide Earned, TtlMs;
    EarnedAdds(p, 0, 0);
    EarnedGrows(p, 0, if slot.Found? then now - slot.bucket.lastRefillMs else 0);
  }

  /** Dropping an expired entry is unobservable: it would be full again anyway. */
  lemma ExpiryUnobservable(slot: Slot, p: BucketPolicy, time: int, now: int)
    requires Stored(slot, p, time) && time <= now && slot.Found? && slot.bucket.expiresAtMs <= now
    ensures Level(slot, p, now) == p.capacity == Level(Missing, p, now)
  {
    hide Earned, TtlMs;
    EarnedAdds(p, 0, 0);
    TtlRefills(p);
    EarnedGrows(p, TtlMs(p), now - slot.bucket.lastRefillMs);
  }

  lemma PruningUnobservable(slot: Slot, p: BucketPolicy, time: int, prunedAt: int, now: int)
    requires Stored(slot, p, time) && time <= prunedAt <= now
    ensures Stored(Pruned(slot, prunedAt), p, time)
    ensures Level(Pruned(slot, prunedAt), p, now) == Level(slot, p, now)
    ensures MemoryStep(Pruned(slot, prunedAt), p, now) == MemoryStep(slot, p, now)
  {
    hide Level, TtlMs;
    if slot.Found? && slot.bucket.expiresAtMs <= prunedAt {
      ExpiryUnobservable(slot, p, time, now);
    }
  }

  /** On entries that hold the same level, both forms answer alike and store the same entry. */
  lemma {:induction false} StepsAgree(memory: Slot, redis: Slot, p: BucketPolicy, time: int, now: int)
    requires Stored(memory, p, time) && Stored(redis, p, time) && time <= now
    requires Level(memory, p, now) == Level(redis, p, now)
    ensures MemoryStep(memory, p, now) == RedisStep(redis, p, now)
    ensures Stored(MemoryStep(memory, p, now).0, p, now)
  {
    hide Level, TtlMs, Ceil, CeilSeconds;
    if redis.Found? && redis.bucket.expiresAtMs <= now {
      ExpiryUnobservable(redis, p, time, now);
    }
    var tokens := Level(memory, p, now);
    LevelBounds(memory, p, time, now);
    CeilTwice((1.0 - tokens) / p.rate);
    CeilSecondsAtLeastOne(Ceil((1.0 - tokens) / p.rate * 1000.0));
  }

  /** Levels grow at the refill rate up to the cap. */
  lemma LevelLater(slot: Slot, p: BucketPolicy, time: int, now: int)
    requires Stored(slot, p, time) && time <= now
    ensures Level(slot, p, now) == AtMost(p.capacity, Level(slot, p, time) + Earned(p, now - time))
  {
    hide Earned, TtlMs;
    EarnedAdds(p, 0, 0);
    EarnedGrows(p, 0, now - time);
    if slot.Found? {
      EarnedAdds(p, time - slot.bucket.lastRefillMs, now - time);
    }
  }
}
