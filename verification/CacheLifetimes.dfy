/** Lifetimes of read-through cache entries: jitter, rounding and the two deadlines. */
module CacheLifetimes {

  datatype Policy = Policy(
    freshTtlSeconds: real,
    staleTtlSeconds: real,
    rebuildLockTtlMs: int,
    followerWaitTimeoutMs: int,
    negativeTtlSeconds: real,
    ttlJitterRatio: real)

  /** What the cache stores. `loadStart` and `loadGeneration` are history: the moment the loader of
      this value began and the generation at that moment; `direct` marks the timeout fallback. */
  datatype Envelope = Envelope(
    hit: bool,
    freshUntil: int,
    staleUntil: int,
    cachedAt: nat,
    loadStart: nat,
    loadGeneration: nat,
    direct: bool)

  function Max(a: int, b: int): int {
    if a < b then b else a
  }

  function Ceiling(x: real): int {
    -((-x).Floor)
  }

  /** Rounds halves upwards. */
  function Round(x: real): int {
    (x + 0.5).Floor
  }

  /** Date values drop fractions of a millisecond, towards zero. */
  function Truncate(x: real): int {
    if x >= 0.0 then x.Floor else Ceiling(x)
  }

  function TtlFactor(ratio: real, random: real): real {
    if ratio <= 0.0 then 1.0
    else
      var bounded := if random < 0.0 then 0.0 else if random > 1.0 then 1.0 else random;
      1.0 - ratio + bounded * (ratio * 2.0)
  }

  /** A lifetime in whole milliseconds after jitter. */
  function Jittered(p: Policy, ms: real, random: real): int {
    Round(ms * TtlFactor(p.ttlJitterRatio, random))
  }

  function FreshTtlMs(p: Policy, hit: bool, random: real): real {
    if !hit then p.negativeTtlSeconds * 1000.0
    else Max(1, Jittered(p, p.freshTtlSeconds * 1000.0, random)) as real
  }

  function StaleTtlMs(p: Policy, hit: bool, random: real): real {
    if !hit then p.negativeTtlSeconds * 1000.0
    else
      var young := Max(1, Jittered(p, p.freshTtlSeconds * 1000.0, random));
      Max(young, Jittered(p, p.staleTtlSeconds * 1000.0, random)) as real
  }

  function RedisTtlSeconds(p: Policy, hit: bool, random: real): int {
    Max(1, Ceiling(StaleTtlMs(p, hit, random) / 1000.0))
  }

  lemma TruncateMonotone(x: real, y: real)
    requires x <= y
    ensures Truncate(x) <= Truncate(y)
  {
  }

  lemma TruncateWhole(n: int)
    ensures Truncate(n as real) == n
  {
  }

  lemma CeilingBounds(x: real)
    ensures x <= Ceiling(x) as real < x + 1.0
  {
  }

  lemma Scaled(ms: real, a: real, b: real)
    requires ms >= 0.0 && a <= b
    ensures ms * a <= ms * b
  {
  }

  lemma FactorBounds(ratio: real, random: real)
    requires ratio >= 0.0
    ensures 1.0 - ratio <= TtlFactor(ratio, random) <= 1.0 + ratio
  {
    if ratio > 0.0 {
      var bounded := if random < 0.0 then 0.0 else if random > 1.0 then 1.0 else random;
      Scaled(ratio * 2.0, 0.0, bounded);
      Scaled(ratio * 2.0, bounded, 1.0);
    }
  }

  /** A ratio that is not positive means no jitter. */
  function RatioOf(p: Policy): real {
    if p.ttlJitterRatio <= 0.0 then 0.0 else p.ttlJitterRatio
  }

  lemma FactorOf(p: Policy, random: real)
    ensures 1.0 - RatioOf(p) <= TtlFactor(p.ttlJitterRatio, random) <= 1.0 + RatioOf(p)
    ensures random <= 0.0 ==> TtlFactor(p.ttlJitterRatio, random) == 1.0 - RatioOf(p)
    ensures random >= 1.0 ==> TtlFactor(p.ttlJitterRatio, random) == 1.0 + RatioOf(p)
  {
    FactorBounds(RatioOf(p), random);
  }

  lemma Rounded(x: real, lo: real, hi: real)
    requires lo <= x <= hi
    ensures lo - 0.5 <= Round(x) as real <= hi + 0.5
  {
  }

  /** Jitter moves a lifetime by at most the ratio either way, and reaches both ends. */
  lemma JitterBounds(p: Policy, ms: real, random: real)
    requires ms >= 0.0
    ensures ms * (1.0 - RatioOf(p)) - 0.5 <= Jittered(p, ms, random) as real <= ms * (1.0 + RatioOf(p)) + 0.5
    ensures random <= 0.0 ==> Jittered(p, ms, random) == Round(ms * (1.0 - RatioOf(p)))
    ensures random >= 1.0 ==> Jittered(p, ms, random) == Round(ms * (1.0 + RatioOf(p)))
  {
    hide *;
    var factor := TtlFactor(p.ttlJitterRatio, random);
    var lo, hi := ms * (1.0 - RatioOf(p)), ms * (1.0 + RatioOf(p));
    FactorOf(p, random);
    Scaled(ms, 1.0 - RatioOf(p), factor);
    Scaled(ms, factor, 1.0 + RatioOf(p));
    Rounded(ms * factor, lo, hi);
    JitteredIs(p, ms, random, factor);
  }

  lemma JitteredIs(p: Policy, ms: real, random: real, factor: real)
    requires factor == TtlFactor(p.ttlJitterRatio, random)
    ensures Jittered(p, ms, random) == Round(ms * factor)
  {
  }

  /** A value's lifetimes are the configured ones to within the jitter ratio and half a millisecond, never
      below a millisecond and the stale one never below the fresh one; absence lives as configured. */
  lemma LifetimesAsConfigured(p: Policy, random: real)
    requires p.freshTtlSeconds >= 0.0 && p.staleTtlSeconds >= 0.0
    ensures var young, stale := FreshTtlMs(p, true, random), StaleTtlMs(p, true, random);
            var ratio := RatioOf(p);
            && 1.0 <= young <= stale
            && p.freshTtlSeconds * 1000.0 * (1.0 - ratio) - 0.5 <= young
            && (young > 1.0 ==> young <= p.freshTtlSeconds * 1000.0 * (1.0 + ratio) + 0.5)
            && p.staleTtlSeconds * 1000.0 * (1.0 - ratio) - 0.5 <= stale
            && (stale > young ==> stale <= p.staleTtlSeconds * 1000.0 * (1.0 + ratio) + 0.5)
    ensures FreshTtlMs(p, false, random) == StaleTtlMs(p, false, random) == p.negativeTtlSeconds * 1000.0
  {
    hide Jittered, RatioOf;
    JitterBounds(p, p.freshTtlSeconds * 1000.0, random);
    JitterBounds(p, p.staleTtlSeconds * 1000.0, random);
  }

  /** For every policy and jitter: fresh lifetime <= stale lifetime <= lifetime in the store,
      values stay fresh at least a millisecond, and the absence of a value has no stale phase. */
  lemma LifetimesOrdered(p: Policy, hit: bool, random: real)
    ensures FreshTtlMs(p, hit, random) <= StaleTtlMs(p, hit, random)
    ensures StaleTtlMs(p, hit, random) <= 1000.0 * RedisTtlSeconds(p, hit, random) as real
    ensures hit ==> FreshTtlMs(p, hit, random) >= 1.0
    ensures !hit ==> FreshTtlMs(p, hit, random) == StaleTtlMs(p, hit, random)
  {
    hide Jittered;
    var stale := StaleTtlMs(p, hit, random);
    CeilingBounds(stale / 1000.0);
    assert stale / 1000.0 <= Ceiling(stale / 1000.0) as real;
  }

  /** Rounding the lifetime in the store up to seconds adds less than a second, except that it is never
      below one second. */
  lemma StoreLifetimeRounds(p: Policy, hit: bool, random: real)
    ensures var stale, kept := StaleTtlMs(p, hit, random), 1000 * RedisTtlSeconds(p, hit, random);
            if stale > 0.0 then kept as real < stale + 1000.0 else kept == 1000
  {
    hide Jittered;
    CeilingBounds(StaleTtlMs(p, hit, random) / 1000.0);
  }

  /** When the store has dropped the entry for certain, had it been written as soon as it was made. */
  function GoneBy(e: Envelope): int {
    Max(e.staleUntil, e.cachedAt) + 1000
  }

  lemma TruncatedAbove(k: int, x: real)
    requires k as real < x
    ensures k <= Truncate(x)
  {
  }

  /** The envelope `writeEntry` builds at time `now`. */
  function MakeEnvelope(p: Policy, hit: bool, random: real, now: nat,
                        loadStart: nat, loadGeneration: nat, direct: bool): (e: Envelope)
    ensures e == Envelope(hit, e.freshUntil, e.staleUntil, now, loadStart, loadGeneration, direct)
    ensures e.freshUntil <= e.staleUntil
    ensures !e.hit ==> e.freshUntil == e.staleUntil
    ensures e.hit ==> now < e.freshUntil
    ensures e.staleUntil <= now + 1000 * RedisTtlSeconds(p, hit, random) <= GoneBy(e)
  {
    hide Truncate, RedisTtlSeconds, StaleTtlMs, FreshTtlMs;
    LifetimesOrdered(p, hit, random);
    StoreLifetimeRounds(p, hit, random);
    var freshAt, staleAt := now as real + FreshTtlMs(p, hit, random), now as real + StaleTtlMs(p, hit, random);
    var kept := now + 1000 * RedisTtlSeconds(p, hit, random);
    TruncateMonotone(freshAt, staleAt);
    TruncateMonotone(staleAt, kept as real);
    TruncateMonotone((now + 1) as real, if hit then freshAt else (now + 1) as real);
    TruncateWhole(kept);
    TruncateWhole(now + 1);
    TruncatedAbove(if StaleTtlMs(p, hit, random) > 0.0 then kept - 1000 else staleAt.Floor - 1, staleAt);
    Envelope(hit, Truncate(freshAt), Truncate(staleAt), now, loadStart, loadGeneration, direct)
  }

  lemma TruncateBounds(x: real)
    ensures x - 1.0 < Truncate(x) as real < x + 1.0
    ensures x == x.Floor as real ==> Truncate(x) as real == x
  {
  }

  /** A value's deadlines are its lifetimes from now on, to the millisecond; those of an absence drop a
      fraction of one. */
  lemma DeadlinesExact(p: Policy, hit: bool, random: real, now: nat, loadStart: nat, loadGeneration: nat, direct: bool)
    ensures var e := MakeEnvelope(p, hit, random, now, loadStart, loadGeneration, direct);
            var freshAt := now as real + FreshTtlMs(p, hit, random);
            var staleAt := now as real + StaleTtlMs(p, hit, random);
            && e.hit == hit
            && freshAt - 1.0 < e.freshUntil as real < freshAt + 1.0
            && staleAt - 1.0 < e.staleUntil as real < staleAt + 1.0
            && (hit ==> e.freshUntil as real == freshAt && e.staleUntil as real == staleAt)
            && (freshAt >= 0.0 ==> e.freshUntil as real <= freshAt)
  {
    hide Truncate, Jittered;
    var freshAt, staleAt := now as real + FreshTtlMs(p, hit, random), now as real + StaleTtlMs(p, hit, random);
    ValuesAreWhole(p, random, now);
    hide FreshTtlMs, StaleTtlMs, RedisTtlSeconds;
    TruncateBounds(freshAt);
    TruncateBounds(staleAt);
    TruncateDown(freshAt);
  }

  lemma ValuesAreWhole(p: Policy, random: real, now: nat)
    ensures var freshAt := now as real + FreshTtlMs(p, true, random);
            var staleAt := now as real + StaleTtlMs(p, true, random);
            freshAt == freshAt.Floor as real && staleAt == staleAt.Floor as real
  {
    hide Jittered, Max;
    var young := Max(1, Jittered(p, p.freshTtlSeconds * 1000.0, random));
    SumIsWhole(now, young);
    SumIsWhole(now, Max(young, Jittered(p, p.staleTtlSeconds * 1000.0, random)));
  }

  lemma SumIsWhole(m: int, n: int)
    ensures (m as real + n as real).Floor == m + n
  {
  }

  lemma TruncateDown(x: real)
    ensures x >= 0.0 ==> Truncate(x) as real <= x
  {
  }
}
