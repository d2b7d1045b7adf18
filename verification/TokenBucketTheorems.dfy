/** The token bucket's bound, its exact meaning, and the agreement of its two forms over whole traces. */
module TokenBucketTheorems {
  import S = SlidingWindow
  import opened TokenBucket
  import W = SlidingWindowTheorems

  /** A request on a key, with flags for the limiters it is put to, or a sweep on its own: a fallback
      of any kind sweeps the whole in-memory table first. */
  datatype Event = Asked(key: string, now: nat, memory: bool, redis: bool) | Swept(now: nat)

  datatype Buckets = Buckets(
    time: nat,
    memory: map<string, Bucket>,
    redis: map<string, Bucket>,
    memoryAdmitted: map<string, seq<int>>,
    redisAdmitted: map<string, seq<int>>,
    memoryLog: seq<S.Decision>,
    redisLog: seq<S.Decision>)

  const NEW_BUCKETS := Buckets(0, map[], map[], map[], map[], [], [])

  function SlotOf(table: map<string, Bucket>, key: string): Slot {
    if key in table then Found(table[key]) else Missing
  }

  function PrunedTable(table: map<string, Bucket>, now: int): map<string, Bucket> {
    map key | key in table && now < table[key].expiresAtMs :: table[key]
  }

  function Sweep(s: Buckets, now: nat): Buckets {
    s.(memory := PrunedTable(s.memory, now))
  }

  function AskMemory(p: BucketPolicy, s: Buckets, key: string, now: nat): Buckets {
    var (slot, d) := MemoryStep(SlotOf(s.memory, key), p, now);
    s.(memory := if slot.Found? then s.memory[key := slot.bucket] else s.memory,
       memoryAdmitted := W.Admit(s.memoryAdmitted, key, now, d),
       memoryLog := s.memoryLog + [d])
  }

  function AskRedis(p: BucketPolicy, s: Buckets, key: string, now: nat): Buckets {
    var (slot, d) := RedisStep(SlotOf(s.redis, key), p, now);
    s.(redis := if slot.Found? then s.redis[key := slot.bucket] else s.redis,
       redisAdmitted := W.Admit(s.redisAdmitted, key, now, d),
       redisLog := s.redisLog + [d])
  }

  function Apply(policies: string -> BucketPolicy, s: Buckets, e: Event): Buckets {
    var s0 := s.(time := e.now);
    match e
    case Swept(now) => Sweep(s0, now)
    case Asked(key, now, memory, redis) =>
      var s1 := if memory then AskMemory(policies(key), Sweep(s0, now), key, now) else s0;
      if redis then AskRedis(policies(key), s1, key, now) else s1
  }

  function Run(policies: string -> BucketPolicy, trace: seq<Event>): Buckets {
    if trace == [] then NEW_BUCKETS
    else Apply(policies, Run(policies, trace[..|trace| - 1]), trace[|trace| - 1])
  }

  ghost predicate Ordered(trace: seq<Event>) {
    forall i, j :: 0 <= i < j < |trace| ==> trace[i].now <= trace[j].now
  }

  // ----- the meaning of a level -----

  /** The most that may be admitted from `start` up to `end`. */
  function Allowance(p: BucketPolicy, start: int, end: int): real {
    p.capacity + Earned(p, end - start)
  }

  function CountSince(admitted: seq<int>, start: int): nat {
    |S.After(admitted, start - 1)|
  }

  /** `level` more admissions would keep every interval ending now within its allowance ... */
  ghost predicate Fits(admitted: seq<int>, p: BucketPolicy, now: int, level: real) {
    forall s :: s <= now ==> CountSince(admitted, s) as real + level <= Allowance(p, s, now)
  }

  /** ... and would use up the allowance of one of them. */
  ghost predicate Tight(admitted: seq<int>, p: BucketPolicy, now: int, level: real) {
    exists s :: s <= now && CountSince(admitted, s) as real + level == Allowance(p, s, now)
  }

  /** Every interval that ends with an admission respects its allowance. */
  ghost predicate UnderCurve(admitted: seq<int>, p: BucketPolicy) {
    admitted != [] ==>
      UnderCurve(admitted[..|admitted| - 1], p) && Fits(admitted, p, admitted[|admitted| - 1], 0.0)
  }

  lemma NoneSince(admitted: seq<int>, time: int, s: int)
    requires W.Past(admitted, time) && time < s
    ensures CountSince(admitted, s) == 0
  {
    S.AfterNone(admitted, s - 1);
  }

  lemma TimePasses(admitted: seq<int>, p: BucketPolicy, time: int, now: int, level: real)
    requires W.Past(admitted, time) && time <= now
    requires Fits(admitted, p, time, level) && Tight(admitted, p, time, level)
    ensures var later := AtMost(p.capacity, level + Earned(p, now - time));
            Fits(admitted, p, now, later) && Tight(admitted, p, now, later)
  {
    hide Earned, CountSince, W.Past;
    EarnedAdds(p, 0, 0);
    var later := AtMost(p.capacity, level + Earned(p, now - time));
    forall s | s <= now ensures CountSince(admitted, s) as real + later <= Allowance(p, s, now) {
      if s <= time {
        EarnedAdds(p, time - s, now - time);
      } else {
        NoneSince(admitted, time, s);
        EarnedGrows(p, 0, now - s);
      }
    }
    var s0 :| s0 <= time && CountSince(admitted, s0) as real + level == Allowance(p, s0, time);
    if later == level + Earned(p, now - time) {
      EarnedAdds(p, time - s0, now - time);
      assert CountSince(admitted, s0) as real + later == Allowance(p, s0, now);
    } else {
      assert CountSince(admitted, time) as real + level <= Allowance(p, time, time) == p.capacity;
      assert time < now;
      NoneSince(admitted, time, now);
      assert CountSince(admitted, now) as real + later == Allowance(p, now, now);
    }
  }

  lemma CountPush(admitted: seq<int>, now: int, s: int)
    requires s <= now
    ensures CountSince(admitted + [now], s) == CountSince(admitted, s) + 1
  {
    S.AfterPush(admitted, now, s - 1);
  }

  lemma AdmissionSpends(admitted: seq<int>, p: BucketPolicy, now: int, level: real)
    requires Fits(admitted, p, now, level) && Tight(admitted, p, now, level)
    ensures Fits(admitted + [now], p, now, level - 1.0) && Tight(admitted + [now], p, now, level - 1.0)
  {
    hide CountSince, Allowance;
    var more := admitted + [now];
    forall s | s <= now ensures CountSince(more, s) as real + (level - 1.0) <= Allowance(p, s, now) {
      CountPush(admitted, now, s);
    }
    var s0 :| s0 <= now && CountSince(admitted, s0) as real + level == Allowance(p, s0, now);
    CountPush(admitted, now, s0);
    assert CountSince(more, s0) as real + (level - 1.0) == Allowance(p, s0, now);
  }

  // ----- the invariant of a trace -----

  ghost predicate Tracks(slot: Slot, admitted: seq<int>, p: BucketPolicy, time: int) {
    && Stored(slot, p, time)
    && W.Past(admitted, time)
    && UnderCurve(admitted, p)
    && Fits(admitted, p, time, Level(slot, p, time))
    && Tight(admitted, p, time, Level(slot, p, time))
  }

  lemma LaterTracks(slot: Slot, admitted: seq<int>, p: BucketPolicy, time: int, now: int)
    requires Tracks(slot, admitted, p, time) && time <= now
    ensures Tracks(slot, admitted, p, now)
  {
    hide Fits, Tight, UnderCurve, Level;
    TimePasses(admitted, p, time, now, Level(slot, p, time));
    LevelLater(slot, p, time, now);
  }

  lemma PrunedTracks(slot: Slot, admitted: seq<int>, p: BucketPolicy, now: int)
    requires Tracks(slot, admitted, p, now)
    ensures Tracks(Pruned(slot, now), admitted, p, now)
  {
    hide Fits, Tight, UnderCurve, Level, Pruned, Stored, MemoryStep;
    PruningUnobservable(slot, p, now, now, now);
  }

  lemma LevelWhenStored(p: BucketPolicy, tokens: real, now: int)
    requires tokens <= p.capacity
    ensures Level(Found(Bucket(tokens, now, now + TtlMs(p))), p, now) == tokens
  {
  }

  lemma StepShape(slot: Slot, p: BucketPolicy, now: int)
    ensures var (slot', d) := MemoryStep(slot, p, now);
            var level := Level(slot, p, now);
            && (d.allowed <==> level >= 1.0)
            && slot' == Found(Bucket(if d.allowed then level - 1.0 else level, now, now + TtlMs(p)))
  {
    hide Level, TtlMs, Ceil;
  }

  lemma UnderCurvePush(admitted: seq<int>, p: BucketPolicy, now: int, level: real)
    requires UnderCurve(admitted, p) && Fits(admitted + [now], p, now, level) && level >= 0.0
    ensures UnderCurve(admitted + [now], p)
  {
    hide Fits;
    var more := admitted + [now];
    assert more[..|more| - 1] == admitted;
    FitsLess(more, p, now, level, 0.0);
  }

  lemma StepTracks(slot: Slot, admitted: seq<int>, p: BucketPolicy, now: int)
    requires Tracks(slot, admitted, p, now)
    ensures var (slot', d) := MemoryStep(slot, p, now);
            Tracks(slot', if d.allowed then admitted + [now] else admitted, p, now)
  {
    hide Fits, Tight, UnderCurve, Level, MemoryStep, TtlMs;
    var level := Level(slot, p, now);
    LevelBounds(slot, p, now, now);
    StepShape(slot, p, now);
    if level >= 1.0 {
      LevelWhenStored(p, level - 1.0, now);
      AdmissionSpends(admitted, p, now, level);
      UnderCurvePush(admitted, p, now, level - 1.0);
    } else {
      LevelWhenStored(p, level, now);
    }
  }

  lemma FitsLess(admitted: seq<int>, p: BucketPolicy, now: int, level: real, less: real)
    requires Fits(admitted, p, now, level) && less <= level
    ensures Fits(admitted, p, now, less)
  {
    hide CountSince, Allowance;
  }

  ghost predicate KeyInv(p: BucketPolicy, s: Buckets, key: string) {
    && Tracks(SlotOf(s.memory, key), W.At(s.memoryAdmitted, key, []), p, s.time)
    && Tracks(SlotOf(s.redis, key), W.At(s.redisAdmitted, key, []), p, s.time)
  }

  lemma SweepKeeps(p: BucketPolicy, s: Buckets, key: string)
    requires KeyInv(p, s, key)
    ensures KeyInv(p, Sweep(s, s.time), key)
  {
    hide Tracks;
    PrunedTracks(SlotOf(s.memory, key), W.At(s.memoryAdmitted, key, []), p, s.time);
  }

  lemma AskMemoryKeeps(p: BucketPolicy, s: Buckets, key: string)
    requires KeyInv(p, s, key)
    ensures KeyInv(p, AskMemory(p, s, key, s.time), key)
  {
    hide Tracks, Level;
    StepTracks(SlotOf(s.memory, key), W.At(s.memoryAdmitted, key, []), p, s.time);
  }

  lemma RedisIsMemory(slot: Slot, admitted: seq<int>, p: BucketPolicy, time: int, now: int)
    requires Tracks(slot, admitted, p, time) && time <= now
    ensures RedisStep(slot, p, now) == MemoryStep(slot, p, now)
  {
    hide Level, UnderCurve, Fits, Tight;
    StepsAgree(slot, slot, p, time, now);
  }

  lemma AskRedisKeeps(p: BucketPolicy, s: Buckets, key: string)
    requires KeyInv(p, s, key)
    ensures KeyInv(p, AskRedis(p, s, key, s.time), key)
  {
    hide Tracks, Level, RedisStep;
    RedisIsMemory(SlotOf(s.redis, key), W.At(s.redisAdmitted, key, []), p, s.time, s.time);
    StepTracks(SlotOf(s.redis, key), W.At(s.redisAdmitted, key, []), p, s.time);
  }

  lemma LaterKeyInv(p: BucketPolicy, s: Buckets, key: string, now: nat)
    requires KeyInv(p, s, key) && s.time <= now
    ensures KeyInv(p, s.(time := now), key)
  {
    hide Tracks;
    LaterTracks(SlotOf(s.memory, key), W.At(s.memoryAdmitted, key, []), p, s.time, now);
    LaterTracks(SlotOf(s.redis, key), W.At(s.redisAdmitted, key, []), p, s.time, now);
  }

  /** The stores agree on what they hold for a key. */
  predicate SameAt(s: Buckets, s': Buckets, key: string) {
    && s'.time == s.time
    && SlotOf(s'.memory, key) == SlotOf(s.memory, key)
    && SlotOf(s'.redis, key) == SlotOf(s.redis, key)
    && W.At(s'.memoryAdmitted, key, []) == W.At(s.memoryAdmitted, key, [])
    && W.At(s'.redisAdmitted, key, []) == W.At(s.redisAdmitted, key, [])
  }

  lemma AskLeavesOthers(p: BucketPolicy, s: Buckets, asked: string, now: nat, key: string)
    requires key != asked
    ensures SameAt(s, AskMemory(p, s, asked, now), key) && SameAt(s, AskRedis(p, s, asked, now), key)
  {
    hide MemoryStep, RedisStep;
  }

  lemma SameKeyInv(p: BucketPolicy, s: Buckets, s': Buckets, key: string)
    requires KeyInv(p, s, key) && SameAt(s, s', key)
    ensures KeyInv(p, s', key)
  {
    hide Tracks;
  }

  lemma ApplyKeeps(policies: string -> BucketPolicy, s: Buckets, e: Event)
    requires (forall k :: KeyInv(policies(k), s, k)) && s.time <= e.now
    ensures forall k :: KeyInv(policies(k), Apply(policies, s, e), k)
  {
    hide KeyInv, AskMemory, AskRedis, SameAt;
    var s0 := s.(time := e.now);
    forall k ensures KeyInv(policies(k), Apply(policies, s, e), k) {
      var p := policies(k);
      LaterKeyInv(p, s, k, e.now);
      SweepKeeps(p, s0, k);
      if e.Asked? {
        var swept := Sweep(s0, e.now);
        var s1 := if e.memory then AskMemory(policies(e.key), swept, e.key, e.now) else s0;
        if k == e.key {
          AskMemoryKeeps(p, swept, k);
          AskMemoryTime(p, swept, k, e.now);
          AskRedisKeeps(p, s1, k);
        } else {
          AskLeavesOthers(policies(e.key), swept, e.key, e.now, k);
          SameKeyInv(p, swept, AskMemory(policies(e.key), swept, e.key, e.now), k);
          AskLeavesOthers(policies(e.key), s1, e.key, e.now, k);
          SameKeyInv(p, s1, AskRedis(policies(e.key), s1, e.key, e.now), k);
        }
      }
    }
  }

  lemma AskMemoryTime(p: BucketPolicy, s: Buckets, key: string, now: nat)
    ensures AskMemory(p, s, key, now).time == s.time
  {
    hide MemoryStep;
  }

  lemma NewTracks(p: BucketPolicy)
    ensures Tracks(Missing, [], p, 0)
  {
    EarnedAdds(p, 0, 0);
    forall s | s <= 0 ensures CountSince([], s) as real + p.capacity <= Allowance(p, s, 0) {
      EarnedGrows(p, 0, -s);
    }
    assert CountSince([], 0) as real + p.capacity == Allowance(p, 0, 0);
  }

  lemma {:induction false} RunKeeps(policies: string -> BucketPolicy, trace: seq<Event>)
    requires Ordered(trace)
    ensures forall k :: KeyInv(policies(k), Run(policies, trace), k)
    ensures Run(policies, trace).time == if trace == [] then 0 else trace[|trace| - 1].now
  {
    hide KeyInv, AskMemory, AskRedis, Tracks;
    if trace == [] {
      forall k ensures KeyInv(policies(k), NEW_BUCKETS, k) {
        StartsTracking(policies(k), k);
      }
    } else {
      RunKeeps(policies, trace[..|trace| - 1]);
      ApplyKeeps(policies, Run(policies, trace[..|trace| - 1]), trace[|trace| - 1]);
      ApplyTime(policies, Run(policies, trace[..|trace| - 1]), trace[|trace| - 1]);
    }
  }

  lemma StartsTracking(p: BucketPolicy, key: string)
    ensures KeyInv(p, NEW_BUCKETS, key)
  {
    hide Tracks;
    NewTracks(p);
  }

  lemma ApplyTime(policies: string -> BucketPolicy, s: Buckets, e: Event)
    ensures Apply(policies, s, e).time == e.now
  {
    hide MemoryStep, RedisStep;
  }

  // ----- theorems -----

  /** Tokens stay within the capacity after every trace. */
  lemma {:induction false} TokensInRange(policies: string -> BucketPolicy, trace: seq<Event>, key: string)
    requires Ordered(trace)
    ensures var s := Run(policies, trace);
            (key in s.memory ==> 0.0 <= s.memory[key].tokens <= policies(key).capacity) &&
            (key in s.redis ==> 0.0 <= s.redis[key].tokens <= policies(key).capacity)
  {
    hide Level, Fits, Tight, UnderCurve, Run, TtlMs;
    RunKeeps(policies, trace);
    assert KeyInv(policies(key), Run(policies, trace), key);
  }

  lemma {:induction false} CurveEverywhere(admitted: seq<int>, p: BucketPolicy, s: int, t: int)
    requires S.Ascending(admitted) && UnderCurve(admitted, p) && s <= t
    ensures W.CountIn(admitted, s - 1, t) as real <= Allowance(p, s, t)
  {
    hide Fits, Earned, S.After;
    EarnedAdds(p, 0, 0);
    EarnedGrows(p, 0, t - s);
    if admitted != [] {
      var last := admitted[|admitted| - 1];
      if t < last {
        CurveEverywhere(admitted[..|admitted| - 1], p, s, t);
      } else {
        W.CountIsAfter(admitted, s - 1, t);
        if last < s {
          NoneSince(admitted, last, s);
        } else {
          FitsAt(admitted, p, last, s);
          EarnedGrows(p, last - s, t - s);
        }
      }
    }
  }

  lemma FitsAt(admitted: seq<int>, p: BucketPolicy, now: int, s: int)
    requires Fits(admitted, p, now, 0.0) && s <= now
    ensures CountSince(admitted, s) as real <= Allowance(p, s, now)
  {
  }

  /** Over any trace, the requests of a key that one limiter admits in [s, t] number at most the
      capacity plus what is refilled between s and t. */
  lemma AdmissionsUnderCurve(policies: string -> BucketPolicy, trace: seq<Event>, key: string, s: int, t: int)
    requires Ordered(trace) && s <= t
    ensures var run, p := Run(policies, trace), policies(key);
            var bound := p.capacity + p.rate * ((t - s) as real / 1000.0);
            W.CountIn(W.At(run.memoryAdmitted, key, []), s - 1, t) as real <= bound &&
            W.CountIn(W.At(run.redisAdmitted, key, []), s - 1, t) as real <= bound
  {
    hide Level, Fits, Tight, UnderCurve, Run, TtlMs, W.CountIn;
    RunKeeps(policies, trace);
    var run, p := Run(policies, trace), policies(key);
    assert KeyInv(p, run, key);
    CurveEverywhere(W.At(run.memoryAdmitted, key, []), p, s, t);
    CurveEverywhere(W.At(run.redisAdmitted, key, []), p, s, t);
  }

  /** With `n` more admissions now, those from `start` on would number more than the capacity plus what is
      refilled since. */
  predicate ExceedsFrom(admitted: seq<int>, p: BucketPolicy, start: int, now: int, n: int) {
    p.capacity + p.rate * ((now - start) as real / 1000.0) < (W.CountIn(admitted, start - 1, now) + n) as real
  }

  /** `n` more admissions now would break the bound of some interval ending now. */
  ghost predicate WouldExceed(admitted: seq<int>, p: BucketPolicy, now: int, n: int) {
    exists s :: s <= now && ExceedsFrom(admitted, p, s, now, n)
  }

  lemma AllowanceIsBound(admitted: seq<int>, p: BucketPolicy, start: int, now: int, n: int)
    requires W.Past(admitted, now)
    ensures ExceedsFrom(admitted, p, start, now, n) <==>
              Allowance(p, start, now) < CountSince(admitted, start) as real + n as real
  {
    hide W.Past;
    W.CountIsAfter(admitted, start - 1, now);
  }

  /** The level is how much more fits. */
  lemma LevelMeaning(slot: Slot, admitted: seq<int>, p: BucketPolicy, now: int, n: int)
    requires Tracks(slot, admitted, p, now)
    ensures Level(slot, p, now) < n as real <==> WouldExceed(admitted, p, now, n)
  {
    hide CountSince, Allowance, Level, UnderCurve, Stored, W.Past, ExceedsFrom;
    var level := Level(slot, p, now);
    if level < n as real {
      var s :| s <= now && CountSince(admitted, s) as real + level == Allowance(p, s, now);
      AllowanceIsBound(admitted, p, s, now, n);
    }
    if WouldExceed(admitted, p, now, n) {
      var s :| s <= now && ExceedsFrom(admitted, p, s, now, n);
      AllowanceIsBound(admitted, p, s, now, n);
    }
  }

  /** After every trace, a request is refused exactly when admitting it would exceed the allowance of
      some interval ending now: the bucket refuses no more than the bound forces it to. */
  lemma {:induction false} RefusedExactlyWhenExceeding(policies: string -> BucketPolicy, trace: seq<Event>,
                                                         key: string, now: nat)
    requires Ordered(trace) && Run(policies, trace).time <= now
    ensures var s, p := Run(policies, trace), policies(key);
            (!MemoryStep(SlotOf(s.memory, key), p, now).1.allowed <==>
               WouldExceed(W.At(s.memoryAdmitted, key, []), p, now, 1)) &&
            (!RedisStep(SlotOf(s.redis, key), p, now).1.allowed <==>
               WouldExceed(W.At(s.redisAdmitted, key, []), p, now, 1))
  {
    hide Tracks, MemoryStep, RedisStep, WouldExceed, Run, Level, TtlMs;
    RunKeeps(policies, trace);
    var s, p := Run(policies, trace), policies(key);
    assert KeyInv(p, s, key);
    var m, r := SlotOf(s.memory, key), SlotOf(s.redis, key);
    LaterTracks(m, W.At(s.memoryAdmitted, key, []), p, s.time, now);
    LaterTracks(r, W.At(s.redisAdmitted, key, []), p, s.time, now);
    LevelMeaning(m, W.At(s.memoryAdmitted, key, []), p, now, 1);
    LevelMeaning(r, W.At(s.redisAdmitted, key, []), p, now, 1);
    StepShape(m, p, now);
    StepShape(r, p, now);
    RedisIsMemory(r, W.At(s.redisAdmitted, key, []), p, now, now);
  }

  lemma StepRemaining(slot: Slot, p: BucketPolicy, now: int)
    requires Stored(slot, p, now)
    ensures var (slot', d) := MemoryStep(slot, p, now);
            d.remaining == Level(slot', p, now).Floor >= 0 && (d.allowed ==> d.retryAfterSeconds == 0)
  {
    hide Level, TtlMs, Stored;
    LevelBounds(slot, p, now, now);
    var level := Level(slot, p, now);
    LevelWhenStored(p, if level < 1.0 then level else level - 1.0, now);
  }

  lemma StepLeaves(slot: Slot, admitted: seq<int>, p: BucketPolicy, now: int)
    requires Tracks(slot, admitted, p, now)
    ensures var d := MemoryStep(slot, p, now).1;
            Leaves(d, if d.allowed then admitted + [now] else admitted, p, now)
  {
    hide MemoryStep, Level, TtlMs, Fits, Tight, UnderCurve, W.Past, WouldExceed, Stored;
    var (slot', d) := MemoryStep(slot, p, now);
    var admitted' := if d.allowed then admitted + [now] else admitted;
    StepRemaining(slot, p, now);
    StepTracks(slot, admitted, p, now);
    hide Tracks;
    LevelMeaning(slot', admitted', p, now, d.remaining);
    LevelMeaning(slot', admitted', p, now, d.remaining + 1);
  }

  /** What the decision leaves: as many more admissions fit now as it says remain, and not one more. */
  ghost predicate Leaves(d: S.Decision, admitted: seq<int>, p: BucketPolicy, now: int) {
    && 0 <= d.remaining
    && !WouldExceed(admitted, p, now, d.remaining) && WouldExceed(admitted, p, now, d.remaining + 1)
    && (d.allowed ==> d.retryAfterSeconds == 0)
  }

  /** After every trace, the remaining count a request is answered with is exact, in either form. */
  lemma {:induction false} RemainingExact(policies: string -> BucketPolicy, trace: seq<Event>, key: string, now: nat)
    requires Ordered(trace) && Run(policies, trace).time <= now
    ensures var s, p := Run(policies, trace), policies(key);
            var d := MemoryStep(SlotOf(s.memory, key), p, now).1;
            Leaves(d, W.At(W.Admit(s.memoryAdmitted, key, now, d), key, []), p, now)
    ensures var s, p := Run(policies, trace), policies(key);
            var d := RedisStep(SlotOf(s.redis, key), p, now).1;
            Leaves(d, W.At(W.Admit(s.redisAdmitted, key, now, d), key, []), p, now)
  {
    hide Tracks, MemoryStep, RedisStep, Leaves, Run;
    RunKeeps(policies, trace);
    var s, p := Run(policies, trace), policies(key);
    assert KeyInv(p, s, key);
    var m, r := SlotOf(s.memory, key), SlotOf(s.redis, key);
    LaterTracks(m, W.At(s.memoryAdmitted, key, []), p, s.time, now);
    LaterTracks(r, W.At(s.redisAdmitted, key, []), p, s.time, now);
    StepLeaves(m, W.At(s.memoryAdmitted, key, []), p, now);
    StepLeaves(r, W.At(s.redisAdmitted, key, []), p, now);
    RedisIsMemory(r, W.At(s.redisAdmitted, key, []), p, now, now);
  }

  /** The two tables hold the same level for every key. */
  ghost predicate SameLevels(policies: string -> BucketPolicy, s: Buckets) {
    forall k, t :: s.time <= t ==>
      Level(SlotOf(s.memory, k), policies(k), t) == Level(SlotOf(s.redis, k), policies(k), t)
  }

  lemma ApplyAgrees(policies: string -> BucketPolicy, s: Buckets, e: Event)
    requires (forall k :: KeyInv(policies(k), s, k)) && s.time <= e.now && SameLevels(policies, s)
    requires s.memoryAdmitted == s.redisAdmitted && s.memoryLog == s.redisLog
    requires e.Asked? ==> e.memory && e.redis
    ensures var s' := Apply(policies, s, e);
            SameLevels(policies, s') && s'.memoryLog == s'.redisLog && s'.memoryAdmitted == s'.redisAdmitted &&
            |s'.memoryLog| == |s.memoryLog| + if e.Asked? then 1 else 0
  {
    hide Level, MemoryStep, RedisStep, Stored;
    var s' := Apply(policies, s, e);
    var swept := Sweep(s.(time := e.now), e.now);
    forall k, t | e.now <= t
      ensures Level(SlotOf(swept.memory, k), policies(k), t) == Level(SlotOf(s.redis, k), policies(k), t)
    {
      assert KeyInv(policies(k), s, k);
      PruningUnobservable(SlotOf(s.memory, k), policies(k), s.time, e.now, t);
    }
    if e.Asked? {
      var p := policies(e.key);
      assert KeyInv(p, s, e.key);
      PruningUnobservable(SlotOf(s.memory, e.key), p, s.time, e.now, e.now);
      StepsAgree(SlotOf(swept.memory, e.key), SlotOf(s.redis, e.key), p, s.time, e.now);
    }
  }

  lemma {:induction false} LevelsAgree(policies: string -> BucketPolicy, trace: seq<Event>)
    requires Ordered(trace) && forall i :: 0 <= i < |trace| ==> trace[i].Asked? ==> trace[i].memory && trace[i].redis
    ensures var s := Run(policies, trace);
            SameLevels(policies, s) && s.memoryLog == s.redisLog && s.memoryAdmitted == s.redisAdmitted
  {
    if trace != [] {
      hide KeyInv, SameLevels, Apply;
      var before := trace[..|trace| - 1];
      LevelsAgree(policies, before);
      RunKeeps(policies, before);
      ApplyAgrees(policies, Run(policies, before), trace[|trace| - 1]);
    }
  }

  /** How many events of a trace are requests. */
  function Requests(trace: seq<Event>): nat {
    if trace == [] then 0
    else Requests(trace[..|trace| - 1]) + if trace[|trace| - 1].Asked? then 1 else 0
  }

  /** On every trace put to both limiters, with sweeps anywhere, they give the same allowed flag,
      remaining count and retry seconds for every request. */
  lemma {:induction false} LimitersAgree(policies: string -> BucketPolicy, trace: seq<Event>)
    requires Ordered(trace) && forall i :: 0 <= i < |trace| ==> trace[i].Asked? ==> trace[i].memory && trace[i].redis
    ensures var s := Run(policies, trace);
            s.memoryLog == s.redisLog && |s.memoryLog| == Requests(trace) && s.memoryAdmitted == s.redisAdmitted
  {
    LevelsAgree(policies, trace);
    if trace != [] {
      hide KeyInv, SameLevels, Apply;
      var before := trace[..|trace| - 1];
      LimitersAgree(policies, before);
      LevelsAgree(policies, before);
      RunKeeps(policies, before);
      ApplyAgrees(policies, Run(policies, before), trace[|trace| - 1]);
    }
  }

  // ----- the advertised retry time -----

  lemma WaitRefills(p: BucketPolicy, level: real, n: nat)
    requires level < 1.0
    ensures level + Earned(p, 1000 * n) >= 1.0 <==> n >= Ceil((1.0 - level) / p.rate)
  {
    var x := (1.0 - level) / p.rate;
    DivideTimes(1.0 - level, p.rate);
    assert (1000 * n) as real / 1000.0 == n as real;
    assert Earned(p, 1000 * n) == n as real * p.rate;
    assert (n as real >= x) <==> n >= Ceil(x);
    if n as real >= x {
      assert (n as real - x) * p.rate >= 0.0;
    } else {
      assert (x - n as real) * p.rate > 0.0;
    }
  }

  /** If refused now, the same request is admitted after the advertised number of whole seconds and
      still refused one second earlier, with no other request on the key in between. */
  predicate MemoryRetryIsExact(slot: Slot, p: BucketPolicy, now: int) {
    var (slot', d) := MemoryStep(slot, p, now);
    !d.allowed ==>
      d.retryAfterSeconds >= 1 &&
      MemoryStep(slot', p, now + 1000 * d.retryAfterSeconds).1.allowed &&
      !MemoryStep(slot', p, now + 1000 * (d.retryAfterSeconds - 1)).1.allowed
  }

  predicate RedisRetryIsExact(slot: Slot, p: BucketPolicy, now: int) {
    var (slot', d) := RedisStep(slot, p, now);
    !d.allowed ==>
      d.retryAfterSeconds >= 1 &&
      RedisStep(slot', p, now + 1000 * d.retryAfterSeconds).1.allowed &&
      !RedisStep(slot', p, now + 1000 * (d.retryAfterSeconds - 1)).1.allowed
  }

  lemma RefusedForLevel(slot: Slot, p: BucketPolicy, time: int, now: int)
    requires Stored(slot, p, time) && time <= now && Level(slot, p, now) < 1.0
    ensures var (slot', d) := MemoryStep(slot, p, now);
            !d.allowed && d.retryAfterSeconds == Ceil((1.0 - Level(slot, p, now)) / p.rate) >= 1 &&
            Stored(slot', p, now) && Level(slot', p, now) == Level(slot, p, now)
  {
    hide Level, TtlMs;
    LevelBounds(slot, p, time, now);
    LevelWhenStored(p, Level(slot, p, now), now);
    DivideTimes(1.0 - Level(slot, p, now), p.rate);
    assert (1.0 - Level(slot, p, now)) / p.rate > 0.0;
  }

  lemma MemoryRetryExact(slot: Slot, p: BucketPolicy, time: int, now: int)
    requires Stored(slot, p, time) && time <= now
    ensures MemoryRetryIsExact(slot, p, now)
  {
    hide Level, Earned, TtlMs, Ceil;
    var level := Level(slot, p, now);
    if level < 1.0 {
      RefusedForLevel(slot, p, time, now);
      var (slot', d) := MemoryStep(slot, p, now);
      var n := d.retryAfterSeconds;
      WaitRefills(p, level, n);
      WaitRefills(p, level, n - 1);
      LevelLater(slot', p, now, now + 1000 * n);
      LevelLater(slot', p, now, now + 1000 * (n - 1));
    }
  }

  lemma RedisRetryExact(slot: Slot, p: BucketPolicy, time: int, now: int)
    requires Stored(slot, p, time) && time <= now
    ensures RedisRetryIsExact(slot, p, now)
  {
    hide Level, MemoryStep, RedisStep, Stored;
    StepsAgree(slot, slot, p, time, now);
    MemoryRetryExact(slot, p, time, now);
    var (slot', d) := MemoryStep(slot, p, now);
    if !d.allowed {
      StepsAgree(slot', slot', p, now, now + 1000 * d.retryAfterSeconds);
      StepsAgree(slot', slot', p, now, now + 1000 * (d.retryAfterSeconds - 1));
    }
  }

  /** The advertised retry time is exact in both forms, after every trace. */
  lemma {:induction false} RetryAfterExact(policies: string -> BucketPolicy, trace: seq<Event>, key: string, now: nat)
    requires Ordered(trace) && Run(policies, trace).time <= now
    ensures MemoryRetryIsExact(SlotOf(Run(policies, trace).memory, key), policies(key), now)
    ensures RedisRetryIsExact(SlotOf(Run(policies, trace).redis, key), policies(key), now)
  {
    hide Level, Fits, Tight, UnderCurve, Run, TtlMs, MemoryRetryIsExact, RedisRetryIsExact, Stored;
    RunKeeps(policies, trace);
    var s, p := Run(policies, trace), policies(key);
    assert KeyInv(p, s, key);
    MemoryRetryExact(SlotOf(s.memory, key), p, s.time, now);
    RedisRetryExact(SlotOf(s.redis, key), p, s.time, now);
  }
}
