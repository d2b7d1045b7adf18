/** Bounds, exactness and agreement of the two sliding-window limiters over whole traces. */
module SlidingWindowTheorems {
  import opened SlidingWindow

  /** A request on a key; the flags say which limiters it is put to. With Redis up it is put to the
      script alone, on fallback to the in-memory form alone. */
  datatype Request = Request(key: string, now: nat, memory: bool, redis: bool)

  /** Both stores; the admissions and decisions so far are history. */
  datatype Limiters = Limiters(
    time: nat,
    memory: map<string, seq<int>>,
    redis: map<string, SortedSet>,
    memoryAdmitted: map<string, seq<int>>,
    redisAdmitted: map<string, seq<int>>,
    memoryLog: seq<Decision>,
    redisLog: seq<Decision>)

  const NEW_LIMITERS := Limiters(0, map[], map[], map[], map[], [], [])

  function At<T>(m: map<string, T>, key: string, absent: T): T {
    if key in m then m[key] else absent
  }

  function Admit(admitted: map<string, seq<int>>, key: string, now: nat, d: Decision): map<string, seq<int>> {
    if d.allowed then admitted[key := At(admitted, key, []) + [now]] else admitted
  }

  function AskMemory(p: WindowPolicy, s: Limiters, key: string, now: nat): Limiters {
    var (entries, d) := MemoryStep(At(s.memory, key, []), p, now);
    s.(memory := s.memory[key := entries], memoryAdmitted := Admit(s.memoryAdmitted, key, now, d),
       memoryLog := s.memoryLog + [d])
  }

  function AskRedis(p: WindowPolicy, s: Limiters, key: string, now: nat): Limiters {
    var (z, d) := RedisStep(At(s.redis, key, NO_SET), p, now);
    s.(redis := s.redis[key := z], redisAdmitted := Admit(s.redisAdmitted, key, now, d),
       redisLog := s.redisLog + [d])
  }

  function Ask(policies: string -> WindowPolicy, s: Limiters, r: Request): Limiters {
    var s1 := if r.memory then AskMemory(policies(r.key), s, r.key, r.now) else s;
    var s2 := if r.redis then AskRedis(policies(r.key), s1, r.key, r.now) else s1;
    s2.(time := r.now)
  }

  function Run(policies: string -> WindowPolicy, trace: seq<Request>): Limiters {
    if trace == [] then NEW_LIMITERS
    else Ask(policies, Run(policies, trace[..|trace| - 1]), trace[|trace| - 1])
  }

  /** Time does not run backwards. */
  ghost predicate Ordered(trace: seq<Request>) {
    forall i, j :: 0 <= i < j < |trace| ==> trace[i].now <= trace[j].now
  }

  // ----- the window bound of the reference -----

  /** How many admissions lie in (lo, hi]. */
  function CountIn(admitted: seq<int>, lo: int, hi: int): nat {
    if admitted == [] then 0
    else
      var last := admitted[|admitted| - 1];
      CountIn(admitted[..|admitted| - 1], lo, hi) + if lo < last <= hi then 1 else 0
  }

  /** Up to each admission, the window ending there holds at most `limit`. */
  ghost predicate Bounded(admitted: seq<int>, p: WindowPolicy) {
    admitted != [] ==>
      Bounded(admitted[..|admitted| - 1], p) &&
      |After(admitted, admitted[|admitted| - 1] - p.windowMs)| <= p.limit
  }

  ghost predicate Past(admitted: seq<int>, time: int) {
    Ascending(admitted) && (admitted != [] ==> admitted[|admitted| - 1] <= time)
  }

  lemma {:induction false} CountIsAfter(admitted: seq<int>, lo: int, hi: int)
    requires Past(admitted, hi)
    ensures CountIn(admitted, lo, hi) == |After(admitted, lo)|
  {
    if admitted != [] {
      CountIsAfter(admitted[..|admitted| - 1], lo, hi);
    }
  }

  /** Hence every window, wherever it ends, holds at most `limit`. */
  lemma {:induction false} BoundedEverywhere(admitted: seq<int>, p: WindowPolicy, t: int)
    requires Ascending(admitted) && Bounded(admitted, p)
    ensures CountIn(admitted, t - p.windowMs, t) <= p.limit
  {
    if admitted != [] {
      hide After;
      var last := admitted[|admitted| - 1];
      if t < last {
        BoundedEverywhere(admitted[..|admitted| - 1], p, t);
      } else {
        CountIsAfter(admitted, t - p.windowMs, t);
        AfterAntitone(admitted, last - p.windowMs, t - p.windowMs);
      }
    }
  }

  lemma ReferenceKeepsBound(admitted: seq<int>, p: WindowPolicy, time: int, now: nat)
    requires Past(admitted, time) && Bounded(admitted, p) && time <= now
    ensures var (admitted', d) := ReferenceStep(admitted, p, now);
            Past(admitted', now) && Bounded(admitted', p) &&
            admitted' == (if d.allowed then admitted + [now] else admitted)
  {
    hide After, CeilSeconds, Past, Bounded;
    LaterPast(admitted, time, now);
    if |After(admitted, now - p.windowMs)| < p.limit {
      PushKeepsBound(admitted, p, now);
    }
  }

  lemma LaterPast(admitted: seq<int>, time: int, now: int)
    requires Past(admitted, time) && time <= now
    ensures Past(admitted, now)
  {
  }

  lemma PushKeepsBound(admitted: seq<int>, p: WindowPolicy, now: nat)
    requires Past(admitted, now) && Bounded(admitted, p) && |After(admitted, now - p.windowMs)| < p.limit
    ensures Past(admitted + [now], now) && Bounded(admitted + [now], p)
  {
    hide After;
    var more := admitted + [now];
    assert more[..|more| - 1] == admitted;
    AfterPush(admitted, now, now - p.windowMs);
  }

  // ----- the invariant of a trace -----

  ghost predicate KeyInv(p: WindowPolicy, s: Limiters, key: string) {
    && MemoryTracks(At(s.memory, key, []), At(s.memoryAdmitted, key, []), p, s.time)
    && RedisTracks(At(s.redis, key, NO_SET), At(s.redisAdmitted, key, []), p, s.time)
    && Past(At(s.memoryAdmitted, key, []), s.time) && Bounded(At(s.memoryAdmitted, key, []), p)
    && Past(At(s.redisAdmitted, key, []), s.time) && Bounded(At(s.redisAdmitted, key, []), p)
  }

  lemma LaterKeyInv(p: WindowPolicy, s: Limiters, key: string, now: nat)
    requires KeyInv(p, s, key) && s.time <= now
    ensures KeyInv(p, s.(time := now), key)
  {
  }

  lemma AskMemoryKeeps(p: WindowPolicy, s: Limiters, key: string)
    requires KeyInv(p, s, key)
    ensures KeyInv(p, AskMemory(p, s, key, s.time), key)
  {
    hide MemoryTracks, RedisTracks, Past, Bounded, MemoryStep, ReferenceStep;
    MemoryRefines(At(s.memory, key, []), At(s.memoryAdmitted, key, []), p, s.time, s.time);
    ReferenceKeepsBound(At(s.memoryAdmitted, key, []), p, s.time, s.time);
  }

  lemma AskRedisKeeps(p: WindowPolicy, s: Limiters, key: string)
    requires KeyInv(p, s, key)
    ensures KeyInv(p, AskRedis(p, s, key, s.time), key)
  {
    hide MemoryTracks, RedisTracks, Past, Bounded, RedisStep, ReferenceStep;
    RedisRefines(At(s.redis, key, NO_SET), At(s.redisAdmitted, key, []), p, s.time, s.time);
    ReferenceKeepsBound(At(s.redisAdmitted, key, []), p, s.time, s.time);
  }

  lemma AskKeeps(policies: string -> WindowPolicy, s: Limiters, r: Request)
    requires (forall k :: KeyInv(policies(k), s, k)) && s.time <= r.now
    ensures forall k :: KeyInv(policies(k), Ask(policies, s, r), k)
  {
    hide MemoryTracks, RedisTracks, Past, Bounded, RedisStep, MemoryStep;
    var p := policies(r.key);
    var s0 := s.(time := r.now);
    forall k ensures KeyInv(policies(k), Ask(policies, s, r), k) {
      LaterKeyInv(policies(k), s, k, r.now);
      if k == r.key {
        if r.memory { AskMemoryKeeps(p, s0, k); }
        var s1 := if r.memory then AskMemory(p, s0, k, r.now) else s0;
        if r.redis { AskRedisKeeps(p, s1, k); }
      }
    }
  }

  lemma {:induction false} RunKeeps(policies: string -> WindowPolicy, trace: seq<Request>)
    requires Ordered(trace)
    ensures forall k :: KeyInv(policies(k), Run(policies, trace), k)
    ensures trace != [] ==> Run(policies, trace).time == trace[|trace| - 1].now
    ensures trace == [] ==> Run(policies, trace).time == 0
  {
    if trace != [] {
      RunKeeps(policies, trace[..|trace| - 1]);
      hide KeyInv, AskMemory, AskRedis;
      AskKeeps(policies, Run(policies, trace[..|trace| - 1]), trace[|trace| - 1]);
    }
  }

  // ----- theorems -----

  /** On every trace put to both limiters, on any mix of keys and policies, they give the same
      allowed flag, remaining count and retry seconds for every request. */
  lemma {:induction false} LimitersAgree(policies: string -> WindowPolicy, trace: seq<Request>)
    requires Ordered(trace) && forall r :: r in trace ==> r.memory && r.redis
    ensures var s := Run(policies, trace);
            s.memoryLog == s.redisLog && |s.memoryLog| == |trace| && s.memoryAdmitted == s.redisAdmitted
  {
    if trace != [] {
      var before := trace[..|trace| - 1];
      LimitersAgree(policies, before);
      RunKeeps(policies, before);
      var s, r := Run(policies, before), trace[|trace| - 1];
      assert r in trace && KeyInv(policies(r.key), s, r.key);
      var admitted := At(s.memoryAdmitted, r.key, []);
      hide MemoryTracks, RedisTracks, RedisStep, MemoryStep, ReferenceStep, Past, Bounded;
      MemoryRefines(At(s.memory, r.key, []), admitted, policies(r.key), s.time, r.now);
      RedisRefines(At(s.redis, r.key, NO_SET), admitted, policies(r.key), s.time, r.now);
    }
  }

  /** Whatever the trace and wherever the window ends, each limiter admits at most `limit` requests
      of a key in one window; with requests split between them by fallback, at most twice that. */
  lemma WindowBound(policies: string -> WindowPolicy, trace: seq<Request>, key: string, t: int)
    requires Ordered(trace)
    ensures var s, p := Run(policies, trace), policies(key);
            var inMemory := CountIn(At(s.memoryAdmitted, key, []), t - p.windowMs, t);
            var inRedis := CountIn(At(s.redisAdmitted, key, []), t - p.windowMs, t);
            inMemory <= p.limit && inRedis <= p.limit && inMemory + inRedis <= 2 * p.limit
  {
    hide Run, CountIn, Bounded, MemoryTracks, RedisTracks;
    RunKeeps(policies, trace);
    var s, p := Run(policies, trace), policies(key);
    assert KeyInv(p, s, key);
    BoundedEverywhere(At(s.memoryAdmitted, key, []), p, t);
    BoundedEverywhere(At(s.redisAdmitted, key, []), p, t);
  }

  lemma ReferenceRefusal(admitted: seq<int>, p: WindowPolicy, time: int, now: nat)
    requires Past(admitted, time) && Bounded(admitted, p) && time <= now
    ensures ReferenceStep(admitted, p, now).1.allowed <==>
              CountIn(admitted, now - p.windowMs, now) != p.limit
  {
    CountIsAfter(admitted, now - p.windowMs, now);
    BoundedEverywhere(admitted, p, now);
  }

  /** A request is refused exactly when `limit` requests were admitted in the window ending now. */
  lemma RefusedExactlyWhenFull(policies: string -> WindowPolicy, trace: seq<Request>, key: string, now: nat)
    requires Ordered(trace) && Run(policies, trace).time <= now
    ensures var s, p := Run(policies, trace), policies(key);
            (MemoryStep(At(s.memory, key, []), p, now).1.allowed <==>
               CountIn(At(s.memoryAdmitted, key, []), now - p.windowMs, now) != p.limit) &&
            (RedisStep(At(s.redis, key, NO_SET), p, now).1.allowed <==>
               CountIn(At(s.redisAdmitted, key, []), now - p.windowMs, now) != p.limit)
  {
    hide MemoryTracks, RedisTracks, RedisStep, MemoryStep, ReferenceStep, Past, Bounded, CountIn, Run;
    RunKeeps(policies, trace);
    var s, p := Run(policies, trace), policies(key);
    assert KeyInv(p, s, key);
    MemoryRefines(At(s.memory, key, []), At(s.memoryAdmitted, key, []), p, s.time, now);
    RedisRefines(At(s.redis, key, NO_SET), At(s.redisAdmitted, key, []), p, s.time, now);
    ReferenceRefusal(At(s.memoryAdmitted, key, []), p, s.time, now);
    ReferenceRefusal(At(s.redisAdmitted, key, []), p, s.time, now);
  }

  /** What the decision leaves: the admissions of the window ending now and the remaining count it gives
      make up the limit. */
  ghost predicate Leaves(d: Decision, admitted: seq<int>, p: WindowPolicy, now: int) {
    && 0 <= d.remaining && CountIn(admitted, now - p.windowMs, now) + d.remaining == p.limit
    && (d.allowed ==> d.retryAfterSeconds == 0)
  }

  lemma ReferenceLeaves(admitted: seq<int>, p: WindowPolicy, time: int, now: nat)
    requires Past(admitted, time) && Bounded(admitted, p) && time <= now
    ensures var d := ReferenceStep(admitted, p, now).1;
            Leaves(d, if d.allowed then admitted + [now] else admitted, p, now)
  {
    hide CeilSeconds, CountIn, After, Bounded;
    BoundedEverywhere(admitted, p, now);
    CountIsAfter(admitted, now - p.windowMs, now);
    CountIsAfter(admitted + [now], now - p.windowMs, now);
    AfterPush(admitted, now, now - p.windowMs);
  }

  /** After every trace, the remaining count a request is answered with is exact, in either form. */
  lemma {:induction false} RemainingExact(policies: string -> WindowPolicy, trace: seq<Request>, key: string, now: nat)
    requires Ordered(trace) && Run(policies, trace).time <= now
    ensures var s, p := Run(policies, trace), policies(key);
            var d := MemoryStep(At(s.memory, key, []), p, now).1;
            Leaves(d, At(Admit(s.memoryAdmitted, key, now, d), key, []), p, now)
    ensures var s, p := Run(policies, trace), policies(key);
            var d := RedisStep(At(s.redis, key, NO_SET), p, now).1;
            Leaves(d, At(Admit(s.redisAdmitted, key, now, d), key, []), p, now)
  {
    hide MemoryTracks, RedisTracks, RedisStep, MemoryStep, ReferenceStep, Past, Bounded, Leaves, Run;
    RunKeeps(policies, trace);
    var s, p := Run(policies, trace), policies(key);
    assert KeyInv(p, s, key);
    MemoryRefines(At(s.memory, key, []), At(s.memoryAdmitted, key, []), p, s.time, now);
    RedisRefines(At(s.redis, key, NO_SET), At(s.redisAdmitted, key, []), p, s.time, now);
    ReferenceLeaves(At(s.memoryAdmitted, key, []), p, s.time, now);
    ReferenceLeaves(At(s.redisAdmitted, key, []), p, s.time, now);
  }

  lemma {:induction false} OldestLeaves(active: seq<int>, a: int)
    requires Ascending(active) && active != []
    ensures |After(active, a)| == |active| <==> active[0] > a
  {
    if |active| == 1 {
      assert active == [] + [active[0]];
      AfterPush([], active[0], a);
    } else {
      OldestLeaves(active[..|active| - 1], a);
    }
  }

  /** With the window full, waiting `wait` more milliseconds is enough exactly when the oldest
      admission has left the window by then. */
  lemma AdmittedAfterWait(admitted: seq<int>, p: WindowPolicy, now: nat, wait: nat)
    requires Ascending(admitted) && p.limit >= 1 && |After(admitted, now - p.windowMs)| == p.limit
    ensures var oldest := After(admitted, now - p.windowMs)[0];
            ReferenceStep(admitted, p, now + wait).1.allowed <==> wait >= oldest + p.windowMs - now
  {
    hide After, CeilSeconds;
    var active := After(admitted, now - p.windowMs);
    AfterAscending(admitted, now - p.windowMs);
    AfterAfter(admitted, now - p.windowMs, now + wait - p.windowMs);
    OldestLeaves(active, now + wait - p.windowMs);
    AfterAntitone(admitted, now - p.windowMs, now + wait - p.windowMs);
  }

  lemma ReferenceRetryExact(admitted: seq<int>, p: WindowPolicy, now: nat)
    requires Past(admitted, now) && Bounded(admitted, p) && p.limit >= 1
    requires !ReferenceStep(admitted, p, now).1.allowed
    ensures var n := ReferenceStep(admitted, p, now).1.retryAfterSeconds;
            n >= 1 &&
            ReferenceStep(admitted, p, now + 1000 * n).1.allowed &&
            !ReferenceStep(admitted, p, now + 1000 * (n - 1)).1.allowed
  {
    hide After, CeilSeconds, Bounded;
    var n := ReferenceStep(admitted, p, now).1.retryAfterSeconds;
    CountIsAfter(admitted, now - p.windowMs, now);
    BoundedEverywhere(admitted, p, now);
    AfterMembers(admitted, now - p.windowMs);
    var oldest := After(admitted, now - p.windowMs)[0];
    assert oldest in After(admitted, now - p.windowMs);
    CeilSecondsBounds(oldest + p.windowMs - now);
    AdmittedAfterWait(admitted, p, now, 1000 * n);
    AdmittedAfterWait(admitted, p, now, 1000 * (n - 1));
  }

  /** If refused now, the same request is admitted after the advertised number of whole seconds and
      still refused one second earlier, with no other request on the key in between. */
  predicate MemoryRetryIsExact(entries: seq<int>, p: WindowPolicy, now: nat) {
    var (entries', d) := MemoryStep(entries, p, now);
    !d.allowed ==>
      d.retryAfterSeconds >= 1 &&
      MemoryStep(entries', p, now + 1000 * d.retryAfterSeconds).1.allowed &&
      !MemoryStep(entries', p, now + 1000 * (d.retryAfterSeconds - 1)).1.allowed
  }

  predicate RedisRetryIsExact(z: SortedSet, p: WindowPolicy, now: nat) {
    var (z', d) := RedisStep(z, p, now);
    !d.allowed ==>
      d.retryAfterSeconds >= 1 &&
      RedisStep(z', p, now + 1000 * d.retryAfterSeconds).1.allowed &&
      !RedisStep(z', p, now + 1000 * (d.retryAfterSeconds - 1)).1.allowed
  }

  lemma MemoryRetryExact(entries: seq<int>, admitted: seq<int>, p: WindowPolicy, time: nat, now: nat)
    requires MemoryTracks(entries, admitted, p, time) && time <= now && p.limit >= 1
    requires Past(admitted, time) && Bounded(admitted, p)
    ensures MemoryRetryIsExact(entries, p, now)
  {
    hide MemoryTracks, MemoryStep, ReferenceStep, Bounded, After, CeilSeconds, Past;
    MemoryRefines(entries, admitted, p, time, now);
    var (entries', d) := MemoryStep(entries, p, now);
    ReferenceKeepsBound(admitted, p, time, now);
    if !d.allowed {
      ReferenceRetryExact(admitted, p, now);
      MemoryRefines(entries', admitted, p, now, now + 1000 * d.retryAfterSeconds);
      MemoryRefines(entries', admitted, p, now, now + 1000 * (d.retryAfterSeconds - 1));
    }
  }

  lemma RedisRetryExact(z: SortedSet, admitted: seq<int>, p: WindowPolicy, time: nat, now: nat)
    requires RedisTracks(z, admitted, p, time) && time <= now && p.limit >= 1
    requires Past(admitted, time) && Bounded(admitted, p)
    ensures RedisRetryIsExact(z, p, now)
  {
    hide RedisTracks, RedisStep, ReferenceStep, Bounded, After, CeilSeconds, Past;
    RedisRefines(z, admitted, p, time, now);
    var (z', d) := RedisStep(z, p, now);
    ReferenceKeepsBound(admitted, p, time, now);
    if !d.allowed {
      ReferenceRetryExact(admitted, p, now);
      RedisRefines(z', admitted, p, now, now + 1000 * d.retryAfterSeconds);
      RedisRefines(z', admitted, p, now, now + 1000 * (d.retryAfterSeconds - 1));
    }
  }

  /** The advertised retry time is exact in both forms, after every trace. */
  lemma RetryAfterExact(policies: string -> WindowPolicy, trace: seq<Request>, key: string, now: nat)
    requires Ordered(trace) && Run(policies, trace).time <= now && policies(key).limit >= 1
    ensures MemoryRetryIsExact(At(Run(policies, trace).memory, key, []), policies(key), now)
    ensures RedisRetryIsExact(At(Run(policies, trace).redis, key, NO_SET), policies(key), now)
  {
    hide MemoryTracks, RedisTracks, RedisStep, MemoryStep, Past, Bounded, Run, MemoryRetryIsExact, RedisRetryIsExact;
    RunKeeps(policies, trace);
    var s, p := Run(policies, trace), policies(key);
    assert KeyInv(p, s, key);
    MemoryRetryExact(At(s.memory, key, []), At(s.memoryAdmitted, key, []), p, s.time, now);
    RedisRetryExact(At(s.redis, key, NO_SET), At(s.redisAdmitted, key, []), p, s.time, now);
  }
}
