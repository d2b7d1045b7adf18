/** The sliding-window limiter in both of its forms, and a plain reference that remembers every
    admission. Times are milliseconds. */
module SlidingWindow {

  datatype Decision = Decision(allowed: bool, remaining: int, retryAfterSeconds: int)

  type Positive = n: int | n >= 1 witness 1

  datatype WindowPolicy = WindowPolicy(limit: nat, windowMs: Positive)

  function Max(a: int, b: int): int {
    if a < b then b else a
  }

  /** Division by a thousand, rounded up. */
  function CeilSeconds(ms: int): int {
    -((-ms) / 1000)
  }

  /** The entries later than `start`, in order. */
  function After(entries: seq<int>, start: int): (r: seq<int>)
    ensures |r| <= |entries|
  {
    if entries == [] then []
    else
      var last := entries[|entries| - 1];
      After(entries[..|entries| - 1], start) + if last > start then [last] else []
  }

  // ----- the in-memory form -----

  function MemoryStep(entries: seq<int>, p: WindowPolicy, now: nat): (seq<int>, Decision) {
    var active := After(entries, now - p.windowMs);
    if |active| >= p.limit then
      var oldest := if active == [] then now else active[0];
      (active, Decision(false, 0, Max(1, CeilSeconds(oldest + p.windowMs - now))))
    else
      (active + [now], Decision(true, Max(0, p.limit - (|active| + 1)), 0))
  }

  // ----- the stored-script form: a sorted set that expires as a whole -----

  datatype SortedSet = SortedSet(scores: seq<int>, expiresAt: int)

  const NO_SET := SortedSet([], 0)

  /** Removes scores in 0..max, as the range is written in the script. */
  function RemoveRangeByScore(scores: seq<int>, max: int): seq<int> {
    if scores == [] then []
    else
      var last := scores[|scores| - 1];
      RemoveRangeByScore(scores[..|scores| - 1], max) + if 0 <= last <= max then [] else [last]
  }

  /** Inserts into ascending scores, after equal ones. */
  function AddScore(scores: seq<int>, score: int): seq<int> {
    if scores == [] || scores[|scores| - 1] <= score then scores + [score]
    else AddScore(scores[..|scores| - 1], score) + [scores[|scores| - 1]]
  }

  function RedisStep(z: SortedSet, p: WindowPolicy, now: nat): (SortedSet, Decision) {
    var live := if now < z.expiresAt then z else NO_SET;
    var kept := RemoveRangeByScore(live.scores, now - p.windowMs);
    if |kept| >= p.limit then
      var retryMs := if kept == [] then p.windowMs else Max(1, kept[0] + p.windowMs - now);
      (live.(scores := kept), Decision(false, 0, CeilSeconds(retryMs)))
    else
      (SortedSet(AddScore(kept, now), now + p.windowMs), Decision(true, p.limit - |kept| - 1, 0))
  }

  // ----- the reference -----

  function ReferenceStep(admitted: seq<int>, p: WindowPolicy, now: nat): (seq<int>, Decision) {
    var recent := After(admitted, now - p.windowMs);
    if |recent| >= p.limit then
      var oldest := if recent == [] then now else recent[0];
      (admitted, Decision(false, 0, Max(1, CeilSeconds(oldest + p.windowMs - now))))
    else
      (admitted + [now], Decision(true, p.limit - |recent| - 1, 0))
  }

  // ----- facts about `After` -----

  lemma {:induction false} AfterAfter(s: seq<int>, a: int, b: int)
    requires a <= b
    ensures After(After(s, a), b) == After(s, b)
  {
    if s != [] {
      var init, last := s[..|s| - 1], s[|s| - 1];
      AfterAfter(init, a, b);
      if last > a {
        assert After(s, a)[..|After(s, a)| - 1] == After(init, a);
      } else {
        assert After(s, a) == After(init, a);
      }
    }
  }

  lemma AfterPush(s: seq<int>, x: int, a: int)
    ensures After(s + [x], a) == After(s, a) + if x > a then [x] else []
  {
    assert (s + [x])[..|s|] == s;
  }

  lemma {:induction false} AfterMembers(s: seq<int>, a: int)
    ensures forall x :: x in After(s, a) <==> x in s && x > a
  {
    if s != [] {
      AfterMembers(s[..|s| - 1], a);
      assert s == s[..|s| - 1] + [s[|s| - 1]];
    }
  }

  lemma {:induction false} AfterNone(s: seq<int>, a: int)
    requires forall i :: 0 <= i < |s| ==> s[i] <= a
    ensures After(s, a) == []
  {
    if s != [] {
      AfterNone(s[..|s| - 1], a);
    }
  }

  lemma {:induction false} AfterAntitone(s: seq<int>, a: int, b: int)
    requires a <= b
    ensures |After(s, b)| <= |After(s, a)|
  {
    AfterAfter(s, a, b);
  }

  ghost predicate Ascending(s: seq<int>) {
    forall i, j :: 0 <= i < j < |s| ==> s[i] <= s[j]
  }

  lemma {:induction false} AfterAscending(s: seq<int>, a: int)
    requires Ascending(s)
    ensures Ascending(After(s, a))
  {
    if s != [] {
      AfterAscending(s[..|s| - 1], a);
      AfterMembers(s[..|s| - 1], a);
      var r := After(s, a);
      assert forall i :: 0 <= i < |After(s[..|s| - 1], a)| ==> r[i] in After(s[..|s| - 1], a);
    }
  }

  lemma {:induction false} RemoveIsAfter(s: seq<int>, max: int)
    requires forall i :: 0 <= i < |s| ==> 0 <= s[i]
    ensures RemoveRangeByScore(s, max) == After(s, max)
  {
    if s != [] {
      RemoveIsAfter(s[..|s| - 1], max);
    }
  }

  // ----- both forms track the reference -----

  /** The two lists agree on everything later than `start`. */
  ghost predicate SameAfter(a: seq<int>, b: seq<int>, start: int) {
    forall x :: start <= x ==> After(a, x) == After(b, x)
  }

  lemma SameAfterPush(a: seq<int>, b: seq<int>, start: int, now: int)
    requires SameAfter(a, b, start)
    ensures SameAfter(a + [now], b + [now], start)
  {
    forall x | start <= x ensures After(a + [now], x) == After(b + [now], x) {
      AfterPush(a, now, x);
      AfterPush(b, now, x);
    }
  }

  lemma SameAfterTrimmed(a: seq<int>, b: seq<int>, start: int, later: int)
    requires SameAfter(a, b, start) && start <= later
    ensures After(a, later) == After(b, later) && SameAfter(After(a, later), b, later)
  {
    forall x | later <= x ensures After(After(a, later), x) == After(b, x) {
      AfterAfter(a, later, x);
    }
  }

  /** The in-memory list agrees with all admissions on everything still inside a window. */
  ghost predicate MemoryTracks(entries: seq<int>, admitted: seq<int>, p: WindowPolicy, time: nat) {
    SameAfter(entries, admitted, time - p.windowMs)
  }

  /** So does the sorted set, which outlives every admission by one window. */
  ghost predicate RedisTracks(z: SortedSet, admitted: seq<int>, p: WindowPolicy, time: nat) {
    && SameAfter(z.scores, admitted, time - p.windowMs)
    && (forall i :: 0 <= i < |z.scores| ==> 0 <= z.scores[i] <= time)
    && (forall i :: 0 <= i < |admitted| ==> admitted[i] + p.windowMs <= Max(z.expiresAt, time))
    && z.expiresAt <= time + p.windowMs
  }

  lemma MemoryRefines(entries: seq<int>, admitted: seq<int>, p: WindowPolicy, time: nat, now: nat)
    requires MemoryTracks(entries, admitted, p, time) && time <= now
    ensures var (entries', d) := MemoryStep(entries, p, now);
            var (admitted', d') := ReferenceStep(admitted, p, now);
            d == d' && MemoryTracks(entries', admitted', p, now)
  {
    hide After, SameAfter, CeilSeconds;
    var start := now - p.windowMs;
    SameAfterTrimmed(entries, admitted, time - p.windowMs, start);
    SameAfterPush(After(entries, start), admitted, start, now);
  }

  lemma {:induction false} AddScoreAtEnd(scores: seq<int>, score: int)
    requires forall i :: 0 <= i < |scores| ==> scores[i] <= score
    ensures AddScore(scores, score) == scores + [score]
  {
  }

  /** Expiry of the whole key is unobservable: what it drops is outside every later window. */
  lemma ExpiryUnobservable(z: SortedSet, admitted: seq<int>, p: WindowPolicy, time: nat, now: nat)
    requires RedisTracks(z, admitted, p, time) && time <= now && z.expiresAt <= now
    ensures SameAfter([], admitted, now - p.windowMs)
  {
    forall x | now - p.windowMs <= x ensures After([], x) == After(admitted, x) {
      AfterNone(admitted, x);
    }
  }

  lemma SameAfterLater(a: seq<int>, b: seq<int>, start: int, later: int)
    requires SameAfter(a, b, start) && start <= later
    ensures SameAfter(a, b, later)
  {
  }

  lemma {:induction false} AfterBounded(s: seq<int>, a: int, lo: int, hi: int)
    requires forall i :: 0 <= i < |s| ==> lo <= s[i] <= hi
    ensures forall i :: 0 <= i < |After(s, a)| ==> lo <= After(s, a)[i] <= hi
  {
    if s != [] {
      AfterBounded(s[..|s| - 1], a, lo, hi);
    }
  }

  lemma RedisRefines(z: SortedSet, admitted: seq<int>, p: WindowPolicy, time: nat, now: nat)
    requires RedisTracks(z, admitted, p, time) && time <= now
    ensures var (z', d) := RedisStep(z, p, now);
            var (admitted', d') := ReferenceStep(admitted, p, now);
            d == d' && RedisTracks(z', admitted', p, now)
  {
    hide After, SameAfter, CeilSeconds, AddScore, RemoveRangeByScore;
    var start := now - p.windowMs;
    var live := if now < z.expiresAt then z else NO_SET;
    if z.expiresAt <= now {
      ExpiryUnobservable(z, admitted, p, time, now);
    } else {
      SameAfterLater(z.scores, admitted, time - p.windowMs, start);
    }
    var kept := RemoveRangeByScore(live.scores, start);
    RemoveIsAfter(live.scores, start);
    AfterBounded(live.scores, start, 0, now);
    SameAfterTrimmed(live.scores, admitted, start, start);
    AddScoreAtEnd(kept, now);
    SameAfterPush(kept, admitted, start, now);
    CeilSecondsAtLeastOne(if kept == [] then p.windowMs else kept[0] + p.windowMs - now);
  }

  lemma CeilSecondsBounds(ms: int)
    ensures ms <= 1000 * CeilSeconds(ms) < ms + 1000
  {
  }

  lemma CeilSecondsAtLeastOne(ms: int)
    ensures CeilSeconds(Max(1, ms)) == Max(1, CeilSeconds(ms))
  {
  }
}
