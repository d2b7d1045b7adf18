/** Events counted by a counter whose expiry every event refreshes. */
module Bursts {

  /** How many of the last times follow one another within less than `gap`. */
  function Burst(times: seq<int>, gap: int): nat {
    var n := |times|;
    if n == 0 then 0
    else if n == 1 || times[n - 1] - times[n - 2] >= gap then 1
    else Burst(times[..n - 1], gap) + 1
  }

  ghost predicate Ascending(times: seq<int>) {
    forall i, j :: 0 <= i < j < |times| ==> times[i] <= times[j]
  }

  /** Any `limit` + 1 times in a row take at least `gap`. */
  ghost predicate Spread(times: seq<int>, limit: nat, gap: int) {
    forall i :: 0 <= i < |times| - limit ==> times[i + limit] - times[i] >= gap
  }

  lemma BurstPush(times: seq<int>, gap: int, now: int)
    ensures Burst(times + [now], gap) ==
              if times != [] && now - times[|times| - 1] < gap then Burst(times, gap) + 1 else 1
  {
    assert (times + [now])[..|times|] == times;
  }

  /** A run of close times is at least as long as any stretch at the end shorter than `gap`. */
  lemma {:induction false} CloseTimesBurst(times: seq<int>, gap: int, k: nat)
    requires Ascending(times) && k < |times| && times[|times| - 1] - times[|times| - 1 - k] < gap
    ensures Burst(times, gap) >= k + 1
  {
    if k > 0 {
      var init := times[..|times| - 1];
      CloseTimesBurst(init, gap, k - 1);
    }
  }

  lemma SpreadPush(times: seq<int>, limit: nat, gap: int, now: int)
    requires Spread(times, limit, gap) && Ascending(times + [now]) && Burst(times + [now], gap) <= limit
    ensures Spread(times + [now], limit, gap)
  {
    var more := times + [now];
    forall i | 0 <= i < |more| - limit ensures more[i + limit] - more[i] >= gap {
      if i + limit == |times| && more[i + limit] - more[i] < gap {
        CloseTimesBurst(more, gap, limit);
      }
    }
  }

  /** How many times lie in [from, to). */
  function CountIn(times: seq<int>, from: int, to: int): nat {
    if times == [] then 0
    else CountIn(times[..|times| - 1], from, to) + if from <= times[|times| - 1] < to then 1 else 0
  }

  /** If more than `c` times lie in the window, some stretch of c + 1 in a row does. */
  lemma {:induction false} CountSpans(times: seq<int>, from: int, to: int, c: nat) returns (i: int)
    requires Ascending(times) && c < CountIn(times, from, to)
    ensures 0 <= i && i + c < |times| && from <= times[i] && times[i + c] < to
  {
    var init, last := times[..|times| - 1], times[|times| - 1];
    if last >= to || last < from || (c > 0 && CountIn(init, from, to) > c) {
      i := CountSpans(init, from, to, c);
    } else if c == 0 {
      i := |times| - 1;
    } else {
      i := CountSpans(init, from, to, c - 1);
    }
  }

  /** Hence no half-open window of length `gap` holds more than `limit` of them. */
  lemma SpreadBoundsWindows(times: seq<int>, limit: nat, gap: int, from: int, to: int)
    requires Ascending(times) && Spread(times, limit, gap) && to - from <= gap
    ensures CountIn(times, from, to) <= limit
  {
    if CountIn(times, from, to) > limit {
      var i := CountSpans(times, from, to, limit);
    }
  }
}
