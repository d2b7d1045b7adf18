/** The limiter on requests for one-time codes, by email address, by network address and by device.
    Times are milliseconds. */
module OtpLimiter {
  import opened Bursts

  const PUBLIC_OTP_RATE_LIMIT_WINDOW_MS := 60 * 60 * 1000

  datatype Scope = Email | Ip | Device

  /** The parts of a counter's key, already in lower case. */
  datatype Key = Key(purpose: string, scope: Scope, value: string)

  datatype Counter = Counter(count: int, expiresAt: int)

  type Counters = map<Key, Counter>

  function LimitOf(scope: Scope): nat {
    match scope
    case Email => 5
    case Ip => 20
    case Device => 10
  }

  /** A request; a missing address or device is the empty string. */
  datatype Request = Request(purpose: string, subject: string, ip: string, deviceId: string)

  function Checks(r: Request): seq<Key> {
    [Key(r.purpose, Email, r.subject), Key(r.purpose, Ip, r.ip), Key(r.purpose, Device, r.deviceId)]
  }

  function Named(keys: seq<Key>): set<Key> {
    set key | key in keys && key.value != ""
  }

  /** The counters a request is counted on. */
  function Counted(r: Request): set<Key> {
    Named(Checks(r))
  }

  function CountAt(c: Counters, key: Key, now: int): int {
    if key in c && now < c[key].expiresAt then c[key].count else 0
  }

  datatype Result = Allowed | Limited(scope: Scope)

  /** The first scope whose counter is at its limit. */
  function Verdict(c: Counters, keys: seq<Key>, now: int): Result {
    if keys == [] then Allowed
    else if keys[0].value != "" && CountAt(c, keys[0], now) >= LimitOf(keys[0].scope) then Limited(keys[0].scope)
    else Verdict(c, keys[1..], now)
  }

  function Raised(c: Counters, keys: set<Key>, now: int): Counters {
    map key | key in c.Keys + keys ::
      if key in keys then Counter(CountAt(c, key, now) + 1, now + PUBLIC_OTP_RATE_LIMIT_WINDOW_MS) else c[key]
  }

  function Consume(c: Counters, r: Request, now: int): (Counters, Result) {
    var v := Verdict(c, Checks(r), now);
    (if v.Allowed? then Raised(c, Counted(r), now) else c, v)
  }

  function KeysOf(records: seq<(Key, int)>): set<Key> {
    set i | 0 <= i < |records| :: records[i].0
  }

  class OtpRateLimiter {
    var counters: Counters

    constructor ()
      ensures counters == map[]
    {
      counters := map[];
    }

    /** Looks at every counter first, and raises them only when none is at its limit. */
    method ConsumePublicOtpRateLimit(r: Request, now: int) returns (result: Result)
      modifies this
      ensures (counters, result) == Consume(old(counters), r, now)
    {
      hide Checks, Verdict, CountAt, Raised, KeysOf;
      var checks := Checks(r);
      var records: seq<(Key, int)> := [];
      NoKeys();
      assert checks[0..] == checks;
      for i := 0 to |checks|
        invariant counters == old(counters)
        invariant Verdict(counters, checks, now) == Verdict(counters, checks[i..], now)
        invariant KeysOf(records) == Named(checks[..i])
        invariant forall j :: 0 <= j < |records| ==> records[j].1 == CountAt(counters, records[j].0, now)
      {
        var key := checks[i];
        VerdictAt(counters, checks, now, i);
        NamedAt(checks, i);
        if key.value != "" {
          var count := CountAt(counters, key, now);
          if count >= LimitOf(key.scope) {
            return Limited(key.scope);
          }
          AddKey(records, (key, count));
          records := records + [(key, count)];
        }
      }
      VerdictAtEnd(counters, checks, now);
      assert checks[..|checks|] == checks;
      assert records[..0] == [];
      RaisedNone(counters, now);
      for j := 0 to |records|
        invariant counters == Raised(old(counters), KeysOf(records[..j]), now)
      {
        var (key, count) := records[j];
        AddKey(records[..j], records[j]);
        assert records[..j + 1] == records[..j] + [records[j]];
        RaisedOneMore(old(counters), KeysOf(records[..j]), key, now);
        counters := counters[key := Counter(count + 1, now + PUBLIC_OTP_RATE_LIMIT_WINDOW_MS)];
      }
      assert records[..|records|] == records;
      result := Allowed;
    }
  }

  lemma NoKeys()
    ensures KeysOf([]) == {}
  {
  }

  lemma NamedAt(keys: seq<Key>, i: nat)
    requires i < |keys|
    ensures Named(keys[..i + 1]) == Named(keys[..i]) + if keys[i].value != "" then {keys[i]} else {}
  {
    assert keys[..i + 1] == keys[..i] + [keys[i]];
  }

  lemma VerdictAt(c: Counters, keys: seq<Key>, now: int, i: nat)
    requires i < |keys|
    ensures Verdict(c, keys[i..], now) ==
              if keys[i].value != "" && CountAt(c, keys[i], now) >= LimitOf(keys[i].scope) then Limited(keys[i].scope)
              else Verdict(c, keys[i + 1..], now)
  {
    assert keys[i..][1..] == keys[i + 1..];
  }

  lemma VerdictAtEnd(c: Counters, keys: seq<Key>, now: int)
    ensures Verdict(c, keys[|keys|..], now).Allowed?
  {
  }

  lemma RaisedNone(c: Counters, now: int)
    ensures Raised(c, KeysOf([]), now) == c
  {
  }

  lemma RaisedOneMore(c: Counters, keys: set<Key>, key: Key, now: int)
    ensures Raised(c, keys + {key}, now) ==
              Raised(c, keys, now)[key := Counter(CountAt(c, key, now) + 1, now + PUBLIC_OTP_RATE_LIMIT_WINDOW_MS)]
  {
  }

  lemma AddKey(records: seq<(Key, int)>, r: (Key, int))
    ensures KeysOf(records + [r]) == KeysOf(records) + {r.0}
  {
    var more := records + [r];
    assert more[|records|] == r;
    assert forall i :: 0 <= i < |records| ==> more[i] == records[i];
  }

  /** The counter of the key is alive and at the limit. */
  predicate Full(c: Counters, key: Key, limit: int, now: int) {
    key in c && now < c[key].expiresAt && limit <= c[key].count
  }

  /** Of the address, the network address and the device, each only if it is known, the first whose counter
      is at its limit refuses the request. */
  lemma VerdictExactly(c: Counters, r: Request, now: int)
    ensures Consume(c, r, now).1 ==
              if r.subject != "" && Full(c, Key(r.purpose, Email, r.subject), 5, now) then Limited(Email)
              else if r.ip != "" && Full(c, Key(r.purpose, Ip, r.ip), 20, now) then Limited(Ip)
              else if r.deviceId != "" && Full(c, Key(r.purpose, Device, r.deviceId), 10, now) then Limited(Device)
              else Allowed
  {
    var keys := Checks(r);
    assert |keys| == 3 && keys[0] == Key(r.purpose, Email, r.subject) && keys[1] == Key(r.purpose, Ip, r.ip);
    assert keys[2] == Key(r.purpose, Device, r.deviceId) && keys[3..] == keys[|keys|..];
    hide Verdict, Checks;
    VerdictAt(c, keys, now, 0);
    VerdictAt(c, keys, now, 1);
    VerdictAt(c, keys, now, 2);
    VerdictAtEnd(c, keys, now);
    assert keys[0..] == keys;
  }

  /** The counters a request is counted on. */
  predicate IsCounted(r: Request, key: Key) {
    && key.purpose == r.purpose && key.value != ""
    && key.value == (match key.scope case Email => r.subject case Ip => r.ip case Device => r.deviceId)
  }

  lemma CountedExactly(r: Request, key: Key)
    ensures key in Counted(r) <==> IsCounted(r, key)
  {
    var keys := Checks(r);
    if IsCounted(r, key) {
      assert key == (match key.scope case Email => keys[0] case Ip => keys[1] case Device => keys[2]);
    }
  }

  // ----- runs -----

  datatype Event = Event(request: Request, now: int)

  /** `accepted` are, per counter, the times of the accepted requests counted on it. */
  datatype History = History(counters: Counters, accepted: map<Key, seq<int>>, time: int)

  function Times(h: History, key: Key): seq<int> {
    if key in h.accepted then h.accepted[key] else []
  }

  function Apply(h: History, e: Event): History {
    var (counters, v) := Consume(h.counters, e.request, e.now);
    var accepted :=
      if v.Allowed? then
        map key | key in h.accepted.Keys + Counted(e.request) ::
          if key in Counted(e.request) then Times(h, key) + [e.now] else h.accepted[key]
      else h.accepted;
    History(counters, accepted, e.now)
  }

  function Run(events: seq<Event>, start: int): History {
    if events == [] then History(map[], map[], start)
    else Apply(Run(events[..|events| - 1], start), events[|events| - 1])
  }

  ghost predicate Ordered(events: seq<Event>, start: int) {
    && (forall i :: 0 <= i < |events| ==> start <= events[i].now)
    && (forall i, j :: 0 <= i < j < |events| ==> events[i].now <= events[j].now)
  }

  /** A counter holds the current burst of acceptances and lives one window past the last. */
  ghost predicate KeyInv(h: History, key: Key) {
    var times := Times(h, key);
    var n := |times|;
    && Ascending(times)
    && (n > 0 ==> times[n - 1] <= h.time)
    && Spread(times, LimitOf(key.scope), PUBLIC_OTP_RATE_LIMIT_WINDOW_MS)
    && (key in h.counters <==> n > 0)
    && (n > 0 ==>
          h.counters[key] == Counter(Burst(times, PUBLIC_OTP_RATE_LIMIT_WINDOW_MS),
                                     times[n - 1] + PUBLIC_OTP_RATE_LIMIT_WINDOW_MS))
  }

  lemma {:induction false} AllowedBelowLimit(c: Counters, keys: seq<Key>, now: int, i: nat)
    requires Verdict(c, keys, now).Allowed? && i < |keys| && keys[i].value != ""
    ensures CountAt(c, keys[i], now) < LimitOf(keys[i].scope)
  {
    if i > 0 {
      AllowedBelowLimit(c, keys[1..], now, i - 1);
    }
  }

  lemma CountedBelowLimit(c: Counters, r: Request, now: int, key: Key)
    requires Consume(c, r, now).1.Allowed? && key in Counted(r)
    ensures CountAt(c, key, now) < LimitOf(key.scope)
  {
    hide Checks, Verdict, CountAt, Raised;
    var i :| 0 <= i < |Checks(r)| && Checks(r)[i] == key;
    AllowedBelowLimit(c, Checks(r), now, i);
  }

  /** One acceptance on a counter. */
  predicate Counts(h: History, h': History, key: Key, now: int) {
    && Times(h', key) == Times(h, key) + [now]
    && key in h'.counters
    && h'.counters[key] == Counter(CountAt(h.counters, key, now) + 1, now + PUBLIC_OTP_RATE_LIMIT_WINDOW_MS)
  }

  predicate LeavesAlone(h: History, h': History, key: Key) {
    && Times(h', key) == Times(h, key)
    && (key in h'.counters <==> key in h.counters)
    && (key in h.counters ==> h'.counters[key] == h.counters[key])
  }

  lemma ApplyAt(h: History, e: Event, key: Key)
    ensures if Consume(h.counters, e.request, e.now).1.Allowed? && key in Counted(e.request)
            then Counts(h, Apply(h, e), key, e.now) else LeavesAlone(h, Apply(h, e), key)
  {
    hide CountAt, Verdict, Counted;
  }

  lemma CountingKeeps(h: History, h': History, key: Key, now: int)
    requires KeyInv(h, key) && h.time <= now == h'.time && Counts(h, h', key, now)
    requires CountAt(h.counters, key, now) < LimitOf(key.scope)
    ensures KeyInv(h', key)
  {
    hide Burst, Spread;
    BurstPush(Times(h, key), PUBLIC_OTP_RATE_LIMIT_WINDOW_MS, now);
    SpreadPush(Times(h, key), LimitOf(key.scope), PUBLIC_OTP_RATE_LIMIT_WINDOW_MS, now);
  }

  lemma ApplyKeeps(h: History, e: Event, key: Key)
    requires KeyInv(h, key) && h.time <= e.now
    ensures KeyInv(Apply(h, e), key)
  {
    hide Burst, Spread, Consume, Counted, Counts;
    ApplyAt(h, e, key);
    if Consume(h.counters, e.request, e.now).1.Allowed? && key in Counted(e.request) {
      CountedBelowLimit(h.counters, e.request, e.now, key);
      CountingKeeps(h, Apply(h, e), key, e.now);
    }
  }

  lemma StartHolds(start: int, key: Key)
    ensures KeyInv(History(map[], map[], start), key)
  {
  }

  lemma {:induction false} RunKeeps(events: seq<Event>, start: int, key: Key)
    requires Ordered(events, start)
    ensures KeyInv(Run(events, start), key)
    ensures Run(events, start).time == if events == [] then start else events[|events| - 1].now
  {
    hide KeyInv;
    if events != [] {
      RunKeeps(events[..|events| - 1], start, key);
      ApplyKeeps(Run(events[..|events| - 1], start), events[|events| - 1], key);
    } else {
      StartHolds(start, key);
    }
  }

  /** A refused request changes no counter, so it neither counts nor prolongs anything. */
  lemma {:induction false} RefusalChangesNothing(events: seq<Event>, start: int, e: Event)
    requires Consume(Run(events, start).counters, e.request, e.now).1.Limited?
    ensures Apply(Run(events, start), e) == Run(events, start).(time := e.now)
  {
  }

  /** In any half-open window of one hour, the accepted requests of one purpose from one email address
      number at most 5, from one network address at most 20, from one device at most 10. */
  lemma WindowBound(events: seq<Event>, start: int, key: Key, from: int, to: int)
    requires Ordered(events, start) && to - from <= 60 * 60 * 1000
    ensures CountIn(Times(Run(events, start), key), from, to) <=
              (match key.scope case Email => 5 case Ip => 20 case Device => 10)
  {
    RunKeeps(events, start, key);
    SpreadBoundsWindows(Times(Run(events, start), key), LimitOf(key.scope), PUBLIC_OTP_RATE_LIMIT_WINDOW_MS, from, to);
  }

  /** An accepted request counts once on each of its counters, and nothing else does. */
  lemma {:induction false} AcceptedExactly(events: seq<Event>, start: int, e: Event, key: Key)
    ensures var h := Run(events, start);
            Times(Run(events + [e], start), key) ==
              Times(h, key) +
                if Consume(h.counters, e.request, e.now).1.Allowed? && IsCounted(e.request, key) then [e.now] else []
  {
    hide Counted, Consume, IsCounted;
    assert (events + [e])[..|events|] == events;
    CountedExactly(e.request, key);
  }

  /** The burst of acceptances on the key is at the limit, and its last one less than an hour ago. */
  ghost predicate Exhausted(h: History, key: Key, limit: nat, now: int) {
    var times := Times(h, key);
    times != [] && now - times[|times| - 1] < 60 * 60 * 1000 && limit <= Burst(times, 60 * 60 * 1000)
  }

  /** After every run, a request is refused exactly when a known one of its address, network address and
      device, the first in this order, is exhausted by accepted requests. */
  lemma RefusedExactlyAfterBurst(events: seq<Event>, start: int, r: Request, now: int)
    requires Ordered(events, start) && Run(events, start).time <= now
    ensures var h := Run(events, start);
            Consume(h.counters, r, now).1 ==
              if r.subject != "" && Exhausted(h, Key(r.purpose, Email, r.subject), 5, now) then Limited(Email)
              else if r.ip != "" && Exhausted(h, Key(r.purpose, Ip, r.ip), 20, now) then Limited(Ip)
              else if r.deviceId != "" && Exhausted(h, Key(r.purpose, Device, r.deviceId), 10, now) then Limited(Device)
              else Allowed
  {
    hide Run, Exhausted, Consume, Full, Ordered;
    VerdictExactly(Run(events, start).counters, r, now);
    ExhaustedIsFull(events, start, Key(r.purpose, Email, r.subject), 5, now);
    ExhaustedIsFull(events, start, Key(r.purpose, Ip, r.ip), 20, now);
    ExhaustedIsFull(events, start, Key(r.purpose, Device, r.deviceId), 10, now);
  }

  lemma ExhaustedIsFull(events: seq<Event>, start: int, key: Key, limit: nat, now: int)
    requires Ordered(events, start) && Run(events, start).time <= now && 0 < limit
    ensures Full(Run(events, start).counters, key, limit, now) <==> Exhausted(Run(events, start), key, limit, now)
  {
    hide Run, Ordered;
    RunKeeps(events, start, key);
  }

  /** A counter refuses exactly when its burst of acceptances, none an hour from the next, is at the
      limit and the last of them is less than an hour ago. */
  lemma FullExactlyAfterBurst(events: seq<Event>, start: int, key: Key, now: int)
    requires Ordered(events, start) && Run(events, start).time <= now
    ensures var h := Run(events, start);
            var times := Times(h, key);
            CountAt(h.counters, key, now) >= LimitOf(key.scope) <==>
              times != [] && now - times[|times| - 1] < 60 * 60 * 1000 &&
              Burst(times, 60 * 60 * 1000) >= LimitOf(key.scope)
  {
    RunKeeps(events, start, key);
  }
}
