/** The lockout of password sign-in. Times are milliseconds. */
module LoginLockout {
  import opened Bursts

  const MAX_FAILED_LOCAL_LOGIN_ATTEMPTS := 5
  const LOCAL_LOGIN_ATTEMPT_TTL_MS := 15 * 60 * 1000
  const LOCAL_LOGIN_LOCK_TTL_MS := 30 * 60 * 1000

  datatype Record = Record(failedAttempts: int, locked: bool, expiresAt: int)

  datatype Slot = Absent | Stored(record: Record)

  datatype Reply = SignedIn | NotVerified | Refused | Locked

  /** What a sign-in attempt is made of: the password check and the account's state. */
  datatype Attempt = Attempt(known: bool, passwordValid: bool, emailVerified: bool)

  function Read(s: Slot, now: int): Slot {
    if s.Stored? && now < s.record.expiresAt then s else Absent
  }

  function AfterFailure(s: Slot, now: int): Record {
    var failed := (if s.Stored? then s.record.failedAttempts else 0) + 1;
    if failed >= MAX_FAILED_LOCAL_LOGIN_ATTEMPTS then Record(failed, true, now + LOCAL_LOGIN_LOCK_TTL_MS)
    else Record(failed, false, now + LOCAL_LOGIN_ATTEMPT_TTL_MS)
  }

  function Try(s: Slot, a: Attempt, now: int): (Slot, Reply) {
    var live := Read(s, now);
    var ok := a.known && a.passwordValid;
    if ok then (Absent, if a.emailVerified then SignedIn else NotVerified)
    else if live.Stored? && live.record.locked then (s, Locked)
    else
      var r := AfterFailure(live, now);
      (Stored(r), if r.locked then Locked else Refused)
  }

  class LoginAttempts {
    var records: map<string, Record>

    function At(email: string): Slot
      reads this
    {
      if email in records then Stored(records[email]) else Absent
    }

    constructor ()
      ensures records == map[]
    {
      records := map[];
    }

    method RecordFailedLocalLoginAttempt(email: string, now: int) returns (next: Record)
      modifies this
      ensures next == AfterFailure(Read(old(At(email)), now), now)
      ensures records == old(records)[email := next]
    {
      var failedAttempts := 0;
      if email in records && now < records[email].expiresAt {
        failedAttempts := records[email].failedAttempts;
      }
      var nextFailedAttempts := failedAttempts + 1;
      if nextFailedAttempts >= MAX_FAILED_LOCAL_LOGIN_ATTEMPTS {
        next := Record(nextFailedAttempts, true, now + LOCAL_LOGIN_LOCK_TTL_MS);
      } else {
        next := Record(nextFailedAttempts, false, now + LOCAL_LOGIN_ATTEMPT_TTL_MS);
      }
      records := records[email := next];
    }

    method ClearLocalLoginAttemptRecord(email: string)
      modifies this
      ensures records == old(records) - {email}
    {
      records := records - {email};
    }

    method LocalAuthenticate(email: string, a: Attempt, now: int) returns (reply: Reply)
      modifies this
      ensures (At(email), reply) == Try(old(At(email)), a, now)
      ensures forall e :: e != email ==> At(e) == old(At(e))
    {
      var locked := email in records && now < records[email].expiresAt && records[email].locked;
      if locked && (!a.known || !a.passwordValid) {
        return Locked;
      }
      if !a.known || !a.passwordValid {
        var updated := RecordFailedLocalLoginAttempt(email, now);
        return if updated.locked then Locked else Refused;
      }
      ClearLocalLoginAttemptRecord(email);
      if !a.emailVerified {
        return NotVerified;
      }
      reply := SignedIn;
    }
  }

  // ----- runs for one address -----

  /** `Cleared` is an unlock by code or a password change. */
  datatype Event = Tried(attempt: Attempt, now: int) | Cleared(now: int)

  /** `refusals` are the times of plain refusals since the record was last cleared, `locks` those of the
      attempts that locked it since. */
  datatype History = History(slot: Slot, refusals: seq<int>, locks: seq<int>, time: int)

  function Apply(h: History, e: Event): History {
    match e
    case Cleared(now) => History(Absent, [], [], now)
    case Tried(a, now) =>
      var (slot, reply) := Try(h.slot, a, now);
      var refusals := if reply.Refused? then h.refusals + [now] else if slot.Absent? then [] else h.refusals;
      var locks := if reply.Locked? && slot != h.slot then h.locks + [now] else if slot.Absent? then [] else h.locks;
      History(slot, refusals, locks, now)
  }

  function Run(events: seq<Event>, start: int): History {
    if events == [] then History(Absent, [], [], start)
    else Apply(Run(events[..|events| - 1], start), events[|events| - 1])
  }

  ghost predicate Ordered(events: seq<Event>, start: int) {
    && (forall i :: 0 <= i < |events| ==> start <= events[i].now)
    && (forall i, j :: 0 <= i < j < |events| ==> events[i].now <= events[j].now)
  }

  /** A locked record lasts half an hour from its last lock, and an unlocked one began after that. */
  ghost predicate LocksInv(h: History) {
    && h.locks != [] && h.slot.Stored?
    && var until := h.locks[|h.locks| - 1] + LOCAL_LOGIN_LOCK_TTL_MS;
    if h.slot.record.locked then h.slot.record.expiresAt == until
    else h.refusals != [] && until <= h.refusals[|h.refusals| - 1]
  }

  /** A record counts the plain refusals of the current burst; a locked one stands for four and the
      attempt that locked it. */
  ghost predicate Inv(h: History) {
    var n := |h.refusals|;
    && Ascending(h.refusals)
    && (n > 0 ==> h.refusals[n - 1] <= h.time)
    && Spread(h.refusals, MAX_FAILED_LOCAL_LOGIN_ATTEMPTS - 1, LOCAL_LOGIN_ATTEMPT_TTL_MS)
    && (h.slot.Absent? <==> n == 0)
    && (h.locks != [] ==> LocksInv(h))
    && (h.slot.Stored? && h.slot.record.locked ==> h.locks != [])
    && (h.slot.Stored? ==>
          var r := h.slot.record;
          && 1 <= r.failedAttempts <= MAX_FAILED_LOCAL_LOGIN_ATTEMPTS
          && (r.locked <==> r.failedAttempts == MAX_FAILED_LOCAL_LOGIN_ATTEMPTS)
          && (!r.locked ==> Burst(h.refusals, LOCAL_LOGIN_ATTEMPT_TTL_MS) == r.failedAttempts)
          && (r.locked ==> h.refusals[n - 1] <= r.expiresAt - LOCAL_LOGIN_LOCK_TTL_MS)
          && (!r.locked ==> h.refusals[n - 1] == r.expiresAt - LOCAL_LOGIN_ATTEMPT_TTL_MS))
  }

  lemma TryKeeps(h: History, a: Attempt, now: int)
    requires Inv(h) && h.time <= now
    ensures Inv(Apply(h, Tried(a, now)))
  {
    hide Burst, Spread;
    var (slot, reply) := Try(h.slot, a, now);
    if reply.Refused? {
      BurstPush(h.refusals, LOCAL_LOGIN_ATTEMPT_TTL_MS, now);
      SpreadPush(h.refusals, MAX_FAILED_LOCAL_LOGIN_ATTEMPTS - 1, LOCAL_LOGIN_ATTEMPT_TTL_MS, now);
    } else if slot.Absent? {
      NothingSpread(MAX_FAILED_LOCAL_LOGIN_ATTEMPTS - 1, LOCAL_LOGIN_ATTEMPT_TTL_MS);
    }
  }

  lemma NothingSpread(limit: nat, gap: int)
    ensures Spread([], limit, gap)
  {
  }

  lemma {:induction false} RunKeeps(events: seq<Event>, start: int)
    requires Ordered(events, start)
    ensures Inv(Run(events, start))
    ensures Run(events, start).time == if events == [] then start else events[|events| - 1].now
  {
    if events != [] {
      var before, e := Run(events[..|events| - 1], start), events[|events| - 1];
      RunKeeps(events[..|events| - 1], start);
      if e.Tried? { TryKeeps(before, e.attempt, e.now); }
    }
  }

  /** A failure record always counts one to five, and is locked exactly at five. */
  lemma {:induction false} RecordCounts(events: seq<Event>, start: int)
    requires Ordered(events, start) && Run(events, start).slot.Stored?
    ensures var r := Run(events, start).slot.record;
            1 <= r.failedAttempts <= 5 && (r.locked <==> r.failedAttempts == 5)
  {
    RunKeeps(events, start);
  }

  /** Unless the record is cleared, any five plain refusals in a row take at least the fifteen minutes
      after which a record lapses: fewer than that, and the fifth wrong password is locked out. */
  lemma FivePlainRefusalsTakeLong(events: seq<Event>, start: int, i: nat)
    requires Ordered(events, start) && i + 4 < |Run(events, start).refusals|
    ensures Run(events, start).refusals[i + 4] - Run(events, start).refusals[i] >= 15 * 60 * 1000
  {
    RunKeeps(events, start);
  }

  /** So no window shorter than that without a clear holds more than four. */
  lemma AtMostFourPlainRefusals(events: seq<Event>, start: int, from: int, to: int)
    requires Ordered(events, start) && to - from <= 15 * 60 * 1000
    ensures CountIn(Run(events, start).refusals, from, to) <= 4
  {
    RunKeeps(events, start);
    SpreadBoundsWindows(Run(events, start).refusals, 4, LOCAL_LOGIN_ATTEMPT_TTL_MS, from, to);
  }

  /** A wrong password is answered as locked exactly for thirty minutes from the attempt that locked, and
      when it comes within fifteen minutes of the fourth plain refusal of a burst; only the latter locks. */
  lemma LockedExactly(events: seq<Event>, start: int, a: Attempt, now: int)
    requires Ordered(events, start) && Run(events, start).time <= now
    requires !a.known || !a.passwordValid
    ensures var h := Run(events, start);
            var after := Apply(h, Tried(a, now));
            var isLocked := h.locks != [] && now < h.locks[|h.locks| - 1] + 30 * 60 * 1000;
            var locks := !isLocked && h.refusals != [] && now < h.refusals[|h.refusals| - 1] + 15 * 60 * 1000 &&
                         Burst(h.refusals, 15 * 60 * 1000) == 4;
            && Try(h.slot, a, now).1 == (if isLocked || locks then Locked else Refused)
            && after.locks == h.locks + (if locks then [now] else [])
            && after.refusals == h.refusals + (if isLocked || locks then [] else [now])
  {
    hide Burst, Spread, Run, Ordered, Ascending;
    RunKeeps(events, start);
  }

  /** While a record is live, a wrong password is refused plainly exactly when fewer than four have been
      since the record began; a right one is never locked out. */
  lemma ReplyFollowsCount(events: seq<Event>, start: int, a: Attempt, now: int)
    requires Ordered(events, start) && Run(events, start).time <= now
    ensures var h := Run(events, start);
            var reply := Try(h.slot, a, now).1;
            if a.known && a.passwordValid then reply == (if a.emailVerified then SignedIn else NotVerified)
            else if Read(h.slot, now).Absent? then reply == Refused
            else if h.slot.record.locked || Burst(h.refusals, LOCAL_LOGIN_ATTEMPT_TTL_MS) == 4 then reply == Locked
            else reply == Refused
  {
    RunKeeps(events, start);
  }
}
