/** What decides each step of the read-through cache, in the clock, the deadlines and the tables
    themselves; and whole gets on a warm, a stale and a cold key. */
module SwrSteps {
  import opened CacheLifetimes
  import opened SwrProtocol
  import opened SwrProofs
  import opened SwrLock

  function After(s: State, i: nat): State {
    Step(s, AdvanceCall(i))
  }

  /** The step only moves the call to `pc`. */
  ghost predicate Goes(s: State, i: nat, pc: Pc) {
    i < |s.calls| && After(s, i) == s.(tick := s.tick + 1, calls := s.calls[i := s.calls[i].(pc := pc)])
  }

  // ----- generations, entries, new calls -----

  /** An invalidation raises the generation of its key alone by one, and no other event raises any. */
  lemma InvalidatesExactly(s: State, k: Key, q: Key, e: Event)
    ensures Generation(INITIAL, q) == 0
    ensures Generation(Step(s, Invalidate(k)), q) == Generation(s, q) + if q == k then 1 else 0
    ensures !e.Invalidate? ==> Generation(Step(s, e), q) == Generation(s, q)
  {
    hide StepCall, StepLoad;
    if e.AdvanceCall? && e.call < |s.calls| { StepCallStarts(s, e.call); }
    if e.AdvanceLoad? && e.load < |s.loads| { StepLoadLocks(s, e.load, e.fails, e.hit, e.random); }
  }

  lemma BeginsExactly(s: State, process: nat, k: Key, policy: Policy, ms: nat)
    ensures Step(s, BeginGet(process, k, policy)) ==
              s.(tick := s.tick + 1, calls := s.calls + [Call(process, k, policy, s.tick, Generation(s, k), GetStart)])
    ensures Step(s, Elapse(ms)) == s.(tick := s.tick + 1, now := s.now + ms)
  {
  }

  /** Each look at the store takes what stands there at that moment. */
  lemma ReadsExactly(s: State, i: nat)
    requires i < |s.calls|
    ensures var pc := s.calls[i].pc;
            var k := s.calls[i].key;
            && (pc.GetStart? ==> Goes(s, i, GetGeneration(Generation(s, k))))
            && (pc.GetGeneration? ==> Goes(s, i, GetEntry(pc.generation, ReadEntry(s, k, pc.generation))))
            && (pc.RebuildStart? ==> Goes(s, i, RebuildGeneration(Generation(s, k))))
            && (pc.Locked? ==> Goes(s, i, LockedGeneration(pc.expected, Generation(s, k))))
            && (pc.LockedLook? ==> Goes(s, i, LockedEntry(pc.generation, pc.mode, ReadEntry(s, k, pc.generation))))
            && (pc.PollStart? ==> Goes(s, i, PollGeneration(pc.deadline, Generation(s, k))))
            && (pc.PollLook? ==> Goes(s, i, PollEntry(pc.deadline, pc.generation, ReadEntry(s, k, pc.generation))))
            && (pc.TimedOut? ==> Goes(s, i, TimedOutGeneration(Generation(s, k))))
  {
    hide ReadEntry, Generation;
  }

  // ----- serving -----

  /** This process is loading the key for the generation. */
  predicate IsLoading(s: State, c: Call, generation: nat) {
    || PendingKey(c.process, c.key, generation, Rebuild) in s.pending
    || PendingKey(c.process, c.key, generation, Refresh) in s.pending
  }

  /** The call returns the stale entry, and a refresh call is started beside it. */
  ghost predicate ServesStale(s: State, i: nat, result: Result, first: Pc) {
    && i < |s.calls|
    && var c := s.calls[i];
    After(s, i) == s.(tick := s.tick + 1,
                      calls := s.calls[i := c.(pc := Done(result))] +
                        [Call(c.process, c.key, c.policy, s.tick, Generation(s, c.key), first)])
  }

  lemma GetServes(s: State, i: nat)
    requires i < |s.calls| && s.calls[i].pc.GetEntry?
    ensures var c, found, g := s.calls[i], s.calls[i].pc.found, s.calls[i].pc.generation;
            if found.None? || Max(found.value.freshUntil, found.value.staleUntil) <= s.now then Goes(s, i, RebuildStart)
            else if s.now < found.value.freshUntil then Goes(s, i, Done(FromStore(Entry(g, found.value), s.now)))
            else ServesStale(s, i, FromStore(Entry(g, found.value), s.now),
                             if IsLoading(s, c, g) then Done(Nothing) else TryLock(g, Some(g)))
  {
    hide Generation;
  }

  /** A get returns what it found at once exactly while that is fresh or stale, and goes to rebuild
      otherwise. A refresh is started exactly when it is stale and no longer fresh; it goes for the lock
      exactly when this process is not loading the key for the generation already. */
  lemma GetServesExactly(s: State, i: nat)
    requires i < |s.calls| && s.calls[i].pc.GetEntry?
    ensures var s', c, found, g := After(s, i), s.calls[i], s.calls[i].pc.found, s.calls[i].pc.generation;
            var stale := found.Some? && found.value.freshUntil <= s.now < found.value.staleUntil;
            && |s.calls| <= |s'.calls| && s' == s.(tick := s.tick + 1, calls := s'.calls)
            && (s'.calls[i].pc.Done? <==>
                  found.Some? && s.now < Max(found.value.freshUntil, found.value.staleUntil))
            && (s'.calls[i].pc.Done? ==> s'.calls[i].pc == Done(FromStore(Entry(g, found.value), s.now)))
            && (!s'.calls[i].pc.Done? ==> s'.calls[i].pc == RebuildStart)
            && |s'.calls| == |s.calls| + (if stale then 1 else 0)
            && (stale ==> (s'.calls[|s.calls|].pc == TryLock(g, Some(g)) <==> !IsLoading(s, c, g)))
            && (stale ==> s'.calls[|s.calls|].key == c.key && s'.calls[|s.calls|].process == c.process)
  {
    hide IsLoading, After, Generation;
    GetServes(s, i);
  }

  /** A poll returns what it found exactly while that is fresh or stale, and goes on polling otherwise. */
  lemma PollServesExactly(s: State, i: nat)
    requires i < |s.calls| && s.calls[i].pc.PollEntry?
    ensures var pc := s.calls[i].pc;
            if pc.found.Some? && s.now < Max(pc.found.value.freshUntil, pc.found.value.staleUntil)
            then Goes(s, i, Done(FromStore(Entry(pc.generation, pc.found.value), s.now)))
            else Goes(s, i, Polling(pc.deadline))
  {
  }

  /** Awaits the pending load of the mode, or starts one and awaits that. */
  ghost predicate AwaitsLoad(s: State, i: nat, g: nat, mode: Mode, direct: bool, locked: bool) {
    && i < |s.calls|
    && var s', c, pk := After(s, i), s.calls[i], PendingKey(s.calls[i].process, s.calls[i].key, g, mode);
    if pk in s.pending then Goes(s, i, Awaiting(s.pending[pk], false, locked))
    else
      s' == s.(tick := s.tick + 1, loads := s.loads + [Load(pk, direct, i, c.policy, Queued)],
               pending := s.pending[pk := |s.loads|],
               calls := s.calls[i := c.(pc := Awaiting(|s.loads|, true, locked))])
  }

  /** The holder of the lock takes what it found exactly while that is fresh, and otherwise awaits a load
      under the generation it read after getting the lock. */
  lemma LockedServesExactly(s: State, i: nat)
    requires i < |s.calls| && s.calls[i].pc.LockedEntry?
    ensures var pc := s.calls[i].pc;
            if pc.found.Some? && s.now < pc.found.value.freshUntil
            then Goes(s, i, Releasing(FromStore(Entry(pc.generation, pc.found.value), s.now)))
            else AwaitsLoad(s, i, pc.generation, pc.mode, false, true)
  {
  }

  // ----- lock, single flight, waiting -----

  /** The rebuild lock is got exactly when no lease on the key ends later; its lease lasts as the policy
      says. Who misses it follows if it is a get, and gives up if it is a refresh. */
  lemma LocksExactly(s: State, i: nat)
    requires i < |s.calls| && s.calls[i].pc.TryLock?
    ensures var c := s.calls[i];
            var until := s.now + c.policy.rebuildLockTtlMs;
            if c.key in s.locks && s.now < s.locks[c.key].expiresAt
            then Goes(s, i, if c.pc.expected.Some? then Done(Nothing) else LockMissed(c.pc.generation))
            else After(s, i) == s.(tick := s.tick + 1, locks := s.locks[c.key := Lease(i, until)],
                                   leases := s.leases[i := until],
                                   calls := s.calls[i := c.(pc := Locked(c.pc.expected))])
  {
  }

  /** A refresh goes on exactly if the generation is still the one it was started for. */
  lemma RefreshChecksGeneration(s: State, i: nat)
    requires i < |s.calls| && s.calls[i].pc.LockedGeneration?
    ensures var pc := s.calls[i].pc;
            Goes(s, i, match pc.expected
                       case None => LockedLook(pc.generation, Rebuild)
                       case Some(g) => if g == pc.generation then LockedLook(g, Refresh) else Releasing(Nothing))
  {
  }

  /** The lock is given back if it is still the call's own, and the call ends with its result. */
  lemma ReleasesExactly(s: State, i: nat)
    requires i < |s.calls| && s.calls[i].pc.Releasing?
    ensures var c := s.calls[i];
            After(s, i) == s.(tick := s.tick + 1, calls := s.calls[i := c.(pc := Done(c.pc.result))],
                              locks := if c.key in s.locks && s.locks[c.key].owner == i then s.locks - {c.key}
                                       else s.locks)
  {
  }

  /** A call joins a load of its process for its key and generation exactly when there is one, a rebuild
      before a refresh. */
  lemma JoinsExactly(s: State, i: nat)
    requires i < |s.calls|
    requires s.calls[i].pc.RebuildGeneration? || s.calls[i].pc.LockMissed? || s.calls[i].pc.PollGeneration?
    ensures var c := s.calls[i];
            var g := c.pc.generation;
            var rebuild := PendingKey(c.process, c.key, g, Rebuild);
            var refresh := PendingKey(c.process, c.key, g, Refresh);
            Goes(s, i, if rebuild in s.pending then Joining(s.pending[rebuild])
                       else if refresh in s.pending then Joining(s.pending[refresh])
                       else match c.pc
                         case RebuildGeneration(_) => TryLock(g, None)
                         case LockMissed(_) => Polling(s.now + c.policy.followerWaitTimeoutMs)
                         case _ => PollLook(c.pc.deadline, g))
  {
  }

  /** A follower polls again exactly before its deadline; after it, it awaits a load of its own process,
      started as a fallback if there is none. */
  lemma WaitsExactly(s: State, i: nat)
    requires i < |s.calls|
    ensures var pc := s.calls[i].pc;
            && (pc.Polling? ==> Goes(s, i, if s.now < pc.deadline then PollStart(pc.deadline) else TimedOut))
            && (pc.TimedOutGeneration? ==> AwaitsLoad(s, i, pc.generation, Rebuild, true, false))
  {
  }

  /** The step goes on exactly when the load is over, with its value or its failure; who owns the load
      takes it off the table, and who holds the lock has it to release. */
  ghost predicate Concludes(s: State, s': State, i: nat, l: nat, owns: bool, locked: bool) {
    && i < |s.calls|
    && if l < |s.loads| && (s.loads[l].phase.Settled? || s.loads[l].phase.LoadFailed?) then
         var result := if s.loads[l].phase.Settled? then FromLoad(s.loads[l].phase.entry) else Failed;
         var pk := s.loads[l].pendingKey;
         s' == s.(tick := s.tick + 1,
                  calls := s.calls[i := s.calls[i].(pc := if locked then Releasing(result) else Done(result))],
                  pending := if owns && pk in s.pending && s.pending[pk] == l then s.pending - {pk} else s.pending)
       else s' == s.(tick := s.tick + 1)
  }

  lemma AwaitsExactly(s: State, i: nat)
    requires i < |s.calls|
    ensures match s.calls[i].pc
            case Joining(l) => Concludes(s, After(s, i), i, l, false, false)
            case Awaiting(l, owns, locked) => Concludes(s, After(s, i), i, l, owns, locked)
            case _ => true
  {
    hide FinishAwait, Concludes;
    match s.calls[i].pc
    case Joining(l) => FinishExactly(s, i, l, false, false);
    case Awaiting(l, owns, locked) => FinishExactly(s, i, l, owns, locked);
    case _ =>
  }

  lemma FinishExactly(s: State, i: nat, l: nat, owns: bool, locked: bool)
    requires i < |s.calls|
    ensures Concludes(s, FinishAwait(s, i, l, owns, locked).(tick := s.tick + 1), i, l, owns, locked)
  {
  }

  // ----- loads -----

  ghost predicate LoadGoes(s: State, e: Event, phase: Phase) {
    && e.AdvanceLoad? && e.load < |s.loads|
    && Step(s, e) == s.(tick := s.tick + 1, loads := s.loads[e.load := s.loads[e.load].(phase := phase)])
  }

  /** The entry stands in the store until `expiresAt`, and the load has settled with it. */
  ghost predicate Stores(s: State, e: Event, entry: Entry, expiresAt: int) {
    && e.AdvanceLoad? && e.load < |s.loads|
    && var ld := s.loads[e.load];
    Step(s, e) == s.(tick := s.tick + 1,
                     entries := s.entries[(ld.pendingKey.key, entry.generation) :=
                       Stored(entry.envelope, s.now, expiresAt)],
                     writes := s.writes + {(ld.pendingKey.key, entry)},
                     loads := s.loads[e.load := ld.(phase := Settled(entry))])
  }

  /** A load runs its loader and makes an entry of what that returned: under the generation it was started
      for, or, in the fallback, unless it finds an entry under the generation of that moment, under that one. */
  lemma LoadsExactly(s: State, e: Event)
    requires e.AdvanceLoad? && e.load < |s.loads| && !e.fails
    ensures var ld := s.loads[e.load];
            var k := ld.pendingKey.key;
            match ld.phase
            case Queued => LoadGoes(s, e, Loading(s.tick, Generation(s, k)))
            case Loading(start, g0) => LoadGoes(s, e, Loaded(start, g0, e.hit))
            case Loaded(start, g0, hit) =>
              if ld.direct then LoadGoes(s, e, DirectGeneration(start, g0, hit, Generation(s, k)))
              else LoadGoes(s, e, Writing(
                Entry(ld.pendingKey.generation, MakeEnvelope(ld.policy, hit, e.random, s.now, start, g0, false)),
                RedisTtlSeconds(ld.policy, hit, e.random)))
            case DirectGeneration(start, g0, hit, g) =>
              LoadGoes(s, e, DirectEntry(start, g0, hit, g, ReadEntry(s, k, g)))
            case DirectEntry(start, g0, hit, g, found) =>
              if found.Some? then LoadGoes(s, e, Settled(Entry(g, found.value)))
              else LoadGoes(s, e, Writing(
                Entry(g, MakeEnvelope(ld.policy, hit, e.random, s.now, start, g0, ld.direct)),
                RedisTtlSeconds(ld.policy, hit, e.random)))
            case Writing(entry, seconds) => Stores(s, e, entry, s.now + 1000 * seconds)
            case _ => Step(s, e) == s.(tick := s.tick + 1)
  {
    hide Generation, ReadEntry, MakeEnvelope, RedisTtlSeconds, LoadGoes, SetPhase, Stores, StoreEntry;
    var ld := s.loads[e.load];
    var k := ld.pendingKey.key;
    match ld.phase
    case Queued => SetPhaseGoes(s, e, Loading(s.tick, Generation(s, k)));
    case Loading(start, g0) => SetPhaseGoes(s, e, Loaded(start, g0, e.hit));
    case Loaded(start, g0, hit) =>
      SetPhaseGoes(s, e, if ld.direct then DirectGeneration(start, g0, hit, Generation(s, k))
                         else BeginWrite(s, ld, start, g0, hit, e.random, ld.pendingKey.generation));
    case DirectGeneration(start, g0, hit, g) => SetPhaseGoes(s, e, DirectEntry(start, g0, hit, g, ReadEntry(s, k, g)));
    case DirectEntry(start, g0, hit, g, found) =>
      SetPhaseGoes(s, e, if found.Some? then Settled(Entry(g, found.value))
                         else BeginWrite(s, ld, start, g0, hit, e.random, g));
    case Writing(entry, seconds) => StoresExactly(s, e, entry, seconds);
    case _ =>
  }

  lemma SetPhaseGoes(s: State, e: Event, phase: Phase)
    requires e.AdvanceLoad? && e.load < |s.loads|
    requires StepLoad(s, e.load, e.fails, e.hit, e.random) == SetPhase(s, e.load, phase)
    ensures LoadGoes(s, e, phase)
  {
    hide StepLoad;
  }

  lemma StoresExactly(s: State, e: Event, entry: Entry, seconds: int)
    requires e.AdvanceLoad? && e.load < |s.loads|
    requires StepLoad(s, e.load, e.fails, e.hit, e.random) == StoreEntry(s, e.load, entry, seconds)
    ensures Stores(s, e, entry, s.now + 1000 * seconds)
  {
    hide StepLoad;
  }

  /** What a load stores is found by every look under its generation for its lifetime in the store, and by
      none after that, while nothing overwrites it. */
  lemma StoredLasts(s: State, e: Event, s2: State)
    requires e.AdvanceLoad? && e.load < |s.loads| && !e.fails && s.loads[e.load].phase.Writing?
    requires var at := (s.loads[e.load].pendingKey.key, s.loads[e.load].phase.entry.generation);
             at in s2.entries && s2.entries[at] == Step(s, e).entries[at]
    ensures var phase := s.loads[e.load].phase;
            ReadEntry(s2, s.loads[e.load].pendingKey.key, phase.entry.generation) ==
              if s2.now < s.now + 1000 * phase.seconds then Some(phase.entry.envelope) else None
  {
    LoadsExactly(s, e);
  }

  /** A failure ends a load that was not over, and stores nothing. */
  lemma FailsExactly(s: State, e: Event)
    requires e.AdvanceLoad? && e.load < |s.loads| && e.fails
    ensures if s.loads[e.load].phase.Settled? then Step(s, e) == s.(tick := s.tick + 1) else LoadGoes(s, e, LoadFailed)
  {
  }

  // ----- whole gets -----

  /** State `s` with one more call, which stands at `pc` after `n` more steps. */
  function At(s: State, n: nat, c: Call, pc: Pc): State {
    s.(tick := s.tick + n, calls := s.calls + [c.(pc := pc)])
  }

  lemma Onward(s: State, n: nat, c: Call, pc: Pc, next: Pc)
    requires Goes(At(s, n, c, pc), |s.calls|, next)
    ensures After(At(s, n, c, pc), |s.calls|) == At(s, n + 1, c, next)
  {
    hide After;
  }

  /** `n` steps of one call, in a row. */
  function Alone(s: State, i: nat, n: nat): State {
    if n == 0 then s else After(Alone(s, i, n - 1), i)
  }

  function Called(s: State, process: nat, k: Key, policy: Policy): Call {
    Call(process, k, policy, s.tick, Generation(s, k), GetStart)
  }

  lemma Looks(s: State, process: nat, k: Key, policy: Policy)
    ensures var g := Generation(s, k);
            Alone(Step(s, BeginGet(process, k, policy)), |s.calls|, 2) ==
              At(s, 3, Called(s, process, k, policy), GetEntry(g, ReadEntry(s, k, g)))
  {
    hide Goes;
    var i, g, c := |s.calls|, Generation(s, k), Called(s, process, k, policy);
    var s1 := Step(s, BeginGet(process, k, policy));
    assert s1 == At(s, 1, c, GetStart);
    hide Step, After;
    ReadsExactly(s1, i);
    Onward(s, 1, c, GetStart, GetGeneration(g));
    ReadsExactly(At(s, 2, c, GetGeneration(g)), i);
    Onward(s, 2, c, GetGeneration(g), GetEntry(g, ReadEntry(s, k, g)));
    assert Alone(s1, i, 0) == s1;
    assert Alone(s1, i, 1) == At(s, 2, c, GetGeneration(g));
  }

  /** A get that finds a servable entry under the current generation returns it after three steps. */
  lemma WarmGet(s: State, process: nat, k: Key, policy: Policy)
    requires ReadEntry(s, k, Generation(s, k)).Some?
    requires var e := ReadEntry(s, k, Generation(s, k)).value; s.now < Max(e.freshUntil, e.staleUntil)
    ensures var g := Generation(s, k);
            var s' := Alone(Step(s, BeginGet(process, k, policy)), |s.calls|, 3);
            && |s.calls| < |s'.calls|
            && s'.calls[|s.calls|].pc == Done(FromStore(Entry(g, ReadEntry(s, k, g).value), s.now))
  {
    hide Step, After, ReadEntry, Generation;
    var g, c := Generation(s, k), Called(s, process, k, policy);
    Looks(s, process, k, policy);
    var s3 := At(s, 3, c, GetEntry(g, ReadEntry(s, k, g)));
    GetServes(s3, |s.calls|);
  }

  /** Nothing to serve, nobody to follow: no servable entry, no lock, no load. */
  ghost predicate Cold(s: State, process: nat, k: Key) {
    var g := Generation(s, k);
    var found := ReadEntry(s, k, g);
    && (found.Some? ==> Max(found.value.freshUntil, found.value.staleUntil) <= s.now)
    && (k in s.locks ==> s.locks[k].expiresAt <= s.now)
    && PendingKey(process, k, g, Rebuild) !in s.pending && PendingKey(process, k, g, Refresh) !in s.pending
  }

  lemma {:induction false} GoesForLock(s: State, process: nat, k: Key, policy: Policy)
    requires Cold(s, process, k)
    ensures var g := Generation(s, k);
            Alone(Step(s, BeginGet(process, k, policy)), |s.calls|, 5) ==
              At(s, 6, Called(s, process, k, policy), TryLock(g, None))
  {
    hide After, Goes, Step;
    var i, g, c := |s.calls|, Generation(s, k), Called(s, process, k, policy);
    var s1, found := Step(s, BeginGet(process, k, policy)), ReadEntry(s, k, g);
    Looks(s, process, k, policy);
    GetServes(At(s, 3, c, GetEntry(g, found)), i);
    Onward(s, 3, c, GetEntry(g, found), RebuildStart);
    ReadsExactly(At(s, 4, c, RebuildStart), i);
    Onward(s, 4, c, RebuildStart, RebuildGeneration(g));
    JoinsExactly(At(s, 5, c, RebuildGeneration(g)), i);
    Onward(s, 5, c, RebuildGeneration(g), TryLock(g, None));
    hide ReadEntry;
    assert Alone(s1, i, 3) == After(Alone(s1, i, 2), i);
    assert Alone(s1, i, 4) == After(Alone(s1, i, 3), i);
  }

  /** State `s` once call `i` holds the lock of `k`. */
  function WithLock(s: State, k: Key, i: nat, until: int): State {
    s.(locks := s.locks[k := Lease(i, until)], leases := s.leases[i := until])
  }

  lemma {:induction false} LooksAgain(s: State, c: Call, g: nat)
    requires Cold(s, c.process, c.key) && g == Generation(s, c.key)
    ensures Alone(At(s, 6, c, TryLock(g, None)), |s.calls|, 4) ==
              At(WithLock(s, c.key, |s.calls|, s.now + c.policy.rebuildLockTtlMs), 10, c,
                 LockedEntry(g, Rebuild, ReadEntry(s, c.key, g)))
  {
    hide After, Goes, Step;
    var i, k := |s.calls|, c.key;
    var s6 := At(s, 6, c, TryLock(g, None));
    var b := WithLock(s, k, i, s.now + c.policy.rebuildLockTtlMs);
    LocksExactly(s6, i);
    assert Alone(s6, i, 0) == s6;
    assert Alone(s6, i, 1) == At(b, 7, c, Locked(None));
    hide Alone;
    ReadsExactly(At(b, 7, c, Locked(None)), i);
    Onward(b, 7, c, Locked(None), LockedGeneration(None, g));
    RefreshChecksGeneration(At(b, 8, c, LockedGeneration(None, g)), i);
    Onward(b, 8, c, LockedGeneration(None, g), LockedLook(g, Rebuild));
    ReadsExactly(At(b, 9, c, LockedLook(g, Rebuild)), i);
    Onward(b, 9, c, LockedLook(g, Rebuild), LockedEntry(g, Rebuild, ReadEntry(s, k, g)));
    hide ReadEntry, Generation;
    AloneFour(s6, i);
  }

  lemma AloneFour(s: State, i: nat)
    ensures Alone(s, i, 4) == After(After(After(Alone(s, i, 1), i), i), i)
  {
    hide After;
    assert Alone(s, i, 3) == After(Alone(s, i, 2), i);
  }

  /** `n` steps of one load, in a row. */
  function LoadAlone(s: State, l: nat, n: nat, hit: bool, random: real): State {
    if n == 0 then s else Step(LoadAlone(s, l, n - 1, hit, random), AdvanceLoad(l, false, hit, random))
  }

  /** State `s` with one more load, in the table of pending loads. */
  function WithLoad(s: State, ld: Load, phase: Phase): State {
    s.(loads := s.loads + [ld.(phase := phase)], pending := s.pending[ld.pendingKey := |s.loads|])
  }

  function Writes(s: State, k: Key, entry: Entry, seconds: int): State {
    s.(entries := s.entries[(k, entry.generation) := Stored(entry.envelope, s.now, s.now + 1000 * seconds)],
       writes := s.writes + {(k, entry)})
  }

  lemma LoadOnward(s: State, n: nat, c: Call, pc: Pc, ld: Load, phase: Phase, e: Event, next: Phase)
    requires e.AdvanceLoad? && e.load == |s.loads|
    requires LoadGoes(At(WithLoad(s, ld, phase), n, c, pc), e, next)
    ensures Step(At(WithLoad(s, ld, phase), n, c, pc), e) == At(WithLoad(s, ld, next), n + 1, c, pc)
  {
    hide Step;
  }

  lemma {:induction false} LoadsAndStores(s: State, c: Call, pc: Pc, ld: Load, hit: bool, random: real)
    requires !ld.direct
    ensures var k, g0 := ld.pendingKey.key, Generation(s, ld.pendingKey.key);
            var entry := Entry(ld.pendingKey.generation,
                               MakeEnvelope(ld.policy, hit, random, s.now, s.tick + 11, g0, false));
            LoadAlone(At(WithLoad(s, ld, Queued), 11, c, pc), |s.loads|, 4, hit, random) ==
              At(WithLoad(Writes(s, k, entry, RedisTtlSeconds(ld.policy, hit, random)), ld, Settled(entry)), 15, c, pc)
  {
    hide Step, LoadGoes, Stores, MakeEnvelope, RedisTtlSeconds;
    var l, e, g0 := |s.loads|, AdvanceLoad(|s.loads|, false, hit, random), Generation(s, ld.pendingKey.key);
    var entry := Entry(ld.pendingKey.generation, MakeEnvelope(ld.policy, hit, random, s.now, s.tick + 11, g0, false));
    var seconds := RedisTtlSeconds(ld.policy, hit, random);
    var s11 := At(WithLoad(s, ld, Queued), 11, c, pc);
    var s14 := At(WithLoad(s, ld, Writing(entry, seconds)), 14, c, pc);
    LoadsExactly(s11, e);
    LoadOnward(s, 11, c, pc, ld, Queued, e, Loading(s.tick + 11, g0));
    LoadsExactly(At(WithLoad(s, ld, Loading(s.tick + 11, g0)), 12, c, pc), e);
    LoadOnward(s, 12, c, pc, ld, Loading(s.tick + 11, g0), e, Loaded(s.tick + 11, g0, hit));
    LoadsExactly(At(WithLoad(s, ld, Loaded(s.tick + 11, g0, hit)), 13, c, pc), e);
    LoadOnward(s, 13, c, pc, ld, Loaded(s.tick + 11, g0, hit), e, Writing(entry, seconds));
    LoadsExactly(s14, e);
    assert Step(s14, e) == At(WithLoad(Writes(s, ld.pendingKey.key, entry, seconds), ld, Settled(entry)), 15, c, pc)
      by { Written(s, c, pc, ld, entry, seconds, e); }
    assert LoadAlone(s11, l, 1, hit, random) == Step(LoadAlone(s11, l, 0, hit, random), e);
    assert LoadAlone(s11, l, 2, hit, random) == Step(LoadAlone(s11, l, 1, hit, random), e);
    assert LoadAlone(s11, l, 3, hit, random) == Step(LoadAlone(s11, l, 2, hit, random), e);
  }

  lemma Written(s: State, c: Call, pc: Pc, ld: Load, entry: Entry, seconds: int, e: Event)
    requires e.AdvanceLoad? && e.load == |s.loads|
    requires Stores(At(WithLoad(s, ld, Writing(entry, seconds)), 14, c, pc), e, entry, s.now + 1000 * seconds)
    ensures Step(At(WithLoad(s, ld, Writing(entry, seconds)), 14, c, pc), e) ==
              At(WithLoad(Writes(s, ld.pendingKey.key, entry, seconds), ld, Settled(entry)), 15, c, pc)
  {
    hide Step;
  }

  lemma {:induction false} Starts(s: State, process: nat, k: Key, policy: Policy)
    requires Cold(s, process, k)
    ensures var i, c, g := |s.calls|, Called(s, process, k, policy), Generation(s, k);
            var ld := Load(PendingKey(process, k, g, Rebuild), false, i, policy, Queued);
            Alone(Step(s, BeginGet(process, k, policy)), i, 10) ==
              At(WithLoad(WithLock(s, k, i, s.now + policy.rebuildLockTtlMs), ld, Queued), 11, c,
                 Awaiting(|s.loads|, true, true))
  {
    hide After, Step;
    var i, c, g := |s.calls|, Called(s, process, k, policy), Generation(s, k);
    var b := WithLock(s, k, i, s.now + policy.rebuildLockTtlMs);
    var s1, s6 := Step(s, BeginGet(process, k, policy)), At(s, 6, c, TryLock(g, None));
    var s10 := At(b, 10, c, LockedEntry(g, Rebuild, ReadEntry(s, k, g)));
    GoesForLock(s, process, k, policy);
    LooksAgain(s, c, g);
    assert Alone(s1, i, 9) == s10 by {
      hide Cold, ReadEntry, Generation;
      AloneFour(s6, i);
      assert Alone(s6, i, 1) == After(Alone(s6, i, 0), i);
      assert Alone(s1, i, 7) == After(Alone(s1, i, 6), i);
      assert Alone(s1, i, 8) == After(Alone(s1, i, 7), i);
    }
    assert Alone(s1, i, 10) == After(Alone(s1, i, 9), i);
    LockedServesExactly(s10, i);
    hide Alone;
  }

  lemma {:induction false} Ends(s: State, c: Call, ld: Load, entry: Entry)
    requires ld.pendingKey !in s.pending && c.key in s.locks && s.locks[c.key].owner == |s.calls|
    ensures Alone(At(WithLoad(s, ld, Settled(entry)), 15, c, Awaiting(|s.loads|, true, true)), |s.calls|, 2) ==
              At(s.(loads := s.loads + [ld.(phase := Settled(entry))], locks := s.locks - {c.key}), 17, c,
                 Done(FromLoad(entry)))
  {
    hide After;
    var i := |s.calls|;
    var s15 := At(WithLoad(s, ld, Settled(entry)), 15, c, Awaiting(|s.loads|, true, true));
    var s16 := At(s.(loads := s.loads + [ld.(phase := Settled(entry))]), 16, c, Releasing(FromLoad(entry)));
    AwaitsExactly(s15, i);
    assert s.pending[ld.pendingKey := |s.loads|] - {ld.pendingKey} == s.pending;
    assert After(s15, i) == s16;
    hide Concludes;
    assert Alone(s15, i, 1) == After(Alone(s15, i, 0), i);
    ReleasesExactly(s16, i);
  }

  /** The load a get starts in state `s`, and the entry that load makes. */
  function LoadFor(s: State, c: Call): Load {
    Load(PendingKey(c.process, c.key, c.begunGeneration, Rebuild), false, |s.calls|, c.policy, Queued)
  }

  function EntryFor(s: State, c: Call, hit: bool, random: real): Entry {
    Entry(c.begunGeneration, MakeEnvelope(c.policy, hit, random, s.now, s.tick + 11, c.begunGeneration, false))
  }

  function WaitingFor(b: State, c: Call, ld: Load): State {
    At(WithLoad(b, ld, Queued), 11, c, Awaiting(|b.loads|, true, true))
  }

  function EndedWith(w: State, c: Call, ld: Load, entry: Entry): State {
    At(w.(loads := w.loads + [ld.(phase := Settled(entry))], locks := w.locks - {c.key}), 17, c,
       Done(FromLoad(entry)))
  }

  lemma {:induction false} GetsCold(s: State, process: nat, k: Key, policy: Policy, hit: bool, random: real)
    requires Cold(s, process, k)
    ensures var c := Called(s, process, k, policy);
            var b := WithLock(s, k, |s.calls|, s.now + policy.rebuildLockTtlMs);
            var waiting := WaitingFor(b, c, LoadFor(s, c));
            && Alone(Step(s, BeginGet(process, k, policy)), |s.calls|, 10) == waiting
            && Alone(LoadAlone(waiting, |s.loads|, 4, hit, random), |s.calls|, 2) ==
                 EndedWith(Writes(b, k, EntryFor(s, c, hit, random), RedisTtlSeconds(policy, hit, random)), c,
                           LoadFor(s, c), EntryFor(s, c, hit, random))
  {
    hide Step, Alone, LoadAlone, MakeEnvelope, RedisTtlSeconds, At;
    var c := Called(s, process, k, policy);
    var b := WithLock(s, k, |s.calls|, s.now + policy.rebuildLockTtlMs);
    var ld, entry := LoadFor(s, c), EntryFor(s, c, hit, random);
    Starts(s, process, k, policy);
    LoadsAndStores(b, c, Awaiting(|s.loads|, true, true), ld, hit, random);
    Ends(Writes(b, k, entry, RedisTtlSeconds(policy, hit, random)), c, ld, entry);
  }

  /** A get that finds nothing to serve and nobody to follow takes the lock, runs the loader, stores what
      it made of it under the current generation, gives the lock back and returns that entry. */
  lemma {:induction false} ColdGet(s: State, process: nat, k: Key, policy: Policy, hit: bool, random: real)
    requires Cold(s, process, k)
    ensures var i, g := |s.calls|, Generation(s, k);
            var envelope := MakeEnvelope(policy, hit, random, s.now, s.tick + 11, g, false);
            var waiting := Alone(Step(s, BeginGet(process, k, policy)), i, 10);
            var s' := Alone(LoadAlone(waiting, |s.loads|, 4, hit, random), i, 2);
            && i < |s'.calls| && s'.calls[i].pc == Done(FromLoad(Entry(g, envelope)))
            && s'.entries == s.entries[(k, g) :=
                 Stored(envelope, s.now, s.now + 1000 * RedisTtlSeconds(policy, hit, random))]
            && s'.locks == s.locks - {k} && s'.pending == s.pending
            && k in waiting.locks && waiting.locks[k] == Lease(i, s.now + policy.rebuildLockTtlMs)
  {
    hide Step, Alone, LoadAlone, MakeEnvelope, RedisTtlSeconds, Cold;
    GetsCold(s, process, k, policy, hit, random);
    assert s.locks[k := Lease(|s.calls|, s.now + policy.rebuildLockTtlMs)] - {k} == s.locks - {k};
  }
}
