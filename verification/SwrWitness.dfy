/** Two runs of the read-through cache under its default policy in which a follower gives up waiting
    and loads by itself. In one it stores, under a newer generation, a value it loaded before an
    invalidation; in the other it returns an entry that is past its stale deadline. */
module SwrWitness {
  import opened CacheLifetimes
  import opened SwrProtocol
  import opened SwrInvariant
  import opened SwrTheorems

  const POLICY := Policy(15.0, 60.0, 5000, 150, 10.0, 0.1)
  const POLL_INTERVAL_MS: nat := 15
  const TIMEOUT_MS: nat := 150
  const KEY: Key := ("postings", "1")

  lemma RunSnoc(es: seq<Event>, e: Event)
    ensures Run(INITIAL, es + [e]) == Step(Run(INITIAL, es), e)
  {
    assert (es + [e])[..|es|] == es;
  }

  /** Advances call `i` by steps that only move its program counter to `pc`. */
  lemma Moves(es: seq<Event>, s: State, i: nat, pc: Pc)
    requires Run(INITIAL, es) == s && i < |s.calls|
    requires StepCall(s, i) == SetPc(s, i, pc)
    ensures Run(INITIAL, es + [AdvanceCall(i)]) == SetPc(s.(tick := s.tick + 1), i, pc)
  {
    hide StepCall;
    RunSnoc(es, AdvanceCall(i));
  }

  // ----- a leader in process 0 gets the lock -----

  /** The first call holds the rebuild lock and has not gone on; nothing was stored. */
  ghost predicate LeaderHolds(s: State) {
    && s.invalidated == map[] && s.entries == map[] && s.writes == {}
    && s.locks == map[KEY := Lease(0, 5000)]
    && |s.calls| > 0 && s.calls[0] == Call(0, KEY, POLICY, 0, 0, Locked(None))
  }

  lemma LeaderTakesLock() returns (es: seq<Event>)
    ensures var s := Run(INITIAL, es);
            LeaderHolds(s) && s.now == 0 && |s.calls| == 1 && s.loads == [] && s.pending == map[]
  {
    es := [BeginGet(0, KEY, POLICY)];
    assert es == [] + [BeginGet(0, KEY, POLICY)];
    RunSnoc([], BeginGet(0, KEY, POLICY));
    var s := Run(INITIAL, es);
    assert s == INITIAL.(tick := 1, calls := [Call(0, KEY, POLICY, 0, 0, GetStart)]);
    Moves(es, s, 0, GetGeneration(0));
    es := es + [AdvanceCall(0)]; s := SetPc(s.(tick := s.tick + 1), 0, GetGeneration(0));
    Moves(es, s, 0, GetEntry(0, None));
    es := es + [AdvanceCall(0)]; s := SetPc(s.(tick := s.tick + 1), 0, GetEntry(0, None));
    Moves(es, s, 0, RebuildStart);
    es := es + [AdvanceCall(0)]; s := SetPc(s.(tick := s.tick + 1), 0, RebuildStart);
    Moves(es, s, 0, RebuildGeneration(0));
    es := es + [AdvanceCall(0)]; s := SetPc(s.(tick := s.tick + 1), 0, RebuildGeneration(0));
    Moves(es, s, 0, TryLock(0, None));
    es := es + [AdvanceCall(0)]; s := SetPc(s.(tick := s.tick + 1), 0, TryLock(0, None));
    RunSnoc(es, AdvanceCall(0));
    es := es + [AdvanceCall(0)];
    assert Run(INITIAL, es).calls == [Call(0, KEY, POLICY, 0, 0, Locked(None))];
  }

  // ----- a follower in process 1 polls until its deadline -----

  ghost predicate FollowerAt(s: State, now: nat, pc: Pc) {
    && LeaderHolds(s) && s.now == now
    && |s.calls| == 2 && s.loads == [] && s.pending == map[]
    && s.calls[1].process == 1 && s.calls[1].key == KEY && s.calls[1].policy == POLICY
    && s.calls[1].pc == pc
  }

  /** What a follower that finds nothing does next, up to its wait. */
  function Asks(pc: Pc): Pc {
    match pc
    case GetStart => GetGeneration(0)
    case GetGeneration(_) => GetEntry(0, None)
    case GetEntry(_, _) => RebuildStart
    case RebuildStart => RebuildGeneration(0)
    case RebuildGeneration(_) => TryLock(0, None)
    case TryLock(_, _) => LockMissed(0)
    case _ => Polling(TIMEOUT_MS)
  }

  /** And in its wait, when it began at time 0. */
  function Polls(now: nat, pc: Pc): Pc {
    match pc
    case Polling(_) => if now < TIMEOUT_MS then PollStart(TIMEOUT_MS) else TimedOut
    case PollStart(_) => PollGeneration(TIMEOUT_MS, 0)
    case PollGeneration(_, _) => PollLook(TIMEOUT_MS, 0)
    case PollLook(_, _) => PollEntry(TIMEOUT_MS, 0, None)
    case PollEntry(_, _, _) => Polling(TIMEOUT_MS)
    case _ => TimedOutGeneration(0)
  }

  lemma FollowerAsks(es: seq<Event>, pc: Pc) returns (more: seq<Event>)
    requires FollowerAt(Run(INITIAL, es), 0, pc)
    requires pc in {GetStart, GetGeneration(0), GetEntry(0, None), RebuildStart, RebuildGeneration(0),
                    TryLock(0, None), LockMissed(0)}
    ensures FollowerAt(Run(INITIAL, more), 0, Asks(pc))
  {
    Moves(es, Run(INITIAL, es), 1, Asks(pc));
    more := es + [AdvanceCall(1)];
  }

  lemma FollowerPolls(es: seq<Event>, now: nat, pc: Pc) returns (more: seq<Event>)
    requires FollowerAt(Run(INITIAL, es), now, pc)
    requires pc in {Polling(TIMEOUT_MS), PollStart(TIMEOUT_MS), PollGeneration(TIMEOUT_MS, 0),
                    PollLook(TIMEOUT_MS, 0), PollEntry(TIMEOUT_MS, 0, None), TimedOut}
    ensures FollowerAt(Run(INITIAL, more), now, Polls(now, pc))
  {
    Moves(es, Run(INITIAL, es), 1, Polls(now, pc));
    more := es + [AdvanceCall(1)];
  }

  lemma FollowerWaits(es: seq<Event>, now: nat, pc: Pc, ms: nat) returns (more: seq<Event>)
    requires FollowerAt(Run(INITIAL, es), now, pc)
    ensures FollowerAt(Run(INITIAL, more), now + ms, pc)
  {
    hide Run;
    RunSnoc(es, Elapse(ms));
    more := es + [Elapse(ms)];
  }

  lemma FollowerBegins(es: seq<Event>)
    requires LeaderHolds(Run(INITIAL, es)) && Run(INITIAL, es).now == 0 && |Run(INITIAL, es).calls| == 1
    requires Run(INITIAL, es).loads == [] && Run(INITIAL, es).pending == map[]
    ensures FollowerAt(Run(INITIAL, es + [BeginGet(1, KEY, POLICY)]), 0, GetStart)
  {
    hide Run;
    RunSnoc(es, BeginGet(1, KEY, POLICY));
  }

  /** It misses the lock, sleeps, polls in vain, waits for a slow reply, and is past its deadline while
      the leader's lease has long to run. */
  lemma FollowerGivesUp() returns (es: seq<Event>)
    ensures FollowerAt(Run(INITIAL, es), TIMEOUT_MS, TimedOutGeneration(0))
  {
    hide FollowerAt, Run, LeaderHolds;
    es := LeaderTakesLock();
    FollowerBegins(es);
    es := es + [BeginGet(1, KEY, POLICY)];
    es := FollowerAsks(es, GetStart);
    es := FollowerAsks(es, GetGeneration(0));
    es := FollowerAsks(es, GetEntry(0, None));
    es := FollowerAsks(es, RebuildStart);
    es := FollowerAsks(es, RebuildGeneration(0));
    es := FollowerAsks(es, TryLock(0, None));
    es := FollowerAsks(es, LockMissed(0));
    es := FollowerPolls(es, 0, Polling(TIMEOUT_MS));
    es := FollowerWaits(es, 0, PollStart(TIMEOUT_MS), POLL_INTERVAL_MS);
    es := FollowerPolls(es, POLL_INTERVAL_MS, PollStart(TIMEOUT_MS));
    es := FollowerPolls(es, POLL_INTERVAL_MS, PollGeneration(TIMEOUT_MS, 0));
    es := FollowerPolls(es, POLL_INTERVAL_MS, PollLook(TIMEOUT_MS, 0));
    es := FollowerWaits(es, POLL_INTERVAL_MS, PollEntry(TIMEOUT_MS, 0, None), TIMEOUT_MS - POLL_INTERVAL_MS);
    es := FollowerPolls(es, TIMEOUT_MS, PollEntry(TIMEOUT_MS, 0, None));
    es := FollowerPolls(es, TIMEOUT_MS, Polling(TIMEOUT_MS));
    es := FollowerPolls(es, TIMEOUT_MS, TimedOut);
  }

  // ----- and loads by itself -----

  const OWN := PendingKey(1, KEY, 0, Rebuild)

  /** The follower's own load has run but not yet looked at the store. */
  ghost predicate FallbackLoaded(s: State, start: nat) {
    && LeaderHolds(s) && s.now == TIMEOUT_MS && start < s.tick
    && |s.calls| == 2 && s.calls[1].key == KEY && s.calls[1].pc == Awaiting(0, true, false)
    && s.pending == map[OWN := 0]
    && s.loads == [Load(OWN, true, 1, POLICY, Loaded(start, 0, true))]
  }

  /** Advances load `l` by a step that only changes its phase. */
  lemma LoadMoves(es: seq<Event>, s: State, l: nat, random: real, phase: Phase) returns (more: seq<Event>, s': State)
    requires Run(INITIAL, es) == s && l < |s.loads|
    requires StepLoad(s, l, false, true, random) == SetPhase(s, l, phase)
    ensures Run(INITIAL, more) == s' == SetPhase(s.(tick := s.tick + 1), l, phase)
  {
    hide StepLoad;
    RunSnoc(es, AdvanceLoad(l, false, true, random));
    more, s' := es + [AdvanceLoad(l, false, true, random)], SetPhase(s.(tick := s.tick + 1), l, phase);
  }

  /** The loader of load `l` runs from start to end. */
  lemma LoaderRuns(es: seq<Event>, s: State, l: nat) returns (more: seq<Event>, s': State)
    requires Run(INITIAL, es) == s && l < |s.loads| && s.loads[l].phase == Queued
    ensures Run(INITIAL, more) == s' ==
              SetPhase(s.(tick := s.tick + 2), l, Loaded(s.tick, Generation(s, s.loads[l].pendingKey.key), true))
  {
    hide Run, Generation;
    var start, g := s.tick, Generation(s, s.loads[l].pendingKey.key);
    more, s' := LoadMoves(es, s, l, 0.5, Loading(start, g));
    more, s' := LoadMoves(more, s', l, 0.5, Loaded(start, g, true));
  }

  /** The fallback looks at the store. */
  lemma FallbackLooks(es: seq<Event>, s: State, start: nat, startGeneration: nat)
    returns (more: seq<Event>, s': State)
    requires Run(INITIAL, es) == s && 0 < |s.loads| && s.loads[0].direct && s.loads[0].pendingKey.key == KEY
    requires s.loads[0].phase == Loaded(start, startGeneration, true)
    ensures var g := Generation(s, KEY);
            Run(INITIAL, more) == s' ==
              SetPhase(s.(tick := s.tick + 2), 0, DirectEntry(start, startGeneration, true, g, ReadEntry(s, KEY, g)))
  {
    hide Run;
    var g := Generation(s, KEY);
    more, s' := LoadMoves(es, s, 0, 0.5, DirectGeneration(start, startGeneration, true, g));
    more, s' := LoadMoves(more, s', 0, 0.5, DirectEntry(start, startGeneration, true, g, ReadEntry(s, KEY, g)));
  }

  lemma FallbackLoads() returns (es: seq<Event>, start: nat)
    ensures FallbackLoaded(Run(INITIAL, es), start)
  {
    hide Run;
    es := FollowerGivesUp();
    FallbackBegins(es);
    es := es + [AdvanceCall(1)];
    var s := Run(INITIAL, es);
    start := s.tick;
    es, s := LoaderRuns(es, s, 0);
  }

  lemma FallbackBegins(es: seq<Event>)
    requires FollowerAt(Run(INITIAL, es), TIMEOUT_MS, TimedOutGeneration(0))
    ensures var s := Run(INITIAL, es + [AdvanceCall(1)]);
            && LeaderHolds(s) && s.now == TIMEOUT_MS
            && |s.calls| == 2 && s.calls[1].key == KEY && s.calls[1].pc == Awaiting(0, true, false)
            && s.pending == map[OWN := 0] && s.loads == [Load(OWN, true, 1, POLICY, Queued)]
  {
    hide Run;
    RunSnoc(es, AdvanceCall(1));
  }

  /** Load `l` stores the entry it has ready. */
  lemma LastWrite(es: seq<Event>, s: State, l: nat, random: real, entry: Entry, seconds: int)
    requires Run(INITIAL, es) == s && l < |s.loads| && s.loads[l].phase == Writing(entry, seconds)
    requires s.loads[l].pendingKey.key == KEY
    ensures Run(INITIAL, es + [AdvanceLoad(l, false, true, random)]) ==
              StoreEntry(s, l, entry, seconds).(tick := s.tick + 1)
  {
    hide Run;
    RunSnoc(es, AdvanceLoad(l, false, true, random));
  }

  // ----- the first run: the fence is broken -----

  /** The stored value was loaded before the invalidation whose generation it is stored under, and
      a call that begins after the invalidation gets it. */
  lemma {:induction false} FallbackBreaksFence() returns (es: seq<Event>)
    ensures var s := Run(INITIAL, es);
            && |s.calls| == 3 && s.calls[2].pc.Done? && s.calls[2].pc.result.FromStore?
            && var e := s.calls[2].pc.result.entry;
            && Generation(s, KEY) == 1 && e.generation == 1
            && e.envelope.loadStart < History(s, KEY)[0] < s.calls[2].begun
            && (KEY, 1) in s.entries && s.entries[(KEY, 1)].envelope == e.envelope
  {
    hide Run;
    var start;
    es, start := FallbackLoads();
    RunSnoc(es, Invalidate(KEY));
    es := es + [Invalidate(KEY)];
    es := OvertakenWrite(es, start);
    es := LateReader(es);
  }

  ghost predicate Overtaken(s: State) {
    && |s.calls| == 2 && s.now == TIMEOUT_MS && Generation(s, KEY) == 1 && (KEY, 1) in s.entries
    && var stored := s.entries[(KEY, 1)];
    && s.now < stored.expiresAt && s.now < stored.envelope.freshUntil
    && stored.envelope.loadStart < History(s, KEY)[0] < s.tick
  }

  lemma OvertakenWrite(es0: seq<Event>, start: nat) returns (es: seq<Event>)
    requires var s := Run(INITIAL, es0);
             && FallbackLoaded(s.(invalidated := map[]), start) && Generation(s, KEY) == 1
             && start < History(s, KEY)[0] < s.tick
    ensures Overtaken(Run(INITIAL, es))
  {
    var s := Run(INITIAL, es0);
    var e := MakeEnvelope(POLICY, true, 0.5, TIMEOUT_MS, start, 0, true);
    var seconds := RedisTtlSeconds(POLICY, true, 0.5);
    es := es0;
    hide Run, MakeEnvelope, RedisTtlSeconds;
    assert seconds >= 1 by { AtLeastASecond(); }
    es, s := FallbackLooks(es, s, start, 0);
    es, s := LoadMoves(es, s, 0, 0.5, Writing(Entry(1, e), seconds));
    LastWrite(es, s, 0, 0.5, Entry(1, e), seconds);
    es := es + [AdvanceLoad(0, false, true, 0.5)];
  }

  lemma AtLeastASecond()
    ensures RedisTtlSeconds(POLICY, true, 0.5) >= 1
  {
  }

  lemma LateReader(es0: seq<Event>) returns (es: seq<Event>)
    requires Overtaken(Run(INITIAL, es0))
    ensures var s0, s := Run(INITIAL, es0), Run(INITIAL, es);
            && s.invalidated == s0.invalidated && s.entries == s0.entries
            && |s.calls| == 3 && s.calls[2].begun == s0.tick
            && s.calls[2].pc == Done(FromStore(Entry(1, s.entries[(KEY, 1)].envelope), TIMEOUT_MS))
  {
    hide Run;
    var s0 := Run(INITIAL, es0);
    RunSnoc(es0, BeginGet(2, KEY, POLICY));
    es := es0 + [BeginGet(2, KEY, POLICY)];
    var s := Run(INITIAL, es);
    assert s == s0.(tick := s0.tick + 1, calls := s0.calls + [Call(2, KEY, POLICY, s0.tick, 1, GetStart)]);
    hide Step;
    Moves(es, s, 2, GetGeneration(1));
    es := es + [AdvanceCall(2)]; s := SetPc(s.(tick := s.tick + 1), 2, GetGeneration(1));
    var e := s.entries[(KEY, 1)].envelope;
    Moves(es, s, 2, GetEntry(1, Some(e)));
    es := es + [AdvanceCall(2)]; s := SetPc(s.(tick := s.tick + 1), 2, GetEntry(1, Some(e)));
    Moves(es, s, 2, Done(FromStore(Entry(1, e), TIMEOUT_MS)));
    es := es + [AdvanceCall(2)];
  }

  // ----- the second run: an entry past its stale deadline -----

  /** With this jitter the stale lifetime of 60 seconds becomes 60.12, kept for 61. */
  const JITTER := 0.51

  const LED := PendingKey(0, KEY, 0, Rebuild)

  lemma KeptLonger(start: nat)
    ensures var e := MakeEnvelope(POLICY, true, JITTER, TIMEOUT_MS, start, 0, false);
            e.staleUntil == TIMEOUT_MS + 60120
    ensures RedisTtlSeconds(POLICY, true, JITTER) == 61
  {
    assert TtlFactor(0.1, JITTER) == 1.002;
    assert Jittered(POLICY, 60000.0, JITTER) == 60120;
    assert Jittered(POLICY, 15000.0, JITTER) == 15030;
  }

  /** The leader goes on, finds no entry and starts its load. */
  lemma LeaderLoads(es0: seq<Event>, start: nat) returns (es: seq<Event>)
    requires FallbackLoaded(Run(INITIAL, es0), start)
    ensures var s := Run(INITIAL, es);
            && s.now == TIMEOUT_MS && s.entries == map[] && s.invalidated == map[]
            && |s.calls| == 2 && s.calls[1].pc == Awaiting(0, true, false)
            && s.pending == map[OWN := 0, LED := 1]
            && s.loads == [Load(OWN, true, 1, POLICY, Loaded(start, 0, true)), Load(LED, false, 0, POLICY, Queued)]
  {
    hide Run;
    es := es0;
    var s := Run(INITIAL, es);
    Moves(es, s, 0, LockedGeneration(None, 0));
    es := es + [AdvanceCall(0)]; s := SetPc(s.(tick := s.tick + 1), 0, LockedGeneration(None, 0));
    Moves(es, s, 0, LockedLook(0, Rebuild));
    es := es + [AdvanceCall(0)]; s := SetPc(s.(tick := s.tick + 1), 0, LockedLook(0, Rebuild));
    Moves(es, s, 0, LockedEntry(0, Rebuild, None));
    es := es + [AdvanceCall(0)]; s := SetPc(s.(tick := s.tick + 1), 0, LockedEntry(0, Rebuild, None));
    RunSnoc(es, AdvanceCall(0));
    es := es + [AdvanceCall(0)];
  }

  /** The leader's value is in the store; the follower's loader is still running. */
  ghost predicate LeaderStored(s: State, start: nat, e: Envelope) {
    && s.now == TIMEOUT_MS && s.invalidated == map[]
    && |s.calls| == 2 && s.calls[1].pc == Awaiting(0, true, false)
    && OWN in s.pending && s.pending[OWN] == 0
    && |s.loads| == 2 && s.loads[0] == Load(OWN, true, 1, POLICY, Loaded(start, 0, true))
    && s.entries == map[(KEY, 0) := Stored(e, TIMEOUT_MS, TIMEOUT_MS + 61000)]
    && e.staleUntil == TIMEOUT_MS + 60120
  }

  lemma LeaderStores(es0: seq<Event>, start: nat) returns (es: seq<Event>, e: Envelope)
    requires FallbackLoaded(Run(INITIAL, es0), start)
    ensures LeaderStored(Run(INITIAL, es), start, e)
  {
    es := LeaderLoads(es0, start);
    hide Run, MakeEnvelope, RedisTtlSeconds;
    var s := Run(INITIAL, es);
    var led := s.tick;
    e := MakeEnvelope(POLICY, true, JITTER, TIMEOUT_MS, led, 0, false);
    KeptLonger(led);
    es, s := LoaderRuns(es, s, 1);
    es, s := LoadMoves(es, s, 1, JITTER, Writing(Entry(0, e), 61));
    LastWrite(es, s, 1, JITTER, Entry(0, e), 61);
    es := es + [AdvanceLoad(1, false, true, JITTER)];
  }

  /** The follower's loader takes a minute. It then finds the leader's entry, past its stale deadline,
      and its call returns that. */
  lemma {:induction false} FallbackReturnsPastStale() returns (es: seq<Event>)
    ensures var s := Run(INITIAL, es);
            && |s.calls| == 2 && s.calls[1].pc.Done? && s.calls[1].pc.result.FromLoad?
            && s.calls[1].pc.result.entry.envelope.staleUntil < s.now
  {
    hide Run;
    var start, e;
    es, start := FallbackLoads();
    es, e := LeaderStores(es, start);
    RunSnoc(es, Elapse(60500));
    es := es + [Elapse(60500)];
    var s := Run(INITIAL, es);
    assert ReadEntry(s, KEY, 0) == Some(e);
    es, s := FallbackLooks(es, s, start, 0);
    es, s := LoadMoves(es, s, 0, 0.5, Settled(Entry(0, e)));
    CallReturns(es, s, e);
    es := es + [AdvanceCall(1)];
  }

  lemma CallReturns(es: seq<Event>, s: State, e: Envelope)
    requires Run(INITIAL, es) == s && |s.calls| == 2 && s.calls[1].pc == Awaiting(0, true, false)
    requires |s.loads| == 2 && s.loads[0].phase == Settled(Entry(0, e))
    ensures var s' := Run(INITIAL, es + [AdvanceCall(1)]);
            s'.now == s.now && |s'.calls| == 2 && s'.calls[1].pc == Done(FromLoad(Entry(0, e)))
  {
    hide Run;
    RunSnoc(es, AdvanceCall(1));
  }
}
