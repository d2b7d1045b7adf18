/** The read-through cache as interleaved steps of many calls in many processes.

    Between two awaits a call runs alone, so one step is either one store command or the code
    between two of them. Calls never finish a step they cannot take; such a step changes nothing. */
module SwrProtocol {
  import opened CacheLifetimes

  /** A normalised (namespace, key) pair. */
  type Key = (string, string)

  datatype Option<+T> = None | Some(value: T)

  datatype Mode = Rebuild | Refresh

  /** The key of the in-process table of pending loads. */
  datatype PendingKey = PendingKey(process: nat, key: Key, generation: nat, mode: Mode)

  /** A stored envelope and the generation it is stored under. */
  datatype Entry = Entry(generation: nat, envelope: Envelope)

  datatype Result =
    | Nothing
    | Failed
    | FromStore(entry: Entry, checkedAt: nat)
    | FromLoad(entry: Entry)

  /** Where a call stands. A `Some` in `expected` marks the background refresh, which insists on
      the generation it was started for; `None` marks the leader of a rebuild. */
  datatype Pc =
    | GetStart
    | GetGeneration(generation: nat)
    | GetEntry(generation: nat, found: Option<Envelope>)
    | RebuildStart
    | RebuildGeneration(generation: nat)
    | TryLock(generation: nat, expected: Option<nat>)
    | LockMissed(generation: nat)
    | Locked(expected: Option<nat>)
    | LockedGeneration(expected: Option<nat>, generation: nat)
    | LockedLook(generation: nat, mode: Mode)
    | LockedEntry(generation: nat, mode: Mode, found: Option<Envelope>)
    | Polling(deadline: int)
    | PollStart(deadline: int)
    | PollGeneration(deadline: int, generation: nat)
    | PollLook(deadline: int, generation: nat)
    | PollEntry(deadline: int, generation: nat, found: Option<Envelope>)
    | TimedOut
    | TimedOutGeneration(generation: nat)
    | Joining(load: nat)
    | Awaiting(load: nat, owns: bool, locked: bool)
    | Releasing(result: Result)
    | Done(result: Result)

  /** `begun` and `begunGeneration` are history: when the call began, and the generation then. */
  datatype Call = Call(process: nat, key: Key, policy: Policy, begun: nat, begunGeneration: nat, pc: Pc)

  datatype Phase =
    | Queued
    | Loading(start: nat, startGeneration: nat)
    | Loaded(start: nat, startGeneration: nat, hit: bool)
    | DirectGeneration(start: nat, startGeneration: nat, hit: bool, generation: nat)
    | DirectEntry(start: nat, startGeneration: nat, hit: bool, generation: nat, found: Option<Envelope>)
    | Writing(entry: Entry, seconds: int)
    | Settled(entry: Entry)
    | LoadFailed

  /** A pending promise; `direct` marks the load of the timeout fallback. */
  datatype Load = Load(pendingKey: PendingKey, direct: bool, creator: nat, policy: Policy, phase: Phase)

  datatype Stored = Stored(envelope: Envelope, storedAt: nat, expiresAt: int)

  datatype Lease = Lease(owner: nat, expiresAt: int)

  /** `invalidated` lists, per key, the moments of its invalidations; their number is the value of
      the generation counter, which only `increment` touches. `writes` is history: all entries ever
      stored. `leases` is history too: when the lease a call got ends. `tick` numbers the steps, `now`
      is the clock in milliseconds. */
  datatype State = State(
    tick: nat,
    now: nat,
    invalidated: map<Key, seq<nat>>,
    entries: map<(Key, nat), Stored>,
    locks: map<Key, Lease>,
    leases: map<nat, int>,
    pending: map<PendingKey, nat>,
    loads: seq<Load>,
    calls: seq<Call>,
    writes: set<(Key, Entry)>)

  const INITIAL := State(0, 0, map[], map[], map[], map[], map[], [], [], {})

  /** `fails`, `hit` and `random` are what the environment decides about a loader and the jitter. */
  datatype Event =
    | BeginGet(process: nat, key: Key, policy: Policy)
    | Invalidate(key: Key)
    | Elapse(milliseconds: nat)
    | AdvanceCall(call: nat)
    | AdvanceLoad(load: nat, fails: bool, hit: bool, random: real)

  function History(s: State, k: Key): seq<nat> {
    if k in s.invalidated then s.invalidated[k] else []
  }

  function Generation(s: State, k: Key): nat {
    |History(s, k)|
  }

  function ReadEntry(s: State, k: Key, generation: nat): Option<Envelope> {
    if (k, generation) in s.entries && s.now < s.entries[(k, generation)].expiresAt
    then Some(s.entries[(k, generation)].envelope) else None
  }

  function SetPc(s: State, i: nat, pc: Pc): State
    requires i < |s.calls|
  {
    s.(calls := s.calls[i := s.calls[i].(pc := pc)])
  }

  /** The first pending load of the two modes, `first` before the other. */
  function FindPending(s: State, c: Call, generation: nat, first: Mode): Option<nat> {
    var second := if first == Rebuild then Refresh else Rebuild;
    if PendingKey(c.process, c.key, generation, first) in s.pending then
      Some(s.pending[PendingKey(c.process, c.key, generation, first)])
    else if PendingKey(c.process, c.key, generation, second) in s.pending then
      Some(s.pending[PendingKey(c.process, c.key, generation, second)])
    else None
  }

  /** Joins the pending load of this key, generation and mode, or starts it. */
  function WithPendingLoad(s: State, i: nat, generation: nat, mode: Mode, direct: bool, locked: bool): State
    requires i < |s.calls|
  {
    var c := s.calls[i];
    var pk := PendingKey(c.process, c.key, generation, mode);
    if pk in s.pending then SetPc(s, i, Awaiting(s.pending[pk], false, locked))
    else
      var load := Load(pk, direct, i, c.policy, Queued);
      SetPc(s.(loads := s.loads + [load], pending := s.pending[pk := |s.loads|]),
            i, Awaiting(|s.loads|, true, locked))
  }

  predicate IsFresh(e: Envelope, now: nat) { e.freshUntil > now }

  predicate IsServable(e: Envelope, now: nat) { e.freshUntil > now || e.staleUntil > now }

  /** `get` once the entry of its generation is read. A stale entry is served and a refresh call
      is started, which first looks for a pending load of this process. */
  function ServeOrRebuild(s: State, i: nat, generation: nat, found: Option<Envelope>): State
    requires i < |s.calls|
  {
    if found.None? || !IsServable(found.value, s.now) then SetPc(s, i, RebuildStart)
    else
      var served := SetPc(s, i, Done(FromStore(Entry(generation, found.value), s.now)));
      if IsFresh(found.value, s.now) then served
      else
        var c := s.calls[i];
        var first := if FindPending(s, c, generation, Refresh).Some? then Done(Nothing)
                     else TryLock(generation, Some(generation));
        served.(calls := served.calls +
          [Call(c.process, c.key, c.policy, s.tick, Generation(s, c.key), first)])
  }

  function AcquireLock(s: State, i: nat, generation: nat, expected: Option<nat>): State
    requires i < |s.calls|
  {
    var c := s.calls[i];
    if c.key in s.locks && s.now < s.locks[c.key].expiresAt then
      SetPc(s, i, if expected.Some? then Done(Nothing) else LockMissed(generation))
    else
      var until := s.now + c.policy.rebuildLockTtlMs;
      SetPc(s.(locks := s.locks[c.key := Lease(i, until)], leases := s.leases[i := until]), i, Locked(expected))
  }

  /** Compare-and-delete, then the call ends. */
  function ReleaseLock(s: State, i: nat, result: Result): State
    requires i < |s.calls|
  {
    var k := s.calls[i].key;
    var locks := if k in s.locks && s.locks[k].owner == i then s.locks - {k} else s.locks;
    SetPc(s.(locks := locks), i, Done(result))
  }

  function JoinOrElse(s: State, i: nat, generation: nat, otherwise: Pc): State
    requires i < |s.calls|
  {
    var pending := FindPending(s, s.calls[i], generation, Rebuild);
    SetPc(s, i, if pending.Some? then Joining(pending.value) else otherwise)
  }

  /** What awaiting load `l` gives, once it is settled. */
  function Outcome(s: State, l: nat): Option<Result> {
    if l >= |s.loads| then None
    else match s.loads[l].phase
      case Settled(entry) => Some(FromLoad(entry))
      case LoadFailed => Some(Failed)
      case _ => None
  }

  /** A call that started a load removes it from the pending table when the load has settled. */
  function FinishAwait(s: State, i: nat, l: nat, owns: bool, locked: bool): State
    requires i < |s.calls|
  {
    if Outcome(s, l).None? then s
    else
      var result := Outcome(s, l).value;
      var pk := s.loads[l].pendingKey;
      var s1 := if owns && pk in s.pending && s.pending[pk] == l
                then s.(pending := s.pending - {pk}) else s;
      SetPc(s1, i, if locked then Releasing(result) else Done(result))
  }

  function StepCall(s: State, i: nat): State
    requires i < |s.calls|
  {
    var c := s.calls[i];
    match c.pc
    case GetStart => SetPc(s, i, GetGeneration(Generation(s, c.key)))
    case GetGeneration(g) => SetPc(s, i, GetEntry(g, ReadEntry(s, c.key, g)))
    case GetEntry(g, found) => ServeOrRebuild(s, i, g, found)
    case RebuildStart => SetPc(s, i, RebuildGeneration(Generation(s, c.key)))
    case RebuildGeneration(g) => JoinOrElse(s, i, g, TryLock(g, None))
    case TryLock(g, expected) => AcquireLock(s, i, g, expected)
    case LockMissed(g) => JoinOrElse(s, i, g, Polling(s.now + c.policy.followerWaitTimeoutMs))
    case Locked(expected) => SetPc(s, i, LockedGeneration(expected, Generation(s, c.key)))
    case LockedGeneration(expected, g) =>
      SetPc(s, i, if expected.Some? && expected.value != g then Releasing(Nothing)
                  else LockedLook(g, if expected.Some? then Refresh else Rebuild))
    case LockedLook(g, mode) => SetPc(s, i, LockedEntry(g, mode, ReadEntry(s, c.key, g)))
    case LockedEntry(g, mode, found) =>
      if found.Some? && IsFresh(found.value, s.now)
      then SetPc(s, i, Releasing(FromStore(Entry(g, found.value), s.now)))
      else WithPendingLoad(s, i, g, mode, false, true)
    case Polling(deadline) => SetPc(s, i, if s.now < deadline then PollStart(deadline) else TimedOut)
    case PollStart(deadline) => SetPc(s, i, PollGeneration(deadline, Generation(s, c.key)))
    case PollGeneration(deadline, g) => JoinOrElse(s, i, g, PollLook(deadline, g))
    case PollLook(deadline, g) => SetPc(s, i, PollEntry(deadline, g, ReadEntry(s, c.key, g)))
    case PollEntry(deadline, g, found) =>
      SetPc(s, i, if found.Some? && IsServable(found.value, s.now)
                  then Done(FromStore(Entry(g, found.value), s.now)) else Polling(deadline))
    case TimedOut => SetPc(s, i, TimedOutGeneration(Generation(s, c.key)))
    case TimedOutGeneration(g) => WithPendingLoad(s, i, g, Rebuild, true, false)
    case Joining(l) => FinishAwait(s, i, l, false, false)
    case Awaiting(l, owns, locked) => FinishAwait(s, i, l, owns, locked)
    case Releasing(result) => ReleaseLock(s, i, result)
    case Done(_) => s
  }

  function SetPhase(s: State, l: nat, phase: Phase): State
    requires l < |s.loads|
  {
    s.(loads := s.loads[l := s.loads[l].(phase := phase)])
  }

  function BeginWrite(s: State, load: Load, start: nat, startGeneration: nat, hit: bool,
                      random: real, generation: nat): Phase
  {
    Writing(Entry(generation,
                  MakeEnvelope(load.policy, hit, random, s.now, start, startGeneration, load.direct)),
            RedisTtlSeconds(load.policy, hit, random))
  }

  function StoreEntry(s: State, l: nat, entry: Entry, seconds: int): State
    requires l < |s.loads|
  {
    var k := s.loads[l].pendingKey.key;
    SetPhase(s.(entries := s.entries[(k, entry.generation) := Stored(entry.envelope, s.now, s.now + 1000 * seconds)],
                writes := s.writes + {(k, entry)}),
             l, Settled(entry))
  }

  function StepLoad(s: State, l: nat, fails: bool, hit: bool, random: real): (s': State)
    requires l < |s.loads|
    ensures s'.tick == s.tick && s'.now == s.now
  {
    var load := s.loads[l];
    var k := load.pendingKey.key;
    if fails && !load.phase.Settled? then SetPhase(s, l, LoadFailed)
    else match load.phase
      case Queued => SetPhase(s, l, Loading(s.tick, Generation(s, k)))
      case Loading(start, g0) => SetPhase(s, l, Loaded(start, g0, hit))
      case Loaded(start, g0, wasHit) =>
        SetPhase(s, l, if load.direct then DirectGeneration(start, g0, wasHit, Generation(s, k))
                       else BeginWrite(s, load, start, g0, wasHit, random, load.pendingKey.generation))
      case DirectGeneration(start, g0, wasHit, g) =>
        SetPhase(s, l, DirectEntry(start, g0, wasHit, g, ReadEntry(s, k, g)))
      case DirectEntry(start, g0, wasHit, g, found) =>
        SetPhase(s, l, if found.Some? then Settled(Entry(g, found.value))
                       else BeginWrite(s, load, start, g0, wasHit, random, g))
      case Writing(entry, seconds) => StoreEntry(s, l, entry, seconds)
      case Settled(_) => s
      case LoadFailed => s
  }

  function Change(s: State, e: Event): State {
    match e
    case BeginGet(process, k, policy) =>
      s.(calls := s.calls + [Call(process, k, policy, s.tick, Generation(s, k), GetStart)])
    case Invalidate(k) => s.(invalidated := s.invalidated[k := History(s, k) + [s.tick]])
    case Elapse(ms) => s.(now := s.now + ms)
    case AdvanceCall(i) => if i < |s.calls| then StepCall(s, i) else s
    case AdvanceLoad(l, fails, hit, random) =>
      if l < |s.loads| then StepLoad(s, l, fails, hit, random) else s
  }

  function Step(s: State, e: Event): State {
    Change(s, e).(tick := s.tick + 1)
  }

  function Run(s: State, es: seq<Event>): State
    decreases |es|
  {
    if es == [] then s else Step(Run(s, es[..|es| - 1]), es[|es| - 1])
  }
}
