/** The rebuild lock: of two calls that went through it for one key, one no longer holds it. */
module SwrLock {
  import opened CacheLifetimes
  import opened SwrProtocol

  /** The call has got the lock and not given it back. */
  predicate HasLock(pc: Pc) {
    || pc.Locked? || pc.LockedGeneration? || pc.LockedLook? || pc.LockedEntry? || pc.Releasing?
    || (pc.Awaiting? && pc.locked)
  }

  /** The lock is the call's own until the lease it got ends. */
  ghost predicate LockInv(s: State, i: nat)
    requires i < |s.calls|
  {
    HasLock(s.calls[i].pc) ==>
      i in s.leases &&
      (s.now < s.leases[i] ==> s.calls[i].key in s.locks && s.locks[s.calls[i].key] == Lease(i, s.leases[i]))
  }

  ghost predicate LocksInv(s: State) {
    forall i :: 0 <= i < |s.calls| ==> LockInv(s, i)
  }

  /** What a step of call `i` does to the locks: it takes its key's when that is free, gives back its
      own, or leaves them alone, and only the first lets it in. */
  predicate LockStep(s: State, s': State, i: nat)
    requires i < |s.calls|
  {
    var k := s.calls[i].key;
    && s'.now == s.now
    && |s.calls| <= |s'.calls|
    && s'.calls[i].key == k
    && (forall j :: 0 <= j < |s.calls| && j != i ==> s'.calls[j] == s.calls[j])
    && (forall j :: |s.calls| <= j < |s'.calls| ==> !HasLock(s'.calls[j].pc))
    && (|| (s'.locks == s.locks && s'.leases == s.leases && (HasLock(s'.calls[i].pc) ==> HasLock(s.calls[i].pc)))
        || (!(k in s.locks && s.now < s.locks[k].expiresAt) && i in s'.leases &&
            s'.locks == s.locks[k := Lease(i, s'.leases[i])] && s'.leases == s.leases[i := s'.leases[i]])
        || (k in s.locks && s.locks[k].owner == i && s'.locks == s.locks - {k} && s'.leases == s.leases &&
            !HasLock(s'.calls[i].pc)))
  }

  lemma SetPcLocks(s: State, i: nat, pc: Pc)
    requires i < |s.calls| && (HasLock(pc) ==> HasLock(s.calls[i].pc))
    ensures LockStep(s, SetPc(s, i, pc), i)
  {
  }

  /** Serving a stale entry also starts a refresh call, which has no lock yet. */
  lemma ServeLocks(s: State, i: nat, g: nat, found: Option<Envelope>)
    requires i < |s.calls|
    ensures LockStep(s, ServeOrRebuild(s, i, g, found), i)
  {
    hide FindPending, IsFresh, IsServable, LockStep;
    SetPcLocks(s, i, RebuildStart);
    if found.Some? && IsServable(found.value, s.now) {
      var done := Done(FromStore(Entry(g, found.value), s.now));
      SetPcLocks(s, i, done);
      if !IsFresh(found.value, s.now) {
        var c := s.calls[i];
        var first := if FindPending(s, c, g, Refresh).Some? then Done(Nothing) else TryLock(g, Some(g));
        NewCallLocks(s, SetPc(s, i, done), i, Call(c.process, c.key, c.policy, s.tick, Generation(s, c.key), first));
      }
    }
  }

  lemma NewCallLocks(s: State, s1: State, i: nat, c: Call)
    requires i < |s.calls| && LockStep(s, s1, i) && |s1.calls| == |s.calls| && !HasLock(c.pc)
    ensures LockStep(s, s1.(calls := s1.calls + [c]), i)
  {
  }

  lemma AcquireLocks(s: State, i: nat, g: nat, expected: Option<nat>)
    requires i < |s.calls|
    ensures LockStep(s, AcquireLock(s, i, g, expected), i)
  {
  }

  lemma ReleaseLocks(s: State, i: nat, result: Result)
    requires i < |s.calls|
    ensures LockStep(s, ReleaseLock(s, i, result), i)
  {
  }

  lemma JoinLocks(s: State, i: nat, g: nat, otherwise: Pc)
    requires i < |s.calls| && !HasLock(otherwise)
    ensures LockStep(s, JoinOrElse(s, i, g, otherwise), i)
  {
    hide FindPending;
  }

  lemma PendingLocks(s: State, i: nat, g: nat, mode: Mode, direct: bool, locked: bool)
    requires i < |s.calls| && (locked ==> HasLock(s.calls[i].pc))
    ensures LockStep(s, WithPendingLoad(s, i, g, mode, direct, locked), i)
  {
  }

  lemma FinishLocks(s: State, i: nat, l: nat, owns: bool, locked: bool)
    requires i < |s.calls| && (locked ==> HasLock(s.calls[i].pc))
    ensures LockStep(s, FinishAwait(s, i, l, owns, locked), i)
  {
    hide Outcome;
  }

  lemma StepCallLocks(s: State, i: nat)
    requires i < |s.calls|
    ensures LockStep(s, StepCall(s, i), i)
  {
    hide LockStep, SetPc, ServeOrRebuild, AcquireLock, ReleaseLock, JoinOrElse, FinishAwait, WithPendingLoad, ReadEntry;
    var c := s.calls[i];
    match c.pc
    case GetEntry(g, found) => ServeLocks(s, i, g, found);
    case TryLock(g, expected) => AcquireLocks(s, i, g, expected);
    case RebuildGeneration(g) => JoinLocks(s, i, g, TryLock(g, None));
    case LockMissed(g) => JoinLocks(s, i, g, Polling(s.now + c.policy.followerWaitTimeoutMs));
    case PollGeneration(deadline, g) => JoinLocks(s, i, g, PollLook(deadline, g));
    case TimedOutGeneration(g) => PendingLocks(s, i, g, Rebuild, true, false);
    case LockedEntry(g, mode, found) =>
      if found.Some? && IsFresh(found.value, s.now) {
        SetPcLocks(s, i, Releasing(FromStore(Entry(g, found.value), s.now)));
      } else {
        PendingLocks(s, i, g, mode, false, true);
      }
    case Joining(l) => FinishLocks(s, i, l, false, false);
    case Awaiting(l, owns, locked) => FinishLocks(s, i, l, owns, locked);
    case Releasing(result) => ReleaseLocks(s, i, result);
    case Done(_) => NoLockStep(s, i);
    case _ => PlainLocks(s, i);
  }

  lemma NoLockStep(s: State, i: nat)
    requires i < |s.calls|
    ensures LockStep(s, s, i)
  {
  }

  /** The remaining steps only move the program counter. */
  lemma PlainLocks(s: State, i: nat)
    requires i < |s.calls|
    requires var pc := s.calls[i].pc;
             || pc.GetStart? || pc.GetGeneration? || pc.RebuildStart? || pc.Locked? || pc.LockedGeneration?
             || pc.LockedLook? || pc.Polling? || pc.PollStart? || pc.PollLook? || pc.PollEntry? || pc.TimedOut?
    ensures LockStep(s, StepCall(s, i), i)
  {
    hide LockStep, SetPc, ReadEntry;
    var c := s.calls[i];
    match c.pc
    case GetStart => SetPcLocks(s, i, GetGeneration(Generation(s, c.key)));
    case GetGeneration(g) => SetPcLocks(s, i, GetEntry(g, ReadEntry(s, c.key, g)));
    case RebuildStart => SetPcLocks(s, i, RebuildGeneration(Generation(s, c.key)));
    case Locked(expected) => SetPcLocks(s, i, LockedGeneration(expected, Generation(s, c.key)));
    case LockedGeneration(expected, g) =>
      SetPcLocks(s, i, if expected.Some? && expected.value != g then Releasing(Nothing)
                       else LockedLook(g, if expected.Some? then Refresh else Rebuild));
    case LockedLook(g, mode) => SetPcLocks(s, i, LockedEntry(g, mode, ReadEntry(s, c.key, g)));
    case Polling(deadline) => SetPcLocks(s, i, if s.now < deadline then PollStart(deadline) else TimedOut);
    case PollStart(deadline) => SetPcLocks(s, i, PollGeneration(deadline, Generation(s, c.key)));
    case PollLook(deadline, g) => SetPcLocks(s, i, PollEntry(deadline, g, ReadEntry(s, c.key, g)));
    case PollEntry(deadline, g, found) =>
      SetPcLocks(s, i, if found.Some? && IsServable(found.value, s.now)
                       then Done(FromStore(Entry(g, found.value), s.now)) else Polling(deadline));
    case TimedOut => SetPcLocks(s, i, TimedOutGeneration(Generation(s, c.key)));
  }

  lemma LockStepKeeps(s: State, s': State, i: nat)
    requires LocksInv(s) && i < |s.calls| && LockStep(s, s', i)
    ensures LocksInv(s')
  {
    hide HasLock;
    forall j | 0 <= j < |s'.calls| ensures LockInv(s', j) {
      if j < |s.calls| { assert LockInv(s, j); }
    }
  }

  predicate SameLocks(s: State, s': State) {
    && s'.now == s.now && s'.calls == s.calls && s'.locks == s.locks && s'.leases == s.leases
    && s'.invalidated == s.invalidated && s'.pending == s.pending
  }

  lemma SetPhaseLocks(s: State, l: nat, phase: Phase)
    requires l < |s.loads|
    ensures SameLocks(s, SetPhase(s, l, phase))
  {
  }

  lemma StoreLocks(s: State, l: nat, entry: Entry, seconds: int)
    requires l < |s.loads|
    ensures SameLocks(s, StoreEntry(s, l, entry, seconds))
  {
  }

  lemma StepLoadLocks(s: State, l: nat, fails: bool, hit: bool, random: real)
    requires l < |s.loads|
    ensures SameLocks(s, StepLoad(s, l, fails, hit, random))
  {
    var ld := s.loads[l];
    var k := ld.pendingKey.key;
    assert SameLocks(s, s);
    hide SameLocks, SetPhase, StoreEntry, BeginWrite, ReadEntry, Generation;
    SetPhaseLocks(s, l, LoadFailed);
    match ld.phase
    case Queued => SetPhaseLocks(s, l, Loading(s.tick, Generation(s, k)));
    case Loading(start, g0) => SetPhaseLocks(s, l, Loaded(start, g0, hit));
    case Loaded(start, g0, wasHit) =>
      SetPhaseLocks(s, l, if ld.direct then DirectGeneration(start, g0, wasHit, Generation(s, k))
                          else BeginWrite(s, ld, start, g0, wasHit, random, ld.pendingKey.generation));
    case DirectGeneration(start, g0, wasHit, g) =>
      SetPhaseLocks(s, l, DirectEntry(start, g0, wasHit, g, ReadEntry(s, k, g)));
    case DirectEntry(start, g0, wasHit, g, found) =>
      SetPhaseLocks(s, l, if found.Some? then Settled(Entry(g, found.value))
                          else BeginWrite(s, ld, start, g0, wasHit, random, g));
    case Writing(entry, seconds) => StoreLocks(s, l, entry, seconds);
    case _ =>
  }

  lemma StepKeepsLocks(s: State, e: Event)
    requires LocksInv(s)
    ensures LocksInv(Step(s, e))
  {
    hide StepCall, StepLoad, LockStep, HasLock;
    match e {
      case AdvanceCall(i) =>
        if i < |s.calls| {
          StepCallLocks(s, i);
          LockStepKeeps(s, Change(s, e), i);
        }
      case AdvanceLoad(l, fails, hit, random) =>
        if l < |s.loads| { StepLoadLocks(s, l, fails, hit, random); }
      case BeginGet(_, _, _) => BeginHasNoLock();
      case _ =>
    }
    forall i | 0 <= i < |Step(s, e).calls| ensures LockInv(Step(s, e), i) {
      if i < |s.calls| { assert LockInv(s, i); }
      assert e.AdvanceCall? ==> LockInv(Change(s, e), i);
    }
  }

  lemma BeginHasNoLock()
    ensures !HasLock(GetStart)
  {
  }

  lemma {:induction false} RunKeepsLocks(es: seq<Event>)
    ensures LocksInv(Run(INITIAL, es))
    decreases |es|
  {
    if es != [] {
      RunKeepsLocks(es[..|es| - 1]);
      hide LocksInv, Step;
      StepKeepsLocks(Run(INITIAL, es[..|es| - 1]), es[|es| - 1]);
    }
  }

  /** Of two calls on one key, in any processes, that are both between getting and giving back the
      rebuild lock, leaders or refreshes, the lease of one has ended. */
  lemma {:induction false} RebuildLockExclusive(es: seq<Event>, i: nat, j: nat)
    requires var s := Run(INITIAL, es);
             && i < |s.calls| && j < |s.calls| && i != j && s.calls[i].key == s.calls[j].key
             && HasLock(s.calls[i].pc) && HasLock(s.calls[j].pc)
    ensures var s := Run(INITIAL, es);
            i in s.leases && j in s.leases && (s.leases[i] <= s.now || s.leases[j] <= s.now)
  {
    hide Run;
    RunKeepsLocks(es);
    assert LockInv(Run(INITIAL, es), i) && LockInv(Run(INITIAL, es), j);
  }
}
