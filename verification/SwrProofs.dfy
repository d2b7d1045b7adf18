/** Each step of the read-through cache keeps its invariant. */
module SwrProofs {
  import opened CacheLifetimes
  import opened SwrProtocol
  import opened SwrInvariant

  /** Enough to check what a step wrote: the calls and loads it touched, and the pending table. */
  lemma Keeps(s: State, s': State)
    requires Inv(s) && Later(s, s') && HistoryInv(s')
    requires s'.writes == s.writes && s'.entries == s.entries
    requires forall i :: 0 <= i < |s'.calls| ==>
               (i < |s.calls| && s'.calls[i] == s.calls[i]) || CallInv(s', s'.calls[i])
    requires forall l :: 0 <= l < |s'.loads| ==>
               (l < |s.loads| && s'.loads[l] == s.loads[l]) || LoadInv(s', s'.loads[l])
    requires PendingInv(s') && ActiveInv(s')
    ensures Inv(s')
  {
    hide WriteInv, StoredOk, CallInv, LoadInv, Later, HistoryInv, PendingInv, ActiveInv;
    CarryOver(s, s');
    forall l | 0 <= l < |s'.loads| ensures LoadInv(s', s'.loads[l]) {
      if l < |s.loads| && s'.loads[l] == s.loads[l] { LoadLater(s, s', s.loads[l]); }
    }
    forall i | 0 <= i < |s'.calls| ensures CallInv(s', s'.calls[i]) {
      if i < |s.calls| && s'.calls[i] == s.calls[i] { CallLater(s, s', s.calls[i]); }
    }
  }

  /** A step that neither stores nor invalidates, at one moment. */
  predicate Quiet(s: State, s': State) {
    && s'.tick == s.tick && s'.now == s.now && s'.invalidated == s.invalidated
    && s'.writes == s.writes && s'.entries == s.entries
    && |s.loads| <= |s'.loads|
  }

  lemma QuietIsLater(s: State, s': State)
    requires Inv(s) && Quiet(s, s')
    requires forall l :: 0 <= l < |s.loads| ==> s'.loads[l].pendingKey == s.loads[l].pendingKey
    ensures Later(s, s') && HistoryInv(s')
  {
    forall k ensures History(s', k) == History(s, k) {}
  }

  /** A call moves on without touching the pending table. */
  lemma MoveKeeps(s: State, i: nat, pc: Pc, locks: map<Key, Lease>, leases: map<nat, int>)
    requires Inv(s) && i < |s.calls| && CallInv(s, s.calls[i].(pc := pc))
    requires s.calls[i].pc.Awaiting? ==> !s.calls[i].pc.owns
    ensures Inv(SetPc(s.(locks := locks, leases := leases), i, pc))
  {
    hide CallInv, LoadInv;
    var s' := SetPc(s.(locks := locks, leases := leases), i, pc);
    QuietIsLater(s, s');
    CallLater(s, s', s.calls[i].(pc := pc));
    forall pk | pk in s'.pending ensures PendingOk(s', pk) {
      assert PendingOk(s, pk);
    }
    forall l | 0 <= l < |s'.loads| ensures ActiveOk(s', l) {
      assert ActiveOk(s, l);
    }
    Keeps(s, s');
  }

  lemma MoveKeepsPlain(s: State, i: nat, pc: Pc)
    requires Inv(s) && i < |s.calls| && CallInv(s, s.calls[i].(pc := pc))
    requires s.calls[i].pc.Awaiting? ==> !s.calls[i].pc.owns
    ensures Inv(SetPc(s, i, pc))
  {
    hide CallInv, Inv;
    MoveKeeps(s, i, pc, s.locks, s.leases);
    assert s.(locks := s.locks, leases := s.leases) == s;
  }

  lemma FoundIsKnown(s: State, k: Key, generation: nat)
    requires Inv(s)
    ensures FoundInv(s, k, generation, ReadEntry(s, k, generation))
  {
    if (k, generation) in s.entries {
      assert StoredOk(s, (k, generation));
    }
  }

  lemma PendingIsSince(s: State, c: Call, generation: nat, first: Mode)
    requires PendingInv(s) && c.begunGeneration <= generation
    ensures var found := FindPending(s, c, generation, first);
            found.Some? ==> LoadSince(s, c, found.value)
  {
    var a := PendingKey(c.process, c.key, generation, Rebuild);
    var b := PendingKey(c.process, c.key, generation, Refresh);
    assert a in s.pending ==> PendingOk(s, a);
    assert b in s.pending ==> PendingOk(s, b);
  }

  lemma CallFacts(s: State, i: nat)
    requires Inv(s) && i < |s.calls|
    ensures CallInv(s, s.calls[i])
    ensures ReadSince(s, s.calls[i], Generation(s, s.calls[i].key))
  {
    assert CallInv(s, s.calls[i]);
  }

  lemma WithPendingLoadKeeps(s: State, i: nat, generation: nat, mode: Mode, direct: bool, locked: bool)
    requires Inv(s) && i < |s.calls| && ReadSince(s, s.calls[i], generation)
    requires !s.calls[i].pc.Awaiting?
    ensures Inv(WithPendingLoad(s, i, generation, mode, direct, locked))
  {
    var c := s.calls[i];
    var pk := PendingKey(c.process, c.key, generation, mode);
    assert CallInv(s, c);
    if pk in s.pending {
      assert PendingOk(s, pk);
      MoveKeepsPlain(s, i, Awaiting(s.pending[pk], false, locked));
    } else {
      NewLoadKeeps(s, i, pk, direct, locked);
    }
  }

  lemma NewLoadKeeps(s: State, i: nat, pk: PendingKey, direct: bool, locked: bool)
    requires Inv(s) && i < |s.calls| && pk !in s.pending && !s.calls[i].pc.Awaiting?
    requires pk.key == s.calls[i].key && ReadSince(s, s.calls[i], pk.generation)
    ensures Inv(SetPc(s.(loads := s.loads + [Load(pk, direct, i, s.calls[i].policy, Queued)],
                         pending := s.pending[pk := |s.loads|]),
                      i, Awaiting(|s.loads|, true, locked)))
  {
    hide Placed, Later;
    var n := |s.loads|;
    var load := Load(pk, direct, i, s.calls[i].policy, Queued);
    var s' := SetPc(s.(loads := s.loads + [load], pending := s.pending[pk := n]),
                    i, Awaiting(n, true, locked));
    QuietIsLater(s, s');
    assert CallInv(s, s.calls[i]);
    CallLater(s, s', s.calls[i].(pc := GetStart));
    NewLoadFacts(s, s', i, load);
    NewLoadPending(s, s', i, load);
    hide CallInv, LoadInv, Inv, PendingInv, ActiveInv;
    Keeps(s, s');
  }

  lemma NewLoadPending(s: State, s': State, i: nat, load: Load)
    requires PendingInv(s) && ActiveInv(s) && i < |s.calls| && load.pendingKey !in s.pending
    requires load.creator == i && !s.calls[i].pc.Awaiting?
    requires s'.loads == s.loads + [load] && s'.pending == s.pending[load.pendingKey := |s.loads|]
    requires |s'.calls| == |s.calls| && AwaitsAsOwner(s', i, |s.loads|)
    requires forall j :: 0 <= j < |s.calls| && j != i ==> s'.calls[j] == s.calls[j]
    ensures PendingInv(s') && ActiveInv(s')
  {
    forall qk | qk in s'.pending ensures PendingOk(s', qk) {
      assert qk != load.pendingKey ==> PendingOk(s, qk);
    }
    hide Active;
    forall l | 0 <= l < |s'.loads| ensures ActiveOk(s', l) {
      assert l < |s.loads| ==> ActiveOk(s, l);
    }
  }

  lemma NewLoadFacts(s: State, s': State, i: nat, load: Load)
    requires i < |s'.calls| && s'.invalidated == s.invalidated && CallInv(s', s'.calls[i].(pc := GetStart))
    requires ReadSince(s, s'.calls[i], load.pendingKey.generation) && load.pendingKey.key == s'.calls[i].key
    requires s'.loads == s.loads + [load] && load.phase == Queued
    requires s'.calls[i].pc.Awaiting? && s'.calls[i].pc.load == |s.loads|
    ensures CallInv(s', s'.calls[i]) && LoadInv(s', load)
  {
    assert History(s', load.pendingKey.key) == History(s, load.pendingKey.key);
  }

  lemma OutcomeIsResult(s: State, c: Call, l: nat)
    requires Inv(s) && LoadSince(s, c, l) && Outcome(s, l).Some?
    ensures ResultInv(s, c, Outcome(s, l).value)
  {
    assert LoadInv(s, s.loads[l]);
  }

  lemma FinishAwaitKeeps(s: State, i: nat, l: nat, owns: bool, locked: bool)
    requires Inv(s) && i < |s.calls| && LoadSince(s, s.calls[i], l)
    requires (s.calls[i].pc == Joining(l) && !owns) || s.calls[i].pc == Awaiting(l, owns, locked)
    ensures Inv(FinishAwait(s, i, l, owns, locked))
  {
    hide Inv, Placed, SetPc;
    CallFacts(s, i);
    if Outcome(s, l).Some? {
      var result := Outcome(s, l).value;
      OutcomeIsResult(s, s.calls[i], l);
      var pc := if locked then Releasing(result) else Done(result);
      if !owns {
        MoveKeepsPlain(s, i, pc);
      } else {
        OwnerLeaves(s, i, l, pc);
      }
    }
  }

  /** The creator of a settled load leaves, taking its entry out of the pending table. */
  lemma OwnerLeaves(s: State, i: nat, l: nat, pc: Pc)
    requires Inv(s) && AwaitsAsOwner(s, i, l) && LoadSince(s, s.calls[i], l) && Outcome(s, l).Some?
    requires CallInv(s, s.calls[i].(pc := pc))
    ensures var pk := s.loads[l].pendingKey;
            var s1 := if pk in s.pending && s.pending[pk] == l then s.(pending := s.pending - {pk}) else s;
            Inv(SetPc(s1, i, pc))
  {
    hide CallInv, LoadInv, Later;
    var pk := s.loads[l].pendingKey;
    var s1 := if pk in s.pending && s.pending[pk] == l then s.(pending := s.pending - {pk}) else s;
    var s' := SetPc(s1, i, pc);
    QuietIsLater(s, s');
    CallLater(s, s', s.calls[i].(pc := pc));
    OwnerLeavesPending(s, i, l, pc);
    hide Inv, PendingInv, ActiveInv;
    Keeps(s, s');
  }

  lemma OwnerLeavesPending(s: State, i: nat, l: nat, pc: Pc)
    requires PendingInv(s) && ActiveInv(s)
    requires AwaitsAsOwner(s, i, l) && l < |s.loads| && !Active(s.loads[l])
    ensures var pk := s.loads[l].pendingKey;
            var s1 := if pk in s.pending && s.pending[pk] == l then s.(pending := s.pending - {pk}) else s;
            PendingInv(SetPc(s1, i, pc)) && ActiveInv(SetPc(s1, i, pc))
  {
    var pk := s.loads[l].pendingKey;
    var s1 := if pk in s.pending && s.pending[pk] == l then s.(pending := s.pending - {pk}) else s;
    var s' := SetPc(s1, i, pc);
    forall qk | qk in s'.pending ensures PendingOk(s', qk) {
      assert PendingOk(s, qk);
    }
    hide Active;
    forall m | 0 <= m < |s'.loads| ensures ActiveOk(s', m) {
      assert ActiveOk(s, m);
    }
  }

  lemma ServeOrRebuildKeeps(s: State, i: nat, generation: nat, found: Option<Envelope>)
    requires Inv(s) && i < |s.calls| && s.calls[i].pc == GetEntry(generation, found)
    ensures Inv(ServeOrRebuild(s, i, generation, found))
  {
    assert CallInv(s, s.calls[i]);
    if found.None? || !IsServable(found.value, s.now) {
      MoveKeepsPlain(s, i, RebuildStart);
    } else {
      var done := Done(FromStore(Entry(generation, found.value), s.now));
      MoveKeepsPlain(s, i, done);
      if !IsFresh(found.value, s.now) {
        var c := s.calls[i];
        var first := if FindPending(s, c, generation, Refresh).Some? then Done(Nothing)
                     else TryLock(generation, Some(generation));
        BeginKeeps(SetPc(s, i, done), c.process, c.key, c.policy, first);
      }
    }
  }

  lemma BeginKeeps(s: State, process: nat, k: Key, policy: Policy, first: Pc)
    requires Inv(s)
    requires first == GetStart || first == Done(Nothing) || (first.TryLock? && first.expected.Some?)
    ensures Inv(s.(calls := s.calls + [Call(process, k, policy, s.tick, Generation(s, k), first)]))
  {
    hide LoadInv, Later;
    var c := Call(process, k, policy, s.tick, Generation(s, k), first);
    var s' := s.(calls := s.calls + [c]);
    QuietIsLater(s, s');
    assert History(s', k) == History(s, k);
    assert CallInv(s', c);
    forall pk | pk in s'.pending ensures PendingOk(s', pk) {
      assert PendingOk(s, pk);
    }
    forall l | 0 <= l < |s'.loads| ensures ActiveOk(s', l) {
      assert ActiveOk(s, l);
    }
    Keeps(s, s');
  }

  lemma JoinOrElseKeeps(s: State, i: nat, generation: nat, otherwise: Pc)
    requires Inv(s) && i < |s.calls| && !s.calls[i].pc.Awaiting?
    requires ReadSince(s, s.calls[i], generation) && CallInv(s, s.calls[i].(pc := otherwise))
    ensures Inv(JoinOrElse(s, i, generation, otherwise))
  {
    PendingIsSince(s, s.calls[i], generation, Rebuild);
    var pending := FindPending(s, s.calls[i], generation, Rebuild);
    MoveKeepsPlain(s, i, if pending.Some? then Joining(pending.value) else otherwise);
  }

  lemma StepCallKeeps(s: State, i: nat)
    requires Inv(s) && i < |s.calls|
    ensures Inv(StepCall(s, i))
  {
    if IsFollowing(s.calls[i].pc) {
      FollowerKeeps(s, i);
    } else {
      LeaderKeeps(s, i);
    }
  }

  predicate IsFollowing(pc: Pc) {
    pc.LockMissed? || pc.Polling? || pc.PollStart? || pc.PollGeneration? || pc.PollLook? || pc.PollEntry? ||
    pc.TimedOut? || pc.TimedOutGeneration? || pc.Joining? || pc.Awaiting?
  }

  lemma FollowerKeeps(s: State, i: nat)
    requires Inv(s) && i < |s.calls| && IsFollowing(s.calls[i].pc)
    ensures Inv(StepCall(s, i))
  {
    hide Inv, Placed, SetPc, ReadEntry, ServeOrRebuild, JoinOrElse, WithPendingLoad, FinishAwait;
    var c := s.calls[i];
    CallFacts(s, i);
    match c.pc
    case LockMissed(g) => JoinOrElseKeeps(s, i, g, Polling(s.now + c.policy.followerWaitTimeoutMs));
    case Polling(deadline) => MoveKeepsPlain(s, i, if s.now < deadline then PollStart(deadline) else TimedOut);
    case PollStart(deadline) => MoveKeepsPlain(s, i, PollGeneration(deadline, Generation(s, c.key)));
    case PollGeneration(deadline, g) => JoinOrElseKeeps(s, i, g, PollLook(deadline, g));
    case PollLook(deadline, g) =>
      FoundIsKnown(s, c.key, g);
      MoveKeepsPlain(s, i, PollEntry(deadline, g, ReadEntry(s, c.key, g)));
    case PollEntry(deadline, g, found) =>
      MoveKeepsPlain(s, i, if found.Some? && IsServable(found.value, s.now)
                           then Done(FromStore(Entry(g, found.value), s.now)) else Polling(deadline));
    case TimedOut => MoveKeepsPlain(s, i, TimedOutGeneration(Generation(s, c.key)));
    case TimedOutGeneration(g) => WithPendingLoadKeeps(s, i, g, Rebuild, true, false);
    case Joining(l) => FinishAwaitKeeps(s, i, l, false, false);
    case Awaiting(l, owns, locked) => FinishAwaitKeeps(s, i, l, owns, locked);
  }

  lemma LeaderKeeps(s: State, i: nat)
    requires Inv(s) && i < |s.calls| && !IsFollowing(s.calls[i].pc)
    ensures Inv(StepCall(s, i))
  {
    hide Inv, Placed, SetPc, ReadEntry, ServeOrRebuild, JoinOrElse, WithPendingLoad, FinishAwait;
    var c := s.calls[i];
    CallFacts(s, i);
    match c.pc
    case GetStart => MoveKeepsPlain(s, i, GetGeneration(Generation(s, c.key)));
    case GetGeneration(g) =>
      FoundIsKnown(s, c.key, g);
      MoveKeepsPlain(s, i, GetEntry(g, ReadEntry(s, c.key, g)));
    case GetEntry(g, found) => ServeOrRebuildKeeps(s, i, g, found);
    case RebuildStart => MoveKeepsPlain(s, i, RebuildGeneration(Generation(s, c.key)));
    case RebuildGeneration(g) => JoinOrElseKeeps(s, i, g, TryLock(g, None));
    case TryLock(g, expected) =>
      if c.key in s.locks && s.now < s.locks[c.key].expiresAt {
        MoveKeepsPlain(s, i, if expected.Some? then Done(Nothing) else LockMissed(g));
      } else {
        var until := s.now + c.policy.rebuildLockTtlMs;
        MoveKeeps(s, i, Locked(expected), s.locks[c.key := Lease(i, until)], s.leases[i := until]);
      }
    case Locked(expected) => MoveKeepsPlain(s, i, LockedGeneration(expected, Generation(s, c.key)));
    case LockedGeneration(expected, g) =>
      MoveKeepsPlain(s, i, if expected.Some? && expected.value != g then Releasing(Nothing)
                           else LockedLook(g, if expected.Some? then Refresh else Rebuild));
    case LockedLook(g, mode) =>
      FoundIsKnown(s, c.key, g);
      MoveKeepsPlain(s, i, LockedEntry(g, mode, ReadEntry(s, c.key, g)));
    case LockedEntry(g, mode, found) =>
      if found.Some? && IsFresh(found.value, s.now) {
        MoveKeepsPlain(s, i, Releasing(FromStore(Entry(g, found.value), s.now)));
      } else {
        WithPendingLoadKeeps(s, i, g, mode, false, true);
      }
    case Releasing(result) =>
      MoveKeeps(s, i, Done(result),
                if c.key in s.locks && s.locks[c.key].owner == i then s.locks - {c.key} else s.locks, s.leases);
    case Done(_) =>
  }

  // ----- loads -----

  /** A load moves to a phase that satisfies its invariant. */
  lemma PhaseKeeps(s: State, l: nat, phase: Phase)
    requires Inv(s) && l < |s.loads| && LoadInv(s, s.loads[l].(phase := phase))
    requires Active(s.loads[l]) || !Active(s.loads[l].(phase := phase))
    ensures Inv(SetPhase(s, l, phase))
  {
    hide CallInv, LoadInv, Later;
    var s' := SetPhase(s, l, phase);
    QuietIsLater(s, s');
    LoadLater(s, s', s.loads[l].(phase := phase));
    forall pk | pk in s'.pending ensures PendingOk(s', pk) {
      assert PendingOk(s, pk);
    }
    forall m | 0 <= m < |s'.loads| ensures ActiveOk(s', m) {
      assert ActiveOk(s, m);
    }
    Keeps(s, s');
  }

  lemma WritingFacts(s: State, ld: Load, entry: Entry, seconds: int)
    requires LoadInv(s, ld) && ld.phase == Writing(entry, seconds)
    ensures WriteInv(s, ld.pendingKey.key, entry) && entry.envelope.staleUntil <= s.now + 1000 * seconds
    ensures entry.envelope.cachedAt <= s.now && entry.envelope.cachedAt + 1000 * seconds <= GoneBy(entry.envelope)
  {
  }

  lemma WrittenSettles(s: State, s': State, ld: Load, entry: Entry, seconds: int)
    requires LoadInv(s, ld) && ld.phase == Writing(entry, seconds)
    requires s'.invalidated == s.invalidated && (ld.pendingKey.key, entry) in s'.writes
    ensures LoadInv(s', ld.(phase := Settled(entry)))
  {
  }

  /** Storing an entry enters it into the history of writes as well. */
  lemma StoreKeeps(s: State, l: nat, entry: Entry, seconds: int)
    requires Inv(s) && l < |s.loads| && s.loads[l].phase == Writing(entry, seconds)
    ensures Inv(StoreEntry(s, l, entry, seconds))
  {
    hide WriteInv;
    var ld := s.loads[l];
    var k := ld.pendingKey.key;
    assert LoadInv(s, ld);
    WritingFacts(s, ld, entry, seconds);
    hide Inv, LoadInv;
    var s1 := s.(entries := s.entries[(k, entry.generation) := Stored(entry.envelope, s.now, s.now + 1000 * seconds)],
                 writes := s.writes + {(k, entry)});
    WriteKeeps(s, s1, k, entry);
    WrittenSettles(s, s1, ld, entry, seconds);
    PhaseKeeps(s1, l, Settled(entry));
  }

  lemma WriteKeeps(s: State, s': State, k: Key, entry: Entry)
    requires Inv(s) && WriteInv(s, k, entry)
    requires s' == s.(entries := s'.entries, writes := s.writes + {(k, entry)})
    requires exists until: int ::
               && entry.envelope.staleUntil <= until <= GoneBy(entry.envelope) + (s.now - entry.envelope.cachedAt)
               && entry.envelope.cachedAt <= s.now
               && s'.entries == s.entries[(k, entry.generation) := Stored(entry.envelope, s.now, until)]
    ensures Inv(s')
  {
    hide CallInv, LoadInv, WriteInv, HistoryInv;
    assert Later(s, s') && HistoryInv(s') by {
      forall q ensures History(s', q) == History(s, q) {}
      assert HistoryInv(s') by { WriteHistory(s, s'); }
    }
    hide Later;
    forall w | w in s'.writes ensures WriteInv(s', w.0, w.1) {
      WriteLater(s, s', w.0, w.1);
    }
    forall kg | kg in s'.entries ensures StoredOk(s', kg) {
      assert kg in s.entries ==> StoredOk(s, kg);
    }
    forall m | 0 <= m < |s'.loads| ensures LoadInv(s', s'.loads[m]) && ActiveOk(s', m) {
      LoadLater(s, s', s.loads[m]);
      assert ActiveOk(s, m);
    }
    forall i | 0 <= i < |s'.calls| ensures CallInv(s', s'.calls[i]) {
      CallLater(s, s', s.calls[i]);
    }
    forall pk | pk in s'.pending ensures PendingOk(s', pk) {
      assert PendingOk(s, pk);
    }
  }

  lemma WriteHistory(s: State, s': State)
    requires HistoryInv(s) && s'.invalidated == s.invalidated && s'.tick == s.tick
    ensures HistoryInv(s')
  {
    forall q ensures History(s', q) == History(s, q) {}
  }

  lemma StepLoadKeeps(s: State, l: nat, fails: bool, hit: bool, random: real)
    requires Inv(s) && l < |s.loads|
    ensures Inv(StepLoad(s, l, fails, hit, random))
  {
    var load := s.loads[l];
    var k := load.pendingKey.key;
    assert LoadInv(s, load);
    if fails && !load.phase.Settled? {
      PhaseKeeps(s, l, LoadFailed);
    } else {
      match load.phase
      case Queued =>
        assert Placed(History(s, k), s.tick, Generation(s, k));
        PhaseKeeps(s, l, Loading(s.tick, Generation(s, k)));
      case Loading(start, g0) => PhaseKeeps(s, l, Loaded(start, g0, hit));
      case Loaded(start, g0, wasHit) =>
        if load.direct {
          PhaseKeeps(s, l, DirectGeneration(start, g0, wasHit, Generation(s, k)));
        } else {
          PhaseKeeps(s, l, BeginWrite(s, load, start, g0, wasHit, random, load.pendingKey.generation));
        }
      case DirectGeneration(start, g0, wasHit, g) =>
        FoundIsKnown(s, k, g);
        PhaseKeeps(s, l, DirectEntry(start, g0, wasHit, g, ReadEntry(s, k, g)));
      case DirectEntry(start, g0, wasHit, g, found) =>
        if found.Some? {
          PhaseKeeps(s, l, Settled(Entry(g, found.value)));
        } else {
          PhaseKeeps(s, l, BeginWrite(s, load, start, g0, wasHit, random, g));
        }
      case Writing(entry, seconds) => StoreKeeps(s, l, entry, seconds);
      case _ =>
    }
  }

  // ----- whole steps and runs -----

  lemma EnvironmentKeeps(s: State, s': State)
    requires Inv(s) && Later(s, s') && HistoryInv(s')
    requires s' == s.(tick := s'.tick, now := s'.now, invalidated := s'.invalidated)
    ensures Inv(s')
  {
    hide CallInv, LoadInv, Later, HistoryInv;
    forall pk | pk in s'.pending ensures PendingOk(s', pk) {
      assert PendingOk(s, pk);
    }
    forall m | 0 <= m < |s'.loads| ensures ActiveOk(s', m) {
      assert ActiveOk(s, m);
    }
    Keeps(s, s');
  }

  lemma TickKeeps(s: State, milliseconds: nat)
    requires Inv(s)
    ensures Inv(s.(tick := s.tick + 1, now := s.now + milliseconds))
  {
    var s' := s.(tick := s.tick + 1, now := s.now + milliseconds);
    forall k ensures History(s', k) == History(s, k) {}
    EnvironmentKeeps(s, s');
  }

  lemma InvalidateKeeps(s: State, k: Key)
    requires Inv(s)
    ensures Inv(s.(tick := s.tick + 1, invalidated := s.invalidated[k := History(s, k) + [s.tick]]))
  {
    var s' := s.(tick := s.tick + 1, invalidated := s.invalidated[k := History(s, k) + [s.tick]]);
    forall q ensures HistoryGrows(s, s', q) {}
    forall q, i | 0 <= i < |History(s', q)| ensures History(s', q)[i] < s'.tick {
      assert i < |History(s, q)| ==> History(s, q)[i] < s.tick;
    }
    EnvironmentKeeps(s, s');
  }

  /** A step of a call takes no time, stores nothing and leaves the loads alone, but for one it may start. */
  ghost predicate OnlyStarts(s: State, s': State, direct: bool) {
    && s'.tick == s.tick && s'.now == s.now && s'.writes == s.writes
    && s'.invalidated == s.invalidated && s'.entries == s.entries
    && s.loads <= s'.loads
    && forall l :: |s.loads| <= l < |s'.loads| ==> s'.loads[l].phase == Queued && (s'.loads[l].direct ==> direct)
  }

  predicate StartsNothing(s: State, s': State) {
    && s'.tick == s.tick && s'.now == s.now && s'.writes == s.writes && s'.loads == s.loads
    && s'.invalidated == s.invalidated && s'.entries == s.entries
  }

  lemma WithPendingLoadStarts(s: State, i: nat, generation: nat, mode: Mode, direct: bool, locked: bool)
    requires i < |s.calls|
    ensures OnlyStarts(s, WithPendingLoad(s, i, generation, mode, direct, locked), direct)
  {
  }

  lemma SetPcStartsNothing(s: State, i: nat, pc: Pc)
    requires i < |s.calls|
    ensures StartsNothing(s, SetPc(s, i, pc))
  {
  }

  lemma ServeStartsNothing(s: State, i: nat, g: nat, found: Option<Envelope>)
    requires i < |s.calls|
    ensures StartsNothing(s, ServeOrRebuild(s, i, g, found))
  {
    hide FindPending;
  }

  lemma AcquireStartsNothing(s: State, i: nat, g: nat, expected: Option<nat>)
    requires i < |s.calls|
    ensures StartsNothing(s, AcquireLock(s, i, g, expected))
  {
  }

  lemma ReleaseStartsNothing(s: State, i: nat, result: Result)
    requires i < |s.calls|
    ensures StartsNothing(s, ReleaseLock(s, i, result))
  {
  }

  lemma JoinStartsNothing(s: State, i: nat, g: nat, otherwise: Pc)
    requires i < |s.calls|
    ensures StartsNothing(s, JoinOrElse(s, i, g, otherwise))
  {
    hide FindPending;
  }

  lemma FinishStartsNothing(s: State, i: nat, l: nat, owns: bool, locked: bool)
    requires i < |s.calls|
    ensures StartsNothing(s, FinishAwait(s, i, l, owns, locked))
  {
    hide Outcome;
  }

  lemma NothingIsOnly(s: State, s': State, direct: bool)
    requires StartsNothing(s, s')
    ensures OnlyStarts(s, s', direct)
  {
  }

  /** The step of a call that neither joins, locks nor serves only moves its program counter. */
  lemma StepCallStarts(s: State, i: nat)
    requires i < |s.calls|
    ensures OnlyStarts(s, StepCall(s, i), s.calls[i].pc.TimedOutGeneration?)
  {
    hide OnlyStarts, StartsNothing, SetPc, ServeOrRebuild, AcquireLock, ReleaseLock, JoinOrElse, FinishAwait,
         WithPendingLoad, ReadEntry;
    var c := s.calls[i];
    match c.pc
    case TimedOutGeneration(g) => WithPendingLoadStarts(s, i, g, Rebuild, true, false);
    case LockedEntry(g, mode, found) =>
      if found.Some? && IsFresh(found.value, s.now) {
        SetPcStartsNothing(s, i, Releasing(FromStore(Entry(g, found.value), s.now)));
        NothingIsOnly(s, StepCall(s, i), false);
      } else {
        WithPendingLoadStarts(s, i, g, mode, false, true);
      }
    case _ =>
      PlainStepStartsNothing(s, i);
      NothingIsOnly(s, StepCall(s, i), false);
  }

  lemma PlainStepStartsNothing(s: State, i: nat)
    requires i < |s.calls| && !s.calls[i].pc.TimedOutGeneration? && !s.calls[i].pc.LockedEntry?
    ensures StartsNothing(s, StepCall(s, i))
  {
    hide ServeOrRebuild, AcquireLock, ReleaseLock, JoinOrElse, FinishAwait, WithPendingLoad, ReadEntry;
    var c := s.calls[i];
    match c.pc
    case GetEntry(g, found) => ServeStartsNothing(s, i, g, found);
    case TryLock(g, expected) => AcquireStartsNothing(s, i, g, expected);
    case RebuildGeneration(g) => JoinStartsNothing(s, i, g, TryLock(g, None));
    case LockMissed(g) => JoinStartsNothing(s, i, g, Polling(s.now + c.policy.followerWaitTimeoutMs));
    case PollGeneration(deadline, g) => JoinStartsNothing(s, i, g, PollLook(deadline, g));
    case Joining(l) => FinishStartsNothing(s, i, l, false, false);
    case Awaiting(l, owns, locked) => FinishStartsNothing(s, i, l, owns, locked);
    case Releasing(result) => ReleaseStartsNothing(s, i, result);
    case _ =>
  }

  lemma StepKeeps(s: State, e: Event)
    requires Inv(s)
    ensures Inv(Step(s, e))
  {
    hide Inv, StepCall, StepLoad;
    match e
    case BeginGet(process, k, policy) =>
      BeginKeeps(s, process, k, policy, GetStart);
      TickKeeps(Change(s, e), 0);
    case Invalidate(k) => InvalidateKeeps(s, k);
    case Elapse(ms) => TickKeeps(s, ms);
    case AdvanceCall(i) =>
      if i < |s.calls| { StepCallKeeps(s, i); StepCallStarts(s, i); }
      TickKeeps(Change(s, e), 0);
    case AdvanceLoad(l, fails, hit, random) =>
      if l < |s.loads| { StepLoadKeeps(s, l, fails, hit, random); }
      TickKeeps(Change(s, e), 0);
  }

  /** The invariant holds in every state of every run. */
  lemma {:induction false} RunKeeps(es: seq<Event>)
    ensures Inv(Run(INITIAL, es))
    decreases |es|
  {
    if es != [] {
      RunKeeps(es[..|es| - 1]);
      hide Inv, Step;
      StepKeeps(Run(INITIAL, es[..|es| - 1]), es[|es| - 1]);
    }
  }
}
