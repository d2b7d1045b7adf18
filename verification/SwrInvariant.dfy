/** What every step of the read-through cache keeps. */
module SwrInvariant {
  import opened CacheLifetimes
  import opened SwrProtocol

  /** Moment `start` comes after exactly the first `generation` invalidations of the history. */
  ghost predicate Placed(history: seq<nat>, start: nat, generation: nat) {
    && generation <= |history|
    && forall i :: 0 <= i < |history| ==> (history[i] < start <==> i < generation)
  }

  /** A written entry: only the fallback may store a value under a generation newer than its load. */
  ghost predicate WriteInv(s: State, k: Key, entry: Entry) {
    var e := entry.envelope;
    && Placed(History(s, k), e.loadStart, e.loadGeneration) && e.loadStart <= s.tick
    && entry.generation <= Generation(s, k)
    && (!e.direct ==> entry.generation <= e.loadGeneration)
    && e.freshUntil <= e.staleUntil && (!e.hit ==> e.freshUntil == e.staleUntil)
  }

  predicate Known(s: State, k: Key, generation: nat, e: Envelope) {
    (k, Entry(generation, e)) in s.writes
  }

  predicate FoundInv(s: State, k: Key, generation: nat, found: Option<Envelope>) {
    found.Some? ==> Known(s, k, generation, found.value)
  }

  predicate ReadSince(s: State, c: Call, generation: nat) {
    c.begunGeneration <= generation <= Generation(s, c.key)
  }

  predicate LoadSince(s: State, c: Call, l: nat) {
    && l < |s.loads| && s.loads[l].pendingKey.key == c.key
    && c.begunGeneration <= s.loads[l].pendingKey.generation
  }

  predicate ResultInv(s: State, c: Call, r: Result) {
    match r
    case FromStore(entry, at) =>
      && (c.key, entry) in s.writes && c.begunGeneration <= entry.generation
      && at <= s.now && IsServable(entry.envelope, at)
    case FromLoad(entry) => (c.key, entry) in s.writes && c.begunGeneration <= entry.generation
    case _ => true
  }

  predicate PcInv(s: State, c: Call) {
    match c.pc
    case GetGeneration(g) => ReadSince(s, c, g)
    case GetEntry(g, found) => ReadSince(s, c, g) && FoundInv(s, c.key, g, found)
    case RebuildGeneration(g) => ReadSince(s, c, g)
    case TryLock(g, expected) => expected.None? ==> ReadSince(s, c, g)
    case LockMissed(g) => ReadSince(s, c, g)
    case LockedGeneration(_, g) => ReadSince(s, c, g)
    case LockedLook(g, _) => ReadSince(s, c, g)
    case LockedEntry(g, _, found) => ReadSince(s, c, g) && FoundInv(s, c.key, g, found)
    case PollGeneration(_, g) => ReadSince(s, c, g)
    case PollLook(_, g) => ReadSince(s, c, g)
    case PollEntry(_, g, found) => ReadSince(s, c, g) && FoundInv(s, c.key, g, found)
    case TimedOutGeneration(g) => ReadSince(s, c, g)
    case Joining(l) => LoadSince(s, c, l)
    case Awaiting(l, _, _) => LoadSince(s, c, l)
    case Releasing(r) => ResultInv(s, c, r)
    case Done(r) => ResultInv(s, c, r)
    case _ => true
  }

  ghost predicate CallInv(s: State, c: Call) {
    && Placed(History(s, c.key), c.begun, c.begunGeneration) && c.begun <= s.tick
    && PcInv(s, c)
  }

  ghost predicate LoadStarted(s: State, ld: Load, start: nat, startGeneration: nat) {
    && Placed(History(s, ld.pendingKey.key), start, startGeneration) && start <= s.tick
    && ld.pendingKey.generation <= startGeneration
  }

  ghost predicate PhaseInv(s: State, ld: Load) {
    var k, g0 := ld.pendingKey.key, ld.pendingKey.generation;
    match ld.phase
    case Queued => true
    case Loading(start, g) => LoadStarted(s, ld, start, g)
    case Loaded(start, g, _) => LoadStarted(s, ld, start, g)
    case DirectGeneration(start, g, _, later) =>
      ld.direct && LoadStarted(s, ld, start, g) && g0 <= later <= Generation(s, k)
    case DirectEntry(start, g, _, later, found) =>
      ld.direct && LoadStarted(s, ld, start, g) && g0 <= later <= Generation(s, k) && FoundInv(s, k, later, found)
    case Writing(entry, seconds) =>
      && g0 <= entry.generation && WriteInv(s, k, entry)
      && entry.envelope.cachedAt <= s.now && entry.envelope.staleUntil <= s.now + 1000 * seconds
      && entry.envelope.cachedAt + 1000 * seconds <= GoneBy(entry.envelope)
    case Settled(entry) => (k, entry) in s.writes && g0 <= entry.generation
    case LoadFailed => true
  }

  ghost predicate LoadInv(s: State, ld: Load) {
    ld.pendingKey.generation <= Generation(s, ld.pendingKey.key) && PhaseInv(s, ld)
  }

  predicate Active(ld: Load) {
    !ld.phase.Settled? && !ld.phase.LoadFailed?
  }

  predicate AwaitsAsOwner(s: State, i: nat, l: nat) {
    i < |s.calls| && s.calls[i].pc.Awaiting? && s.calls[i].pc.load == l && s.calls[i].pc.owns
  }

  /** A pending entry names its own load, whose creator is still waiting to remove it. */
  predicate PendingOk(s: State, pk: PendingKey)
    requires pk in s.pending
  {
    var l := s.pending[pk];
    l < |s.loads| && s.loads[l].pendingKey == pk && AwaitsAsOwner(s, s.loads[l].creator, l)
  }

  /** A load that has not settled is the one in the pending table. */
  predicate ActiveOk(s: State, l: nat)
    requires l < |s.loads|
  {
    var pk := s.loads[l].pendingKey;
    Active(s.loads[l]) ==> pk in s.pending && s.pending[pk] == l
  }

  predicate StoredOk(s: State, kg: (Key, nat))
    requires kg in s.entries
  {
    var e := s.entries[kg].envelope;
    && Known(s, kg.0, kg.1, e)
    && e.staleUntil <= s.entries[kg].expiresAt <= GoneBy(e) + (s.entries[kg].storedAt - e.cachedAt)
    && e.cachedAt <= s.entries[kg].storedAt <= s.now
  }

  ghost predicate HistoryInv(s: State) {
    forall k, i :: 0 <= i < |History(s, k)| ==> History(s, k)[i] < s.tick
  }

  ghost predicate WritesInv(s: State) { forall w :: w in s.writes ==> WriteInv(s, w.0, w.1) }
  ghost predicate StoreInv(s: State) { forall kg :: kg in s.entries ==> StoredOk(s, kg) }
  ghost predicate LoadsInv(s: State) { forall l :: 0 <= l < |s.loads| ==> LoadInv(s, s.loads[l]) }
  ghost predicate CallsInv(s: State) { forall i :: 0 <= i < |s.calls| ==> CallInv(s, s.calls[i]) }
  ghost predicate PendingInv(s: State) { forall pk :: pk in s.pending ==> PendingOk(s, pk) }
  ghost predicate ActiveInv(s: State) { forall l :: 0 <= l < |s.loads| ==> ActiveOk(s, l) }

  ghost predicate Inv(s: State) {
    && HistoryInv(s) && WritesInv(s) && StoreInv(s)
    && LoadsInv(s) && CallsInv(s) && PendingInv(s) && ActiveInv(s)
  }

  // ----- facts survive later states -----

  ghost predicate HistoryGrows(s: State, s': State, k: Key) {
    && History(s, k) <= History(s', k)
    && forall i :: |History(s, k)| <= i < |History(s', k)| ==> s.tick <= History(s', k)[i]
  }

  ghost predicate Later(s: State, s': State) {
    && s.tick <= s'.tick && s.now <= s'.now && s.writes <= s'.writes
    && (forall k :: HistoryGrows(s, s', k))
    && |s.loads| <= |s'.loads|
    && forall l :: 0 <= l < |s.loads| ==> s'.loads[l].pendingKey == s.loads[l].pendingKey
  }

  lemma PlacedLater(s: State, s': State, k: Key, start: nat, generation: nat)
    requires Later(s, s') && start <= s.tick && Placed(History(s, k), start, generation)
    ensures Placed(History(s', k), start, generation)
  {
    assert HistoryGrows(s, s', k);
    forall i | 0 <= i < |History(s', k)| ensures History(s', k)[i] < start <==> i < generation {
      assert i < |History(s, k)| ==> History(s', k)[i] == History(s, k)[i];
    }
  }

  lemma WriteLater(s: State, s': State, k: Key, entry: Entry)
    requires Later(s, s') && WriteInv(s, k, entry)
    ensures WriteInv(s', k, entry)
  {
    PlacedLater(s, s', k, entry.envelope.loadStart, entry.envelope.loadGeneration);
    assert HistoryGrows(s, s', k);
  }

  lemma CallLater(s: State, s': State, c: Call)
    requires Later(s, s') && CallInv(s, c)
    ensures CallInv(s', c)
  {
    hide Placed;
    PlacedLater(s, s', c.key, c.begun, c.begunGeneration);
    assert HistoryGrows(s, s', c.key);
  }

  lemma LoadLater(s: State, s': State, ld: Load)
    requires Later(s, s') && LoadInv(s, ld)
    ensures LoadInv(s', ld)
  {
    hide Placed;
    var k := ld.pendingKey.key;
    assert HistoryGrows(s, s', k);
    match ld.phase
    case Loading(start, g) => PlacedLater(s, s', k, start, g);
    case Loaded(start, g, _) => PlacedLater(s, s', k, start, g);
    case DirectGeneration(start, g, _, _) => PlacedLater(s, s', k, start, g);
    case DirectEntry(start, g, _, _, _) => PlacedLater(s, s', k, start, g);
    case Writing(entry, _) => WriteLater(s, s', k, entry);
    case _ =>
  }

  /** Everything but the calls, loads and pending table carries over by itself. */
  lemma CarryOver(s: State, s': State)
    requires Later(s, s') && WritesInv(s) && s'.writes == s.writes
    requires StoreInv(s) && s'.entries == s.entries
    ensures WritesInv(s') && StoreInv(s')
  {
    forall w | w in s'.writes ensures WriteInv(s', w.0, w.1) {
      WriteLater(s, s', w.0, w.1);
    }
    forall kg | kg in s'.entries ensures StoredOk(s', kg) {
      assert StoredOk(s, kg);
    }
  }
}
