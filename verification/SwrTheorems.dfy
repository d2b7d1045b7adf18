/** Generation fencing, single flight and the serving window of the read-through cache. */
module SwrTheorems {
  import opened CacheLifetimes
  import opened SwrProtocol
  import opened SwrInvariant
  import opened SwrProofs

  /** Moment `t` comes after the first `generation` invalidations of `k`. */
  predicate AfterInvalidations(s: State, k: Key, generation: nat, t: nat) {
    generation <= Generation(s, k) && forall i :: 0 <= i < generation ==> History(s, k)[i] < t
  }

  /** A timed-out follower's value, loaded before an invalidation and stored after it. */
  predicate Raced(entry: Entry) {
    entry.envelope.direct && entry.envelope.loadGeneration < entry.generation
  }

  /** Whatever was ever stored under generation g came from a loader that started after the g-th
      invalidation, unless, and only unless, it is a fallback write overtaken by an invalidation. */
  lemma {:induction false} WritesAreFenced(es: seq<Event>, k: Key, entry: Entry)
    requires (k, entry) in Run(INITIAL, es).writes
    ensures var s := Run(INITIAL, es);
            AfterInvalidations(s, k, entry.generation, entry.envelope.loadStart) <==> !Raced(entry)
  {
    RunKeeps(es);
    var s := Run(INITIAL, es);
    assert WriteInv(s, (k, entry).0, (k, entry).1);
    if Raced(entry) {
      assert History(s, k)[entry.envelope.loadGeneration] >= entry.envelope.loadStart;
    }
  }

  /** The store holds only entries that were written, under the generation they were written for,
      and keeps each at least until its stale deadline. */
  lemma {:induction false} StoreHoldsWrites(es: seq<Event>, k: Key, generation: nat)
    ensures var s := Run(INITIAL, es);
            (k, generation) in s.entries ==>
              var stored := s.entries[(k, generation)];
              (k, Entry(generation, stored.envelope)) in s.writes &&
              (s.now < stored.envelope.staleUntil ==> ReadEntry(s, k, generation) == Some(stored.envelope))
  {
    RunKeeps(es);
    var s := Run(INITIAL, es);
    if (k, generation) in s.entries {
      assert StoredOk(s, (k, generation));
    }
  }

  predicate Returned(c: Call, entry: Entry) {
    c.pc.Done? && ((c.pc.result.FromStore? && c.pc.result.entry == entry) ||
                   (c.pc.result.FromLoad? && c.pc.result.entry == entry))
  }

  /** The entry was loaded after every invalidation of the key that preceded the call. */
  ghost predicate FencedReturn(s: State, c: Call, entry: Entry) {
    forall j :: 0 <= j < Generation(s, c.key) && History(s, c.key)[j] < c.begun ==>
      History(s, c.key)[j] < entry.envelope.loadStart
  }

  ghost predicate InvalidatedBetween(s: State, k: Key, start: nat, end: nat) {
    exists j :: 0 <= j < Generation(s, k) && start <= History(s, k)[j] < end
  }

  /** However many leaders, refreshes and lapsed locks there were: what a call returns misses an
      invalidation that preceded the call exactly when a fallback wrote it and the key was invalidated
      after its load began and before the call did. The two generation counters tell. */
  lemma {:induction false} ReturnedIsFenced(es: seq<Event>, i: nat, entry: Entry)
    requires i < |Run(INITIAL, es).calls| && Returned(Run(INITIAL, es).calls[i], entry)
    ensures var s := Run(INITIAL, es);
            var c, e := s.calls[i], entry.envelope;
            && (c.key, entry) in s.writes
            && (!FencedReturn(s, c, entry) <==> e.direct && InvalidatedBetween(s, c.key, e.loadStart, c.begun))
            && (!FencedReturn(s, c, entry) <==> e.loadGeneration < c.begunGeneration)
            && (!FencedReturn(s, c, entry) ==> Raced(entry))
  {
    hide Run;
    RunKeeps(es);
    var s := Run(INITIAL, es);
    var c, e := s.calls[i], entry.envelope;
    assert CallInv(s, c);
    assert WriteInv(s, (c.key, entry).0, (c.key, entry).1);
    if e.loadGeneration < c.begunGeneration {
      assert e.loadStart <= History(s, c.key)[e.loadGeneration] < c.begun;
    }
  }

  // ----- runs in which no call reaches the timeout fallback -----

  predicate LoadTraced(ld: Load) {
    ld.phase.Writing? && !ld.direct ==> !ld.phase.entry.envelope.direct
  }

  ghost predicate NoFallback(s: State) {
    forall l :: 0 <= l < |s.loads| ==> !s.loads[l].direct
  }

  ghost predicate DirectTraced(s: State) {
    && (forall l :: 0 <= l < |s.loads| ==> LoadTraced(s.loads[l]))
    && (NoFallback(s) ==> forall w :: w in s.writes ==> !w.1.envelope.direct)
  }

  /** Nothing is written, and load `l` moves to a phase that has no fallback write ready unless it is
      the load of a fallback. */
  predicate OnlyMoves(s: State, s': State, l: nat)
    requires l < |s.loads|
  {
    && s'.writes == s.writes && |s'.loads| == |s.loads|
    && s'.loads == s.loads[l := s.loads[l].(phase := s'.loads[l].phase)]
    && LoadTraced(s'.loads[l])
  }

  lemma SetPhaseMoves(s: State, l: nat, phase: Phase)
    requires l < |s.loads| && (phase.Writing? ==> phase.entry.envelope.direct == s.loads[l].direct)
    ensures OnlyMoves(s, SetPhase(s, l, phase), l)
  {
  }

  /** A load step writes at most the entry the load had ready, and only touches that load. */
  predicate LoadStepOk(s: State, s': State, l: nat)
    requires l < |s.loads|
  {
    && |s'.loads| == |s.loads|
    && s'.loads == s.loads[l := s.loads[l].(phase := s'.loads[l].phase)]
    && LoadTraced(s'.loads[l])
    && (s'.writes == s.writes ||
        (s.loads[l].phase.Writing? &&
         s'.writes == s.writes + {(s.loads[l].pendingKey.key, s.loads[l].phase.entry)}))
  }

  lemma MovesIsOk(s: State, s': State, l: nat)
    requires l < |s.loads| && OnlyMoves(s, s', l)
    ensures LoadStepOk(s, s', l)
  {
  }

  lemma StoreIsOk(s: State, l: nat, entry: Entry, seconds: int)
    requires l < |s.loads| && s.loads[l].phase == Writing(entry, seconds)
    ensures LoadStepOk(s, StoreEntry(s, l, entry, seconds), l)
  {
  }

  lemma LoadStepShape(s: State, l: nat, fails: bool, hit: bool, random: real)
    requires l < |s.loads| && LoadTraced(s.loads[l])
    ensures LoadStepOk(s, StepLoad(s, l, fails, hit, random), l)
  {
    var ld := s.loads[l];
    var k := ld.pendingKey.key;
    assert LoadStepOk(s, s, l);
    hide LoadStepOk, OnlyMoves, LoadTraced, SetPhase, StoreEntry, BeginWrite, ReadEntry, Generation;
    var phase: Phase := LoadFailed;
    if !fails {
      match ld.phase
      case Queued => phase := Loading(s.tick, Generation(s, k));
      case Loading(start, g0) => phase := Loaded(start, g0, hit);
      case Loaded(start, g0, wasHit) =>
        BeginWriteTraced(s, ld, start, g0, wasHit, random, ld.pendingKey.generation);
        phase := if ld.direct then DirectGeneration(start, g0, wasHit, Generation(s, k))
                 else BeginWrite(s, ld, start, g0, wasHit, random, ld.pendingKey.generation);
      case DirectGeneration(start, g0, wasHit, g) => phase := DirectEntry(start, g0, wasHit, g, ReadEntry(s, k, g));
      case DirectEntry(start, g0, wasHit, g, found) =>
        BeginWriteTraced(s, ld, start, g0, wasHit, random, g);
        phase := if found.Some? then Settled(Entry(g, found.value))
                 else BeginWrite(s, ld, start, g0, wasHit, random, g);
      case Writing(entry, seconds) => StoreIsOk(s, l, entry, seconds);
      case _ =>
    }
    SetPhaseMoves(s, l, phase);
    MovesIsOk(s, SetPhase(s, l, phase), l);
  }

  lemma BeginWriteTraced(s: State, ld: Load, start: nat, startGeneration: nat, hit: bool, random: real, generation: nat)
    ensures var phase := BeginWrite(s, ld, start, startGeneration, hit, random, generation);
            phase.Writing? && phase.entry.envelope.direct == ld.direct
  {
    hide MakeEnvelope, RedisTtlSeconds;
  }

  lemma LoadStepTraced(s: State, l: nat, fails: bool, hit: bool, random: real)
    requires DirectTraced(s) && l < |s.loads|
    ensures DirectTraced(StepLoad(s, l, fails, hit, random))
  {
    hide StepLoad, LoadTraced;
    LoadStepShape(s, l, fails, hit, random);
    var s' := StepLoad(s, l, fails, hit, random);
    assert s'.loads[l].direct == s.loads[l].direct;
    if NoFallback(s') {
      forall m | 0 <= m < |s.loads| ensures !s.loads[m].direct {
        assert !s'.loads[m].direct;
      }
      assert LoadTraced(s.loads[l]);
      EntryTraced(s.loads[l]);
    }
  }

  lemma EntryTraced(ld: Load)
    requires LoadTraced(ld) && !ld.direct
    ensures ld.phase.Writing? ==> !ld.phase.entry.envelope.direct
  {
  }

  lemma CallStepTraced(s: State, i: nat)
    requires DirectTraced(s) && i < |s.calls|
    ensures DirectTraced(StepCall(s, i))
  {
    hide StepCall;
    StepCallStarts(s, i);
    var s' := StepCall(s, i);
    assert forall l :: 0 <= l < |s.loads| ==> s'.loads[l] == s.loads[l];
  }

  lemma DirectTracedKept(s: State, e: Event)
    requires DirectTraced(s)
    ensures DirectTraced(Step(s, e))
  {
    hide StepCall, StepLoad;
    match e
    case AdvanceCall(i) => if i < |s.calls| { CallStepTraced(s, i); }
    case AdvanceLoad(l, fails, hit, random) => if l < |s.loads| { LoadStepTraced(s, l, fails, hit, random); }
    case _ =>
  }

  lemma {:induction false} RunTracesDirect(es: seq<Event>)
    ensures DirectTraced(Run(INITIAL, es))
    decreases |es|
  {
    if es != [] {
      RunTracesDirect(es[..|es| - 1]);
      hide DirectTraced, Step;
      DirectTracedKept(Run(INITIAL, es[..|es| - 1]), es[|es| - 1]);
    }
  }

  /** Without a fallback load in the run the fence holds outright, for the store and every call. */
  lemma FencedWithoutFallback(es: seq<Event>)
    requires NoFallback(Run(INITIAL, es))
    ensures var s := Run(INITIAL, es);
            forall k, g :: (k, g) in s.entries ==>
              AfterInvalidations(s, k, g, s.entries[(k, g)].envelope.loadStart)
    ensures var s := Run(INITIAL, es);
            forall i, entry :: 0 <= i < |s.calls| && Returned(s.calls[i], entry) ==> FencedReturn(s, s.calls[i], entry)
  {
    RunTracesDirect(es);
    var s := Run(INITIAL, es);
    forall k, g | (k, g) in s.entries
      ensures AfterInvalidations(s, k, g, s.entries[(k, g)].envelope.loadStart)
    {
      StoreHoldsWrites(es, k, g);
      WritesAreFenced(es, k, Entry(g, s.entries[(k, g)].envelope));
    }
    forall i, entry | 0 <= i < |s.calls| && Returned(s.calls[i], entry)
      ensures FencedReturn(s, s.calls[i], entry)
    {
      ReturnedIsFenced(es, i, entry);
    }
  }

  // ----- single flight and the serving window -----

  /** In one process at most one load per key, generation and mode has not settled. */
  lemma {:induction false} SingleFlight(es: seq<Event>, l: nat, m: nat)
    requires var s := Run(INITIAL, es);
             l < |s.loads| && m < |s.loads| && Active(s.loads[l]) && Active(s.loads[m])
    ensures var s := Run(INITIAL, es);
            s.loads[l].pendingKey == s.loads[m].pendingKey ==> l == m
  {
    RunKeeps(es);
    var s := Run(INITIAL, es);
    assert ActiveOk(s, l) && ActiveOk(s, m);
  }

  /** Once no call is outstanding, the table of pending loads is empty and every load has settled. */
  lemma {:induction false} PendingDrains(es: seq<Event>)
    requires forall i :: 0 <= i < |Run(INITIAL, es).calls| ==> Run(INITIAL, es).calls[i].pc.Done?
    ensures Run(INITIAL, es).pending == map[]
    ensures forall l :: 0 <= l < |Run(INITIAL, es).loads| ==> !Active(Run(INITIAL, es).loads[l])
  {
    RunKeeps(es);
    var s := Run(INITIAL, es);
    forall pk ensures pk !in s.pending {}
    forall l | 0 <= l < |s.loads| ensures !Active(s.loads[l]) {
      assert ActiveOk(s, l);
    }
  }

  /** An entry served from the store (by the direct, leader or polling path) was before its stale
      deadline when it was checked, and before its fresh deadline if it records an absent value. */
  lemma {:induction false} ServedInWindow(es: seq<Event>, i: nat)
    ensures var s := Run(INITIAL, es);
            i < |s.calls| && s.calls[i].pc.Done? && s.calls[i].pc.result.FromStore? ==>
              var r := s.calls[i].pc.result;
              r.checkedAt <= s.now && r.checkedAt < r.entry.envelope.staleUntil &&
              (!r.entry.envelope.hit ==> r.checkedAt < r.entry.envelope.freshUntil)
  {
    RunKeeps(es);
    var s := Run(INITIAL, es);
    if i < |s.calls| && s.calls[i].pc.Done? && s.calls[i].pc.result.FromStore? {
      var r := s.calls[i].pc.result;
      assert CallInv(s, s.calls[i]);
      var w := (s.calls[i].key, r.entry);
      assert WriteInv(s, w.0, w.1);
    }
  }

  /** The fallback returns what it finds without looking at its age. All that bounds the age is the
      entry's lifetime in the store: past its stale deadline by less than the second of rounding, plus
      the time its write took to reach the store. */
  lemma {:induction false} FallbackEntryAge(es: seq<Event>, l: nat, hit: bool, random: real)
    requires l < |Run(INITIAL, es).loads| && Run(INITIAL, es).loads[l].phase.DirectGeneration?
    ensures var s := Run(INITIAL, es);
            var s' := Step(s, AdvanceLoad(l, false, hit, random));
            var ld := s.loads[l];
            && s'.loads[l].phase.DirectEntry?
            && var found := s'.loads[l].phase.found;
            && (found.Some? ==>
                  && (ld.pendingKey.key, ld.phase.generation) in s.entries
                  && var stored := s.entries[(ld.pendingKey.key, ld.phase.generation)];
                  && stored.envelope == found.value
                  && s.now < Max(found.value.staleUntil, found.value.cachedAt) + 1000 +
                             (stored.storedAt - found.value.cachedAt))
  {
    hide Run;
    RunKeeps(es);
    var s := Run(INITIAL, es);
    var ld := s.loads[l];
    var kg := (ld.pendingKey.key, ld.phase.generation);
    if kg in s.entries {
      assert StoredOk(s, kg);
    }
  }
}
