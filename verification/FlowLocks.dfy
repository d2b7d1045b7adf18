/** Any number of critical sections over lists of leased locks, interleaved step by step with each
    other, with other users of the lock store and with time. */
module FlowLocks {
  import opened LeasedLocks

  datatype Phase = Acquiring | Running | Unwinding(outcome: Outcome) | Done(outcome: Outcome)

  /** One call of `withFlowLocks`; `held[i]` is the lease it got on `keys[i]`. */
  datatype Flow = Flow(keys: seq<string>, held: seq<Lease>, phase: Phase, startedAt: nat)

  /** Owner 0 stands for every other user of the store. */
  datatype World = World(store: Store, serial: nat, flows: map<nat, Flow>)

  datatype Event =
    | Begin(flow: nat, keys: seq<string>)
    | Next(flow: nat)
    | Finish(flow: nat, result: Outcome)
    | Undo(flow: nat)
    | Outside(op: Op)

  const NEW_WORLD := World(Store(map[], 0), 0, map[])

  /** Takes the next key, or enters the body when there is none; a refusal unwinds. */
  function TakeNext(w: World, id: nat): World
    requires id in w.flows && |w.flows[id].held| <= |w.flows[id].keys|
  {
    var f := w.flows[id];
    var n := |f.held|;
    if n == |f.keys| || f.keys[n] == "" then w.(flows := w.flows[id := f.(phase := Running)])
    else
      var token := Token(id, w.serial);
      var (table, ok) := Acquire(w.store.table, f.keys[n], token, FLOW_LOCK_TTL_MS, w.store.now);
      var f' := if ok then f.(held := f.held + [Lease(token, w.store.now + FLOW_LOCK_TTL_MS)])
                else f.(phase := Unwinding(Conflict));
      w.(store := w.store.(table := table), serial := w.serial + 1, flows := w.flows[id := f'])
  }

  /** Gives back the lock taken last, or returns when there is none. */
  function GiveBack(w: World, id: nat): World
    requires id in w.flows && w.flows[id].phase.Unwinding? && |w.flows[id].held| <= |w.flows[id].keys|
  {
    var f := w.flows[id];
    if f.held == [] then w.(flows := w.flows[id := f.(phase := Done(f.phase.outcome))])
    else
      var n := |f.held| - 1;
      var table := Release(w.store.table, f.keys[n], f.held[n].token, w.store.now).0;
      w.(store := w.store.(table := table), flows := w.flows[id := f.(held := f.held[..n])])
  }

  function Step(w: World, e: Event): World {
    match e
    case Begin(id, keys) =>
      if id == 0 || id in w.flows then w
      else w.(flows := w.flows[id := Flow(keys, [], Acquiring, w.store.now)])
    case Next(id) =>
      if id in w.flows && w.flows[id].phase.Acquiring? && |w.flows[id].held| <= |w.flows[id].keys|
      then TakeNext(w, id) else w
    case Finish(id, result) =>
      if id in w.flows && w.flows[id].phase.Running?
      then w.(flows := w.flows[id := w.flows[id].(phase := Unwinding(result))]) else w
    case Undo(id) =>
      if id in w.flows && w.flows[id].phase.Unwinding? && |w.flows[id].held| <= |w.flows[id].keys|
      then GiveBack(w, id) else w
    case Outside(op) =>
      if op.Pass? || By(op, 0) then w.(store := Do(w.store, op)) else w
  }

  function Run(events: seq<Event>): World {
    if events == [] then NEW_WORLD else Step(Run(events[..|events| - 1]), events[|events| - 1])
  }

  // ----- the invariant -----

  predicate Lapsed(w: World, lease: Lease) {
    lease.expiresAt <= w.store.now
  }

  /** The flow's i-th lease: its own, later than its earlier ones, long enough, and in the table for as
      long as it has not lapsed. */
  ghost predicate LeaseInv(w: World, id: nat, i: nat)
    requires id in w.flows && i < |w.flows[id].held| <= |w.flows[id].keys|
  {
    var f := w.flows[id];
    && f.held[i].token.owner == id
    && f.held[i].token.serial < w.serial
    && f.startedAt + FLOW_LOCK_TTL_MS <= f.held[i].expiresAt
    && (forall j :: 0 <= j < i ==> f.held[j].token != f.held[i].token)
    && (!Lapsed(w, f.held[i]) ==> f.keys[i] in w.store.table && w.store.table[f.keys[i]] == f.held[i])
  }

  ghost predicate FlowInv(w: World, id: nat)
    requires id in w.flows
  {
    var f := w.flows[id];
    && id != 0
    && f.startedAt <= w.store.now
    && |f.held| <= |Named(f.keys)|
    && (f.phase.Running? ==> |f.held| == |Named(f.keys)|)
    && (f.phase.Done? ==> f.held == [])
    && (forall i: nat :: i < |f.held| ==> LeaseInv(w, id, i))
  }

  ghost predicate HasLease(f: Flow, key: string, lease: Lease) {
    exists i :: 0 <= i < |f.held| <= |f.keys| && f.held[i] == lease && f.keys[i] == key
  }

  /** A live lock of a flow is one the flow still knows of. */
  ghost predicate KeyInv(w: World, key: string) {
    Live(w.store.table, key, w.store.now) && w.store.table[key].token.owner != 0 ==>
      var id := w.store.table[key].token.owner;
      id in w.flows && HasLease(w.flows[id], key, w.store.table[key])
  }

  ghost predicate Inv(w: World) {
    && (forall id :: id in w.flows ==> FlowInv(w, id))
    && (forall key :: KeyInv(w, key))
  }

  lemma {:induction false} NamedPrefix(keys: seq<string>, n: nat)
    requires n <= |Named(keys)|
    ensures n < |keys| && keys[n] != "" <==> n < |Named(keys)|
  {
    if n > 0 {
      NamedPrefix(keys[1..], n - 1);
    }
  }

  lemma TakeNextKeepsFlows(w: World, id: nat, other: nat)
    requires Inv(w) && id in w.flows && w.flows[id].phase.Acquiring? && other in w.flows
    ensures FlowInv(TakeNext(w, id), other)
  {
    var f := w.flows[id];
    var n := |f.held|;
    assert FlowInv(w, id);
    NamedPrefix(f.keys, n);
    hide Named, LeaseInv, KeyInv;
    var w' := TakeNext(w, id);
    assert FlowInv(w, other);
    forall i: nat | i < |w'.flows[other].held| ensures LeaseInv(w', other, i) {
      if i < |w.flows[other].held| {
        assert LeaseInv(w, other, i);
        OldLeaseStays(w, id, other, i);
      } else {
        NewLeaseIn(w, id);
      }
    }
  }

  lemma OldLeaseStays(w: World, id: nat, other: nat, i: nat)
    requires id in w.flows && w.flows[id].phase.Acquiring? && |w.flows[id].held| <= |w.flows[id].keys|
    requires other in w.flows && i < |w.flows[other].held| <= |w.flows[other].keys| && LeaseInv(w, other, i)
    ensures var w' := TakeNext(w, id);
            i < |w'.flows[other].held| <= |w'.flows[other].keys| && LeaseInv(w', other, i)
  {
  }

  lemma NewLeaseIn(w: World, id: nat)
    requires id in w.flows && FlowInv(w, id)
    requires var n := |w.flows[id].held|;
             |TakeNext(w, id).flows[id].held| == n + 1 && n < |w.flows[id].keys|
    ensures LeaseInv(TakeNext(w, id), id, |w.flows[id].held|)
  {
    hide Named;
    var f, w' := w.flows[id], TakeNext(w, id);
    var n := |f.held|;
    forall j: nat | j < n ensures f.held[j].token != w'.flows[id].held[n].token {
      assert LeaseInv(w, id, j);
    }
  }

  lemma LeaseStays(f: Flow, f': Flow, key: string, lease: Lease)
    requires HasLease(f, key, lease) && f.held <= f'.held && f'.keys == f.keys && |f'.held| <= |f'.keys|
    ensures HasLease(f', key, lease)
  {
    var i :| 0 <= i < |f.held| <= |f.keys| && f.held[i] == lease && f.keys[i] == key;
    assert f'.held[i] == lease;
  }

  lemma TakeNextKeepsKeys(w: World, id: nat, key: string)
    requires Inv(w) && id in w.flows && w.flows[id].phase.Acquiring?
    ensures KeyInv(TakeNext(w, id), key)
  {
    var f := w.flows[id];
    var n := |f.held|;
    assert FlowInv(w, id);
    NamedPrefix(f.keys, n);
    hide Named, LeaseInv, HasLease;
    var w' := TakeNext(w, id);
    assert KeyInv(w, key);
    if Live(w'.store.table, key, w'.store.now) && w'.store.table[key].token.owner != 0 {
      var owner, lease := w'.store.table[key].token.owner, w'.store.table[key];
      if key in w.store.table && w.store.table[key] == lease {
        if owner == id { LeaseStays(f, w'.flows[id], key, lease); }
      } else {
        NewLease(w'.flows[id], n);
      }
    }
  }

  lemma NewLease(f: Flow, i: nat)
    requires i < |f.held| <= |f.keys|
    ensures HasLease(f, f.keys[i], f.held[i])
  {
  }

  lemma GiveBackKeepsFlows(w: World, id: nat, other: nat)
    requires Inv(w) && id in w.flows && w.flows[id].phase.Unwinding? && other in w.flows
    ensures FlowInv(w, id) && |w.flows[id].held| <= |w.flows[id].keys|
    ensures FlowInv(GiveBack(w, id), other)
  {
    hide Named;
    assert FlowInv(w, id);
    assert FlowInv(w, other);
    var f := w.flows[id];
    var w' := GiveBack(w, id);
    forall i: nat | i < |w'.flows[other].held| ensures LeaseInv(w', other, i) {
      assert LeaseInv(w, other, i);
      if f.held != [] {
        var n := |f.held| - 1;
        assert LeaseInv(w, id, n);
        assert other == id ==> f.held[i].token != f.held[n].token;
      }
    }
  }

  lemma GiveBackKeepsKeys(w: World, id: nat, key: string)
    requires Inv(w) && id in w.flows && w.flows[id].phase.Unwinding? && |w.flows[id].held| <= |w.flows[id].keys|
    ensures KeyInv(GiveBack(w, id), key)
  {
    hide Named;
    assert FlowInv(w, id) && KeyInv(w, key);
    var f := w.flows[id];
    var w' := GiveBack(w, id);
    if f.held != [] && Live(w'.store.table, key, w'.store.now) && w'.store.table[key].token.owner == id {
      var n := |f.held| - 1;
      assert LeaseInv(w, id, n);
      var lease := w'.store.table[key];
      var i :| 0 <= i < |f.held| <= |f.keys| && f.held[i] == lease && f.keys[i] == key;
      assert w'.flows[id].held[i] == lease;
    }
  }

  lemma OutsideKeeps(w: World, op: Op)
    requires Inv(w) && (op.Pass? || By(op, 0))
    ensures Inv(w.(store := Do(w.store, op)))
  {
    hide Named, HasLease;
    var w' := w.(store := Do(w.store, op));
    forall id | id in w'.flows ensures FlowInv(w', id) {
      assert FlowInv(w, id);
      forall i: nat | i < |w'.flows[id].held| ensures LeaseInv(w', id, i) {
        assert LeaseInv(w, id, i);
      }
    }
    forall key ensures KeyInv(w', key) {
      assert KeyInv(w, key);
    }
  }

  lemma PhaseKeeps(w: World, id: nat, phase: Phase)
    requires Inv(w) && id in w.flows && !phase.Running? && !phase.Done?
    ensures Inv(w.(flows := w.flows[id := w.flows[id].(phase := phase)]))
  {
    hide Named;
    var w' := w.(flows := w.flows[id := w.flows[id].(phase := phase)]);
    forall other | other in w'.flows ensures FlowInv(w', other) {
      assert FlowInv(w, other);
      forall i: nat | i < |w'.flows[other].held| ensures LeaseInv(w', other, i) {
        assert LeaseInv(w, other, i);
      }
    }
    forall key ensures KeyInv(w', key) {
      assert KeyInv(w, key);
    }
  }

  lemma BeginKeeps(w: World, id: nat, keys: seq<string>)
    requires Inv(w) && id != 0 && id !in w.flows
    ensures Inv(w.(flows := w.flows[id := Flow(keys, [], Acquiring, w.store.now)]))
  {
    hide Named;
    var w' := w.(flows := w.flows[id := Flow(keys, [], Acquiring, w.store.now)]);
    forall other | other in w'.flows ensures FlowInv(w', other) {
      if other != id {
        assert FlowInv(w, other);
        forall i: nat | i < |w'.flows[other].held| ensures LeaseInv(w', other, i) {
          assert LeaseInv(w, other, i);
        }
      }
    }
    forall key ensures KeyInv(w', key) {
      assert KeyInv(w, key);
    }
  }

  lemma StepKeeps(w: World, e: Event)
    requires Inv(w)
    ensures Inv(Step(w, e))
  {
    hide FlowInv, KeyInv, TakeNext, GiveBack, Do;
    match e
    case Begin(id, keys) =>
      if id != 0 && id !in w.flows { BeginKeeps(w, id, keys); }
    case Next(id) =>
      if id in w.flows && w.flows[id].phase.Acquiring? && |w.flows[id].held| <= |w.flows[id].keys| {
        SameFlows(w, id);
        forall other | other in w.flows ensures FlowInv(TakeNext(w, id), other) { TakeNextKeepsFlows(w, id, other); }
        forall key ensures KeyInv(TakeNext(w, id), key) { TakeNextKeepsKeys(w, id, key); }
      }
    case Finish(id, result) =>
      if id in w.flows && w.flows[id].phase.Running? { PhaseKeeps(w, id, Unwinding(result)); }
    case Undo(id) =>
      if id in w.flows && w.flows[id].phase.Unwinding? && |w.flows[id].held| <= |w.flows[id].keys| {
        SameFlows(w, id);
        forall other | other in w.flows ensures FlowInv(GiveBack(w, id), other) { GiveBackKeepsFlows(w, id, other); }
        forall key ensures KeyInv(GiveBack(w, id), key) { GiveBackKeepsKeys(w, id, key); }
      }
    case Outside(op) =>
      if op.Pass? || By(op, 0) { OutsideKeeps(w, op); }
  }

  lemma SameFlows(w: World, id: nat)
    requires id in w.flows && |w.flows[id].held| <= |w.flows[id].keys|
    ensures TakeNext(w, id).flows.Keys == w.flows.Keys
    ensures w.flows[id].phase.Unwinding? ==> GiveBack(w, id).flows.Keys == w.flows.Keys
  {
  }

  lemma {:induction false} RunKeeps(events: seq<Event>)
    ensures Inv(Run(events))
  {
    if events != [] {
      hide Inv, Step;
      RunKeeps(events[..|events| - 1]);
      StepKeeps(Run(events[..|events| - 1]), events[|events| - 1]);
    }
  }

  // ----- theorems -----

  /** At most one live holder per key: of two leases on one key, of one flow or of two, one has lapsed. */
  lemma OneLiveHolder(events: seq<Event>, f: nat, i: nat, g: nat, j: nat)
    requires var w := Run(events);
             f in w.flows && g in w.flows && i < |w.flows[f].held| && j < |w.flows[g].held| && (f != g || i < j)
    ensures var w := Run(events);
            i < |w.flows[f].keys| && j < |w.flows[g].keys| &&
            (w.flows[f].keys[i] == w.flows[g].keys[j] ==>
               Lapsed(w, w.flows[f].held[i]) || Lapsed(w, w.flows[g].held[j]))
  {
    hide Run, Named, HasLease;
    RunKeeps(events);
    var w := Run(events);
    assert FlowInv(w, f) && FlowInv(w, g);
    assert LeaseInv(w, f, i) && LeaseInv(w, g, j);
  }

  /** In every run, a flow that takes its next named key gets a lease of the full lifetime on it exactly
      when no lease on it ends later, and is refused otherwise; with none left to take it enters its body. */
  lemma {:induction false} NextExactly(events: seq<Event>, id: nat)
    requires id in Run(events).flows && Run(events).flows[id].phase.Acquiring?
    ensures var w, w' := Run(events), Step(Run(events), Next(id));
            && id in w'.flows
            && var f, f' := w.flows[id], w'.flows[id];
            var n := |f.held|;
            && n <= |Named(f.keys)| && f'.keys == f.keys && f'.startedAt == f.startedAt
            && (f'.phase.Running? <==> n == |Named(f.keys)|)
            && (n == |Named(f.keys)| ==> f'.held == f.held && w'.store == w.store)
            && (n < |Named(f.keys)| ==>
                  var k := f.keys[n];
                  if k in w.store.table && w.store.now < w.store.table[k].expiresAt
                  then f' == f.(phase := Unwinding(Conflict)) && w'.store == w.store
                  else
                    && |f'.held| == n + 1 && f'.held[..n] == f.held && f'.phase.Acquiring?
                    && f'.held[n].expiresAt == w.store.now + 15000
                    && w'.store == w.store.(table := w.store.table[k := f'.held[n]]))
  {
    hide Run, LeaseInv, KeyInv, Named;
    RunKeeps(events);
    var f := Run(events).flows[id];
    assert FlowInv(Run(events), id);
    NamedPrefix(f.keys, |f.held|);
  }

  /** A call begins with nothing held, and others' operations reach the store as they are. */
  lemma BeginsExactly(w: World, id: nat, keys: seq<string>, op: Op)
    ensures Step(w, Begin(id, keys)) ==
              if id != 0 && id !in w.flows
              then w.(flows := w.flows[id := Flow(keys, [], Acquiring, w.store.now)]) else w
    ensures op.Pass? || op.token.owner == 0 ==> Step(w, Outside(op)) == w.(store := Do(w.store, op))
  {
    hide Do;
  }

  /** A body ends with its result; unwinding gives back the locks one by one, last first, and the flow ends
      with the outcome it began to unwind with. */
  lemma {:induction false} UnwindsExactly(events: seq<Event>, id: nat, result: Outcome)
    requires id in Run(events).flows
    ensures var w := Run(events);
            var f := w.flows[id];
            && (f.phase.Running? ==>
                  Step(w, Finish(id, result)) == w.(flows := w.flows[id := f.(phase := Unwinding(result))]))
            && (f.phase.Unwinding? && f.held == [] ==>
                  Step(w, Undo(id)) == w.(flows := w.flows[id := f.(phase := Done(f.phase.outcome))]))
            && (f.phase.Unwinding? && f.held != [] ==>
                  && |f.held| <= |f.keys|
                  && var n := |f.held| - 1;
                  && Step(w, Undo(id)).flows == w.flows[id := f.(held := f.held[..n])]
                  && Step(w, Undo(id)).store == w.store.(table :=
                       if w.store.now < f.held[n].expiresAt then w.store.table - {f.keys[n]} else w.store.table))
  {
    hide Run, KeyInv, Named;
    RunKeeps(events);
    var w := Run(events);
    var f := w.flows[id];
    assert FlowInv(w, id);
    if f.phase.Unwinding? && f.held != [] {
      var n := |f.held| - 1;
      assert LeaseInv(w, id, n);
      if f.held[n].expiresAt <= w.store.now {
        LapsedNotHeld(w, id, n);
      }
    }
  }

  /** The token of a lapsed lease no longer holds its key. */
  lemma LapsedNotHeld(w: World, id: nat, n: nat)
    requires Inv(w) && id in w.flows && n < |w.flows[id].held| <= |w.flows[id].keys|
    requires w.flows[id].held[n].expiresAt <= w.store.now
    ensures !Holds(w.store.table, w.flows[id].keys[n], w.flows[id].held[n].token, w.store.now)
  {
    hide Named;
    var f := w.flows[id];
    var key := f.keys[n];
    assert FlowInv(w, id) && LeaseInv(w, id, n) && KeyInv(w, key);
    if Holds(w.store.table, key, f.held[n].token, w.store.now) {
      var i :| 0 <= i < |f.held| <= |f.keys| && f.held[i] == w.store.table[key] && f.keys[i] == key;
      assert LeaseInv(w, id, i);
      SameToken(w, id, i, n);
    }
  }

  lemma SameToken(w: World, id: nat, i: nat, j: nat)
    requires Inv(w) && id in w.flows && i < |w.flows[id].held| <= |w.flows[id].keys| && j < |w.flows[id].held|
    requires w.flows[id].held[i].token == w.flows[id].held[j].token
    ensures i == j
  {
    assert FlowInv(w, id) && LeaseInv(w, id, i) && LeaseInv(w, id, j);
  }

  /** The body of a flow runs only after every named key was got, and each of those locks is the flow's
      own until it lapses, which takes the full lifetime from the start of the flow. */
  lemma BodyHoldsEveryKey(events: seq<Event>, id: nat, i: nat)
    requires id in Run(events).flows && Run(events).flows[id].phase.Running?
    requires i < |Named(Run(events).flows[id].keys)|
    ensures var w := Run(events);
            var f := w.flows[id];
            && |f.held| == |Named(f.keys)|
            && f.startedAt + FLOW_LOCK_TTL_MS <= f.held[i].expiresAt
            && (!Lapsed(w, f.held[i]) ==> Holds(w.store.table, f.keys[i], f.held[i].token, w.store.now))
  {
    hide Run, Named, KeyInv;
    RunKeeps(events);
    assert FlowInv(Run(events), id);
    assert LeaseInv(Run(events), id, i);
  }

  /** Two flows with a named key in common are never in their bodies together while both are within
      the lock lifetime. */
  lemma BodiesNeverOverlap(events: seq<Event>, f: nat, g: nat, key: string)
    requires var w := Run(events);
             && f in w.flows && g in w.flows && f != g
             && w.flows[f].phase.Running? && w.flows[g].phase.Running?
             && key in Named(w.flows[f].keys) && key in Named(w.flows[g].keys)
    ensures var w := Run(events);
            w.flows[f].startedAt + FLOW_LOCK_TTL_MS <= w.store.now ||
            w.flows[g].startedAt + FLOW_LOCK_TTL_MS <= w.store.now
  {
    hide Run, Named, Inv, FlowInv, Holds;
    var w := Run(events);
    var i :| 0 <= i < |Named(w.flows[f].keys)| && Named(w.flows[f].keys)[i] == key;
    var j :| 0 <= j < |Named(w.flows[g].keys)| && Named(w.flows[g].keys)[j] == key;
    BodyHoldsEveryKey(events, f, i);
    BodyHoldsEveryKey(events, g, j);
    OneLiveHolder(events, f, i, g, j);
  }

  /** A finished flow leaves none of its locks behind, whatever its outcome. */
  lemma NothingLeftBehind(events: seq<Event>, id: nat, key: string)
    requires var w := Run(events);
             && id in w.flows && w.flows[id].phase.Done?
             && Live(w.store.table, key, w.store.now)
    ensures Run(events).store.table[key].token.owner != id
  {
    hide Run, Named;
    RunKeeps(events);
    assert FlowInv(Run(events), id) && KeyInv(Run(events), key);
  }

  predicate ActsFor(e: Event, owner: nat) {
    match e
    case Outside(op) => By(op, owner)
    case Begin(id, _) => id == owner
    case Next(id) => id == owner
    case Finish(id, _) => id == owner
    case Undo(id) => id == owner
  }

  /** No step of anyone else releases, extends or takes a live lease: a holder whose lease lapsed can
      do nothing to its successor's lock. */
  lemma OnlyOwnerTouches(events: seq<Event>, e: Event, key: string)
    requires var w := Run(events);
             Live(w.store.table, key, w.store.now) && !ActsFor(e, w.store.table[key].token.owner)
    ensures var w, w' := Run(events), Step(Run(events), e);
            w'.store.now < w.store.table[key].expiresAt ==>
              Live(w'.store.table, key, w'.store.now) && w'.store.table[key] == w.store.table[key]
  {
    hide Run, Named, KeyInv;
    RunKeeps(events);
    var w := Run(events);
    match e
    case Undo(id) =>
      if id in w.flows && w.flows[id].phase.Unwinding? && w.flows[id].held != [] {
        assert FlowInv(w, id);
        assert LeaseInv(w, id, |w.flows[id].held| - 1);
      }
    case _ =>
  }

  /** How many more steps of its own a flow can take. */
  function Remaining(f: Flow): int {
    match f.phase
    case Acquiring => 2 * |f.keys| + 4 - |f.held|
    case Running => |f.held| + 3
    case Unwinding(_) => |f.held| + 1
    case Done(_) => 0
  }

  /** The step an unfinished flow takes next. */
  function OwnStep(f: Flow, id: nat, result: Outcome): Event {
    if f.phase.Acquiring? then Next(id) else if f.phase.Running? then Finish(id, result) else Undo(id)
  }

  /** Nobody waits for a lock, so flows cannot block each other: an unfinished flow always has a step
      of its own, and each brings its end nearer. */
  lemma FlowsFinish(events: seq<Event>, id: nat, result: Outcome)
    requires id in Run(events).flows && !Run(events).flows[id].phase.Done?
    ensures var w := Run(events);
            var w' := Step(w, OwnStep(w.flows[id], id, result));
            && 0 < Remaining(w.flows[id]) <= 2 * |w.flows[id].keys| + 4
            && id in w'.flows && 0 <= Remaining(w'.flows[id]) < Remaining(w.flows[id])
  {
    hide Run, LeaseInv, KeyInv, Named;
    RunKeeps(events);
    assert FlowInv(Run(events), id);
  }
}
