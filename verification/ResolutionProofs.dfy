/** Resolution keeps the container's invariant, and succeeds on a validated registry. */
module ResolutionProofs {
  import opened Registry
  import opened Resolution

  lemma AppendKeepsCache(regs: Registrations, built: seq<Instance>, x: Instance, k: Cache,
                         lifetime: Lifetime, owner: ContainerId)
    requires CacheInv(regs, built, k, lifetime, owner, {})
    ensures CacheInv(regs, built + [x], k, lifetime, owner, {|built|})
  {
    var more := built + [x];
    assert forall i: nat :: i < |built| ==> more[i] == built[i];
    forall i: nat ensures Belongs(regs, more, k, lifetime, owner, i) && i != |built| <==>
                          Belongs(regs, built, k, lifetime, owner, i) {}
  }

  lemma RememberKeepsCache(regs: Registrations, built: seq<Instance>, k: Cache,
                           lifetime: Lifetime, owner: ContainerId, t: Token, id: InstanceId)
    requires CacheInv(regs, built, k, lifetime, owner, {id})
    requires Belongs(regs, built, k, lifetime, owner, id)
    requires |built| == id + 1 && built[id].token == t && t !in k.instances
    ensures CacheInv(regs, built, Remember(regs, k, t, id), lifetime, owner, {})
  {
    var k' := Remember(regs, k, t, id);
    forall i: nat ensures Belongs(regs, built, k', lifetime, owner, i) <==>
                          Belongs(regs, built, k, lifetime, owner, i) {}
    forall j | 0 <= j < |k.disposables| ensures k.disposables[j] < id {
      assert k.disposables[j] in k.disposables;
    }
  }

  lemma OtherKindKeepsCache(regs: Registrations, built: seq<Instance>, k: Cache,
                            lifetime: Lifetime, owner: ContainerId, id: InstanceId)
    requires CacheInv(regs, built, k, lifetime, owner, {id})
    requires !Belongs(regs, built, k, lifetime, owner, id)
    ensures CacheInv(regs, built, k, lifetime, owner, {})
  {
  }

  lemma AppendKeepsBuilt(regs: Registrations, built: seq<Instance>, x: Instance)
    requires BuiltInv(regs, built) && x.token in regs
    requires InstancesOf(regs, built, x.owner, regs[x.token].dependencies, x.dependencies)
    requires regs[x.token].lifetime.Singleton? ==> x.owner == ROOT
    ensures BuiltInv(regs, built + [x])
  {
    var more := built + [x];
    forall i | 0 <= i < |more| ensures NodeInv(regs, more, i) {
      if i < |built| {
        assert more[..i] == built[..i] && NodeInv(regs, built, i);
      } else {
        assert more[..i] == built;
      }
    }
  }

  lemma InstancesStay(regs: Registrations, built: seq<Instance>, more: seq<Instance>, c: ContainerId,
                      ts: seq<Token>, ids: seq<InstanceId>)
    requires InstancesOf(regs, built, c, ts, ids) && built <= more
    ensures InstancesOf(regs, more, c, ts, ids)
  {
    forall k | 0 <= k < |ids| ensures InstanceOf(regs, more, c, ts[k], ids[k]) {
      assert InstanceOf(regs, built, c, ts[k], ids[k]);
    }
  }

  /** The new instance `x` enters the history; the caches still have to remember it. */
  lemma AppendKeeps(regs: Registrations, w: World, x: Instance)
    requires Inv(regs, w) && x.token in regs && x.owner < |w.containers|
    requires InstancesOf(regs, w.built, x.owner, regs[x.token].dependencies, x.dependencies)
    requires regs[x.token].lifetime.Singleton? ==> x.owner == ROOT
    ensures InvExcept(regs, w.(built := w.built + [x]), {|w.built|})
  {
    AppendKeepsBuilt(regs, w.built, x);
    AppendKeepsCache(regs, w.built, x, w.singletons, Singleton, ROOT);
    forall c | 0 <= c < |w.containers|
      ensures CacheInv(regs, w.built + [x], w.containers[c], Scoped, c, {|w.built|})
    {
      AppendKeepsCache(regs, w.built, x, w.containers[c], Scoped, c);
    }
  }

  /** What a finished factory leaves behind: instance `id` is the newest, and not yet remembered. */
  ghost predicate Fresh(regs: Registrations, w: World, c: ContainerId, t: Token, id: InstanceId) {
    && InvExcept(regs, w, {id}) && |w.built| == id + 1 && c < |w.containers|
    && w.built[id].token == t && w.built[id].owner == c && t in regs
  }

  lemma KeepSingletonKeeps(regs: Registrations, before: World, w: World, t: Token, id: InstanceId,
                           stack: seq<Token>)
    requires Inv(regs, before) && Buildable(regs, before, ROOT, t) && t !in stack
    requires Grows(before, w, stack + [t]) && |before.built| <= id
    requires Fresh(regs, w, ROOT, t, id) && regs[t].lifetime.Singleton?
    ensures Inv(regs, KeepSingleton(regs, w, t, id))
    ensures Grows(before, KeepSingleton(regs, w, t, id), stack)
    ensures InstanceOf(regs, w.built, ROOT, t, id)
  {
    assert t in stack + [t];
    assert forall u :: u in stack ==> u in stack + [t];
    RememberKeepsCache(regs, w.built, w.singletons, Singleton, ROOT, t, id);
    forall c | 0 <= c < |w.containers| ensures CacheInv(regs, w.built, w.containers[c], Scoped, c, {}) {
      OtherKindKeepsCache(regs, w.built, w.containers[c], Scoped, c, id);
    }
  }

  lemma KeepScopedKeeps(regs: Registrations, before: World, w: World, c: ContainerId, t: Token,
                        id: InstanceId, stack: seq<Token>)
    requires Inv(regs, before) && Buildable(regs, before, c, t) && t !in stack
    requires Grows(before, w, stack + [t]) && |before.built| <= id
    requires Fresh(regs, w, c, t, id) && regs[t].lifetime.Scoped?
    ensures Inv(regs, KeepScoped(regs, w, c, t, id))
    ensures Grows(before, KeepScoped(regs, w, c, t, id), stack)
    ensures InstanceOf(regs, w.built, c, t, id)
  {
    assert CacheInv(regs, before.built, before.containers[c], Scoped, c, {});
    KeepScopedGrows(regs, before, w, c, t, id, stack);
    hide CacheInv, BuiltInv, CacheGrows;
    var w' := KeepScoped(regs, w, c, t, id);
    OtherKindKeepsCache(regs, w.built, w.singletons, Singleton, ROOT, id);
    forall d | 0 <= d < |w'.containers| ensures CacheInv(regs, w.built, w'.containers[d], Scoped, d, {}) {
      if d == c {
        RememberKeepsCache(regs, w.built, w.containers[c], Scoped, c, t, id);
      } else {
        OtherKindKeepsCache(regs, w.built, w.containers[d], Scoped, d, id);
      }
    }
  }

  lemma KeepScopedGrows(regs: Registrations, before: World, w: World, c: ContainerId, t: Token,
                        id: InstanceId, stack: seq<Token>)
    requires c < |before.containers| && t in regs && t !in stack
    requires t !in before.containers[c].instances && before.containers[c].epoch <= |before.built|
    requires Grows(before, w, stack + [t])
    ensures t !in w.containers[c].instances && w.containers[c].epoch <= |before.built|
    ensures Grows(before, KeepScoped(regs, w, c, t, id), stack)
  {
    assert t in stack + [t];
    GrowsWeaker(before, w, stack, t);
    assert CacheGrows(before.containers[c], w.containers[c], stack + [t]);
  }

  lemma TransientKeeps(regs: Registrations, w: World, c: ContainerId, t: Token, id: InstanceId)
    requires Fresh(regs, w, c, t, id) && regs[t].lifetime.Transient?
    ensures Inv(regs, w) && InstanceOf(regs, w.built, c, t, id)
  {
    OtherKindKeepsCache(regs, w.built, w.singletons, Singleton, ROOT, id);
    forall d | 0 <= d < |w.containers| ensures CacheInv(regs, w.built, w.containers[d], Scoped, d, {}) {
      OtherKindKeepsCache(regs, w.built, w.containers[d], Scoped, d, id);
    }
  }

  /** The token may be built now: nobody remembers it, and a singleton is built by the root. */
  predicate Buildable(regs: Registrations, w: World, c: ContainerId, t: Token) {
    && t in regs && c < |w.containers|
    && (regs[t].lifetime.Singleton? ==> c == ROOT && t !in w.singletons.instances)
    && (regs[t].lifetime.Scoped? ==> t !in w.containers[c].instances)
  }

  lemma {:induction false} ResolveKeeps(regs: Registrations, w: World, c: ContainerId, t: Token, stack: seq<Token>)
    requires Inv(regs, w) && c < |w.containers| && GoodStack(regs, stack)
    ensures var (w', r) := Resolve(regs, w, c, t, stack);
            Inv(regs, w') && Grows(w, w', stack) &&
            (r.Resolved? ==> InstanceOf(regs, w'.built, c, t, r.value))
    decreases Unopened(regs, stack), 2, 0
  {
    hide Fresh, GoodStack, BuiltInv, Grows;
    assert Grows(w, w, stack) by { GrowsReflexive(w, stack); }
    if t in regs && t !in stack {
      match regs[t].lifetime
      case Singleton =>
        if t !in w.singletons.instances {
          CreateKeeps(regs, w, ROOT, t, stack);
          var (w1, r) := Create(regs, w, ROOT, t, stack);
          GrowsWeaker(w, w1, stack, t);
          if r.Resolved? {
            KeepSingletonKeeps(regs, w, w1, t, r.value, stack);
          }
        }
      case Scoped =>
        if t !in w.containers[c].instances {
          CreateKeeps(regs, w, c, t, stack);
          var (w1, r) := Create(regs, w, c, t, stack);
          GrowsWeaker(w, w1, stack, t);
          if r.Resolved? {
            KeepScopedKeeps(regs, w, w1, c, t, r.value, stack);
          }
        }
      case Transient =>
        CreateKeeps(regs, w, c, t, stack);
        var (w1, r) := Create(regs, w, c, t, stack);
        GrowsWeaker(w, w1, stack, t);
        if r.Resolved? {
          TransientKeeps(regs, w1, c, t, r.value);
        }
    }
  }

  lemma {:induction false} CreateKeeps(regs: Registrations, w: World, c: ContainerId, t: Token, stack: seq<Token>)
    requires Inv(regs, w) && Buildable(regs, w, c, t)
    requires t !in stack && GoodStack(regs, stack)
    ensures var (w', r) := Create(regs, w, c, t, stack);
            Grows(w, w', stack + [t]) &&
            (if r.Resolved? then Fresh(regs, w', c, t, r.value) && |w.built| <= r.value
             else Inv(regs, w'))
    decreases Unopened(regs, stack), 1, 0
  {
    hide CacheInv, BuiltInv, CacheGrows;
    PushOpens(regs, stack, t);
    StackFits(regs, stack + [t]);
    var w0 := w.(deepest := Max(w.deepest, |stack| + 1));
    var deps := regs[t].dependencies;
    ResolveAllKeeps(regs, w0, c, [], deps, [], stack + [t]);
    var (w1, r) := ResolveAll(regs, w0, c, deps, [], stack + [t]);
    if r.Resolved? {
      assert [] + deps == deps;
      AppendKeeps(regs, w1, Instance(t, c, r.value));
    }
  }

  lemma {:induction false} ResolveAllKeeps(regs: Registrations, w: World, c: ContainerId, done: seq<Token>,
                                           ts: seq<Token>, ids: seq<InstanceId>, stack: seq<Token>)
    requires Inv(regs, w) && c < |w.containers| && GoodStack(regs, stack)
    requires InstancesOf(regs, w.built, c, done, ids)
    ensures var (w', r) := ResolveAll(regs, w, c, ts, ids, stack);
            Inv(regs, w') && Grows(w, w', stack) &&
            (r.Resolved? ==> InstancesOf(regs, w'.built, c, done + ts, r.value))
    decreases Unopened(regs, stack), 3, |ts|
  {
    hide Inv, GoodStack;
    if ts == [] {
      assert done + ts == done;
    } else {
      ResolveKeeps(regs, w, c, ts[0], stack);
      var (w1, r) := Resolve(regs, w, c, ts[0], stack);
      if r.Resolved? {
        InstancesStay(regs, w.built, w1.built, c, done, ids);
        ResolveAllKeeps(regs, w1, c, done + [ts[0]], ts[1..], ids + [r.value], stack);
        assert done + [ts[0]] + ts[1..] == done + ts;
        GrowsTransitive(w, w1, ResolveAll(regs, w1, c, ts[1..], ids + [r.value], stack).0, stack, stack);
      }
    }
  }
}
