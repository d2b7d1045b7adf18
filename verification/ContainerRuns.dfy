/** What callers of a container see over a run: which instance they get, how long they keep getting it,
    what a disposal ends, and what an error means. */
module ContainerRuns {
  import opened Registry
  import opened Resolution
  import opened ResolutionProofs
  import opened ContainerTheorems
  import opened RootDisposal

  // ----- who builds what -----

  /** What a resolution in `c` builds is built by `c` or by the root. */
  ghost predicate BuiltBy(w: World, w': World, c: ContainerId) {
    forall i :: |w.built| <= i < |w'.built| ==> w'.built[i].owner in {ROOT, c}
  }

  lemma {:induction false} ResolveOwners(regs: Registrations, w: World, c: ContainerId, t: Token, stack: seq<Token>)
    requires c < |w.containers|
    ensures var w' := Resolve(regs, w, c, t, stack).0;
            w.built <= w'.built && BuiltBy(w, w', c)
    decreases Unopened(regs, stack), 2, 0
  {
    if t in regs && t !in stack {
      match regs[t].lifetime
      case Singleton => if t !in w.singletons.instances { CreateOwners(regs, w, ROOT, t, stack); }
      case Scoped => if t !in w.containers[c].instances { CreateOwners(regs, w, c, t, stack); }
      case Transient => CreateOwners(regs, w, c, t, stack);
    }
  }

  lemma {:induction false} CreateOwners(regs: Registrations, w: World, c: ContainerId, t: Token, stack: seq<Token>)
    requires c < |w.containers| && t in regs && t !in stack
    ensures var (w', r) := Create(regs, w, c, t, stack);
            w.built <= w'.built && BuiltBy(w, w', c) && (r.Resolved? ==> |w.built| <= r.value == |w'.built| - 1)
    decreases Unopened(regs, stack), 1, 0
  {
    PushOpens(regs, stack, t);
    ResolveAllOwners(regs, w.(deepest := Max(w.deepest, |stack| + 1)), c, regs[t].dependencies, [], stack + [t]);
  }

  lemma {:induction false} ResolveAllOwners(regs: Registrations, w: World, c: ContainerId, ts: seq<Token>,
                                            ids: seq<InstanceId>, stack: seq<Token>)
    requires c < |w.containers|
    ensures var w' := ResolveAll(regs, w, c, ts, ids, stack).0;
            w.built <= w'.built && BuiltBy(w, w', c)
    decreases Unopened(regs, stack), 3, |ts|
  {
    if ts != [] {
      ResolveOwners(regs, w, c, ts[0], stack);
      var (w1, r) := Resolve(regs, w, c, ts[0], stack);
      if r.Resolved? { ResolveAllOwners(regs, w1, c, ts[1..], ids + [r.value], stack); }
    }
  }

  ghost predicate OwnersExist(w: World) {
    forall i :: 0 <= i < |w.built| ==> w.built[i].owner < |w.containers|
  }

  lemma {:induction false} OwnersAlwaysExist(regs: Registrations, ops: seq<Operation>)
    ensures OwnersExist(Run(regs, EMPTY_WORLD, ops))
  {
    if ops != [] {
      var before, op := Run(regs, EMPTY_WORLD, ops[..|ops| - 1]), ops[|ops| - 1];
      OwnersAlwaysExist(regs, ops[..|ops| - 1]);
      RunKeeps(regs, ops[..|ops| - 1]);
      hide Resolve, Run, CacheInv, BuiltInv;
      if op.ResolveIn? && op.container < |before.containers| {
        ResolveOwners(regs, before, op.container, op.token, []);
      }
    }
  }

  /** In every run, an instance was built from earlier instances of exactly its declared dependencies, in
      order: singletons of the root, everything else of the very container it was built for. */
  lemma WiredExactly(regs: Registrations, ops: seq<Operation>, i: InstanceId, k: nat)
    requires i < |Run(regs, EMPTY_WORLD, ops).built|
    ensures var built := Run(regs, EMPTY_WORLD, ops).built;
            && built[i].token in regs && |built[i].dependencies| == |regs[built[i].token].dependencies|
            && (k < |built[i].dependencies| ==>
                  var d := built[i].dependencies[k];
                  && d < i && built[d].token == regs[built[i].token].dependencies[k] && built[d].token in regs
                  && built[d].owner == if regs[built[d].token].lifetime == Singleton then 0 else built[i].owner)
  {
    hide Run;
    RunKeeps(regs, ops);
    var built := Run(regs, EMPTY_WORLD, ops).built;
    assert NodeInv(regs, built, i);
    if k < |built[i].dependencies| {
      assert InstanceOf(regs, built[..i], built[i].owner, regs[built[i].token].dependencies[k],
                        built[i].dependencies[k]);
    }
  }

  /** What a caller gets is an instance of the token it asked for: the root's if a singleton, else that of
      the container it asked. */
  lemma ResolvedExactly(regs: Registrations, ops: seq<Operation>, c: ContainerId, t: Token)
    requires c < |Run(regs, EMPTY_WORLD, ops).containers|
    ensures var (w, r) := Resolve(regs, Run(regs, EMPTY_WORLD, ops), c, t, []);
            r.Resolved? ==>
              && r.value < |w.built| && w.built[r.value].token == t && t in regs
              && w.built[r.value].owner == if regs[t].lifetime == Singleton then 0 else c
  {
    hide Run, Resolve;
    RunKeeps(regs, ops);
    ResolveKeeps(regs, Run(regs, EMPTY_WORLD, ops), c, t, []);
  }

  // ----- what a disposal does -----

  /** Disposing a container ends what it remembers; only the root's disposal ends the singletons. No other
      container is touched, and nothing is built. */
  lemma DisposesExactly(regs: Registrations, w: World, c: ContainerId)
    requires c < |w.containers|
    ensures var w' := Apply(regs, w, DisposeOf(c));
            && w'.built == w.built && |w'.containers| == |w.containers|
            && w'.containers[c].instances == map[] && w'.containers[c].disposables == []
            && (forall k :: 0 <= k < |w.containers| && k != c ==> w'.containers[k] == w.containers[k])
            && (c != 0 ==> w'.singletons == w.singletons)
            && (c == 0 ==> w'.singletons.instances == map[] && w'.singletons.disposables == [])
  {
  }

  /** Opening a scope adds a container that remembers nothing, and changes nothing else. */
  lemma OpensExactly(regs: Registrations, w: World)
    ensures var w' := Apply(regs, w, OpenScope);
            && w'.built == w.built && w'.singletons == w.singletons
            && |w'.containers| == |w.containers| + 1 && w'.containers[..|w.containers|] == w.containers
            && w'.containers[|w.containers|].instances == map[] && w'.containers[|w.containers|].disposables == []
  {
  }

  // ----- how long an instance lasts -----

  predicate Disposes(ops: seq<Operation>, c: ContainerId) {
    DisposeOf(c) in ops
  }

  /** Nothing remembered is forgotten. */
  ghost predicate Lasts(k: Cache, k': Cache) {
    && k'.epoch == k.epoch
    && forall t :: t in k.instances ==> t in k'.instances && k'.instances[t] == k.instances[t]
  }

  lemma StepLasts(regs: Registrations, w: World, op: Operation)
    requires Inv(regs, w)
    ensures var w' := Apply(regs, w, op);
            && w.built <= w'.built && |w.containers| <= |w'.containers|
            && (op != DisposeOf(ROOT) ==> Lasts(w.singletons, w'.singletons))
            && (forall c :: 0 <= c < |w.containers| && op != DisposeOf(c) ==> Lasts(w.containers[c], w'.containers[c]))
  {
    hide Resolve, CacheInv, BuiltInv;
    if op.ResolveIn? && op.container < |w.containers| {
      ResolveKeeps(regs, w, op.container, op.token, []);
    }
  }

  lemma {:induction false} SingletonsStay(regs: Registrations, w: World, ops: seq<Operation>)
    requires Inv(regs, w) && !Disposes(ops, ROOT)
    ensures Inv(regs, Run(regs, w, ops)) && Lasts(w.singletons, Run(regs, w, ops).singletons)
  {
    if ops != [] {
      var before, op := Run(regs, w, ops[..|ops| - 1]), ops[|ops| - 1];
      assert op in ops;
      SingletonsStay(regs, w, ops[..|ops| - 1]);
      hide Inv, Apply;
      ApplyKeeps(regs, before, op);
      StepLasts(regs, before, op);
    }
  }

  lemma {:induction false} ScopedStay(regs: Registrations, w: World, ops: seq<Operation>, c: ContainerId)
    requires Inv(regs, w) && c < |w.containers| && !Disposes(ops, c)
    ensures Inv(regs, Run(regs, w, ops)) && c < |Run(regs, w, ops).containers|
    ensures Lasts(w.containers[c], Run(regs, w, ops).containers[c])
  {
    if ops != [] {
      var before, op := Run(regs, w, ops[..|ops| - 1]), ops[|ops| - 1];
      assert op in ops;
      ScopedStay(regs, w, ops[..|ops| - 1], c);
      hide Inv, Apply;
      ApplyKeeps(regs, before, op);
      StepLasts(regs, before, op);
    }
  }

  lemma Remembered(regs: Registrations, w: World, c: ContainerId, t: Token)
    requires Inv(regs, w) && c < |w.containers| && Resolve(regs, w, c, t, []).1.Resolved?
    ensures var (w', r) := Resolve(regs, w, c, t, []);
            && t in regs
            && (regs[t].lifetime.Singleton? ==> t in w'.singletons.instances && w'.singletons.instances[t] == r.value)
            && (regs[t].lifetime.Scoped? ==>
                  c < |w'.containers| && t in w'.containers[c].instances && w'.containers[c].instances[t] == r.value)
            && (regs[t].lifetime.Transient? ==> |w.built| <= r.value == |w'.built| - 1)
  {
    hide Inv;
    if t in regs && regs[t].lifetime.Transient? {
      CreateOwners(regs, w, c, t, []);
    }
  }

  /** Whatever happens in between short of disposing the root, every container of the run, a scope opened
      later too, gets the same instance of a singleton; nothing is built to get it. */
  lemma SingletonLastsUntilRootDisposal(regs: Registrations, ops: seq<Operation>, c: ContainerId, t: Token,
                                        between: seq<Operation>, d: ContainerId)
    requires var w := Run(regs, EMPTY_WORLD, ops);
             && t in regs && regs[t].lifetime.Singleton? && c < |w.containers|
             && Resolve(regs, w, c, t, []).1.Resolved?
    requires !Disposes(between, 0)
    requires d < |Run(regs, Resolve(regs, Run(regs, EMPTY_WORLD, ops), c, t, []).0, between).containers|
    ensures var (w1, r) := Resolve(regs, Run(regs, EMPTY_WORLD, ops), c, t, []);
            Resolve(regs, Run(regs, w1, between), d, t, []) == (Run(regs, w1, between), r)
  {
    RunKeeps(regs, ops);
    var w := Run(regs, EMPTY_WORLD, ops);
    ResolveKeeps(regs, w, c, t, []);
    Remembered(regs, w, c, t);
    var w1 := Resolve(regs, w, c, t, []).0;
    SingletonsStay(regs, w1, between);
    hide Run, Inv;
  }

  /** A scope keeps getting its own instance of a scoped service until that scope is disposed. */
  lemma ScopedLastsUntilDisposal(regs: Registrations, ops: seq<Operation>, c: ContainerId, t: Token,
                                 between: seq<Operation>)
    requires var w := Run(regs, EMPTY_WORLD, ops);
             && t in regs && regs[t].lifetime.Scoped? && c < |w.containers|
             && Resolve(regs, w, c, t, []).1.Resolved?
    requires !Disposes(between, c)
    ensures var (w1, r) := Resolve(regs, Run(regs, EMPTY_WORLD, ops), c, t, []);
            c < |Run(regs, w1, between).containers| &&
            Resolve(regs, Run(regs, w1, between), c, t, []) == (Run(regs, w1, between), r)
  {
    RunKeeps(regs, ops);
    var w := Run(regs, EMPTY_WORLD, ops);
    ResolveKeeps(regs, w, c, t, []);
    Remembered(regs, w, c, t);
    var w1 := Resolve(regs, w, c, t, []).0;
    ScopedStay(regs, w1, between, c);
    hide Run, Inv;
  }

  /** Every resolution of a transient builds its own instance. */
  lemma TransientIsNew(regs: Registrations, ops: seq<Operation>, c: ContainerId, t: Token)
    requires var w := Run(regs, EMPTY_WORLD, ops);
             t in regs && regs[t].lifetime.Transient? && c < |w.containers| && Resolve(regs, w, c, t, []).1.Resolved?
    ensures var w := Run(regs, EMPTY_WORLD, ops);
            |w.built| <= Resolve(regs, w, c, t, []).1.value
  {
    RunKeeps(regs, ops);
    hide Run, Inv;
    Remembered(regs, Run(regs, EMPTY_WORLD, ops), c, t);
  }

  /** After its disposal a container builds its services anew: the root its singletons too. */
  lemma DisposalEndsInstances(regs: Registrations, ops: seq<Operation>, c: ContainerId, t: Token)
    requires var w := Run(regs, EMPTY_WORLD, ops);
             && t in regs && c < |w.containers|
             && (regs[t].lifetime.Scoped? || (regs[t].lifetime.Singleton? && c == 0))
             && Resolve(regs, Apply(regs, w, DisposeOf(c)), c, t, []).1.Resolved?
    ensures var w := Run(regs, EMPTY_WORLD, ops);
            |w.built| <= Resolve(regs, Apply(regs, w, DisposeOf(c)), c, t, []).1.value
  {
    hide Run, Create;
    var w := Run(regs, EMPTY_WORLD, ops);
    DisposesExactly(regs, w, c);
    CreateOwners(regs, Apply(regs, w, DisposeOf(c)), c, t, []);
  }

  /** In a run that never disposes the root, at most one instance of a singleton is ever built. */
  lemma OneSingletonPerRun(regs: Registrations, ops: seq<Operation>, i: nat, j: nat)
    requires !Disposes(ops, 0)
    requires var w := Run(regs, EMPTY_WORLD, ops);
             && i < |w.built| && j < |w.built| && w.built[i].token == w.built[j].token
             && w.built[i].token in regs && regs[w.built[i].token].lifetime == Singleton
    ensures i == j
  {
    RunKeeps(regs, []);
    assert Run(regs, EMPTY_WORLD, []) == EMPTY_WORLD;
    SingletonsStay(regs, EMPTY_WORLD, ops);
    SingletonBuiltOnce(regs, ops, i, j);
  }

  /** In a run that never disposes a scope, at most one instance of a scoped service is ever built for it. */
  lemma OneScopedPerRun(regs: Registrations, ops: seq<Operation>, c: ContainerId, i: nat, j: nat)
    requires !Disposes(ops, c)
    requires var w := Run(regs, EMPTY_WORLD, ops);
             && i < |w.built| && j < |w.built| && w.built[i].token == w.built[j].token
             && w.built[i].owner == w.built[j].owner == c
             && w.built[i].token in regs && regs[w.built[i].token].lifetime == Scoped
    ensures i == j
  {
    hide Run;
    OwnersAlwaysExist(regs, ops);
    SinceOpening(regs, ops, c);
    ScopedBuiltOnce(regs, ops, c, i, j);
  }

  /** Everything the container built is newer than its opening. */
  ghost predicate AllSince(w: World, c: ContainerId) {
    c < |w.containers| ==> forall i :: 0 <= i < |w.built| && w.built[i].owner == c ==> w.containers[c].epoch <= i
  }

  lemma StepSince(regs: Registrations, w: World, op: Operation, c: ContainerId)
    requires Inv(regs, w) && OwnersExist(w) && AllSince(w, c) && op != DisposeOf(c)
    ensures AllSince(Apply(regs, w, op), c)
  {
    StepLasts(regs, w, op);
    if c < |w.containers| {
      assert CacheInv(regs, w.built, w.containers[c], Scoped, c, {});
      hide Apply, Inv;
    } else {
      hide Resolve, Inv;
      if op.ResolveIn? && op.container < |w.containers| { ResolveOwners(regs, w, op.container, op.token, []); }
    }
  }

  lemma {:induction false} SinceOpening(regs: Registrations, ops: seq<Operation>, c: ContainerId)
    requires !Disposes(ops, c)
    ensures AllSince(Run(regs, EMPTY_WORLD, ops), c)
  {
    if ops != [] {
      var before, op := Run(regs, EMPTY_WORLD, ops[..|ops| - 1]), ops[|ops| - 1];
      assert op in ops;
      SinceOpening(regs, ops[..|ops| - 1], c);
      RunKeeps(regs, ops[..|ops| - 1]);
      OwnersAlwaysExist(regs, ops[..|ops| - 1]);
      hide Inv, Apply, AllSince, OwnersExist;
      StepSince(regs, before, op, c);
    }
  }

  // ----- what a disposal disposes -----

  ghost predicate Logged(regs: Registrations, w: World, log: seq<InstanceId>) {
    forall i: nat :: i < |w.built| && Past(regs, w, i) && regs[w.built[i].token].disposable ==> i in log
  }

  lemma BecomesPast(regs: Registrations, w: World, c: ContainerId, i: InstanceId)
    requires Inv(regs, w) && c < |w.containers| && !Past(regs, w, i) && Past(regs, Disposed(w, c), i)
    requires regs[w.built[i].token].disposable
    ensures i in DisposalOrder(w, c)
  {
    hide Reversed;
    ReversedMembers(w.containers[c].disposables);
    ReversedMembers(w.singletons.disposables);
    assert CacheInv(regs, w.built, w.containers[c], Scoped, c, {});
    if regs[w.built[i].token].lifetime.Scoped? {
      assert Belongs(regs, w.built, w.containers[c], Scoped, c, i);
    } else {
      assert NodeInv(regs, w.built, i);
      assert Belongs(regs, w.built, w.singletons, Singleton, ROOT, i);
    }
  }

  /** No resolution or opening makes an instance past. */
  lemma OnlyDisposalMakesPast(regs: Registrations, w: World, op: Operation, i: InstanceId)
    requires Inv(regs, w) && OwnersExist(w) && !(op.DisposeOf? && op.container < |w.containers|)
    requires Past(regs, Apply(regs, w, op), i)
    ensures Past(regs, w, i)
  {
    hide Resolve, BuiltInv;
    if op.ResolveIn? && op.container < |w.containers| {
      ResolveKeeps(regs, w, op.container, op.token, []);
      ResolveOwners(regs, w, op.container, op.token, []);
      assert CacheInv(regs, w.built, w.singletons, Singleton, ROOT, {});
      var w' := Apply(regs, w, op);
      var owner := w'.built[i].owner;
      if owner < |w.containers| {
        assert CacheInv(regs, w.built, w.containers[owner], Scoped, owner, {});
      }
    }
  }

  lemma {:induction false} EverythingPastIsLogged(regs: Registrations, ops: seq<Operation>)
    ensures Logged(regs, Run(regs, EMPTY_WORLD, ops), DisposalLog(regs, ops))
  {
    if ops != [] {
      var before, op := Run(regs, EMPTY_WORLD, ops[..|ops| - 1]), ops[|ops| - 1];
      EverythingPastIsLogged(regs, ops[..|ops| - 1]);
      RunKeeps(regs, ops[..|ops| - 1]);
      OwnersAlwaysExist(regs, ops[..|ops| - 1]);
      var w := Run(regs, EMPTY_WORLD, ops);
      assert w == Apply(regs, before, op);
      hide Run, Past, DisposalOrder, Inv, OwnersExist, Resolve;
      forall i: nat | i < |w.built| && Past(regs, w, i) && regs[w.built[i].token].disposable
        ensures i in DisposalLog(regs, ops)
      {
        if op.DisposeOf? && op.container < |before.containers| {
          if !Past(regs, before, i) { BecomesPast(regs, before, op.container, i); }
        } else {
          OnlyDisposalMakesPast(regs, before, op, i);
          SameInstance(regs, before, op, i);
        }
      }
    } else {
      assert Run(regs, EMPTY_WORLD, ops) == EMPTY_WORLD;
    }
  }

  lemma SameInstance(regs: Registrations, w: World, op: Operation, i: InstanceId)
    requires Inv(regs, w) && i < |w.built|
    ensures i < |Apply(regs, w, op).built| && Apply(regs, w, op).built[i] == w.built[i]
  {
    hide Resolve, BuiltInv, CacheInv;
    if op.ResolveIn? && op.container < |w.containers| {
      ResolveKeeps(regs, w, op.container, op.token, []);
    }
  }

  /** After any run, disposing a container disposes exactly the disposable instances that are its own,
      scoped ones it built and, for the root, every singleton, and that were not disposed before; a scope's
      in dependents-first order. */
  lemma {:induction false} DisposedExactly(regs: Registrations, ops: seq<Operation>, c: ContainerId, i: InstanceId)
    requires c < |Run(regs, EMPTY_WORLD, ops).containers|
    ensures var w := Run(regs, EMPTY_WORLD, ops);
            && (i in DisposalOrder(w, c) <==>
                  && i < |w.built| && w.built[i].token in regs && regs[w.built[i].token].disposable
                  && (|| (regs[w.built[i].token].lifetime == Scoped && w.built[i].owner == c)
                      || (regs[w.built[i].token].lifetime == Singleton && c == 0))
                  && i !in DisposalLog(regs, ops))
            && (c != 0 ==> DependentsFirst(w.built, DisposalOrder(w, c)))
  {
    RunKeeps(regs, ops);
    EverythingPastIsLogged(regs, ops);
    DisposedOnce(regs, ops);
    DisposalIsReverseDependencyOrder(regs, ops, c);
    var w := Run(regs, EMPTY_WORLD, ops);
    hide Run, Reversed, DependsOn;
    ReversedMembers(w.containers[c].disposables);
    ReversedMembers(w.singletons.disposables);
    if i in DisposalOrder(w, c) { DisposedIsPast(regs, w, c, i); }
    if i < |w.built| && w.built[i].token in regs && i !in DisposalLog(regs, ops) { assert NodeInv(regs, w.built, i); }
    assert CacheInv(regs, w.built, w.containers[c], Scoped, c, {});
    if c != 0 { assert DisposalOrder(w, c) == Reversed(w.containers[c].disposables) + []; }
  }

  // ----- what an error means -----

  /** Each error names a real fault: a token nobody registered, or a chain of dependencies that comes back
      to a token on it. */
  ghost predicate RealFault(regs: Registrations, r: Outcome<InstanceId>) {
    && (r.NoRegistration? ==> r.token !in regs)
    && (r.CircularDependency? ==>
          var n := |r.chain| - 1;
          n >= 1 && IsWalk(regs, r.chain) && r.chain[n] in r.chain[..n])
  }

  lemma {:induction false} ResolveFaults(regs: Registrations, w: World, c: ContainerId, t: Token, stack: seq<Token>)
    requires c < |w.containers| && (t in regs ==> IsWalk(regs, stack + [t]))
    ensures RealFault(regs, Resolve(regs, w, c, t, stack).1)
    decreases Unopened(regs, stack), 2, 0
  {
    if t in regs && t in stack {
      assert (stack + [t])[..|stack|] == stack;
    } else if t in regs {
      var owner := if regs[t].lifetime.Singleton? then ROOT else c;
      PushOpens(regs, stack, t);
      var w0 := w.(deepest := Max(w.deepest, |stack| + 1));
      ResolveAllFaults(regs, w0, owner, t, regs[t].dependencies, [], stack);
    }
  }

  lemma {:induction false} ResolveAllFaults(regs: Registrations, w: World, c: ContainerId, t: Token,
                                            ts: seq<Token>, ids: seq<InstanceId>, stack: seq<Token>)
    requires c < |w.containers| && t in regs && IsWalk(regs, stack + [t])
    requires forall d :: d in ts ==> d in regs[t].dependencies
    ensures var r := ResolveAll(regs, w, c, ts, ids, stack + [t]).1;
            && (r.NoRegistration? ==> RealFault(regs, NoRegistration(r.token)))
            && (r.CircularDependency? ==> RealFault(regs, CircularDependency(r.chain)))
    decreases Unopened(regs, stack + [t]), 3, |ts|
  {
    if ts != [] {
      if ts[0] in regs { WalkExtends(regs, stack, t, ts[0]); }
      ResolveFaults(regs, w, c, ts[0], stack + [t]);
      var (w1, r) := Resolve(regs, w, c, ts[0], stack + [t]);
      if r.Resolved? { ResolveAllFaults(regs, w1, c, t, ts[1..], ids + [r.value], stack); }
    }
  }

  /** With no validation at all: resolving a token fails only for a real fault. An unregistered token is
      named as such, and nothing changes. */
  lemma ErrorsAreReal(regs: Registrations, w: World, c: ContainerId, t: Token)
    requires c < |w.containers|
    ensures RealFault(regs, Resolve(regs, w, c, t, []).1)
    ensures t !in regs ==> Resolve(regs, w, c, t, []) == (w, NoRegistration(t))
  {
    forall m: nat ensures Follows(regs, [] + [t], m) {}
    ResolveFaults(regs, w, c, t, []);
  }
}
