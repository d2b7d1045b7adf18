/** What resolving and disposing guarantee over whole runs of a container. */
module ContainerTheorems {
  import opened Registry
  import opened Resolution
  import opened ResolutionProofs

  // ----- a validated registry never fails to resolve -----

  lemma RepeatCloses(regs: Registrations, stack: seq<Token>, t: Token)
    requires IsWalk(regs, stack + [t]) && t in stack
    ensures !Acyclic(regs)
  {
    var path := stack + [t];
    var i :| 0 <= i < |stack| && stack[i] == t;
    var cycle := path[i..];
    forall m: nat ensures Follows(regs, cycle, m) {
      assert Follows(regs, path, i + m);
    }
    assert IsClosedWalk(regs, cycle);
  }

  lemma WalkExtends(regs: Registrations, stack: seq<Token>, t: Token, d: Token)
    requires IsWalk(regs, stack + [t]) && Edge(regs, t, d)
    ensures IsWalk(regs, stack + [t] + [d])
  {
    forall m: nat ensures Follows(regs, stack + [t] + [d], m) {
      assert Follows(regs, stack + [t], m);
    }
  }

  /** With every dependency registered and no cycle, resolution raises neither of its errors. */
  lemma {:induction false} ResolveSucceeds(regs: Registrations, w: World, c: ContainerId, t: Token, stack: seq<Token>)
    requires Complete(regs) && Acyclic(regs)
    requires c < |w.containers| && t in regs && IsWalk(regs, stack + [t])
    ensures Resolve(regs, w, c, t, stack).1.Resolved?
    decreases Unopened(regs, stack), 2, 0
  {
    if t in stack {
      RepeatCloses(regs, stack, t);
    } else {
      PushOpens(regs, stack, t);
      var owner := if regs[t].lifetime.Singleton? then ROOT else c;
      var w0 := w.(deepest := Max(w.deepest, |stack| + 1));
      ResolveAllSucceeds(regs, w0, owner, t, regs[t].dependencies, [], stack);
    }
  }

  lemma {:induction false} ResolveAllSucceeds(regs: Registrations, w: World, c: ContainerId, t: Token,
                                              ts: seq<Token>, ids: seq<InstanceId>, stack: seq<Token>)
    requires Complete(regs) && Acyclic(regs)
    requires c < |w.containers| && t in regs && IsWalk(regs, stack + [t])
    requires forall d :: d in ts ==> d in regs[t].dependencies
    ensures ResolveAll(regs, w, c, ts, ids, stack + [t]).1.Resolved?
    decreases Unopened(regs, stack + [t]), 3, |ts|
  {
    if ts != [] {
      WalkExtends(regs, stack, t, ts[0]);
      ResolveSucceeds(regs, w, c, ts[0], stack + [t]);
      var (w1, r) := Resolve(regs, w, c, ts[0], stack + [t]);
      ResolveAllSucceeds(regs, w1, c, t, ts[1..], ids + [r.value], stack);
    }
  }

  // ----- runs -----

  datatype Operation =
    | ResolveIn(container: ContainerId, token: Token)
    | OpenScope
    | DisposeOf(container: ContainerId)

  const EMPTY_WORLD := World(Cache(map[], [], 0), [Cache(map[], [], 0)], [], 0)

  function Emptied(w: World): Cache {
    Cache(map[], [], |w.built|)
  }

  function Disposed(w: World, c: ContainerId): World
    requires c < |w.containers|
  {
    var w1 := w.(containers := w.containers[c := Emptied(w)]);
    if c == ROOT then w1.(singletons := Emptied(w)) else w1
  }

  function ScopeOpened(w: World): World {
    w.(containers := w.containers + [Emptied(w)])
  }

  /** Operations on a container that was never created cannot be expressed and change nothing. */
  function Apply(regs: Registrations, w: World, op: Operation): World {
    match op
    case ResolveIn(c, t) => if c < |w.containers| then Resolve(regs, w, c, t, []).0 else w
    case OpenScope => ScopeOpened(w)
    case DisposeOf(c) => if c < |w.containers| then Disposed(w, c) else w
  }

  function Run(regs: Registrations, w: World, ops: seq<Operation>): World
    decreases |ops|
  {
    if ops == [] then w else Apply(regs, Run(regs, w, ops[..|ops| - 1]), ops[|ops| - 1])
  }

  lemma EmptiedKeeps(regs: Registrations, w: World, lifetime: Lifetime, owner: ContainerId)
    ensures CacheInv(regs, w.built, Emptied(w), lifetime, owner, {})
  {
  }

  lemma ApplyKeeps(regs: Registrations, w: World, op: Operation)
    requires Inv(regs, w)
    ensures Inv(regs, Apply(regs, w, op))
  {
    hide CacheInv, Resolve;
    match op
    case ResolveIn(c, t) => if c < |w.containers| { ResolveKeeps(regs, w, c, t, []); }
    case OpenScope => EmptiedKeeps(regs, w, Scoped, |w.containers|);
    case DisposeOf(c) =>
      EmptiedKeeps(regs, w, Scoped, c);
      EmptiedKeeps(regs, w, Singleton, ROOT);
  }

  /** The invariant holds after every run that starts from a new root container. */
  lemma {:induction false} RunKeeps(regs: Registrations, ops: seq<Operation>)
    ensures Inv(regs, Run(regs, EMPTY_WORLD, ops))
    decreases |ops|
  {
    if ops != [] {
      RunKeeps(regs, ops[..|ops| - 1]);
      ApplyKeeps(regs, Run(regs, EMPTY_WORLD, ops[..|ops| - 1]), ops[|ops| - 1]);
    }
  }

  /** After any run, any registered token resolves in any open container of a validated registry,
      with a resolution stack no longer than the registry, to an instance of that token. */
  lemma ValidatedContainerResolves(regs: Registrations, ops: seq<Operation>, c: ContainerId, t: Token)
    requires Complete(regs) && Acyclic(regs) && t in regs
    requires c < |Run(regs, EMPTY_WORLD, ops).containers|
    ensures var (w, r) := Resolve(regs, Run(regs, EMPTY_WORLD, ops), c, t, []);
            r.Resolved? && InstanceOf(regs, w.built, c, t, r.value) && w.deepest <= |regs|
  {
    var w := Run(regs, EMPTY_WORLD, ops);
    RunKeeps(regs, ops);
    ResolveKeeps(regs, w, c, t, []);
    forall m: nat ensures Follows(regs, [] + [t], m) {}
    ResolveSucceeds(regs, w, c, t, []);
  }

  /** Between two disposals a singleton token is built at most once, whichever containers ask. */
  lemma SingletonBuiltOnce(regs: Registrations, ops: seq<Operation>, i: nat, j: nat)
    ensures var w := Run(regs, EMPTY_WORLD, ops);
            w.singletons.epoch <= i < |w.built| && w.singletons.epoch <= j < |w.built| &&
            w.built[i].token == w.built[j].token &&
            w.built[i].token in regs && regs[w.built[i].token].lifetime.Singleton? ==>
              i == j && w.built[i].owner == ROOT &&
              w.built[i].token in w.singletons.instances && w.singletons.instances[w.built[i].token] == i
  {
    var w := Run(regs, EMPTY_WORLD, ops);
    RunKeeps(regs, ops);
    if w.singletons.epoch <= i < |w.built| && w.singletons.epoch <= j < |w.built| &&
       w.built[i].token == w.built[j].token &&
       w.built[i].token in regs && regs[w.built[i].token].lifetime.Singleton?
    {
      assert NodeInv(regs, w.built, i) && NodeInv(regs, w.built, j);
      assert Belongs(regs, w.built, w.singletons, Singleton, ROOT, i);
      assert Belongs(regs, w.built, w.singletons, Singleton, ROOT, j);
    }
  }

  /** Between two disposals of a container, a scoped token is built at most once for it. */
  lemma ScopedBuiltOnce(regs: Registrations, ops: seq<Operation>, c: ContainerId, i: nat, j: nat)
    ensures var w := Run(regs, EMPTY_WORLD, ops);
            c < |w.containers| &&
            Belongs(regs, w.built, w.containers[c], Scoped, c, i) &&
            Belongs(regs, w.built, w.containers[c], Scoped, c, j) &&
            w.built[i].token == w.built[j].token ==>
              i == j && w.built[i].token in w.containers[c].instances &&
              w.containers[c].instances[w.built[i].token] == i
  {
    RunKeeps(regs, ops);
    var w := Run(regs, EMPTY_WORLD, ops);
    assert c < |w.containers| ==> CacheInv(regs, w.built, w.containers[c], Scoped, c, {});
  }

  // ----- the instance graph and disposal -----

  /** `p` leads from an instance to instances it was built from, directly or through others. */
  predicate UsesStep(built: seq<Instance>, p: seq<InstanceId>, k: nat) {
    k + 1 < |p| ==> p[k] < |built| && p[k + 1] in built[p[k]].dependencies
  }

  ghost predicate IsUsePath(built: seq<Instance>, p: seq<InstanceId>) {
    |p| >= 2 && forall k: nat :: UsesStep(built, p, k)
  }

  /** Instance `a` depends on instance `b`, directly or through instances of any lifetime. */
  ghost predicate DependsOn(built: seq<Instance>, a: InstanceId, b: InstanceId) {
    exists p :: IsUsePath(built, p) && p[0] == a && p[|p| - 1] == b
  }

  lemma {:induction false} UsePathFalls(regs: Registrations, built: seq<Instance>, p: seq<InstanceId>)
    requires BuiltInv(regs, built) && IsUsePath(built, p)
    ensures p[|p| - 1] < p[0] < |built|
    ensures built[p[0]].owner == ROOT ==> built[p[|p| - 1]].owner == ROOT
    ensures built[p[|p| - 1]].owner in {ROOT, built[p[0]].owner}
    decreases |p|
  {
    assert UsesStep(built, p, 0);
    var a := p[0];
    assert NodeInv(regs, built, a);
    var k :| 0 <= k < |built[a].dependencies| && built[a].dependencies[k] == p[1];
    assert InstanceOf(regs, built[..a], built[a].owner, regs[built[a].token].dependencies[k], p[1]);
    if |p| > 2 {
      forall m: nat ensures UsesStep(built, p[1..], m) {
        assert UsesStep(built, p, m + 1);
      }
      UsePathFalls(regs, built, p[1..]);
    }
  }

  function Reversed<T>(s: seq<T>): (r: seq<T>)
    ensures |r| == |s|
    ensures forall i :: 0 <= i < |s| ==> r[i] == s[|s| - 1 - i]
  {
    if s == [] then [] else [s[|s| - 1]] + Reversed(s[..|s| - 1])
  }

  /** The order in which disposing container `c` runs the tracked disposers. */
  function DisposalOrder(w: World, c: ContainerId): seq<InstanceId>
    requires c < |w.containers|
  {
    Reversed(w.containers[c].disposables) +
    if c == ROOT then Reversed(w.singletons.disposables) else []
  }

  /** Each instance comes before everything it depends on, and none comes twice. */
  ghost predicate DependentsFirst(built: seq<Instance>, order: seq<InstanceId>) {
    && Distinct(order)
    && forall i, j :: 0 <= i < j < |order| ==> !DependsOn(built, order[j], order[i])
  }

  lemma ReversedDependentsFirst(regs: Registrations, built: seq<Instance>, tracked: seq<InstanceId>)
    requires BuiltInv(regs, built) && Increasing(tracked)
    ensures DependentsFirst(built, Reversed(tracked))
  {
    var order := Reversed(tracked);
    forall i, j | 0 <= i < j < |order| ensures !DependsOn(built, order[j], order[i]) {
      if DependsOn(built, order[j], order[i]) {
        var p :| IsUsePath(built, p) && p[0] == order[j] && p[|p| - 1] == order[i];
        UsePathFalls(regs, built, p);
        assert false;
      }
    }
  }

  /** Within one lifetime of one container, disposal runs dependents first, each tracked
      instance exactly once and no other. */
  lemma {:induction false} DisposalIsReverseDependencyOrder(regs: Registrations, ops: seq<Operation>, c: ContainerId)
    ensures var w := Run(regs, EMPTY_WORLD, ops);
            DependentsFirst(w.built, Reversed(w.singletons.disposables)) &&
            (forall i: nat :: i in w.singletons.disposables <==>
               Belongs(regs, w.built, w.singletons, Singleton, ROOT, i) && regs[w.built[i].token].disposable)
    ensures var w := Run(regs, EMPTY_WORLD, ops);
            c < |w.containers| ==>
              DependentsFirst(w.built, Reversed(w.containers[c].disposables)) &&
              (forall i: nat :: i in w.containers[c].disposables <==>
                 Belongs(regs, w.built, w.containers[c], Scoped, c, i) && regs[w.built[i].token].disposable)
  {
    RunKeeps(regs, ops);
    var w := Run(regs, EMPTY_WORLD, ops);
    ReversedDependentsFirst(regs, w.built, w.singletons.disposables);
    if c < |w.containers| {
      assert CacheInv(regs, w.built, w.containers[c], Scoped, c, {});
      ReversedDependentsFirst(regs, w.built, w.containers[c].disposables);
    }
  }

  /** Everything a root-built instance (every singleton is one) depends on was built by the root,
      and what a scope built reaches only the root and that scope. */
  lemma CapturedByRoot(regs: Registrations, ops: seq<Operation>, a: InstanceId, b: InstanceId)
    requires var w := Run(regs, EMPTY_WORLD, ops); DependsOn(w.built, a, b)
    ensures var w := Run(regs, EMPTY_WORLD, ops);
            b < a < |w.built| && w.built[a].token in regs &&
            (regs[w.built[a].token].lifetime.Singleton? || w.built[a].owner == ROOT ==>
               w.built[b].owner == ROOT) &&
            w.built[b].owner in {ROOT, w.built[a].owner}
  {
    var w := Run(regs, EMPTY_WORLD, ops);
    RunKeeps(regs, ops);
    var p :| IsUsePath(w.built, p) && p[0] == a && p[|p| - 1] == b;
    UsePathFalls(regs, w.built, p);
    assert NodeInv(regs, w.built, a);
  }
}
