/** The order in which disposing the root runs all of its disposers, and disposal over whole runs. */
module RootDisposal {
  import opened Registry
  import opened Resolution
  import opened ResolutionProofs
  import opened ContainerTheorems

  /** No instance of `xs` depends on one of `ys`. */
  ghost predicate NoneUses(built: seq<Instance>, xs: seq<InstanceId>, ys: seq<InstanceId>) {
    forall x, y :: x in xs && y in ys ==> !DependsOn(built, x, y)
  }

  lemma {:induction false} ReversedMembers<T>(s: seq<T>)
    ensures forall x :: x in Reversed(s) <==> x in s
  {
    if s != [] {
      ReversedMembers(s[..|s| - 1]);
      assert s == s[..|s| - 1] + [s[|s| - 1]];
    }
  }

  lemma TrackedApart(regs: Registrations, built: seq<Instance>, scoped: Cache, singletons: Cache)
    requires CacheInv(regs, built, scoped, Scoped, ROOT, {}) && CacheInv(regs, built, singletons, Singleton, ROOT, {})
    ensures forall i: nat :: i in scoped.disposables ==> i !in singletons.disposables
  {
  }

  /** Disposing the root takes the root's scoped services before any singleton, so what is left to
      decide is whether a tracked singleton depends on a tracked scoped one. */
  lemma {:induction false} RootDisposalOrderSplits(regs: Registrations, ops: seq<Operation>)
    ensures var w := Run(regs, EMPTY_WORLD, ops);
            |w.containers| > 0 &&
            (DependentsFirst(w.built, DisposalOrder(w, ROOT)) <==>
             NoneUses(w.built, w.singletons.disposables, w.containers[ROOT].disposables))
  {
    hide Run, NoneUses, DependentsFirst, Reversed;
    RunKeeps(regs, ops);
    var w := Run(regs, EMPTY_WORLD, ops);
    var first, second := w.containers[ROOT].disposables, w.singletons.disposables;
    assert CacheInv(regs, w.built, w.containers[ROOT], Scoped, ROOT, {});
    TrackedApart(regs, w.built, w.containers[ROOT], w.singletons);
    ReversedDependentsFirst(regs, w.built, first);
    ReversedDependentsFirst(regs, w.built, second);
    ReversedMembers(first);
    ReversedMembers(second);
    JoinedOrders(w.built, Reversed(first), Reversed(second));
    SameMembersUse(w.built, Reversed(second), second, Reversed(first), first);
  }

  lemma SameMembersUse(built: seq<Instance>, xs: seq<InstanceId>, xs': seq<InstanceId>, ys: seq<InstanceId>,
                       ys': seq<InstanceId>)
    requires (forall x :: x in xs <==> x in xs') && forall y :: y in ys <==> y in ys'
    ensures NoneUses(built, xs, ys) <==> NoneUses(built, xs', ys')
  {
  }

  lemma JoinedOrders(built: seq<Instance>, a: seq<InstanceId>, b: seq<InstanceId>)
    requires DependentsFirst(built, a) && DependentsFirst(built, b) && forall x :: x in a ==> x !in b
    ensures DependentsFirst(built, a + b) <==> NoneUses(built, b, a)
  {
    hide DependsOn;
    var s := a + b;
    if DependentsFirst(built, s) {
      forall x, y | x in b && y in a ensures !DependsOn(built, x, y) {
        var i :| 0 <= i < |a| && a[i] == y;
        var j :| 0 <= j < |b| && b[j] == x;
        assert s[i] == y && s[|a| + j] == x;
      }
    }
    if NoneUses(built, b, a) {
      forall i, j | 0 <= i < j < |s| ensures s[i] != s[j] && !DependsOn(built, s[j], s[i]) {
        if i < |a| <= j {
          assert s[i] in a && s[j] in b;
        } else if |a| <= i {
          assert s[i] == b[i - |a|] && s[j] == b[j - |a|];
        }
      }
    }
  }

  // ----- when the root's disposal order is right, from the registrations -----

  /** The walk leads from a disposable singleton to a disposable scoped service. */
  predicate Captures(regs: Registrations, p: seq<Token>) {
    && |p| >= 2 && p[0] in regs && p[|p| - 1] in regs
    && regs[p[0]].lifetime.Singleton? && regs[p[0]].disposable
    && regs[p[|p| - 1]].lifetime.Scoped? && regs[p[|p| - 1]].disposable
  }

  ghost predicate CapturesScoped(regs: Registrations) {
    exists p :: IsWalk(regs, p) && Captures(regs, p)
  }

  function TokenAt(built: seq<Instance>, i: InstanceId): Token {
    if i < |built| then built[i].token else 0
  }

  function TokensOf(built: seq<Instance>, p: seq<InstanceId>): seq<Token> {
    seq(|p|, k requires 0 <= k < |p| => TokenAt(built, p[k]))
  }

  lemma UseIsEdge(regs: Registrations, built: seq<Instance>, p: seq<InstanceId>, k: nat)
    requires BuiltInv(regs, built) && UsesStep(built, p, k) && k + 1 < |p|
    ensures p[k + 1] < |built| && Edge(regs, built[p[k]].token, built[p[k + 1]].token)
  {
    var a := p[k];
    assert NodeInv(regs, built, a);
    var m :| 0 <= m < |built[a].dependencies| && built[a].dependencies[m] == p[k + 1];
    assert InstanceOf(regs, built[..a], built[a].owner, regs[built[a].token].dependencies[m], p[k + 1]);
    assert NodeInv(regs, built, p[k + 1]);
    assert regs[built[a].token].dependencies[m] in regs[built[a].token].dependencies;
  }

  /** What instances use, their tokens depend on. */
  lemma UsePathIsWalk(regs: Registrations, built: seq<Instance>, p: seq<InstanceId>)
    requires BuiltInv(regs, built) && IsUsePath(built, p)
    ensures IsWalk(regs, TokensOf(built, p))
  {
    forall k: nat ensures Follows(regs, TokensOf(built, p), k) {
      if k + 1 < |p| {
        assert UsesStep(built, p, k);
        UseIsEdge(regs, built, p, k);
      }
    }
  }

  /** And an instance uses one of every token its own token leads to. */
  lemma {:induction false} WalkIsUsePath(regs: Registrations, built: seq<Instance>, p: seq<Token>, a: InstanceId)
    returns (q: seq<InstanceId>)
    requires BuiltInv(regs, built) && IsWalk(regs, p) && |p| >= 2
    requires a < |built| && built[a].token == p[0]
    ensures IsUsePath(built, q) && q[0] == a
    ensures q[|q| - 1] < |built| && built[q[|q| - 1]].token == p[|p| - 1]
    decreases |p|
  {
    assert Follows(regs, p, 0);
    assert NodeInv(regs, built, a);
    var m :| 0 <= m < |regs[p[0]].dependencies| && regs[p[0]].dependencies[m] == p[1];
    var b := built[a].dependencies[m];
    assert InstanceOf(regs, built[..a], built[a].owner, p[1], b);
    if |p| == 2 {
      q := [a, b];
      forall k: nat ensures UsesStep(built, q, k) {}
    } else {
      forall k: nat ensures Follows(regs, p[1..], k) {
        assert Follows(regs, p, k + 1);
      }
      var rest := WalkIsUsePath(regs, built, p[1..], b);
      q := [a] + rest;
      forall k: nat ensures UsesStep(built, q, k) {
        if k > 0 { assert UsesStep(built, rest, k - 1); }
      }
    }
  }

  /** After this run the root's disposal order is wrong. */
  ghost predicate DisposesOutOfOrder(regs: Registrations, ops: seq<Operation>) {
    var w := Run(regs, EMPTY_WORLD, ops);
    |w.containers| > 0 && !DependentsFirst(w.built, DisposalOrder(w, ROOT))
  }

  /** This half needs no validation. */
  lemma OutOfOrderCaptures(regs: Registrations, ops: seq<Operation>)
    requires DisposesOutOfOrder(regs, ops)
    ensures CapturesScoped(regs)
  {
    RootDisposalOrderSplits(regs, ops);
    RunKeeps(regs, ops);
    hide Run, DependentsFirst, DisposalOrder;
    var w := Run(regs, EMPTY_WORLD, ops);
    var x, y :| x in w.singletons.disposables && y in w.containers[ROOT].disposables && DependsOn(w.built, x, y);
    assert CacheInv(regs, w.built, w.containers[ROOT], Scoped, ROOT, {});
    var p :| IsUsePath(w.built, p) && p[0] == x && p[|p| - 1] == y;
    UsePathIsWalk(regs, w.built, p);
    assert Captures(regs, TokensOf(w.built, p));
  }

  /** Resolving the singleton in a new root is enough. */
  lemma CaptureIsOutOfOrder(regs: Registrations, p: seq<Token>)
    requires Complete(regs) && Acyclic(regs) && IsWalk(regs, p) && Captures(regs, p)
    ensures DisposesOutOfOrder(regs, [ResolveIn(ROOT, p[0])])
  {
    hide Complete, Acyclic, Resolve, DependentsFirst;
    var ops := [ResolveIn(ROOT, p[0])];
    assert ops[..0] == [] && Run(regs, EMPTY_WORLD, ops[..0]) == EMPTY_WORLD;
    var (w, r) := Resolve(regs, EMPTY_WORLD, ROOT, p[0], []);
    assert Run(regs, EMPTY_WORLD, ops) == w;
    RunKeeps(regs, []);
    ResolveKeeps(regs, EMPTY_WORLD, ROOT, p[0], []);
    forall m: nat ensures Follows(regs, [] + [p[0]], m) {}
    ResolveSucceeds(regs, EMPTY_WORLD, ROOT, p[0], []);
    var q := WalkIsUsePath(regs, w.built, p, r.value);
    UsePathFalls(regs, w.built, q);
    hide Run;
    CapturedIsTracked(regs, w, r.value, q[|q| - 1]);
    assert DependsOn(w.built, r.value, q[|q| - 1]);
    RootDisposalOrderSplits(regs, ops);
  }

  lemma CapturedIsTracked(regs: Registrations, w: World, a: InstanceId, b: InstanceId)
    requires Inv(regs, w) && w.singletons.epoch == 0 && w.containers[ROOT].epoch == 0
    requires a < |w.built| && b < |w.built| && w.built[a].token in regs && w.built[b].token in regs
    requires w.built[a].owner == w.built[b].owner == ROOT
    requires regs[w.built[a].token].lifetime.Singleton? && regs[w.built[a].token].disposable
    requires regs[w.built[b].token].lifetime.Scoped? && regs[w.built[b].token].disposable
    ensures a in w.singletons.disposables && b in w.containers[ROOT].disposables
  {
    assert CacheInv(regs, w.built, w.containers[ROOT], Scoped, ROOT, {});
    assert Belongs(regs, w.built, w.singletons, Singleton, ROOT, a);
    assert Belongs(regs, w.built, w.containers[ROOT], Scoped, ROOT, b);
  }

  /** For a validated registry, some run ends with a root disposal that is not dependents-first if and
      only if a walk of the dependency graph leads from a disposable singleton to a disposable scoped
      service. */
  lemma {:induction false} RootDisposalOrderExact(regs: Registrations)
    requires Complete(regs) && Acyclic(regs)
    ensures (exists ops :: DisposesOutOfOrder(regs, ops)) <==> CapturesScoped(regs)
  {
    hide Complete, Acyclic, DisposesOutOfOrder, IsWalk;
    if exists ops :: DisposesOutOfOrder(regs, ops) {
      var ops :| DisposesOutOfOrder(regs, ops);
      OutOfOrderCaptures(regs, ops);
    }
    if CapturesScoped(regs) {
      var p :| IsWalk(regs, p) && Captures(regs, p);
      CaptureIsOutOfOrder(regs, p);
      var ops := [ResolveIn(ROOT, p[0])];
      assert DisposesOutOfOrder(regs, ops);
    }
  }

  // ----- each instance is disposed once -----

  /** Everything a run disposes, in the order it does. */
  function DisposalLog(regs: Registrations, ops: seq<Operation>): seq<InstanceId> {
    if ops == [] then []
    else
      var before, op := Run(regs, EMPTY_WORLD, ops[..|ops| - 1]), ops[|ops| - 1];
      DisposalLog(regs, ops[..|ops| - 1]) +
      if op.DisposeOf? && op.container < |before.containers| then DisposalOrder(before, op.container) else []
  }

  /** A disposed instance is older than the last emptying of the cache of its kind. */
  ghost predicate Past(regs: Registrations, w: World, i: InstanceId) {
    && i < |w.built| && w.built[i].token in regs
    && (regs[w.built[i].token].lifetime.Singleton? ==> i < w.singletons.epoch)
    && (regs[w.built[i].token].lifetime.Scoped? ==>
          w.built[i].owner < |w.containers| && i < w.containers[w.built[i].owner].epoch)
    && !regs[w.built[i].token].lifetime.Transient?
  }

  lemma StaysPast(regs: Registrations, w: World, op: Operation, i: InstanceId)
    requires Inv(regs, w) && Past(regs, w, i)
    ensures Past(regs, Apply(regs, w, op), i)
  {
    hide CacheInv, Resolve, BuiltInv;
    if op.ResolveIn? && op.container < |w.containers| {
      ResolveKeeps(regs, w, op.container, op.token, []);
    }
  }

  lemma DisposedIsPast(regs: Registrations, w: World, c: ContainerId, i: InstanceId)
    requires Inv(regs, w) && c < |w.containers| && i in DisposalOrder(w, c)
    ensures !Past(regs, w, i) && Past(regs, Disposed(w, c), i)
  {
    hide Reversed;
    ReversedMembers(w.containers[c].disposables);
    ReversedMembers(w.singletons.disposables);
    assert CacheInv(regs, w.built, w.containers[c], Scoped, c, {});
    assert if i in w.containers[c].disposables then Belongs(regs, w.built, w.containers[c], Scoped, c, i)
           else c == ROOT && Belongs(regs, w.built, w.singletons, Singleton, ROOT, i);
  }

  lemma DisposalOrderDistinct(regs: Registrations, w: World, c: ContainerId)
    requires Inv(regs, w) && c < |w.containers|
    ensures Distinct(DisposalOrder(w, c))
  {
    hide Reversed, DependsOn;
    var own, single := w.containers[c].disposables, w.singletons.disposables;
    assert CacheInv(regs, w.built, w.containers[c], Scoped, c, {});
    ReversedDependentsFirst(regs, w.built, own);
    ReversedDependentsFirst(regs, w.built, single);
    if c == ROOT {
      TrackedApart(regs, w.built, w.containers[ROOT], w.singletons);
      ReversedMembers(own);
      ReversedMembers(single);
      JoinDistinct(Reversed(own), Reversed(single));
    }
  }

  lemma JoinDistinct(a: seq<InstanceId>, b: seq<InstanceId>)
    requires Distinct(a) && Distinct(b) && forall x :: x in a ==> x !in b
    ensures Distinct(a + b)
  {
    var s := a + b;
    forall i, j | 0 <= i < j < |s| ensures s[i] != s[j] {
      if i < |a| <= j {
        assert s[i] in a && s[j] in b;
      } else if |a| <= i {
        assert s[i] == b[i - |a|] && s[j] == b[j - |a|];
      }
    }
  }

  /** Over a whole run, with any number of disposals of any containers, no instance is disposed twice. */
  lemma {:induction false} DisposedOnce(regs: Registrations, ops: seq<Operation>)
    ensures Distinct(DisposalLog(regs, ops))
    ensures forall i :: i in DisposalLog(regs, ops) ==> Past(regs, Run(regs, EMPTY_WORLD, ops), i)
  {
    if ops != [] {
      hide Past, DisposalOrder, Disposed, Distinct;
      var before, op := Run(regs, EMPTY_WORLD, ops[..|ops| - 1]), ops[|ops| - 1];
      var log := DisposalLog(regs, ops[..|ops| - 1]);
      DisposedOnce(regs, ops[..|ops| - 1]);
      RunKeeps(regs, ops[..|ops| - 1]);
      forall i | i in log ensures Past(regs, Apply(regs, before, op), i) {
        StaysPast(regs, before, op, i);
      }
      if op.DisposeOf? && op.container < |before.containers| {
        forall i | i in DisposalOrder(before, op.container)
          ensures !Past(regs, before, i) && Past(regs, Disposed(before, op.container), i)
        {
          DisposedIsPast(regs, before, op.container, i);
        }
        DisposalOrderDistinct(regs, before, op.container);
        JoinDistinct(log, DisposalOrder(before, op.container));
      } else {
        assert log + [] == log;
      }
    }
  }

  // ----- a registry that shows it -----

  /** A disposable singleton (1) that uses a disposable scoped service (0). */
  const CAPTURE: Registrations :=
    map[0 := Registration(0, Scoped, [], true), 1 := Registration(1, Singleton, [0], true)]

  const CAPTURED_SCOPED: World :=
    World(Cache(map[], [], 0), [Cache(map[0 := 0], [0], 0)], [Instance(0, ROOT, [])], 2)

  lemma CaptureResolvesScoped()
    ensures Resolve(CAPTURE, EMPTY_WORLD.(deepest := 1), ROOT, 0, [1]) == (CAPTURED_SCOPED, Resolved(0))
  {
    var w1 := EMPTY_WORLD.(deepest := 1);
    var w2 := World(w1.singletons, w1.containers, [Instance(0, ROOT, [])], 2);
    assert ResolveAll(CAPTURE, w1.(deepest := 2), ROOT, [], [], [1] + [0]) == (w1.(deepest := 2), Resolved([]));
    assert Create(CAPTURE, w1, ROOT, 0, [1]).0 == w2;
    assert Remember(CAPTURE, w2.containers[ROOT], 0, 0) == Cache(map[0 := 0], [0], 0);
    assert KeepScoped(CAPTURE, w2, ROOT, 0, 0).containers == CAPTURED_SCOPED.containers;
    assert Create(CAPTURE, w1, ROOT, 0, [1]).1 == Resolved(0);
  }

  lemma CaptureRun()
    ensures var w := Run(CAPTURE, EMPTY_WORLD, [ResolveIn(ROOT, 1)]);
            w.built == [Instance(0, ROOT, []), Instance(1, ROOT, [0])] &&
            |w.containers| == 1 && w.containers[ROOT].disposables == [0] && w.singletons.disposables == [1]
  {
    CaptureResolvesScoped();
    var ops := [ResolveIn(ROOT, 1)];
    assert ops[..0] == [] && Run(CAPTURE, EMPTY_WORLD, ops[..0]) == EMPTY_WORLD;
    assert [] + [1] == [1] && [0][1..] == [] && [] + [0] == [0];
    assert ResolveAll(CAPTURE, CAPTURED_SCOPED, ROOT, [], [0], [1]) == (CAPTURED_SCOPED, Resolved([0]));
    assert ResolveAll(CAPTURE, EMPTY_WORLD.(deepest := 1), ROOT, [0], [], [1]) == (CAPTURED_SCOPED, Resolved([0]));
  }

  /** On that registry, which passes validation, the singleton's scoped service goes first. */
  lemma RootDisposalOrderCanFail()
    ensures Complete(CAPTURE) && Acyclic(CAPTURE)
    ensures var w := Run(CAPTURE, EMPTY_WORLD, [ResolveIn(ROOT, 1)]);
            |w.containers| > 0 && !DependentsFirst(w.built, DisposalOrder(w, ROOT))
  {
    assert Topological(CAPTURE, [0, 1]) by {
      assert [0, 1][..1] == [0];
    }
    TopologicalIsAcyclic(CAPTURE, [0, 1]);
    CaptureRun();
    var w := Run(CAPTURE, EMPTY_WORLD, [ResolveIn(ROOT, 1)]);
    var p := [1, 0];
    assert IsUsePath(w.built, p) && p[0] == 1 && p[|p| - 1] == 0;
    assert DependsOn(w.built, 1, 0);
    var order := DisposalOrder(w, ROOT);
    assert order == [0, 1];
    assert order[0] == 0 && order[1] == 1;
  }
}
