/** The container itself: registration, validation, resolution, scopes and disposal in place. */
module Container {
  import opened Registry
  import opened CycleSearch
  import opened Resolution
  import opened ContainerTheorems

  lemma MissingReport(regs: Registrations, order: seq<Token>)
    requires forall t :: t in order <==> t in regs
    ensures forall m :: m in MissingOf(regs, order) <==>
              m.0 in regs && m.1 in regs[m.0].dependencies && m.1 !in regs
    ensures MissingOf(regs, order) == [] <==> Complete(regs)
  {
    MissingOfExact(regs, order);
    if MissingOf(regs, order) != [] {
      assert MissingOf(regs, order)[0] in MissingOf(regs, order);
    }
    forall t, d | t in regs && d in regs[t].dependencies && d !in regs ensures MissingOf(regs, order) != [] {
      var m := (t, d);
      assert m in MissingOf(regs, order);
    }
  }

  lemma ClosedWalkRefutes(regs: Registrations, cycle: seq<Token>)
    requires IsClosedWalk(regs, cycle)
    ensures !Acyclic(regs)
  {
  }

  /** When the search has finished every registration, there is no cycle. */
  lemma AllFinishedIsAcyclic(regs: Registrations, visited: set<Token>, visiting: set<Token>,
                             path: seq<Token>, finish: seq<Token>)
    requires SearchInv(regs, visited, visiting, path, finish)
    requires forall t :: t in regs ==> t in visited
    ensures Acyclic(regs)
  {
    TopologicalIsAcyclic(regs, finish);
  }

  /** A root container together with the scopes opened from it; the scopes share the root's
      registrations and singletons and each has its own scoped instances. */
  class ServiceContainer {
    var registrations: Registrations
    var order: seq<Token>
    var singletons: Cache
    var containers: seq<Cache>
    var built: seq<Instance>
    var deepest: nat

    ghost predicate Valid()
      reads this
    {
      && |containers| > 0
      && Distinct(order) && (forall t :: t in order <==> t in registrations)
    }

    function World(): World
      reads this
    {
      Resolution.World(singletons, containers, built, deepest)
    }

    constructor ()
      ensures Valid() && registrations == map[] && World() == EMPTY_WORLD
    {
      registrations, order := map[], [];
      singletons, containers := Cache(map[], [], 0), [Cache(map[], [], 0)];
      built, deepest := [], 0;
    }

    /** Only the root accepts registrations; a later registration of a token replaces the earlier. */
    method Register(c: ContainerId, registration: Registration) returns (accepted: bool)
      requires Valid()
      modifies this`registrations, this`order
      ensures Valid() && accepted == (c == ROOT)
      ensures registrations ==
              if accepted then old(registrations)[registration.token := registration] else old(registrations)
    {
      if c != ROOT {
        return false;
      }
      if registration.token !in registrations {
        order := order + [registration.token];
      }
      registrations := registrations[registration.token := registration];
      return true;
    }

    method CollectMissing() returns (missing: seq<(Token, Token)>)
      requires Valid()
      ensures missing == MissingOf(registrations, order)
    {
      missing := [];
      for i := 0 to |order|
        invariant missing == MissingOf(registrations, order[..i])
      {
        var dependencies := registrations[order[i]].dependencies;
        ghost var before := missing;
        for k := 0 to |dependencies|
          invariant missing == before + MissingIn(registrations, order[i], dependencies[..k])
        {
          assert dependencies[..k + 1][..k] == dependencies[..k];
          if dependencies[k] !in registrations {
            missing := missing + [(order[i], dependencies[k])];
          }
        }
        assert dependencies[..|dependencies|] == dependencies;
        assert order[..i + 1][..i] == order[..i];
      }
      assert order[..|order|] == order;
    }

    /** Returns normally exactly on complete, acyclic registrations; otherwise it reports every
        missing dependency, or one dependency cycle that is a closed walk of the graph. */
    method Validate() returns (result: Validation)
      requires Valid()
      ensures result.Valid? <==> Complete(registrations) && Acyclic(registrations)
      ensures result.MissingDependencies? <==> !Complete(registrations)
      ensures result.MissingDependencies? ==>
                forall m :: m in result.missing <==>
                  m.0 in registrations && m.1 in registrations[m.0].dependencies && m.1 !in registrations
      ensures result.DependencyCycle? ==> IsClosedWalk(registrations, result.cycle)
    {
      hide SearchInv, Complete, Acyclic, IsClosedWalk;
      var missing := CollectMissing();
      MissingReport(registrations, order);
      if |missing| > 0 {
        return MissingDependencies(missing);
      }

      var search := new DependencySearch(registrations);
      for i := 0 to |order|
        invariant search.regs == registrations && search.Inv() && search.path == []
        invariant forall k :: 0 <= k < i ==> order[k] in search.visited
      {
        var cycle := search.Visit(order[i]);
        if cycle.Some? {
          ClosedWalkRefutes(registrations, cycle.value);
          return DependencyCycle(cycle.value);
        }
      }
      AllFinishedIsAcyclic(registrations, search.visited, search.visiting, search.path, search.finish);
      return Validation.Valid;
    }

    method Resolve(c: ContainerId, t: Token) returns (r: Outcome<InstanceId>)
      requires c < |containers|
      modifies this`singletons, this`containers, this`built, this`deepest
      ensures (World(), r) == Resolution.Resolve(registrations, old(World()), c, t, [])
    {
      r := ResolveRegistration(c, t, []);
    }

    method ResolveRegistration(c: ContainerId, t: Token, stack: seq<Token>) returns (r: Outcome<InstanceId>)
      requires c < |containers|
      modifies this`singletons, this`containers, this`built, this`deepest
      ensures (World(), r) == Resolution.Resolve(registrations, old(World()), c, t, stack)
      decreases Unopened(registrations, stack), 4, 0
    {
      if t !in registrations {
        return NoRegistration(t);
      }
      if t in stack {
        return CircularDependency(stack + [t]);
      }
      if registrations[t].lifetime == Singleton {
        r := ResolveSingleton(c, t, stack);
      } else if registrations[t].lifetime == Scoped {
        r := ResolveScoped(c, t, stack);
      } else {
        r := CreateInstance(c, t, stack);
      }
    }

    /** Singletons are built by the root, whichever container asks, and remembered there. */
    method ResolveSingleton(c: ContainerId, t: Token, stack: seq<Token>) returns (r: Outcome<InstanceId>)
      requires c < |containers| && t in registrations && t !in stack
      requires registrations[t].lifetime.Singleton?
      modifies this`singletons, this`containers, this`built, this`deepest
      ensures (World(), r) == Resolution.Resolve(registrations, old(World()), c, t, stack)
      decreases Unopened(registrations, stack), 3, 0
    {
      if t in singletons.instances {
        return Resolved(singletons.instances[t]);
      }
      r := CreateInstance(ROOT, t, stack);
      if r.Resolved? {
        singletons := singletons.(instances := singletons.instances[t := r.value]);
        if registrations[t].disposable {
          singletons := singletons.(disposables := singletons.disposables + [r.value]);
        }
      }
    }

    method ResolveScoped(c: ContainerId, t: Token, stack: seq<Token>) returns (r: Outcome<InstanceId>)
      requires c < |containers| && t in registrations && t !in stack
      requires registrations[t].lifetime.Scoped?
      modifies this`singletons, this`containers, this`built, this`deepest
      ensures (World(), r) == Resolution.Resolve(registrations, old(World()), c, t, stack)
      decreases Unopened(registrations, stack), 3, 0
    {
      if t in containers[c].instances {
        return Resolved(containers[c].instances[t]);
      }
      r := CreateInstance(c, t, stack);
      if r.Resolved? {
        var own := containers[c].(instances := containers[c].instances[t := r.value]);
        if registrations[t].disposable {
          own := own.(disposables := own.disposables + [r.value]);
        }
        containers := containers[c := own];
      }
    }

    /** Runs the factory of `t` with a context bound to container `c`. */
    method CreateInstance(c: ContainerId, t: Token, stack: seq<Token>) returns (r: Outcome<InstanceId>)
      requires c < |containers| && t in registrations && t !in stack
      modifies this`singletons, this`containers, this`built, this`deepest
      ensures |containers| == old(|containers|)
      ensures (World(), r) == Create(registrations, old(World()), c, t, stack)
      decreases Unopened(registrations, stack), 2, 0
    {
      PushOpens(registrations, stack, t);
      var dependencies := registrations[t].dependencies;
      var ids := [];
      deepest := Max(deepest, |stack| + 1);
      ghost var start := World();
      for i := 0 to |dependencies|
        invariant |containers| == old(|containers|)
        invariant ResolveAll(registrations, start, c, dependencies, [], stack + [t]) ==
                  ResolveAll(registrations, World(), c, dependencies[i..], ids, stack + [t])
      {
        ghost var before := World();
        var d := ResolveRegistration(c, dependencies[i], stack + [t]);
        assert dependencies[i..][1..] == dependencies[i + 1..];
        match d
        case Resolved(id) => ids := ids + [id];
        case NoRegistration(u) => return NoRegistration(u);
        case CircularDependency(chain) => return CircularDependency(chain);
      }
      r := Resolved(|built|);
      built := built + [Instance(t, c, ids)];
    }

    method CreateScope() returns (c: ContainerId)
      requires Valid()
      modifies this`containers
      ensures Valid() && World() == ScopeOpened(old(World())) && c == old(|containers|) < |containers|
    {
      c := |containers|;
      containers := containers + [Cache(map[], [], |built|)];
    }

    /** Runs the disposers of `c` newest first, then, on the root, those of the singletons. */
    method Dispose(c: ContainerId) returns (disposed: seq<InstanceId>)
      requires Valid() && c < |containers|
      modifies this`singletons, this`containers
      ensures Valid() && World() == Disposed(old(World()), c)
      ensures disposed == DisposalOrder(old(World()), c)
    {
      disposed := [];
      var scoped := Reversed(containers[c].disposables);
      for i := 0 to |scoped|
        invariant disposed == scoped[..i]
      {
        disposed := disposed + [scoped[i]];
      }
      containers := containers[c := Cache(map[], [], |built|)];
      if c != ROOT {
        return;
      }
      var tracked := Reversed(singletons.disposables);
      for i := 0 to |tracked|
        invariant disposed == scoped + tracked[..i]
      {
        disposed := disposed + [tracked[i]];
      }
      singletons := Cache(map[], [], |built|);
    }
  }
}
