/** The depth-first cycle search that container validation runs. */
module CycleSearch {
  import opened Registry

  datatype Option<T> = None | Some(value: T)

  /** What the search knows: finished tokens in finishing order, and the open path. */
  ghost predicate SearchInv(regs: Registrations, visited: set<Token>, visiting: set<Token>,
                            path: seq<Token>, finish: seq<Token>)
  {
    && visited !! visiting
    && visited + visiting <= regs.Keys
    && Distinct(path) && (forall t :: t in path <==> t in visiting)
    && IsWalk(regs, path)
    && Topological(regs, finish) && (forall t :: t in finish <==> t in visited)
  }

  ghost predicate AllVisited(regs: Registrations, ds: seq<Token>, visited: set<Token>) {
    forall d :: d in ds && d in regs ==> d in visited
  }

  lemma OneMoreVisited(regs: Registrations, ds: seq<Token>, i: nat, visited: set<Token>, more: set<Token>)
    requires i < |ds| && AllVisited(regs, ds[..i], visited) && visited <= more
    requires ds[i] in regs ==> ds[i] in more
    ensures AllVisited(regs, ds[..i + 1], more)
  {
    assert ds[..i + 1] == ds[..i] + [ds[i]];
  }

  /** How many registrations the search has neither finished nor opened: its termination measure. */
  ghost function Unseen(regs: Registrations, visited: set<Token>, visiting: set<Token>): nat {
    |regs.Keys - visited - visiting|
  }

  lemma OpenIsOnPath(regs: Registrations, visited: set<Token>, visiting: set<Token>,
                     path: seq<Token>, finish: seq<Token>, t: Token)
    requires SearchInv(regs, visited, visiting, path, finish) && t in visiting
    ensures t in path && IsWalk(regs, path)
  {
  }

  lemma OpeningKeeps(regs: Registrations, visited: set<Token>, visiting: set<Token>,
                     path: seq<Token>, finish: seq<Token>, t: Token)
    requires SearchInv(regs, visited, visiting, path, finish)
    requires t in regs && t !in visited && t !in visiting
    requires path != [] ==> Edge(regs, path[|path| - 1], t)
    ensures SearchInv(regs, visited, visiting + {t}, path + [t], finish)
    ensures Unseen(regs, visited, visiting + {t}) < Unseen(regs, visited, visiting)
  {
    hide Topological, IsWalk, Distinct;
    ExtendWalk(regs, path, t);
    ExtendDistinct(path, t);
    assert forall x :: x in path + [t] <==> x in path || x == t;
    assert regs.Keys - visited - visiting == (regs.Keys - visited - (visiting + {t})) + {t};
  }

  lemma ExtendDistinct(path: seq<Token>, t: Token)
    requires Distinct(path) && t !in path
    ensures Distinct(path + [t])
  {
  }

  lemma ExtendWalk(regs: Registrations, path: seq<Token>, t: Token)
    requires IsWalk(regs, path) && t in regs
    requires path != [] ==> Edge(regs, path[|path| - 1], t)
    ensures IsWalk(regs, path + [t])
  {
    var open := path + [t];
    forall i: nat ensures Follows(regs, open, i) {
      assert Follows(regs, path, i);
    }
  }

  lemma ClosingKeeps(regs: Registrations, visited: set<Token>, visiting: set<Token>,
                     path: seq<Token>, finish: seq<Token>, t: Token)
    requires SearchInv(regs, visited, visiting + {t}, path + [t], finish)
    requires t !in visiting
    requires t in regs && AllVisited(regs, regs[t].dependencies, visited)
    ensures SearchInv(regs, visited + {t}, visiting, path, finish + [t])
  {
    var open := path + [t];
    assert path == open[..|path|];
    assert forall i :: 0 <= i < |path| ==> open[i] != open[|path|];
    assert forall x :: x in visiting ==> x in open && x != t;
    forall i: nat ensures Follows(regs, path, i) {
      assert Follows(regs, open, i);
    }
    var f := finish + [t];
    forall i, d | 0 <= i < |f| && Edge(regs, f[i], d) ensures d in f[..i] {
      if i < |finish| {
        assert d in finish[..i];
        assert f[..i] == finish[..i];
      } else {
        assert f[..i] == finish;
      }
    }
  }

  lemma BackEdgeCloses(regs: Registrations, path: seq<Token>, start: nat)
    requires start < |path| && IsWalk(regs, path)
    requires Edge(regs, path[|path| - 1], path[start])
    ensures IsClosedWalk(regs, path[start..] + [path[start]])
  {
    var cycle := path[start..] + [path[start]];
    forall i: nat ensures Follows(regs, cycle, i) {
      assert Follows(regs, path, start + i);
    }
  }

  lemma FewerUnseen(regs: Registrations, visited: set<Token>, more: set<Token>, visiting: set<Token>)
    requires visited <= more
    ensures Unseen(regs, more, visiting) <= Unseen(regs, visited, visiting)
  {
    var a, b := regs.Keys - more - visiting, regs.Keys - visited - visiting;
    assert b == a + (b - a) && a !! (b - a);
  }

  /** `path.findIndex`, on a path known to hold the token. */
  method FindIndex(path: seq<Token>, t: Token) returns (index: nat)
    requires t in path
    ensures index < |path| && path[index] == t && t !in path[..index]
  {
    index := 0;
    while path[index] != t
      invariant index < |path| && t in path[index..] && t !in path[..index]
      decreases |path| - index
    {
      index := index + 1;
    }
  }

  /** The closure state of the search. */
  class DependencySearch {
    const regs: Registrations
    var visited: set<Token>
    var visiting: set<Token>
    var path: seq<Token>
    ghost var finish: seq<Token>

    ghost predicate Inv()
      reads this
    {
      SearchInv(regs, visited, visiting, path, finish)
    }

    constructor (regs: Registrations)
      ensures Inv() && this.regs == regs && visited == {} && path == []
    {
      this.regs := regs;
      visited, visiting, path, finish := {}, {}, [], [];
    }

    /** Visits one registration and everything it depends on. A cycle that is reported ends the search;
        it lists the tokens along it, with the repeated one at both ends. */
    method Visit(t: Token) returns (cycle: Option<seq<Token>>)
      requires Inv() && t in regs
      requires path != [] ==> Edge(regs, path[|path| - 1], t)
      modifies this
      ensures cycle.Some? ==> IsClosedWalk(regs, cycle.value)
      ensures cycle.None? ==>
                Inv() && path == old(path) && visiting == old(visiting) &&
                old(visited) <= visited && t in visited
      decreases Unseen(regs, visited, visiting), 1
    {
      hide SearchInv, Topological, IsWalk, IsClosedWalk, Unseen, AllVisited;
      if t in visited {
        return None;
      }
      if t in visiting {
        OpenIsOnPath(regs, visited, visiting, path, finish, t);
        var startIndex := FindIndex(path, t);
        BackEdgeCloses(regs, path, startIndex);
        return Some(path[startIndex..] + [t]);
      }

      OpeningKeeps(regs, visited, visiting, path, finish, t);
      ghost var path0, visiting0 := path, visiting;
      visiting := visiting + {t};
      path := path + [t];
      cycle := VisitDependencies(t);
      if cycle.Some? {
        return;
      }

      ClosingKeeps(regs, visited, visiting0, path0, finish, t);
      path := path[..|path| - 1];
      visiting := visiting - {t};
      visited := visited + {t};
      finish := finish + [t];
      assert path == path0 && visiting == visiting0;
    }

    /** The loop over one registration's dependencies while it is open. */
    method VisitDependencies(t: Token) returns (cycle: Option<seq<Token>>)
      requires Inv() && t in regs
      requires path != [] && path[|path| - 1] == t
      modifies this
      ensures cycle.Some? ==> IsClosedWalk(regs, cycle.value)
      ensures cycle.None? ==>
                Inv() && path == old(path) && visiting == old(visiting) &&
                old(visited) <= visited && AllVisited(regs, regs[t].dependencies, visited)
      decreases Unseen(regs, visited, visiting), 2
    {
      hide SearchInv;
      var dependencies := regs[t].dependencies;
      for i := 0 to |dependencies|
        invariant Inv() && path == old(path) && visiting == old(visiting)
        invariant old(visited) <= visited
        invariant AllVisited(regs, dependencies[..i], visited)
      {
        ghost var before := visited;
        if dependencies[i] in regs {
          FewerUnseen(regs, old(visited), visited, visiting);
          cycle := Visit(dependencies[i]);
          if cycle.Some? {
            return;
          }
        }
        OneMoreVisited(regs, dependencies, i, before, visited);
      }
      assert dependencies[..|dependencies|] == dependencies;
      cycle := None;
    }
  }
}
