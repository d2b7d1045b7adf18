/** Registrations of the dependency-injection container and the graph they span. */
module Registry {

  /** The identity of a service token; its description plays no part. */
  type Token = nat

  datatype Lifetime = Singleton | Scoped | Transient

  datatype Registration = Registration(
    token: Token,
    lifetime: Lifetime,
    dependencies: seq<Token>,
    disposable: bool)

  type Registrations = map<Token, Registration>

  /** Outcome of validation; the two failures are the two errors thrown. */
  datatype Validation =
    | Valid
    | MissingDependencies(missing: seq<(Token, Token)>)
    | DependencyCycle(cycle: seq<Token>)

  /** Every declared dependency is registered. */
  ghost predicate Complete(regs: Registrations) {
    forall t, d :: t in regs && d in regs[t].dependencies ==> d in regs
  }

  predicate Edge(regs: Registrations, a: Token, b: Token) {
    a in regs && b in regs && b in regs[a].dependencies
  }

  /** The i-th and the next token of `p` are joined by an edge. */
  predicate Follows(regs: Registrations, p: seq<Token>, i: nat) {
    i + 1 < |p| ==> Edge(regs, p[i], p[i + 1])
  }

  ghost predicate IsWalk(regs: Registrations, p: seq<Token>) {
    forall i: nat :: Follows(regs, p, i)
  }

  ghost predicate IsClosedWalk(regs: Registrations, p: seq<Token>) {
    |p| >= 2 && IsWalk(regs, p) && p[0] == p[|p| - 1]
  }

  ghost predicate Acyclic(regs: Registrations) {
    forall p: seq<Token> :: !IsClosedWalk(regs, p)
  }

  ghost predicate Distinct<T>(s: seq<T>) {
    forall i, j :: 0 <= i < j < |s| ==> s[i] != s[j]
  }

  /** `finish` lists each token after everything it depends on. */
  ghost predicate Topological(regs: Registrations, finish: seq<Token>) {
    && Distinct(finish)
    && forall i, d :: 0 <= i < |finish| && Edge(regs, finish[i], d) ==> d in finish[..i]
  }

  /** Along a walk the position in a topological listing strictly falls. */
  lemma {:induction false} WalkDescends(regs: Registrations, finish: seq<Token>, p: seq<Token>, i: nat)
    returns (j: nat)
    requires Topological(regs, finish) && IsWalk(regs, p)
    requires |p| >= 2 && i < |finish| && finish[i] == p[0]
    ensures j < i && finish[j] == p[|p| - 1]
    decreases |p|
  {
    assert Follows(regs, p, 0);
    var k :| 0 <= k < i && finish[..i][k] == p[1];
    if |p| == 2 {
      j := k;
    } else {
      var q := p[1..];
      forall m: nat ensures Follows(regs, q, m) {
        assert Follows(regs, p, m + 1);
      }
      j := WalkDescends(regs, finish, q, k);
    }
  }

  /** A registry whose tokens can all be listed topologically has no closed walk. */
  lemma TopologicalIsAcyclic(regs: Registrations, finish: seq<Token>)
    requires Topological(regs, finish)
    requires forall t :: t in regs ==> t in finish
    ensures Acyclic(regs)
  {
    forall p: seq<Token> ensures !IsClosedWalk(regs, p) {
      if IsClosedWalk(regs, p) {
        assert Follows(regs, p, 0);
        var i :| 0 <= i < |finish| && finish[i] == p[0];
        var j := WalkDescends(regs, finish, p, i);
        assert false;
      }
    }
  }

  /** The missing-dependency report, in registration order. */
  function MissingOf(regs: Registrations, order: seq<Token>): (missing: seq<(Token, Token)>)
    requires forall t :: t in order ==> t in regs
  {
    if order == [] then []
    else MissingOf(regs, order[..|order| - 1]) +
         MissingIn(regs, order[|order| - 1], regs[order[|order| - 1]].dependencies)
  }

  function MissingIn(regs: Registrations, t: Token, ds: seq<Token>): (missing: seq<(Token, Token)>) {
    if ds == [] then []
    else MissingIn(regs, t, ds[..|ds| - 1]) +
         (if ds[|ds| - 1] in regs then [] else [(t, ds[|ds| - 1])])
  }

  lemma {:induction false} MissingInExact(regs: Registrations, t: Token, ds: seq<Token>)
    ensures forall m :: m in MissingIn(regs, t, ds) <==> m.0 == t && m.1 in ds && m.1 !in regs
  {
    if ds != [] {
      MissingInExact(regs, t, ds[..|ds| - 1]);
      assert ds == ds[..|ds| - 1] + [ds[|ds| - 1]];
    }
  }

  /** The report holds exactly the declared dependencies nobody registered. */
  lemma {:induction false} MissingOfExact(regs: Registrations, order: seq<Token>)
    requires forall t :: t in order ==> t in regs
    ensures forall m :: m in MissingOf(regs, order) <==>
              m.0 in order && m.1 in regs[m.0].dependencies && m.1 !in regs
  {
    if order != [] {
      var last := order[|order| - 1];
      MissingOfExact(regs, order[..|order| - 1]);
      MissingInExact(regs, last, regs[last].dependencies);
      assert order == order[..|order| - 1] + [last];
    }
  }
}
