/** Memoised resolution over three lifetimes, as a function on the state of a root and its scopes. */
module Resolution {
  import opened Registry

  type InstanceId = nat

  /** Containers are numbered; number 0 is the root. */
  type ContainerId = nat

  const ROOT: ContainerId := 0

  /** One instance a factory returned: for which token, in which container, from which instances. */
  datatype Instance = Instance(token: Token, owner: ContainerId, dependencies: seq<InstanceId>)

  /** An instance map with its disposables; `epoch` is the history mark of its last disposal. */
  datatype Cache = Cache(instances: map<Token, InstanceId>, disposables: seq<InstanceId>, epoch: nat)

  /** `built` is the history of all instances, `deepest` the longest resolution stack so far. */
  datatype World = World(
    singletons: Cache,
    containers: seq<Cache>,
    built: seq<Instance>,
    deepest: nat)

  datatype Outcome<+T> =
    | Resolved(value: T)
    | NoRegistration(token: Token)
    | CircularDependency(chain: seq<Token>)

  function Elements<T>(s: seq<T>): set<T> {
    set x | x in s
  }

  function Unopened(regs: Registrations, stack: seq<Token>): nat {
    |regs.Keys - Elements(stack)|
  }

  lemma PushOpens(regs: Registrations, stack: seq<Token>, t: Token)
    requires t in regs && t !in stack
    ensures Unopened(regs, stack + [t]) < Unopened(regs, stack)
  {
    var after := regs.Keys - Elements(stack + [t]);
    assert regs.Keys - Elements(stack) == after + {t};
  }

  function Max(a: nat, b: nat): nat {
    if a < b then b else a
  }

  function Resolve(regs: Registrations, w: World, c: ContainerId, t: Token, stack: seq<Token>)
    : (r: (World, Outcome<InstanceId>))
    requires c < |w.containers|
    ensures |r.0.containers| == |w.containers|
    decreases Unopened(regs, stack), 2, 0
  {
    if t !in regs then (w, NoRegistration(t))
    else if t in stack then (w, CircularDependency(stack + [t]))
    else match regs[t].lifetime
      case Singleton =>
        if t in w.singletons.instances then (w, Resolved(w.singletons.instances[t]))
        else
          var (w1, r) := Create(regs, w, ROOT, t, stack);
          (if r.Resolved? then KeepSingleton(regs, w1, t, r.value) else w1, r)
      case Scoped =>
        if t in w.containers[c].instances then (w, Resolved(w.containers[c].instances[t]))
        else
          var (w1, r) := Create(regs, w, c, t, stack);
          (if r.Resolved? then KeepScoped(regs, w1, c, t, r.value) else w1, r)
      case Transient => Create(regs, w, c, t, stack)
  }

  /** Runs the factory of `t`: it resolves the declared dependencies in order through `c`. */
  function Create(regs: Registrations, w: World, c: ContainerId, t: Token, stack: seq<Token>)
    : (r: (World, Outcome<InstanceId>))
    requires c < |w.containers| && t in regs && t !in stack
    ensures |r.0.containers| == |w.containers|
    decreases Unopened(regs, stack), 1, 0
  {
    PushOpens(regs, stack, t);
    var w0 := w.(deepest := Max(w.deepest, |stack| + 1));
    var (w1, r) := ResolveAll(regs, w0, c, regs[t].dependencies, [], stack + [t]);
    match r
    case Resolved(ids) => (w1.(built := w1.built + [Instance(t, c, ids)]), Resolved(|w1.built| as InstanceId))
    case NoRegistration(u) => (w1, NoRegistration(u))
    case CircularDependency(chain) => (w1, CircularDependency(chain))
  }

  function ResolveAll(regs: Registrations, w: World, c: ContainerId, ts: seq<Token>,
                      ids: seq<InstanceId>, stack: seq<Token>)
    : (r: (World, Outcome<seq<InstanceId>>))
    requires c < |w.containers|
    ensures |r.0.containers| == |w.containers|
    decreases Unopened(regs, stack), 3, |ts|
  {
    if ts == [] then (w, Resolved(ids))
    else
      var (w1, r) := Resolve(regs, w, c, ts[0], stack);
      match r
      case Resolved(id) => ResolveAll(regs, w1, c, ts[1..], ids + [id], stack)
      case NoRegistration(u) => (w1, NoRegistration(u))
      case CircularDependency(chain) => (w1, CircularDependency(chain))
  }

  function Remember(regs: Registrations, k: Cache, t: Token, id: InstanceId): Cache
    requires t in regs
  {
    k.(instances := k.instances[t := id],
       disposables := if regs[t].disposable then k.disposables + [id] else k.disposables)
  }

  function KeepSingleton(regs: Registrations, w: World, t: Token, id: InstanceId): World
    requires t in regs
  {
    w.(singletons := Remember(regs, w.singletons, t, id))
  }

  function KeepScoped(regs: Registrations, w: World, c: ContainerId, t: Token, id: InstanceId): World
    requires t in regs && c < |w.containers|
  {
    w.(containers := w.containers[c := Remember(regs, w.containers[c], t, id)])
  }

  // ----- what every step keeps -----

  /** Instance `i` was built after the cache was last emptied, and is of the kind it holds. */
  predicate Belongs(regs: Registrations, built: seq<Instance>, k: Cache, lifetime: Lifetime,
                    owner: ContainerId, i: InstanceId)
  {
    && k.epoch <= i < |built| && built[i].owner == owner
    && built[i].token in regs && regs[built[i].token].lifetime == lifetime
  }

  ghost predicate Increasing(s: seq<nat>) {
    forall i, j :: 0 <= i < j < |s| ==> s[i] < s[j]
  }

  /** The cache holds exactly the instances of its kind, one per token, apart from `pending`. */
  ghost predicate CacheInv(regs: Registrations, built: seq<Instance>, k: Cache, lifetime: Lifetime,
                           owner: ContainerId, pending: set<InstanceId>)
  {
    && k.epoch <= |built|
    && (forall t :: t in k.instances ==>
          Belongs(regs, built, k, lifetime, owner, k.instances[t]) && built[k.instances[t]].token == t)
    && (forall i: nat :: Belongs(regs, built, k, lifetime, owner, i) && i !in pending ==>
          built[i].token in k.instances && k.instances[built[i].token] == i)
    && Increasing(k.disposables)
    && (forall i: nat :: i in k.disposables <==>
          Belongs(regs, built, k, lifetime, owner, i) && i !in pending && regs[built[i].token].disposable)
  }

  /** `ids` are instances of the tokens `ts`: the singletons built by the root, the others by `c`. */
  ghost predicate InstancesOf(regs: Registrations, built: seq<Instance>, c: ContainerId, ts: seq<Token>,
                              ids: seq<InstanceId>)
  {
    && |ids| == |ts|
    && forall k :: 0 <= k < |ids| ==> InstanceOf(regs, built, c, ts[k], ids[k])
  }

  predicate InstanceOf(regs: Registrations, built: seq<Instance>, c: ContainerId, t: Token, id: InstanceId) {
    && id < |built| && built[id].token == t && t in regs
    && built[id].owner == if regs[t].lifetime.Singleton? then ROOT else c
  }

  /** Each instance was built from earlier instances of exactly its declared dependencies. */
  ghost predicate BuiltInv(regs: Registrations, built: seq<Instance>) {
    forall i :: 0 <= i < |built| ==> NodeInv(regs, built, i)
  }

  ghost predicate NodeInv(regs: Registrations, built: seq<Instance>, i: InstanceId)
    requires i < |built|
  {
    && built[i].token in regs
    && InstancesOf(regs, built[..i], built[i].owner, regs[built[i].token].dependencies, built[i].dependencies)
    && (regs[built[i].token].lifetime.Singleton? ==> built[i].owner == ROOT)
  }

  ghost predicate InvExcept(regs: Registrations, w: World, pending: set<InstanceId>) {
    && |w.containers| > 0
    && BuiltInv(regs, w.built)
    && CacheInv(regs, w.built, w.singletons, Singleton, ROOT, pending)
    && (forall c :: 0 <= c < |w.containers| ==>
          CacheInv(regs, w.built, w.containers[c], Scoped, c, pending))
    && w.deepest <= |regs|
  }

  ghost predicate Inv(regs: Registrations, w: World) {
    InvExcept(regs, w, {})
  }

  /** Nothing remembered is forgotten, and no token that is still being built gets remembered. */
  ghost predicate CacheGrows(k: Cache, k': Cache, stack: seq<Token>) {
    && k'.epoch == k.epoch
    && (forall t :: t in k.instances ==> t in k'.instances && k'.instances[t] == k.instances[t])
    && (forall t :: t in stack && t in k'.instances ==> t in k.instances)
  }

  ghost predicate Grows(w: World, w': World, stack: seq<Token>) {
    && w.built <= w'.built
    && |w'.containers| == |w.containers|
    && CacheGrows(w.singletons, w'.singletons, stack)
    && forall c :: 0 <= c < |w.containers| ==> CacheGrows(w.containers[c], w'.containers[c], stack)
  }

  lemma GrowsReflexive(w: World, stack: seq<Token>)
    ensures Grows(w, w, stack)
  {
  }

  lemma GrowsWeaker(w: World, w': World, stack: seq<Token>, t: Token)
    requires Grows(w, w', stack + [t])
    ensures Grows(w, w', stack)
  {
    assert forall u :: u in stack ==> u in stack + [t];
  }

  lemma GrowsTransitive(w0: World, w1: World, w2: World, stack: seq<Token>, longer: seq<Token>)
    requires Grows(w0, w1, stack) && Grows(w1, w2, longer) && stack <= longer
    ensures Grows(w0, w2, stack)
  {
    assert forall t :: t in stack ==> t in longer;
  }

  ghost predicate GoodStack(regs: Registrations, stack: seq<Token>) {
    Distinct(stack) && forall t :: t in stack ==> t in regs
  }

  lemma {:induction false} StackFits(regs: Registrations, stack: seq<Token>)
    requires GoodStack(regs, stack)
    ensures |Elements(stack)| == |stack| && |stack| <= |regs|
  {
    CountDistinct(stack);
    assert Elements(stack) <= regs.Keys;
    FewerElements(Elements(stack), regs.Keys);
  }

  lemma {:induction false} CountDistinct<T>(s: seq<T>)
    requires Distinct(s)
    ensures |Elements(s)| == |s|
  {
    if s != [] {
      var init := s[..|s| - 1];
      CountDistinct(init);
      assert Elements(s) == Elements(init) + {s[|s| - 1]};
      assert s[|s| - 1] !in Elements(init);
    }
  }

  lemma FewerElements<T>(a: set<T>, b: set<T>)
    requires a <= b
    ensures |a| <= |b|
  {
    assert b == a + (b - a);
  }
}
