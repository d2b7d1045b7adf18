/** Leased locks in a shared keyed store, and the critical section that takes a list of them. */
module LeasedLocks {

  type Milliseconds = n: nat | n >= 1 witness 1

  const FLOW_LOCK_TTL_MS: Milliseconds := 15000

  /** Random tokens are told apart by who drew them and how many that owner had drawn before. */
  datatype Token = Token(owner: nat, serial: nat)

  datatype Lease = Lease(token: Token, expiresAt: nat)

  type Table = map<string, Lease>

  predicate Live(t: Table, key: string, now: nat) {
    key in t && now < t[key].expiresAt
  }

  predicate Holds(t: Table, key: string, token: Token, now: nat) {
    Live(t, key, now) && t[key].token == token
  }

  /** SET with NX and PX. */
  function Acquire(t: Table, key: string, token: Token, ttl: Milliseconds, now: nat): (Table, bool) {
    if Live(t, key, now) then (t, false) else (t[key := Lease(token, now + ttl)], true)
  }

  /** Compare and delete. */
  function Release(t: Table, key: string, token: Token, now: nat): (Table, bool) {
    if Holds(t, key, token, now) then (t - {key}, true) else (t, false)
  }

  /** Compare and re-expire; a lifetime that is not positive deletes the key. */
  function Extend(t: Table, key: string, token: Token, ttl: int, now: nat): (Table, bool) {
    if !Holds(t, key, token, now) then (t, false)
    else if ttl > 0 then (t[key := Lease(token, now + ttl)], true)
    else (t - {key}, true)
  }

  // ----- what decides each command -----

  /** A key is taken exactly when it has no lease that ends later: never set, released, or lapsed. The
      lease lasts `ttl` from now. */
  lemma TakenExactly(t: Table, key: string, token: Token, ttl: Milliseconds, now: nat)
    ensures var (t', ok) := Acquire(t, key, token, ttl, now);
            && (ok <==> (key in t ==> t[key].expiresAt <= now))
            && t' == if ok then t[key := Lease(token, now + ttl)] else t
  {
  }

  /** A key is given back exactly by the token of its unlapsed lease, and no other key changes. */
  lemma ReleasedExactly(t: Table, key: string, token: Token, now: nat)
    ensures var (t', ok) := Release(t, key, token, now);
            && (ok <==> key in t && now < t[key].expiresAt && t[key].token == token)
            && t' == if ok then t - {key} else t
  {
  }

  /** A lease is renewed exactly by its own token before it ends, to last `ttl` from now; one that would
      last no time is given back. */
  lemma ExtendedExactly(t: Table, key: string, token: Token, ttl: int, now: nat)
    ensures var (t', ok) := Extend(t, key, token, ttl, now);
            && (ok <==> key in t && now < t[key].expiresAt && t[key].token == token)
            && t' == if !ok then t else if ttl <= 0 then t - {key} else t[key := Lease(token, now + ttl)]
  {
  }

  // ----- what everybody else may do between two steps of a critical section -----

  datatype Op =
    | Take(key: string, token: Token, ttl: Milliseconds)
    | Drop(key: string, token: Token)
    | Prolong(key: string, token: Token, lifetime: int)
    | Pass(ms: nat)

  datatype Store = Store(table: Table, now: nat)

  function Do(s: Store, op: Op): Store {
    match op
    case Take(key, token, ttl) => s.(table := Acquire(s.table, key, token, ttl, s.now).0)
    case Drop(key, token) => s.(table := Release(s.table, key, token, s.now).0)
    case Prolong(key, token, ttl) => s.(table := Extend(s.table, key, token, ttl, s.now).0)
    case Pass(ms) => s.(now := s.now + ms)
  }

  function DoAll(s: Store, ops: seq<Op>): Store {
    if ops == [] then s else Do(DoAll(s, ops[..|ops| - 1]), ops[|ops| - 1])
  }

  /** After any operations of anyone, the next to ask gets the key exactly when no lease on it ends later. */
  lemma TakeableExactly(s: Store, ops: seq<Op>, key: string, token: Token, ttl: Milliseconds)
    ensures var before, after := DoAll(s, ops), DoAll(s, ops + [Take(key, token, ttl)]);
            && after.now == before.now
            && after.table == if key in before.table && before.now < before.table[key].expiresAt then before.table
                              else before.table[key := Lease(token, before.now + ttl)]
  {
    hide DoAll;
    DoAllPush(s, ops, Take(key, token, ttl));
  }

  lemma DoAllPush(s: Store, ops: seq<Op>, op: Op)
    ensures DoAll(s, ops + [op]) == Do(DoAll(s, ops), op)
  {
    hide Do;
    assert (ops + [op])[..|ops|] == ops;
  }

  /** A lease is given back or renewed exactly by its own token before it ends, and time passes as said. */
  lemma DoneExactly(s: Store, key: string, token: Token, lifetime: int, ms: nat)
    ensures var holds := key in s.table && s.now < s.table[key].expiresAt && s.table[key].token == token;
            && Do(s, Drop(key, token)) == (if holds then s.(table := s.table - {key}) else s)
            && Do(s, Prolong(key, token, lifetime)) ==
                 (if !holds then s
                  else if lifetime <= 0 then s.(table := s.table - {key})
                  else s.(table := s.table[key := Lease(token, s.now + lifetime)]))
            && Do(s, Pass(ms)) == s.(now := s.now + ms)
  {
  }

  /** Time passes and nothing else: a lease nobody renews is takeable from its end on. */
  lemma LapsedIsTakeable(s: Store, key: string, token: Token, ttl: Milliseconds, ms: nat)
    requires key in s.table
    ensures var after := DoAll(s, [Pass(ms), Take(key, token, ttl)]);
            after.table == if s.now + ms < s.table[key].expiresAt then s.table
                           else s.table[key := Lease(token, s.now + ms + ttl)]
  {
    DoAllPush(s, [], Pass(ms));
    assert [] + [Pass(ms)] == [Pass(ms)] && [Pass(ms)] + [Take(key, token, ttl)] == [Pass(ms), Take(key, token, ttl)];
    TakeableExactly(s, [Pass(ms)], key, token, ttl);
  }

  predicate By(op: Op, owner: nat) {
    !op.Pass? && op.token.owner == owner
  }

  ghost predicate NoneBy(ops: seq<Op>, owner: nat) {
    forall i :: 0 <= i < |ops| ==> !By(ops[i], owner)
  }

  /** Nobody can release, extend or take over a lease of `owner` that has not lapsed, and nobody can
      create one. */
  lemma {:induction false} OthersCannotTouch(s: Store, ops: seq<Op>, owner: nat, key: string)
    requires NoneBy(ops, owner)
    ensures var s' := DoAll(s, ops);
            && s.now <= s'.now
            && (key in s'.table && s'.table[key].token.owner == owner ==>
                  key in s.table && s'.table[key] == s.table[key])
            && (key in s.table && s.table[key].token.owner == owner && s'.now < s.table[key].expiresAt ==>
                  key in s'.table && s'.table[key] == s.table[key])
  {
    if ops != [] {
      OthersCannotTouch(s, ops[..|ops| - 1], owner, key);
    }
  }

  // ----- the critical section -----

  /** The keys a critical section takes: those before the first empty one. */
  function Named(keys: seq<string>): (r: seq<string>)
    ensures r <= keys
    ensures "" !in r
    ensures |r| < |keys| ==> keys[|r|] == ""
  {
    if keys == [] || keys[0] == "" then [] else [keys[0]] + Named(keys[1..])
  }

  datatype Outcome = Returned | Raised | Conflict

  datatype Act = Acquired(key: string, token: Token) | Refused(key: string) | Body | Released(key: string, token: Token)

  /** What a critical section that gets `taken` of its keys does, one nested call inside another. */
  function Section(keys: seq<string>, owner: nat, serial: nat, taken: nat): (acts: seq<Act>)
    requires taken <= |Named(keys)|
    ensures |acts| == 2 * taken + 1
  {
    if taken == 0 then
      if Named(keys) == [] then [Body] else [Refused(keys[0])]
    else
      [Acquired(keys[0], Token(owner, serial))] + Section(keys[1..], owner, serial + 1, taken - 1) +
      [Released(keys[0], Token(owner, serial))]
  }

  lemma {:induction false} SectionMiddle(keys: seq<string>, owner: nat, serial: nat, taken: nat)
    requires taken <= |Named(keys)|
    ensures Section(keys, owner, serial, taken)[taken] == if taken == |Named(keys)| then Body else Refused(keys[taken])
  {
    if taken > 0 {
      SectionMiddle(keys[1..], owner, serial + 1, taken - 1);
    }
  }

  /** The section's i-th act takes its i-th key, and its i-th act from the end gives it back. */
  predicate TakesAndReturns(acts: seq<Act>, i: nat, key: string, token: Token) {
    i < |acts| && acts[i] == Acquired(key, token) && acts[|acts| - 1 - i] == Released(key, token)
  }

  lemma SectionStarts(keys: seq<string>, owner: nat, serial: nat)
    ensures keys == [] || keys[0] == "" ==> |Named(keys)| == 0 && Section(keys, owner, serial, 0) == [Body]
    ensures keys != [] && keys[0] != "" ==>
              |Named(keys)| == |Named(keys[1..])| + 1 && Section(keys, owner, serial, 0) == [Refused(keys[0])]
  {
  }

  lemma SectionWraps(keys: seq<string>, owner: nat, serial: nat, taken: nat)
    requires 0 < taken <= |Named(keys)|
    ensures taken - 1 <= |Named(keys[1..])|
    ensures Section(keys, owner, serial, taken) ==
              [Acquired(keys[0], Token(owner, serial))] + Section(keys[1..], owner, serial + 1, taken - 1) +
              [Released(keys[0], Token(owner, serial))]
  {
  }

  lemma {:induction false} SectionEnds(keys: seq<string>, owner: nat, serial: nat, taken: nat, i: nat)
    requires i < taken <= |Named(keys)|
    ensures TakesAndReturns(Section(keys, owner, serial, taken), i, keys[i], Token(owner, serial + i))
  {
    hide Section, Named;
    SectionWraps(keys, owner, serial, taken);
    if i > 0 {
      SectionEnds(keys[1..], owner, serial + 1, taken - 1, i - 1);
    }
  }

  /** Flattened: the keys in order, then the body if all were got, then releases in reverse order. */
  lemma {:induction false} SectionShape(keys: seq<string>, owner: nat, serial: nat, taken: nat)
    requires taken <= |Named(keys)|
    ensures var acts := Section(keys, owner, serial, taken);
            && |acts| == 2 * taken + 1
            && acts[taken] == (if taken == |Named(keys)| then Body else Refused(keys[taken]))
            && (forall i: nat :: i < taken ==> TakesAndReturns(acts, i, keys[i], Token(owner, serial + i)))
  {
    hide Section, Named, TakesAndReturns;
    SectionMiddle(keys, owner, serial, taken);
    forall i: nat | i < taken
      ensures TakesAndReturns(Section(keys, owner, serial, taken), i, keys[i], Token(owner, serial + i))
    {
      SectionEnds(keys, owner, serial, taken, i);
    }
  }

  /** The store as the call finds it when it turns to its k-th key, having got those before. */
  function Reached(s: Store, owner: nat, serial: nat, keys: seq<string>, others: nat -> seq<Op>, k: nat): Store
    requires k <= |keys|
    decreases k
  {
    var found := DoAll(s, others(2 * |keys|));
    if k == 0 then found
    else
      var next := Do(found, Take(keys[0], Token(owner, serial), FLOW_LOCK_TTL_MS));
      Reached(next, owner, serial + 1, keys[1..], others, k - 1)
  }

  /** Somebody's lease stands on the k-th key when the call turns to it. */
  predicate Blocked(s: Store, owner: nat, serial: nat, keys: seq<string>, others: nat -> seq<Op>, k: nat)
    requires k < |keys|
  {
    var found := Reached(s, owner, serial, keys, others, k);
    keys[k] in found.table && found.now < found.table[keys[k]].expiresAt
  }

  lemma BlockedLater(s: Store, owner: nat, serial: nat, keys: seq<string>, others: nat -> seq<Op>, k: nat)
    requires 0 < k < |keys|
    ensures Blocked(s, owner, serial, keys, others, k) <==>
              Blocked(Do(DoAll(s, others(2 * |keys|)), Take(keys[0], Token(owner, serial), FLOW_LOCK_TTL_MS)),
                      owner, serial + 1, keys[1..], others, k - 1)
  {
    hide DoAll, Do;
  }

  lemma BlockedFirst(s: Store, owner: nat, serial: nat, keys: seq<string>, others: nat -> seq<Op>)
    requires keys != []
    ensures Blocked(s, owner, serial, keys, others, 0) <==>
              Live(DoAll(s, others(2 * |keys|)).table, keys[0], DoAll(s, others(2 * |keys|)).now)
  {
    hide DoAll;
  }

  class LockStore {
    var table: Table
    var now: nat
    var acts: seq<Act>

    constructor ()
      ensures table == map[] && now == 0 && acts == []
    {
      table, now, acts := map[], 0, [];
    }

    method AcquireLock(key: string, ttlInMs: Milliseconds, token: Token) returns (acquired: bool)
      modifies this`table
      ensures (table, acquired) == Acquire(old(table), key, token, ttlInMs, now)
    {
      if key in table && now < table[key].expiresAt {
        return false;
      }
      table := table[key := Lease(token, now + ttlInMs)];
      acquired := true;
    }

    method ReleaseLock(key: string, token: Token) returns (released: bool)
      modifies this`table
      ensures (table, released) == Release(old(table), key, token, now)
    {
      released := key in table && now < table[key].expiresAt && table[key].token == token;
      if released {
        table := table - {key};
      }
    }

    method ExtendLock(key: string, token: Token, ttlInMs: int) returns (extended: bool)
      modifies this`table
      ensures (table, extended) == Extend(old(table), key, token, ttlInMs, now)
    {
      extended := key in table && now < table[key].expiresAt && table[key].token == token;
      if extended {
        if ttlInMs > 0 {
          table := table[key := Lease(token, now + ttlInMs)];
        } else {
          table := table - {key};
        }
      }
    }

    /** What others do while a call awaits its turn. */
    method Await(ops: seq<Op>)
      modifies this`table, this`now
      ensures Store(table, now) == DoAll(old(Store(table, now)), ops)
    {
      var i := 0;
      while i < |ops|
        invariant 0 <= i <= |ops|
        invariant Store(table, now) == DoAll(old(Store(table, now)), ops[..i])
      {
        assert ops[..i + 1][..i] == ops[..i];
        match ops[i] {
          case Take(key, token, ttl) => var _ := AcquireLock(key, ttl, token);
          case Drop(key, token) => var _ := ReleaseLock(key, token);
          case Prolong(key, token, ttl) => var _ := ExtendLock(key, token, ttl);
          case Pass(ms) => now := now + ms;
        }
        i := i + 1;
      }
      assert ops[..|ops|] == ops;
    }

    /** Runs `body` holding every named key; it gets every key before the first that someone's lease
        stands on when its turn comes, and no more. `others` is what everybody else does, before each step of
        this call and during the body. Whatever the outcome, no lock of this call is left behind. */
    method WithFlowLocks(owner: nat, serial: nat, keys: seq<string>, others: nat -> seq<Op>, body: Outcome)
      returns (outcome: Outcome, taken: nat)
      requires forall n :: NoneBy(others(n), owner)
      modifies this
      ensures taken <= |Named(keys)|
      ensures forall k: nat :: k < taken ==> !Blocked(old(Store(table, now)), owner, serial, keys, others, k)
      ensures taken < |Named(keys)| ==> Blocked(old(Store(table, now)), owner, serial, keys, others, taken)
      ensures acts == old(acts) + Section(keys, owner, serial, taken)
      ensures outcome == if taken == |Named(keys)| then body else Conflict
      ensures forall k :: Live(table, k, now) && table[k].token.owner == owner ==>
                k in old(table) && table[k] == old(table)[k]
      decreases |keys|
    {
      hide DoAll, NoneBy, Named, Section, Blocked;
      ghost var start := Store(table, now);
      Await(others(2 * |keys|));
      OthersKeep(old(Store(table, now)), others(2 * |keys|), owner);
      SectionStarts(keys, owner, serial);
      if keys == [] || keys[0] == "" {
        acts := acts + [Body];
        return body, 0;
      }
      BlockedFirst(start, owner, serial, keys, others);
      var token := Token(owner, serial);
      var lock := AcquireLock(keys[0], FLOW_LOCK_TTL_MS, token);
      if !lock {
        acts := acts + [Refused(keys[0])];
        return Conflict, 0;
      }
      acts := acts + [Acquired(keys[0], token)];
      assert Store(table, now) == Do(DoAll(start, others(2 * |keys|)), Take(keys[0], token, FLOW_LOCK_TTL_MS));
      forall k: nat | 0 < k < |keys|
        ensures Blocked(start, owner, serial, keys, others, k) <==>
                  Blocked(Store(table, now), owner, serial + 1, keys[1..], others, k - 1)
      {
        BlockedLater(start, owner, serial, keys, others, k);
      }
      outcome, taken := WithFlowLocks(owner, serial + 1, keys[1..], others, body);
      taken := taken + 1;
      SectionWraps(keys, owner, serial, taken);
      ghost var inner := Store(table, now);
      Await(others(2 * |keys| + 1));
      OthersKeep(inner, others(2 * |keys| + 1), owner);
      var _ := ReleaseLock(keys[0], token);
      acts := acts + [Released(keys[0], token)];
    }
  }

  lemma OthersKeep(s: Store, ops: seq<Op>, owner: nat)
    requires NoneBy(ops, owner)
    ensures s.now <= DoAll(s, ops).now
    ensures forall k :: k in DoAll(s, ops).table && DoAll(s, ops).table[k].token.owner == owner ==>
              k in s.table && DoAll(s, ops).table[k] == s.table[k]
  {
    OthersCannotTouch(s, ops, owner, "");
    forall k ensures k in DoAll(s, ops).table && DoAll(s, ops).table[k].token.owner == owner ==>
                       k in s.table && DoAll(s, ops).table[k] == s.table[k]
    {
      OthersCannotTouch(s, ops, owner, k);
    }
  }
}
