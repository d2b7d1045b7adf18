/** The conversion lease on a booking request: its pair of timestamps is the token that fences a
    release. Runs mix reservations, releases by their holders, and every other repository operation. */
module ConversionLease {
  import opened Bookings
  import T = BookingTheorems

  /** A reservation that was granted; `releasedAt` records when its holder gave it back. */
  datatype Grant = Grant(id: string, ownerId: string, reservation: Reservation, releasedAt: Option<int>)

  datatype World = World(tables: Tables, now: int, grants: seq<Grant>)

  /** `GiveBack(k)` is the release by the holder of the k-th grant, made at most once. */
  datatype Event =
    | Reserve(id: string, ownerId: string, expiresAt: int)
    | GiveBack(k: nat)
    | Other(op: T.Op)
    | Wait(ms: nat)

  function Apply(w: World, e: Event): World {
    match e
    case Reserve(id, ownerId, expiresAt) =>
      var (t, r) := ReserveForConversion(w.tables, id, ownerId, expiresAt, w.now);
      w.(tables := t,
         grants := if r.Granted? then w.grants + [Grant(id, ownerId, r.reservation, None)] else w.grants)
    case GiveBack(k) =>
      if k < |w.grants| && w.grants[k].releasedAt.None? then
        var g := w.grants[k];
        w.(tables := ReleaseConversion(w.tables, g.id, g.ownerId, g.reservation),
           grants := w.grants[k := g.(releasedAt := Some(w.now))])
      else w
    case Other(op) =>
      if op.DoReserve? || op.DoRelease? then w else w.(tables := T.Apply(w.tables, T.Step(op, w.now)))
    case Wait(ms) => w.(now := w.now + ms)
  }

  function Run(start: Tables, now: int, events: seq<Event>): World {
    if events == [] then World(start, now, [])
    else Apply(Run(start, now, events[..|events| - 1]), events[|events| - 1])
  }

  // ----- the invariant -----

  predicate Ended(g: Grant, time: int) {
    g.reservation.expiresAt <= time || (g.releasedAt.Some? && g.releasedAt.value <= time)
  }

  /** The request of a grant is still paid, and carries the grant's reservation for as long as the
      grant has neither lapsed nor been given back. */
  ghost predicate GrantInv(w: World, g: Grant) {
    && g.id in w.tables.requests
    && w.tables.requests[g.id].status == Paid && w.tables.requests[g.id].convertedAt == None
    && w.tables.requests[g.id].ownerId == g.ownerId
    && g.reservation.reservedAt <= w.now
    && (g.releasedAt.Some? ==> g.releasedAt.value <= w.now)
    && (Ended(g, w.now) || HasReservation(w.tables.requests[g.id], g.reservation))
  }

  ghost predicate Inv(w: World) {
    && (forall k :: 0 <= k < |w.grants| ==> GrantInv(w, w.grants[k]))
    && (forall i, j :: 0 <= i < j < |w.grants| && w.grants[i].id == w.grants[j].id ==>
          Ended(w.grants[i], w.grants[j].reservation.reservedAt))
  }

  lemma ReserveKeeps(w: World, id: string, ownerId: string, expiresAt: int)
    requires Inv(w)
    ensures Inv(Apply(w, Reserve(id, ownerId, expiresAt)))
  {
    var w' := Apply(w, Reserve(id, ownerId, expiresAt));
    if w'.grants != w.grants {
      var n := |w.grants|;
      forall k | 0 <= k <= n
        ensures GrantInv(w', w'.grants[k])
        ensures k < n && w'.grants[k].id == id ==> Ended(w'.grants[k], w.now)
      {
        if k < n { assert GrantInv(w, w.grants[k]); }
      }
    }
  }

  /** At most one grant on a request is live, so giving back another one leaves it alone. */
  lemma GiveBackKeepsLive(w: World, k: nat, i: nat)
    requires Inv(w) && k < |w.grants| && i < |w.grants| && i != k && w.grants[k].releasedAt.None?
    ensures GrantInv(Apply(w, GiveBack(k)), w.grants[i])
  {
    var g, h := w.grants[k], w.grants[i];
    assert GrantInv(w, g) && GrantInv(w, h);
    if g.id == h.id {
      if k < i { assert Ended(g, h.reservation.reservedAt); } else { assert Ended(h, g.reservation.reservedAt); }
    }
  }

  lemma GiveBackKeeps(w: World, k: nat)
    requires Inv(w)
    ensures Inv(Apply(w, GiveBack(k)))
  {
    if k < |w.grants| && w.grants[k].releasedAt.None? {
      var w' := Apply(w, GiveBack(k));
      assert GrantInv(w, w.grants[k]);
      forall i | 0 <= i < |w'.grants| ensures GrantInv(w', w'.grants[i]) {
        if i != k { GiveBackKeepsLive(w, k, i); }
      }
      forall i, j | 0 <= i < j < |w'.grants| && w'.grants[i].id == w'.grants[j].id
        ensures Ended(w'.grants[i], w'.grants[j].reservation.reservedAt)
      {
        assert Ended(w.grants[i], w.grants[j].reservation.reservedAt);
      }
    }
  }

  /** No other operation touches the reservation of a paid request. */
  lemma OtherLeavesPaid(t: Tables, s: T.Step, id: string)
    requires id in t.requests && t.requests[id].status.Paid? && !s.op.DoReserve? && !s.op.DoRelease?
    ensures id in T.Apply(t, s).requests && T.Apply(t, s).requests[id] == t.requests[id]
  {
    hide HasBlockingOverlap, ActiveIds;
  }

  lemma OtherKeeps(w: World, op: T.Op)
    requires Inv(w)
    ensures Inv(Apply(w, Other(op)))
  {
    hide T.Apply;
    if !op.DoReserve? && !op.DoRelease? {
      var w' := Apply(w, Other(op));
      forall k | 0 <= k < |w.grants| ensures GrantInv(w', w.grants[k]) {
        assert GrantInv(w, w.grants[k]);
        OtherLeavesPaid(w.tables, T.Step(op, w.now), w.grants[k].id);
      }
    }
  }

  lemma WaitKeeps(w: World, ms: nat)
    requires Inv(w)
    ensures Inv(Apply(w, Wait(ms)))
  {
    forall k | 0 <= k < |w.grants| ensures GrantInv(Apply(w, Wait(ms)), w.grants[k]) {
      assert GrantInv(w, w.grants[k]);
    }
  }

  lemma {:induction false} RunKeeps(start: Tables, now: int, events: seq<Event>)
    ensures Inv(Run(start, now, events))
  {
    if events != [] {
      hide Inv, Apply;
      var before, e := Run(start, now, events[..|events| - 1]), events[|events| - 1];
      RunKeeps(start, now, events[..|events| - 1]);
      match e
      case Reserve(id, ownerId, expiresAt) => ReserveKeeps(before, id, ownerId, expiresAt);
      case GiveBack(k) => GiveBackKeeps(before, k);
      case Other(op) => OtherKeeps(before, op);
      case Wait(ms) => WaitKeeps(before, ms);
    } else {
      StartHolds(start, now);
    }
  }

  lemma StartHolds(start: Tables, now: int)
    ensures Inv(World(start, now, []))
  {
  }

  // ----- theorems -----

  /** Two leases on one request never overlap in time unless the earlier was given back first. */
  lemma LeasesNeverOverlap(start: Tables, now: int, events: seq<Event>, i: nat, j: nat)
    requires var w := Run(start, now, events);
             i < j < |w.grants| && w.grants[i].id == w.grants[j].id
    ensures var w := Run(start, now, events);
            var (g, h) := (w.grants[i], w.grants[j]);
            g.reservation.expiresAt <= h.reservation.reservedAt ||
            (g.releasedAt.Some? && g.releasedAt.value <= h.reservation.reservedAt)
  {
    RunKeeps(start, now, events);
  }

  /** Only a paid, unconverted request of the holder ever carries a lease. */
  lemma {:induction false} LeasesArePaidAndUnconverted(start: Tables, now: int, events: seq<Event>, i: nat)
    requires i < |Run(start, now, events).grants|
    ensures var w := Run(start, now, events);
            && w.grants[i].id in w.tables.requests
            && var r := w.tables.requests[w.grants[i].id];
            r.status == Paid && r.convertedAt == None && r.ownerId == w.grants[i].ownerId
  {
    hide Run;
    RunKeeps(start, now, events);
    assert GrantInv(Run(start, now, events), Run(start, now, events).grants[i]);
  }

  /** A live lease is the one its row records. */
  lemma LiveLeaseIsRecorded(start: Tables, now: int, events: seq<Event>, i: nat)
    requires var w := Run(start, now, events);
             i < |w.grants| && !Ended(w.grants[i], w.now)
    ensures var w := Run(start, now, events);
            w.grants[i].id in w.tables.requests &&
            HasReservation(w.tables.requests[w.grants[i].id], w.grants[i].reservation)
  {
    RunKeeps(start, now, events);
    assert GrantInv(Run(start, now, events), Run(start, now, events).grants[i]);
  }

  /** The release of grant `i` takes away the reservation that a later grant `j` made. */
  predicate Clears(w: World, i: nat, j: nat)
    requires i < |w.grants| && j < |w.grants|
  {
    && w.grants[j].id in w.tables.requests
    && HasReservation(w.tables.requests[w.grants[j].id], w.grants[j].reservation)
    && w.grants[j].id in Apply(w, GiveBack(i)).tables.requests
    && !HasReservation(Apply(w, GiveBack(i)).tables.requests[w.grants[j].id], w.grants[j].reservation)
  }

  /** The holder of a lapsed lease clears a later lease on the request exactly when both carry the same
      pair of timestamps and the later one is still recorded. */
  lemma StaleReleaseClearsExactly(start: Tables, now: int, events: seq<Event>, i: nat, j: nat)
    requires var w := Run(start, now, events);
             i < j < |w.grants| && w.grants[i].id == w.grants[j].id && w.grants[i].releasedAt.None?
    ensures var w := Run(start, now, events);
            Clears(w, i, j) <==>
              w.grants[i].reservation == w.grants[j].reservation && w.grants[j].id in w.tables.requests &&
              HasReservation(w.tables.requests[w.grants[j].id], w.grants[j].reservation)
  {
    hide Run;
    RunKeeps(start, now, events);
    var w := Run(start, now, events);
    assert GrantInv(w, w.grants[i]) && GrantInv(w, w.grants[j]);
  }

  /** A lease that lasts beyond its grant can therefore never be used to clear a later one. */
  lemma StaleReleaseIsHarmless(start: Tables, now: int, events: seq<Event>, i: nat, j: nat)
    requires var w := Run(start, now, events);
             i < j < |w.grants| && w.grants[i].id == w.grants[j].id &&
             w.grants[i].reservation.reservedAt < w.grants[i].reservation.expiresAt
    ensures !Clears(Run(start, now, events), i, j)
  {
    hide Run, Clears;
    RunKeeps(start, now, events);
    var w := Run(start, now, events);
    if w.grants[i].releasedAt.None? {
      StaleReleaseClearsExactly(start, now, events, i, j);
      assert Ended(w.grants[i], w.grants[j].reservation.reservedAt);
    } else {
      GivenBackOnce(w, i, j);
    }
  }

  lemma GivenBackOnce(w: World, i: nat, j: nat)
    requires i < |w.grants| && j < |w.grants| && w.grants[i].releasedAt.Some?
    ensures !Clears(w, i, j)
  {
  }

  /** Without that, it can: two leases granted at 10 that both end at 10 are told apart by nothing. */
  lemma EmptyLeaseIsNotFenced()
    ensures exists start: Tables, events: seq<Event> ::
              var w := Run(start, 10, events);
              |w.grants| == 2 && w.grants[0].id == w.grants[1].id && Clears(w, 0, 1)
  {
    var terms := Terms(10, 20, 1, 1, "n", "e", None, None, "CAD", "{}", 1.0, 1.0);
    var r := NewRequest(Draft("p", "r", "o", terms, 5), 0).(status := Paid);
    var start := Tables(map["q" := r], map[]);
    var reserve := Reserve("q", "o", 10);
    var events := [reserve, reserve];
    assert events[..1] == [reserve] && [reserve][..0] == [];
    var w0 := World(start, 10, []);
    var w1 := Apply(w0, reserve);
    assert Run(start, 10, [reserve]) == w1;
    var w := Apply(w1, reserve);
    assert Run(start, 10, events) == w;
    assert |w.grants| == 2 && Clears(w, 0, 1);
  }
}
