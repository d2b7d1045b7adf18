/** What every run of the repository's operations keeps, from any tables. */
module BookingTheorems {
  import opened Bookings

  datatype Op =
    | DoCreate(id: string, draft: Draft, limit: nat)
    | DoUpdate(id: string, renterId: string, terms: Terms)
    | DoApprove(id: string, ownerId: string, note: Option<string>, holdExpiresAt: int)
    | DoDecline(id: string, ownerId: string, note: Option<string>)
    | DoExpire(id: string)
    | DoReserve(id: string, ownerId: string, expiresAt: int)
    | DoRelease(id: string, ownerId: string, reservation: Reservation)

  datatype Step = Step(op: Op, now: int)

  /** Identifiers of new requests are drawn unused. */
  function Apply(t: Tables, s: Step): Tables {
    match s.op
    case DoCreate(id, draft, limit) =>
      if id in t.requests then t else CreateIfWithinLimit(t, id, draft, limit, s.now).0
    case DoUpdate(id, renterId, terms) => UpdatePending(t, id, renterId, terms, s.now).0
    case DoApprove(id, ownerId, note, holdExpiresAt) => Approve(t, id, ownerId, note, holdExpiresAt, s.now).0
    case DoDecline(id, ownerId, note) => Decline(t, id, ownerId, note, s.now).0
    case DoExpire(id) => Expire(t, id, s.now).0
    case DoReserve(id, ownerId, expiresAt) => ReserveForConversion(t, id, ownerId, expiresAt, s.now).0
    case DoRelease(id, ownerId, reservation) => ReleaseConversion(t, id, ownerId, reservation)
  }

  function Run(t: Tables, steps: seq<Step>): Tables {
    if steps == [] then t else Apply(Run(t, steps[..|steps| - 1]), steps[|steps| - 1])
  }

  // ----- the life cycle of one request -----

  /** Where a status can go, in any number of steps. */
  predicate Leads(a: Status, b: Status) {
    || a == b
    || (a.Pending? && (b.AwaitingPayment? || b.Declined? || b.Expired?))
    || ((a.AwaitingPayment? || a.PaymentProcessing? || a.PaymentFailed?) && b.Expired?)
  }

  predicate Evolves(r: Request, r': Request) {
    && Leads(r.status, r'.status)
    && (r'.postingId, r'.renterId, r'.ownerId, r'.createdAt) == (r.postingId, r.renterId, r.ownerId, r.createdAt)
    && r'.convertedAt == r.convertedAt
    && (r'.holdBlockId == r.holdBlockId || r'.holdBlockId == None)
    && (r'.terms != r.terms ==> r.status.Pending?)
  }

  lemma EvolvesSteps(r: Request, now: int)
    ensures Open(r, now) ==> r.status.Pending?
    ensures Overdue(r, now) ==> Evolves(r, ExpiredRow(r, now))
  {
  }

  lemma ApprovalEvolves(r: Request, note: Option<string>, holdExpiresAt: int, now: int)
    ensures r.status.Pending? ==> Evolves(r, ApprovedRow(r, note, holdExpiresAt, now))
  {
  }

  lemma ApplyEvolves(t: Tables, s: Step, id: string)
    requires id in t.requests
    ensures id in Apply(t, s).requests && Evolves(t.requests[id], Apply(t, s).requests[id])
  {
    hide HasBlockingOverlap, ActiveIds, Open, Overdue, ReservationOver, HasReservation, DropsHold;
    EvolvesSteps(t.requests[id], s.now);
    if s.op.DoApprove? { ApprovalEvolves(t.requests[id], s.op.note, s.op.holdExpiresAt, s.now); }
  }

  /** Requests are never deleted, keep their parties, and move only forward through the life cycle. */
  lemma {:induction false} RunEvolves(t: Tables, steps: seq<Step>, id: string)
    requires id in t.requests
    ensures id in Run(t, steps).requests && Evolves(t.requests[id], Run(t, steps).requests[id])
  {
    if steps != [] {
      hide Apply;
      RunEvolves(t, steps[..|steps| - 1], id);
      ApplyEvolves(Run(t, steps[..|steps| - 1]), steps[|steps| - 1], id);
    }
  }

  /** A declined or expired request stays so, with its terms as they were. */
  lemma {:induction false} FinalStays(t: Tables, steps: seq<Step>, id: string)
    requires id in t.requests && (t.requests[id].status.Declined? || t.requests[id].status.Expired?)
    ensures id in Run(t, steps).requests
    ensures Run(t, steps).requests[id].status == t.requests[id].status
    ensures Run(t, steps).requests[id].terms == t.requests[id].terms
  {
    RunEvolves(t, steps, id);
  }

  predicate IsPending(t: Tables, id: string) {
    id in t.requests && t.requests[id].status.Pending?
  }

  /** How often the request leaves pending during a run. */
  function Departures(t: Tables, steps: seq<Step>, id: string): nat {
    if steps == [] then 0
    else
      var before := Run(t, steps[..|steps| - 1]);
      Departures(t, steps[..|steps| - 1], id) +
      if IsPending(before, id) && !IsPending(Apply(before, steps[|steps| - 1]), id) then 1 else 0
  }

  /** A request leaves pending at most once, and once it has it is not pending again. */
  lemma {:induction false} PendingLeftOnce(t: Tables, steps: seq<Step>, id: string)
    ensures Departures(t, steps, id) <= 1
    ensures Departures(t, steps, id) == 1 ==> id in Run(t, steps).requests && !IsPending(Run(t, steps), id)
  {
    if steps != [] {
      hide Apply;
      var before := Run(t, steps[..|steps| - 1]);
      PendingLeftOnce(t, steps[..|steps| - 1], id);
      if id in before.requests {
        ApplyEvolves(before, steps[|steps| - 1], id);
      }
    }
  }

  // ----- the cap -----

  ghost predicate WithinCap(t: Tables, cap: nat) {
    forall p, r :: |ActiveIds(t.requests, p, r)| <= cap
  }

  lemma {:induction false} SubsetSize(a: set<string>, b: set<string>)
    requires a <= b
    ensures |a| <= |b|
  {
    if a != {} {
      var x :| x in a;
      SubsetSize(a - {x}, b - {x});
    }
  }

  lemma OnlyCreationAdds(t: Tables, s: Step, id: string)
    requires id in Apply(t, s).requests && id !in t.requests
    ensures s.op.DoCreate? && id == s.op.id && Apply(t, s).requests[id] == NewRequest(s.op.draft, s.now)
  {
    hide HasBlockingOverlap, ActiveIds;
  }

  lemma ActiveWasActive(r: Request, r': Request, p: string, q: string)
    requires Evolves(r, r') && Active(r', p, q)
    ensures Active(r, p, q)
  {
  }

  lemma ActiveAfterwards(t: Tables, s: Step, p: string, r: string)
    ensures var after := ActiveIds(Apply(t, s).requests, p, r);
            var before := ActiveIds(t.requests, p, r);
            if s.op.DoCreate? && (s.op.draft.postingId, s.op.draft.renterId) == (p, r)
            then after <= before + {s.op.id} else after <= before
  {
    hide Apply, Active, Evolves;
    var t' := Apply(t, s);
    forall id | id in t'.requests && Active(t'.requests[id], p, r)
      ensures || (id in t.requests && Active(t.requests[id], p, r))
              || (s.op.DoCreate? && (s.op.draft.postingId, s.op.draft.renterId) == (p, r) && id == s.op.id)
    {
      if id in t.requests {
        ApplyEvolves(t, s, id);
        ActiveWasActive(t.requests[id], t'.requests[id], p, r);
      } else {
        OnlyCreationAdds(t, s, id);
        NewIsActiveFor(s.op.draft, s.now, p, r);
      }
    }
  }

  lemma NewIsActiveFor(d: Draft, now: int, p: string, r: string)
    ensures Active(NewRequest(d, now), p, r) ==> (d.postingId, d.renterId) == (p, r)
  {
  }

  lemma CapKept(t: Tables, s: Step, cap: nat)
    requires WithinCap(t, cap) && (s.op.DoCreate? ==> s.op.limit <= cap)
    ensures WithinCap(Apply(t, s), cap)
  {
    hide Active;
    var t' := Apply(t, s);
    forall p, r ensures |ActiveIds(t'.requests, p, r)| <= cap {
      var before, after := ActiveIds(t.requests, p, r), ActiveIds(t'.requests, p, r);
      ActiveAfterwards(t, s, p, r);
      if s.op.DoCreate? && (s.op.draft.postingId, s.op.draft.renterId) == (p, r) {
        if t' != t { SubsetSize(after, before + {s.op.id}); }
      } else {
        SubsetSize(after, before);
      }
    }
  }

  /** No run whose creations are all capped takes a posting and renter over the cap. */
  lemma {:induction false} CapHolds(t: Tables, steps: seq<Step>, cap: nat)
    requires WithinCap(t, cap)
    requires forall i :: 0 <= i < |steps| && steps[i].op.DoCreate? ==> steps[i].op.limit <= cap
    ensures WithinCap(Run(t, steps), cap)
  {
    if steps != [] {
      hide Apply, WithinCap;
      CapHolds(t, steps[..|steps| - 1], cap);
      CapKept(Run(t, steps[..|steps| - 1]), steps[|steps| - 1], cap);
    }
  }

  /** A creation is refused exactly when the posting and renter are at the cap already. */
  lemma RefusedExactlyAtCap(t: Tables, id: string, d: Draft, limit: nat, now: int)
    requires WithinCap(t, limit) && id !in t.requests
    ensures var (t', created) := CreateIfWithinLimit(t, id, d, limit, now);
            var before := ActiveIds(t.requests, d.postingId, d.renterId);
            (created.None? <==> |before| == limit) &&
            (created.None? ==> t' == t) &&
            (created.Some? ==> ActiveIds(t'.requests, d.postingId, d.renterId) == before + {id})
  {
  }

  // ----- hold blocks -----

  /** No two requests hold the same block. */
  ghost predicate HoldsUnique(requests: map<string, Request>) {
    forall a, b ::
      a in requests && b in requests && requests[a].holdBlockId.Some? &&
      requests[a].holdBlockId == requests[b].holdBlockId
      ==> a == b
  }

  /** Every hold block has an owner. */
  ghost predicate NoOrphan(t: Tables) {
    forall b :: b in t.blocks && t.blocks[b].source.BookingHold? ==> !Unheld(t.requests, b)
  }

  ghost predicate PendingHoldsNothing(t: Tables) {
    forall id :: IsPending(t, id) ==> t.requests[id].holdBlockId.None?
  }

  ghost predicate HoldInv(t: Tables) {
    HoldsUnique(t.requests) && NoOrphan(t) && PendingHoldsNothing(t)
  }

  lemma UniqueKept(t: Tables, s: Step)
    requires HoldsUnique(t.requests)
    ensures HoldsUnique(Apply(t, s).requests)
  {
    hide HasBlockingOverlap, ActiveIds;
    var t' := Apply(t, s);
    forall a, b | a in t'.requests && b in t'.requests && t'.requests[a].holdBlockId.Some? &&
                  t'.requests[a].holdBlockId == t'.requests[b].holdBlockId
      ensures a == b
    {
      OldHold(t, s, a);
      OldHold(t, s, b);
    }
  }

  /** No operation gives a request a block. */
  lemma OldHold(t: Tables, s: Step, id: string)
    requires id in Apply(t, s).requests && Apply(t, s).requests[id].holdBlockId.Some?
    ensures id in t.requests && t.requests[id].holdBlockId == Apply(t, s).requests[id].holdBlockId
    ensures IsPending(Apply(t, s), id) ==> IsPending(t, id)
  {
    hide HasBlockingOverlap, ActiveIds;
  }

  /** The step decides or expires a pending request that owns a hold block: an approval by the owner in
      time on free dates, or an expiry of an overdue request. */
  predicate Detaches(t: Tables, s: Step) {
    && (s.op.DoApprove? || s.op.DoExpire?)
    && s.op.id in t.requests
    && var r := t.requests[s.op.id];
    && r.status.Pending?
    && r.holdBlockId.Some? && r.holdBlockId.value in t.blocks && t.blocks[r.holdBlockId.value].source.BookingHold?
    && (s.op.DoExpire? ==> Overdue(r, s.now))
    && (s.op.DoApprove? ==>
          r.ownerId == s.op.ownerId && Open(r, s.now) &&
          !HasBlockingOverlap(t, r.postingId, r.terms.startAt, r.terms.endAt, s.op.id))
  }

  lemma StillHeld(t: Tables, s: Step, b: string, id: string)
    requires id in t.requests && t.requests[id].holdBlockId == Some(b)
    requires !Detaches(t, s) && b in t.blocks && t.blocks[b].source.BookingHold?
    requires b in Apply(t, s).blocks
    ensures !Unheld(Apply(t, s).requests, b)
  {
    hide HasBlockingOverlap, ActiveIds;
    var t' := Apply(t, s);
    assert id in t'.requests && t'.requests[id].holdBlockId == Some(b);
  }

  lemma DetachedIsOrphan(t: Tables, s: Step)
    requires HoldsUnique(t.requests) && Detaches(t, s)
    ensures var b := t.requests[s.op.id].holdBlockId.value;
            b in Apply(t, s).blocks && Apply(t, s).blocks[b].source.BookingHold? && Unheld(Apply(t, s).requests, b)
  {
    hide HasBlockingOverlap, ActiveIds;
  }

  lemma BlocksOnlyGo(t: Tables, s: Step, b: string)
    requires b in Apply(t, s).blocks
    ensures b in t.blocks && t.blocks[b] == Apply(t, s).blocks[b]
  {
    hide HasBlockingOverlap, ActiveIds;
  }

  /** A step leaves a hold block without an owner exactly when it decides or expires a pending request
      that owns one: only a request past pending takes its block with it. */
  lemma OrphansExactly(t: Tables, s: Step)
    requires HoldsUnique(t.requests) && NoOrphan(t)
    ensures NoOrphan(Apply(t, s)) <==> !Detaches(t, s)
  {
    hide Apply, Detaches, Unheld;
    var t' := Apply(t, s);
    if Detaches(t, s) {
      DetachedIsOrphan(t, s);
    } else {
      forall b | b in t'.blocks && t'.blocks[b].source.BookingHold? ensures !Unheld(t'.requests, b) {
        BlocksOnlyGo(t, s, b);
        var id := Holder(t, b);
        StillHeld(t, s, b, id);
      }
    }
  }

  lemma Holder(t: Tables, b: string) returns (id: string)
    requires !Unheld(t.requests, b)
    ensures id in t.requests && t.requests[id].holdBlockId == Some(b)
  {
    id :| id in t.requests && t.requests[id].holdBlockId == Some(b);
  }

  lemma DetachesPending(t: Tables, s: Step)
    requires Detaches(t, s)
    ensures s.op.DoApprove? || s.op.DoExpire?
    ensures IsPending(t, s.op.id) && t.requests[s.op.id].holdBlockId.Some?
  {
  }

  /** If at first every hold block has one owner and no pending request owns one, this stays so. */
  lemma {:induction false} HoldsStayOwned(t: Tables, steps: seq<Step>)
    requires HoldInv(t)
    ensures HoldInv(Run(t, steps))
  {
    if steps != [] {
      hide Apply, NoOrphan, HoldsUnique, Detaches;
      var before, s := Run(t, steps[..|steps| - 1]), steps[|steps| - 1];
      HoldsStayOwned(t, steps[..|steps| - 1]);
      UniqueKept(before, s);
      OrphansExactly(before, s);
      if Detaches(before, s) {
        DetachesPending(before, s);
      }
      forall id | IsPending(Apply(before, s), id) ensures Apply(before, s).requests[id].holdBlockId.None? {
        if Apply(before, s).requests[id].holdBlockId.Some? { OldHold(before, s, id); }
      }
    }
  }

  /** So in every state of such a run, a hold block blocks a decision exactly when a paid, unconverted
      request other than the one decided owns it. */
  lemma HoldBlocksExactlyWhenPaid(t: Tables, steps: seq<Step>, b: string, id: string)
    requires HoldInv(t)
    requires id in Run(t, steps).requests && b in Run(t, steps).blocks && Run(t, steps).blocks[b].source.BookingHold?
    ensures var t' := Run(t, steps);
            var r := t'.requests[id];
            BlocksDates(t', b, r.postingId, r.terms.startAt, r.terms.endAt, id) <==>
              Overlaps(t'.blocks[b], r.postingId, r.terms.startAt, r.terms.endAt) && HeldByPaid(t'.requests, b, id)
  {
    hide Run, Unheld, HeldByPaid, HoldsUnique;
    HoldsStayOwned(t, steps);
  }

  lemma {:induction false} UnheldStays(t: Tables, steps: seq<Step>, b: string)
    requires b in t.blocks && Unheld(t.requests, b)
    ensures b in Run(t, steps).blocks && Run(t, steps).blocks[b] == t.blocks[b] && Unheld(Run(t, steps).requests, b)
  {
    if steps != [] {
      hide Apply;
      var before, s := Run(t, steps[..|steps| - 1]), steps[|steps| - 1];
      UnheldStays(t, steps[..|steps| - 1], b);
      UnheldNotDeleted(before, s, b);
      forall id | id in Apply(before, s).requests ensures Apply(before, s).requests[id].holdBlockId != Some(b) {
        if Apply(before, s).requests[id].holdBlockId.Some? { OldHold(before, s, id); }
      }
    }
  }

  lemma UnheldNotDeleted(t: Tables, s: Step, b: string)
    requires b in t.blocks && Unheld(t.requests, b)
    ensures b in Apply(t, s).blocks && Apply(t, s).blocks[b] == t.blocks[b]
  {
    hide HasBlockingOverlap, ActiveIds;
  }

  /** And this is why an orphan matters: a block without an owner refuses every later approval whose
      dates it overlaps, in every run. */
  lemma OrphanRefusesForever(t: Tables, steps: seq<Step>, b: string, id: string, ownerId: string,
                             note: Option<string>, holdExpiresAt: int, now: int)
    requires b in t.blocks && Unheld(t.requests, b)
    requires var t' := Run(t, steps);
             id in t'.requests &&
             var r := t'.requests[id];
             Overlaps(t.blocks[b], r.postingId, r.terms.startAt, r.terms.endAt)
    ensures var (t', approval) := Approve(Run(t, steps), id, ownerId, note, holdExpiresAt, now);
            t' == Run(t, steps) && !approval.Decided?
  {
    UnheldStays(t, steps, b);
    hide Run, Unheld, HeldByPaid, Overlaps;
    var t', r := Run(t, steps), Run(t, steps).requests[id];
    assert BlocksDates(t', b, r.postingId, r.terms.startAt, r.terms.endAt, id);
  }

  /** A run that shows an orphan arise: a pending request that owns a hold block expires. */
  lemma PendingHoldIsOrphaned()
    ensures exists t: Tables, s: Step ::
              HoldsUnique(t.requests) && NoOrphan(t) && !NoOrphan(Apply(t, s))
  {
    var terms := Terms(10, 20, 1, 1, "n", "e", None, None, "CAD", "{}", 1.0, 1.0);
    var r := NewRequest(Draft("p", "r", "o", terms, 5), 0).(holdBlockId := Some("b"));
    var t := Tables(map["q" := r], map["b" := Block("p", 10, 20, BookingHold)]);
    var s := Step(DoExpire("q"), 5);
    assert t.requests["q"].holdBlockId == Some("b");
    assert HoldsUnique(t.requests) && NoOrphan(t);
    assert Detaches(t, s);
    OrphansExactly(t, s);
  }

  // ----- the expiry sweep -----

  /** Expires the listed requests one after the other. */
  function Sweep(t: Tables, ids: seq<string>, now: int): (Tables, nat) {
    if ids == [] then (t, 0)
    else
      var (t', n) := Sweep(t, ids[..|ids| - 1], now);
      var (t'', ok) := Expire(t', ids[|ids| - 1], now);
      (t'', n + if ok then 1 else 0)
  }

  /** Sweeping listed, distinct, overdue requests expires each of them and touches no other. */
  lemma {:induction false} SweepExpiresAll(t: Tables, ids: seq<string>, now: int)
    requires forall i :: 0 <= i < |ids| ==> ids[i] in t.requests && Overdue(t.requests[ids[i]], now)
    requires forall i, j :: 0 <= i < j < |ids| ==> ids[i] != ids[j]
    ensures var (t', n) := Sweep(t, ids, now);
            && n == |ids|
            && t'.requests.Keys == t.requests.Keys
            && (forall id :: id in t.requests ==>
                  t'.requests[id] == if id in ids then ExpiredRow(t.requests[id], now) else t.requests[id])
  {
    hide Overdue, ExpiredRow, DropsHold;
    if ids != [] {
      var init, last := ids[..|ids| - 1], ids[|ids| - 1];
      SweepExpiresAll(t, init, now);
      assert ids == init + [last];
      assert last !in init;
    }
  }

  /** After sweeping a list of everything overdue, nothing is overdue. */
  lemma SweepLeavesNothingOverdue(t: Tables, ids: seq<string>, now: int)
    requires forall i :: 0 <= i < |ids| ==> ids[i] in t.requests && Overdue(t.requests[ids[i]], now)
    requires forall i, j :: 0 <= i < j < |ids| ==> ids[i] != ids[j]
    requires forall id :: id in t.requests && Overdue(t.requests[id], now) ==> id in ids
    ensures forall id :: id in Sweep(t, ids, now).0.requests ==> !Overdue(Sweep(t, ids, now).0.requests[id], now)
  {
    hide Sweep;
    SweepExpiresAll(t, ids, now);
  }
}
