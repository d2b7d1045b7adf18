/** What decides each operation on booking requests, and what it leaves: in the fields of the rows and
    blocks themselves. */
module BookingDecisions {
  import opened Bookings

  /** Apart from request `id` and the blocks in `gone`, the tables are the same. */
  ghost predicate OnlyTouches(t: Tables, t': Tables, id: string, gone: set<string>) {
    && t'.requests.Keys == t.requests.Keys + {id}
    && (forall k :: k in t.requests && k != id ==> t'.requests[k] == t.requests[k])
    && t'.blocks.Keys == t.blocks.Keys - gone
    && (forall b :: b in t'.blocks ==> t'.blocks[b] == t.blocks[b])
  }

  /** A creation goes through exactly while fewer than `limit` requests of the renter for the posting are
      unconverted and pending, awaiting or processing payment, failed in payment or paid. */
  lemma CreatedExactly(t: Tables, id: string, d: Draft, limit: nat, now: int)
    requires id !in t.requests
    ensures var (t', created) := CreateIfWithinLimit(t, id, d, limit, now);
            var active := set k | k in t.requests &&
              t.requests[k].postingId == d.postingId && t.requests[k].renterId == d.renterId &&
              t.requests[k].convertedAt == None &&
              t.requests[k].status in {Pending, AwaitingPayment, PaymentProcessing, PaymentFailed, Paid};
            && (created.Some? <==> |active| < limit)
            && (created.None? ==> t' == t)
            && (created.Some? ==>
                  && OnlyTouches(t, t', id, {}) && t'.requests[id] == created.value
                  && var r := created.value;
                  && (r.postingId, r.renterId, r.ownerId, r.terms) == (d.postingId, d.renterId, d.ownerId, d.terms)
                  && r.status == Pending && r.createdAt == now && r.holdExpiresAt == d.holdExpiresAt
                  && r.holdBlockId == r.decisionNote == None
                  && r.approvedAt == r.paymentRequiredAt == r.paymentFailedAt == r.declinedAt == r.expiredAt == None
                  && r.convertedAt == r.conversionReservedAt == r.conversionReservationExpiresAt == None)
  {
    var active := set k | k in t.requests &&
      t.requests[k].postingId == d.postingId && t.requests[k].renterId == d.renterId &&
      t.requests[k].convertedAt == None &&
      t.requests[k].status in {Pending, AwaitingPayment, PaymentProcessing, PaymentFailed, Paid};
    assert active == ActiveIds(t.requests, d.postingId, d.renterId);
  }

  /** Terms change exactly on the renter's own pending request before its hold expires, and nothing else does. */
  lemma UpdatedExactly(t: Tables, id: string, renterId: string, terms: Terms, now: int)
    ensures var (t', updated) := UpdatePending(t, id, renterId, terms, now);
            && (updated.Some? <==>
                  id in t.requests && t.requests[id].renterId == renterId && t.requests[id].status == Pending &&
                  now < t.requests[id].holdExpiresAt)
            && (updated.None? ==> t' == t)
            && (updated.Some? ==>
                  OnlyTouches(t, t', id, {}) && updated.value == t'.requests[id] &&
                  t'.requests[id].terms == terms &&
                  t'.requests[id].(terms := t.requests[id].terms) == t.requests[id])
  {
  }

  /** The block overlaps the dates of request `id`, and is nobody's hold or that of another request which
      is paid and unconverted. */
  ghost predicate Obstructs(t: Tables, b: string, id: string) {
    && id in t.requests && b in t.blocks
    && t.blocks[b].postingId == t.requests[id].postingId
    && t.blocks[b].startAt < t.requests[id].terms.endAt && t.requests[id].terms.startAt < t.blocks[b].endAt
    && (|| (forall k :: k in t.requests ==> t.requests[k].holdBlockId != Some(b))
        || (exists k :: k in t.requests && k != id && t.requests[k].holdBlockId == Some(b) &&
              t.requests[k].status == Paid && t.requests[k].convertedAt == None))
  }

  /** An approval is refused for its dates exactly when a block of the posting overlaps them that no
      request holds, or that another request holds which is paid and unconverted. */
  lemma ApprovedExactly(t: Tables, id: string, ownerId: string, note: Option<string>, holdExpiresAt: int, now: int)
    ensures var (t', approval) := Approve(t, id, ownerId, note, holdExpiresAt, now);
            var open := id in t.requests && t.requests[id].ownerId == ownerId &&
              t.requests[id].status == Pending && now < t.requests[id].holdExpiresAt;
            var taken := exists b :: Obstructs(t, b, id);
            && (approval.NoSuchRequest? <==> !open)
            && (approval.DatesTaken? <==> open && taken)
            && (!approval.Decided? ==> t' == t)
            && (approval.Decided? ==>
                  && OnlyTouches(t, t', id, {}) && t'.requests[id] == approval.request
                  && var r, r' := t.requests[id], t'.requests[id];
                  && r'.status == AwaitingPayment && r'.approvedAt == r'.paymentRequiredAt == Some(now)
                  && r'.paymentFailedAt == None && r'.decisionNote == note
                  && r'.holdExpiresAt == holdExpiresAt && r'.holdBlockId == None
                  && (r'.postingId, r'.renterId, r'.ownerId, r'.terms, r'.createdAt) ==
                     (r.postingId, r.renterId, r.ownerId, r.terms, r.createdAt)
                  && (r'.declinedAt, r'.expiredAt, r'.convertedAt) == (r.declinedAt, r.expiredAt, r.convertedAt)
                  && r'.conversionReservedAt == r.conversionReservedAt
                  && r'.conversionReservationExpiresAt == r.conversionReservationExpiresAt)
  {
    if id in t.requests {
      var r := t.requests[id];
      forall b ensures Obstructs(t, b, id) <==> BlocksDates(t, b, r.postingId, r.terms.startAt, r.terms.endAt, id) {}
      hide BlocksDates, Obstructs;
      assert (exists b :: Obstructs(t, b, id)) <==>
             HasBlockingOverlap(t, r.postingId, r.terms.startAt, r.terms.endAt, id) by {
        if exists b :: Obstructs(t, b, id) {
          var b :| Obstructs(t, b, id);
          ObstructingIsBlock(t, b, id);
        }
      }
    }
  }

  lemma ObstructingIsBlock(t: Tables, b: string, id: string)
    requires Obstructs(t, b, id)
    ensures b in t.blocks
  {
  }

  /** A decline goes through exactly for the owner, on a pending request before its hold expires. */
  lemma DeclinedExactly(t: Tables, id: string, ownerId: string, note: Option<string>, now: int)
    ensures var (t', declined) := Decline(t, id, ownerId, note, now);
            && (declined.Some? <==>
                  id in t.requests && t.requests[id].ownerId == ownerId && t.requests[id].status == Pending &&
                  now < t.requests[id].holdExpiresAt)
            && (declined.None? ==> t' == t)
            && (declined.Some? ==>
                  && OnlyTouches(t, t', id, {}) && declined.value == t'.requests[id]
                  && var r, r' := t.requests[id], t'.requests[id];
                  && r'.status == Declined && r'.declinedAt == Some(now) && r'.decisionNote == note
                  && r'.(status := r.status, declinedAt := r.declinedAt, decisionNote := r.decisionNote) == r)
  {
  }

  /** A request expires exactly when it is unpaid and undecided or unpaid and approved, unconverted, its
      hold is over and no conversion reservation is live; only past pending does its block go with it. */
  lemma ExpiredExactly(t: Tables, id: string, now: int)
    ensures var (t', expired) := Expire(t, id, now);
            && (expired <==>
                  && id in t.requests
                  && var r := t.requests[id];
                  && r.status in {Pending, AwaitingPayment, PaymentProcessing, PaymentFailed}
                  && r.convertedAt == None && r.holdExpiresAt <= now
                  && (r.conversionReservationExpiresAt.Some? ==> r.conversionReservationExpiresAt.value <= now))
            && (!expired ==> t' == t)
            && (expired ==>
                  && var r, r' := t.requests[id], t'.requests[id];
                  && OnlyTouches(t, t', id,
                       if r.status != Pending && r.holdBlockId.Some? then {r.holdBlockId.value} else {})
                  && r'.status == Expired && r'.expiredAt == Some(now) && r'.holdBlockId == None
                  && r'.conversionReservedAt == r'.conversionReservationExpiresAt == None
                  && (r'.postingId, r'.renterId, r'.ownerId, r'.terms, r'.createdAt) ==
                     (r.postingId, r.renterId, r.ownerId, r.terms, r.createdAt)
                  && (r'.holdExpiresAt, r'.decisionNote) == (r.holdExpiresAt, r.decisionNote)
                  && r'.approvedAt == r.approvedAt
                  && (r'.paymentRequiredAt, r'.paymentFailedAt) == (r.paymentRequiredAt, r.paymentFailedAt)
                  && (r'.declinedAt, r'.convertedAt) == (r.declinedAt, r.convertedAt))
  {
  }

  /** A conversion lease is granted exactly on the owner's paid, unconverted request that no later
      reservation holds. */
  lemma GrantedExactly(t: Tables, id: string, ownerId: string, expiresAt: int, now: int)
    ensures var (t', reserved) := ReserveForConversion(t, id, ownerId, expiresAt, now);
            && (reserved.Granted? <==>
                  && id in t.requests
                  && var r := t.requests[id];
                  && r.ownerId == ownerId && r.status == Paid && r.convertedAt == None
                  && !(r.conversionReservationExpiresAt.Some? && now < r.conversionReservationExpiresAt.value))
            && (!reserved.Granted? ==> t' == t)
            && (reserved.Granted? ==>
                  && OnlyTouches(t, t', id, {}) && reserved.reservation == Reservation(now, expiresAt)
                  && var r, r' := t.requests[id], t'.requests[id];
                  && r'.conversionReservedAt == Some(now) && r'.conversionReservationExpiresAt == Some(expiresAt)
                  && r'.(conversionReservedAt := r.conversionReservedAt,
                         conversionReservationExpiresAt := r.conversionReservationExpiresAt) == r)
  {
  }

  /** A release clears the reservation exactly when owner and both timestamps match, and nothing else. */
  lemma ReleasedExactly(t: Tables, id: string, ownerId: string, v: Reservation)
    ensures var t' := ReleaseConversion(t, id, ownerId, v);
            var matches := id in t.requests && t.requests[id].ownerId == ownerId &&
              t.requests[id].conversionReservedAt == Some(v.reservedAt) &&
              t.requests[id].conversionReservationExpiresAt == Some(v.expiresAt);
            && (!matches ==> t' == t)
            && (matches ==>
                  && OnlyTouches(t, t', id, {})
                  && var r, r' := t.requests[id], t'.requests[id];
                  && r'.conversionReservedAt == r'.conversionReservationExpiresAt == None
                  && r'.(conversionReservedAt := r.conversionReservedAt,
                         conversionReservationExpiresAt := r.conversionReservationExpiresAt) == r)
  {
  }

  /** What a sweep lists is exactly what an expiry at that moment would expire. */
  lemma OverdueExactly(t: Tables, id: string, now: int)
    ensures Expire(t, id, now).1 <==> id in t.requests && Overdue(t.requests[id], now)
  {
  }
}
