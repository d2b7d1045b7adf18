/** The repository's methods, written as the transactions run, against the operations of `Bookings`. */
module BookingsRepository {
  import opened B = Bookings

  /** Ascending by hold expiry, then by creation. */
  predicate Before(r: Request, s: Request) {
    r.holdExpiresAt < s.holdExpiresAt || (r.holdExpiresAt == s.holdExpiresAt && r.createdAt <= s.createdAt)
  }

  lemma BeforeMeans(r: Request, s: Request)
    requires Before(r, s)
    ensures r.holdExpiresAt <= s.holdExpiresAt
    ensures r.holdExpiresAt == s.holdExpiresAt ==> r.createdAt <= s.createdAt
  {
  }

  function OverdueIds(requests: map<string, Request>, now: int): set<string> {
    set id | id in requests && Overdue(requests[id], now)
  }

  ghost predicate SortedIds(requests: map<string, Request>, ids: seq<string>) {
    && (forall i :: 0 <= i < |ids| ==> ids[i] in requests)
    && (forall i, j :: 0 <= i < j < |ids| ==> ids[i] != ids[j] && Before(requests[ids[i]], requests[ids[j]]))
  }

  /** `ids` are the first of `all` in the order. */
  ghost predicate FirstOf(requests: map<string, Request>, ids: seq<string>, all: set<string>) {
    && SortedIds(requests, ids)
    && (forall i :: 0 <= i < |ids| ==> ids[i] in all)
    && (forall i, id :: 0 <= i < |ids| && id in all && id in requests && id !in ids ==>
          Before(requests[ids[i]], requests[id]))
  }

  class Repository {
    var requests: map<string, Request>
    var blocks: map<string, Block>

    constructor (t: Tables)
      ensures Contents() == t
    {
      requests, blocks := t.requests, t.blocks;
    }

    function Contents(): Tables
      reads this
    {
      Tables(requests, blocks)
    }

    method CreateIfWithinActiveRequestLimit(id: string, input: Draft, maxActiveRequests: nat, now: int)
      returns (created: Option<Request>)
      modifies this`requests
      ensures (Contents(), created) == B.CreateIfWithinLimit(old(Contents()), id, input, maxActiveRequests, now)
    {
      var activeRequestCount := |ActiveIds(requests, input.postingId, input.renterId)|;
      if activeRequestCount >= maxActiveRequests {
        return None;
      }
      requests := requests[id := NewRequest(input, now)];
      created := Some(requests[id]);
    }

    method UpdatePending(id: string, renterId: string, input: Terms, now: int) returns (updated: Option<Request>)
      modifies this`requests
      ensures (Contents(), updated) == B.UpdatePending(old(Contents()), id, renterId, input, now)
    {
      if id !in requests || requests[id].renterId != renterId {
        return None;
      }
      var existing := requests[id];
      if existing.status != Pending || existing.holdExpiresAt <= now {
        return None;
      }
      requests := requests[id := existing.(terms := input)];
      updated := Some(requests[id]);
    }

    method HasBlockingAvailabilityOverlap(postingId: string, startAt: int, endAt: int, excludeId: string)
      returns (found: bool)
      ensures found == HasBlockingOverlap(Contents(), postingId, startAt, endAt, excludeId)
    {
      hide BlocksDates;
      found := false;
      var rest := blocks.Keys;
      while rest != {} && !found
        invariant rest <= blocks.Keys
        invariant found ==> HasBlockingOverlap(Contents(), postingId, startAt, endAt, excludeId)
        invariant !found ==> forall b :: b in blocks && b !in rest ==>
                    !BlocksDates(Contents(), b, postingId, startAt, endAt, excludeId)
        decreases |rest|
      {
        var b :| b in rest;
        found := BlocksDates(Contents(), b, postingId, startAt, endAt, excludeId);
        rest := rest - {b};
      }
    }

    method Approve(id: string, ownerId: string, note: Option<string>, holdExpiresAt: int, now: int)
      returns (approved: Approval)
      modifies this`requests
      ensures (Contents(), approved) == B.Approve(old(Contents()), id, ownerId, note, holdExpiresAt, now)
    {
      hide HasBlockingOverlap;
      if id !in requests || requests[id].ownerId != ownerId {
        return NoSuchRequest;
      }
      var existing := requests[id];
      if existing.status != Pending || existing.holdExpiresAt <= now {
        return NoSuchRequest;
      }
      var taken := HasBlockingAvailabilityOverlap(existing.postingId, existing.terms.startAt, existing.terms.endAt, id);
      if taken {
        return DatesTaken;
      }
      requests := requests[id := ApprovedRow(existing, note, holdExpiresAt, now)];
      approved := Decided(requests[id]);
    }

    method Decline(id: string, ownerId: string, note: Option<string>, now: int) returns (declined: Option<Request>)
      modifies this`requests
      ensures (Contents(), declined) == B.Decline(old(Contents()), id, ownerId, note, now)
    {
      if id !in requests || requests[id].ownerId != ownerId {
        return None;
      }
      var existing := requests[id];
      if existing.status != Pending {
        return None;
      }
      if existing.holdExpiresAt <= now {
        return None;
      }
      requests := requests[id := existing.(status := Declined, declinedAt := Some(now), decisionNote := note)];
      declined := Some(requests[id]);
    }

    /** The overdue request that comes first in the order. */
    method Earliest(candidates: set<string>) returns (first: string)
      requires candidates != {} && candidates <= requests.Keys
      ensures first in candidates
      ensures forall id :: id in candidates ==> Before(requests[first], requests[id])
    {
      first :| first in candidates;
      var rest := candidates - {first};
      while rest != {}
        invariant first in candidates && rest <= candidates
        invariant forall id :: id in candidates - rest ==> Before(requests[first], requests[id])
        decreases |rest|
      {
        var id :| id in rest;
        if !Before(requests[first], requests[id]) {
          first := id;
        }
        rest := rest - {id};
      }
    }

    method ListExpiredCandidates(limit: nat, now: int) returns (ids: seq<string>)
      ensures FirstOf(requests, ids, OverdueIds(requests, now))
      ensures |ids| <= limit
      ensures forall i, j :: 0 <= i < j < |ids| ==>
                requests[ids[i]].holdExpiresAt <= requests[ids[j]].holdExpiresAt &&
                (requests[ids[i]].holdExpiresAt == requests[ids[j]].holdExpiresAt ==>
                   requests[ids[i]].createdAt <= requests[ids[j]].createdAt)
      ensures |ids| < limit ==> forall id :: id in requests && Overdue(requests[id], now) ==> id in ids
    {
      hide Overdue, Before;
      ids := [];
      var rest := OverdueIds(requests, now);
      while rest != {} && |ids| < limit
        invariant rest <= OverdueIds(requests, now) && |ids| <= limit
        invariant forall id :: id in OverdueIds(requests, now) <==> id in rest || id in ids
        invariant forall id :: id in rest ==> id !in ids
        invariant SortedIds(requests, ids)
        invariant forall i, id :: 0 <= i < |ids| && id in rest ==> Before(requests[ids[i]], requests[id])
        decreases |rest|
      {
        var first := Earliest(rest);
        ids := ids + [first];
        rest := rest - {first};
      }
      forall i, j | 0 <= i < j < |ids|
        ensures requests[ids[i]].holdExpiresAt <= requests[ids[j]].holdExpiresAt
        ensures requests[ids[i]].holdExpiresAt == requests[ids[j]].holdExpiresAt ==>
                  requests[ids[i]].createdAt <= requests[ids[j]].createdAt
      {
        BeforeMeans(requests[ids[i]], requests[ids[j]]);
      }
    }

    method Expire(id: string, now: int) returns (expired: bool)
      modifies this
      ensures (Contents(), expired) == B.Expire(old(Contents()), id, now)
    {
      if id !in requests {
        return false;
      }
      var existing := requests[id];
      if !Expirable(existing.status) {
        return false;
      }
      if existing.convertedAt.Some? {
        return false;
      }
      if existing.conversionReservationExpiresAt.Some? && existing.conversionReservationExpiresAt.value > now {
        return false;
      }
      if existing.holdExpiresAt > now {
        return false;
      }
      requests := requests[id := ExpiredRow(existing, now)];
      if DropsHold(existing.status) && existing.holdBlockId.Some? {
        blocks := blocks - {existing.holdBlockId.value};
      }
      expired := true;
    }

    method ReserveForConversion(id: string, ownerId: string, reservationExpiresAt: int, now: int)
      returns (reserved: Reserved)
      modifies this`requests
      ensures (Contents(), reserved) == B.ReserveForConversion(old(Contents()), id, ownerId, reservationExpiresAt, now)
    {
      var count := 0;
      if id in requests && requests[id].ownerId == ownerId && requests[id].status == Paid &&
         requests[id].convertedAt.None? && ReservationOver(requests[id], now)
      {
        requests := requests[id := requests[id].(conversionReservedAt := Some(now),
                                                 conversionReservationExpiresAt := Some(reservationExpiresAt))];
        count := 1;
      }
      if count != 1 {
        return AlreadyReserved;
      }
      reserved := Granted(Reservation(now, reservationExpiresAt));
    }

    method ReleaseConversionReservation(id: string, ownerId: string, reservation: Reservation)
      modifies this`requests
      ensures Contents() == B.ReleaseConversion(old(Contents()), id, ownerId, reservation)
    {
      if id in requests && requests[id].ownerId == ownerId &&
         requests[id].conversionReservedAt == Some(reservation.reservedAt) &&
         requests[id].conversionReservationExpiresAt == Some(reservation.expiresAt)
      {
        requests := requests[id := requests[id].(conversionReservedAt := None, conversionReservationExpiresAt := None)];
      }
    }
  }
}
