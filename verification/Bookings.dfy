/** The booking-request table and the availability blocks: what each repository operation does to
    them. Every operation is one transaction, at one reading of the clock. */
module Bookings {

  datatype Option<+T> = None | Some(value: T)

  datatype Status =
    | Pending | Approved | AwaitingPayment | PaymentProcessing | Paid | PaymentFailed
    | Declined | Expired | Cancelled | Refunded

  datatype Source = Owner | BookingHold | Renting

  datatype Block = Block(postingId: string, startAt: int, endAt: int, source: Source)

  /** What the renter may still change while the request is pending. */
  datatype Terms = Terms(
    startAt: int, endAt: int, durationDays: int, guestCount: int,
    contactName: string, contactEmail: string, contactPhoneNumber: Option<string>, note: Option<string>,
    pricingCurrency: string, pricingSnapshot: string, dailyPriceAmount: real, estimatedTotal: real)

  datatype Request = Request(
    postingId: string, renterId: string, ownerId: string, status: Status, terms: Terms, createdAt: int,
    holdExpiresAt: int, holdBlockId: Option<string>, decisionNote: Option<string>,
    approvedAt: Option<int>, paymentRequiredAt: Option<int>, paymentFailedAt: Option<int>,
    declinedAt: Option<int>, expiredAt: Option<int>, convertedAt: Option<int>,
    conversionReservedAt: Option<int>, conversionReservationExpiresAt: Option<int>)

  datatype Draft = Draft(postingId: string, renterId: string, ownerId: string, terms: Terms, holdExpiresAt: int)

  datatype Tables = Tables(requests: map<string, Request>, blocks: map<string, Block>)

  // ----- the cap on active requests -----

  predicate ActiveStatus(s: Status) {
    s.Pending? || s.AwaitingPayment? || s.PaymentProcessing? || s.PaymentFailed? || s.Paid?
  }

  predicate Active(r: Request, postingId: string, renterId: string) {
    r.postingId == postingId && r.renterId == renterId && ActiveStatus(r.status) && r.convertedAt.None?
  }

  function ActiveIds(requests: map<string, Request>, postingId: string, renterId: string): set<string> {
    set id | id in requests && Active(requests[id], postingId, renterId)
  }

  function NewRequest(d: Draft, now: int): Request {
    Request(d.postingId, d.renterId, d.ownerId, Pending, d.terms, now, d.holdExpiresAt, None, None,
            None, None, None, None, None, None, None, None)
  }

  function CreateIfWithinLimit(t: Tables, id: string, d: Draft, limit: nat, now: int): (Tables, Option<Request>) {
    if |ActiveIds(t.requests, d.postingId, d.renterId)| >= limit then (t, None)
    else
      var r := NewRequest(d, now);
      (t.(requests := t.requests[id := r]), Some(r))
  }

  // ----- decisions on a pending request -----

  function Put(t: Tables, id: string, r: Request): Tables {
    t.(requests := t.requests[id := r])
  }

  predicate Open(r: Request, now: int) {
    r.status.Pending? && now < r.holdExpiresAt
  }

  function UpdatePending(t: Tables, id: string, renterId: string, terms: Terms, now: int): (Tables, Option<Request>) {
    if id in t.requests && t.requests[id].renterId == renterId && Open(t.requests[id], now) then
      var r := t.requests[id].(terms := terms);
      (Put(t, id, r), Some(r))
    else (t, None)
  }

  predicate Overlaps(b: Block, postingId: string, startAt: int, endAt: int) {
    b.postingId == postingId && b.startAt < endAt && startAt < b.endAt
  }

  /** No request holds the block. */
  predicate Unheld(requests: map<string, Request>, blockId: string) {
    forall id :: id in requests ==> requests[id].holdBlockId != Some(blockId)
  }

  /** A paid, unconverted request other than `except` holds the block. */
  predicate HeldByPaid(requests: map<string, Request>, blockId: string, except: string) {
    exists id :: id in requests && id != except && requests[id].holdBlockId == Some(blockId) &&
      requests[id].status.Paid? && requests[id].convertedAt.None?
  }

  predicate BlocksDates(t: Tables, blockId: string, postingId: string, startAt: int, endAt: int, except: string) {
    && blockId in t.blocks
    && Overlaps(t.blocks[blockId], postingId, startAt, endAt)
    && (Unheld(t.requests, blockId) || HeldByPaid(t.requests, blockId, except))
  }

  predicate HasBlockingOverlap(t: Tables, postingId: string, startAt: int, endAt: int, except: string) {
    exists b :: b in t.blocks && BlocksDates(t, b, postingId, startAt, endAt, except)
  }

  datatype Approval = Decided(request: Request) | NoSuchRequest | DatesTaken

  function ApprovedRow(r: Request, note: Option<string>, holdExpiresAt: int, now: int): Request {
    r.(status := AwaitingPayment, paymentRequiredAt := Some(now), paymentFailedAt := None, approvedAt := Some(now),
       decisionNote := note, holdExpiresAt := holdExpiresAt, holdBlockId := None)
  }

  function Approve(t: Tables, id: string, ownerId: string, note: Option<string>, holdExpiresAt: int, now: int):
    (Tables, Approval)
  {
    if !(id in t.requests && t.requests[id].ownerId == ownerId && Open(t.requests[id], now)) then (t, NoSuchRequest)
    else
      var r := t.requests[id];
      if HasBlockingOverlap(t, r.postingId, r.terms.startAt, r.terms.endAt, id) then (t, DatesTaken)
      else
        var r' := ApprovedRow(r, note, holdExpiresAt, now);
        (Put(t, id, r'), Decided(r'))
  }

  function Decline(t: Tables, id: string, ownerId: string, note: Option<string>, now: int): (Tables, Option<Request>) {
    if id in t.requests && t.requests[id].ownerId == ownerId && Open(t.requests[id], now) then
      var r := t.requests[id].(status := Declined, declinedAt := Some(now), decisionNote := note);
      (Put(t, id, r), Some(r))
    else (t, None)
  }

  // ----- expiry -----

  predicate Expirable(s: Status) {
    s.Pending? || s.AwaitingPayment? || s.PaymentProcessing? || s.PaymentFailed?
  }

  predicate ReservationOver(r: Request, now: int) {
    r.conversionReservationExpiresAt.None? || r.conversionReservationExpiresAt.value <= now
  }

  predicate Overdue(r: Request, now: int) {
    Expirable(r.status) && r.convertedAt.None? && ReservationOver(r, now) && r.holdExpiresAt <= now
  }

  /** Statuses whose hold block goes with the request when it expires. */
  predicate DropsHold(s: Status) {
    s.AwaitingPayment? || s.PaymentProcessing? || s.PaymentFailed? || s.Approved?
  }

  function ExpiredRow(r: Request, now: int): Request {
    r.(status := Expired, expiredAt := Some(now), holdBlockId := None, conversionReservedAt := None,
       conversionReservationExpiresAt := None)
  }

  function Expire(t: Tables, id: string, now: int): (Tables, bool) {
    if !(id in t.requests && Overdue(t.requests[id], now)) then (t, false)
    else
      var r := t.requests[id];
      var t' := Put(t, id, ExpiredRow(r, now));
      var drops := DropsHold(r.status) && r.holdBlockId.Some?;
      (if drops then t'.(blocks := t'.blocks - {r.holdBlockId.value}) else t', true)
  }

  // ----- the lease taken for a conversion -----

  datatype Reservation = Reservation(reservedAt: int, expiresAt: int)

  datatype Reserved = Granted(reservation: Reservation) | AlreadyReserved

  function ReserveForConversion(t: Tables, id: string, ownerId: string, expiresAt: int, now: int): (Tables, Reserved) {
    if id in t.requests && t.requests[id].ownerId == ownerId && t.requests[id].status.Paid? &&
       t.requests[id].convertedAt.None? && ReservationOver(t.requests[id], now)
    then
      var r := t.requests[id].(conversionReservedAt := Some(now), conversionReservationExpiresAt := Some(expiresAt));
      (Put(t, id, r), Granted(Reservation(now, expiresAt)))
    else (t, AlreadyReserved)
  }

  predicate HasReservation(r: Request, v: Reservation) {
    r.conversionReservedAt == Some(v.reservedAt) && r.conversionReservationExpiresAt == Some(v.expiresAt)
  }

  function ReleaseConversion(t: Tables, id: string, ownerId: string, v: Reservation): Tables {
    if id in t.requests && t.requests[id].ownerId == ownerId && HasReservation(t.requests[id], v) then
      Put(t, id, t.requests[id].(conversionReservedAt := None, conversionReservationExpiresAt := None))
    else t
  }
}
