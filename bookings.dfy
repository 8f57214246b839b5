/**
 * Booking requests and bookings (`booking_requests.py`, `bookings.py`): an
 * end user asks a lawyer for a consultation, the lawyer accepts or rejects
 * the request, and accepting creates (or updates) the booking linked to
 * the request. Bookings can also be created directly, at most one per
 * request, and their status updated.
 *
 * The database is an in-memory object holding its tables as maps from id
 * to record; ids are handed out in increasing order. The current date is a
 * parameter.
 */
module Bookings {
  import opened Wrappers
  import opened Text

  datatype User = User(fullName: string, role: string)

  datatype LawyerProfile = LawyerProfile(userId: int, specialization: string)

  datatype BookingRequest = BookingRequest(
    userId: int, lawyerId: int,
    preferredDate: Option<string>, preferredTime: Option<string>,
    notes: Option<string>, status: string)

  /** A booking. `date` and `time` are optional because the route tests
      them for None, although the columns are declared NOT NULL. */
  datatype Booking = Booking(
    userId: int, lawyerId: int, requestId: Option<int>,
    date: Option<string>, time: Option<string>,
    notes: Option<string>, status: string)

  datatype RequestCreate = RequestCreate(userId: int, lawyerId: int, preferredDate: Option<string>,
                                         preferredTime: Option<string>, notes: Option<string>)

  datatype BookingCreate = BookingCreate(userId: int, lawyerId: int, date: string, time: string,
                                         notes: Option<string>, requestId: Option<int>)

  /** A request as the status update returns it, with the id of its linked
      booking if any. */
  datatype RequestView = RequestView(request: BookingRequest, bookingId: Option<int>)

  const PENDING: string := "pending"
  const ACCEPTED: string := "accepted"
  const REJECTED: string := "rejected"
  const REQUEST_STATUSES: set<string> := {"pending", "accepted", "rejected"}
  const BOOKING_STATUSES: set<string> := {"pending", "accepted", "rejected", "completed", "cancelled"}
  const CITIZEN: string := "user"
  const DEFAULT_TIME: string := "09:00"

  const USER_NOT_FOUND: string := "User not found"
  const REQUESTER_NOT_CITIZEN: string := "Only end-users can create requests"
  const BOOKER_NOT_CITIZEN: string := "Only normal users can book lawyers"
  const LAWYER_NOT_FOUND: string := "Lawyer profile not found"
  const REQUEST_NOT_FOUND: string := "Booking request not found"
  const BAD_REQUEST_STATUS: string := "Unsupported request status"
  const REQUEST_MISMATCH: string := "Booking request does not match user and lawyer"
  const ALREADY_BOOKED: string := "Booking already exists for this request"
  const BOOKING_NOT_FOUND: string := "Booking not found"
  const BAD_BOOKING_STATUS: string := "Unsupported booking status"

  /** `value or fallback` for an optional string. */
  function OrElse(value: Option<string>, fallback: string): (r: string)
    ensures value.Some? && value.value != [] ==> r == value.value
    ensures value.None? || value.value == [] ==> r == fallback
  {
    if value.Some? && value.value != [] then value.value else fallback
  }

  /** No two bookings are linked to the same request (the unique column). */
  predicate UniqueLinks(bookings: map<int, Booking>) {
    forall a, b :: a in bookings && b in bookings && a != b && bookings[a].requestId.Some? ==>
      bookings[a].requestId != bookings[b].requestId
  }

  /** `request.booking`: the booking linked to a request, if any. */
  ghost function LinkedTo(bookings: map<int, Booking>, requestId: int): (linked: Option<int>)
    ensures linked.Some? ==> linked.value in bookings && bookings[linked.value].requestId == Some(requestId)
    ensures linked.None? ==> forall id :: id in bookings ==> bookings[id].requestId != Some(requestId)
  {
    if exists id :: id in bookings && bookings[id].requestId == Some(requestId) then
      var id :| id in bookings && bookings[id].requestId == Some(requestId); Some(id)
    else None
  }

  /** A request's link is the booking that names it, when links are unique. */
  lemma LinkedToUnique(bookings: map<int, Booking>, requestId: int, id: int)
    requires UniqueLinks(bookings)
    requires id in bookings && bookings[id].requestId == Some(requestId)
    ensures LinkedTo(bookings, requestId) == Some(id)
  {
  }

  /** The bookings after a request's status is set to `status`. Accepting
      creates the linked booking from the request, with today's date and
      09:00 where the request has no preference, or marks the existing one
      accepted and fills its missing date and time from the request. Any
      other status is copied to the linked booking, if there is one. */
  ghost function BookingsAfterStatus(bookings: map<int, Booking>, nextId: int, requestId: int,
                                     request: BookingRequest, status: string, today: string): map<int, Booking>
  {
    var linked := LinkedTo(bookings, requestId);
    if status == ACCEPTED then
      if linked.None? then
        bookings[nextId := Booking(request.userId, request.lawyerId, Some(requestId),
                                   Some(OrElse(request.preferredDate, today)),
                                   Some(OrElse(request.preferredTime, DEFAULT_TIME)),
                                   request.notes, ACCEPTED)]
      else
        var b := bookings[linked.value];
        var date := if b.date.None? && Truthy(request.preferredDate) then request.preferredDate else b.date;
        var time := if b.time.None? && Truthy(request.preferredTime) then request.preferredTime else b.time;
        bookings[linked.value := b.(status := ACCEPTED, date := date, time := time)]
    else if linked.Some? then
      bookings[linked.value := bookings[linked.value].(status := status)]
    else bookings
  }

  predicate Truthy(s: Option<string>) {
    s.Some? && s.value != []
  }

  /** Ids are positive and below the next id handed out. */
  predicate IdsBelow<T>(table: map<int, T>, nextId: int) {
    0 < nextId && forall id :: id in table ==> 0 < id < nextId
  }

  /** Requests are made by end users to existing lawyers and carry one of
      the three request statuses. */
  predicate RequestsSound(users: map<int, User>, lawyers: map<int, LawyerProfile>,
                          requests: map<int, BookingRequest>)
  {
    forall id :: id in requests ==>
      && requests[id].userId in users && users[requests[id].userId].role == CITIZEN
      && requests[id].lawyerId in lawyers
      && requests[id].status in REQUEST_STATUSES
  }

  /** Bookings are made for end users with existing lawyers and carry one
      of the five booking statuses. */
  predicate BookingsSound(users: map<int, User>, lawyers: map<int, LawyerProfile>,
                          bookings: map<int, Booking>)
  {
    forall id :: id in bookings ==>
      && bookings[id].userId in users && users[bookings[id].userId].role == CITIZEN
      && bookings[id].lawyerId in lawyers
      && bookings[id].status in BOOKING_STATUSES
  }

  /** Each request has at most one booking, and a linked booking is for
      the request's own user and lawyer. */
  predicate LinksSound(requests: map<int, BookingRequest>, bookings: map<int, Booking>) {
    && UniqueLinks(bookings)
    && (forall id :: id in bookings && bookings[id].requestId.Some? ==>
          var rid := bookings[id].requestId.value;
          && rid in requests
          && requests[rid].userId == bookings[id].userId
          && requests[rid].lawyerId == bookings[id].lawyerId)
  }

  /** The request after its status is set. */
  function WithStatus(requests: map<int, BookingRequest>, requestId: int, status: string): map<int, BookingRequest>
    requires requestId in requests
  {
    requests[requestId := requests[requestId].(status := status)]
  }

  /** Setting a request's status keeps the tables sound, creates a booking
      only when accepting a request that had none, and leaves every
      booking of another request as it was. */
  lemma StatusKeepsSound(users: map<int, User>, lawyers: map<int, LawyerProfile>,
                         requests: map<int, BookingRequest>, bookings: map<int, Booking>,
                         nextId: int, requestId: int, status: string, today: string)
    requires IdsBelow(bookings, nextId)
    requires RequestsSound(users, lawyers, requests) && BookingsSound(users, lawyers, bookings)
    requires LinksSound(requests, bookings)
    requires requestId in requests && status in REQUEST_STATUSES
    ensures var after := BookingsAfterStatus(bookings, nextId, requestId, requests[requestId], status, today);
      var requests' := WithStatus(requests, requestId, status);
      && RequestsSound(users, lawyers, requests')
      && BookingsSound(users, lawyers, after)
      && LinksSound(requests', after)
      && (after.Keys == bookings.Keys || (after.Keys == bookings.Keys + {nextId} && status == ACCEPTED
                                          && LinkedTo(bookings, requestId).None?))
      && (forall id :: id in bookings && bookings[id].requestId != Some(requestId) ==> after[id] == bookings[id])
  {
    var request := requests[requestId];
    var after := BookingsAfterStatus(bookings, nextId, requestId, request, status, today);
    var requests' := WithStatus(requests, requestId, status);
    var linked := LinkedTo(bookings, requestId);
    if status == ACCEPTED && linked.None? {
      AcceptNewKeepsLinks(requests, bookings, nextId, requestId, today);
    } else if linked.Some? {
      assert after.Keys == bookings.Keys;
      LinkedStatusKeepsLinks(requests, bookings, requestId, linked.value, after);
    }
  }

  /** Creating the linked booking on acceptance keeps links unique and
      agreeing with their requests. */
  lemma AcceptNewKeepsLinks(requests: map<int, BookingRequest>, bookings: map<int, Booking>,
                            nextId: int, requestId: int, today: string)
    requires IdsBelow(bookings, nextId) && LinksSound(requests, bookings)
    requires requestId in requests && LinkedTo(bookings, requestId).None?
    ensures var after := BookingsAfterStatus(bookings, nextId, requestId, requests[requestId], ACCEPTED, today);
      LinksSound(WithStatus(requests, requestId, ACCEPTED), after)
  {
  }

  /** Changing the linked booking's status, date or time keeps links
      unique and agreeing with their requests. */
  lemma LinkedStatusKeepsLinks(requests: map<int, BookingRequest>, bookings: map<int, Booking>,
                               requestId: int, linked: int, after: map<int, Booking>)
    requires LinksSound(requests, bookings) && requestId in requests
    requires linked in bookings && bookings[linked].requestId == Some(requestId)
    requires after.Keys == bookings.Keys
    requires forall id :: id in bookings ==>
      after[id].requestId == bookings[id].requestId && after[id].userId == bookings[id].userId
      && after[id].lawyerId == bookings[id].lawyerId
    ensures forall status :: LinksSound(WithStatus(requests, requestId, status), after)
  {
  }

  /** Accepting leaves the request with exactly one booking, marked
      accepted. A request without one gets a new booking for its own user
      and lawyer, on the preferred date or today and at the preferred time
      or 09:00; a request that has one keeps it, and its date and time are
      filled from the request only where they were missing. */
  lemma AcceptLinksOneBooking(bookings: map<int, Booking>, nextId: int, requestId: int,
                              request: BookingRequest, today: string)
    requires UniqueLinks(bookings) && IdsBelow(bookings, nextId)
    ensures var after := BookingsAfterStatus(bookings, nextId, requestId, request, ACCEPTED, today);
      var before := LinkedTo(bookings, requestId);
      var linked := LinkedTo(after, requestId);
      && UniqueLinks(after)
      && linked.Some? && after[linked.value].status == ACCEPTED
      && (before.None? ==>
            && after.Keys == bookings.Keys + {nextId} && nextId !in bookings && linked == Some(nextId)
            && after[nextId].userId == request.userId && after[nextId].lawyerId == request.lawyerId
            && after[nextId].notes == request.notes
            && after[nextId].date == Some(OrElse(request.preferredDate, today))
            && after[nextId].time == Some(OrElse(request.preferredTime, DEFAULT_TIME)))
      && (before.Some? ==>
            var b := bookings[before.value];
            && after.Keys == bookings.Keys && linked == before
            && after[linked.value].date == (if b.date.None? then (if Truthy(request.preferredDate) then request.preferredDate else None) else b.date)
            && after[linked.value].time == (if b.time.None? then (if Truthy(request.preferredTime) then request.preferredTime else None) else b.time))
  {
    var after := BookingsAfterStatus(bookings, nextId, requestId, request, ACCEPTED, today);
    var before := LinkedTo(bookings, requestId);
    if before.None? {
      assert nextId !in bookings;
      assert UniqueLinks(after);
      LinkedToUnique(after, requestId, nextId);
    } else {
      assert UniqueLinks(after);
      LinkedToUnique(after, requestId, before.value);
    }
  }

  /** Setting a request to pending or rejected creates no booking and
      copies the status to the linked booking, if there is one. */
  lemma OtherStatusCopies(bookings: map<int, Booking>, nextId: int, requestId: int,
                          request: BookingRequest, status: string, today: string)
    requires UniqueLinks(bookings) && status != ACCEPTED
    ensures var after := BookingsAfterStatus(bookings, nextId, requestId, request, status, today);
      var linked := LinkedTo(bookings, requestId);
      && after.Keys == bookings.Keys
      && LinkedTo(after, requestId) == linked
      && (linked.Some? ==> after[linked.value] == bookings[linked.value].(status := status))
  {
    var after := BookingsAfterStatus(bookings, nextId, requestId, request, status, today);
    var linked := LinkedTo(bookings, requestId);
    if linked.Some? {
      assert UniqueLinks(after);
      LinkedToUnique(after, requestId, linked.value);
    }
  }

  /** The booking a request links to, found among the bookings. */
  method FindLinkIn(bookings: map<int, Booking>, requestId: int) returns (linked: Option<int>)
    requires UniqueLinks(bookings)
    ensures linked == LinkedTo(bookings, requestId)
  {
    if exists id :: id in bookings && bookings[id].requestId == Some(requestId) {
      var id :| id in bookings && bookings[id].requestId == Some(requestId);
      LinkedToUnique(bookings, requestId, id);
      linked := Some(id);
    } else {
      linked := None;
    }
  }

  /** The booking part of `update_request_status`: whether a booking was
      created, and the bookings afterwards. */
  method StatusBookings(bookings: map<int, Booking>, nextId: int, requestId: int,
                        request: BookingRequest, status: string, today: string)
    returns (after: map<int, Booking>, created: bool)
    requires UniqueLinks(bookings)
    ensures after == BookingsAfterStatus(bookings, nextId, requestId, request, status, today)
    ensures created <==> status == ACCEPTED && LinkedTo(bookings, requestId).None?
  {
    var linked := FindLinkIn(bookings, requestId);
    created := false;
    if status == ACCEPTED {
      if linked.None? {
        after := bookings[nextId := Booking(request.userId, request.lawyerId, Some(requestId),
                                            Some(OrElse(request.preferredDate, today)),
                                            Some(OrElse(request.preferredTime, DEFAULT_TIME)),
                                            request.notes, ACCEPTED)];
        created := true;
      } else {
        var b := bookings[linked.value].(status := ACCEPTED);
        if b.date.None? && Truthy(request.preferredDate) {
          b := b.(date := request.preferredDate);
        }
        if b.time.None? && Truthy(request.preferredTime) {
          b := b.(time := request.preferredTime);
        }
        after := bookings[linked.value := b];
      }
    } else if linked.Some? {
      after := bookings[linked.value := bookings[linked.value].(status := status)];
    } else {
      after := bookings;
    }
  }

  /** The database of the booking routes. */
  class BookingDb {
    var users: map<int, User>
    var lawyers: map<int, LawyerProfile>
    var requests: map<int, BookingRequest>
    var bookings: map<int, Booking>
    var nextRequestId: int
    var nextBookingId: int

    predicate Valid()
      reads this
    {
      && IdsBelow(requests, nextRequestId) && IdsBelow(bookings, nextBookingId)
      && RequestsSound(users, lawyers, requests) && BookingsSound(users, lawyers, bookings)
      && LinksSound(requests, bookings)
    }

    /** A database with the given users and lawyer profiles and no requests
        or bookings yet. */
    constructor(users: map<int, User>, lawyers: map<int, LawyerProfile>)
      ensures Valid()
      ensures this.users == users && this.lawyers == lawyers
      ensures requests == map[] && bookings == map[]
    {
      this.users := users;
      this.lawyers := lawyers;
      requests := map[];
      bookings := map[];
      nextRequestId := 1;
      nextBookingId := 1;
    }

    /** The error the user check raises, if any. */
    function UserError(userId: int, notCitizen: string): Option<HttpError>
      reads this
    {
      if userId !in users then Some(HttpError(404, USER_NOT_FOUND))
      else if users[userId].role != CITIZEN then Some(HttpError(400, notCitizen))
      else None
    }

    /** `_ensure_user_is_citizen` and `_ensure_lawyer_profile`, in that order. */
    function PartiesError(userId: int, lawyerId: int, notCitizen: string): (e: Option<HttpError>)
      reads this
      ensures e.None? <==> userId in users && users[userId].role == CITIZEN && lawyerId in lawyers
    {
      if UserError(userId, notCitizen).Some? then UserError(userId, notCitizen)
      else if lawyerId !in lawyers then Some(HttpError(404, LAWYER_NOT_FOUND))
      else None
    }

    /** `create_booking_request`: a pending request of an end user to an
        existing lawyer. */
    method CreateBookingRequest(payload: RequestCreate) returns (r: Result<int, HttpError>)
      requires Valid()
      modifies this
      ensures Valid()
      ensures r.Err? <==> old(PartiesError(payload.userId, payload.lawyerId, REQUESTER_NOT_CITIZEN)).Some?
      ensures r.Err? ==> r.error == old(PartiesError(payload.userId, payload.lawyerId, REQUESTER_NOT_CITIZEN)).value
                         && unchanged(this)
      ensures r.Ok? ==>
        && r.value == old(nextRequestId) && r.value !in old(requests)
        && requests == old(requests)[r.value := BookingRequest(payload.userId, payload.lawyerId,
             payload.preferredDate, payload.preferredTime, payload.notes, PENDING)]
        && nextRequestId == old(nextRequestId) + 1
        && bookings == old(bookings) && users == old(users) && lawyers == old(lawyers)
        && nextBookingId == old(nextBookingId)
    {
      var e := PartiesError(payload.userId, payload.lawyerId, REQUESTER_NOT_CITIZEN);
      if e.Some? {
        return Err(e.value);
      }
      var id := nextRequestId;
      requests := requests[id := BookingRequest(payload.userId, payload.lawyerId,
                                                payload.preferredDate, payload.preferredTime,
                                                payload.notes, PENDING)];
      nextRequestId := nextRequestId + 1;
      r := Ok(id);
    }

    /** The booking linked to a request. */
    method FindLinked(requestId: int) returns (linked: Option<int>)
      requires UniqueLinks(bookings)
      ensures linked == LinkedTo(bookings, requestId)
    {
      linked := FindLinkIn(bookings, requestId);
    }

    /** `update_request_status`: the status is lower-cased and checked, set
        on the request, and carried over to the linked booking, which
        accepting creates when there is none. */
    method UpdateRequestStatus(requestId: int, status: string, today: string) returns (r: Result<RequestView, HttpError>)
      requires Valid()
      modifies this
      ensures Valid()
      ensures requestId !in old(requests) ==> r == Err(HttpError(404, REQUEST_NOT_FOUND)) && unchanged(this)
      ensures requestId in old(requests) && Lower(status) !in REQUEST_STATUSES ==>
        r == Err(HttpError(400, BAD_REQUEST_STATUS)) && unchanged(this)
      ensures requestId in old(requests) && Lower(status) in REQUEST_STATUSES ==>
        var request := old(requests)[requestId].(status := Lower(status));
        && requests == old(requests)[requestId := request]
        && bookings == BookingsAfterStatus(old(bookings), old(nextBookingId), requestId,
                                           old(requests)[requestId], Lower(status), today)
        && r == Ok(RequestView(request, LinkedTo(bookings, requestId)))
        && nextBookingId == old(nextBookingId) +
             (if Lower(status) == ACCEPTED && LinkedTo(old(bookings), requestId).None? then 1 else 0)
        && (forall id :: id in old(bookings) && old(bookings)[id].requestId != Some(requestId) ==>
              bookings[id] == old(bookings)[id])
        && users == old(users) && lawyers == old(lawyers) && nextRequestId == old(nextRequestId)
    {
      if requestId !in requests {
        return Err(HttpError(404, REQUEST_NOT_FOUND));
      }
      var normalized := Lower(status);
      if normalized !in REQUEST_STATUSES {
        return Err(HttpError(400, BAD_REQUEST_STATUS));
      }
      StatusKeepsSound(users, lawyers, requests, bookings, nextBookingId, requestId, normalized, today);
      var after, created := StatusBookings(bookings, nextBookingId, requestId, requests[requestId], normalized, today);
      requests := WithStatus(requests, requestId, normalized);
      bookings := after;
      if created {
        nextBookingId := nextBookingId + 1;
      }
      var linked := FindLinked(requestId);
      r := Ok(RequestView(requests[requestId], linked));
    }

    /** The error `create_booking` raises, if any, in the order it checks. */
    function CreateBookingError(payload: BookingCreate): Option<HttpError>
      reads this
    {
      var parties := PartiesError(payload.userId, payload.lawyerId, BOOKER_NOT_CITIZEN);
      if parties.Some? then parties
      else if payload.requestId.None? then None
      else
        var rid := payload.requestId.value;
        if rid !in requests then Some(HttpError(404, REQUEST_NOT_FOUND))
        else if requests[rid].userId != payload.userId || requests[rid].lawyerId != payload.lawyerId then
          Some(HttpError(400, REQUEST_MISMATCH))
        else if exists id :: id in bookings && bookings[id].requestId == Some(rid) then
          Some(HttpError(400, ALREADY_BOOKED))
        else None
    }

    /** `create_booking`: a pending booking of an end user with an existing
        lawyer, optionally for a request of the same user and lawyer that
        has no booking yet. */
    method CreateBooking(payload: BookingCreate) returns (r: Result<int, HttpError>)
      requires Valid()
      modifies this
      ensures Valid()
      ensures r.Err? <==> old(CreateBookingError(payload)).Some?
      ensures r.Err? ==> r.error == old(CreateBookingError(payload)).value && unchanged(this)
      ensures r.Ok? ==>
        && r.value == old(nextBookingId) && r.value !in old(bookings)
        && bookings == old(bookings)[r.value := Booking(payload.userId, payload.lawyerId, payload.requestId,
             Some(payload.date), Some(payload.time), payload.notes, PENDING)]
        && nextBookingId == old(nextBookingId) + 1
        && requests == old(requests) && users == old(users) && lawyers == old(lawyers)
        && nextRequestId == old(nextRequestId)
    {
      var e := CreateBookingError(payload);
      if e.Some? {
        return Err(e.value);
      }
      var id := nextBookingId;
      bookings := bookings[id := Booking(payload.userId, payload.lawyerId, payload.requestId,
                                         Some(payload.date), Some(payload.time), payload.notes, PENDING)];
      nextBookingId := nextBookingId + 1;
      r := Ok(id);
    }

    /** `update_booking_status`: only the status of the booking changes, to
        the lower-cased value when it is one of the five booking statuses. */
    method UpdateBookingStatus(bookingId: int, status: string) returns (r: Result<Booking, HttpError>)
      requires Valid()
      modifies this
      ensures Valid()
      ensures bookingId !in old(bookings) ==> r == Err(HttpError(404, BOOKING_NOT_FOUND)) && unchanged(this)
      ensures bookingId in old(bookings) && Lower(status) !in BOOKING_STATUSES ==>
        r == Err(HttpError(400, BAD_BOOKING_STATUS)) && unchanged(this)
      ensures bookingId in old(bookings) && Lower(status) in BOOKING_STATUSES ==>
        && bookings == old(bookings)[bookingId := old(bookings)[bookingId].(status := Lower(status))]
        && r == Ok(bookings[bookingId])
        && requests == old(requests) && users == old(users) && lawyers == old(lawyers)
        && nextRequestId == old(nextRequestId) && nextBookingId == old(nextBookingId)
    {
      if bookingId !in bookings {
        return Err(HttpError(404, BOOKING_NOT_FOUND));
      }
      var normalized := Lower(status);
      if normalized !in BOOKING_STATUSES {
        return Err(HttpError(400, BAD_BOOKING_STATUS));
      }
      bookings := bookings[bookingId := bookings[bookingId].(status := normalized)];
      r := Ok(bookings[bookingId]);
    }
  }
}
