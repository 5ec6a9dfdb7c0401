/**
 * The booking endpoint `POST /api/book` (backend/src/index.ts:27-62).
 *
 * The handler validates the body (400 on failure), looks for an existing
 * booking on the same vehicle whose dates overlap the requested ones by an
 * inclusive test (409 if there is one), and otherwise appends a new booking
 * (201). The bookings table is a field of `BookingTable`; the handler is its
 * `Book` method, specified by the function `Respond`.
 */
module Bookings {
  import opened Wrappers
  import opened Validation

  /** A stored booking; dates are day numbers, the id is assigned by the store. */
  datatype Booking = Booking(
    id: nat,
    vehicleId: string,
    startDate: int,
    endDate: int,
    firstName: string,
    lastName: string)

  /** What the handler answers: 201 with the booking, 400 with the schema issues, or 409 with a message. */
  datatype Response =
    | Created(booking: Booking)
    | BadRequest(issues: seq<Issue>)
    | AlreadyBooked(message: string)

  const AlreadyBookedMessage: string := "Vehicle already booked for this range"

  function Status(r: Response): int {
    match r
    case Created(_) => 201
    case BadRequest(_) => 400
    case AlreadyBooked(_) => 409
  }

  // ---- The overlap rule ----

  /** The lookup's date test: the stored range [s1, e1] starts no later than e2 and ends no earlier than s2. */
  predicate RangesOverlap(s1: int, e1: int, s2: int, e2: int) {
    s1 <= e2 && e1 >= s2
  }

  /** A stored booking blocks a request for `vehicleId` from `startDate` to `endDate`. */
  predicate Conflicts(b: Booking, vehicleId: string, startDate: int, endDate: int) {
    b.vehicleId == vehicleId && RangesOverlap(b.startDate, b.endDate, startDate, endDate)
  }

  /** The overlap test gives the same answer with the two ranges exchanged. */
  lemma OverlapSymmetric(s1: int, e1: int, s2: int, e2: int)
    ensures RangesOverlap(s1, e1, s2, e2) == RangesOverlap(s2, e2, s1, e1)
  {
  }

  /** The test is inclusive: ranges sharing one boundary day overlap, ranges a day apart do not. */
  lemma InclusiveBoundary(b: Booking)
    requires b.startDate == 10 && b.endDate == 12
    ensures Conflicts(b, b.vehicleId, 12, 14)
    ensures !Conflicts(b, b.vehicleId, 13, 15)
  {
  }

  /** No two distinct bookings of the table on the same vehicle pass the overlap test. */
  ghost predicate NoOverlap(table: seq<Booking>) {
    forall i, j :: 0 <= i < |table| && 0 <= j < |table| && i != j ==>
      !Conflicts(table[i], table[j].vehicleId, table[j].startDate, table[j].endDate)
  }

  /**
   * The lookup `booking.findFirst` with the vehicle and date filter: some
   * booking that conflicts with the request, if there is one. The store gives
   * no order; this one answers with the earliest in the table.
   */
  function FindConflict(table: seq<Booking>, vehicleId: string, startDate: int, endDate: int): (r: Option<Booking>)
    ensures r.Some? ==> r.value in table && Conflicts(r.value, vehicleId, startDate, endDate)
    ensures r.None? <==> forall b :: b in table ==> !Conflicts(b, vehicleId, startDate, endDate)
  {
    if table == [] then None
    else if Conflicts(table[0], vehicleId, startDate, endDate) then Some(table[0])
    else FindConflict(table[1..], vehicleId, startDate, endDate)
  }

  /** The bookings of one vehicle, in table order. */
  function OnVehicle(table: seq<Booking>, vehicleId: string): (r: seq<Booking>)
    ensures forall b :: b in r <==> b in table && b.vehicleId == vehicleId
  {
    if table == [] then []
    else if table[0].vehicleId == vehicleId then [table[0]] + OnVehicle(table[1..], vehicleId)
    else OnVehicle(table[1..], vehicleId)
  }

  /** Bookings on other vehicles take no part in the lookup: it finds the same booking among the vehicle's own. */
  lemma {:induction false} OtherVehiclesIgnored(table: seq<Booking>, vehicleId: string, startDate: int, endDate: int)
    ensures FindConflict(table, vehicleId, startDate, endDate) ==
            FindConflict(OnVehicle(table, vehicleId), vehicleId, startDate, endDate)
  {
    if table != [] {
      OtherVehiclesIgnored(table[1..], vehicleId, startDate, endDate);
      if table[0].vehicleId == vehicleId {
        assert ([table[0]] + OnVehicle(table[1..], vehicleId))[1..] == OnVehicle(table[1..], vehicleId);
      }
    }
  }

  /** Appending a booking that the lookup let through keeps the table free of overlaps. */
  lemma AppendKeepsNoOverlap(table: seq<Booking>, b: Booking)
    requires NoOverlap(table)
    requires FindConflict(table, b.vehicleId, b.startDate, b.endDate).None?
    ensures NoOverlap(table + [b])
  {
    var t := table + [b];
    forall i, j | 0 <= i < |t| && 0 <= j < |t| && i != j
      ensures !Conflicts(t[i], t[j].vehicleId, t[j].startDate, t[j].endDate)
    {
      if i == |table| {
        assert table[j] in table;
      } else if j == |table| {
        assert table[i] in table;
      }
    }
  }

  // ---- The handler ----

  /**
   * The answer of `POST /api/book` for `body`, given the table of stored
   * bookings and the id the store assigns next. Dates are converted with the
   * same parser the schema used.
   */
  function Respond(table: seq<Booking>, nextId: nat, rt: Runtime, body: BookingBody): (r: Response)
    ensures r.BadRequest? <==> !Accepts(rt, body)
    ensures r.BadRequest? ==> r.issues != []
    ensures r.BadRequest? ==> forall name: FieldName ::
      (exists i :: 0 <= i < |r.issues| && r.issues[i].path == name) <==> !FieldValid(rt, body, name)
    ensures r.AlreadyBooked? <==>
      Accepts(rt, body) &&
      exists i :: 0 <= i < |table| &&
        Conflicts(table[i], body.vehicleId.text,
                  rt.parseDate(body.startDate.text).value, rt.parseDate(body.endDate.text).value)
    ensures r.AlreadyBooked? ==> r.message == AlreadyBookedMessage
    ensures r.Created? ==>
      Accepts(rt, body) &&
      r.booking == Booking(nextId, body.vehicleId.text,
                           rt.parseDate(body.startDate.text).value, rt.parseDate(body.endDate.text).value,
                           body.firstName.text, body.lastName.text)
  {
    match SafeParse(rt, body)
    case Err(issues) => BadRequest(issues)
    case Ok(req) =>
      var startDate := rt.parseDate(req.startDate).value;
      var endDate := rt.parseDate(req.endDate).value;
      if FindConflict(table, req.vehicleId, startDate, endDate).Some? then
        AlreadyBooked(AlreadyBookedMessage)
      else
        Created(Booking(nextId, req.vehicleId, startDate, endDate, req.firstName, req.lastName))
  }

  /** A booking the handler creates never overlaps one already stored on its vehicle. */
  lemma CreatedKeepsNoOverlap(table: seq<Booking>, nextId: nat, rt: Runtime, body: BookingBody)
    requires NoOverlap(table)
    requires Respond(table, nextId, rt, body).Created?
    ensures NoOverlap(table + [Respond(table, nextId, rt, body).booking])
  {
    AppendKeepsNoOverlap(table, Respond(table, nextId, rt, body).booking);
  }

  /** Bookings of other vehicles never change the answer. */
  lemma OtherVehiclesNeverReject(table: seq<Booking>, nextId: nat, rt: Runtime, body: BookingBody)
    requires body.vehicleId.Str?
    ensures Respond(table, nextId, rt, body) == Respond(OnVehicle(table, body.vehicleId.text), nextId, rt, body)
  {
  }

  /** Sending an accepted request again, with start no later than end, is refused with 409. */
  lemma RepeatIsRejected(table: seq<Booking>, nextId: nat, rt: Runtime, body: BookingBody)
    requires Respond(table, nextId, rt, body).Created?
    requires Respond(table, nextId, rt, body).booking.startDate <= Respond(table, nextId, rt, body).booking.endDate
    ensures Respond(table + [Respond(table, nextId, rt, body).booking], nextId + 1, rt, body) ==
            AlreadyBooked(AlreadyBookedMessage)
  {
    var b := Respond(table, nextId, rt, body).booking;
    var t := table + [b];
    assert t[|table|] == b;
  }

  /**
   * With the end before the start, a booking does not pass the overlap test
   * against itself, so the same request is accepted again, with the next id.
   */
  lemma ReversedRepeatIsAccepted(table: seq<Booking>, nextId: nat, rt: Runtime, body: BookingBody)
    requires Respond(table, nextId, rt, body).Created?
    requires Respond(table, nextId, rt, body).booking.startDate > Respond(table, nextId, rt, body).booking.endDate
    ensures Respond(table + [Respond(table, nextId, rt, body).booking], nextId + 1, rt, body) ==
            Created(Respond(table, nextId, rt, body).booking.(id := nextId + 1))
  {
  }

  /** The table after a sequence of requests answered one after the other. */
  function Run(table: seq<Booking>, nextId: nat, rt: Runtime, bodies: seq<BookingBody>): (t: seq<Booking>)
    ensures table <= t
    ensures |t| <= |table| + |bodies|
    decreases |bodies|
  {
    if bodies == [] then table
    else
      var r := Respond(table, nextId, rt, bodies[0]);
      if r.Created? then Run(table + [r.booking], nextId + 1, rt, bodies[1..])
      else Run(table, nextId, rt, bodies[1..])
  }

  /** However many requests are answered in sequence, no two stored bookings on a vehicle overlap. */
  lemma {:induction false} RunKeepsNoOverlap(table: seq<Booking>, nextId: nat, rt: Runtime, bodies: seq<BookingBody>)
    requires NoOverlap(table)
    ensures NoOverlap(Run(table, nextId, rt, bodies))
    decreases |bodies|
  {
    if bodies != [] {
      var r := Respond(table, nextId, rt, bodies[0]);
      if r.Created? {
        CreatedKeepsNoOverlap(table, nextId, rt, bodies[0]);
        RunKeepsNoOverlap(table + [r.booking], nextId + 1, rt, bodies[1..]);
      } else {
        RunKeepsNoOverlap(table, nextId, rt, bodies[1..]);
      }
    }
  }

  /** The bookings table of the store, updated in place by the booking endpoint. */
  class BookingTable {
    var bookings: seq<Booking>
    var nextId: nat

    /** No overlaps on a vehicle; ids strictly increase and stay below the next one handed out. */
    ghost predicate Valid()
      reads this
    {
      NoOverlap(bookings) &&
      (forall i :: 0 <= i < |bookings| ==> bookings[i].id < nextId) &&
      (forall i, j :: 0 <= i < j < |bookings| ==> bookings[i].id < bookings[j].id)
    }

    constructor ()
      ensures Valid() && bookings == [] && nextId == 0
    {
      bookings := [];
      nextId := 0;
    }

    /**
     * `POST /api/book`: validate, look up a conflicting booking, and either
     * refuse or append exactly one new booking with a fresh id.
     */
    method Book(rt: Runtime, body: BookingBody) returns (r: Response)
      requires Valid()
      modifies this
      ensures Valid()
      ensures r == Respond(old(bookings), old(nextId), rt, body)
      ensures r.Created? ==> bookings == old(bookings) + [r.booking] && nextId == old(nextId) + 1
      ensures r.Created? ==> forall b :: b in old(bookings) ==> b.id != r.booking.id
      ensures !r.Created? ==> bookings == old(bookings) && nextId == old(nextId)
    {
      var parsed := SafeParse(rt, body);
      if parsed.Err? {
        return BadRequest(parsed.error);
      }
      var req := parsed.value;
      var startDate := rt.parseDate(req.startDate).value;
      var endDate := rt.parseDate(req.endDate).value;
      var overlapping := FindConflict(bookings, req.vehicleId, startDate, endDate);
      if overlapping.Some? {
        return AlreadyBooked(AlreadyBookedMessage);
      }
      var booking := Booking(nextId, req.vehicleId, startDate, endDate, req.firstName, req.lastName);
      AppendKeepsNoOverlap(bookings, booking);
      bookings := bookings + [booking];
      nextId := nextId + 1;
      r := Created(booking);
    }
  }
}
