/** The booking service of the backend: the three route handlers over the
    `bookings` table.

    The table is kept in memory as its rows in insertion order together with the
    next AUTO_INCREMENT id. Times of day are minutes since midnight, dates are
    day ordinals and the current instant `now` (milliseconds) is a parameter.
    The conflict query's WHERE clause is the predicate `SqlConflict`. */
module BookingService {
  import opened Clock

  const PastMessage := "Cannot book an appointment in the past."
  const RangeMessage := "Start time must be before end time."
  const ConflictMessage := "This time is not available. Please choose another time."
  const InsertedMessage := "Booking inserted successfully"
  const NotFoundMessage := "Booking not found"

  /** The body of a POST /api/bookings request. */
  datatype BookingRequest = BookingRequest(
    service: string, doctorName: string, startTime: int, endTime: int, date: int)

  /** A row of the `bookings` table. */
  datatype Booking = Booking(
    id: nat, service: string, doctorName: string, startTime: int, endTime: int, date: int)

  /** The status code of a reply and its text (for a 409, the JSON `message`). */
  datatype Reply = Reply(status: int, message: string)

  /** The reply of GET /api/bookings/:id. */
  datatype GetReply = Found(booking: Booking) | NotFound(message: string)

  /** The `bookings` table: its rows in insertion order and the next id to assign. */
  datatype Table = Table(rows: seq<Booking>, nextId: nat)

  /** The row an INSERT of request `r` adds when the table assigns it `id`. */
  function RowOf(id: nat, r: BookingRequest): Booking {
    Booking(id, r.service, r.doctorName, r.startTime, r.endTime, r.date)
  }

  /** The five fields of a row, as a request carrying them would. */
  function RequestOf(b: Booking): BookingRequest {
    BookingRequest(b.service, b.doctorName, b.startTime, b.endTime, b.date)
  }

  /** The ids the table hands out are unique: they increase in insertion order
      and stay below the next id to assign. */
  predicate ValidTable(t: Table) {
    && (forall i, j :: 0 <= i < j < |t.rows| ==> t.rows[i].id < t.rows[j].id)
    && (forall i :: 0 <= i < |t.rows| ==> t.rows[i].id < t.nextId)
  }

  /** Half-open intervals `[s1, e1)` and `[s2, e2)` share a minute. */
  predicate Overlap(s1: int, e1: int, s2: int, e2: int) {
    s1 < e2 && s2 < e1
  }

  /** The same doctor on the same day. */
  predicate SameSlot(b: Booking, r: BookingRequest) {
    b.doctorName == r.doctorName && b.date == r.date
  }

  /** The WHERE clause of the conflict query, for existing row `ex` and request `r`.
      For a request whose start is not after its end (every request that reaches
      the query) it is exactly half-open overlap on the same doctor and date: its
      second disjunct adds nothing. */
  predicate SqlConflict(ex: Booking, r: BookingRequest)
    ensures r.startTime <= r.endTime ==>
      (SqlConflict(ex, r) <==> SameSlot(ex, r) && Overlap(ex.startTime, ex.endTime, r.startTime, r.endTime))
    ensures !SameSlot(ex, r) ==> !SqlConflict(ex, r)
  {
    && ex.doctorName == r.doctorName
    && ex.date == r.date
    && ((ex.startTime < r.endTime && ex.endTime > r.startTime)
        || (ex.startTime < r.startTime && ex.endTime > r.endTime))
  }

  /** The conflict query: the rows of `rows` the WHERE clause selects, in table order. */
  function ConflictingRows(rows: seq<Booking>, r: BookingRequest): (hits: seq<Booking>)
    ensures forall b :: b in hits ==> b in rows && SqlConflict(b, r)
    ensures forall i :: 0 <= i < |rows| && SqlConflict(rows[i], r) ==> rows[i] in hits
  {
    if rows == [] then []
    else
      var rest := ConflictingRows(rows[1..], r);
      assert forall i :: 1 <= i < |rows| ==> rows[i] == rows[1..][i - 1];
      if SqlConflict(rows[0], r) then [rows[0]] + rest else rest
  }

  /** POST /api/bookings on table `t` at instant `now`: the reply and the table
      afterwards. Past first, then an empty or inverted range, then the conflict
      query; only when all three pass is one row inserted. */
  function CreateStep(t: Table, r: BookingRequest, now: int): (out: (Reply, Table))
    ensures IsPast(r.date, r.startTime, now) ==> out == (Reply(400, PastMessage), t)
    ensures !IsPast(r.date, r.startTime, now) && r.startTime >= r.endTime ==>
      out == (Reply(400, RangeMessage), t)
    ensures out.0.status == 409 <==>
      && !IsPast(r.date, r.startTime, now) && r.startTime < r.endTime
      && exists i :: 0 <= i < |t.rows| && SqlConflict(t.rows[i], r)
    ensures out.0.status == 409 ==> out == (Reply(409, ConflictMessage), t)
    ensures out.0.status == 201 <==>
      && !IsPast(r.date, r.startTime, now) && r.startTime < r.endTime
      && forall i :: 0 <= i < |t.rows| ==> !SqlConflict(t.rows[i], r)
    ensures out.0.status == 201 ==>
      out == (Reply(201, InsertedMessage), Table(t.rows + [RowOf(t.nextId, r)], t.nextId + 1))
    ensures out.0.status in {201, 400, 409}
  {
    if IsPast(r.date, r.startTime, now) then (Reply(400, PastMessage), t)
    else if r.startTime >= r.endTime then (Reply(400, RangeMessage), t)
    else
      var hits := ConflictingRows(t.rows, r);
      if |hits| > 0 then
        assert hits[0] in t.rows;
        (Reply(409, ConflictMessage), t)
      else (Reply(201, InsertedMessage), Table(t.rows + [RowOf(t.nextId, r)], t.nextId + 1))
  }

  /** GET /api/bookings/:id: the first row whose id is `id`, or 404. */
  function Lookup(rows: seq<Booking>, id: nat): (reply: GetReply)
    ensures reply.NotFound? <==> forall i :: 0 <= i < |rows| ==> rows[i].id != id
    ensures reply.NotFound? ==> reply.message == NotFoundMessage
    ensures reply.Found? ==>
      exists k :: 0 <= k < |rows| && rows[k] == reply.booking && rows[k].id == id
        && forall i :: 0 <= i < k ==> rows[i].id != id
  {
    if rows == [] then NotFound(NotFoundMessage)
    else if rows[0].id == id then Found(rows[0])
    else
      var rest := Lookup(rows[1..], id);
      assert forall i :: 1 <= i < |rows| ==> rows[i] == rows[1..][i - 1];
      assert rest.Found? ==>
        exists k :: 0 <= k < |rows[1..]| && rows[1..][k] == rest.booking
          && rows[1..][k].id == id && forall i :: 0 <= i < k ==> rows[1..][i].id != id;
      rest
  }

  /** No two rows for the same doctor on the same date overlap. */
  predicate NoDoubleBooking(rows: seq<Booking>) {
    forall i, j :: 0 <= i < j < |rows| ==>
      SameSlot(rows[i], RequestOf(rows[j])) ==>
        !Overlap(rows[i].startTime, rows[i].endTime, rows[j].startTime, rows[j].endTime)
  }

  /** The conflict check is symmetric: two well-formed bookings conflict whichever
      of them is the existing row and whichever the request. */
  lemma ConflictIsSymmetric(a: Booking, b: Booking)
    requires a.startTime <= a.endTime && b.startTime <= b.endTime
    ensures SqlConflict(a, RequestOf(b)) <==> SqlConflict(b, RequestOf(a))
  {
  }

  /** Bookings that merely touch never conflict, in either order. */
  lemma TouchingNeverConflicts(ex: Booking, r: BookingRequest)
    requires r.startTime <= r.endTime
    requires ex.endTime == r.startTime || r.endTime == ex.startTime
    ensures !SqlConflict(ex, r)
  {
  }

  /** A sequential create keeps the table free of double bookings. */
  lemma {:induction false} CreatePreservesNoDoubleBooking(t: Table, r: BookingRequest, now: int)
    requires NoDoubleBooking(t.rows)
    ensures NoDoubleBooking(CreateStep(t, r, now).1.rows)
  {
    var out := CreateStep(t, r, now);
    if out.0.status == 201 {
      var rows := out.1.rows;
      var n := |t.rows|;
      forall i, j | 0 <= i < j < |rows| && SameSlot(rows[i], RequestOf(rows[j]))
        ensures !Overlap(rows[i].startTime, rows[i].endTime, rows[j].startTime, rows[j].endTime)
      {
        if j == n {
          assert rows[j] == RowOf(t.nextId, r) && rows[i] == t.rows[i];
          assert !SqlConflict(t.rows[i], r);
        } else {
          assert rows[i] == t.rows[i] && rows[j] == t.rows[j];
        }
      }
    }
  }

  /** A create keeps ids unique and below the next id. */
  lemma CreatePreservesValid(t: Table, r: BookingRequest, now: int)
    requires ValidTable(t)
    ensures ValidTable(CreateStep(t, r, now).1)
  {
  }

  /** After a successful create, the new row is found under the id the table
      assigned it, equal in all five fields to the request. */
  lemma CreateThenLookup(t: Table, r: BookingRequest, now: int)
    requires ValidTable(t)
    requires CreateStep(t, r, now).0.status == 201
    ensures Lookup(CreateStep(t, r, now).1.rows, t.nextId) == Found(RowOf(t.nextId, r))
    ensures RequestOf(RowOf(t.nextId, r)) == r
  {
    var rows := CreateStep(t, r, now).1.rows;
    assert rows == t.rows + [RowOf(t.nextId, r)];
    assert rows[|t.rows|].id == t.nextId;
    assert forall i :: 0 <= i < |t.rows| ==> rows[i] == t.rows[i] && rows[i].id != t.nextId;
  }

  /** The in-memory `bookings` table behind the three routes. */
  class BookingStore {
    var rows: seq<Booking>
    var nextId: nat

    ghost predicate Valid()
      reads this
    {
      ValidTable(Table(rows, nextId))
    }

    function Snapshot(): Table
      reads this
    {
      Table(rows, nextId)
    }

    /** An empty table whose AUTO_INCREMENT counter starts at 1. */
    constructor ()
      ensures Valid() && rows == [] && nextId == 1
    {
      rows := [];
      nextId := 1;
    }

    /** POST /api/bookings: the early-return sequence of the handler, ending in
        the insert. */
    method Create(r: BookingRequest, now: int) returns (reply: Reply)
      requires Valid()
      modifies this
      ensures Valid()
      ensures (reply, Snapshot()) == CreateStep(old(Snapshot()), r, now)
      ensures NoDoubleBooking(old(rows)) ==> NoDoubleBooking(rows)
    {
      CreatePreservesValid(Snapshot(), r, now);
      if NoDoubleBooking(rows) {
        CreatePreservesNoDoubleBooking(Snapshot(), r, now);
      }
      if IsPast(r.date, r.startTime, now) {
        return Reply(400, PastMessage);
      }
      if r.startTime >= r.endTime {
        return Reply(400, RangeMessage);
      }
      var conflicting := ConflictingRows(rows, r);
      if |conflicting| > 0 {
        return Reply(409, ConflictMessage);
      }
      rows := rows + [RowOf(nextId, r)];
      nextId := nextId + 1;
      reply := Reply(201, InsertedMessage);
    }

    /** GET /api/bookings: every row, in table order; the table is not changed. */
    method ListBookings() returns (all: seq<Booking>)
      ensures all == rows
    {
      all := rows;
    }

    /** GET /api/bookings/:id; the table is not changed. */
    method GetBooking(id: nat) returns (reply: GetReply)
      ensures reply == Lookup(rows, id)
    {
      reply := Lookup(rows, id);
    }
  }
}
