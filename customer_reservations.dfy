/** The customer's reservations page actions (app/customer/ver-reservas/action.ts):
    the caller's bookings, newest first, and the strict cancellation that
    refuses unknown, foreign and already cancelled bookings. The
    authenticated user is an optional id: `None` is a missing session. */
module CustomerReservations {
  import opened Wrappers
  import opened Seqs
  import opened Tables
  import CustomerBooking

  datatype ReservationError =
    | NotAuthenticated   // "No estás autenticado"
    | BookingMissing     // "La reserva no existe"
    | Forbidden          // "No tienes permiso para cancelar esta reserva"
    | AlreadyCancelled   // "La reserva ya está cancelada"

  // ---------------------------------------------------------------------
  // getUserBookings

  /** A row of the caller's bookings: inner join with the field, left joins
      with the instructor and the timeslot. */
  datatype UserBooking = UserBooking(
    id: string,
    fieldId: string,
    fieldName: string,
    fieldType: string,
    withInstructor: bool,
    instructorId: Option<string>,
    instructorName: Option<string>,
    timeslotId: Option<string>,
    dayOfWeek: Option<DayOfWeek>,
    startTime: Option<Minutes>,
    endTime: Option<Minutes>,
    basePriceSnapshot: real,
    surchargeSnapshot: real,
    instructorPriceSnapshot: real,
    totalPrice: real,
    currency: string,
    status: string,
    createdAt: int)

  function UserBookingRow(f: Field, users: seq<User>, slots: seq<Timeslot>, b: Booking): UserBooking {
    var instructor := if b.instructorId.Some? then FindUser(users, b.instructorId.value) else None;
    var t := if b.timeslotId.Some? then FindTimeslot(slots, b.timeslotId.value) else None;
    UserBooking(
      b.id, b.fieldId, f.name, f.fieldType, b.withInstructor, b.instructorId,
      if instructor.Some? then Some(instructor.value.name) else None,
      b.timeslotId,
      if t.Some? then Some(t.value.dayOfWeek) else None,
      if t.Some? then Some(t.value.startTime) else None,
      if t.Some? then Some(t.value.endTime) else None,
      b.basePriceSnapshot, b.surchargeSnapshot, b.instructorPriceSnapshot,
      b.totalPrice, b.currency, b.status, b.createdAt)
  }

  /** A booking of the user whose field exists (the inner join with field). */
  predicate OwnOnField(fields: seq<Field>, userId: string, b: Booking) {
    b.userId == userId && FindField(fields, b.fieldId).Some?
  }

  /** The caller's bookings whose field exists, as rows, in storage order:
      one row per such booking. */
  function UserRows(fields: seq<Field>, users: seq<User>, slots: seq<Timeslot>, bookings: seq<Booking>, userId: string): (r: seq<UserBooking>)
    ensures forall m :: m in r <==> exists b :: (b in bookings && b.userId == userId && FindField(fields, b.fieldId).Some?
      && m == UserBookingRow(FindField(fields, b.fieldId).value, users, slots, b))
    ensures |r| == |Filter(bookings, (b: Booking) => OwnOnField(fields, userId, b))|
  {
    if bookings == [] then []
    else
      var b := bookings[0];
      var rest := UserRows(fields, users, slots, bookings[1..], userId);
      assert bookings == [b] + bookings[1..];
      var f := FindField(fields, b.fieldId);
      if b.userId == userId && f.Some? then [UserBookingRow(f.value, users, slots, b)] + rest else rest
  }

  /** Newest first. */
  predicate NewestFirst(a: UserBooking, b: UserBooking) {
    a.createdAt >= b.createdAt
  }

  lemma NewestFirstTotal()
    ensures TotalPreorder(NewestFirst)
  {
  }

  /** `getUserBookings`: the caller's bookings on existing fields, whatever
      their status, ordered by creation time, newest first. */
  function GetUserBookings(session: Option<string>, fields: seq<Field>, users: seq<User>, slots: seq<Timeslot>, bookings: seq<Booking>): (r: Result<seq<UserBooking>, ReservationError>)
    ensures r.Failure? <==> session.None?
    ensures r.Failure? ==> r.error == NotAuthenticated
    ensures r.Success? ==> SortedBy(r.value, NewestFirst)
    ensures r.Success? ==> forall i :: 0 <= i < |r.value| - 1 ==> r.value[i].createdAt >= r.value[i + 1].createdAt
    ensures r.Success? ==> forall m :: m in r.value <==> exists b :: (b in bookings && b.userId == session.value
      && FindField(fields, b.fieldId).Some? && m == UserBookingRow(FindField(fields, b.fieldId).value, users, slots, b))
    ensures r.Success? ==> |r.value| == |Filter(bookings, (b: Booking) => OwnOnField(fields, session.value, b))|
  {
    if session.None? then Failure(NotAuthenticated)
    else
      var rows := UserRows(fields, users, slots, bookings, session.value);
      NewestFirstTotal();
      var sorted := SortBy(rows, NewestFirst);
      assert forall m :: m in sorted <==> m in rows by {
        assert forall m :: m in sorted <==> m in multiset(sorted);
      }
      assert |sorted| == |rows| by {
        assert |multiset(sorted)| == |multiset(rows)|;
      }
      Success(sorted)
  }

  /** Every row shown belongs to the caller. */
  lemma UserBookingsAreOwn(session: Option<string>, fields: seq<Field>, users: seq<User>, slots: seq<Timeslot>, bookings: seq<Booking>)
    requires GetUserBookings(session, fields, users, slots, bookings).Success?
    ensures forall m :: m in GetUserBookings(session, fields, users, slots, bookings).value ==>
      exists b :: b in bookings && b.id == m.id && b.userId == session.value && b.status == m.status
  {
    var r := GetUserBookings(session, fields, users, slots, bookings).value;
    forall m | m in r
      ensures exists b :: b in bookings && b.id == m.id && b.userId == session.value && b.status == m.status
    {
      var b :| b in bookings && b.userId == session.value && FindField(fields, b.fieldId).Some?
        && m == UserBookingRow(FindField(fields, b.fieldId).value, users, slots, b);
      assert b.id == m.id;
    }
  }

  // ---------------------------------------------------------------------
  // cancelBooking (strict)

  /** The outcome of the strict `cancelBooking`: the first failing guard,
      or the cancelled row. */
  function StrictCancelOutcome(bookings: seq<Booking>, bookingId: string, session: Option<string>, now: int): (r: Result<Booking, ReservationError>)
    ensures r == Failure(NotAuthenticated) <==> session.None?
    ensures r == Failure(BookingMissing) <==> session.Some? && FindBooking(bookings, bookingId).None?
    ensures r == Failure(Forbidden) <==> (session.Some? && FindBooking(bookings, bookingId).Some?
      && FindBooking(bookings, bookingId).value.userId != session.value)
    ensures r == Failure(AlreadyCancelled) <==> (session.Some? && FindBooking(bookings, bookingId).Some?
      && FindBooking(bookings, bookingId).value.userId == session.value
      && FindBooking(bookings, bookingId).value.status == Cancelled)
    ensures r.Success? ==> r.value == FindBooking(bookings, bookingId).value.(status := Cancelled, updatedAt := now)
    ensures r.Success? ==> r.value in CustomerBooking.CancelAll(bookings, bookingId, now)
  {
    if session.None? then Failure(NotAuthenticated)
    else
      match FindBooking(bookings, bookingId)
      case None => Failure(BookingMissing)
      case Some(b) =>
        if b.userId != session.value then Failure(Forbidden)
        else if b.status == Cancelled then Failure(AlreadyCancelled)
        else
          var k :| 0 <= k < |bookings| && bookings[k] == b;
          assert CustomerBooking.CancelAll(bookings, bookingId, now)[k] == b.(status := Cancelled, updatedAt := now);
          Success(b.(status := Cancelled, updatedAt := now))
  }

  /** The strict `cancelBooking`: existence, ownership, not yet cancelled,
      then the update; the table is unchanged on every failure. */
  method StrictCancel(db: Database, bookingId: string, session: Option<string>, now: int) returns (r: Result<Booking, ReservationError>)
    modifies db`bookings
    ensures r == StrictCancelOutcome(old(db.bookings), bookingId, session, now)
    ensures db.bookings == if r.Success? then CustomerBooking.CancelAll(old(db.bookings), bookingId, now) else old(db.bookings)
    ensures old(db.Valid()) ==> db.Valid()
  {
    if session.None? {
      return Failure(NotAuthenticated);
    }
    var existing := FindBooking(db.bookings, bookingId);
    if existing.None? {
      return Failure(BookingMissing);
    }
    if existing.value.userId != session.value {
      return Failure(Forbidden);
    }
    if existing.value.status == Cancelled {
      return Failure(AlreadyCancelled);
    }
    r := StrictCancelOutcome(db.bookings, bookingId, session, now);
    db.bookings := CustomerBooking.CancelAll(db.bookings, bookingId, now);
  }

  /** The first row with the id, after the update, is the cancelled row. */
  lemma {:induction false} FindAfterCancel(bookings: seq<Booking>, bookingId: string, now: int)
    requires FindBooking(bookings, bookingId).Some?
    ensures FindBooking(CustomerBooking.CancelAll(bookings, bookingId, now), bookingId)
      == Some(FindBooking(bookings, bookingId).value.(status := Cancelled, updatedAt := now))
  {
    CancelAllTail(bookings, bookingId, now);
    if bookings[0].id != bookingId {
      FindAfterCancel(bookings[1..], bookingId, now);
    }
  }

  lemma CancelAllTail(bookings: seq<Booking>, bookingId: string, now: int)
    requires bookings != []
    ensures CustomerBooking.CancelAll(bookings, bookingId, now)[1..] == CustomerBooking.CancelAll(bookings[1..], bookingId, now)
  {
    var r, t := CustomerBooking.CancelAll(bookings, bookingId, now), CustomerBooking.CancelAll(bookings[1..], bookingId, now);
    forall i | 0 <= i < |t| ensures r[1..][i] == t[i] {
      assert bookings[1..][i] == bookings[i + 1];
    }
  }

  /** A second cancellation of the same booking always fails. */
  lemma SecondStrictCancelFails(bookings: seq<Booking>, bookingId: string, session: Option<string>, now: int, later: int)
    requires StrictCancelOutcome(bookings, bookingId, session, now).Success?
    ensures StrictCancelOutcome(CustomerBooking.CancelAll(bookings, bookingId, now), bookingId, session, later) == Failure(AlreadyCancelled)
  {
    FindAfterCancel(bookings, bookingId, now);
  }

  /** Only "cancelled" is refused: the owner can cancel a booking in any
      other status, "pending", "confirmed" and "completed" included. */
  lemma AnyLiveStatusCancellable(bookings: seq<Booking>, bookingId: string, userId: string, now: int)
    requires FindBooking(bookings, bookingId).Some?
    requires FindBooking(bookings, bookingId).value.userId == userId
    requires FindBooking(bookings, bookingId).value.status in {"pending", Confirmed, "completed"}
    ensures StrictCancelOutcome(bookings, bookingId, Some(userId), now).Success?
  {
  }

  /** With unique booking ids, a strict cancellation changes exactly one row. */
  lemma StrictCancelChangesOneRow(bookings: seq<Booking>, bookingId: string, session: Option<string>, now: int)
    requires DistinctBookingIds(bookings)
    requires StrictCancelOutcome(bookings, bookingId, session, now).Success?
    ensures exists k :: (0 <= k < |bookings| && bookings[k].id == bookingId
      && CustomerBooking.CancelAll(bookings, bookingId, now) == bookings[k := bookings[k].(status := Cancelled, updatedAt := now)])
  {
    var b := FindBooking(bookings, bookingId).value;
    var k :| 0 <= k < |bookings| && bookings[k] == b;
    assert CustomerBooking.CancelAll(bookings, bookingId, now) == bookings[k := bookings[k].(status := Cancelled, updatedAt := now)];
  }

  /** Whatever the strict cancellation accepts, the lenient one accepts too,
      with the same row; both then apply the same update, `CancelAll`. */
  lemma StrictImpliesLenient(bookings: seq<Booking>, bookingId: string, userId: string, now: int)
    requires userId != ""
    requires StrictCancelOutcome(bookings, bookingId, Some(userId), now).Success?
    ensures CustomerBooking.LenientCancelOutcome(bookings, bookingId, userId, now) ==
      Success(StrictCancelOutcome(bookings, bookingId, Some(userId), now).value)
  {
    var b := FindBooking(bookings, bookingId).value;
    var k :| 0 <= k < |bookings| && bookings[k] == b;
    assert CustomerBooking.OwnedBy(bookings, bookingId, userId);
  }
}
