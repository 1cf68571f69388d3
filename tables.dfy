/** The database as in-memory tables. Each record type carries the columns
    the server actions read or write; the `Database` class holds one
    sequence per table, in storage order, and the actions update them in
    place. Clock values are plain integers and ids are strings. */
module Tables {
  import opened Wrappers

  /** The `weekday_enum` column type. */
  datatype DayOfWeek = Monday | Tuesday | Wednesday | Thursday | Friday | Saturday | Sunday

  /** The value stored for a weekday ("monday", ...). */
  function DayValue(d: DayOfWeek): string {
    match d
    case Monday => "monday"
    case Tuesday => "tuesday"
    case Wednesday => "wednesday"
    case Thursday => "thursday"
    case Friday => "friday"
    case Saturday => "saturday"
    case Sunday => "sunday"
  }

  /** A time of day, in minutes since midnight ("HH:MM" text in the store). */
  type Minutes = m: int | 0 <= m < 1440

  const Confirmed: string := "confirmed"
  const Cancelled: string := "cancelled"
  const InstructorRole: string := "instructor"

  datatype Role = Role(id: string, name: string)

  datatype User = User(id: string, name: string, email: string, roleId: string)

  datatype Field = Field(
    id: string,
    name: string,
    fieldType: string,
    isActive: bool,
    createdAt: int,
    updatedAt: int)

  /** A recurring weekly window; `userId` is the assigned instructor, if any. */
  datatype Timeslot = Timeslot(
    id: string,
    fieldId: Option<string>,
    userId: Option<string>,
    dayOfWeek: DayOfWeek,
    startTime: Minutes,
    endTime: Minutes,
    surchargePercent: Option<real>,
    isActive: bool)

  /** The join row that lets a field be booked during a timeslot. */
  datatype FieldTimeslot = FieldTimeslot(id: string, fieldId: string, timeslotId: string)

  /** The price attached to a field-timeslot link. */
  datatype Price = Price(
    fieldTimeslotId: string,
    basePrice: real,
    instructorPrice: real,
    currency: string)

  /** A reservation, with the price components copied at booking time. */
  datatype Booking = Booking(
    id: string,
    fieldId: string,
    userId: string,
    timeslotId: Option<string>,
    fieldTimeslotId: Option<string>,
    instructorId: Option<string>,
    withInstructor: bool,
    basePriceSnapshot: real,
    surchargeSnapshot: real,
    instructorPriceSnapshot: real,
    totalPrice: real,
    currency: string,
    status: string,
    createdAt: int,
    updatedAt: int)

  predicate IsActiveField(f: Field) {
    f.isActive
  }

  predicate DistinctFieldIds(fields: seq<Field>) {
    forall i, j :: 0 <= i < j < |fields| ==> fields[i].id != fields[j].id
  }

  predicate DistinctTimeslotIds(slots: seq<Timeslot>) {
    forall i, j :: 0 <= i < j < |slots| ==> slots[i].id != slots[j].id
  }

  predicate DistinctBookingIds(bookings: seq<Booking>) {
    forall i, j :: 0 <= i < j < |bookings| ==> bookings[i].id != bookings[j].id
  }

  /** A row with a new id keeps the booking ids unique. */
  lemma AppendKeepsBookingIdsDistinct(bookings: seq<Booking>, b: Booking)
    requires DistinctBookingIds(bookings)
    requires forall k :: 0 <= k < |bookings| ==> bookings[k].id != b.id
    ensures DistinctBookingIds(bookings + [b])
  {
    var all := bookings + [b];
    forall i, j | 0 <= i < j < |all| ensures all[i].id != all[j].id {
      if j == |bookings| {
        assert all[i] == bookings[i];
      }
    }
  }

  /** The first role with the given id (a primary-key lookup). */
  function FindRole(roles: seq<Role>, id: string): (r: Option<Role>)
    ensures r.Some? ==> r.value in roles && r.value.id == id
    ensures r.None? <==> forall k :: 0 <= k < |roles| ==> roles[k].id != id
  {
    if roles == [] then None
    else if roles[0].id == id then Some(roles[0])
    else FindRole(roles[1..], id)
  }

  /** The first user with the given id. */
  function FindUser(users: seq<User>, id: string): (r: Option<User>)
    ensures r.Some? ==> r.value in users && r.value.id == id
    ensures r.None? <==> forall k :: 0 <= k < |users| ==> users[k].id != id
  {
    if users == [] then None
    else if users[0].id == id then Some(users[0])
    else FindUser(users[1..], id)
  }

  /** The first field with the given id. */
  function FindField(fields: seq<Field>, id: string): (r: Option<Field>)
    ensures r.Some? ==> r.value in fields && r.value.id == id
    ensures r.None? <==> forall k :: 0 <= k < |fields| ==> fields[k].id != id
  {
    if fields == [] then None
    else if fields[0].id == id then Some(fields[0])
    else FindField(fields[1..], id)
  }

  /** With distinct ids, the field found for `fields[k].id` is `fields[k]`. */
  lemma {:induction false} FindFieldAt(fields: seq<Field>, k: nat)
    requires DistinctFieldIds(fields)
    requires k < |fields|
    ensures FindField(fields, fields[k].id) == Some(fields[k])
  {
    if k > 0 {
      assert fields[0].id != fields[k].id;
      FindFieldAt(fields[1..], k - 1);
    }
  }

  /** The first timeslot with the given id. */
  function FindTimeslot(slots: seq<Timeslot>, id: string): (r: Option<Timeslot>)
    ensures r.Some? ==> r.value in slots && r.value.id == id
    ensures r.None? <==> forall k :: 0 <= k < |slots| ==> slots[k].id != id
  {
    if slots == [] then None
    else if slots[0].id == id then Some(slots[0])
    else FindTimeslot(slots[1..], id)
  }

  /** The first price attached to a field-timeslot link. */
  function FindPrice(prices: seq<Price>, fieldTimeslotId: string): (r: Option<Price>)
    ensures r.Some? ==> r.value in prices && r.value.fieldTimeslotId == fieldTimeslotId
    ensures r.None? <==> forall k :: 0 <= k < |prices| ==> prices[k].fieldTimeslotId != fieldTimeslotId
  {
    if prices == [] then None
    else if prices[0].fieldTimeslotId == fieldTimeslotId then Some(prices[0])
    else FindPrice(prices[1..], fieldTimeslotId)
  }

  /** The first booking with the given id. */
  function FindBooking(bookings: seq<Booking>, id: string): (r: Option<Booking>)
    ensures r.Some? ==> r.value in bookings && r.value.id == id
    ensures r.None? <==> forall k :: 0 <= k < |bookings| ==> bookings[k].id != id
  {
    if bookings == [] then None
    else if bookings[0].id == id then Some(bookings[0])
    else FindBooking(bookings[1..], id)
  }

  /** The name of the role a user record refers to (the user-role join). */
  function RoleNameOf(roles: seq<Role>, u: User): Option<string> {
    match FindRole(roles, u.roleId)
    case None => None
    case Some(r) => Some(r.name)
  }

  /** The store. Primary keys of the fields and timeslots tables are unique. */
  class Database {
    var roles: seq<Role>
    var users: seq<User>
    var fields: seq<Field>
    var timeslots: seq<Timeslot>
    var fieldTimeslots: seq<FieldTimeslot>
    var prices: seq<Price>
    var bookings: seq<Booking>

    ghost predicate Valid()
      reads this
    {
      DistinctFieldIds(fields) && DistinctTimeslotIds(timeslots) && DistinctBookingIds(bookings)
    }

    constructor (
      roles: seq<Role>, users: seq<User>, fields: seq<Field>, timeslots: seq<Timeslot>,
      fieldTimeslots: seq<FieldTimeslot>, prices: seq<Price>, bookings: seq<Booking>)
      requires DistinctFieldIds(fields) && DistinctTimeslotIds(timeslots) && DistinctBookingIds(bookings)
      ensures Valid()
      ensures this.roles == roles && this.users == users && this.fields == fields
      ensures this.timeslots == timeslots && this.fieldTimeslots == fieldTimeslots
      ensures this.prices == prices && this.bookings == bookings
    {
      this.roles := roles;
      this.users := users;
      this.fields := fields;
      this.timeslots := timeslots;
      this.fieldTimeslots := fieldTimeslots;
      this.prices := prices;
      this.bookings := bookings;
    }
  }
}
