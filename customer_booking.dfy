/** The customer booking actions (app/customer/apartar-cancha/action.ts):
    the availability of a field on a weekday, the instructor assigned to a
    slot, booking creation behind its ordered guards, the caller's bookings
    and the lenient cancellation. Prices here are per-slot surcharges,
    `base × (1 + surcharge/100)`, computed exactly. */
module CustomerBooking {
  import opened Wrappers
  import opened Seqs
  import opened Tables

  /** The errors these actions throw. */
  datatype BookingError =
    | NotAuthenticated       // "No estás autenticado"
    | SlotNotFound           // "Horario no encontrado o no disponible"
    | AlreadyBooked          // "Este horario ya está reservado"
    | InstructorUnavailable  // "El instructor seleccionado no está disponible para esta franja"
    | BookingNotFound        // "Reserva no encontrada"

  /** A JavaScript truthiness test on an optional string. */
  predicate Truthy(s: Option<string>) {
    s.Some? && s.value != ""
  }

  // ---------------------------------------------------------------------
  // getActiveFields

  datatype FieldSummary = FieldSummary(id: string, name: string, fieldType: string)

  function Summary(f: Field): FieldSummary {
    FieldSummary(f.id, f.name, f.fieldType)
  }

  /** The active fields, in storage order, one row each. */
  function GetActiveFields(fields: seq<Field>): (r: seq<FieldSummary>)
    ensures |r| <= |fields|
    ensures |r| == |Filter(fields, IsActiveField)|
    ensures forall x :: x in r <==> exists f :: f in fields && f.isActive && x == Summary(f)
  {
    var active := Filter(fields, IsActiveField);
    var r := seq(|active|, i requires 0 <= i < |active| => Summary(active[i]));
    forall x | x in r ensures exists f :: f in fields && f.isActive && x == Summary(f) {
      var i :| 0 <= i < |r| && r[i] == x;
      assert active[i] in active;
    }
    forall f | f in fields && f.isActive ensures Summary(f) in r {
      assert f in active;
      var i :| 0 <= i < |active| && active[i] == f;
      assert r[i] == Summary(f);
    }
    r
  }

  // ---------------------------------------------------------------------
  // getAvailableSlots

  /** A row of the availability query, with its computed price. */
  datatype SlotOffer = SlotOffer(
    id: string,
    fieldTimeslotId: string,
    fieldId: string,
    dayOfWeek: DayOfWeek,
    startTime: Minutes,
    endTime: Minutes,
    surchargePercent: Option<real>,
    isActive: bool,
    basePrice: Option<real>,
    instructorPrice: Option<real>,
    calculatedPrice: real)

  /** `base × (1 + surcharge / 100)`. */
  function SurchargedPrice(base: real, surcharge: real): real {
    base * (1.0 + surcharge / 100.0)
  }

  /** A surcharge of zero keeps the base price; a non-negative one never
      lowers a non-negative price, and a larger surcharge never costs less. */
  lemma SurchargedPriceBounds(base: real, s: real, t: real)
    ensures SurchargedPrice(base, 0.0) == base
    ensures base >= 0.0 && s >= 0.0 ==> SurchargedPrice(base, s) >= base
    ensures base >= 0.0 && s <= t ==> SurchargedPrice(base, s) <= SurchargedPrice(base, t)
  {
    if base >= 0.0 && s <= t {
      assert base * (t - s) / 100.0 >= 0.0;
      assert SurchargedPrice(base, t) - SurchargedPrice(base, s) == base * (t - s) / 100.0;
    }
  }

  /** The filter of the availability query on a link and its timeslot: the
      link belongs to the field, its timeslot exists (inner join), falls on
      the day and is active. */
  predicate LinkOnDay(link: FieldTimeslot, slots: seq<Timeslot>, fieldId: string, day: DayOfWeek) {
    && link.fieldId == fieldId
    && FindTimeslot(slots, link.timeslotId).Some?
    && FindTimeslot(slots, link.timeslotId).value.dayOfWeek == day
    && FindTimeslot(slots, link.timeslotId).value.isActive
  }

  /** The price rows attached to a link. `price.fieldTimeslotId` is not a
      key of the price table, so a link may have several. */
  function PricesOf(prices: seq<Price>, linkId: string): seq<Price> {
    Filter(prices, (p: Price) => p.fieldTimeslotId == linkId)
  }

  /** The query row of a link and its timeslot joined with one price row,
      or with none (the left join's nulls). */
  function Offer(t: Timeslot, link: FieldTimeslot, p: Option<Price>): SlotOffer {
    var base := if p.Some? then Some(p.value.basePrice) else None;
    var instructor := if p.Some? then Some(p.value.instructorPrice) else None;
    SlotOffer(t.id, link.id, link.fieldId, t.dayOfWeek, t.startTime, t.endTime,
      t.surchargePercent, t.isActive, base, instructor,
      SurchargedPrice(base.GetOr(0.0), t.surchargePercent.GetOr(0.0)))
  }

  /** The rows of a link and its timeslot joined with each of `ps`. */
  function PricedOffers(t: Timeslot, link: FieldTimeslot, ps: seq<Price>): (r: seq<SlotOffer>)
    ensures |r| == |ps|
    ensures forall o :: o in r <==> exists p :: p in ps && o == Offer(t, link, Some(p))
  {
    if ps == [] then []
    else
      assert forall p :: p in ps <==> p == ps[0] || p in ps[1..];
      [Offer(t, link, Some(ps[0]))] + PricedOffers(t, link, ps[1..])
  }

  /** The rows a field-timeslot link contributes to the availability query:
      none unless the link passes the filter; otherwise one row per price
      row of the link (left join), or a single unpriced row when it has no
      price. A missing price or surcharge counts as 0 in the price. */
  function JoinRows(link: FieldTimeslot, slots: seq<Timeslot>, prices: seq<Price>, fieldId: string, day: DayOfWeek): (r: seq<SlotOffer>)
    ensures r == [] <==> !LinkOnDay(link, slots, fieldId, day)
    ensures r != [] ==> |r| == if PricesOf(prices, link.id) == [] then 1 else |PricesOf(prices, link.id)|
    ensures forall o :: o in r <==> (LinkOnDay(link, slots, fieldId, day) &&
      var t := FindTimeslot(slots, link.timeslotId).value;
      ((PricesOf(prices, link.id) == [] && o == Offer(t, link, None)) ||
       (exists p :: p in prices && p.fieldTimeslotId == link.id && o == Offer(t, link, Some(p)))))
  {
    if LinkOnDay(link, slots, fieldId, day) then
      var t := FindTimeslot(slots, link.timeslotId).value;
      var ps := PricesOf(prices, link.id);
      if ps == [] then
        [Offer(t, link, None)]
      else
        PricedOffers(t, link, ps)
    else []
  }

  /** Every row of a link carries its timeslot's columns and the link's
      ids; it has a price exactly when the link has a price row, and then
      the price columns of one of them; its price is surcharged base. */
  lemma JoinRowColumns(link: FieldTimeslot, slots: seq<Timeslot>, prices: seq<Price>, fieldId: string, day: DayOfWeek, o: SlotOffer)
    requires o in JoinRows(link, slots, prices, fieldId, day)
    ensures FindTimeslot(slots, link.timeslotId).Some?
    ensures var t := FindTimeslot(slots, link.timeslotId).value;
      && o.id == t.id == link.timeslotId
      && o.dayOfWeek == day == t.dayOfWeek && t.isActive && o.isActive
      && o.surchargePercent == t.surchargePercent
      && o.startTime == t.startTime && o.endTime == t.endTime
    ensures o.fieldId == fieldId && o.fieldTimeslotId == link.id
    ensures o.basePrice.Some? <==> FindPrice(prices, link.id).Some?
    ensures o.basePrice.Some? ==>
      exists p :: p in prices && p.fieldTimeslotId == link.id && o.basePrice == Some(p.basePrice) && o.instructorPrice == Some(p.instructorPrice)
    ensures o.calculatedPrice == SurchargedPrice(o.basePrice.GetOr(0.0), o.surchargePercent.GetOr(0.0))
  {
    var ps := PricesOf(prices, link.id);
    if ps != [] {
      assert ps[0] in prices;
    } else {
      assert forall p :: p in prices && p.fieldTimeslotId == link.id ==> p in ps;
    }
  }

  /** Each price row of a link that passes the filter gives a row of its own. */
  lemma EveryPriceRowJoined(link: FieldTimeslot, slots: seq<Timeslot>, prices: seq<Price>, fieldId: string, day: DayOfWeek, p: Price)
    requires LinkOnDay(link, slots, fieldId, day)
    requires p in prices && p.fieldTimeslotId == link.id
    ensures var o := Offer(FindTimeslot(slots, link.timeslotId).value, link, Some(p));
      o in JoinRows(link, slots, prices, fieldId, day) && o.basePrice == Some(p.basePrice) && o.instructorPrice == Some(p.instructorPrice)
  {
  }

  /** The rows of the joined query: each link's rows, in link order. */
  function JoinedSlots(links: seq<FieldTimeslot>, slots: seq<Timeslot>, prices: seq<Price>, fieldId: string, day: DayOfWeek): (r: seq<SlotOffer>)
    ensures forall o :: o in r <==> exists k :: 0 <= k < |links| && o in JoinRows(links[k], slots, prices, fieldId, day)
  {
    if links == [] then []
    else
      var rest := JoinedSlots(links[1..], slots, prices, fieldId, day);
      assert forall k :: 0 < k < |links| ==> links[k] == links[1..][k - 1];
      JoinRows(links[0], slots, prices, fieldId, day) + rest
  }

  /** A further link appends its own rows, and only those. */
  lemma {:induction false} JoinedSlotsSnoc(links: seq<FieldTimeslot>, link: FieldTimeslot, slots: seq<Timeslot>, prices: seq<Price>, fieldId: string, day: DayOfWeek)
    ensures JoinedSlots(links + [link], slots, prices, fieldId, day) ==
      JoinedSlots(links, slots, prices, fieldId, day) + JoinRows(link, slots, prices, fieldId, day)
  {
    if links != [] {
      assert (links + [link])[1..] == links[1..] + [link];
      JoinedSlotsSnoc(links[1..], link, slots, prices, fieldId, day);
    }
  }

  /** A confirmed booking of the given field and timeslot. */
  predicate ConfirmedOn(b: Booking, fieldId: string, timeslotId: string) {
    b.fieldId == fieldId && b.status == Confirmed && b.timeslotId == Some(timeslotId)
  }

  /** The timeslot ids of the field's confirmed bookings. */
  function BookedTimeslotIds(bookings: seq<Booking>, fieldId: string): (r: set<string>)
    ensures forall id :: id in r <==> exists b :: b in bookings && ConfirmedOn(b, fieldId, id)
  {
    set b | b in bookings && b.fieldId == fieldId && b.status == Confirmed && b.timeslotId.Some? :: b.timeslotId.value
  }

  predicate ByStart(a: SlotOffer, b: SlotOffer) {
    a.startTime <= b.startTime
  }

  lemma ByStartTotal()
    ensures TotalPreorder(ByStart)
  {
  }

  /** `getAvailableSlots(fieldId, day)`: the priced slots of the field on
      that day, by start time, without the ones a confirmed booking holds. */
  function GetAvailableSlots(links: seq<FieldTimeslot>, slots: seq<Timeslot>, prices: seq<Price>, bookings: seq<Booking>, fieldId: string, day: DayOfWeek): (r: seq<SlotOffer>)
    ensures SortedBy(r, ByStart)
    ensures forall o :: o in r <==> o in JoinedSlots(links, slots, prices, fieldId, day) && o.id !in BookedTimeslotIds(bookings, fieldId)
    ensures forall o :: o in r ==> o.fieldId == fieldId && o.dayOfWeek == day && o.isActive
    ensures forall o :: o in r ==> o.calculatedPrice == SurchargedPrice(o.basePrice.GetOr(0.0), o.surchargePercent.GetOr(0.0))
    ensures forall o, b :: o in r && b in bookings ==> !ConfirmedOn(b, fieldId, o.id)
    ensures multiset(r) == multiset(Filter(JoinedSlots(links, slots, prices, fieldId, day),
      (o: SlotOffer) => o.id !in BookedTimeslotIds(bookings, fieldId)))
  {
    var booked := BookedTimeslotIds(bookings, fieldId);
    var joined := JoinedSlots(links, slots, prices, fieldId, day);
    ByStartTotal();
    forall o | o in joined
      ensures o.fieldId == fieldId && o.dayOfWeek == day && o.isActive
      ensures o.calculatedPrice == SurchargedPrice(o.basePrice.GetOr(0.0), o.surchargePercent.GetOr(0.0))
    {
      var k :| 0 <= k < |links| && o in JoinRows(links[k], slots, prices, fieldId, day);
      JoinRowColumns(links[k], slots, prices, fieldId, day, o);
    }
    var sorted := SortBy(joined, ByStart);
    assert forall o :: o in sorted <==> o in joined by {
      assert forall o :: o in sorted <==> o in multiset(sorted);
    }
    FilterSorted(sorted, (o: SlotOffer) => o.id !in booked, ByStart);
    FilterPermutes(sorted, joined, (o: SlotOffer) => o.id !in booked);
    Filter(sorted, (o: SlotOffer) => o.id !in booked)
  }

  /** A slot is offered exactly when a link of the field yields it and no
      confirmed booking of that field holds its timeslot. */
  lemma AvailableIff(links: seq<FieldTimeslot>, slots: seq<Timeslot>, prices: seq<Price>, bookings: seq<Booking>, fieldId: string, day: DayOfWeek, o: SlotOffer)
    ensures o in GetAvailableSlots(links, slots, prices, bookings, fieldId, day) <==>
      (exists k :: 0 <= k < |links| && o in JoinRows(links[k], slots, prices, fieldId, day)) &&
      (forall b :: b in bookings ==> !ConfirmedOn(b, fieldId, o.id))
  {
  }

  /** An unbooked link that passes the filter is offered once per price row
      it has (once when it has none): a timeslot with two prices is listed
      twice. */
  lemma OfferedOncePerPriceRow(link: FieldTimeslot, slots: seq<Timeslot>, prices: seq<Price>, bookings: seq<Booking>, fieldId: string, day: DayOfWeek)
    requires LinkOnDay(link, slots, fieldId, day)
    requires forall b :: b in bookings ==> !ConfirmedOn(b, fieldId, link.timeslotId)
    ensures |GetAvailableSlots([link], slots, prices, bookings, fieldId, day)| ==
      if PricesOf(prices, link.id) == [] then 1 else |PricesOf(prices, link.id)|
  {
    var rows := JoinRows(link, slots, prices, fieldId, day);
    assert JoinedSlots([link], slots, prices, fieldId, day) == rows + JoinedSlots([], slots, prices, fieldId, day);
    var booked := BookedTimeslotIds(bookings, fieldId);
    forall o | o in rows ensures o.id !in booked {
      JoinRowColumns(link, slots, prices, fieldId, day, o);
    }
    FilterAll(rows + [], (o: SlotOffer) => o.id !in booked);
    var r := GetAvailableSlots([link], slots, prices, bookings, fieldId, day);
    assert |r| == |rows| by {
      assert |multiset(r)| == |multiset(rows)|;
    }
  }

  /** Bookings that are not confirmed never block a slot. */
  lemma {:induction false} UnconfirmedDoesNotBlock(links: seq<FieldTimeslot>, slots: seq<Timeslot>, prices: seq<Price>, bookings: seq<Booking>, b: Booking, fieldId: string, day: DayOfWeek)
    requires b.status != Confirmed
    ensures GetAvailableSlots(links, slots, prices, bookings + [b], fieldId, day) == GetAvailableSlots(links, slots, prices, bookings, fieldId, day)
  {
    assert BookedTimeslotIds(bookings + [b], fieldId) == BookedTimeslotIds(bookings, fieldId) by {
      forall id ensures id in BookedTimeslotIds(bookings + [b], fieldId) <==> id in BookedTimeslotIds(bookings, fieldId) {
        assert forall x :: x in bookings + [b] <==> x in bookings || x == b;
      }
    }
  }

  // ---------------------------------------------------------------------
  // getAvailableInstructorsForSlot

  datatype InstructorInfo = InstructorInfo(id: string, name: string, email: string)

  /** The instructor assigned to the timeslot, when the assigned user exists
      and has the instructor role; at most one row. */
  function AssignedInstructor(slots: seq<Timeslot>, users: seq<User>, roles: seq<Role>, timeslotId: string): (r: seq<InstructorInfo>)
    ensures |r| <= 1
    ensures r != [] ==> exists k :: 0 <= k < |slots| && slots[k].id == timeslotId && slots[k].userId == Some(r[0].id)
    ensures r != [] ==> exists u :: u in users && u.id == r[0].id && RoleNameOf(roles, u) == Some(InstructorRole)
    ensures r == [] <==> match FindTimeslot(slots, timeslotId)
      case None => true
      case Some(t) => t.userId.None? || match FindUser(users, t.userId.value)
        case None => true
        case Some(u) => RoleNameOf(roles, u) != Some(InstructorRole)
  {
    match FindTimeslot(slots, timeslotId)
    case None => []
    case Some(t) =>
      if t.userId.None? then []
      else
        match FindUser(users, t.userId.value)
        case None => []
        case Some(u) =>
          if RoleNameOf(roles, u) == Some(InstructorRole) then
            assert exists k :: 0 <= k < |slots| && slots[k] == t;
            [InstructorInfo(u.id, u.name, u.email)]
          else []
  }

  // ---------------------------------------------------------------------
  // createBooking

  /** The slot data of the booking: the first link of the field to the
      timeslot that has both its timeslot row and a price (inner joins). */
  datatype SlotData = SlotData(fieldTimeslotId: string, surchargePercent: Option<real>, price: Price)

  predicate LinkPriced(link: FieldTimeslot, slots: seq<Timeslot>, prices: seq<Price>, fieldId: string, timeslotId: string) {
    && link.fieldId == fieldId
    && link.timeslotId == timeslotId
    && FindTimeslot(slots, timeslotId).Some?
    && FindPrice(prices, link.id).Some?
  }

  function FindSlotData(links: seq<FieldTimeslot>, slots: seq<Timeslot>, prices: seq<Price>, fieldId: string, timeslotId: string): (r: Option<SlotData>)
    ensures r.None? <==> forall k :: 0 <= k < |links| ==> !LinkPriced(links[k], slots, prices, fieldId, timeslotId)
    ensures r.Some? ==> exists k :: 0 <= k < |links| && LinkPriced(links[k], slots, prices, fieldId, timeslotId) && links[k].id == r.value.fieldTimeslotId
    ensures r.Some? ==> FindTimeslot(slots, timeslotId).Some? && r.value.surchargePercent == FindTimeslot(slots, timeslotId).value.surchargePercent
    ensures r.Some? ==> FindPrice(prices, r.value.fieldTimeslotId) == Some(r.value.price)
  {
    if links == [] then None
    else if LinkPriced(links[0], slots, prices, fieldId, timeslotId) then
      Some(SlotData(links[0].id, FindTimeslot(slots, timeslotId).value.surchargePercent, FindPrice(prices, links[0].id).value))
    else
      var r := FindSlotData(links[1..], slots, prices, fieldId, timeslotId);
      assert forall k :: 0 < k < |links| ==> links[k] == links[1..][k - 1];
      r
  }

  /** Some timeslot row with that id has that user assigned. */
  predicate SlotHeldBy(slots: seq<Timeslot>, timeslotId: string, instructorId: string) {
    exists k :: 0 <= k < |slots| && slots[k].id == timeslotId && slots[k].userId == Some(instructorId)
  }

  /** Some confirmed booking holds the field and timeslot. */
  predicate IsBooked(bookings: seq<Booking>, fieldId: string, timeslotId: string) {
    exists k :: 0 <= k < |bookings| && ConfirmedOn(bookings[k], fieldId, timeslotId)
  }

  /** The total: the surcharged base price plus, with an instructor, the
      instructor price. */
  function BookingTotal(price: Price, surcharge: Option<real>, withInstructor: bool): real {
    SurchargedPrice(price.basePrice, surcharge.GetOr(0.0)) + (if withInstructor then price.instructorPrice else 0.0)
  }

  /** The outcome of `createBooking`: the error of the first guard that
      fails, or the booking row it inserts (`newId` and `now` stand for the
      store's generated id and clock). */
  function CreateOutcome(
    links: seq<FieldTimeslot>, slots: seq<Timeslot>, prices: seq<Price>, bookings: seq<Booking>,
    fieldId: string, timeslotId: string, userId: string, withInstructor: bool, instructorId: Option<string>,
    newId: string, now: int): (r: Result<Booking, BookingError>)
    ensures r.Success? ==>
      && r.value.id == newId && r.value.fieldId == fieldId && r.value.userId == userId
      && r.value.timeslotId == Some(timeslotId) && r.value.status == Confirmed
  {
    if userId == "" then Failure(NotAuthenticated)
    else
      match FindSlotData(links, slots, prices, fieldId, timeslotId)
      case None => Failure(SlotNotFound)
      case Some(d) =>
        if IsBooked(bookings, fieldId, timeslotId) then Failure(AlreadyBooked)
        else if withInstructor && Truthy(instructorId) && !SlotHeldBy(slots, timeslotId, instructorId.value) then
          Failure(InstructorUnavailable)
        else
          var instructorPrice := if withInstructor then d.price.instructorPrice else 0.0;
          Success(Booking(
            newId, fieldId, userId, Some(timeslotId), Some(d.fieldTimeslotId),
            if withInstructor && Truthy(instructorId) then instructorId else None,
            withInstructor, d.price.basePrice, d.surchargePercent.GetOr(0.0), instructorPrice,
            BookingTotal(d.price, d.surchargePercent, withInstructor), d.price.currency,
            Confirmed, now, now))
  }

  /** Which guard of `createBooking` fails, each an if-and-only-if in the
      source's order, and the row it inserts when none does. */
  lemma CreateOutcomeCases(
    links: seq<FieldTimeslot>, slots: seq<Timeslot>, prices: seq<Price>, bookings: seq<Booking>,
    fieldId: string, timeslotId: string, userId: string, withInstructor: bool, instructorId: Option<string>,
    newId: string, now: int, r: Result<Booking, BookingError>)
    requires r == CreateOutcome(links, slots, prices, bookings, fieldId, timeslotId, userId, withInstructor, instructorId, newId, now)
    ensures r == Failure(NotAuthenticated) <==> userId == ""
    ensures r == Failure(SlotNotFound) <==> userId != "" && forall k :: 0 <= k < |links| ==> !LinkPriced(links[k], slots, prices, fieldId, timeslotId)
    ensures r == Failure(AlreadyBooked) <==> userId != "" && FindSlotData(links, slots, prices, fieldId, timeslotId).Some? && IsBooked(bookings, fieldId, timeslotId)
    ensures r == Failure(InstructorUnavailable) <==>
      (userId != "" && FindSlotData(links, slots, prices, fieldId, timeslotId).Some? && !IsBooked(bookings, fieldId, timeslotId)
       && withInstructor && Truthy(instructorId) && !SlotHeldBy(slots, timeslotId, instructorId.value))
    ensures r.Failure? ==> r.error != BookingNotFound
    ensures r.Success? ==> var d := FindSlotData(links, slots, prices, fieldId, timeslotId).value;
      && r.value.id == newId && r.value.fieldId == fieldId && r.value.userId == userId
      && r.value.timeslotId == Some(timeslotId) && r.value.fieldTimeslotId == Some(d.fieldTimeslotId)
      && r.value.status == Confirmed && r.value.withInstructor == withInstructor
      && r.value.totalPrice == BookingTotal(d.price, d.surchargePercent, withInstructor)
      && r.value.basePriceSnapshot == d.price.basePrice
      && r.value.instructorPriceSnapshot == (if withInstructor then d.price.instructorPrice else 0.0)
      && r.value.currency == d.price.currency
      && (r.value.instructorId.Some? <==> withInstructor && Truthy(instructorId))
      && (r.value.instructorId.Some? ==> r.value.instructorId == instructorId && SlotHeldBy(slots, timeslotId, instructorId.value))
      && r.value.createdAt == now
  {
  }

  /** `createBooking`: the guards in the source's order, then one appended
      row; the table is unchanged on every failure. */
  method CreateBooking(
    db: Database, fieldId: string, timeslotId: string, userId: string,
    withInstructor: bool, instructorId: Option<string>, newId: string, now: int)
    returns (r: Result<Booking, BookingError>)
    modifies db`bookings
    ensures r == CreateOutcome(db.fieldTimeslots, db.timeslots, db.prices, old(db.bookings),
      fieldId, timeslotId, userId, withInstructor, instructorId, newId, now)
    ensures db.bookings == if r.Success? then old(db.bookings) + [r.value] else old(db.bookings)
    ensures old(db.Valid()) && (forall k :: 0 <= k < |old(db.bookings)| ==> old(db.bookings)[k].id != newId) ==> db.Valid()
  {
    if userId == "" {
      return Failure(NotAuthenticated);
    }
    var slot := FindSlotData(db.fieldTimeslots, db.timeslots, db.prices, fieldId, timeslotId);
    if slot.None? {
      return Failure(SlotNotFound);
    }
    var existing := false;
    var i := 0;
    while i < |db.bookings|
      invariant 0 <= i <= |db.bookings|
      invariant existing <==> exists k :: 0 <= k < i && ConfirmedOn(db.bookings[k], fieldId, timeslotId)
    {
      if ConfirmedOn(db.bookings[i], fieldId, timeslotId) {
        existing := true;
      }
      i := i + 1;
    }
    if existing {
      return Failure(AlreadyBooked);
    }
    if withInstructor && Truthy(instructorId) && !SlotHeldBy(db.timeslots, timeslotId, instructorId.value) {
      return Failure(InstructorUnavailable);
    }
    r := CreateOutcome(db.fieldTimeslots, db.timeslots, db.prices, db.bookings,
      fieldId, timeslotId, userId, withInstructor, instructorId, newId, now);
    if DistinctBookingIds(db.bookings) && forall k :: 0 <= k < |db.bookings| ==> db.bookings[k].id != newId {
      AppendKeepsBookingIdsDistinct(db.bookings, r.value);
    }
    db.bookings := db.bookings + [r.value];
  }

  /** After a successful booking the slot is no longer offered for that
      field, on any day. */
  lemma BookedSlotNoLongerAvailable(
    links: seq<FieldTimeslot>, slots: seq<Timeslot>, prices: seq<Price>, bookings: seq<Booking>,
    fieldId: string, timeslotId: string, userId: string, withInstructor: bool, instructorId: Option<string>,
    newId: string, now: int, day: DayOfWeek)
    requires CreateOutcome(links, slots, prices, bookings, fieldId, timeslotId, userId, withInstructor, instructorId, newId, now).Success?
    ensures var b := CreateOutcome(links, slots, prices, bookings, fieldId, timeslotId, userId, withInstructor, instructorId, newId, now).value;
      forall o :: o in GetAvailableSlots(links, slots, prices, bookings + [b], fieldId, day) ==> o.id != timeslotId
  {
    var b := CreateOutcome(links, slots, prices, bookings, fieldId, timeslotId, userId, withInstructor, instructorId, newId, now).value;
    assert b in bookings + [b] && ConfirmedOn(b, fieldId, timeslotId);
  }

  /** A second booking of the same field and timeslot, by anyone, fails as
      already booked. */
  lemma SecondBookingFails(
    links: seq<FieldTimeslot>, slots: seq<Timeslot>, prices: seq<Price>, bookings: seq<Booking>,
    fieldId: string, timeslotId: string, userId: string, withInstructor: bool, instructorId: Option<string>,
    newId: string, now: int,
    userId2: string, withInstructor2: bool, instructorId2: Option<string>, newId2: string, now2: int)
    requires CreateOutcome(links, slots, prices, bookings, fieldId, timeslotId, userId, withInstructor, instructorId, newId, now).Success?
    requires userId2 != ""
    ensures var b := CreateOutcome(links, slots, prices, bookings, fieldId, timeslotId, userId, withInstructor, instructorId, newId, now).value;
      CreateOutcome(links, slots, prices, bookings + [b], fieldId, timeslotId, userId2, withInstructor2, instructorId2, newId2, now2) == Failure(AlreadyBooked)
  {
    var b := CreateOutcome(links, slots, prices, bookings, fieldId, timeslotId, userId, withInstructor, instructorId, newId, now).value;
    assert ConfirmedOn((bookings + [b])[|bookings|], fieldId, timeslotId);
  }

  /** Every offered slot that has a price can be booked without an
      instructor by any authenticated user. */
  lemma OfferedSlotCanBeBooked(
    links: seq<FieldTimeslot>, slots: seq<Timeslot>, prices: seq<Price>, bookings: seq<Booking>,
    fieldId: string, day: DayOfWeek, o: SlotOffer, userId: string, newId: string, now: int)
    requires o in GetAvailableSlots(links, slots, prices, bookings, fieldId, day)
    requires o.basePrice.Some?
    requires userId != ""
    ensures CreateOutcome(links, slots, prices, bookings, fieldId, o.id, userId, false, None, newId, now).Success?
  {
    AvailableIff(links, slots, prices, bookings, fieldId, day, o);
    var k :| 0 <= k < |links| && o in JoinRows(links[k], slots, prices, fieldId, day);
    JoinRowColumns(links[k], slots, prices, fieldId, day, o);
    assert LinkPriced(links[k], slots, prices, fieldId, o.id);
    assert FindSlotData(links, slots, prices, fieldId, o.id).Some?;
    assert !IsBooked(bookings, fieldId, o.id) by {
      forall j | 0 <= j < |bookings| ensures !ConfirmedOn(bookings[j], fieldId, o.id) {
        assert bookings[j] in bookings;
      }
    }
  }

  /** The instructor offered for a slot passes the instructor check of
      `createBooking`. */
  lemma OfferedInstructorAccepted(slots: seq<Timeslot>, users: seq<User>, roles: seq<Role>, timeslotId: string)
    requires AssignedInstructor(slots, users, roles, timeslotId) != []
    ensures SlotHeldBy(slots, timeslotId, AssignedInstructor(slots, users, roles, timeslotId)[0].id)
  {
  }

  // ---------------------------------------------------------------------
  // getMyBookings

  /** A row of the caller's bookings, left-joined with its field and timeslot. */
  datatype MyBooking = MyBooking(
    id: string,
    fieldName: Option<string>,
    fieldType: Option<string>,
    dayOfWeek: Option<DayOfWeek>,
    startTime: Option<Minutes>,
    endTime: Option<Minutes>,
    price: real,
    currency: string,
    withInstructor: bool,
    status: string,
    createdAt: int)

  function MyBookingRow(fields: seq<Field>, slots: seq<Timeslot>, b: Booking): MyBooking {
    var f := FindField(fields, b.fieldId);
    var t := if b.timeslotId.Some? then FindTimeslot(slots, b.timeslotId.value) else None;
    MyBooking(
      b.id,
      if f.Some? then Some(f.value.name) else None,
      if f.Some? then Some(f.value.fieldType) else None,
      if t.Some? then Some(t.value.dayOfWeek) else None,
      if t.Some? then Some(t.value.startTime) else None,
      if t.Some? then Some(t.value.endTime) else None,
      b.totalPrice, b.currency, b.withInstructor, b.status, b.createdAt)
  }

  /** The ordering key: ascending start time, rows without a timeslot last
      (the store's default for nulls in ascending order). */
  function StartKey(m: MyBooking): int {
    if m.startTime.Some? then m.startTime.value else 1440
  }

  predicate ByStartKey(a: MyBooking, b: MyBooking) {
    StartKey(a) <= StartKey(b)
  }

  lemma ByStartKeyTotal()
    ensures TotalPreorder(ByStartKey)
  {
  }

  predicate OwnConfirmed(b: Booking, userId: string) {
    b.userId == userId && b.status == Confirmed
  }

  /** `getMyBookings(userId)`: the caller's confirmed bookings, by start time. */
  function GetMyBookings(fields: seq<Field>, slots: seq<Timeslot>, bookings: seq<Booking>, userId: string): (r: Result<seq<MyBooking>, BookingError>)
    ensures r.Failure? <==> userId == ""
    ensures r.Failure? ==> r.error == NotAuthenticated
    ensures r.Success? ==> SortedBy(r.value, ByStartKey)
    ensures r.Success? ==> forall m :: m in r.value <==> exists b :: b in bookings && OwnConfirmed(b, userId) && m == MyBookingRow(fields, slots, b)
    ensures r.Success? ==> forall m :: m in r.value ==> m.status == Confirmed
    ensures r.Success? ==> |r.value| == |Filter(bookings, (b: Booking) => OwnConfirmed(b, userId))|
  {
    if userId == "" then Failure(NotAuthenticated)
    else
      var mine := Filter(bookings, (b: Booking) => OwnConfirmed(b, userId));
      var rows := seq(|mine|, i requires 0 <= i < |mine| => MyBookingRow(fields, slots, mine[i]));
      ByStartKeyTotal();
      var sorted := SortBy(rows, ByStartKey);
      assert forall m :: m in sorted <==> m in rows by {
        assert forall m :: m in sorted <==> m in multiset(sorted);
      }
      assert |sorted| == |rows| by {
        assert |multiset(sorted)| == |multiset(rows)|;
      }
      forall m | m in rows
        ensures exists b :: b in bookings && OwnConfirmed(b, userId) && m == MyBookingRow(fields, slots, b)
      {
        var i :| 0 <= i < |rows| && rows[i] == m;
        assert mine[i] in mine;
      }
      forall b | b in bookings && OwnConfirmed(b, userId)
        ensures MyBookingRow(fields, slots, b) in rows
      {
        assert b in mine;
        var i :| 0 <= i < |mine| && mine[i] == b;
        assert rows[i] == MyBookingRow(fields, slots, b);
      }
      Success(sorted)
  }

  // ---------------------------------------------------------------------
  // cancelBooking (lenient)

  /** Every row with the id gets status "cancelled" and, through the
      schema's `$onUpdate` hook on `updated_at`, update time `now`; nothing
      else changes. */
  function CancelAll(bookings: seq<Booking>, bookingId: string, now: int): (r: seq<Booking>)
    ensures |r| == |bookings|
    ensures forall i :: 0 <= i < |r| ==> r[i].(status := bookings[i].status, updatedAt := bookings[i].updatedAt) == bookings[i]
    ensures forall i :: 0 <= i < |r| && bookings[i].id == bookingId ==> r[i].status == Cancelled && r[i].updatedAt == now
    ensures forall i :: 0 <= i < |r| && bookings[i].id != bookingId ==> r[i] == bookings[i]
  {
    seq(|bookings|, i requires 0 <= i < |bookings| =>
      if bookings[i].id == bookingId then bookings[i].(status := Cancelled, updatedAt := now) else bookings[i])
  }

  predicate OwnedBy(bookings: seq<Booking>, bookingId: string, userId: string) {
    exists k :: 0 <= k < |bookings| && bookings[k].id == bookingId && bookings[k].userId == userId
  }

  /** The outcome of the lenient `cancelBooking`: an error, or the first
      cancelled row. Any status, "cancelled" included, may be cancelled. */
  function LenientCancelOutcome(bookings: seq<Booking>, bookingId: string, userId: string, now: int): (r: Result<Booking, BookingError>)
    ensures r == Failure(NotAuthenticated) <==> userId == ""
    ensures r == Failure(BookingNotFound) <==> userId != "" && !OwnedBy(bookings, bookingId, userId)
    ensures r.Failure? ==> r.error == NotAuthenticated || r.error == BookingNotFound
    ensures r.Success? ==> r.value.id == bookingId && r.value.status == Cancelled && r.value.updatedAt == now
    ensures r.Success? ==> r.value in CancelAll(bookings, bookingId, now)
  {
    if userId == "" then Failure(NotAuthenticated)
    else if !OwnedBy(bookings, bookingId, userId) then Failure(BookingNotFound)
    else
      var b := FindBooking(bookings, bookingId).value;
      var k :| 0 <= k < |bookings| && bookings[k] == b;
      assert CancelAll(bookings, bookingId, now)[k] == b.(status := Cancelled, updatedAt := now);
      Success(b.(status := Cancelled, updatedAt := now))
  }

  /** The lenient `cancelBooking`: ownership check, then the status update. */
  method LenientCancel(db: Database, bookingId: string, userId: string, now: int) returns (r: Result<Booking, BookingError>)
    modifies db`bookings
    ensures r == LenientCancelOutcome(old(db.bookings), bookingId, userId, now)
    ensures db.bookings == if r.Success? then CancelAll(old(db.bookings), bookingId, now) else old(db.bookings)
    ensures old(db.Valid()) ==> db.Valid()
  {
    r := LenientCancelOutcome(db.bookings, bookingId, userId, now);
    if r.Success? {
      db.bookings := CancelAll(db.bookings, bookingId, now);
    }
  }

  /** Cancelling again succeeds, and leaves the table as a single
      cancellation at the later time would have. */
  lemma LenientCancelIdempotent(bookings: seq<Booking>, bookingId: string, userId: string, now: int, later: int)
    requires LenientCancelOutcome(bookings, bookingId, userId, now).Success?
    ensures LenientCancelOutcome(CancelAll(bookings, bookingId, now), bookingId, userId, later).Success?
    ensures CancelAll(CancelAll(bookings, bookingId, now), bookingId, later) == CancelAll(bookings, bookingId, later)
  {
    var k :| 0 <= k < |bookings| && bookings[k].id == bookingId && bookings[k].userId == userId;
    var once := CancelAll(bookings, bookingId, now);
    assert once[k].id == bookingId && once[k].userId == userId;
    assert OwnedBy(once, bookingId, userId);
    CancelAllIdempotent(bookings, bookingId, now, later);
  }

  /** The status update applied twice is the later update applied once. */
  lemma CancelAllIdempotent(bookings: seq<Booking>, bookingId: string, now: int, later: int)
    ensures CancelAll(CancelAll(bookings, bookingId, now), bookingId, later) == CancelAll(bookings, bookingId, later)
  {
    var once := CancelAll(bookings, bookingId, now);
    var twice := CancelAll(once, bookingId, later);
    var direct := CancelAll(bookings, bookingId, later);
    forall i | 0 <= i < |once| ensures twice[i] == direct[i] {
      if once[i].id == bookingId {
        assert twice[i] == bookings[i].(status := Cancelled, updatedAt := later);
      }
    }
  }

  /** Once the only confirmed bookings of a slot are cancelled, the slot can
      be booked again: the double-booking guard no longer fires. */
  lemma CancelFreesSlot(bookings: seq<Booking>, bookingId: string, fieldId: string, timeslotId: string, now: int)
    requires forall k :: 0 <= k < |bookings| && ConfirmedOn(bookings[k], fieldId, timeslotId) ==> bookings[k].id == bookingId
    ensures !IsBooked(CancelAll(bookings, bookingId, now), fieldId, timeslotId)
  {
  }
}
