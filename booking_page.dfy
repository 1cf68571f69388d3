/** The client logic of the customer's booking page
    (app/customer/apartar-cancha/page.tsx): the slot selection list, the
    "same instructor on every selected slot" rule, the running total, the
    confirm handler that issues one booking per selected slot, and the
    time and weekday labels. */
module BookingPage {
  import opened Wrappers
  import opened Seqs
  import opened Text
  import opened Tables
  import opened CustomerBooking

  // ---------------------------------------------------------------------
  // toggleSlotSelection

  /** Removes every occurrence of `id` when it is selected, otherwise
      appends it at the end. */
  function ToggleSelection(selected: seq<string>, id: string): (r: seq<string>)
    ensures id in r <==> id !in selected
    ensures forall x :: x != id ==> (x in r <==> x in selected)
  {
    if id in selected then Filter(selected, (x: string) => x != id) else selected + [id]
  }

  /** Toggling an id that was not selected, and toggling it again, restores
      the list. */
  lemma ToggleTwiceWhenAbsent(selected: seq<string>, id: string)
    requires id !in selected
    ensures ToggleSelection(ToggleSelection(selected, id), id) == selected
  {
    var p := (x: string) => x != id;
    FilterSnoc(selected, id, p);
    FilterAll(selected, p);
  }

  /** Toggling a selected id twice keeps the same ids, with the id moved to
      the end: the same multiset when the list was duplicate-free. */
  lemma ToggleTwiceWhenPresent(selected: seq<string>, id: string)
    requires Distinct(selected)
    requires id in selected
    ensures multiset(ToggleSelection(ToggleSelection(selected, id), id)) == multiset(selected)
  {
    RemoveDistinct(selected, id);
  }

  /** Removing the one occurrence of `id` leaves the rest of the multiset. */
  lemma {:induction false} RemoveDistinct(s: seq<string>, id: string)
    requires Distinct(s)
    requires id in s
    ensures multiset(Filter(s, (x: string) => x != id)) + multiset{id} == multiset(s)
  {
    var p := (x: string) => x != id;
    assert s == [s[0]] + s[1..];
    DistinctTail(s);
    if s[0] == id {
      FilterAll(s[1..], p);
    } else {
      RemoveDistinct(s[1..], id);
      assert Filter(s, p) == [s[0]] + Filter(s[1..], p);
    }
  }

  /** The order is not restored: toggling "a" twice in ["a", "b"] gives ["b", "a"]. */
  lemma ToggleTwiceReorders()
    ensures ToggleSelection(ToggleSelection(["a", "b"], "a"), "a") == ["b", "a"]
  {
    var p := (x: string) => x != "a";
    assert "a" in ["a", "b"];
    assert Filter(["a", "b"], p) == ["b"] by {
      assert ["a", "b"][1..] == ["b"];
      assert ["b"][1..] == [];
    }
    assert "a" !in ["b"];
  }

  /** A duplicate-free selection stays duplicate-free. */
  lemma ToggleKeepsDistinct(selected: seq<string>, id: string)
    requires Distinct(selected)
    ensures Distinct(ToggleSelection(selected, id))
  {
    if id in selected {
      FilterKeepsDistinct(selected, (x: string) => x != id);
    }
  }

  lemma {:induction false} FilterKeepsDistinct(s: seq<string>, p: string -> bool)
    requires Distinct(s)
    ensures Distinct(Filter(s, p))
  {
    if s != [] {
      DistinctTail(s);
      FilterKeepsDistinct(s[1..], p);
    }
  }

  // ---------------------------------------------------------------------
  // The instructor rule of loadInstructors

  /** Every list is non-empty and starts with the instructor `id`. */
  predicate AllStartWith(lists: seq<seq<InstructorInfo>>, id: string) {
    forall i :: 0 <= i < |lists| ==> lists[i] != [] && lists[i][0].id == id
  }

  predicate NonEmpty(l: seq<InstructorInfo>) {
    |l| > 0
  }

  /** What `getAvailableInstructorsForSlot` returns for each selected slot. */
  function BySlot(slots: seq<Timeslot>, users: seq<User>, roles: seq<Role>, selected: seq<string>): (r: seq<seq<InstructorInfo>>)
    ensures |r| == |selected|
    ensures forall i :: 0 <= i < |r| ==> r[i] == AssignedInstructor(slots, users, roles, selected[i])
  {
    seq(|selected|, i requires 0 <= i < |selected| => AssignedInstructor(slots, users, roles, selected[i]))
  }

  /** The comparison of `loadInstructors` over the per-slot lists: the
      lists that found an instructor, and the first instructor found when
      every list found one and all share its id. */
  function SharedInstructor(lists: seq<seq<InstructorInfo>>): (r: seq<InstructorInfo>)
    ensures |r| <= 1
  {
    var withOne: seq<seq<InstructorInfo>> := Filter(lists, NonEmpty);
    if |withOne| == 0 then []
    else if |withOne| == |lists| then
      var first := withOne[0][0];
      if forall i :: 0 <= i < |withOne| ==> withOne[i][0].id == first.id then [first] else []
    else []
  }

  /** One instructor comes out exactly when every list starts with the same
      instructor id, and it is the first list's. */
  lemma SharedInstructorRule(lists: seq<seq<InstructorInfo>>)
    ensures |SharedInstructor(lists)| == 1 <==> lists != [] && lists[0] != [] && AllStartWith(lists, lists[0][0].id)
    ensures SharedInstructor(lists) != [] ==> SharedInstructor(lists)[0] == lists[0][0]
  {
    if lists != [] {
      if forall i :: 0 <= i < |lists| ==> lists[i] != [] {
        SharedWhenAllFound(lists);
      } else {
        var i :| 0 <= i < |lists| && lists[i] == [];
        SharedWhenOneMissing(lists, i);
      }
    }
  }

  lemma SharedWhenAllFound(lists: seq<seq<InstructorInfo>>)
    requires lists != []
    requires forall i :: 0 <= i < |lists| ==> lists[i] != []
    ensures SharedInstructor(lists) == if AllStartWith(lists, lists[0][0].id) then [lists[0][0]] else []
  {
    assert forall l :: l in lists ==> NonEmpty(l);
    FilterAll(lists, NonEmpty);
  }

  lemma SharedWhenOneMissing(lists: seq<seq<InstructorInfo>>, i: nat)
    requires i < |lists| && lists[i] == []
    ensures SharedInstructor(lists) == []
  {
    FilterKeepsLength(lists, NonEmpty);
    assert lists[i] in lists;
  }

  /** `loadInstructors`: nobody unless an instructor is wanted on a padel
      field for a non-empty selection; then the shared instructor. */
  function OfferedInstructors(withInstructor: bool, fieldType: string, selected: seq<string>,
    slots: seq<Timeslot>, users: seq<User>, roles: seq<Role>): (r: seq<InstructorInfo>)
    ensures |r| <= 1
  {
    if !withInstructor || |selected| == 0 || fieldType != "padel" then []
    else SharedInstructor(BySlot(slots, users, roles, selected))
  }

  /** Exactly one instructor is offered iff an instructor is wanted, the
      field is padel, something is selected and the assigned instructor of
      every selected slot has the same id; that instructor is the first
      slot's, and it holds every selected slot. */
  lemma OfferedInstructorRule(withInstructor: bool, fieldType: string, selected: seq<string>,
    slots: seq<Timeslot>, users: seq<User>, roles: seq<Role>)
    ensures var lists := BySlot(slots, users, roles, selected);
      |OfferedInstructors(withInstructor, fieldType, selected, slots, users, roles)| == 1 <==>
        (&& withInstructor && fieldType == "padel" && selected != []
         && lists[0] != [] && AllStartWith(lists, lists[0][0].id))
    ensures var r := OfferedInstructors(withInstructor, fieldType, selected, slots, users, roles);
      r != [] ==> r[0] == AssignedInstructor(slots, users, roles, selected[0])[0]
    ensures var r := OfferedInstructors(withInstructor, fieldType, selected, slots, users, roles);
      r != [] ==> forall i :: 0 <= i < |selected| ==> SlotHeldBy(slots, selected[i], r[0].id)
  {
    var lists := BySlot(slots, users, roles, selected);
    SharedInstructorRule(lists);
    var r := OfferedInstructors(withInstructor, fieldType, selected, slots, users, roles);
    if r != [] {
      forall i | 0 <= i < |selected| ensures SlotHeldBy(slots, selected[i], r[0].id) {
        assert lists[i] != [] && lists[i][0].id == r[0].id;
        OfferedInstructorAccepted(slots, users, roles, selected[i]);
      }
    }
  }

  // ---------------------------------------------------------------------
  // calculateTotal

  /** What one selected slot costs: its computed price plus, for padel with
      an instructor, the instructor price (0 when missing). */
  function SlotCost(o: SlotOffer, withInstructor: bool, fieldType: string): real {
    o.calculatedPrice + (if withInstructor && fieldType == "padel" then o.instructorPrice.GetOr(0.0) else 0.0)
  }

  /** The sum of the slot costs. */
  function TotalOf(offers: seq<SlotOffer>, withInstructor: bool, fieldType: string): real {
    if offers == [] then 0.0
    else TotalOf(offers[..|offers| - 1], withInstructor, fieldType) + SlotCost(offers[|offers| - 1], withInstructor, fieldType)
  }

  /** The offered slots whose id is selected, in the order they are offered. */
  function SelectedOffers(available: seq<SlotOffer>, selected: seq<string>): (r: seq<SlotOffer>)
    ensures forall o :: o in r <==> o in available && o.id in selected
  {
    Filter(available, (o: SlotOffer) => o.id in selected)
  }

  /** `calculateTotal`: the `forEach` accumulation over the selected slots. */
  method CalculateTotal(available: seq<SlotOffer>, selected: seq<string>, withInstructor: bool, fieldType: string)
    returns (total: real)
    ensures total == TotalOf(SelectedOffers(available, selected), withInstructor, fieldType)
  {
    var chosen := SelectedOffers(available, selected);
    total := 0.0;
    for i := 0 to |chosen|
      invariant total == TotalOf(chosen[..i], withInstructor, fieldType)
    {
      assert chosen[..i + 1][..i] == chosen[..i];
      total := total + SlotCost(chosen[i], withInstructor, fieldType);
    }
    assert chosen[..|chosen|] == chosen;
  }

  /** Nothing selected costs nothing. */
  lemma EmptySelectionCostsNothing(available: seq<SlotOffer>, withInstructor: bool, fieldType: string)
    ensures TotalOf(SelectedOffers(available, []), withInstructor, fieldType) == 0.0
  {
    FilterNone(available, (o: SlotOffer) => o.id in []);
  }

  /** The total depends only on which ids are selected, not on their order
      or repetition. */
  lemma TotalDependsOnIdsOnly(available: seq<SlotOffer>, s1: seq<string>, s2: seq<string>, withInstructor: bool, fieldType: string)
    requires forall x :: x in s1 <==> x in s2
    ensures TotalOf(SelectedOffers(available, s1), withInstructor, fieldType) == TotalOf(SelectedOffers(available, s2), withInstructor, fieldType)
  {
    FilterCongruent(available, (o: SlotOffer) => o.id in s1, (o: SlotOffer) => o.id in s2);
  }

  /** A selected id that no offered slot carries adds nothing. */
  lemma UnknownIdCostsNothing(available: seq<SlotOffer>, selected: seq<string>, id: string, withInstructor: bool, fieldType: string)
    requires forall o :: o in available ==> o.id != id
    ensures TotalOf(SelectedOffers(available, selected + [id]), withInstructor, fieldType)
      == TotalOf(SelectedOffers(available, selected), withInstructor, fieldType)
  {
    FilterCongruent(available, (o: SlotOffer) => o.id in selected + [id], (o: SlotOffer) => o.id in selected);
  }

  /** With non-negative prices the total is non-negative, and at least the
      cost of every slot it counts. */
  lemma {:induction false} TotalBounds(offers: seq<SlotOffer>, withInstructor: bool, fieldType: string)
    requires forall o :: o in offers ==> o.calculatedPrice >= 0.0 && o.instructorPrice.GetOr(0.0) >= 0.0
    ensures TotalOf(offers, withInstructor, fieldType) >= 0.0
    ensures forall o :: o in offers ==> TotalOf(offers, withInstructor, fieldType) >= SlotCost(o, withInstructor, fieldType)
  {
    if offers != [] {
      var init := offers[..|offers| - 1];
      assert offers == init + [offers[|offers| - 1]];
      TotalBounds(init, withInstructor, fieldType);
    }
  }

  // ---------------------------------------------------------------------
  // handleConfirmBooking

  datatype ConfirmResult =
    | NotSignedIn            // "Debes iniciar sesión para reservar"
    | NothingSelected        // "Debes seleccionar al menos una franja horaria"
    | NoInstructorAvailable  // "No hay instructor disponible para las franjas seleccionadas"
    | AllBooked(count: nat)  // "¡<count> reserva(s) confirmada(s)!"
    | StoppedAt(index: nat, error: BookingError)

  /** The instructor id passed to `createBooking`: the first offered
      instructor's, when one is wanted and the id is not empty. */
  function InstructorToUse(withInstructor: bool, offered: seq<InstructorInfo>): (r: Option<string>)
    ensures r.Some? <==> withInstructor && offered != [] && offered[0].id != ""
    ensures r.Some? ==> r.value == offered[0].id
  {
    if withInstructor && |offered| > 0 && offered[0].id != "" then Some(offered[0].id) else None
  }

  /** The bookings `createBooking` inserts for the selection, one slot after
      the other, and the error of the first one that fails. */
  function BookAll(
    links: seq<FieldTimeslot>, slots: seq<Timeslot>, prices: seq<Price>, bookings: seq<Booking>,
    fieldId: string, selected: seq<string>, userId: string, withInstructor: bool, instructorId: Option<string>,
    newIds: seq<string>, now: int): (r: (seq<Booking>, Option<BookingError>))
    requires |newIds| == |selected|
    ensures |r.0| <= |selected|
    decreases |selected|
  {
    if selected == [] then ([], None)
    else
      match CreateOutcome(links, slots, prices, bookings, fieldId, selected[0], userId, withInstructor, instructorId, newIds[0], now)
      case Failure(e) => ([], Some(e))
      case Success(b) =>
        var rest := BookAll(links, slots, prices, bookings + [b], fieldId, selected[1..], userId, withInstructor, instructorId, newIds[1..], now);
        ([b] + rest.0, rest.1)
  }

  /** The bookings of a run over `selected`: one confirmed booking of the
      caller per slot, in selection order, with the generated ids, stopping
      short exactly when some booking failed. */
  predicate ConfirmedPrefix(r: (seq<Booking>, Option<BookingError>), fieldId: string, selected: seq<string>,
    userId: string, newIds: seq<string>)
    requires |newIds| == |selected|
  {
    && |r.0| <= |selected|
    && (r.1.None? <==> |r.0| == |selected|)
    && forall i :: 0 <= i < |r.0| ==>
      && r.0[i].id == newIds[i] && r.0[i].fieldId == fieldId && r.0[i].userId == userId
      && r.0[i].timeslotId == Some(selected[i]) && r.0[i].status == Confirmed
  }

  /** The loop books a prefix of the selection, as `ConfirmedPrefix` says. */
  lemma {:induction false} BookAllShape(
    links: seq<FieldTimeslot>, slots: seq<Timeslot>, prices: seq<Price>, bookings: seq<Booking>,
    fieldId: string, selected: seq<string>, userId: string, withInstructor: bool, instructorId: Option<string>,
    newIds: seq<string>, now: int)
    requires |newIds| == |selected|
    ensures ConfirmedPrefix(BookAll(links, slots, prices, bookings, fieldId, selected, userId, withInstructor, instructorId, newIds, now),
      fieldId, selected, userId, newIds)
    decreases |selected|
  {
    if selected != [] {
      match CreateOutcome(links, slots, prices, bookings, fieldId, selected[0], userId, withInstructor, instructorId, newIds[0], now)
      case Failure(e) =>
      case Success(b) =>
        var rest := BookAll(links, slots, prices, bookings + [b], fieldId, selected[1..], userId, withInstructor, instructorId, newIds[1..], now);
        BookAllShape(links, slots, prices, bookings + [b], fieldId, selected[1..], userId, withInstructor, instructorId, newIds[1..], now);
        ConfirmedPrefixCons(b, rest, fieldId, selected, userId, newIds);
    }
  }

  lemma ConfirmedPrefixCons(b: Booking, rest: (seq<Booking>, Option<BookingError>), fieldId: string,
    selected: seq<string>, userId: string, newIds: seq<string>)
    requires |newIds| == |selected| && selected != []
    requires b.id == newIds[0] && b.fieldId == fieldId && b.userId == userId
    requires b.timeslotId == Some(selected[0]) && b.status == Confirmed
    requires ConfirmedPrefix(rest, fieldId, selected[1..], userId, newIds[1..])
    ensures ConfirmedPrefix(([b] + rest.0, rest.1), fieldId, selected, userId, newIds)
  {
  }

  /** `handleConfirmBooking`: the three guards, then one `createBooking` per
      selected slot in selection order; a failure stops the loop and keeps
      the bookings already made. `newIds` stands for the store's generated
      ids, one per selected slot. */
  method HandleConfirmBooking(
    db: Database, sessionUser: Option<string>, fieldId: string, selected: seq<string>,
    withInstructor: bool, offered: seq<InstructorInfo>, newIds: seq<string>, now: int)
    returns (r: ConfirmResult)
    requires |newIds| == |selected|
    modifies db`bookings
    ensures !Truthy(sessionUser) ==> r == NotSignedIn && db.bookings == old(db.bookings)
    ensures Truthy(sessionUser) && selected == [] ==> r == NothingSelected && db.bookings == old(db.bookings)
    ensures Truthy(sessionUser) && selected != [] && withInstructor && offered == [] ==>
      r == NoInstructorAvailable && db.bookings == old(db.bookings)
    ensures Truthy(sessionUser) && selected != [] && !(withInstructor && offered == []) ==>
      var out := BookAll(db.fieldTimeslots, db.timeslots, db.prices, old(db.bookings), fieldId, selected,
        sessionUser.value, withInstructor, InstructorToUse(withInstructor, offered), newIds, now);
      && db.bookings == old(db.bookings) + out.0
      && r == (if out.1.None? then AllBooked(|selected|) else StoppedAt(|out.0|, out.1.value))
  {
    if !Truthy(sessionUser) {
      return NotSignedIn;
    }
    if |selected| == 0 {
      return NothingSelected;
    }
    if withInstructor && |offered| == 0 {
      return NoInstructorAvailable;
    }
    var stopped, count := BookEach(db, fieldId, selected, sessionUser.value, withInstructor,
      InstructorToUse(withInstructor, offered), newIds, now);
    r := if stopped.None? then AllBooked(|selected|) else StoppedAt(count, stopped.value);
  }

  /** The loop of `handleConfirmBooking`: `createBooking` for each selected
      slot in order, until the first failure; returns that failure and the
      number of bookings made. */
  method BookEach(
    db: Database, fieldId: string, selected: seq<string>, userId: string,
    withInstructor: bool, instructorId: Option<string>, newIds: seq<string>, now: int)
    returns (stopped: Option<BookingError>, count: nat)
    requires |newIds| == |selected|
    modifies db`bookings
    ensures var out := BookAll(db.fieldTimeslots, db.timeslots, db.prices, old(db.bookings), fieldId, selected,
        userId, withInstructor, instructorId, newIds, now);
      db.bookings == old(db.bookings) + out.0 && stopped == out.1 && count == |out.0|
  {
    ghost var created: seq<Booking> := [];
    ghost var all := BookAll(db.fieldTimeslots, db.timeslots, db.prices, db.bookings, fieldId, selected,
      userId, withInstructor, instructorId, newIds, now);
    assert selected[0..] == selected && newIds[0..] == newIds;
    var i := 0;
    while i < |selected|
      invariant 0 <= i <= |selected|
      invariant |created| == i
      invariant db.bookings == old(db.bookings) + created
      invariant RunSplits(db.fieldTimeslots, db.timeslots, db.prices, db.bookings, fieldId, selected, i,
        userId, withInstructor, instructorId, newIds, now, all, created)
    {
      var booked := BookNext(db, fieldId, selected, i, userId, withInstructor, instructorId, newIds, now, all, created);
      if booked.Failure? {
        return Some(booked.error), i;
      }
      created := created + [booked.value];
      i := i + 1;
    }
    assert selected[i..] == [] && newIds[i..] == [];
    return None, i;
  }

  /** One turn of the confirm loop: `createBooking` for the `i`-th selected
      slot, which keeps the loop's invariant or ends the run. */
  method BookNext(
    db: Database, fieldId: string, selected: seq<string>, i: nat, userId: string,
    withInstructor: bool, instructorId: Option<string>, newIds: seq<string>, now: int,
    ghost all: (seq<Booking>, Option<BookingError>), ghost created: seq<Booking>)
    returns (booked: Result<Booking, BookingError>)
    requires i < |selected| && |newIds| == |selected|
    requires RunSplits(db.fieldTimeslots, db.timeslots, db.prices, db.bookings, fieldId, selected, i,
      userId, withInstructor, instructorId, newIds, now, all, created)
    modifies db`bookings
    ensures booked.Failure? ==> db.bookings == old(db.bookings) && all.0 == created && all.1 == Some(booked.error)
    ensures booked.Success? ==> db.bookings == old(db.bookings) + [booked.value]
    ensures booked.Success? ==>
      RunSplits(db.fieldTimeslots, db.timeslots, db.prices, db.bookings, fieldId, selected, i + 1,
        userId, withInstructor, instructorId, newIds, now, all, created + [booked.value])
  {
    booked := CreateBooking(db, fieldId, selected[i], userId, withInstructor, instructorId, newIds[i], now);
    BookEachStep(db.fieldTimeslots, db.timeslots, db.prices, old(db.bookings), fieldId, selected, i, userId, withInstructor,
      instructorId, newIds, now, all, created, booked);
  }

  /** The confirm loop's invariant: the bookings made so far, followed by
      what the rest of the selection books, are the whole selection's. */
  ghost predicate RunSplits(
    links: seq<FieldTimeslot>, slots: seq<Timeslot>, prices: seq<Price>, bookings: seq<Booking>,
    fieldId: string, selected: seq<string>, i: nat, userId: string, withInstructor: bool, instructorId: Option<string>,
    newIds: seq<string>, now: int, all: (seq<Booking>, Option<BookingError>), created: seq<Booking>)
    requires i <= |selected| && |newIds| == |selected|
  {
    var rest := BookAll(links, slots, prices, bookings, fieldId, selected[i..], userId, withInstructor, instructorId, newIds[i..], now);
    all.0 == created + rest.0 && all.1 == rest.1
  }

  /** One turn of the confirm loop keeps its invariant: the bookings made
      so far followed by what the rest of the selection books are the
      bookings of the whole selection. */
  lemma BookEachStep(
    links: seq<FieldTimeslot>, slots: seq<Timeslot>, prices: seq<Price>, before: seq<Booking>,
    fieldId: string, selected: seq<string>, i: nat, userId: string, withInstructor: bool, instructorId: Option<string>,
    newIds: seq<string>, now: int,
    all: (seq<Booking>, Option<BookingError>), created: seq<Booking>, booked: Result<Booking, BookingError>)
    requires i < |selected| && |newIds| == |selected|
    requires booked == CreateOutcome(links, slots, prices, before, fieldId, selected[i], userId, withInstructor, instructorId, newIds[i], now)
    requires RunSplits(links, slots, prices, before, fieldId, selected, i, userId, withInstructor, instructorId, newIds, now, all, created)
    ensures booked.Failure? ==> all.0 == created && all.1 == Some(booked.error)
    ensures booked.Success? ==>
      RunSplits(links, slots, prices, before + [booked.value], fieldId, selected, i + 1, userId, withInstructor, instructorId, newIds, now,
        all, created + [booked.value])
  {
    var here := BookAll(links, slots, prices, before, fieldId, selected[i..], userId, withInstructor, instructorId, newIds[i..], now);
    BookAllStep(links, slots, prices, before, fieldId, selected, i, userId, withInstructor, instructorId, newIds, now);
    if booked.Failure? {
      assert created + [] == created;
    } else {
      var next := BookAll(links, slots, prices, before + [booked.value], fieldId, selected[i + 1..], userId, withInstructor, instructorId, newIds[i + 1..], now);
      SplitMoves(all, created, here, booked.value, next);
    }
  }

  /** Moving one booking from the rest of the run to the bookings made. */
  lemma SplitMoves(all: (seq<Booking>, Option<BookingError>), created: seq<Booking>,
    here: (seq<Booking>, Option<BookingError>), b: Booking, next: (seq<Booking>, Option<BookingError>))
    requires all.0 == created + here.0 && all.1 == here.1
    requires here.0 == [b] + next.0 && here.1 == next.1
    ensures all.0 == (created + [b]) + next.0 && all.1 == next.1
  {
  }

  /** One turn of the confirm loop: the booking of the `i`-th selected slot,
      then the rest of the selection against the grown table. */
  lemma BookAllStep(
    links: seq<FieldTimeslot>, slots: seq<Timeslot>, prices: seq<Price>, bookings: seq<Booking>,
    fieldId: string, selected: seq<string>, i: nat, userId: string, withInstructor: bool, instructorId: Option<string>,
    newIds: seq<string>, now: int)
    requires i < |selected| && |newIds| == |selected|
    ensures var out := CreateOutcome(links, slots, prices, bookings, fieldId, selected[i], userId, withInstructor, instructorId, newIds[i], now);
      var here := BookAll(links, slots, prices, bookings, fieldId, selected[i..], userId, withInstructor, instructorId, newIds[i..], now);
      && (out.Failure? ==> here.0 == [] && here.1 == Some(out.error))
      && (out.Success? ==>
            var next := BookAll(links, slots, prices, bookings + [out.value], fieldId, selected[i + 1..], userId, withInstructor, instructorId, newIds[i + 1..], now);
            here.0 == [out.value] + next.0 && here.1 == next.1)
  {
    assert selected[i..][0] == selected[i] && selected[i..][1..] == selected[i + 1..];
    assert newIds[i..][0] == newIds[i] && newIds[i..][1..] == newIds[i + 1..];
  }

  /** When the offered instructor holds every selected slot, no booking of
      the loop fails for the instructor check. */
  lemma {:induction false} SharedInstructorNeverRejected(
    links: seq<FieldTimeslot>, slots: seq<Timeslot>, prices: seq<Price>, bookings: seq<Booking>,
    fieldId: string, selected: seq<string>, userId: string, instructorId: string,
    newIds: seq<string>, now: int)
    requires |newIds| == |selected|
    requires forall i :: 0 <= i < |selected| ==> SlotHeldBy(slots, selected[i], instructorId)
    ensures BookAll(links, slots, prices, bookings, fieldId, selected, userId, true, Some(instructorId), newIds, now).1
      != Some(InstructorUnavailable)
    decreases |selected|
  {
    if selected != [] {
      match CreateOutcome(links, slots, prices, bookings, fieldId, selected[0], userId, true, Some(instructorId), newIds[0], now)
      case Failure(e) =>
      case Success(b) =>
        assert forall i :: 0 <= i < |selected[1..]| ==> selected[1..][i] == selected[i + 1];
        SharedInstructorNeverRejected(links, slots, prices, bookings + [b], fieldId, selected[1..], userId, instructorId, newIds[1..], now);
    }
  }

  /** The instructor the page offers is never rejected by the bookings it
      confirms. */
  lemma OfferedInstructorNeverRejected(
    links: seq<FieldTimeslot>, slots: seq<Timeslot>, prices: seq<Price>, bookings: seq<Booking>,
    users: seq<User>, roles: seq<Role>, fieldId: string, fieldType: string, selected: seq<string>,
    userId: string, newIds: seq<string>, now: int)
    requires |newIds| == |selected|
    ensures var offered := OfferedInstructors(true, fieldType, selected, slots, users, roles);
      BookAll(links, slots, prices, bookings, fieldId, selected, userId, true, InstructorToUse(true, offered), newIds, now).1
        != Some(InstructorUnavailable)
  {
    var offered := OfferedInstructors(true, fieldType, selected, slots, users, roles);
    OfferedInstructorRule(true, fieldType, selected, slots, users, roles);
    if offered != [] && offered[0].id != "" {
      SharedInstructorNeverRejected(links, slots, prices, bookings, fieldId, selected, userId, offered[0].id, newIds, now);
    } else {
      NoInstructorNeverRejected(links, slots, prices, bookings, fieldId, selected, userId, newIds, now);
    }
  }

  /** Without an instructor id the instructor check never fires. */
  lemma {:induction false} NoInstructorNeverRejected(
    links: seq<FieldTimeslot>, slots: seq<Timeslot>, prices: seq<Price>, bookings: seq<Booking>,
    fieldId: string, selected: seq<string>, userId: string, newIds: seq<string>, now: int)
    requires |newIds| == |selected|
    ensures BookAll(links, slots, prices, bookings, fieldId, selected, userId, true, None, newIds, now).1
      != Some(InstructorUnavailable)
    decreases |selected|
  {
    if selected != [] {
      match CreateOutcome(links, slots, prices, bookings, fieldId, selected[0], userId, true, None, newIds[0], now)
      case Failure(e) =>
      case Success(b) =>
        NoInstructorNeverRejected(links, slots, prices, bookings + [b], fieldId, selected[1..], userId, newIds[1..], now);
    }
  }

  /** Selecting the same slot twice books it once: the second request fails
      as already booked. */
  lemma RepeatedSlotBookedOnce(
    links: seq<FieldTimeslot>, slots: seq<Timeslot>, prices: seq<Price>, bookings: seq<Booking>,
    fieldId: string, timeslotId: string, userId: string, withInstructor: bool, instructorId: Option<string>,
    id1: string, id2: string, now: int)
    requires CreateOutcome(links, slots, prices, bookings, fieldId, timeslotId, userId, withInstructor, instructorId, id1, now).Success?
    ensures var out := BookAll(links, slots, prices, bookings, fieldId, [timeslotId, timeslotId], userId, withInstructor, instructorId, [id1, id2], now);
      |out.0| == 1 && out.1 == Some(AlreadyBooked)
  {
    var b := CreateOutcome(links, slots, prices, bookings, fieldId, timeslotId, userId, withInstructor, instructorId, id1, now).value;
    SecondBookingFails(links, slots, prices, bookings, fieldId, timeslotId, userId, withInstructor, instructorId, id1, now,
      userId, withInstructor, instructorId, id2, now);
    assert [timeslotId, timeslotId][1..] == [timeslotId];
    assert [id1, id2][1..] == [id2];
  }

  // ---------------------------------------------------------------------
  // formatTime and getDayLabel

  /** "HH:MM", both fields zero-padded to two digits. */
  function FormatTime(m: Minutes): (r: string)
    ensures |r| == 5 && r[2] == ':'
    ensures r == [DigitChar(m / 60 / 10), DigitChar(m / 60 % 10), ':', DigitChar(m % 60 / 10), DigitChar(m % 60 % 10)]
  {
    TwoDigits(m / 60);
    TwoDigits(m % 60);
    PadStart(NatToString(m / 60), 2, '0') + ":" + PadStart(NatToString(m % 60), 2, '0')
  }

  /** Reads an "HH:MM" text back as minutes since midnight. */
  function ParseTime(s: string): int
    requires |s| == 5 && IsDigit(s[0]) && IsDigit(s[1]) && IsDigit(s[3]) && IsDigit(s[4])
  {
    (DigitValue(s[0]) * 10 + DigitValue(s[1])) * 60 + DigitValue(s[3]) * 10 + DigitValue(s[4])
  }

  /** The formatted time reads back as the same time, so distinct times
      print differently. */
  lemma FormatTimeRoundTrip(m: Minutes)
    ensures ParseTime(FormatTime(m)) == m
  {
    DigitRoundTrip(m / 60 / 10);
    DigitRoundTrip(m / 60 % 10);
    DigitRoundTrip(m % 60 / 10);
    DigitRoundTrip(m % 60 % 10);
  }

  /** An entry of the weekday options. */
  datatype DayOption = DayOption(value: string, name: string, short: string, index: nat)

  const DaysOptions: seq<DayOption> := [
    DayOption("monday", "Lunes", "Lu", 0),
    DayOption("tuesday", "Martes", "Ma", 1),
    DayOption("wednesday", "Mi\U{E9}rcoles", "Mi", 2),
    DayOption("thursday", "Jueves", "Ju", 3),
    DayOption("friday", "Viernes", "Vi", 4),
    DayOption("saturday", "S\U{E1}bado", "Sa", 5),
    DayOption("sunday", "Domingo", "Do", 6)
  ]

  /** The weekday of each option, in the order of the options. */
  function DayAt(k: nat): DayOfWeek
    requires k < 7
  {
    if k == 0 then Monday else if k == 1 then Tuesday else if k == 2 then Wednesday
    else if k == 3 then Thursday else if k == 4 then Friday else if k == 5 then Saturday else Sunday
  }

  /** The options list every weekday once, under a non-empty label. */
  lemma DaysOptionsShape()
    ensures |DaysOptions| == 7
    ensures forall k :: 0 <= k < 7 ==> DaysOptions[k].value == DayValue(DayAt(k)) && DaysOptions[k].name != ""
    ensures forall d: DayOfWeek :: DaysOptions[DayIndex(d)].value == DayValue(d)
  {
    forall k | 0 <= k < 7 ensures DaysOptions[k].value == DayValue(DayAt(k)) && DaysOptions[k].name != "" {
      if k == 0 {
      } else if k == 1 {
      } else if k == 2 {
      } else if k == 3 {
      } else if k == 4 {
      } else if k == 5 {
      } else {
        assert k == 6;
      }
    }
  }

  function DayIndex(d: DayOfWeek): (k: nat)
    ensures k < 7
  {
    match d
    case Monday => 0
    case Tuesday => 1
    case Wednesday => 2
    case Thursday => 3
    case Friday => 4
    case Saturday => 5
    case Sunday => 6
  }

  /** The label of the first option from position `k` on with that value
      (`Array.prototype.find`). */
  function FindLabel(options: seq<DayOption>, day: string, k: nat): (r: Option<string>)
    requires k <= |options|
    ensures r.None? <==> forall j :: k <= j < |options| ==> options[j].value != day
    ensures r.Some? ==> exists j :: k <= j < |options| && options[j].value == day && options[j].name == r.value
    ensures forall j :: (k <= j < |options| && options[j].value == day && (forall i :: k <= i < j ==> options[i].value != day)
      ==> r == Some(options[j].name))
    decreases |options| - k
  {
    if k == |options| then None
    else if options[k].value == day then Some(options[k].name)
    else FindLabel(options, day, k + 1)
  }

  /** `getDayLabel`: the Spanish label of a stored weekday value, "" for any
      other text. */
  function GetDayLabel(day: string): (r: string)
    ensures r == "" <==> forall d: DayOfWeek :: DayValue(d) != day
  {
    DaysOptionsShape();
    var found := FindLabel(DaysOptions, day, 0);
    if found.Some? then
      var j :| 0 <= j < |DaysOptions| && DaysOptions[j].value == day && DaysOptions[j].name == found.value;
      assert DayValue(DayAt(j)) == day;
      found.value
    else
      assert forall d: DayOfWeek :: DayValue(d) != day by {
        forall d: DayOfWeek ensures DayValue(d) != day {
          assert DaysOptions[DayIndex(d)].value == DayValue(d);
        }
      }
      ""
  }

  /** Distinct weekdays are stored as distinct values. */
  lemma DayValueDistinct(a: DayOfWeek, b: DayOfWeek)
    requires a != b
    ensures DayValue(a) != DayValue(b)
  {
    assert DayValue(a)[0] != DayValue(b)[0] || |DayValue(a)| != |DayValue(b)|;
  }

  lemma DayAtIndex(k: nat)
    requires k < 7
    ensures DayIndex(DayAt(k)) == k
  {
    if k == 0 {
    } else if k == 1 {
    } else if k == 2 {
    } else if k == 3 {
    } else if k == 4 {
    } else if k == 5 {
    } else {
      assert k == 6;
    }
  }

  /** Each weekday gets the label of its own option. */
  lemma DayLabelOf(d: DayOfWeek)
    ensures GetDayLabel(DayValue(d)) == DaysOptions[DayIndex(d)].name
  {
    DaysOptionsShape();
    EarlierOptionsDiffer(d);
    FindFirstMatch(DaysOptions, DayValue(d), DayIndex(d));
  }

  /** The search stops at the first option holding the value. */
  lemma FindFirstMatch(options: seq<DayOption>, day: string, j: nat)
    requires j < |options| && options[j].value == day
    requires forall i :: 0 <= i < j ==> options[i].value != day
    ensures FindLabel(options, day, 0) == Some(options[j].name)
  {
  }

  /** No option before a weekday's own holds its value. */
  lemma EarlierOptionsDiffer(d: DayOfWeek)
    ensures forall i :: 0 <= i < DayIndex(d) ==> DaysOptions[i].value != DayValue(d)
  {
    DaysOptionsShape();
    forall i | 0 <= i < DayIndex(d) ensures DaysOptions[i].value != DayValue(d) {
      DayAtIndex(i);
      DayValueDistinct(DayAt(i), d);
    }
  }

  /** The seven labels. */
  lemma DayLabels()
    ensures GetDayLabel(DayValue(Monday)) == "Lunes"
    ensures GetDayLabel(DayValue(Tuesday)) == "Martes"
    ensures GetDayLabel(DayValue(Wednesday)) == "Mi\U{E9}rcoles"
    ensures GetDayLabel(DayValue(Thursday)) == "Jueves"
    ensures GetDayLabel(DayValue(Friday)) == "Viernes"
    ensures GetDayLabel(DayValue(Saturday)) == "S\U{E1}bado"
    ensures GetDayLabel(DayValue(Sunday)) == "Domingo"
  {
    DayLabelOf(Monday);
    DayLabelOf(Tuesday);
    DayLabelOf(Wednesday);
    DayLabelOf(Thursday);
    DayLabelOf(Friday);
    DayLabelOf(Saturday);
    DayLabelOf(Sunday);
  }
}
