# Sports-field booking: a Dafny model of the booking logic

This project models a web app for booking sports fields (football-6 and
padel). Clients reserve hourly timeslots on a field, optionally with an
instructor. Admins do three things:

- enable and disable fields;
- register weekly timeslots;
- assign timeslots to instructors.

Instructors see their bookings grouped by timeslot.

## How the model is built

- **Database.** The store is the class `Tables.Database`. Each table is a `seq` field:
  - roles, users, fields, timeslots;
  - field-timeslot links;
  - prices;
  - bookings.

  Its `Valid()` states the primary keys the actions rely on: field, timeslot and booking ids are unique.
- **Writing actions.** A server action that writes is a method with a `modifies` clause on the table it changes. Its `ensures` gives two things:
  - the result, as a pure outcome function of the old tables (the error of the first failing guard, or the new row);
  - the new table, again as a function of the old tables.
- **Read-only actions** are functions over the tables.
- **Errors.** A thrown Spanish error message is an error constructor of a `Result`.
- **Page helpers.** The client-side helpers of the booking pages are functions, or methods where the source loops.
- **Properties** are proved as lemmas about these functions.

There are two price rules, and they are kept apart:

- **Hour-based tariff** (`lib/pricing.ts`, module `Pricing`): a base price per field type, plus a 2% surcharge from 17:00, rounded half up. Prices are integers.
- **Per-slot rule of the booking actions** (`CustomerBooking`): `base × (1 + surcharge / 100)`, in exact `real` arithmetic.

The two rules differ on cancellation:

- The customer booking page's `cancelBooking` (`CustomerBooking.LenientCancel`) only checks ownership. Cancelling an already cancelled booking succeeds again; only the update time moves.
- The reservations page's `cancelBooking` (`CustomerReservations.StrictCancel`) refuses a second cancellation.

Only the reservations page's `cancelBooking` (app/customer/ver-reservas/action.ts) refuses a second cancellation (`SecondStrictCancelFails`); the booking page's `cancelBooking` accepts it again (`LenientCancelIdempotent`).

The model has these inputs:

- **Authentication:** the signed-in user is an optional id parameter.
- **Generated values:** generated ids and the clock (`now`) are parameters.
- **Times of day:** minutes since midnight.

## Model

| member | source | states |
|---|---|---|
| Pricing.RoundDiv | lib/pricing.ts:26-27 | `Math.round(n / d)`: the result is within half a unit of n/d, with halves rounded up |
| Pricing.CalculatePrice | lib/pricing.ts:16-30 | before 17:00 the base price is unchanged; from 17:00 on, the price is 102/100 of the base, rounded half up |
| Pricing.SurchargeNeverLowers | lib/pricing.ts:25-30 | a non-negative price is never lowered by the surcharge |
| Pricing.SurchargeRaisesPrice | lib/pricing.ts:25-30 | a non-negative price rises exactly when the hour is at least 17 and the base is large enough for 2% to round to a unit |
| Pricing.GetBasePrice | lib/pricing.ts:37-40 | padel costs 120000; futbol-6 and every other type fall back to 100000 |
| Pricing.GetFinalPrice | lib/pricing.ts:48-51 | the base price of the type, or its surcharged value from 17:00 (102000 / 122400) |
| Pricing.FinalPriceExamples | lib/pricing-examples.tsx:21-29 | futbol-6 at 10:00 is 100000, padel at 18:00 is 122400, and 100000 and 120000 surcharge to 102000 and 122400 |
| Pricing.DisplayHourFormat | lib/pricing.ts:74 | an hour below 100 is displayed as two zero-padded digits followed by ":00" |
| Pricing.EntryAt | lib/pricing.ts:69-80 | the loop's row for one hour satisfies the row predicate (surcharged iff the hour is at least 17, final price from `CalculatePrice`, a display hour); the final price is always base plus surcharge amount, the amount is never negative for a non-negative base, and for a base of at least 25 it is positive exactly when the row is flagged |
| Pricing.GetPriceRange | lib/pricing.ts:60-85 | one row per hour in [start, end), in increasing order; empty when end ≤ start; every row built from the same base price |
| PricingExamples.CalculateBookingPrice | lib/pricing-examples.tsx:133-158 | there is no quote exactly when the duration is below 1 (reading `breakdown[0]` throws); otherwise there are `duration` rows for hours h, h+1, …, each with its final price; the total is their sum, and the hourly price is the first row's |
| PricingExamples.HoursTotalUniform | lib/pricing-examples.tsx:143-148 | hours all before 17:00 total count × base; hours all from 17:00 on total count × the surcharged price |
| PricingExamples.Example5Total | lib/pricing-examples.tsx:161-178 | futbol-6 from 17:00 for two hours totals 204000 |
| PricingExamples.PadelPriceRange | lib/pricing-examples.tsx:49-70 | padel from 08:00 to 21:00 gives 13 rows; rows at 120000 are unsurcharged and run up to 16:00; rows at 122400 are surcharged from 17:00 on |
| PricingExamples.DetectSurchargeHour | lib/pricing-examples.tsx:226-238 | the example's literals 17 and 2 are the tariff's `SurchargeStartHour` and `SurchargePercentage`: surcharged iff the hour is at least the tariff's start, with the tariff's percentage (0 otherwise) and the matching label; `DetectorAgreesWithPricing` ties the flag to the price rise |
| PricingExamples.DetectSurchargeExamples | lib/pricing-examples.tsx:240-247 | 14 is a normal hour at 0%, and 18 is surcharged at 2% |
| PricingExamples.DetectorAgreesWithPricing | lib/pricing-examples.tsx:226-238 | for any base of at least 25, the detector flags an hour exactly when `calculatePrice` raises the price |
| UserRoles.GetUserRole | lib/user.ts:5-21 | nothing for a missing or empty id, an unknown user or a missing role record; otherwise the name of the role the user's `roleId` refers to |
| UserRoles.RolePredicates | lib/user.ts:23-36 | each predicate holds exactly for its role name; at most one of them holds; none holds for an unknown user or an empty id |
| RouteGuard.AnyPrefixIff | proxy.ts:13-20 | `routes.some(startsWith)` holds iff some route is a prefix of the path |
| RouteGuard.IsPublicRoute | proxy.ts:7-15 | public iff the path starts with "/login" or "/register" |
| RouteGuard.IsProtectedRoute | proxy.ts:10-20 | protected iff the path starts with "/admin", "/dashboard" or "/profile" |
| RouteGuard.Proxy | proxy.ts:23-48 | without a session, protected paths go to "/login" and every other path passes; with a session, public paths go to "/dashboard" and every other path passes; never "/login" with a session, never "/dashboard" without one |
| RouteGuard.PrefixMatchingExamples | proxy.ts:13-47 | matching is by prefix: "/administrator" is protected, and "/register-instructor" is public, so it is redirected under a session |
| RouteGuard.ProtectedPassesWithSession | proxy.ts:40-47 | a protected path passes when there is a session |
| UserMenu.Split | components/user-menu.tsx:27 | `split` yields at least one piece |
| UserMenu.FirstLettersAreWordStarts | components/user-menu.tsx:26-29 | splitting on spaces and taking the first letter of each piece picks exactly the characters that start a word |
| UserMenu.GetInitials | components/user-menu.tsx:24-32 | "U" for a missing or empty name; otherwise the upper-cased word starts, cut to at most 2 characters |
| UserMenu.InitialsOfOneWord | components/user-menu.tsx:26-31 | a one-word name gives its single upper-cased first letter; a name of only spaces gives no letter |
| UserMenu.InitialsSkipEmptyPieces | components/user-menu.tsx:26-31 | "a  b" gives "AB": the empty piece between the two spaces contributes nothing |
| UserMenu.InitialsSkipLeadingSpace | components/user-menu.tsx:26-31 | " li" gives "L" |
| FieldImage.NormalizeKey | app/customer/obtener-disponibilidad-cancha/page.tsx:56-60 | the key holds only lower-case ASCII letters and digits, and is no longer than the input |
| FieldImage.KeyCharFixed | app/customer/obtener-disponibilidad-cancha/page.tsx:57-60 | a key character is left unchanged by accent stripping and lower-casing |
| FieldImage.NormalizeKeyIdempotent | app/customer/obtener-disponibilidad-cancha/page.tsx:56-60 | normalising a key again changes nothing |
| FieldImage.NormalizeAppend | app/customer/obtener-disponibilidad-cancha/page.tsx:56-60 | normalisation works character by character (it distributes over concatenation) |
| FieldImage.NormalizeDashedKey | app/customer/obtener-disponibilidad-cancha/page.tsx:56-69 | "futbol-6" becomes "futbol6" |
| FieldImage.NormalizeSpacedKey | app/customer/obtener-disponibilidad-cancha/page.tsx:56-69 | "Futbol 6" becomes "futbol6" |
| FieldImage.NormalizeAccentedKey | app/customer/obtener-disponibilidad-cancha/page.tsx:56-71 | "Pádel" becomes "padel" |
| FieldImage.ImageNumber | app/customer/obtener-disponibilidad-cancha/page.tsx:52-85 | always 1..4; a missing type or an unknown key gives index % 4 + 1; a football key gives index % 2 + 1; a padel key gives 3 + index % 2 |
| FieldImage.GetFieldImage | app/customer/obtener-disponibilidad-cancha/page.tsx:52-85 | the path is "/cancha" followed by that picture number and ".png" |
| FieldImage.ImageKinds | app/customer/obtener-disponibilidad-cancha/page.tsx:63-84 | football keys give pictures 1-2 and padel keys give 3-4; no key is in both lists |
| FieldImage.AccentedPadelImage | app/customer/obtener-disponibilidad-cancha/page.tsx:56-81 | an accented "Pádel" gets a padel picture |
| CustomerBooking.GetActiveFields | app/customer/apartar-cancha/action.ts:19-30 | exactly the active fields, in summary form, one row per active field |
| CustomerBooking.SurchargedPriceBounds | app/customer/apartar-cancha/action.ts:74-76 | a zero surcharge keeps the base; a non-negative surcharge never lowers a non-negative base; the price grows with the surcharge |
| CustomerBooking.PricedOffers | app/customer/apartar-cancha/action.ts:50 | one row per price row, each joined with that price row |
| CustomerBooking.JoinRows | app/customer/apartar-cancha/action.ts:35-58 | a link yields rows iff it belongs to the field and its timeslot exists, is active and falls on the day; then one row per price row attached to the link (the price table's `fieldTimeslotId` is not a key), or one unpriced row when there is none; the rows are exactly those joins |
| CustomerBooking.JoinRowColumns | app/customer/apartar-cancha/action.ts:35-58 | every row of a link carries its timeslot's columns and the link's ids, has a price iff the link has a price row and then the columns of one of them, and is priced as base × (1 + surcharge/100) |
| CustomerBooking.EveryPriceRowJoined | app/customer/apartar-cancha/action.ts:50 | every price row of a link that passes the filter appears in a row of its own |
| CustomerBooking.JoinedSlots | app/customer/apartar-cancha/action.ts:35-58 | the query rows are exactly the rows the links yield |
| CustomerBooking.JoinedSlotsSnoc | app/customer/apartar-cancha/action.ts:35-58 | a further link appends exactly its own rows, after those of the earlier links |
| CustomerBooking.BookedTimeslotIds | app/customer/apartar-cancha/action.ts:61-68 | exactly the timeslot ids of the field's confirmed bookings |
| CustomerBooking.GetAvailableSlots | app/customer/apartar-cancha/action.ts:33-85 | sorted by start time; a row is offered iff the join yields it and no confirmed booking of that field holds it; every row is active, of the field and of the day, priced as base × (1 + surcharge/100), with a missing base or surcharge counted as 0; as a multiset the rows are the joined rows that no booking holds, duplicates included |
| CustomerBooking.AvailableIff | app/customer/apartar-cancha/action.ts:61-82 | a slot is offered iff it is joined and no confirmed booking of that field and timeslot exists |
| CustomerBooking.OfferedOncePerPriceRow | app/customer/apartar-cancha/action.ts:35-82 | an unbooked link that passes the filter is listed once per price row it has, once when it has none: a timeslot with two prices is listed twice |
| CustomerBooking.UnconfirmedDoesNotBlock | app/customer/apartar-cancha/action.ts:61-68 | adding a booking that is not confirmed changes no availability |
| CustomerBooking.AssignedInstructor | app/customer/apartar-cancha/action.ts:88-108 | at most one instructor; when there is one, it is the user assigned to that timeslot and has the instructor role; when there is none, the timeslot is unknown, unassigned, or assigned to a user who is not an instructor |
| CustomerBooking.FindSlotData | app/customer/apartar-cancha/action.ts:124-143 | nothing exactly when no link of the field to that timeslot exists with both a timeslot row and a price; otherwise the data of one such link, with its price and the timeslot's surcharge |
| CustomerBooking.CreateOutcome | app/customer/apartar-cancha/action.ts:111-218 | a successful booking has the generated id, the field, the caller, the timeslot and status "confirmed" |
| CustomerBooking.CreateOutcomeCases | app/customer/apartar-cancha/action.ts:119-207 | for each error, that guard fails iff all earlier guards pass; the order is not signed in, then slot not found, then already booked, then instructor unavailable; on success the row carries the snapshot prices, and the total is the surcharged base plus the instructor fee when an instructor is wanted; the instructor id is set only when one is wanted and given |
| CustomerBooking.CreateBooking | app/customer/apartar-cancha/action.ts:111-218 | returns `CreateOutcome` of the old tables; the booking table gains exactly the new row on success and is unchanged on failure; with a fresh generated id the store stays valid (unique booking ids included) |
| CustomerBooking.BookedSlotNoLongerAvailable | app/customer/apartar-cancha/action.ts:192-207 | after a successful booking the slot is not offered for that field, on any day |
| CustomerBooking.SecondBookingFails | app/customer/apartar-cancha/action.ts:148-162 | a second booking of the same field and timeslot, by any signed-in user, fails as already booked |
| CustomerBooking.OfferedSlotCanBeBooked | app/customer/apartar-cancha/action.ts:111-207 | every offered slot that has a price can be booked without an instructor |
| CustomerBooking.OfferedInstructorAccepted | app/customer/apartar-cancha/action.ts:175-189 | the instructor offered for a slot passes the instructor check of `createBooking` |
| CustomerBooking.ByStartKeyTotal | app/customer/apartar-cancha/action.ts:245 | ordering by start time is a total preorder |
| CustomerBooking.GetMyBookings | app/customer/apartar-cancha/action.ts:221-251 | refused without a user id; otherwise exactly the caller's confirmed bookings, one row each, sorted by start time |
| CustomerBooking.CancelAll | app/customer/apartar-cancha/action.ts:272-276 | every row with the id becomes "cancelled" and gets update time `now` (the schema's `$onUpdate` hook); every other column and every other row is unchanged |
| CustomerBooking.LenientCancelOutcome | app/customer/apartar-cancha/action.ts:254-286 | not signed in iff the user id is empty; not found iff no booking with that id belongs to the caller; otherwise the cancelled row, updated at `now`, which is a row of `CancelAll` |
| CustomerBooking.LenientCancel | app/customer/apartar-cancha/action.ts:254-286 | returns that outcome; on success the table is `CancelAll` of the old one, and otherwise the table is unchanged; a valid store stays valid |
| CustomerBooking.LenientCancelIdempotent | app/customer/apartar-cancha/action.ts:261-276 | cancelling again succeeds, and the table is then what one cancellation at the later time gives |
| CustomerBooking.CancelAllIdempotent | app/customer/apartar-cancha/action.ts:272-276 | applying the update twice is the same as applying the later one once |
| CustomerBooking.CancelFreesSlot | app/customer/apartar-cancha/action.ts:272-276 | once the only confirmed bookings of a slot are cancelled, nothing books that slot |
| CustomerReservations.UserRows | app/customer/ver-reservas/action.ts:24-51 | exactly the caller's bookings whose field exists, joined with their field, timeslot and instructor, one row per such booking |
| CustomerReservations.GetUserBookings | app/customer/ver-reservas/action.ts:11-55 | refused without a session; otherwise those rows, one per booking of the caller on an existing field, newest `createdAt` first |
| CustomerReservations.UserBookingsAreOwn | app/customer/ver-reservas/action.ts:51 | every row shown is a booking of the caller, with its status |
| CustomerReservations.StrictCancelOutcome | app/customer/ver-reservas/action.ts:58-105 | the errors come in order: no session, then unknown booking, then another user's booking, then already cancelled; each holds iff its guard fails; on success the result is the first row with that id, cancelled at `now` |
| CustomerReservations.StrictCancel | app/customer/ver-reservas/action.ts:58-105 | returns that outcome; on success the table is `CustomerBooking.CancelAll` of the old one at `now`, and otherwise the table is unchanged; a valid store stays valid |
| CustomerReservations.CancelAllTail | app/customer/ver-reservas/action.ts:92-99 | the update works row by row |
| CustomerReservations.FindAfterCancel | app/customer/ver-reservas/action.ts:73-99 | after the update, the row found by the id is the cancelled row |
| CustomerReservations.SecondStrictCancelFails | app/customer/ver-reservas/action.ts:87-89 | a second cancellation of the same booking always fails as already cancelled |
| CustomerReservations.AnyLiveStatusCancellable | app/customer/ver-reservas/action.ts:87-99 | the owner can cancel a pending, confirmed or completed booking |
| Tables.AppendKeepsBookingIdsDistinct | app-schema.ts:91 | a booking with an id not yet in the table keeps the booking ids unique |
| CustomerReservations.StrictCancelChangesOneRow | app/customer/ver-reservas/action.ts:92-99 | with unique booking ids, exactly one row changes: its status and its update time |
| CustomerReservations.StrictImpliesLenient | app/customer/ver-reservas/action.ts:58-105 | whatever the strict cancellation accepts, the lenient one accepts too, returning the same row; both apply the same update to the table |
| FieldAdmin.GetAllFields | app/admin/deshabilitar-cancha/action.ts:9-22 | every field, active or not, one listing each (a permutation), sorted by name |
| FieldAdmin.SetActive | app/admin/deshabilitar-cancha/action.ts:42-87 | rows with the id get the flag and the update time; nothing else changes |
| FieldAdmin.ToggleOutcome | app/admin/deshabilitar-cancha/action.ts:25-98 | the field is missing iff no row has the id; "already disabled/enabled" iff the first row with the id already has the flag; otherwise the updated row |
| FieldAdmin.SetFieldActive | app/admin/deshabilitar-cancha/action.ts:25-98 | returns that outcome; on success the table is `SetActive` of the old one, and otherwise the table is unchanged; unique ids are kept |
| FieldAdmin.DisableField | app/admin/deshabilitar-cancha/action.ts:25-60 | `disableField`: that outcome with the flag false, and the same table update |
| FieldAdmin.EnableField | app/admin/deshabilitar-cancha/action.ts:63-98 | `enableField`: that outcome with the flag true, and the same table update |
| FieldAdmin.FindAfterSetActive | app/admin/deshabilitar-cancha/action.ts:27-49 | after the update, the row found by the id is the updated row |
| FieldAdmin.NotTwice | app/admin/deshabilitar-cancha/action.ts:37-77 | neither operation succeeds twice in a row on the same field |
| FieldAdmin.DisableThenEnableRestores | app/admin/deshabilitar-cancha/action.ts:42-87 | after a disable, the enable succeeds, and the pair restores every row apart from its update time |
| FieldAdmin.DisabledFieldNotOffered | app/admin/deshabilitar-cancha/action.ts:42-49 | a field that has been disabled is not among the customer's active fields |
| FieldAvailability.GetAvailableFields | app/customer/obtener-disponibilidad-cancha/action.ts:8-11 | exactly the active fields |
| FieldAvailability.GetFieldTimeslots | app/customer/obtener-disponibilidad-cancha/action.ts:14-21 | exactly the timeslots of the field, inactive ones included |
| FieldAvailability.GetFullAvailability | app/customer/obtener-disponibilidad-cancha/action.ts:24-38 | one entry per active field, in that order, each with all of its timeslots; it changes no table |
| InstructorAssignment.GetInstructors | app/admin/registrar-horario-instructor/action.ts:15-27 | exactly the users with the instructor role, one row per such user |
| InstructorAssignment.GetAvailableTimeslots | app/admin/registrar-horario-instructor/action.ts:30-45 | exactly the timeslots nobody holds |
| InstructorAssignment.GetInstructorTimeslots | app/admin/registrar-horario-instructor/action.ts:48-62 | exactly the timeslots that instructor holds |
| InstructorAssignment.ListingsDisjoint | app/admin/registrar-horario-instructor/action.ts:30-62 | no timeslot is both free and held |
| InstructorAssignment.ListedSlots | app/admin/registrar-horario-instructor/action.ts:95-99 | the rows the `IN (ids)` condition selects |
| InstructorAssignment.AssignAll | app/admin/registrar-horario-instructor/action.ts:122-125 | every listed row gets the instructor; nothing else changes |
| InstructorAssignment.AssignOutcome | app/admin/registrar-horario-instructor/action.ts:65-131 | the errors come in order: empty list, then unknown user, then not an instructor, then some ids without a row, then some already assigned (with their count); success iff every check passes, reporting the number of ids |
| InstructorAssignment.AssignTimeslots | app/admin/registrar-horario-instructor/action.ts:65-131 | returns that outcome; all or nothing: on success the table is `AssignAll` of the old one, and otherwise the table is unchanged |
| InstructorAssignment.ListedIdsDistinct | app/admin/registrar-horario-instructor/action.ts:95-99 | with unique timeslot ids, the selected rows have distinct ids |
| InstructorAssignment.RepeatedIdsRejected | app/admin/registrar-horario-instructor/action.ts:95-102 | a list with a repeated id is rejected before the already-assigned check |
| InstructorAssignment.AssignMovesSlots | app/admin/registrar-horario-instructor/action.ts:122-125 | after an assignment the listed slots are the instructor's, and none of them is listed as free |
| InstructorAssignment.ReleaseAll | app/admin/registrar-horario-instructor/action.ts:143-151 | listed rows held by that instructor become free; nothing else changes |
| InstructorAssignment.UnassignTimeslots | app/admin/registrar-horario-instructor/action.ts:134-157 | an empty list is refused and the table is unchanged; otherwise the table is `ReleaseAll` of the old one, and the count is the list length |
| InstructorAssignment.ReleaseUndoesAssign | app/admin/registrar-horario-instructor/action.ts:122-151 | releasing the ids of a successful assignment restores the table |
| InstructorAssignment.ReleaseKeepsOthers | app/admin/registrar-horario-instructor/action.ts:143-151 | no other instructor's timeslots change |
| InstructorAssignment.HeldRows | app/admin/registrar-horario-instructor/action.ts:179-195 | the rows one user contributes: none unless the user is an instructor, and then one per slot in the window that the user holds |
| InstructorAssignment.WindowHolders | app/admin/registrar-horario-instructor/action.ts:179-197 | a row names exactly the instructors holding a slot with the same day, start and end |
| InstructorAssignment.WindowHoldersSnoc | app/admin/registrar-horario-instructor/action.ts:179-197 | the list is each user's `HeldRows` in user order: a further user appends exactly that user's rows |
| InstructorAssignment.AvailableInstructorsForSlot | app/admin/registrar-horario-instructor/action.ts:160-198 | nothing for an unknown slot; otherwise the instructors holding a slot with the same day, start and end |
| InstructorAssignment.AssignedIsAvailable | app/customer/apartar-cancha/action.ts:88-108 | the instructor offered to a customer for a slot is among the admin's available instructors for that slot |
| TimeslotRegistration.GetActiveFields | app/admin/registrar-horario-cancha/action.ts:25-36 | exactly the active fields, one row per active field |
| TimeslotRegistration.FieldIdsOf | app/admin/registrar-horario-cancha/action.ts:46 | the field id of each entry, in order |
| TimeslotRegistration.FirstMissingField | app/admin/registrar-horario-cancha/action.ts:46-58 | nothing iff every id names a field; otherwise the first id of the list that names none |
| TimeslotRegistration.FirstEntryError | app/admin/registrar-horario-cancha/action.ts:61-73 | nothing iff every entry has both times with the end after the start; otherwise the error of the first entry that has one |
| TimeslotRegistration.ValidationError | app/admin/registrar-horario-cancha/action.ts:39-73 | an empty batch is refused; a field error is reported iff some entry names a missing field, and then with the field of the first such entry; a time error only when every field exists, and then the error of the first bad entry; the batch is accepted iff it is non-empty, every field exists and every entry is valid |
| TimeslotRegistration.NewRows | app/admin/registrar-horario-cancha/action.ts:78-107 | one row per entry, in order: unassigned, with the entry's field, day, times and active flag, and end after start |
| TimeslotRegistration.FirstMissingFieldSnoc | app/admin/registrar-horario-cancha/action.ts:49-58 | a further id is reported only when every earlier id names a field |
| TimeslotRegistration.DedupKeepsFirstMissingField | app/admin/registrar-horario-cancha/action.ts:46-58 | checking the distinct ids in first-seen order reports the same id as checking every entry's id in order |
| TimeslotRegistration.CheckFields | app/admin/registrar-horario-cancha/action.ts:46-58 | the first validation loop finds the first missing field |
| TimeslotRegistration.CheckEntries | app/admin/registrar-horario-cancha/action.ts:61-73 | the second validation loop finds the first bad entry |
| TimeslotRegistration.InsertRows | app/admin/registrar-horario-cancha/action.ts:76-107 | the insert loop appends exactly `NewRows` to the table |
| TimeslotRegistration.SaveTimeSlots | app/admin/registrar-horario-cancha/action.ts:39-114 | fails iff validation fails, with its error, and then adds no row; otherwise it appends `NewRows` and returns them; with fresh, distinct generated ids the store stays valid |
| TimeslotRegistration.EndNotAfterStartRejected | app/admin/registrar-horario-cancha/action.ts:66-73 | an entry whose end is not after its start, including equal times, sinks the batch |
| TimeslotRegistration.MissingTimeRejected | app/admin/registrar-horario-cancha/action.ts:61-64 | an entry missing a time sinks the batch |
| TimeslotRegistration.MissingFieldReported | app/admin/registrar-horario-cancha/action.ts:46-58 | a batch naming a missing field is refused with the field error |
| TimeslotRegistration.InsertKeepsIdsUnique | app/admin/registrar-horario-cancha/action.ts:78-107 | with fresh, distinct generated ids, the timeslot ids stay unique |
| InstructorSchedule.ScheduleRows | app/instructor/obtener-horarios/action.ts:24-49 | exactly the bookings naming the caller as instructor, one row per booking, newest first |
| InstructorSchedule.FirstSeenKeys | app/instructor/obtener-horarios/action.ts:63-79 | the distinct non-empty timeslot ids of the rows, in order of first occurrence |
| InstructorSchedule.Grouped | app/instructor/obtener-horarios/action.ts:63-79 | one group per key |
| InstructorSchedule.GroupedShape | app/instructor/obtener-horarios/action.ts:64-78 | each group is non-empty and holds exactly the rows of its key, in input order; its day, start and end come from its first booking |
| InstructorSchedule.NoKeyStep | app/instructor/obtener-horarios/action.ts:64 | a row without a timeslot id changes nothing |
| InstructorSchedule.NewKeyStep | app/instructor/obtener-horarios/action.ts:66-75 | the first row of an unseen key appends a new group headed by it |
| InstructorSchedule.OldKeyStep | app/instructor/obtener-horarios/action.ts:77-78 | a row of a seen key is appended to that key's group only |
| InstructorSchedule.GroupByTimeslot | app/instructor/obtener-horarios/action.ts:63-79 | the loop with its key-to-group index computes `Grouped` |
| InstructorSchedule.GroupSizesSum | app/instructor/obtener-horarios/action.ts:63-79 | the group sizes add up to the number of rows that have a timeslot id |
| InstructorSchedule.SlotLabelsDistinct | app/instructor/obtener-horarios/action.ts:81-84 | the positional labels "slot-i" are distinct |
| InstructorSchedule.Labelled | app/instructor/obtener-horarios/action.ts:81-84 | group j is labelled "slot-j" and keeps its bookings |
| InstructorSchedule.GetInstructorSchedule | app/instructor/obtener-horarios/action.ts:9-88 | refused without a caller id; otherwise the caller's rows, grouped and labelled |
| BookingPage.ToggleSelection | app/customer/apartar-cancha/page.tsx:143-149 | the id ends selected iff it was not; every other id keeps its state |
| BookingPage.ToggleTwiceWhenAbsent | app/customer/apartar-cancha/page.tsx:143-149 | toggling an id that was not selected twice restores the list |
| BookingPage.ToggleTwiceWhenPresent | app/customer/apartar-cancha/page.tsx:143-149 | toggling a selected id twice restores the multiset of a duplicate-free list |
| BookingPage.ToggleTwiceReorders | app/customer/apartar-cancha/page.tsx:143-149 | the order is not restored: ["a", "b"] becomes ["b", "a"] |
| BookingPage.ToggleKeepsDistinct | app/customer/apartar-cancha/page.tsx:143-149 | a duplicate-free selection stays duplicate-free |
| BookingPage.BySlot | app/customer/apartar-cancha/page.tsx:162-164 | the instructor list fetched for each selected slot |
| BookingPage.SharedInstructorRule | app/customer/apartar-cancha/page.tsx:166-189 | one instructor comes out iff every list starts with the same instructor id, and it is the first list's |
| BookingPage.SharedWhenAllFound | app/customer/apartar-cancha/page.tsx:172-185 | when every slot has an instructor, the first one is offered iff all share its id |
| BookingPage.SharedWhenOneMissing | app/customer/apartar-cancha/page.tsx:166-189 | a slot without an instructor means nobody is offered |
| BookingPage.OfferedInstructorRule | app/customer/apartar-cancha/page.tsx:152-189 | exactly one instructor is offered iff an instructor is wanted, the field is padel, the selection is non-empty and every selected slot has the same instructor; that instructor holds every selected slot |
| BookingPage.SelectedOffers | app/customer/apartar-cancha/page.tsx:201 | the offered slots whose id is selected |
| BookingPage.CalculateTotal | app/customer/apartar-cancha/page.tsx:200-213 | the accumulation equals the total of slot prices plus instructor fees over the selected offered slots |
| BookingPage.EmptySelectionCostsNothing | app/customer/apartar-cancha/page.tsx:200-213 | an empty selection totals 0 |
| BookingPage.TotalDependsOnIdsOnly | app/customer/apartar-cancha/page.tsx:200-213 | the total depends only on which ids are selected |
| BookingPage.UnknownIdCostsNothing | app/customer/apartar-cancha/page.tsx:200-213 | a selected id that no offered slot carries adds nothing |
| BookingPage.TotalBounds | app/customer/apartar-cancha/page.tsx:200-213 | with non-negative prices the total is non-negative and at least each slot's cost |
| BookingPage.InstructorToUse | app/customer/apartar-cancha/page.tsx:238 | an id is passed iff an instructor is wanted and the first offered one has a non-empty id |
| BookingPage.BookAll | app/customer/apartar-cancha/page.tsx:241-249 | no more bookings than selected slots |
| BookingPage.BookAllShape | app/customer/apartar-cancha/page.tsx:241-249 | the loop books a prefix of the selection, each booking confirmed, for the caller, with its generated id; it stops short exactly when a booking fails |
| BookingPage.HandleConfirmBooking | app/customer/apartar-cancha/page.tsx:215-266 | no user, no selection, or an instructor wanted with none offered: the matching message and no booking; otherwise the table gains exactly the bookings of the run, and earlier bookings are kept when a later one fails |
| BookingPage.BookEach | app/customer/apartar-cancha/page.tsx:241-249 | the loop performs the bookings `BookAll` describes |
| BookingPage.SharedInstructorNeverRejected | app/customer/apartar-cancha/page.tsx:238-249 | an instructor holding every selected slot is never rejected |
| BookingPage.OfferedInstructorNeverRejected | app/customer/apartar-cancha/page.tsx:152-249 | the instructor the page offers is never rejected by the bookings it confirms |
| BookingPage.NoInstructorNeverRejected | app/customer/apartar-cancha/page.tsx:238-249 | without an instructor id the instructor check never fires |
| BookingPage.RepeatedSlotBookedOnce | app/customer/apartar-cancha/page.tsx:241-249 | selecting the same slot twice books it once, and the second request fails as already booked |
| BookingPage.FormatTime | app/customer/apartar-cancha/page.tsx:56-61 | "HH:MM", both fields as two zero-padded digits (the intended format; see "## Left out") |
| BookingPage.FormatTimeRoundTrip | app/customer/apartar-cancha/page.tsx:56-61 | the formatted time reads back as the same minutes, so distinct times print differently |
| BookingPage.DaysOptionsShape | app/customer/apartar-cancha/page.tsx:42-50 | seven options, one per weekday, each with a non-empty label |
| BookingPage.FindLabel | app/customer/apartar-cancha/page.tsx:53 | `find`: nothing iff no option holds the value; otherwise the label of the first option that does |
| BookingPage.GetDayLabel | app/customer/apartar-cancha/page.tsx:52-54 | "" iff the value is no weekday's |
| BookingPage.DayLabelOf | app/customer/apartar-cancha/page.tsx:42-54 | each weekday gets the label of its own option |
| BookingPage.DayLabels | app/customer/apartar-cancha/page.tsx:42-54 | the seven Spanish labels, Lunes to Domingo |
| AssignmentPage.GetTimeslotsForDay | app/admin/registrar-horario-instructor/page.tsx:117-124 | a permutation of the slots of that weekday, sorted ascending by start minute (the intended order; see "## Left out") |
| AssignmentPage.AssignedSlotsLeaveFreeViews | app/admin/registrar-horario-instructor/page.tsx:117-165 | after a successful assignment, no assigned slot shows in any day's view of the free slots |
| AssignmentPage.HandleAssignTimeslots | app/admin/registrar-horario-instructor/page.tsx:134-173 | no selection, or no instructor: an error and no change; otherwise the result and the table update of `assignTimeslotsToInstructor` |
| AssignmentPage.HandleUnassignTimeslots | app/admin/registrar-horario-instructor/page.tsx:175-189 | no selection: an error and no change; otherwise the selected slots the instructor holds are released |

## Left out

- **The page UI.** JSX, React state and effects, loading flags, message timeouts, and the reloads after an action are UI.
  - `BookingPage.HandleConfirmBooking` returns what the page would report. It does not re-fetch the slots or reset the selection.
- **Authentication and sessions.** These belong to a third-party framework. The signed-in user is an optional id parameter.
- **Cache invalidation.** `revalidatePath` is cache invalidation and is not modelled.
- **Errors from the database or the network.** These, and the `try`/`catch` blocks that rethrow them with a generic message, are not modelled.
- **BookingPage.HandleConfirmBooking** does not state that the store stays valid: that would need the generated ids to be fresh and distinct, which the page does not control.
- **Concurrency.** Requests run one after another. The check-then-insert race in `createBooking`, which can double-book when two requests interleave, needs concurrent execution and is outside a sequential model.
- **Generated values.** Generated ids and the clock are parameters (`newId`, `newIds`, `now`).
- **Times.** Times are minutes since midnight.
  - `Date` parsing and `getTime()` are not modelled, and neither is the Invalid-Date behaviour of malformed strings in `saveTimeSlots`.
- **AssignmentPage.GetTimeslotsForDay** sorts on the start minute. The page itself sorts by `new Date(a.startTime).getTime()`, and the stored start time is a bare time-of-day string (`type="time"` input, stored as text). JavaScript does not define `Date` parsing of such a string and engines generally give Invalid Date, whose `getTime()` is NaN; a NaN comparison reorders nothing. The model states the ordering the page evidently intends, not what it may do as written.
- **BookingPage.FormatTime** formats minutes as "HH:MM". The page reads `getUTCHours()` and `getUTCMinutes()` of `new Date(value)`; on a bare time-of-day string that date may be invalid, in which case the page shows "NaN:NaN". The model states the intended format.
- **Floating point.**
  - The pricing helpers use integers, with `Math.round` as round-half-up. The binary rounding of `basePrice * 1.02` is not modelled.
  - The booking actions use exact reals. `parseFloat`/`toString` of price columns is not modelled.
  - `formatPrice`, `Intl.NumberFormat`, `toFixed` and `toLocaleTimeString` are display formatting and are left out.
- **NULL and NaN paths.**
  - A NULL base price or surcharge counts as 0, following the availability query's `|| "0"`.
  - `createBooking` with a NULL surcharge would compute NaN in the source. That path is not modelled.
- **Pricing.GetBasePrice** does not model JavaScript object keys inherited from the prototype, such as "constructor".
- **FieldImage.NormalizeKey** has two limits:
  - It strips the accents of the Spanish accented letters only, in place of full NFD decomposition.
  - It lower-cases ASCII only.
- **UserMenu.GetInitials** upper-cases ASCII letters only.
- **Sort order and joins.**
  - `ORDER BY name` is code-point order.
  - The SQL row order of an unordered query is table order.
  - A join on a primary key takes the first matching row. The availability query's left join with prices is not on a key and is modelled row for row (`CustomerBooking.JoinRows`).
  - `createBooking`'s slot lookup (`.limit(1)`) takes the first link with a price, and its first price row.
  - Some column projections are widened or narrowed to the columns the actions read. The declared schema files disagree with the actions, so the record types follow the actions' columns.
- **The admin page's weekday labels.** The admin page has its own `DAYS_OPTIONS` and `getDayLabel`, with mis-encoded labels. They are not modelled.
- **Duplicated helpers.** The helpers duplicated across the two pages (`toggleTimeslotSelection`, `formatTime`) are modelled once, by `BookingPage.ToggleSelection` and `BookingPage.FormatTime`.
- **BookingPage.OfferedInstructors** does not model the error path of `loadInstructors`: when the fetch fails, the `catch` only logs, so the previously offered instructor stays on offer and can reach `createBooking`.
- **The profile page's initials.** The copy of `getInitials` in the instructor profile page, whose fallback is "I", is not modelled separately.
- **PricingExamples.PadelPriceRange** states the hours, flags and prices of the example table, but not its display strings. `Pricing.DisplayHourFormat` states the display format for every hour.
- **Other files.** The console-only pricing examples, the sign-in and sign-up actions, the instructor profile actions, the instructor registration action, and the static form pages are not part of this model.
