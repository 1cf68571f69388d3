/** The client logic of the admin's instructor-assignment page
    (app/admin/registrar-horario-instructor/page.tsx): the per-day view of
    a timeslot list, and the guards of the assign and unassign buttons in
    front of the two server actions. The page's selection toggle and time
    format are the same expressions as the customer booking page's, and
    are modelled once, by `BookingPage.ToggleSelection` and
    `BookingPage.FormatTime`. */
module AssignmentPage {
  import opened Seqs
  import opened Tables
  import opened InstructorAssignment

  predicate ByStartTime(a: Timeslot, b: Timeslot) {
    a.startTime <= b.startTime
  }

  lemma ByStartTimeTotal()
    ensures TotalPreorder(ByStartTime)
  {
  }

  predicate OnDay(t: Timeslot, day: DayOfWeek) {
    t.dayOfWeek == day
  }

  /** `getTimeslotsForDay`: the slots of that weekday, ascending by start
      time (a stable sort); a permutation of the slots of that day. */
  function GetTimeslotsForDay(slots: seq<Timeslot>, day: DayOfWeek): (r: seq<Timeslot>)
    ensures multiset(r) == multiset(Filter(slots, (t: Timeslot) => OnDay(t, day)))
    ensures SortedBy(r, ByStartTime)
    ensures forall t :: t in r <==> t in slots && t.dayOfWeek == day
  {
    var ofDay := Filter(slots, (t: Timeslot) => OnDay(t, day));
    ByStartTimeTotal();
    var r := SortBy(ofDay, ByStartTime);
    assert forall t :: t in r <==> t in multiset(r);
    r
  }

  /** After a successful assignment, no assigned slot shows in any day's
      view of the free slots. */
  lemma AssignedSlotsLeaveFreeViews(slots: seq<Timeslot>, users: seq<User>, roles: seq<Role>,
    ids: seq<string>, instructorId: string, d: DayOfWeek)
    requires AssignOutcome(slots, users, roles, ids, instructorId).Success?
    ensures forall t :: t in GetTimeslotsForDay(GetAvailableTimeslots(AssignAll(slots, ids, instructorId)), d) ==> t.id !in ids
  {
    AssignMovesSlots(slots, users, roles, ids, instructorId);
  }

  datatype PageResult =
    | NoSelection       // "Debes seleccionar al menos una franja horaria"
    | NoInstructor      // "Debes seleccionar un instructor"
    | Done(count: nat)  // the action's success message
    | Refused(error: AssignmentError)

  /** `handleAssignTimeslots`: nothing selected, or no instructor chosen,
      reports the error without calling the action; otherwise it reports
      what `assignTimeslotsToInstructor` does. */
  method HandleAssignTimeslots(db: Database, selected: seq<string>, instructorId: string) returns (r: PageResult)
    modifies db`timeslots
    ensures selected == [] ==> r == NoSelection && db.timeslots == old(db.timeslots)
    ensures selected != [] && instructorId == "" ==> r == NoInstructor && db.timeslots == old(db.timeslots)
    ensures selected != [] && instructorId != "" ==>
      var out := AssignOutcome(old(db.timeslots), db.users, db.roles, selected, instructorId);
      && r == (if out.Success? then Done(out.value) else Refused(out.error))
      && db.timeslots == (if out.Success? then AssignAll(old(db.timeslots), selected, instructorId) else old(db.timeslots))
  {
    if |selected| == 0 {
      return NoSelection;
    }
    if instructorId == "" {
      return NoInstructor;
    }
    var out := AssignTimeslots(db, selected, instructorId);
    r := if out.Success? then Done(out.value) else Refused(out.error);
  }

  /** `handleUnassignTimeslots`: nothing selected reports the error without
      calling the action; otherwise it releases the selected slots the
      instructor holds. */
  method HandleUnassignTimeslots(db: Database, selected: seq<string>, instructorId: string) returns (r: PageResult)
    modifies db`timeslots
    ensures selected == [] ==> r == NoSelection && db.timeslots == old(db.timeslots)
    ensures selected != [] ==> r == Done(|selected|) && db.timeslots == ReleaseAll(old(db.timeslots), selected, instructorId)
  {
    if |selected| == 0 {
      return NoSelection;
    }
    var out := UnassignTimeslots(db, instructorId, selected);
    r := Done(out.value);
  }
}
