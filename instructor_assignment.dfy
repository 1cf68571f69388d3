/** The admin's timeslot-instructor actions
    (app/admin/registrar-horario-instructor/action.ts): the instructor and
    timeslot listings, the all-or-nothing bulk assignment, the selective
    release, and the instructors holding a slot's weekly window. */
module InstructorAssignment {
  import opened Wrappers
  import opened Seqs
  import opened Tables
  import CustomerBooking

  type InstructorInfo = CustomerBooking.InstructorInfo

  datatype AssignmentError =
    | EmptySelection               // "Debes seleccionar al menos una franja horaria."
    | InstructorMissing            // "El instructor seleccionado no existe."
    | NotAnInstructor              // "El usuario seleccionado no es un instructor."
    | SomeSlotsMissing             // "Algunas franjas horarias no existen."
    | AlreadyAssigned(count: nat)  // "<count> franja(s) ya están asignadas a otro instructor."

  function Info(u: User): InstructorInfo {
    CustomerBooking.InstructorInfo(u.id, u.name, u.email)
  }

  /** The user's role name is "instructor" (the user-role inner join). */
  predicate HasInstructorRole(roles: seq<Role>, u: User) {
    RoleNameOf(roles, u) == Some(InstructorRole)
  }

  // ---------------------------------------------------------------------
  // getInstructors, getAvailableTimeslotsForInstructor, getInstructorTimeslots

  /** `getInstructors`: the users with the instructor role, in storage
      order, one row each. */
  function GetInstructors(users: seq<User>, roles: seq<Role>): (r: seq<InstructorInfo>)
    ensures |r| <= |users|
    ensures |r| == |Filter(users, (u: User) => HasInstructorRole(roles, u))|
    ensures forall x :: x in r <==> exists u :: u in users && HasInstructorRole(roles, u) && x == Info(u)
  {
    var mine := Filter(users, (u: User) => HasInstructorRole(roles, u));
    var r := seq(|mine|, i requires 0 <= i < |mine| => Info(mine[i]));
    forall x | x in r ensures exists u :: u in users && HasInstructorRole(roles, u) && x == Info(u) {
      var i :| 0 <= i < |r| && r[i] == x;
      assert mine[i] in mine;
    }
    forall u | u in users && HasInstructorRole(roles, u) ensures Info(u) in r {
      assert u in mine;
      var i :| 0 <= i < |mine| && mine[i] == u;
      assert r[i] == Info(u);
    }
    r
  }

  predicate Unassigned(t: Timeslot) {
    t.userId.None?
  }

  predicate HeldBy(t: Timeslot, instructorId: string) {
    t.userId == Some(instructorId)
  }

  /** `getAvailableTimeslotsForInstructor`: the timeslots nobody holds. */
  function GetAvailableTimeslots(slots: seq<Timeslot>): (r: seq<Timeslot>)
    ensures forall t :: t in r <==> t in slots && t.userId.None?
    ensures multiset(r) <= multiset(slots)
  {
    Filter(slots, Unassigned)
  }

  /** `getInstructorTimeslots(instructorId)`: the timeslots that instructor holds. */
  function GetInstructorTimeslots(slots: seq<Timeslot>, instructorId: string): (r: seq<Timeslot>)
    ensures forall t :: t in r <==> t in slots && t.userId == Some(instructorId)
    ensures multiset(r) <= multiset(slots)
  {
    Filter(slots, (t: Timeslot) => HeldBy(t, instructorId))
  }

  /** No timeslot is both free and held. */
  lemma ListingsDisjoint(slots: seq<Timeslot>, instructorId: string)
    ensures forall t :: t in GetAvailableTimeslots(slots) ==> t !in GetInstructorTimeslots(slots, instructorId)
  {
  }

  // ---------------------------------------------------------------------
  // assignTimeslotsToInstructor

  /** The rows an `IN (ids)` condition selects. */
  function ListedSlots(slots: seq<Timeslot>, ids: seq<string>): (r: seq<Timeslot>)
    ensures forall t :: t in r <==> t in slots && t.id in ids
    ensures |r| <= |slots|
  {
    Filter(slots, (t: Timeslot) => t.id in ids)
  }

  /** Every listed row gets the instructor; nothing else changes. */
  function AssignAll(slots: seq<Timeslot>, ids: seq<string>, instructorId: string): (r: seq<Timeslot>)
    ensures |r| == |slots|
    ensures forall i :: 0 <= i < |r| ==> r[i].(userId := slots[i].userId) == slots[i]
    ensures forall i :: 0 <= i < |r| && slots[i].id in ids ==> r[i].userId == Some(instructorId)
    ensures forall i :: 0 <= i < |r| && slots[i].id !in ids ==> r[i] == slots[i]
  {
    seq(|slots|, i requires 0 <= i < |slots| =>
      if slots[i].id in ids then slots[i].(userId := Some(instructorId)) else slots[i])
  }

  /** The instructor check: the user exists with a role (inner join). */
  function InstructorRoleName(users: seq<User>, roles: seq<Role>, instructorId: string): Option<string> {
    match FindUser(users, instructorId)
    case None => None
    case Some(u) => RoleNameOf(roles, u)
  }

  /** The outcome of `assignTimeslotsToInstructor`: the first failing
      check, or the number of slots assigned. */
  function AssignOutcome(slots: seq<Timeslot>, users: seq<User>, roles: seq<Role>, ids: seq<string>, instructorId: string): (r: Result<nat, AssignmentError>)
    ensures r == Failure(EmptySelection) <==> ids == []
    ensures r == Failure(InstructorMissing) <==> ids != [] && InstructorRoleName(users, roles, instructorId).None?
    ensures r == Failure(NotAnInstructor) <==>
      (ids != [] && InstructorRoleName(users, roles, instructorId).Some? && InstructorRoleName(users, roles, instructorId) != Some(InstructorRole))
    ensures r == Failure(SomeSlotsMissing) <==>
      (ids != [] && InstructorRoleName(users, roles, instructorId) == Some(InstructorRole) && |ListedSlots(slots, ids)| != |ids|)
    ensures r.Failure? && r.error.AlreadyAssigned? ==>
      && r.error.count > 0
      && r.error.count == |Filter(ListedSlots(slots, ids), (t: Timeslot) => t.userId.Some?)|
      && exists t :: t in slots && t.id in ids && t.userId.Some?
    ensures r.Success? <==>
      && ids != [] && InstructorRoleName(users, roles, instructorId) == Some(InstructorRole)
      && |ListedSlots(slots, ids)| == |ids|
      && forall t :: t in slots && t.id in ids ==> t.userId.None?
    ensures r.Success? ==> r.value == |ids|
  {
    if ids == [] then Failure(EmptySelection)
    else
      match InstructorRoleName(users, roles, instructorId)
      case None => Failure(InstructorMissing)
      case Some(name) =>
        if name != InstructorRole then Failure(NotAnInstructor)
        else
          var listed := ListedSlots(slots, ids);
          if |listed| != |ids| then Failure(SomeSlotsMissing)
          else
            var held := Filter(listed, (t: Timeslot) => t.userId.Some?);
            if |held| > 0 then
              assert held[0] in listed;
              Failure(AlreadyAssigned(|held|))
            else
              assert forall t :: t in slots && t.id in ids ==> t.userId.None? by {
                assert held == [];
                forall t | t in slots && t.id in ids ensures t.userId.None? {
                  assert t in listed;
                  assert t.userId.Some? ==> t in held;
                }
              }
              Success(|ids|)
  }

  /** `assignTimeslotsToInstructor`: all checks precede the one bulk update,
      so the table changes completely or not at all. */
  method AssignTimeslots(db: Database, ids: seq<string>, instructorId: string) returns (r: Result<nat, AssignmentError>)
    modifies db`timeslots
    ensures r == AssignOutcome(old(db.timeslots), db.users, db.roles, ids, instructorId)
    ensures db.timeslots == if r.Success? then AssignAll(old(db.timeslots), ids, instructorId) else old(db.timeslots)
    ensures old(db.Valid()) ==> db.Valid()
  {
    r := AssignOutcome(db.timeslots, db.users, db.roles, ids, instructorId);
    if r.Success? {
      db.timeslots := AssignAll(db.timeslots, ids, instructorId);
    }
  }

  /** With unique timeslot ids, the selected rows have distinct ids. */
  lemma {:induction false} ListedIdsDistinct(slots: seq<Timeslot>, ids: seq<string>)
    requires DistinctTimeslotIds(slots)
    ensures DistinctTimeslotIds(ListedSlots(slots, ids))
  {
    if slots != [] {
      ListedIdsDistinct(slots[1..], ids);
      var rest := ListedSlots(slots[1..], ids);
      forall j | 0 <= j < |rest| ensures rest[j].id != slots[0].id {
        assert rest[j] in slots[1..];
        var k :| 0 <= k < |slots[1..]| && slots[1..][k] == rest[j];
        assert slots[k + 1] == rest[j];
      }
    }
  }

  /** The existence check counts matching rows against the raw list: with
      unique timeslot ids, a list that repeats an id is always refused, even
      when every id exists and is free. */
  lemma RepeatedIdsRejected(slots: seq<Timeslot>, users: seq<User>, roles: seq<Role>, ids: seq<string>, instructorId: string)
    requires DistinctTimeslotIds(slots)
    requires !Distinct(ids)
    ensures AssignOutcome(slots, users, roles, ids, instructorId).Failure?
    ensures !AssignOutcome(slots, users, roles, ids, instructorId).error.AlreadyAssigned?
  {
    var listed := ListedSlots(slots, ids);
    ListedIdsDistinct(slots, ids);
    var listedIds := seq(|listed|, i requires 0 <= i < |listed| => listed[i].id);
    assert Distinct(listedIds);
    assert forall i :: 0 <= i < |listedIds| ==> listedIds[i] in (set x | x in ids) by {
      forall i | 0 <= i < |listedIds| ensures listedIds[i] in (set x | x in ids) {
        assert listed[i] in listed;
      }
    }
    DistinctWithinSet(listedIds, set x | x in ids);
    SetOfSeqCard(ids);
    assert |listed| < |ids|;
  }

  /** After an assignment the listed slots are the instructor's and none of
      them is offered as free. */
  lemma AssignMovesSlots(slots: seq<Timeslot>, users: seq<User>, roles: seq<Role>, ids: seq<string>, instructorId: string)
    requires AssignOutcome(slots, users, roles, ids, instructorId).Success?
    ensures var after := AssignAll(slots, ids, instructorId);
      && (forall i :: 0 <= i < |slots| && slots[i].id in ids ==> after[i] in GetInstructorTimeslots(after, instructorId))
      && (forall t :: t in GetAvailableTimeslots(after) ==> t.id !in ids)
  {
    var after := AssignAll(slots, ids, instructorId);
    forall t | t in GetAvailableTimeslots(after) ensures t.id !in ids {
      var i :| 0 <= i < |after| && after[i] == t;
    }
  }

  // ---------------------------------------------------------------------
  // unassignTimeslotsFromInstructor

  /** Listed rows held by the instructor become free; nothing else changes. */
  function ReleaseAll(slots: seq<Timeslot>, ids: seq<string>, instructorId: string): (r: seq<Timeslot>)
    ensures |r| == |slots|
    ensures forall i :: 0 <= i < |r| ==> r[i].(userId := slots[i].userId) == slots[i]
    ensures forall i :: 0 <= i < |r| && slots[i].id in ids && HeldBy(slots[i], instructorId) ==> r[i].userId.None?
    ensures forall i :: 0 <= i < |r| && !(slots[i].id in ids && HeldBy(slots[i], instructorId)) ==> r[i] == slots[i]
  {
    seq(|slots|, i requires 0 <= i < |slots| =>
      if slots[i].id in ids && HeldBy(slots[i], instructorId) then slots[i].(userId := None) else slots[i])
  }

  /** `unassignTimeslotsFromInstructor`: refuses an empty list, otherwise
      releases the listed slots that instructor holds. */
  method UnassignTimeslots(db: Database, instructorId: string, ids: seq<string>) returns (r: Result<nat, AssignmentError>)
    modifies db`timeslots
    ensures r.Failure? <==> ids == []
    ensures r.Failure? ==> r.error == EmptySelection
    ensures r.Success? ==> r.value == |ids|
    ensures db.timeslots == if r.Success? then ReleaseAll(old(db.timeslots), ids, instructorId) else old(db.timeslots)
    ensures old(db.Valid()) ==> db.Valid()
  {
    if ids == [] {
      return Failure(EmptySelection);
    }
    db.timeslots := ReleaseAll(db.timeslots, ids, instructorId);
    r := Success(|ids|);
  }

  /** Releasing the ids of a successful assignment restores the table. */
  lemma ReleaseUndoesAssign(slots: seq<Timeslot>, users: seq<User>, roles: seq<Role>, ids: seq<string>, instructorId: string)
    requires AssignOutcome(slots, users, roles, ids, instructorId).Success?
    ensures ReleaseAll(AssignAll(slots, ids, instructorId), ids, instructorId) == slots
  {
    var back := ReleaseAll(AssignAll(slots, ids, instructorId), ids, instructorId);
    forall i | 0 <= i < |slots| ensures back[i] == slots[i] {
      if slots[i].id in ids {
        assert slots[i] in slots;
      }
    }
  }

  /** Releasing never touches a slot held by someone else. */
  lemma ReleaseKeepsOthers(slots: seq<Timeslot>, ids: seq<string>, instructorId: string, other: string)
    requires other != instructorId
    ensures GetInstructorTimeslots(ReleaseAll(slots, ids, instructorId), other) == GetInstructorTimeslots(slots, other)
  {
    var r := ReleaseAll(slots, ids, instructorId);
    FilterPointwise(slots, r, (t: Timeslot) => HeldBy(t, other));
  }

  /** Two sequences that agree wherever either satisfies `p` filter alike. */
  lemma {:induction false} FilterPointwise(a: seq<Timeslot>, b: seq<Timeslot>, p: Timeslot -> bool)
    requires |a| == |b|
    requires forall i :: 0 <= i < |a| && (p(a[i]) || p(b[i])) ==> a[i] == b[i]
    ensures Filter(a, p) == Filter(b, p)
  {
    if a != [] {
      FilterPointwise(a[1..], b[1..], p);
    }
  }

  // ---------------------------------------------------------------------
  // getAvailableInstructorsForSlot (admin)

  predicate SameWindow(t: Timeslot, s: Timeslot) {
    t.dayOfWeek == s.dayOfWeek && t.startTime == s.startTime && t.endTime == s.endTime
  }

  /** The rows of one user: one per slot with the window of `s` that the
      user holds, when the user is an instructor. */
  function HeldRows(roles: seq<Role>, slots: seq<Timeslot>, s: Timeslot, u: User): (r: seq<InstructorInfo>)
    ensures forall x :: x in r <==>
      (HasInstructorRole(roles, u) && x == Info(u) && exists t :: t in slots && t.userId == Some(u.id) && SameWindow(t, s))
    ensures !HasInstructorRole(roles, u) ==> r == []
    ensures HasInstructorRole(roles, u) ==> |r| == |Filter(slots, (t: Timeslot) => t.userId == Some(u.id) && SameWindow(t, s))|
  {
    if !HasInstructorRole(roles, u) then []
    else
      var held := Filter(slots, (t: Timeslot) => t.userId == Some(u.id) && SameWindow(t, s));
      assert |held| > 0 <==> exists t :: t in slots && t.userId == Some(u.id) && SameWindow(t, s) by {
        if |held| > 0 {
          assert held[0] in held;
        }
      }
      Fill(|held|, Info(u))
  }

  /** `x` is an instructor of `users` holding a slot with the window of `s`. */
  predicate HoldsWindow(users: seq<User>, roles: seq<Role>, slots: seq<Timeslot>, s: Timeslot, x: InstructorInfo) {
    exists u, t :: (u in users && HasInstructorRole(roles, u) && t in slots
      && t.userId == Some(u.id) && SameWindow(t, s) && x == Info(u))
  }

  /** The rows of every user, in user order: one row per instructor and
      held slot with the window of `s`. */
  function WindowHolders(users: seq<User>, roles: seq<Role>, slots: seq<Timeslot>, s: Timeslot): (r: seq<InstructorInfo>)
    ensures forall x :: x in r <==> HoldsWindow(users, roles, slots, s, x)
  {
    if users == [] then []
    else
      var rest := WindowHolders(users[1..], roles, slots, s);
      assert forall v :: v in users <==> v == users[0] || v in users[1..] by {
        assert users == [users[0]] + users[1..];
      }
      HeldRows(roles, slots, s, users[0]) + rest
  }

  /** A further user appends exactly that user's rows: the list is the
      users' rows in user order. */
  lemma {:induction false} WindowHoldersSnoc(users: seq<User>, u: User, roles: seq<Role>, slots: seq<Timeslot>, s: Timeslot)
    ensures WindowHolders(users + [u], roles, slots, s) == WindowHolders(users, roles, slots, s) + HeldRows(roles, slots, s, u)
  {
    if users != [] {
      assert (users + [u])[1..] == users[1..] + [u];
      WindowHoldersSnoc(users[1..], u, roles, slots, s);
    }
  }

  /** `getAvailableInstructorsForSlot(timeslotId)` (admin): nothing for an
      unknown slot, otherwise the instructors holding a slot with the same
      day, start and end. */
  function AvailableInstructorsForSlot(slots: seq<Timeslot>, users: seq<User>, roles: seq<Role>, timeslotId: string): (r: seq<InstructorInfo>)
    ensures FindTimeslot(slots, timeslotId).None? ==> r == []
    ensures FindTimeslot(slots, timeslotId).Some? ==>
      forall x :: x in r <==> HoldsWindow(users, roles, slots, FindTimeslot(slots, timeslotId).value, x)
  {
    match FindTimeslot(slots, timeslotId)
    case None => []
    case Some(s) => WindowHolders(users, roles, slots, s)
  }

  /** The instructor the customer is offered for a slot is also among the
      admin's instructors for that slot's window. */
  lemma AssignedIsAvailable(slots: seq<Timeslot>, users: seq<User>, roles: seq<Role>, timeslotId: string)
    requires CustomerBooking.AssignedInstructor(slots, users, roles, timeslotId) != []
    ensures CustomerBooking.AssignedInstructor(slots, users, roles, timeslotId)[0] in AvailableInstructorsForSlot(slots, users, roles, timeslotId)
  {
    var s := FindTimeslot(slots, timeslotId).value;
    var u := FindUser(users, s.userId.value).value;
    assert SameWindow(s, s);
    assert CustomerBooking.AssignedInstructor(slots, users, roles, timeslotId)[0] == Info(u);
    assert HoldsWindow(users, roles, slots, s, Info(u));
  }
}
