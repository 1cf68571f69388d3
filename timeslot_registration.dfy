/** The admin's timeslot registration (app/admin/registrar-horario-cancha/action.ts):
    the whole batch is validated (non-empty, every referenced field exists,
    every entry has both times and ends after it starts) before any row is
    inserted; then one unassigned timeslot per entry is inserted in order. */
module TimeslotRegistration {
  import opened Wrappers
  import opened Seqs
  import opened Tables
  import CustomerBooking

  /** An entry of the form; a missing or empty time is `None`. */
  datatype TimeSlotEntry = TimeSlotEntry(
    fieldId: string,
    startTime: Option<Minutes>,
    endTime: Option<Minutes>,
    dayOfWeek: DayOfWeek,
    isActive: bool)

  datatype RegistrationError =
    | NoEntries                // "Debes agregar al menos un horario."
    | FieldNotFound(id: string) // "La cancha con ID <id> no existe."
    | MissingTime              // "Todos los horarios deben tener hora de inicio y fin."
    | EndNotAfterStart         // "La hora de fin debe ser mayor que la hora de inicio."

  /** `getActiveFields` of this page: the same query as the customer's. */
  function GetActiveFields(fields: seq<Field>): (r: seq<CustomerBooking.FieldSummary>)
    ensures forall x :: x in r <==> exists f :: f in fields && f.isActive && x == CustomerBooking.Summary(f)
    ensures |r| == |Filter(fields, IsActiveField)|
  {
    CustomerBooking.GetActiveFields(fields)
  }

  function FieldIdsOf(entries: seq<TimeSlotEntry>): (r: seq<string>)
    ensures |r| == |entries|
    ensures forall i :: 0 <= i < |r| ==> r[i] == entries[i].fieldId
  {
    seq(|entries|, i requires 0 <= i < |entries| => entries[i].fieldId)
  }

  predicate FieldExists(fields: seq<Field>, id: string) {
    exists k :: 0 <= k < |fields| && fields[k].id == id
  }

  /** The first id, in order, that names no field. */
  function FirstMissingField(fields: seq<Field>, ids: seq<string>): (r: Option<string>)
    ensures r.None? <==> forall i :: 0 <= i < |ids| ==> FieldExists(fields, ids[i])
    ensures r.Some? ==> r.value in ids && !FieldExists(fields, r.value)
    ensures r.Some? ==> exists i ::
      && 0 <= i < |ids| && ids[i] == r.value && !FieldExists(fields, ids[i])
      && (forall j :: 0 <= j < i ==> FieldExists(fields, ids[j]))
  {
    if ids == [] then None
    else if !FieldExists(fields, ids[0]) then Some(ids[0])
    else
      var r := FirstMissingField(fields, ids[1..]);
      assert forall i :: 0 < i < |ids| ==> ids[i] == ids[1..][i - 1];
      r
  }

  /** A further id is reported only when all earlier ones name a field. */
  lemma {:induction false} FirstMissingFieldSnoc(fields: seq<Field>, ids: seq<string>, x: string)
    ensures FirstMissingField(fields, ids + [x]) ==
      if FirstMissingField(fields, ids).Some? then FirstMissingField(fields, ids)
      else if FieldExists(fields, x) then None else Some(x)
  {
    if ids != [] {
      assert (ids + [x])[1..] == ids[1..] + [x];
      FirstMissingFieldSnoc(fields, ids[1..], x);
    }
  }

  /** Checking the distinct ids in first-seen order reports the same id as
      checking every id in order. */
  lemma {:induction false} DedupKeepsFirstMissingField(fields: seq<Field>, ids: seq<string>)
    ensures FirstMissingField(fields, Dedup(ids)) == FirstMissingField(fields, ids)
  {
    if ids != [] {
      var front, x := ids[..|ids| - 1], ids[|ids| - 1];
      assert ids == front + [x];
      DedupKeepsFirstMissingField(fields, front);
      DedupSnoc(front, x);
      FirstMissingFieldSnoc(fields, front, x);
      if x !in Dedup(front) {
        FirstMissingFieldSnoc(fields, Dedup(front), x);
      } else if FirstMissingField(fields, front).None? {
        var k :| 0 <= k < |front| && front[k] == x;
        assert FieldExists(fields, front[k]);
      }
    }
  }

  /** The error of an entry, checked in the source's order. */
  function EntryError(e: TimeSlotEntry): Option<RegistrationError> {
    if e.startTime.None? || e.endTime.None? then Some(MissingTime)
    else if e.endTime.value <= e.startTime.value then Some(EndNotAfterStart)
    else None
  }

  /** The error of the first entry that has one. */
  function FirstEntryError(entries: seq<TimeSlotEntry>): (r: Option<RegistrationError>)
    ensures r.None? <==> forall i :: 0 <= i < |entries| ==> EntryError(entries[i]).None?
    ensures r.Some? ==> exists i ::
      && 0 <= i < |entries| && EntryError(entries[i]) == r
      && (forall j :: 0 <= j < i ==> EntryError(entries[j]).None?)
  {
    if entries == [] then None
    else if EntryError(entries[0]).Some? then EntryError(entries[0])
    else
      var r := FirstEntryError(entries[1..]);
      assert forall i :: 0 < i < |entries| ==> entries[i] == entries[1..][i - 1];
      r
  }

  /** The error of the whole batch, or `None` when it is accepted. */
  function ValidationError(fields: seq<Field>, entries: seq<TimeSlotEntry>): (r: Option<RegistrationError>)
    ensures r == Some(NoEntries) <==> entries == []
    ensures r.Some? && r.value.FieldNotFound? <==> entries != [] && exists i :: 0 <= i < |entries| && !FieldExists(fields, entries[i].fieldId)
    ensures r.Some? && r.value.FieldNotFound? ==>
      exists i :: 0 <= i < |entries| && entries[i].fieldId == r.value.id && !FieldExists(fields, r.value.id)
        && (forall j :: 0 <= j < i ==> FieldExists(fields, entries[j].fieldId))
    ensures r.Some? && (r.value.MissingTime? || r.value.EndNotAfterStart?) ==>
      && (forall i :: 0 <= i < |entries| ==> FieldExists(fields, entries[i].fieldId))
      && (exists i :: 0 <= i < |entries| && EntryError(entries[i]) == r
            && (forall j :: 0 <= j < i ==> EntryError(entries[j]).None?))
    ensures r.None? <==>
      && entries != []
      && (forall i :: 0 <= i < |entries| ==> FieldExists(fields, entries[i].fieldId))
      && (forall i :: 0 <= i < |entries| ==> EntryError(entries[i]).None?)
  {
    if entries == [] then Some(NoEntries)
    else
      var ids := Dedup(FieldIdsOf(entries));
      DedupKeepsFirstMissingField(fields, FieldIdsOf(entries));
      match FirstMissingField(fields, ids)
      case Some(id) => Some(FieldNotFound(id))
      case None =>
        assert forall i :: 0 <= i < |entries| ==> FieldExists(fields, entries[i].fieldId) by {
          forall i | 0 <= i < |entries| ensures FieldExists(fields, entries[i].fieldId) {
            assert FieldIdsOf(entries)[i] in ids;
          }
        }
        FirstEntryError(entries)
  }

  /** The row inserted for an accepted entry: unassigned, no surcharge. */
  function NewRow(e: TimeSlotEntry, id: string): Timeslot
    requires EntryError(e).None?
  {
    Timeslot(id, Some(e.fieldId), None, e.dayOfWeek, e.startTime.value, e.endTime.value, None, e.isActive)
  }

  /** The rows inserted for an accepted batch, in input order. */
  function NewRows(entries: seq<TimeSlotEntry>, newIds: seq<string>): (r: seq<Timeslot>)
    requires |newIds| == |entries|
    requires forall i :: 0 <= i < |entries| ==> EntryError(entries[i]).None?
    ensures |r| == |entries|
    ensures forall i :: 0 <= i < |r| ==> r[i].id == newIds[i] && r[i].fieldId == Some(entries[i].fieldId)
    ensures forall i :: 0 <= i < |r| ==> r[i].userId.None? && r[i].dayOfWeek == entries[i].dayOfWeek && r[i].isActive == entries[i].isActive
    ensures forall i :: 0 <= i < |r| ==> Some(r[i].startTime) == entries[i].startTime && Some(r[i].endTime) == entries[i].endTime
    ensures forall i :: 0 <= i < |r| ==> r[i].startTime < r[i].endTime
  {
    assert forall i :: 0 <= i < |entries| ==> EntryError(entries[i]).None? && entries[i].startTime.value < entries[i].endTime.value;
    seq(|entries|, i requires 0 <= i < |entries| => NewRow(entries[i], newIds[i]))
  }

  /** `saveTimeSlots`: the validation loops, then the insert loop. `newIds`
      stands for the ids the store generates, one per entry. */
  method SaveTimeSlots(db: Database, entries: seq<TimeSlotEntry>, newIds: seq<string>) returns (r: Result<seq<Timeslot>, RegistrationError>)
    requires |newIds| == |entries|
    modifies db`timeslots
    ensures r.Failure? <==> ValidationError(db.fields, entries).Some?
    ensures r.Failure? ==> Some(r.error) == ValidationError(db.fields, entries) && db.timeslots == old(db.timeslots)
    ensures r.Success? ==> r.value == NewRows(entries, newIds) && db.timeslots == old(db.timeslots) + r.value
    ensures old(db.Valid()) && FreshIds(old(db.timeslots), newIds) ==> db.Valid()
  {
    if entries == [] {
      return Failure(NoEntries);
    }
    var missing := CheckFields(db.fields, Dedup(FieldIdsOf(entries)));
    if missing.Some? {
      return Failure(FieldNotFound(missing.value));
    }
    var bad := CheckEntries(entries);
    if bad.Some? {
      return Failure(bad.value);
    }
    if db.Valid() && FreshIds(db.timeslots, newIds) {
      InsertKeepsIdsUnique(db.timeslots, entries, newIds);
    }
    var inserted := InsertRows(db, entries, newIds);
    r := Success(inserted);
  }

  /** The first loop: every distinct field id, in first-seen order, must
      name a field. */
  method CheckFields(fields: seq<Field>, fieldIds: seq<string>) returns (missing: Option<string>)
    ensures missing == FirstMissingField(fields, fieldIds)
  {
    var i := 0;
    while i < |fieldIds|
      invariant 0 <= i <= |fieldIds|
      invariant FirstMissingField(fields, fieldIds) == FirstMissingField(fields, fieldIds[i..])
    {
      var existing := FindField(fields, fieldIds[i]);
      if existing.None? {
        return Some(fieldIds[i]);
      }
      assert fieldIds[i..][1..] == fieldIds[i + 1..];
      i := i + 1;
    }
    return None;
  }

  /** The second loop: every entry needs both times, the end after the start. */
  method CheckEntries(entries: seq<TimeSlotEntry>) returns (bad: Option<RegistrationError>)
    ensures bad == FirstEntryError(entries)
  {
    var i := 0;
    while i < |entries|
      invariant 0 <= i <= |entries|
      invariant FirstEntryError(entries) == FirstEntryError(entries[i..])
    {
      if entries[i].startTime.None? || entries[i].endTime.None? {
        return Some(MissingTime);
      }
      if entries[i].endTime.value <= entries[i].startTime.value {
        return Some(EndNotAfterStart);
      }
      assert entries[i..][1..] == entries[i + 1..];
      i := i + 1;
    }
    return None;
  }

  lemma NewRowsSnoc(entries: seq<TimeSlotEntry>, newIds: seq<string>, i: nat)
    requires |newIds| == |entries| && i < |entries|
    requires forall j :: 0 <= j < |entries| ==> EntryError(entries[j]).None?
    ensures NewRows(entries[..i + 1], newIds[..i + 1]) == NewRows(entries[..i], newIds[..i]) + [NewRow(entries[i], newIds[i])]
  {
  }

  /** The insert loop: one row per accepted entry, appended in order. */
  method InsertRows(db: Database, entries: seq<TimeSlotEntry>, newIds: seq<string>) returns (inserted: seq<Timeslot>)
    requires |newIds| == |entries|
    requires forall j :: 0 <= j < |entries| ==> EntryError(entries[j]).None?
    modifies db`timeslots
    ensures inserted == NewRows(entries, newIds)
    ensures db.timeslots == old(db.timeslots) + inserted
  {
    inserted := [];
    var i := 0;
    while i < |entries|
      invariant 0 <= i <= |entries|
      invariant inserted == NewRows(entries[..i], newIds[..i])
      invariant db.timeslots == old(db.timeslots) + inserted
    {
      NewRowsSnoc(entries, newIds, i);
      inserted := inserted + [NewRow(entries[i], newIds[i])];
      db.timeslots := db.timeslots + [NewRow(entries[i], newIds[i])];
      i := i + 1;
    }
    assert entries[..i] == entries && newIds[..i] == newIds;
  }

  /** An entry whose end does not come after its start, equal times
      included, sinks the whole batch. */
  lemma EndNotAfterStartRejected(fields: seq<Field>, entries: seq<TimeSlotEntry>, i: nat)
    requires i < |entries|
    requires entries[i].startTime.Some? && entries[i].endTime.Some?
    requires entries[i].endTime.value <= entries[i].startTime.value
    ensures ValidationError(fields, entries).Some?
  {
    assert EntryError(entries[i]).Some?;
  }

  /** An entry without both times sinks the whole batch. */
  lemma MissingTimeRejected(fields: seq<Field>, entries: seq<TimeSlotEntry>, i: nat)
    requires i < |entries|
    requires entries[i].startTime.None? || entries[i].endTime.None?
    ensures ValidationError(fields, entries).Some?
  {
    assert EntryError(entries[i]).Some?;
  }

  /** The field check comes first: a batch that names a missing field is
      refused for that reason, whatever its times. */
  lemma MissingFieldReported(fields: seq<Field>, entries: seq<TimeSlotEntry>, i: nat)
    requires i < |entries|
    requires !FieldExists(fields, entries[i].fieldId)
    ensures ValidationError(fields, entries).Some? && ValidationError(fields, entries).value.FieldNotFound?
  {
    var ids := Dedup(FieldIdsOf(entries));
    assert FieldIdsOf(entries)[i] in ids;
    var j :| 0 <= j < |ids| && ids[j] == entries[i].fieldId;
  }

  /** The generated ids are distinct and differ from every stored id. */
  predicate FreshIds(slots: seq<Timeslot>, newIds: seq<string>) {
    && Distinct(newIds)
    && forall k, i :: 0 <= k < |slots| && 0 <= i < |newIds| ==> slots[k].id != newIds[i]
  }

  /** Inserted rows keep the timeslot ids unique when the generated ids are
      distinct and new. */
  lemma InsertKeepsIdsUnique(slots: seq<Timeslot>, entries: seq<TimeSlotEntry>, newIds: seq<string>)
    requires DistinctTimeslotIds(slots)
    requires |newIds| == |entries|
    requires forall i :: 0 <= i < |entries| ==> EntryError(entries[i]).None?
    requires FreshIds(slots, newIds)
    ensures DistinctTimeslotIds(slots + NewRows(entries, newIds))
  {
    var rows := NewRows(entries, newIds);
    var all := slots + rows;
    forall i, j | 0 <= i < j < |all| ensures all[i].id != all[j].id {
      if j >= |slots| && i >= |slots| {
        assert all[i].id == newIds[i - |slots|] && all[j].id == newIds[j - |slots|];
      } else if j >= |slots| {
        assert all[j].id == newIds[j - |slots|];
      }
    }
  }
}
