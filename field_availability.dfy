/** The customer's availability overview
    (app/customer/obtener-disponibilidad-cancha/action.ts): the active
    fields, each with every timeslot that names it. */
module FieldAvailability {
  import opened Seqs
  import opened Tables
  import opened Wrappers

  /** `getAvailableFields`: the active rows of the field table, in storage order. */
  function GetAvailableFields(fields: seq<Field>): (r: seq<Field>)
    ensures forall f :: f in r <==> f in fields && f.isActive
    ensures multiset(r) <= multiset(fields)
    ensures |r| <= |fields|
  {
    Filter(fields, IsActiveField)
  }

  /** `getFieldTimeslots`: every timeslot whose field is `fieldId`, active or not. */
  function GetFieldTimeslots(slots: seq<Timeslot>, fieldId: string): (r: seq<Timeslot>)
    ensures forall t :: t in r <==> t in slots && t.fieldId == Some(fieldId)
    ensures multiset(r) <= multiset(slots)
  {
    Filter(slots, (t: Timeslot) => t.fieldId == Some(fieldId))
  }

  /** An entry of the result: a field with its timeslots. */
  datatype FieldWithSlots = FieldWithSlots(field: Field, timeslots: seq<Timeslot>)

  /** `getFullAvailability`: one entry per active field, in the order of
      `getAvailableFields`; the method reads the tables and changes none. */
  method GetFullAvailability(db: Database) returns (result: seq<FieldWithSlots>)
    ensures |result| == |GetAvailableFields(db.fields)|
    ensures forall i :: 0 <= i < |result| ==>
      && result[i].field == GetAvailableFields(db.fields)[i]
      && result[i].timeslots == GetFieldTimeslots(db.timeslots, result[i].field.id)
    ensures forall e :: e in result ==> e.field in db.fields && e.field.isActive
  {
    var fields := GetAvailableFields(db.fields);
    result := [];
    for i := 0 to |fields|
      invariant |result| == i
      invariant forall j :: 0 <= j < i ==>
        result[j].field == fields[j] && result[j].timeslots == GetFieldTimeslots(db.timeslots, fields[j].id)
    {
      var slots := GetFieldTimeslots(db.timeslots, fields[i].id);
      result := result + [FieldWithSlots(fields[i], slots)];
    }
    assert forall e :: e in result ==> e.field in fields by {
      forall e | e in result ensures e.field in fields {
        var j :| 0 <= j < |result| && result[j] == e;
      }
    }
  }
}
