/** The admin's field actions (app/admin/deshabilitar-cancha/action.ts): the
    list of every field by name, and the two-state toggle of a field's
    `isActive` flag, each direction refusing an unknown field and a field
    already in the requested state. */
module FieldAdmin {
  import opened Wrappers
  import opened Seqs
  import opened Text
  import opened Tables
  import CustomerBooking

  datatype FieldError =
    | FieldMissing      // "La cancha no existe"
    | AlreadyDisabled   // "La cancha ya está deshabilitada"
    | AlreadyEnabled    // "La cancha ya está habilitada"

  // ---------------------------------------------------------------------
  // getAllFields

  datatype FieldListing = FieldListing(id: string, name: string, fieldType: string, isActive: bool, createdAt: int)

  function Listing(f: Field): FieldListing {
    FieldListing(f.id, f.name, f.fieldType, f.isActive, f.createdAt)
  }

  predicate ByName(a: FieldListing, b: FieldListing) {
    StrLe(a.name, b.name)
  }

  lemma ByNameTotal()
    ensures TotalPreorder(ByName)
  {
    forall a: FieldListing, b: FieldListing ensures ByName(a, b) || ByName(b, a) {
      StrLeTotal(a.name, b.name);
    }
    forall a: FieldListing, b: FieldListing, c: FieldListing | ByName(a, b) && ByName(b, c) ensures ByName(a, c) {
      StrLeTransitive(a.name, b.name, c.name);
    }
  }

  /** `getAllFields`: every field, active or not, ordered by name (code-point
      order); a permutation of the table. */
  function GetAllFields(fields: seq<Field>): (r: seq<FieldListing>)
    ensures |r| == |fields|
    ensures multiset(r) == multiset(seq(|fields|, i requires 0 <= i < |fields| => Listing(fields[i])))
    ensures SortedBy(r, ByName)
    ensures forall f :: f in fields ==> Listing(f) in r
  {
    var rows := seq(|fields|, i requires 0 <= i < |fields| => Listing(fields[i]));
    ByNameTotal();
    var r := SortBy(rows, ByName);
    assert |r| == |rows| by {
      assert |multiset(r)| == |multiset(rows)|;
    }
    forall f | f in fields ensures Listing(f) in r {
      var i :| 0 <= i < |fields| && fields[i] == f;
      assert rows[i] in multiset(r);
    }
    r
  }

  // ---------------------------------------------------------------------
  // disableField / enableField

  /** Every row with the id gets the flag and update time `now`. */
  function SetActive(fields: seq<Field>, fieldId: string, active: bool, now: int): (r: seq<Field>)
    ensures |r| == |fields|
    ensures forall i :: 0 <= i < |r| ==> r[i].(isActive := fields[i].isActive, updatedAt := fields[i].updatedAt) == fields[i]
    ensures forall i :: 0 <= i < |r| && fields[i].id == fieldId ==> r[i].isActive == active && r[i].updatedAt == now
    ensures forall i :: 0 <= i < |r| && fields[i].id != fieldId ==> r[i] == fields[i]
  {
    seq(|fields|, i requires 0 <= i < |fields| =>
      if fields[i].id == fieldId then fields[i].(isActive := active, updatedAt := now) else fields[i])
  }

  /** The outcome of setting the flag to `active`: the missing field, the
      field already in that state, or the updated row. */
  function ToggleOutcome(fields: seq<Field>, fieldId: string, active: bool, now: int): (r: Result<Field, FieldError>)
    ensures r == Failure(FieldMissing) <==> forall k :: 0 <= k < |fields| ==> fields[k].id != fieldId
    ensures r.Failure? && r.error != FieldMissing ==> FindField(fields, fieldId).Some? && FindField(fields, fieldId).value.isActive == active
    ensures r.Failure? && r.error != FieldMissing ==> r.error == (if active then AlreadyEnabled else AlreadyDisabled)
    ensures r.Success? ==> FindField(fields, fieldId).Some? && FindField(fields, fieldId).value.isActive != active
    ensures r.Success? ==> r.value == FindField(fields, fieldId).value.(isActive := active, updatedAt := now)
    ensures r.Success? ==> r.value in SetActive(fields, fieldId, active, now)
  {
    match FindField(fields, fieldId)
    case None => Failure(FieldMissing)
    case Some(f) =>
      if f.isActive == active then Failure(if active then AlreadyEnabled else AlreadyDisabled)
      else
        var k :| 0 <= k < |fields| && fields[k] == f;
        assert SetActive(fields, fieldId, active, now)[k] == f.(isActive := active, updatedAt := now);
        Success(f.(isActive := active, updatedAt := now))
  }

  /** Sets the flag of the field to `active` behind the two guards; the table
      is unchanged on failure, and its primary key stays unique. */
  method SetFieldActive(db: Database, fieldId: string, active: bool, now: int) returns (r: Result<Field, FieldError>)
    modifies db`fields
    ensures r == ToggleOutcome(old(db.fields), fieldId, active, now)
    ensures db.fields == if r.Success? then SetActive(old(db.fields), fieldId, active, now) else old(db.fields)
    ensures old(db.Valid()) ==> db.Valid()
  {
    var existing := FindField(db.fields, fieldId);
    if existing.None? {
      return Failure(FieldMissing);
    }
    if existing.value.isActive == active {
      return Failure(if active then AlreadyEnabled else AlreadyDisabled);
    }
    r := ToggleOutcome(db.fields, fieldId, active, now);
    db.fields := SetActive(db.fields, fieldId, active, now);
  }

  /** `disableField`. */
  method DisableField(db: Database, fieldId: string, now: int) returns (r: Result<Field, FieldError>)
    modifies db`fields
    ensures r == ToggleOutcome(old(db.fields), fieldId, false, now)
    ensures db.fields == if r.Success? then SetActive(old(db.fields), fieldId, false, now) else old(db.fields)
    ensures old(db.Valid()) ==> db.Valid()
  {
    r := SetFieldActive(db, fieldId, false, now);
  }

  /** `enableField`. */
  method EnableField(db: Database, fieldId: string, now: int) returns (r: Result<Field, FieldError>)
    modifies db`fields
    ensures r == ToggleOutcome(old(db.fields), fieldId, true, now)
    ensures db.fields == if r.Success? then SetActive(old(db.fields), fieldId, true, now) else old(db.fields)
    ensures old(db.Valid()) ==> db.Valid()
  {
    r := SetFieldActive(db, fieldId, true, now);
  }

  /** The first row with the id, after the update, is the updated row. */
  lemma {:induction false} FindAfterSetActive(fields: seq<Field>, fieldId: string, active: bool, now: int)
    requires FindField(fields, fieldId).Some?
    ensures FindField(SetActive(fields, fieldId, active, now), fieldId)
      == Some(FindField(fields, fieldId).value.(isActive := active, updatedAt := now))
  {
    if fields[0].id != fieldId {
      FindAfterSetActive(fields[1..], fieldId, active, now);
      assert SetActive(fields, fieldId, active, now)[1..] == SetActive(fields[1..], fieldId, active, now);
    }
  }

  /** Neither direction succeeds twice in a row on the same field. */
  lemma NotTwice(fields: seq<Field>, fieldId: string, active: bool, now: int, later: int)
    requires ToggleOutcome(fields, fieldId, active, now).Success?
    ensures ToggleOutcome(SetActive(fields, fieldId, active, now), fieldId, active, later)
      == Failure(if active then AlreadyEnabled else AlreadyDisabled)
  {
    FindAfterSetActive(fields, fieldId, active, now);
  }

  /** After a successful disable, enabling succeeds, and together they restore
      the table except for the update time of that one field. */
  lemma DisableThenEnableRestores(fields: seq<Field>, fieldId: string, t1: int, t2: int)
    requires DistinctFieldIds(fields)
    requires ToggleOutcome(fields, fieldId, false, t1).Success?
    ensures ToggleOutcome(SetActive(fields, fieldId, false, t1), fieldId, true, t2).Success?
    ensures var r := SetActive(SetActive(fields, fieldId, false, t1), fieldId, true, t2);
      && |r| == |fields|
      && forall i :: 0 <= i < |r| ==> r[i].(updatedAt := fields[i].updatedAt) == fields[i]
  {
    FindAfterSetActive(fields, fieldId, false, t1);
    var f := FindField(fields, fieldId).value;
    forall i | 0 <= i < |fields| && fields[i].id == fieldId ensures fields[i].isActive {
      var k :| 0 <= k < |fields| && fields[k] == f;
      assert i == k;
    }
  }

  /** Once disabled, a field is no longer among the customer's active fields. */
  lemma DisabledFieldNotOffered(fields: seq<Field>, fieldId: string, now: int)
    ensures forall x :: x in CustomerBooking.GetActiveFields(SetActive(fields, fieldId, false, now)) ==> x.id != fieldId
  {
    var r := SetActive(fields, fieldId, false, now);
    forall x | x in CustomerBooking.GetActiveFields(r) ensures x.id != fieldId {
      var f :| f in r && f.isActive && x == CustomerBooking.Summary(f);
      var i :| 0 <= i < |r| && r[i] == f;
    }
  }
}
