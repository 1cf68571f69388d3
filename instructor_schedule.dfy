/** The instructor's schedule (app/instructor/obtener-horarios/action.ts):
    the bookings that name the caller as instructor, newest first, grouped
    by timeslot in order of first occurrence, each group labelled by its
    position ("slot-0", "slot-1", ...). */
module InstructorSchedule {
  import opened Wrappers
  import opened Seqs
  import opened Text
  import opened Tables

  /** A row of the query: the booking left-joined with its field and timeslot. */
  datatype ScheduleRow = ScheduleRow(
    id: string,
    fieldId: string,
    fieldName: Option<string>,
    fieldType: Option<string>,
    withInstructor: bool,
    instructorId: Option<string>,
    timeslotId: Option<string>,
    dayOfWeek: Option<DayOfWeek>,
    startTime: Option<Minutes>,
    endTime: Option<Minutes>,
    surchargePercent: Option<real>,
    totalPrice: real,
    currency: string,
    status: string,
    createdAt: int)

  function Row(fields: seq<Field>, slots: seq<Timeslot>, b: Booking): ScheduleRow {
    var f := FindField(fields, b.fieldId);
    var t := if b.timeslotId.Some? then FindTimeslot(slots, b.timeslotId.value) else None;
    ScheduleRow(
      b.id, b.fieldId,
      if f.Some? then Some(f.value.name) else None,
      if f.Some? then Some(f.value.fieldType) else None,
      b.withInstructor, b.instructorId, b.timeslotId,
      if t.Some? then Some(t.value.dayOfWeek) else None,
      if t.Some? then Some(t.value.startTime) else None,
      if t.Some? then Some(t.value.endTime) else None,
      if t.Some? then t.value.surchargePercent else None,
      b.totalPrice, b.currency, b.status, b.createdAt)
  }

  predicate NewestFirst(a: ScheduleRow, b: ScheduleRow) {
    a.createdAt >= b.createdAt
  }

  lemma NewestFirstTotal()
    ensures TotalPreorder(NewestFirst)
  {
  }

  /** The query: bookings whose instructor is the caller, newest first. */
  function ScheduleRows(fields: seq<Field>, slots: seq<Timeslot>, bookings: seq<Booking>, instructorId: string): (r: seq<ScheduleRow>)
    ensures SortedBy(r, NewestFirst)
    ensures forall x :: x in r ==> x.instructorId == Some(instructorId)
    ensures forall x :: x in r <==> exists b :: b in bookings && b.instructorId == Some(instructorId) && x == Row(fields, slots, b)
    ensures |r| == |Filter(bookings, (b: Booking) => b.instructorId == Some(instructorId))|
  {
    var mine := Filter(bookings, (b: Booking) => b.instructorId == Some(instructorId));
    var rows := seq(|mine|, i requires 0 <= i < |mine| => Row(fields, slots, mine[i]));
    forall x | x in rows ensures exists b :: b in bookings && b.instructorId == Some(instructorId) && x == Row(fields, slots, b) {
      var i :| 0 <= i < |rows| && rows[i] == x;
      assert mine[i] in mine;
    }
    forall b | b in bookings && b.instructorId == Some(instructorId) ensures Row(fields, slots, b) in rows {
      assert b in mine;
      var i :| 0 <= i < |mine| && mine[i] == b;
      assert rows[i] == Row(fields, slots, b);
    }
    NewestFirstTotal();
    var sorted := SortBy(rows, NewestFirst);
    assert forall x :: x in sorted <==> x in rows by {
      assert forall x :: x in sorted <==> x in multiset(sorted);
    }
    assert |sorted| == |rows| by {
      assert |multiset(sorted)| == |multiset(rows)|;
    }
    sorted
  }

  // ---------------------------------------------------------------------
  // The grouping

  /** The grouping key: the timeslot id, when it is a non-empty string. */
  function KeyOf(r: ScheduleRow): Option<string> {
    if r.timeslotId.Some? && r.timeslotId.value != "" then r.timeslotId else None
  }

  predicate HasKey(r: ScheduleRow) {
    KeyOf(r).Some?
  }

  /** The rows the loop does not skip. */
  function Kept(rows: seq<ScheduleRow>): seq<ScheduleRow> {
    Filter(rows, HasKey)
  }

  /** The distinct keys in order of first occurrence (the insertion order of
      a JavaScript `Map`). */
  function FirstSeenKeys(rows: seq<ScheduleRow>): (r: seq<string>)
    ensures Distinct(r)
    ensures forall k :: k in r <==> exists x :: x in rows && KeyOf(x) == Some(k)
  {
    if rows == [] then []
    else
      var init := rows[..|rows| - 1];
      var x := rows[|rows| - 1];
      var ks := FirstSeenKeys(init);
      assert rows == init + [x];
      assert forall y :: y in rows <==> y in init || y == x;
      if KeyOf(x).None? || KeyOf(x).value in ks then ks else ks + [KeyOf(x).value]
  }

  /** The rows of one key, in input order. */
  function Members(rows: seq<ScheduleRow>, key: string): seq<ScheduleRow> {
    Filter(rows, (r: ScheduleRow) => KeyOf(r) == Some(key))
  }

  /** A group: the header of its first booking, and its bookings. */
  datatype ScheduleGroup = ScheduleGroup(
    dayOfWeek: Option<DayOfWeek>,
    startTime: Option<Minutes>,
    endTime: Option<Minutes>,
    surchargePercent: Option<real>,
    bookings: seq<ScheduleRow>)

  function NewGroup(first: ScheduleRow): ScheduleGroup {
    ScheduleGroup(first.dayOfWeek, first.startTime, first.endTime, first.surchargePercent, [first])
  }

  function MakeGroup(members: seq<ScheduleRow>): ScheduleGroup {
    if members == [] then ScheduleGroup(None, None, None, None, [])
    else NewGroup(members[0]).(bookings := members)
  }

  /** The groups the loop builds, one per key, in first-seen order. */
  function Grouped(rows: seq<ScheduleRow>): (r: seq<ScheduleGroup>)
    ensures |r| == |FirstSeenKeys(rows)|
  {
    var keys := FirstSeenKeys(rows);
    seq(|keys|, j requires 0 <= j < |keys| => MakeGroup(Members(rows, keys[j])))
  }

  /** Every group is non-empty, holds exactly the rows of its key in input
      order, and takes its header from its first booking. */
  lemma GroupedShape(rows: seq<ScheduleRow>)
    ensures forall j :: 0 <= j < |Grouped(rows)| ==>
      && Grouped(rows)[j].bookings == Members(rows, FirstSeenKeys(rows)[j])
      && Grouped(rows)[j].bookings != []
      && Grouped(rows)[j].dayOfWeek == Grouped(rows)[j].bookings[0].dayOfWeek
      && Grouped(rows)[j].startTime == Grouped(rows)[j].bookings[0].startTime
      && Grouped(rows)[j].endTime == Grouped(rows)[j].bookings[0].endTime
  {
    var keys := FirstSeenKeys(rows);
    forall j | 0 <= j < |keys| ensures Members(rows, keys[j]) != [] {
      var x :| x in rows && KeyOf(x) == Some(keys[j]);
      assert x in Members(rows, keys[j]);
    }
  }

  /** The loop's state: the key→position index matches the groups. */
  ghost predicate IndexMatches(index: map<string, nat>, keys: seq<string>) {
    && (forall k :: k in index <==> k in keys)
    && (forall k :: k in index ==> index[k] < |keys| && keys[index[k]] == k)
  }

  /** The grouping loop of `getInstructorScheduleWithBookings`. */
  method GroupByTimeslot(rows: seq<ScheduleRow>) returns (groups: seq<ScheduleGroup>)
    ensures groups == Grouped(rows)
  {
    var index: map<string, nat> := map[];
    ghost var keys: seq<string> := [];
    groups := [];
    var i := 0;
    while i < |rows|
      invariant 0 <= i <= |rows|
      invariant keys == FirstSeenKeys(rows[..i])
      invariant IndexMatches(index, keys)
      invariant groups == Grouped(rows[..i])
    {
      var x := rows[i];
      assert rows[..i + 1] == rows[..i] + [x];
      assert rows[..i + 1][..i] == rows[..i];
      if HasKey(x) {
        var key := KeyOf(x).value;
        if key !in index {
          index := index[key := |groups|];
          NewKeyStep(rows[..i], x, key);
          keys := keys + [key];
          groups := groups + [NewGroup(x)];
        } else {
          var j := index[key];
          OldKeyStep(rows[..i], x, key, j);
          groups := groups[j := groups[j].(bookings := groups[j].bookings + [x])];
        }
      } else {
        NoKeyStep(rows[..i], x);
      }
      i := i + 1;
    }
    assert rows[..i] == rows;
  }

  lemma MembersSnoc(rows: seq<ScheduleRow>, x: ScheduleRow, k: string)
    ensures Members(rows + [x], k) == if KeyOf(x) == Some(k) then Members(rows, k) + [x] else Members(rows, k)
  {
    FilterSnoc(rows, x, (r: ScheduleRow) => KeyOf(r) == Some(k));
  }

  lemma MembersOfUnseenKey(rows: seq<ScheduleRow>, k: string)
    requires k !in FirstSeenKeys(rows)
    ensures Members(rows, k) == []
  {
    FilterNone(rows, (r: ScheduleRow) => KeyOf(r) == Some(k));
  }

  lemma FirstSeenKeysSnoc(rows: seq<ScheduleRow>, x: ScheduleRow)
    ensures FirstSeenKeys(rows + [x]) ==
      if KeyOf(x).None? || KeyOf(x).value in FirstSeenKeys(rows) then FirstSeenKeys(rows)
      else FirstSeenKeys(rows) + [KeyOf(x).value]
  {
    assert (rows + [x])[..|rows|] == rows;
  }

  lemma NoKeyStep(rows: seq<ScheduleRow>, x: ScheduleRow)
    requires !HasKey(x)
    ensures FirstSeenKeys(rows + [x]) == FirstSeenKeys(rows)
    ensures Grouped(rows + [x]) == Grouped(rows)
  {
    FirstSeenKeysSnoc(rows, x);
    var keys := FirstSeenKeys(rows);
    forall j | 0 <= j < |keys| ensures Members(rows + [x], keys[j]) == Members(rows, keys[j]) {
      MembersSnoc(rows, x, keys[j]);
    }
  }

  /** The group of position `j`. */
  lemma GroupedAt(rows: seq<ScheduleRow>, j: nat)
    requires j < |FirstSeenKeys(rows)|
    ensures Grouped(rows)[j] == MakeGroup(Members(rows, FirstSeenKeys(rows)[j]))
  {
  }

  /** A row leaves the group of every other key as it was. */
  lemma OtherGroupsStable(rows: seq<ScheduleRow>, x: ScheduleRow, j: nat)
    requires FirstSeenKeys(rows + [x])[..|FirstSeenKeys(rows)|] == FirstSeenKeys(rows)
    requires j < |FirstSeenKeys(rows)|
    requires KeyOf(x) != Some(FirstSeenKeys(rows)[j])
    ensures Grouped(rows + [x])[j] == Grouped(rows)[j]
  {
    var keys := FirstSeenKeys(rows);
    assert FirstSeenKeys(rows + [x])[j] == keys[j];
    GroupedAt(rows, j);
    GroupedAt(rows + [x], j);
    MembersSnoc(rows, x, keys[j]);
  }

  /** A row of an unseen key leaves every existing group as it was. */
  lemma PrefixGroupsStable(rows: seq<ScheduleRow>, x: ScheduleRow, key: string)
    requires KeyOf(x) == Some(key)
    requires key !in FirstSeenKeys(rows)
    requires FirstSeenKeys(rows + [x])[..|FirstSeenKeys(rows)|] == FirstSeenKeys(rows)
    ensures forall j :: 0 <= j < |FirstSeenKeys(rows)| ==> Grouped(rows + [x])[j] == Grouped(rows)[j]
  {
    forall j | 0 <= j < |FirstSeenKeys(rows)| ensures Grouped(rows + [x])[j] == Grouped(rows)[j] {
      OtherGroupsStable(rows, x, j);
    }
  }

  lemma SnocFromParts<T>(before: seq<T>, after: seq<T>, last: T)
    requires |after| == |before| + 1
    requires forall j :: 0 <= j < |before| ==> after[j] == before[j]
    requires after[|before|] == last
    ensures after == before + [last]
  {
  }

  /** The first row of an unseen key opens a group of its own. */
  lemma FirstGroup(rows: seq<ScheduleRow>, x: ScheduleRow, key: string)
    requires KeyOf(x) == Some(key)
    requires key !in FirstSeenKeys(rows)
    requires FirstSeenKeys(rows + [x]) == FirstSeenKeys(rows) + [key]
    ensures Grouped(rows + [x])[|FirstSeenKeys(rows)|] == NewGroup(x)
  {
    MembersSnoc(rows, x, key);
    MembersOfUnseenKey(rows, key);
    GroupedAt(rows + [x], |FirstSeenKeys(rows)|);
  }

  lemma NewKeyStep(rows: seq<ScheduleRow>, x: ScheduleRow, key: string)
    requires KeyOf(x) == Some(key)
    requires key !in FirstSeenKeys(rows)
    ensures FirstSeenKeys(rows + [x]) == FirstSeenKeys(rows) + [key]
    ensures Grouped(rows + [x]) == Grouped(rows) + [NewGroup(x)]
  {
    FirstSeenKeysSnoc(rows, x);
    var keys := FirstSeenKeys(rows);
    assert (keys + [key])[..|keys|] == keys;
    PrefixGroupsStable(rows, x, key);
    FirstGroup(rows, x, key);
    SnocFromParts(Grouped(rows), Grouped(rows + [x]), NewGroup(x));
  }

  /** Every key seen so far has at least one member. */
  lemma KeyHasMembers(rows: seq<ScheduleRow>, k: string)
    requires k in FirstSeenKeys(rows)
    ensures Members(rows, k) != []
  {
    var x :| x in rows && KeyOf(x) == Some(k);
    assert x in Members(rows, k);
  }

  /** Appending a row to the group of its key. */
  lemma GrowGroup(rows: seq<ScheduleRow>, x: ScheduleRow, key: string, j: nat)
    requires KeyOf(x) == Some(key)
    requires j < |FirstSeenKeys(rows)| && FirstSeenKeys(rows)[j] == key
    requires FirstSeenKeys(rows + [x]) == FirstSeenKeys(rows)
    ensures Grouped(rows + [x])[j] == Grouped(rows)[j].(bookings := Grouped(rows)[j].bookings + [x])
  {
    GroupedAt(rows, j);
    GroupedAt(rows + [x], j);
    MembersSnoc(rows, x, key);
    KeyHasMembers(rows, key);
  }

  /** A row of a seen key leaves the groups of the other keys as they were. */
  lemma OtherGroupsKept(rows: seq<ScheduleRow>, x: ScheduleRow, key: string, j: nat)
    requires KeyOf(x) == Some(key)
    requires j < |FirstSeenKeys(rows)| && FirstSeenKeys(rows)[j] == key
    requires FirstSeenKeys(rows + [x]) == FirstSeenKeys(rows)
    ensures forall l :: 0 <= l < |FirstSeenKeys(rows)| && l != j ==> Grouped(rows + [x])[l] == Grouped(rows)[l]
  {
    var keys := FirstSeenKeys(rows);
    assert keys[..|keys|] == keys;
    forall l | 0 <= l < |keys| && l != j ensures Grouped(rows + [x])[l] == Grouped(rows)[l] {
      assert keys[l] != keys[j];
      OtherGroupsStable(rows, x, l);
    }
  }

  lemma UpdateFromParts<T>(before: seq<T>, after: seq<T>, j: nat, v: T)
    requires j < |before| && |after| == |before|
    requires forall l :: 0 <= l < |before| && l != j ==> after[l] == before[l]
    requires after[j] == v
    ensures after == before[j := v]
  {
  }

  lemma OldKeyStep(rows: seq<ScheduleRow>, x: ScheduleRow, key: string, j: nat)
    requires KeyOf(x) == Some(key)
    requires j < |FirstSeenKeys(rows)| && FirstSeenKeys(rows)[j] == key
    ensures FirstSeenKeys(rows + [x]) == FirstSeenKeys(rows)
    ensures Grouped(rows + [x]) == Grouped(rows)[j := Grouped(rows)[j].(bookings := Grouped(rows)[j].bookings + [x])]
  {
    FirstSeenKeysSnoc(rows, x);
    assert key in FirstSeenKeys(rows);
    OtherGroupsKept(rows, x, key, j);
    GrowGroup(rows, x, key, j);
    var before := Grouped(rows);
    UpdateFromParts(before, Grouped(rows + [x]), j, before[j].(bookings := before[j].bookings + [x]));
  }

  // ---------------------------------------------------------------------
  // Group sizes

  /** The total number of bookings held by the groups of `keys`. */
  function SumSizes(rows: seq<ScheduleRow>, keys: seq<string>): nat {
    if keys == [] then 0 else |Members(rows, keys[0])| + SumSizes(rows, keys[1..])
  }

  lemma {:induction false} SumSizesSnocRow(rows: seq<ScheduleRow>, x: ScheduleRow, keys: seq<string>)
    requires Distinct(keys)
    ensures SumSizes(rows + [x], keys) == SumSizes(rows, keys) + (if KeyOf(x).Some? && KeyOf(x).value in keys then 1 else 0)
  {
    if keys != [] {
      var k0, tail := keys[0], keys[1..];
      MembersSnoc(rows, x, k0);
      DistinctTail(keys);
      SumSizesSnocRow(rows, x, tail);
      if KeyOf(x) == Some(k0) {
        assert |Members(rows + [x], k0)| == |Members(rows, k0)| + 1;
        assert k0 !in tail;
      } else if KeyOf(x).Some? {
        var v := KeyOf(x).value;
        if v in keys {
          var j :| 0 <= j < |keys| && keys[j] == v;
          assert tail[j - 1] == v;
        }
        if v in tail {
          var j :| 0 <= j < |tail| && tail[j] == v;
          assert keys[j + 1] == v;
        }
      }
    }
  }

  lemma {:induction false} SumSizesSnocKey(rows: seq<ScheduleRow>, keys: seq<string>, k: string)
    ensures SumSizes(rows, keys + [k]) == SumSizes(rows, keys) + |Members(rows, k)|
  {
    if keys != [] {
      assert (keys + [k])[1..] == keys[1..] + [k];
      SumSizesSnocKey(rows, keys[1..], k);
    }
  }

  /** The group sizes add up to the number of bookings that have a timeslot:
      no booking is lost or counted twice. */
  lemma {:induction false} GroupSizesSum(rows: seq<ScheduleRow>)
    ensures SumSizes(rows, FirstSeenKeys(rows)) == |Kept(rows)|
  {
    if rows != [] {
      var init := rows[..|rows| - 1];
      var x := rows[|rows| - 1];
      assert rows == init + [x];
      GroupSizesSum(init);
      FilterSnoc(init, x, HasKey);
      var keys := FirstSeenKeys(init);
      SumSizesSnocRow(init, x, keys);
      if KeyOf(x).Some? && KeyOf(x).value !in keys {
        var key := KeyOf(x).value;
        SumSizesSnocKey(rows, keys, key);
        MembersSnoc(init, x, key);
        MembersOfUnseenKey(init, key);
      }
    }
  }

  // ---------------------------------------------------------------------
  // The action

  /** A group as returned, labelled by position. */
  datatype LabelledGroup = LabelledGroup(
    timeslotId: string,
    dayOfWeek: Option<DayOfWeek>,
    startTime: Option<Minutes>,
    endTime: Option<Minutes>,
    surchargePercent: Option<real>,
    bookings: seq<ScheduleRow>)

  function SlotLabel(j: nat): string {
    "slot-" + NatToString(j)
  }

  /** Positional labels are distinct. */
  lemma SlotLabelsDistinct(i: nat, j: nat)
    requires i != j
    ensures SlotLabel(i) != SlotLabel(j)
  {
    assert SlotLabel(i)[5..] == NatToString(i);
    assert SlotLabel(j)[5..] == NatToString(j);
    NatToStringRoundTrip(i);
    NatToStringRoundTrip(j);
  }

  function Labelled(groups: seq<ScheduleGroup>): (r: seq<LabelledGroup>)
    ensures |r| == |groups|
    ensures forall j :: 0 <= j < |r| ==> r[j].timeslotId == SlotLabel(j) && r[j].bookings == groups[j].bookings
  {
    seq(|groups|, j requires 0 <= j < |groups| =>
      var g := groups[j];
      LabelledGroup(SlotLabel(j), g.dayOfWeek, g.startTime, g.endTime, g.surchargePercent, g.bookings))
  }

  datatype ScheduleError = NotAuthenticated  // "No estás autenticado"

  /** `getInstructorScheduleWithBookings`: refused without a caller id;
      otherwise the caller's bookings grouped by timeslot. */
  method GetInstructorSchedule(db: Database, session: Option<string>) returns (r: Result<seq<LabelledGroup>, ScheduleError>)
    ensures session.None? || session.value == "" ==> r == Failure(NotAuthenticated)
    ensures session.Some? && session.value != "" ==>
      r == Success(Labelled(Grouped(ScheduleRows(db.fields, db.timeslots, db.bookings, session.value))))
  {
    if session.None? || session.value == "" {
      return Failure(NotAuthenticated);
    }
    var rows := ScheduleRows(db.fields, db.timeslots, db.bookings, session.value);
    var groups := GroupByTimeslot(rows);
    r := Success(Labelled(groups));
  }
}
