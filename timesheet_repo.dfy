/** The timesheet store: the `timesheets` table (one header per sheet, with
    its `timesheet_rows` nested under it), the read queries over it, and the
    two operations that write it, `addTimesheet` and `save`.

    The owner of a stored sheet is held as the employee value; `TimeSheetRepo`
    keys it by the employee's database id, found from the employee number. */
module TimesheetStore {
  import opened Base
  import opened Entities
  import HourCodec
  import Calendar
  import Sorting

  /** A row of `timesheet_rows`. */
  datatype StoredRow = StoredRow(
    lineNo: int,
    projectId: int,
    workPackageId: string,
    packedHours: int,
    notes: Option<string>)

  /** A row of `timesheets` together with its detail rows, in line order. */
  datatype StoredSheet = StoredSheet(
    id: int,
    owner: Employee,
    endDate: int,
    createdAt: int,
    overtime: int,
    flextime: int,
    rows: seq<StoredRow>)

  /** Number of placeholder rows a new timesheet starts with. */
  const PLACEHOLDER_ROWS := 5

  /** Detail rows are numbered 1..N in order and hold 56-bit packed weeks. */
  predicate WellNumbered(rows: seq<StoredRow>)
  {
    forall k :: 0 <= k < |rows| ==>
      rows[k].lineNo == k + 1 && 0 <= rows[k].packedHours < HourCodec.Pow256(HourCodec.DAYS)
  }

  /** The table invariant: ids are positive, increase in storage order and
      lie below the next id the auto-increment column will hand out. */
  predicate TableValid(table: seq<StoredSheet>, nextId: int)
  {
    nextId >= 1 &&
    (forall i :: 0 <= i < |table| ==> 0 < table[i].id < nextId && WellNumbered(table[i].rows)) &&
    (forall i, j :: 0 <= i < j < |table| ==> table[i].id < table[j].id)
  }

  // ---------------------------------------------------------------------
  // Rows: insertRow and loadRows
  // ---------------------------------------------------------------------

  /** insertRow: the stored form of a row at a given line number, with a
      null work package written as "" and the hours packed after safeHours. */
  function StoreRow(r: Row, lineNo: int): StoredRow
  {
    StoredRow(lineNo, r.projectId, Nvl(r.workPackageId), HourCodec.Pack(HourCodec.SafeHours(r.hours)), r.notes)
  }

  /** The rows of a sheet as `save` writes them: in order, numbered from 1. */
  function StoreRows(details: seq<Row>): (rows: seq<StoredRow>)
    ensures |rows| == |details|
    ensures WellNumbered(rows)
  {
    seq(|details|, k requires 0 <= k < |details| => StoreRow(details[k], k + 1))
  }

  /** The row-insert step of `save` and `addTimesheet`, packing the hours
      with the loop of `TimeSheetRepo.packHours`. */
  method InsertRow(r: Row, lineNo: int) returns (s: StoredRow)
    ensures s == StoreRow(r, lineNo)
  {
    var packed := HourCodec.PackHours(HourCodec.SafeHours(r.hours));
    s := StoredRow(lineNo, r.projectId, Nvl(r.workPackageId), packed, r.notes);
  }

  /** The row loop of `save`: the rows inserted one by one, in order,
      with line numbers 1..N. */
  method WriteRows(details: seq<Row>) returns (rows: seq<StoredRow>)
    ensures rows == StoreRows(details)
  {
    rows := [];
    var i := 0;
    while i < |details|
      invariant 0 <= i <= |details|
      invariant rows == StoreRows(details[..i])
    {
      var row := InsertRow(details[i], i + 1);
      assert StoreRows(details[..i + 1]) == StoreRows(details[..i]) + [row];
      rows := rows + [row];
      i := i + 1;
    }
    assert details[..i] == details;
  }

  /** loadRows, as written: the notes column is selected but never copied
      onto the row, so every row comes back with no notes. */
  function LoadRow(s: StoredRow): (r: Row)
    ensures r.projectId == s.projectId && r.workPackageId == Some(s.workPackageId) && r.notes.None?
    ensures r.hours.Some? && |r.hours.value| == HourCodec.DAYS
  {
    Row(s.projectId, Some(s.workPackageId), Some(HourCodec.Unpack(s.packedHours)), None)
  }

  /** loadRows as evidently intended: the stored notes are read back too. */
  function LoadRowWithNotes(s: StoredRow): (r: Row)
    ensures r.projectId == s.projectId && r.workPackageId == Some(s.workPackageId) && r.notes == s.notes
    ensures r.hours.Some? && |r.hours.value| == HourCodec.DAYS
  {
    LoadRow(s).(notes := s.notes)
  }

  function LoadRows(rows: seq<StoredRow>): (details: seq<Row>)
    ensures |details| == |rows|
  {
    seq(|rows|, k requires 0 <= k < |rows| => LoadRow(rows[k]))
  }

  /** What a row is once it has been saved and loaded again: the work
      package is never null, the hours are exactly seven days rounded to
      tenths and capped to one byte, the project is kept and the notes are
      lost. */
  function Normalised(r: Row): Row
  {
    Row(r.projectId, Some(Nvl(r.workPackageId)), Some(HourCodec.Quantised(HourCodec.SafeHours(r.hours))), None)
  }

  function NormalisedRows(details: seq<Row>): (rs: seq<Row>)
    ensures |rs| == |details|
  {
    seq(|details|, k requires 0 <= k < |details| => Normalised(details[k]))
  }

  /** Storing a row and loading it back gives its normalised form. */
  lemma RowRoundTrip(r: Row, lineNo: int)
    ensures LoadRow(StoreRow(r, lineNo)) == Normalised(r)
  {
    HourCodec.UnpackPack(HourCodec.SafeHours(r.hours));
  }

  /** With the intended loader a stored row loads back with its notes as
      well as its normalised project, work package and hours. */
  lemma RowRoundTripWithNotes(r: Row, lineNo: int)
    ensures LoadRowWithNotes(StoreRow(r, lineNo)) == Normalised(r).(notes := r.notes)
  {
    RowRoundTrip(r, lineNo);
  }

  /** A row that already has a work package and seven storable day values
      comes back from the store unchanged but for its notes, and wholly
      unchanged with the intended loader. */
  lemma StorableRowRoundTrip(r: Row, lineNo: int)
    requires r.workPackageId.Some? && r.hours.Some? && |r.hours.value| == HourCodec.DAYS
    requires forall k :: 0 <= k < HourCodec.DAYS ==> HourCodec.Storable(r.hours.value[k])
    ensures LoadRow(StoreRow(r, lineNo)) == r.(notes := None)
    ensures LoadRowWithNotes(StoreRow(r, lineNo)) == r
  {
    HourCodec.UnpackPackStorable(r.hours.value);
  }

  lemma RowsRoundTrip(details: seq<Row>)
    ensures LoadRows(StoreRows(details)) == NormalisedRows(details)
  {
    forall k | 0 <= k < |details|
      ensures LoadRows(StoreRows(details))[k] == NormalisedRows(details)[k]
    {
      RowRoundTrip(details[k], k + 1);
    }
  }

  /** The notes of a saved row are lost when it is loaded as written. */
  lemma NotesLostAsWritten()
    ensures var r := Row(7, Some("WP-1"), Some(ZeroWeek()), Some("design review"));
            LoadRow(StoreRow(r, 1)).notes != r.notes
  {
  }

  /** The week of zero hours packs to 0. */
  lemma PackZeroWeek()
    ensures HourCodec.Pack(ZeroWeek()) == 0
  {
    var z := ZeroWeek();
    assert HourCodec.DayTenths(0.0) == 0;
    assert HourCodec.PackFrom(z, 6) == 0;
    assert HourCodec.PackFrom(z, 4) == 0;
    assert HourCodec.PackFrom(z, 2) == 0;
  }

  // ---------------------------------------------------------------------
  // Materialising a stored sheet, and the read queries
  // ---------------------------------------------------------------------

  /** materializeTimesheet + loadRows: the sheet with its rows, read
      without their notes, owned by the given employee. */
  function ToEntity(s: StoredSheet, owner: Employee): (ts: Timesheet)
    ensures ts.id == Some(s.id) && ts.employee == Some(owner) && ts.endDate == Some(s.endDate)
    ensures ts.details == LoadRows(s.rows)
  {
    Timesheet(Some(s.id), Some(owner), Some(s.endDate), s.overtime, s.flextime, LoadRows(s.rows))
  }

  /** Position of the sheet with this id, or |table| when there is none. */
  function FindIndex(table: seq<StoredSheet>, id: int): (k: nat)
    ensures k <= |table|
    ensures k < |table| ==> table[k].id == id
    ensures forall j :: 0 <= j < k ==> table[j].id != id
  {
    if table == [] then 0
    else if table[0].id == id then 0
    else 1 + FindIndex(table[1..], id)
  }

  predicate HasId(table: seq<StoredSheet>, id: int)
  {
    exists j :: 0 <= j < |table| && table[j].id == id
  }

  /** loadById: the sheet with that id and its stored owner, or null for a
      null or unknown id. */
  function LoadById(table: seq<StoredSheet>, id: Option<int>): (r: Option<Timesheet>)
    ensures r.Some? <==> id.Some? && HasId(table, id.value)
    ensures r.Some? ==> r.value.id == id && r.value.employee.Some? && r.value.endDate.Some?
  {
    if id.None? then None
    else
      var k := FindIndex(table, id.value);
      if k < |table| then Some(ToEntity(table[k], table[k].owner)) else None
  }

  /** The sheets whose owner has employee number n, in storage order. */
  function OwnedBy(table: seq<StoredSheet>, n: int): (s: seq<StoredSheet>)
    ensures forall x :: x in s <==> x in table && x.owner.empNumber == n
    ensures |s| <= |table|
  {
    if table == [] then []
    else
      assert table == [table[0]] + table[1..];
      (if table[0].owner.empNumber == n then [table[0]] else []) + OwnedBy(table[1..], n)
  }

  /** The sheets that end on day d, in storage order. */
  function EndingOn(table: seq<StoredSheet>, d: int): (s: seq<StoredSheet>)
    ensures forall x :: x in s <==> x in table && x.endDate == d
  {
    if table == [] then []
    else
      assert table == [table[0]] + table[1..];
      (if table[0].endDate == d then [table[0]] else []) + EndingOn(table[1..], d)
  }

  /** `ORDER BY employee, end_date DESC`. */
  predicate ListOrder(a: StoredSheet, b: StoredSheet)
  {
    a.owner.empNumber < b.owner.empNumber ||
    (a.owner.empNumber == b.owner.empNumber && a.endDate >= b.endDate)
  }

  /** `ORDER BY end_date DESC`. */
  predicate NewestEndFirst(a: StoredSheet, b: StoredSheet)
  {
    a.endDate >= b.endDate
  }

  /** The table in `ORDER BY employee, end_date DESC` order. */
  function ListedSheets(table: seq<StoredSheet>): (s: seq<StoredSheet>)
    ensures multiset(s) == multiset(table)
    ensures Sorting.SortedBy(s, ListOrder)
  {
    Sorting.Sort(table, ListOrder)
  }

  /** getTimesheets(): every stored sheet with its stored owner, grouped by
      owner and newest end date first within each owner. */
  function GetTimesheets(table: seq<StoredSheet>): (r: seq<Timesheet>)
    ensures |r| == |table|
    ensures forall k :: 0 <= k < |r| ==> r[k].employee.Some? && r[k].endDate.Some?
    ensures forall k, l :: 0 <= k < l < |r| ==>
      (r[k].employee.value.empNumber < r[l].employee.value.empNumber ||
       (r[k].employee.value.empNumber == r[l].employee.value.empNumber && r[k].endDate.value >= r[l].endDate.value))
  {
    var sorted := ListedSheets(table);
    assert |sorted| == |multiset(sorted)| == |table|;
    seq(|sorted|, k requires 0 <= k < |sorted| => ToEntity(sorted[k], sorted[k].owner))
  }

  /** getTimesheets() lists exactly the stored sheets. */
  lemma GetTimesheetsMembers(table: seq<StoredSheet>)
    ensures forall s :: s in table ==> ToEntity(s, s.owner) in GetTimesheets(table)
    ensures forall t :: t in GetTimesheets(table) ==> exists s :: s in table && t == ToEntity(s, s.owner)
  {
    var sorted := ListedSheets(table);
    var r := GetTimesheets(table);
    forall s | s in table
      ensures ToEntity(s, s.owner) in r
    {
      assert s in multiset(sorted);
      var k :| 0 <= k < |sorted| && sorted[k] == s;
      assert r[k] == ToEntity(s, s.owner);
    }
    forall t | t in r
      ensures exists s :: s in table && t == ToEntity(s, s.owner)
    {
      var k :| 0 <= k < |r| && r[k] == t;
      assert sorted[k] in multiset(table);
    }
  }

  /** The sheets of employee number n, newest end date first. */
  function ListedSheetsOf(table: seq<StoredSheet>, n: int): (s: seq<StoredSheet>)
    ensures multiset(s) == multiset(OwnedBy(table, n))
    ensures Sorting.SortedBy(s, NewestEndFirst)
  {
    Sorting.Sort(OwnedBy(table, n), NewestEndFirst)
  }

  /** getTimesheets(e): no sheets for a null employee; otherwise the sheets
      of that employee, newest end date first, each carrying `e` itself. */
  function GetTimesheetsFor(table: seq<StoredSheet>, e: Option<Employee>): (r: seq<Timesheet>)
    ensures e.None? ==> r == []
    ensures e.Some? ==> |r| == |OwnedBy(table, e.value.empNumber)|
    ensures forall k :: 0 <= k < |r| ==> r[k].employee == e && r[k].endDate.Some?
    ensures forall k, l :: 0 <= k < l < |r| ==> r[k].endDate.value >= r[l].endDate.value
  {
    if e.None? then []
    else
      var sorted := ListedSheetsOf(table, e.value.empNumber);
      assert |sorted| == |multiset(sorted)| == |OwnedBy(table, e.value.empNumber)|;
      OwnedEntities(sorted, e.value)
  }

  /** The stored sheets, in order, each materialised with the given owner. */
  function OwnedEntities(sorted: seq<StoredSheet>, owner: Employee): (r: seq<Timesheet>)
    ensures |r| == |sorted|
    ensures forall k :: 0 <= k < |r| ==> r[k] == ToEntity(sorted[k], owner)
  {
    seq(|sorted|, k requires 0 <= k < |sorted| => ToEntity(sorted[k], owner))
  }

  /** getTimesheets(e) lists exactly the sheets owned by e's employee number. */
  lemma GetTimesheetsForMembers(table: seq<StoredSheet>, e: Employee)
    ensures forall s :: s in table && s.owner.empNumber == e.empNumber ==> ToEntity(s, e) in GetTimesheetsFor(table, Some(e))
    ensures forall t :: t in GetTimesheetsFor(table, Some(e)) ==>
      exists s :: s in table && s.owner.empNumber == e.empNumber && t == ToEntity(s, e)
  {
    forall s | s in table && s.owner.empNumber == e.empNumber
      ensures ToEntity(s, e) in GetTimesheetsFor(table, Some(e))
    {
      OwnedSheetListed(table, e, s);
    }
    forall t | t in GetTimesheetsFor(table, Some(e))
      ensures exists s :: s in table && s.owner.empNumber == e.empNumber && t == ToEntity(s, e)
    {
      ListedSheetOwned(table, e, t);
    }
  }

  lemma OwnedSheetListed(table: seq<StoredSheet>, e: Employee, s: StoredSheet)
    requires s in table && s.owner.empNumber == e.empNumber
    ensures ToEntity(s, e) in GetTimesheetsFor(table, Some(e))
  {
    var sorted := ListedSheetsOf(table, e.empNumber);
    var r := GetTimesheetsFor(table, Some(e));
    assert r == OwnedEntities(sorted, e);
    assert s in OwnedBy(table, e.empNumber);
    assert s in multiset(sorted);
    var k :| 0 <= k < |sorted| && sorted[k] == s;
    assert r[k] == ToEntity(s, e);
  }

  lemma ListedSheetOwned(table: seq<StoredSheet>, e: Employee, t: Timesheet)
    requires t in GetTimesheetsFor(table, Some(e))
    ensures exists s :: s in table && s.owner.empNumber == e.empNumber && t == ToEntity(s, e)
  {
    var owned := OwnedBy(table, e.empNumber);
    var sorted := ListedSheetsOf(table, e.empNumber);
    var r := GetTimesheetsFor(table, Some(e));
    assert r == OwnedEntities(sorted, e);
    var k :| 0 <= k < |r| && r[k] == t;
    assert sorted[k] in multiset(owned);
    assert sorted[k] in owned;
  }

  /** `ORDER BY created_at DESC, timesheet_id DESC`: a is preferred to b. */
  predicate Newer(a: StoredSheet, b: StoredSheet)
  {
    a.createdAt > b.createdAt || (a.createdAt == b.createdAt && a.id > b.id)
  }

  /** Days between a sheet's end date and today. */
  function Distance(s: StoredSheet, today: int): nat
  {
    if s.endDate >= today then s.endDate - today else today - s.endDate
  }

  /** `ORDER BY ABS(DATEDIFF(end_date, today)), end_date < today, end_date
      DESC`: a is preferred to b. */
  predicate Closer(today: int, a: StoredSheet, b: StoredSheet)
  {
    Distance(a, today) < Distance(b, today) ||
    (Distance(a, today) == Distance(b, today) &&
      ((a.endDate >= today && b.endDate < today) ||
       ((a.endDate >= today) == (b.endDate >= today) && a.endDate > b.endDate)))
  }

  /** The stored sheet getCurrentTimesheet picks for employee number n:
      among the sheets ending on this week's Friday the newest created (then
      the highest id); when there is none, the sheet whose end date is
      nearest today, preferring one not in the past and then the later end
      date. */
  function CurrentSheetRecord(table: seq<StoredSheet>, n: int, today: int): (r: Option<StoredSheet>)
    ensures r.None? <==> forall x :: x in table ==> x.owner.empNumber != n
    ensures r.Some? ==> r.value in table && r.value.owner.empNumber == n
    ensures r.Some? && (exists x :: x in table && x.owner.empNumber == n && x.endDate == Calendar.EndOfWeekFriday(today)) ==>
      r.value.endDate == Calendar.EndOfWeekFriday(today) &&
      forall x :: x in table && x.owner.empNumber == n && x.endDate == Calendar.EndOfWeekFriday(today) ==> !Newer(x, r.value)
    ensures r.Some? && (forall x :: x in table && x.owner.empNumber == n ==> x.endDate != Calendar.EndOfWeekFriday(today)) ==>
      forall x :: x in table && x.owner.empNumber == n ==> !Closer(today, x, r.value)
  {
    var friday := Calendar.EndOfWeekFriday(today);
    var mine := OwnedBy(table, n);
    var exact := EndingOn(mine, friday);
    if exact != [] then Sorting.BestOf(exact, Newer)
    else Sorting.BestOf(mine, (a, b) => Closer(today, a, b))
  }

  /** getCurrentTimesheet(e): null for a null employee or one with no
      sheets, otherwise the chosen sheet carrying `e`. */
  function GetCurrentTimesheet(table: seq<StoredSheet>, e: Option<Employee>, today: int): (r: Option<Timesheet>)
    ensures r.Some? <==> e.Some? && exists x :: x in table && x.owner.empNumber == e.value.empNumber
    ensures r.Some? ==> r.value.employee == e
  {
    if e.None? then None
    else
      match CurrentSheetRecord(table, e.value.empNumber, today)
      case None => None
      case Some(s) => Some(ToEntity(s, e.value))
  }

  /** getMyNewest(): the current user's most recently created sheet (then
      the highest id), or null. */
  function GetMyNewest(table: seq<StoredSheet>, me: Option<Employee>): (r: Option<Timesheet>)
    ensures r.Some? <==> me.Some? && exists x :: x in table && x.owner.empNumber == me.value.empNumber
    ensures r.Some? ==> (r.value.employee == me &&
      exists s :: s in table && s.owner.empNumber == me.value.empNumber && r.value == ToEntity(s, me.value) &&
        forall x :: x in table && x.owner.empNumber == me.value.empNumber ==> !Newer(x, s))
  {
    if me.None? then None
    else
      match Sorting.BestOf(OwnedBy(table, me.value.empNumber), Newer)
      case None => None
      case Some(s) => Some(ToEntity(s, me.value))
  }

  // ---------------------------------------------------------------------
  // save, as a function of the table
  // ---------------------------------------------------------------------

  /** The outcome of `save`: the committed table, the next id and the id
      the sheet is now known by; or a failure, after which the transaction
      is rolled back and the table is as before. */
  datatype SaveResult = Saved(table: seq<StoredSheet>, nextId: int, id: Option<int>) | Failed

  /** save(ts). A null sheet is a no-op. A sheet without an id is inserted
      under the next id, with this week's Friday when it has no end date;
      it fails when it has no owner. A sheet with an id has its header
      updated (end date, overtime and flextime zeroed) and all its rows
      replaced; it fails when it has no end date, and also when no header
      has that id and there are rows to insert, which the row table's
      reference to its header refuses. */
  function SaveSpec(table: seq<StoredSheet>, nextId: int, ts: Option<Timesheet>, today: int, now: int): (r: SaveResult)
    ensures ts.None? ==> r == Saved(table, nextId, None)
    ensures r.Saved? && ts.Some? ==> r.id.Some? && (ts.value.id.Some? ==> r.id == ts.value.id)
    ensures r.Saved? ==> |r.table| == |table| + (if ts.Some? && ts.value.id.None? then 1 else 0)
  {
    if ts.None? then Saved(table, nextId, None)
    else
      var t := ts.value;
      if t.id.None? then
        if t.employee.None? then Failed
        else
          var end := if t.endDate.Some? then t.endDate.value else Calendar.EndOfWeekFriday(today);
          Saved(table + [StoredSheet(nextId, t.employee.value, end, now, 0, 0, StoreRows(t.details))], nextId + 1, Some(nextId))
      else if t.endDate.None? then Failed
      else
        var k := FindIndex(table, t.id.value);
        if k < |table| then
          Saved(table[k := table[k].(endDate := t.endDate.value, overtime := 0, flextime := 0, rows := StoreRows(t.details))],
                nextId, t.id)
        else if t.details == [] then Saved(table, nextId, t.id)
        else Failed
  }

  /** Every save that commits keeps the table invariant. */
  lemma SavePreservesValid(table: seq<StoredSheet>, nextId: int, ts: Option<Timesheet>, today: int, now: int)
    requires TableValid(table, nextId)
    ensures SaveSpec(table, nextId, ts, today, now).Saved? ==>
      var r := SaveSpec(table, nextId, ts, today, now);
      TableValid(r.table, r.nextId)
  {
  }

  /** The failure cases of save, and only those. */
  lemma SaveFailsIff(table: seq<StoredSheet>, nextId: int, ts: Option<Timesheet>, today: int, now: int)
    ensures SaveSpec(table, nextId, ts, today, now).Failed? <==>
      ts.Some? &&
      ((ts.value.id.None? && ts.value.employee.None?) ||
       (ts.value.id.Some? && (ts.value.endDate.None? || (!HasId(table, ts.value.id.value) && ts.value.details != []))))
  {
    if ts.Some? && ts.value.id.Some? {
      var k := FindIndex(table, ts.value.id.value);
      assert k < |table| <==> HasId(table, ts.value.id.value);
    }
  }

  /** A new sheet saved without an id is found again under the id it was
      given, with its owner, its end date (this week's Friday when it had
      none), zero overtime and flextime, and its rows normalised in order. */
  lemma SaveInsertThenLoad(table: seq<StoredSheet>, nextId: int, ts: Timesheet, today: int, now: int)
    requires TableValid(table, nextId)
    requires ts.id.None? && ts.employee.Some?
    ensures var r := SaveSpec(table, nextId, Some(ts), today, now);
      r.Saved? && r.id == Some(nextId) && !HasId(table, nextId) &&
      LoadById(r.table, r.id) == Some(Timesheet(Some(nextId), ts.employee,
        Some(if ts.endDate.Some? then ts.endDate.value else Calendar.EndOfWeekFriday(today)),
        0, 0, NormalisedRows(ts.details)))
  {
    var r := SaveSpec(table, nextId, Some(ts), today, now);
    assert FindIndex(r.table, nextId) == |table| by {
      FindAppended(table, r.table[|table|], nextId);
    }
    RowsRoundTrip(ts.details);
  }

  lemma FindAppended(table: seq<StoredSheet>, s: StoredSheet, id: int)
    requires forall j :: 0 <= j < |table| ==> table[j].id != id
    requires s.id == id
    ensures FindIndex(table + [s], id) == |table|
  {
    if table != [] {
      assert (table + [s])[1..] == table[1..] + [s];
      FindAppended(table[1..], s, id);
    }
  }

  /** A sheet saved under an existing id is found again with its stored
      owner, the new end date, zero overtime and flextime, and exactly the
      saved rows, normalised and in order: the old rows are all gone. */
  lemma SaveUpdateThenLoad(table: seq<StoredSheet>, nextId: int, ts: Timesheet, today: int, now: int)
    requires TableValid(table, nextId)
    requires ts.id.Some? && ts.endDate.Some? && HasId(table, ts.id.value)
    ensures var r := SaveSpec(table, nextId, Some(ts), today, now);
      var k := FindIndex(table, ts.id.value);
      r.Saved? && r.id == ts.id && k < |table| &&
      LoadById(r.table, ts.id) == Some(Timesheet(ts.id, Some(table[k].owner), ts.endDate, 0, 0, NormalisedRows(ts.details)))
  {
    var r := SaveSpec(table, nextId, Some(ts), today, now);
    var k := FindIndex(table, ts.id.value);
    assert FindIndex(r.table, ts.id.value) == k by {
      FindUpdated(table, k, r.table[k], ts.id.value);
    }
    RowsRoundTrip(ts.details);
  }

  lemma FindUpdated(table: seq<StoredSheet>, k: int, s: StoredSheet, id: int)
    requires 0 <= k < |table| && FindIndex(table, id) == k && s.id == id
    ensures FindIndex(table[k := s], id) == k
  {
    if k > 0 {
      assert table[k := s][1..] == table[1..][k - 1 := s];
      FindUpdated(table[1..], k - 1, s, id);
    }
  }

  /** A save changes no sheet other than the one it writes. */
  lemma SaveLeavesOthers(table: seq<StoredSheet>, nextId: int, ts: Option<Timesheet>, today: int, now: int, other: int)
    requires TableValid(table, nextId)
    requires SaveSpec(table, nextId, ts, today, now).Saved?
    requires SaveSpec(table, nextId, ts, today, now).id != Some(other)
    ensures LoadById(SaveSpec(table, nextId, ts, today, now).table, Some(other)) == LoadById(table, Some(other))
  {
    var r := SaveSpec(table, nextId, ts, today, now);
    if ts.Some? && ts.value.id.None? {
      FindBefore(table, r.table[|table|], other);
    } else if ts.Some? {
      var k := FindIndex(table, ts.value.id.value);
      if k < |table| {
        FindOther(table, k, r.table[k], other);
      }
    }
  }

  lemma FindBefore(table: seq<StoredSheet>, s: StoredSheet, id: int)
    requires s.id != id
    ensures FindIndex(table, id) < |table| ==> FindIndex(table + [s], id) == FindIndex(table, id)
    ensures FindIndex(table, id) == |table| ==> FindIndex(table + [s], id) == |table| + 1
  {
    if table != [] {
      assert (table + [s])[0] == table[0];
      assert (table + [s])[1..] == table[1..] + [s];
      FindBefore(table[1..], s, id);
    }
  }

  lemma FindOther(table: seq<StoredSheet>, k: int, s: StoredSheet, id: int)
    requires 0 <= k < |table| && s.id == table[k].id && s.id != id
    ensures FindIndex(table[k := s], id) == FindIndex(table, id)
    ensures FindIndex(table, id) < |table| ==> table[k := s][FindIndex(table, id)] == table[FindIndex(table, id)]
  {
    if table != [] && table[0].id != id && k > 0 {
      assert table[k := s][1..] == table[1..][k - 1 := s];
      FindOther(table[1..], k - 1, s, id);
    }
  }

  // ---------------------------------------------------------------------
  // The repository object
  // ---------------------------------------------------------------------

  /** The sheets written by `addTimesheet`: five placeholder rows with
      project 0, an empty work package and zero hours. */
  function PlaceholderRows(): (rows: seq<StoredRow>)
    ensures |rows| == PLACEHOLDER_ROWS && WellNumbered(rows)
  {
    seq(PLACEHOLDER_ROWS, k requires 0 <= k < PLACEHOLDER_ROWS => StoredRow(k + 1, 0, "", 0, None))
  }

  /** The placeholder loop of addTimesheet: five blank rows inserted in
      order with line numbers 1..5. */
  method InsertPlaceholderRows() returns (rows: seq<StoredRow>)
    ensures rows == PlaceholderRows()
  {
    rows := [];
    var i := 0;
    while i < PLACEHOLDER_ROWS
      invariant 0 <= i <= PLACEHOLDER_ROWS
      invariant |rows| == i
      invariant forall k :: 0 <= k < i ==> rows[k] == PlaceholderRows()[k]
    {
      var row := Row(0, Some(""), Some(ZeroWeek()), None);
      var stored := InsertRow(row, i + 1);
      PackZeroWeek();
      rows := rows + [stored];
      i := i + 1;
    }
  }

  class TimeSheetRepo {
    /** The `timesheets` table with its rows, in id order. */
    var sheets: seq<StoredSheet>
    /** The id the auto-increment column hands out next. */
    var nextId: int

    predicate Valid()
      reads this
    {
      TableValid(sheets, nextId)
    }

    constructor ()
      ensures Valid() && sheets == [] && nextId == 1
    {
      sheets := [];
      nextId := 1;
    }

    /** addTimesheet(): with no current user, "no-user" and nothing written;
        otherwise a header for this week's Friday, created now, followed by
        five placeholder rows numbered 1..5, and "created". An existing
        sheet for the same week does not prevent it. */
    method AddTimesheet(me: Option<Employee>, today: int, now: int) returns (outcome: string)
      requires Valid()
      modifies this
      ensures Valid()
      ensures me.None? ==> outcome == "no-user" && sheets == old(sheets) && nextId == old(nextId)
      ensures me.Some? ==> (outcome == "created" && nextId == old(nextId) + 1 &&
        sheets == old(sheets) + [StoredSheet(old(nextId), me.value, Calendar.EndOfWeekFriday(today), now, 0, 0, PlaceholderRows())])
    {
      if me.None? {
        return "no-user";
      }
      var rows := InsertPlaceholderRows();
      sheets := sheets + [StoredSheet(nextId, me.value, Calendar.EndOfWeekFriday(today), now, 0, 0, rows)];
      nextId := nextId + 1;
      return "created";
    }

    /** save(ts): the header first, then the rows one by one in order, on a
        staged copy that is committed only when every step succeeds. */
    method Save(ts: Option<Timesheet>, today: int, now: int) returns (ok: bool, id: Option<int>)
      requires Valid()
      modifies this
      ensures Valid()
      ensures SaveSpec(old(sheets), old(nextId), ts, today, now).Failed? ==>
        !ok && sheets == old(sheets) && nextId == old(nextId)
      ensures SaveSpec(old(sheets), old(nextId), ts, today, now).Saved? ==>
        var r := SaveSpec(old(sheets), old(nextId), ts, today, now);
        ok && sheets == r.table && nextId == r.nextId && id == r.id
    {
      SavePreservesValid(sheets, nextId, ts, today, now);
      if ts.None? {
        return true, None;
      }
      var t := ts.value;
      // Every failure below happens before the commit, so rolling back
      // leaves the table as it was.
      if t.id.None? {
        if t.employee.None? {
          // requireEmployeeId fails on a null owner
          return false, None;
        }
        var end := if t.endDate.Some? then t.endDate.value else Calendar.EndOfWeekFriday(today);
        var rows := WriteRows(t.details);
        sheets := sheets + [StoredSheet(nextId, t.employee.value, end, now, 0, 0, rows)];
        id := Some(nextId);
        nextId := nextId + 1;
      } else {
        if t.endDate.None? {
          // the header update cannot bind a null end date
          return false, None;
        }
        var k := FindIndex(sheets, t.id.value);
        if k == |sheets| && t.details != [] {
          // no header with this id: the first row insert is refused
          return false, None;
        }
        var rows := WriteRows(t.details);
        if k < |sheets| {
          sheets := sheets[k := sheets[k].(endDate := t.endDate.value, overtime := 0, flextime := 0, rows := rows)];
        }
        id := t.id;
      }
      ok := true;
    }

    /** save(ts, id): a non-null id is attached to the sheet first, which
        forces the update path. */
    method SaveWithId(ts: Option<Timesheet>, id: Option<int>, today: int, now: int) returns (ok: bool, savedId: Option<int>)
      requires Valid()
      modifies this
      ensures Valid()
      ensures var eff := if ts.Some? && id.Some? then Some(ts.value.(id := id)) else ts;
        var r := SaveSpec(old(sheets), old(nextId), eff, today, now);
        (r.Failed? ==> !ok && sheets == old(sheets) && nextId == old(nextId)) &&
        (r.Saved? ==> ok && sheets == r.table && nextId == r.nextId && savedId == r.id)
    {
      if ts.None? {
        ok, savedId := Save(ts, today, now);
      } else if id.Some? {
        ok, savedId := Save(Some(ts.value.(id := id)), today, now);
      } else {
        ok, savedId := Save(ts, today, now);
      }
    }
  }

  /** After addTimesheet for a user, getCurrentTimesheet finds a sheet for
      this week's Friday; when the clock has moved on since every earlier
      sheet was created, it is the one just created. */
  lemma AddThenCurrent(table: seq<StoredSheet>, nextId: int, me: Employee, today: int, now: int)
    requires TableValid(table, nextId)
    ensures var added := table + [StoredSheet(nextId, me, Calendar.EndOfWeekFriday(today), now, 0, 0, PlaceholderRows())];
      var r := CurrentSheetRecord(added, me.empNumber, today);
      r.Some? && r.value.endDate == Calendar.EndOfWeekFriday(today) &&
      ((forall x :: x in table ==> x.createdAt < now) ==> r.value.id == nextId)
  {
    var added := table + [StoredSheet(nextId, me, Calendar.EndOfWeekFriday(today), now, 0, 0, PlaceholderRows())];
    var created := added[|table|];
    assert created in added;
    var r := CurrentSheetRecord(added, me.empNumber, today);
  }
}
