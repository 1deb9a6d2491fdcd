/** The timesheet editor: it loads or creates a sheet, shows its rows as a
    grid of text cells (seven per row) and a column of notes, lets the user
    add rows, and on save validates the grid, writes it back into the rows
    and stores the sheet. */
module TimesheetEdit {
  import opened Base
  import opened JavaText
  import opened Entities
  import HourCodec
  import TimesheetStore
  import opened GridValidation
  import Access
  import Calendar

  /** A sheet opened in the editor has at least this many rows. */
  const MIN_ROWS := 5

  /** The text a day value is shown as: an empty cell for zero, otherwise
      Float.toString, which for a whole number of tenths is the whole part,
      a point and the tenths digit. */
  function InitCell(h: real): Cell
  {
    if h == 0.0 then Some("") else Some(FormatTenths(HourCodec.Round(h * 10.0)))
  }

  /** The seven cells shown for a row's hours. */
  function InitWeek(hours: seq<real>): (w: seq<Cell>)
    requires |hours| >= HourCodec.DAYS
    ensures |w| == HourCodec.DAYS
  {
    seq(HourCodec.DAYS, d requires 0 <= d < HourCodec.DAYS => InitCell(hours[d]))
  }

  /** Every row has an hours array of at least seven days, which building
      the grid reads without a null check. */
  predicate HoursReadable(rows: seq<Row>)
  {
    forall i :: 0 <= i < |rows| ==> rows[i].hours.Some? && |rows[i].hours.value| >= HourCodec.DAYS
  }

  /** The hours grid built from the rows. */
  function InitGrid(rows: seq<Row>): (g: seq<seq<Cell>>)
    requires HoursReadable(rows)
    ensures |g| == |rows|
  {
    seq(|rows|, i requires 0 <= i < |rows| => InitWeek(rows[i].hours.value))
  }

  /** The notes column built from the rows. */
  function InitNotes(rows: seq<Row>): (n: seq<Option<string>>)
    ensures |n| == |rows|
    ensures forall i :: 0 <= i < |rows| ==> n[i] == rows[i].notes
  {
    seq(|rows|, i requires 0 <= i < |rows| => rows[i].notes)
  }

  /** The rows padded with new rows up to MIN_ROWS. */
  function Padded(details: seq<Row>): (r: seq<Row>)
    ensures |r| >= MIN_ROWS && |r| >= |details|
    ensures r[..|details|] == details
    ensures forall i :: |details| <= i < |r| ==> r[i] == NewRow()
    ensures |details| >= MIN_ROWS ==> r == details
    ensures |details| < MIN_ROWS ==> |r| == MIN_ROWS
  {
    if |details| >= MIN_ROWS then details else details + seq(MIN_ROWS - |details|, _ => NewRow())
  }

  /** The hours grid as the totals check reads it. */
  function Weeks(grid: seq<seq<Cell>>): (w: seq<Week>)
    ensures |w| == |grid|
  {
    seq(|grid|, i requires 0 <= i < |grid| => Some(grid[i]))
  }

  /** The seven day values save writes back from a grid row. */
  function WriteBackHours(week: seq<Cell>): (h: seq<real>)
    requires |week| >= HourCodec.DAYS
    ensures |h| == HourCodec.DAYS
    ensures forall d :: 0 <= d < HourCodec.DAYS ==> 0.0 <= h[d] <= 24.0
  {
    var h := Tabulate(HoursOf(week), HourCodec.DAYS);
    assert forall d :: 0 <= d < HourCodec.DAYS ==> 0.0 <= h[d] <= 24.0 by {
      forall d | 0 <= d < HourCodec.DAYS
        ensures 0.0 <= h[d] <= 24.0
      {
        TabulateAt(HoursOf(week), HourCodec.DAYS, d);
      }
    }
    h
  }

  /** The value parseHour gives each cell of a grid row. */
  function HoursOf(week: seq<Cell>): nat -> real
  {
    (d: nat) => if d < |week| then ParseHour(week[d]) else 0.0
  }

  /** Day d of the written-back hours is parseHour of that day's cell. */
  lemma WriteBackHoursAt(week: seq<Cell>, d: nat)
    requires |week| >= HourCodec.DAYS && d < HourCodec.DAYS
    ensures WriteBackHours(week)[d] == ParseHour(week[d])
  {
    TabulateAt(HoursOf(week), HourCodec.DAYS, d);
  }

  /** Grid rows of seven cells, one per sheet row. */
  predicate GridShaped(rows: seq<Row>, grid: seq<seq<Cell>>, notes: seq<Option<string>>)
  {
    |grid| == |rows| && |notes| == |rows| &&
    forall i :: 0 <= i < |grid| ==> |grid[i]| == HourCodec.DAYS
  }

  /** The rows after save's write-back: each row takes its grid row's
      parsed hours and its notes cell; project and work package stay. */
  function WrittenBack(rows: seq<Row>, grid: seq<seq<Cell>>, notes: seq<Option<string>>): (r: seq<Row>)
    requires GridShaped(rows, grid, notes)
    ensures |r| == |rows|
  {
    seq(|rows|, i requires 0 <= i < |rows| =>
      rows[i].(hours := Some(WriteBackHours(grid[i])), notes := notes[i]))
  }

  /** The padding loop of init: new rows are appended until there are
      MIN_ROWS. */
  method PadRows(details: seq<Row>) returns (padded: seq<Row>)
    ensures padded == Padded(details)
  {
    padded := details;
    while |padded| < MIN_ROWS
      invariant padded[..|details|] == details && |padded| >= |details|
      invariant forall i :: |details| <= i < |padded| ==> padded[i] == NewRow()
      invariant |details| >= MIN_ROWS ==> padded == details
      invariant |padded| <= MIN_ROWS || padded == details
      decreases MIN_ROWS - |padded|
    {
      padded := padded + [NewRow()];
    }
  }

  /** The inner loop of save's write-back: a fresh array of seven days,
      each the parsed value of its cell. */
  method ParseWeek(week: seq<Cell>) returns (hours: seq<real>)
    requires |week| >= HourCodec.DAYS
    ensures hours == WriteBackHours(week)
  {
    var pack := Fill(HoursOf(week), HourCodec.DAYS);
    hours := pack[..];
  }

  /** The write-back loop of save: row i takes the hours parsed from its
      grid row, day by day, and its notes cell. */
  method WriteBack(shown: seq<Row>, grid: seq<seq<Cell>>, notes: seq<Option<string>>) returns (newRows: seq<Row>)
    requires GridShaped(shown, grid, notes)
    ensures newRows == WrittenBack(shown, grid, notes)
  {
    newRows := shown;
    var i := 0;
    while i < |shown|
      invariant 0 <= i <= |shown| && |newRows| == |shown|
      invariant forall k :: 0 <= k < i ==> newRows[k] == shown[k].(hours := Some(WriteBackHours(grid[k])), notes := notes[k])
      invariant forall k :: i <= k < |shown| ==> newRows[k] == shown[k]
    {
      var hours := ParseWeek(grid[i]);
      newRows := newRows[i := newRows[i].(hours := Some(hours), notes := notes[i])];
      i := i + 1;
    }
  }

  /** The inner loop of init's grid building: the seven cells of one row. */
  method WeekCells(hours: seq<real>) returns (week: seq<Cell>)
    requires |hours| >= HourCodec.DAYS
    ensures week == InitWeek(hours)
  {
    week := [];
    var d := 0;
    while d < HourCodec.DAYS
      invariant 0 <= d <= HourCodec.DAYS && |week| == d
      invariant forall e :: 0 <= e < d ==> week[e] == InitCell(hours[e])
    {
      week := week + [if hours[d] == 0.0 then Some("") else Some(FormatTenths(HourCodec.Round(hours[d] * 10.0)))];
      d := d + 1;
    }
  }

  /** The grid-building loops of init: one row of seven cells and one notes
      cell per row; it fails on the first row whose hours cannot be read. */
  method BuildGrids(rows: seq<Row>) returns (ok: bool, grid: seq<seq<Cell>>, notes: seq<Option<string>>)
    ensures ok <==> HoursReadable(rows)
    ensures ok ==> grid == InitGrid(rows) && notes == InitNotes(rows)
  {
    grid, notes := [], [];
    var i := 0;
    while i < |rows|
      invariant 0 <= i <= |rows| && |grid| == i && |notes| == i
      invariant forall k :: 0 <= k < i ==> rows[k].hours.Some? && |rows[k].hours.value| >= HourCodec.DAYS
      invariant forall k :: 0 <= k < i ==> grid[k] == InitWeek(rows[k].hours.value) && notes[k] == rows[k].notes
    {
      var r := rows[i];
      if r.hours.None? || |r.hours.value| < HourCodec.DAYS {
        return false, grid, notes;
      }
      var week := WeekCells(r.hours.value);
      grid := grid + [week];
      notes := notes + [r.notes];
      i := i + 1;
    }
    ok := true;
  }

  /** What save leads to: the page again with the failed checks, the
      sheet view, or a store failure, which `save` raises as an
      exception. */
  datatype EditOutcome = Stay(totals: seq<TotalsError>, duplicates: seq<Duplicate>) | Navigate(view: string) | StoreFailed

  class TimesheetEditBean {
    const repo: TimesheetStore.TimeSheetRepo
    /** The sheet being edited, null until init has run. */
    var sheet: Option<Timesheet>
    /** The rows shown, the same rows as the sheet's details. */
    var rows: seq<Row>
    /** One row of seven text cells per sheet row. */
    var hoursGrid: seq<seq<Cell>>
    /** One notes cell per sheet row. */
    var notesGrid: seq<Option<string>>

    /** The grids stay parallel to the rows, and the rows are the sheet's
        own rows (`TimesheetEditBean` shares the row objects between the two lists). */
    predicate Valid()
      reads this, repo
    {
      repo.Valid() &&
      GridShaped(rows, hoursGrid, notesGrid) &&
      (if sheet.Some? then sheet.value.details == rows else rows == [])
    }

    constructor (repo: TimesheetStore.TimeSheetRepo)
      requires repo.Valid()
      ensures Valid() && this.repo == repo
      ensures sheet.None? && rows == [] && hoursGrid == [] && notesGrid == []
    {
      this.repo := repo;
      sheet := None;
      rows := [];
      hoursGrid := [];
      notesGrid := [];
    }

    /** init: nothing when a sheet is already loaded. Otherwise the
        selected sheet, or else a newly added one read back as the user's
        newest; padded to five rows; then the grids are built. With no
        sheet to open, or a row whose hours cannot be read, `init`
        throws and the bean is left as it was. */
    method Init(selected: Option<Timesheet>, me: Option<Employee>, today: int, now: int) returns (ok: bool)
      requires Valid()
      modifies this, repo
      ensures Valid()
      ensures old(sheet).Some? ==>
        ok && sheet == old(sheet) && rows == old(rows) && hoursGrid == old(hoursGrid) && notesGrid == old(notesGrid) &&
        repo.sheets == old(repo.sheets) && repo.nextId == old(repo.nextId)
      ensures old(sheet).None? && (selected.Some? || me.None?) ==>
        repo.sheets == old(repo.sheets) && repo.nextId == old(repo.nextId)
      ensures old(sheet).None? && selected.None? && me.Some? ==>
        repo.nextId == old(repo.nextId) + 1 &&
        repo.sheets == old(repo.sheets) + [TimesheetStore.StoredSheet(old(repo.nextId), me.value,
          Calendar.EndOfWeekFriday(today), now, 0, 0, TimesheetStore.PlaceholderRows())]
      ensures old(sheet).None? ==>
        var s := if selected.Some? then selected else TimesheetStore.GetMyNewest(repo.sheets, me);
        (ok <==> s.Some? && HoursReadable(Padded(s.value.details))) &&
        (ok ==> sheet == Some(s.value.(details := Padded(s.value.details))) && rows == Padded(s.value.details) &&
                hoursGrid == InitGrid(rows) && notesGrid == InitNotes(rows)) &&
        (!ok ==> sheet == old(sheet) && rows == old(rows) && hoursGrid == old(hoursGrid) && notesGrid == old(notesGrid))
    {
      if sheet.Some? {
        return true;
      }
      var s := selected;
      if s.None? {
        var _ := repo.AddTimesheet(me, today, now);
        s := TimesheetStore.GetMyNewest(repo.sheets, me);
      }
      if s.None? {
        // no sheet to open: `init` dereferences null here
        return false;
      }
      var padded := PadRows(s.value.details);
      var readable, grid, notes := BuildGrids(padded);
      if !readable {
        // a row's hours array is null or too short for the seven columns
        return false;
      }
      var t := s.value.(details := padded);
      sheet := Some(t);
      rows := t.details;
      hoursGrid := grid;
      notesGrid := notes;
      ok := true;
    }

    /** addRow: a new row on the sheet and in the rows, seven empty cells
        and an empty notes cell; the editor page is shown again. */
    method AddRow() returns (view: string)
      requires Valid() && sheet.Some?
      modifies this
      ensures Valid()
      ensures rows == old(rows) + [NewRow()]
      ensures sheet == Some(old(sheet).value.(details := rows))
      ensures hoursGrid == old(hoursGrid) + [BlankWeek()] && notesGrid == old(notesGrid) + [Some("")]
      ensures view == "timesheetEdit"
    {
      var r := NewRow();
      sheet := Some(sheet.value.(details := sheet.value.details + [r]));
      rows := rows + [r];
      var blankWeek: seq<Cell> := [];
      var i := 0;
      while i < HourCodec.DAYS
        invariant 0 <= i <= HourCodec.DAYS
        invariant blankWeek == BlankWeek()[..i]
      {
        blankWeek := blankWeek + [Some("")];
        i := i + 1;
      }
      assert blankWeek == BlankWeek();
      hoursGrid := hoursGrid + [blankWeek];
      notesGrid := notesGrid + [Some("")];
      view := "timesheetEdit";
    }

    /** save: the totals check, then the uniqueness check; on a failure the
        page is shown again and nothing changes. Otherwise every row takes
        the parsed hours and the notes of its grid row, the sheet is stored
        once, and the sheet view follows. */
    method Save(today: int, now: int) returns (outcome: EditOutcome)
      requires Valid()
      modifies this, repo
      ensures Valid()
      ensures TotalsErrors(Weeks(old(hoursGrid))) != [] ==>
        outcome == Stay(TotalsErrors(Weeks(old(hoursGrid))), []) &&
        sheet == old(sheet) && rows == old(rows) && repo.sheets == old(repo.sheets) && repo.nextId == old(repo.nextId)
      ensures TotalsErrors(Weeks(old(hoursGrid))) == [] && Duplicates(old(rows)) != [] ==>
        outcome == Stay([], Duplicates(old(rows))) &&
        sheet == old(sheet) && rows == old(rows) && repo.sheets == old(repo.sheets) && repo.nextId == old(repo.nextId)
      ensures TotalsErrors(Weeks(old(hoursGrid))) == [] && Duplicates(old(rows)) == [] ==>
        rows == WrittenBack(old(rows), old(hoursGrid), old(notesGrid)) &&
        var written := if old(sheet).Some? then Some(old(sheet).value.(details := rows)) else None;
        var r := TimesheetStore.SaveSpec(old(repo.sheets), old(repo.nextId), written, today, now);
        (r.Failed? ==>
           outcome == StoreFailed && sheet == written &&
           repo.sheets == old(repo.sheets) && repo.nextId == old(repo.nextId)) &&
        (r.Saved? ==>
           outcome == Navigate("timesheetForm") && repo.sheets == r.table && repo.nextId == r.nextId &&
           sheet == (if written.Some? then Some(written.value.(id := r.id)) else None))
      ensures hoursGrid == old(hoursGrid) && notesGrid == old(notesGrid)
    {
      var totalsOk, totalsErrors := ValidateTotalsFromGrid(Weeks(hoursGrid));
      if !totalsOk {
        return Stay(totalsErrors, []);
      }
      var unique, duplicates := ValidateUniqueProjectWp(rows);
      if !unique {
        return Stay([], duplicates);
      }

      outcome := StoreWrittenBack(today, now);
    }

    /** The tail of save once both checks pass: every row takes the parsed
        hours and the notes of its grid row, then the sheet is stored once. */
    method StoreWrittenBack(today: int, now: int) returns (outcome: EditOutcome)
      requires Valid()
      modifies this, repo
      ensures Valid()
      ensures rows == WrittenBack(old(rows), old(hoursGrid), old(notesGrid))
      ensures var written := if old(sheet).Some? then Some(old(sheet).value.(details := rows)) else None;
        var r := TimesheetStore.SaveSpec(old(repo.sheets), old(repo.nextId), written, today, now);
        (r.Failed? ==>
           outcome == StoreFailed && sheet == written &&
           repo.sheets == old(repo.sheets) && repo.nextId == old(repo.nextId)) &&
        (r.Saved? ==>
           outcome == Navigate("timesheetForm") && repo.sheets == r.table && repo.nextId == r.nextId &&
           sheet == (if written.Some? then Some(written.value.(id := r.id)) else None))
      ensures hoursGrid == old(hoursGrid) && notesGrid == old(notesGrid)
    {
      var newRows := WriteBack(rows, hoursGrid, notesGrid);
      rows := newRows;
      if sheet.Some? {
        sheet := Some(sheet.value.(details := rows));
      }

      var stored, id := repo.Save(sheet, today, now);
      if !stored {
        return StoreFailed;
      }
      if sheet.Some? {
        sheet := Some(sheet.value.(id := id));
      }
      outcome := Navigate("timesheetForm");
    }

    /** isEditable of the editor. */
    predicate IsEditable(today: int)
      reads this
    {
      Access.IsEditable(sheet, today)
    }
  }

  /** Seven empty cells. */
  function BlankWeek(): (w: seq<Cell>)
    ensures |w| == HourCodec.DAYS
  {
    seq(HourCodec.DAYS, _ => Some(""))
  }

  // ---------------------------------------------------------------------
  // What the editor's steps guarantee together
  // ---------------------------------------------------------------------

  /** A day value of whole tenths, shown in its cell and parsed back by
      save, comes back capped at 24 hours and otherwise unchanged. */
  lemma InitCellRoundTrip(h: real)
    requires HourCodec.Storable(h)
    ensures ParseHour(InitCell(h)) == ClampHours(h)
  {
    if h != 0.0 {
      var t := HourCodec.Round(h * 10.0);
      FormatTenthsIsTrimmed(t);
      ParseFormatTenths(t);
      assert t as real / 10.0 == h;
    } else {
      assert IsBlank("");
    }
  }

  /** Opening a sheet and saving it untouched keeps every row's hours,
      capped at 24 hours a day, and its notes. */
  lemma UntouchedSaveKeepsRows(rows: seq<Row>)
    requires HoursReadable(rows)
    requires forall i, d :: 0 <= i < |rows| && 0 <= d < HourCodec.DAYS ==> HourCodec.Storable(rows[i].hours.value[d])
    ensures forall i :: 0 <= i < |rows| ==>
      WrittenBack(rows, InitGrid(rows), InitNotes(rows))[i] ==
      rows[i].(hours := Some(seq(HourCodec.DAYS, d requires 0 <= d < HourCodec.DAYS => ClampHours(rows[i].hours.value[d]))))
  {
    forall i | 0 <= i < |rows|
      ensures WriteBackHours(InitGrid(rows)[i]) ==
        seq(HourCodec.DAYS, d requires 0 <= d < HourCodec.DAYS => ClampHours(rows[i].hours.value[d]))
    {
      forall d | 0 <= d < HourCodec.DAYS
        ensures WriteBackHours(InitGrid(rows)[i])[d] == ClampHours(rows[i].hours.value[d])
      {
        WriteBackHoursAt(InitGrid(rows)[i], d);
        InitCellRoundTrip(rows[i].hours.value[d]);
      }
    }
  }

  /** Every sheet the store hands out, padded, can be opened in the editor. */
  lemma StoredSheetsOpen(s: TimesheetStore.StoredSheet, owner: Employee)
    ensures HoursReadable(Padded(TimesheetStore.ToEntity(s, owner).details))
  {
    var details := TimesheetStore.ToEntity(s, owner).details;
    var p := Padded(details);
    forall i | 0 <= i < |p|
      ensures p[i].hours.Some? && |p[i].hours.value| >= HourCodec.DAYS
    {
      if i < |details| {
        assert p[i] == details[i];
      }
    }
  }

  /** The day total of the stored hours of a list of rows, in tenths. */
  function StoredColumn(rows: seq<Row>, d: nat): int
    requires d < HourCodec.DAYS
  {
    if rows == [] then 0
    else StoredColumn(rows[..|rows| - 1], d) + HourCodec.DayTenths(HourCodec.SafeHours(rows[|rows| - 1].hours)[d])
  }

  /** The totals check sees exactly what save stores: each day's stored
      total equals the total the check computed from the grid. */
  lemma {:induction false} CheckedTotalsAreStored(rows: seq<Row>, grid: seq<seq<Cell>>, notes: seq<Option<string>>, d: nat)
    requires GridShaped(rows, grid, notes) && d < HourCodec.DAYS
    ensures StoredColumn(WrittenBack(rows, grid, notes), d) == ColumnTotal(Weeks(grid), d)
  {
    if rows != [] {
      var n := |rows| - 1;
      CheckedTotalsAreStored(rows[..n], grid[..n], notes[..n], d);
      assert WrittenBack(rows, grid, notes)[..n] == WrittenBack(rows[..n], grid[..n], notes[..n]);
      assert Weeks(grid)[..n] == Weeks(grid[..n]);
      StoredCellIsChecked(rows, grid, notes, n, d);
    }
  }

  /** The tenths save stores for one cell are the tenths the check counted
      for it. */
  lemma StoredCellIsChecked(rows: seq<Row>, grid: seq<seq<Cell>>, notes: seq<Option<string>>, i: nat, d: nat)
    requires GridShaped(rows, grid, notes) && i < |rows| && d < HourCodec.DAYS
    ensures HourCodec.DayTenths(HourCodec.SafeHours(WrittenBack(rows, grid, notes)[i].hours)[d]) ==
      CellTenths(CellOf(Weeks(grid)[i], d))
  {
    WriteBackHoursAt(grid[i], d);
    CellTenthsIsStoredValue(grid[i][d]);
  }

  /** After a save that passed the checks, no day of the stored sheet holds
      more than 24 hours in total. */
  lemma SavedDaysWithinCap(rows: seq<Row>, grid: seq<seq<Cell>>, notes: seq<Option<string>>, d: nat)
    requires GridShaped(rows, grid, notes) && d < HourCodec.DAYS
    requires TotalsErrors(Weeks(grid)) == []
    ensures StoredColumn(WrittenBack(rows, grid, notes), d) <= DAY_CAP
  {
    CheckedTotalsAreStored(rows, grid, notes, d);
    TotalsValidIff(DayTotals(Weeks(grid)));
    assert DayTotals(Weeks(grid))[d] == ColumnTotal(Weeks(grid), d);
  }

  /** A row added by addRow changes neither check: its cells are empty and
      it is a placeholder row. */
  lemma AddRowKeepsChecks(rows: seq<Row>, grid: seq<seq<Cell>>)
    ensures TotalsErrors(Weeks(grid + [BlankWeek()])) == TotalsErrors(Weeks(grid))
    ensures Duplicates(rows + [NewRow()]) == Duplicates(rows)
  {
    BlankWeekKeepsTotals(grid);
    NewRowKeepsDuplicates(rows);
  }

  /** A blank week adds nothing to any day's total. */
  lemma BlankWeekKeepsTotals(grid: seq<seq<Cell>>)
    ensures TotalsErrors(Weeks(grid + [BlankWeek()])) == TotalsErrors(Weeks(grid))
  {
    var g := Weeks(grid + [BlankWeek()]);
    assert g[..|grid|] == Weeks(grid);
    assert g[|grid|] == Some(BlankWeek());
    forall d: nat
      ensures ColumnTotal(g, d) == ColumnTotal(Weeks(grid), d)
    {
      BlankCell(d);
    }
    assert DayTotals(g) == DayTotals(Weeks(grid));
  }

  /** Every cell of a blank week counts for nothing. */
  lemma BlankCell(d: nat)
    ensures CellTenths(CellOf(Some(BlankWeek()), d)) == 0
  {
    assert CellOf(Some(BlankWeek()), d) == None || CellOf(Some(BlankWeek()), d) == Some("");
    assert IsBlank("");
  }

  /** A new row is a placeholder and is skipped by the uniqueness check. */
  lemma NewRowKeepsDuplicates(rows: seq<Row>)
    ensures Duplicates(rows + [NewRow()]) == Duplicates(rows)
  {
    assert KeyOf(NewRow()) == None by {
      assert Trim("") == "";
    }
    var ks := Keys(rows + [NewRow()]);
    assert ks[..|rows|] == Keys(rows);
  }
}
