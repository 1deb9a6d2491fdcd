/** The checks the timesheet editor runs on its grid before saving: the
    per-day and weekly hour caps, and uniqueness of (project, work package)
    across rows. Hour totals are kept in exact tenths of an hour. */
module GridValidation {
  import opened Base
  import opened JavaText
  import opened Entities
  import HourCodec

  /** One text cell of the hours grid (null when never filled in). */
  type Cell = Option<string>
  /** One row of the hours grid as the check sees it: it may be null, and
      may hold fewer or more than seven cells. */
  type Week = Option<seq<Cell>>

  /** 24 hours a day, in tenths. */
  const DAY_CAP := 240
  /** 168 hours a week, in tenths. */
  const WEEK_CAP := 1680

  /** A value clamped to 0..24 hours. */
  function ClampHours(v: real): (r: real)
    ensures 0.0 <= r <= 24.0
    ensures 0.0 <= v <= 24.0 ==> r == v
    ensures v < 0.0 ==> r == 0.0
    ensures v > 24.0 ==> r == 24.0
  {
    if v < 0.0 then 0.0 else if v > 24.0 then 24.0 else v
  }

  /** The number a cell holds: none for a null or blank cell or for text
      that does not parse, otherwise the trimmed text read as a decimal. */
  function ParsedCell(s: Cell): (v: Option<real>)
    ensures IsNullOrBlank(s) ==> v.None?
  {
    if IsNullOrBlank(s) then None else ParseDecimal(Trim(s.value))
  }

  /** parseHour: 0 for a null, blank or unparsable cell, otherwise the
      trimmed value read as a number and clamped to 0..24. */
  function ParseHour(s: Cell): (h: real)
    ensures 0.0 <= h <= 24.0
    ensures ParsedCell(s).None? ==> h == 0.0
    ensures ParsedCell(s).Some? && 0.0 <= ParsedCell(s).value <= 24.0 ==> h == ParsedCell(s).value
    ensures ParsedCell(s).Some? && ParsedCell(s).value < 0.0 ==> h == 0.0
    ensures ParsedCell(s).Some? && ParsedCell(s).value > 24.0 ==> h == 24.0
  {
    match ParsedCell(s)
    case None => 0.0
    case Some(v) => ClampHours(v)
  }

  /** What one cell adds to its day's total, in tenths: nothing for a null,
      blank or unparsable cell, otherwise the clamped value rounded to the
      nearest tenth. */
  function CellTenths(s: Cell): (t: int)
    ensures 0 <= t <= DAY_CAP
  {
    match ParsedCell(s)
    case None => 0
    case Some(v) => RoundedTenths(ClampHours(v))
  }

  /** Math.round(v * 10) for 0 <= v <= 24. */
  function RoundedTenths(v: real): (t: int)
    requires 0.0 <= v <= 24.0
    ensures 0 <= t <= DAY_CAP
  {
    HourCodec.Round(v * 10.0)
  }

  /** The totals check and the save agree on every cell: the tenths it
      counts are exactly what parseHour's value is stored as. */
  lemma CellTenthsIsStoredValue(s: Cell)
    ensures CellTenths(s) == HourCodec.DayTenths(ParseHour(s))
  {
    assert HourCodec.Round(0.0) == 0;
  }

  /** The cell of a grid row for day d; a missing row or cell reads as null. */
  function CellOf(w: Week, d: nat): Cell
  {
    if w.Some? && d < |w.value| then w.value[d] else None
  }

  /** The day-d total of the grid, in tenths. */
  function ColumnTotal(grid: seq<Week>, d: nat): (t: int)
    ensures 0 <= t <= DAY_CAP * |grid|
  {
    if grid == [] then 0
    else ColumnTotal(grid[..|grid| - 1], d) + CellTenths(CellOf(grid[|grid| - 1], d))
  }

  /** The seven day totals of the grid, in tenths. */
  function DayTotals(grid: seq<Week>): (t: seq<int>)
    ensures |t| == HourCodec.DAYS
  {
    seq(HourCodec.DAYS, d requires 0 <= d < HourCodec.DAYS => ColumnTotal(grid, d))
  }

  /** The sum of the first n day totals. */
  function Sum(totals: seq<int>, n: nat): int
    requires n <= |totals|
  {
    if n == 0 then 0 else Sum(totals, n - 1) + totals[n - 1]
  }

  /** A failed cap: the day (0 = Saturday) and its total, or the week's
      total, in tenths. */
  datatype TotalsError = DayOver(day: nat, tenths: int) | WeekOver(tenths: int)

  /** The day-cap failures among the first n day totals, in day order. */
  function DayErrors(totals: seq<int>, n: nat): seq<TotalsError>
    requires n <= |totals|
  {
    if n == 0 then []
    else DayErrors(totals, n - 1) + (if totals[n - 1] > DAY_CAP then [DayOver(n - 1, totals[n - 1])] else [])
  }

  /** The failures reported for a set of day totals: each day over 24
      hours, then the week when it is over 168 hours. */
  function TotalsErrorsOf(totals: seq<int>): seq<TotalsError>
  {
    DayErrors(totals, |totals|) + (if Sum(totals, |totals|) > WEEK_CAP then [WeekOver(Sum(totals, |totals|))] else [])
  }

  /** Every failure validateTotalsFromGrid reports for a grid. */
  function TotalsErrors(grid: seq<Week>): seq<TotalsError>
  {
    TotalsErrorsOf(DayTotals(grid))
  }

  /** Adding grid row i to the rows before it adds that row's cell to each
      day's total. */
  lemma ColumnStep(grid: seq<Week>, i: nat, d: nat)
    requires i < |grid|
    ensures ColumnTotal(grid[..i + 1], d) == ColumnTotal(grid[..i], d) + CellTenths(CellOf(grid[i], d))
  {
    assert grid[..i + 1][..i] == grid[..i];
  }

  /** The inner step of validateTotalsFromGrid for one cell: a null, blank
      or unparsable cell is skipped; any other value is clamped to 0..24
      and rounded to the nearest tenth. */
  method CellContribution(week: Week, d: nat) returns (t: int)
    ensures t == CellTenths(CellOf(week, d))
  {
    t := 0;
    if week.Some? && d < |week.value| {
      var parsed := ParsedCell(week.value[d]);
      if parsed.Some? {
        var v := parsed.value;
        if v < 0.0 {
          v := 0.0;
        }
        if v > 24.0 {
          v := 24.0;
        }
        t := RoundedTenths(v);
      }
    }
  }

  /** What the cell of a row for each day adds to that day. */
  function CellsOf(week: Week): nat -> int
  {
    (d: nat) => CellTenths(CellOf(week, d))
  }

  /** What each of the seven cells of a row adds to its day. */
  function RowTenths(week: Week): (r: seq<int>)
    ensures |r| == HourCodec.DAYS
  {
    Tabulate(CellsOf(week), HourCodec.DAYS)
  }

  /** The inner loop of validateTotalsFromGrid: one grid row adds each of
      its cells to its day's total; a null row adds nothing. */
  method AddWeek(dayTotals: array<int>, week: Week)
    requires dayTotals.Length == HourCodec.DAYS
    modifies dayTotals
    ensures forall e :: 0 <= e < HourCodec.DAYS ==> dayTotals[e] == old(dayTotals[e]) + RowTenths(week)[e]
  {
    ghost var cells := RowTenths(week);
    var d := 0;
    while d < HourCodec.DAYS
      invariant 0 <= d <= HourCodec.DAYS
      invariant forall e :: 0 <= e < d ==> dayTotals[e] == old(dayTotals[e]) + cells[e]
      invariant forall e :: d <= e < HourCodec.DAYS ==> dayTotals[e] == old(dayTotals[e])
    {
      var t := CellContribution(week, d);
      TabulateAt(CellsOf(week), HourCodec.DAYS, d);
      dayTotals[d] := dayTotals[d] + t;
      d := d + 1;
    }
  }

  /** The accumulation loops of validateTotalsFromGrid: each day's total
      over the grid's rows, in a fresh array of seven. */
  method AccumulateDayTotals(grid: seq<Week>) returns (dayTotals: array<int>)
    ensures fresh(dayTotals) && dayTotals.Length == HourCodec.DAYS
    ensures dayTotals[..] == DayTotals(grid)
  {
    dayTotals := new int[HourCodec.DAYS](_ => 0);
    var i := 0;
    while i < |grid|
      invariant 0 <= i <= |grid|
      invariant forall e :: 0 <= e < HourCodec.DAYS ==> dayTotals[e] == ColumnTotal(grid[..i], e)
    {
      AddWeek(dayTotals, grid[i]);
      forall e | 0 <= e < HourCodec.DAYS
        ensures dayTotals[e] == ColumnTotal(grid[..i + 1], e)
      {
        ColumnStep(grid, i, e);
        TabulateAt(CellsOf(grid[i]), HourCodec.DAYS, e);
      }
      i := i + 1;
    }
    assert grid[..|grid|] == grid;
    assert dayTotals[..] == DayTotals(grid);
  }

  /** validateTotalsFromGrid: accumulates each day's total, then checks
      every day and the week. */
  method ValidateTotalsFromGrid(grid: seq<Week>) returns (valid: bool, errors: seq<TotalsError>)
    ensures errors == TotalsErrors(grid)
    ensures valid <==> errors == []
  {
    var dayTotals := AccumulateDayTotals(grid);
    ghost var totals := dayTotals[..];

    valid := true;
    errors := [];
    var d := 0;
    while d < HourCodec.DAYS
      invariant 0 <= d <= HourCodec.DAYS
      invariant errors == DayErrors(totals, d)
      invariant valid <==> errors == []
    {
      if dayTotals[d] > DAY_CAP {
        valid := false;
        errors := errors + [DayOver(d, dayTotals[d])];
      }
      d := d + 1;
    }
    var weekTotal := 0;
    d := 0;
    while d < HourCodec.DAYS
      invariant 0 <= d <= HourCodec.DAYS
      invariant weekTotal == Sum(totals, d)
    {
      weekTotal := weekTotal + dayTotals[d];
      d := d + 1;
    }
    if weekTotal > WEEK_CAP {
      valid := false;
      errors := errors + [WeekOver(weekTotal)];
    }
  }

  /** Every reported day is over the cap and carries its total. */
  lemma {:induction false} DayErrorsSound(totals: seq<int>, n: nat)
    requires n <= |totals|
    ensures forall x :: x in DayErrors(totals, n) ==>
      x.DayOver? && x.day < n && x.tenths == totals[x.day] && x.tenths > DAY_CAP
  {
    forall x | x in DayErrors(totals, n)
      ensures x.DayOver? && x.day < n && x.tenths == totals[x.day] && x.tenths > DAY_CAP
    {
      DayErrorSound(totals, n, x);
    }
  }

  lemma {:induction false} DayErrorSound(totals: seq<int>, n: nat, x: TotalsError)
    requires n <= |totals| && x in DayErrors(totals, n)
    ensures x.DayOver? && x.day < n && x.tenths == totals[x.day] && x.tenths > DAY_CAP
  {
    if x in DayErrors(totals, n - 1) {
      DayErrorSound(totals, n - 1, x);
    }
  }

  /** Every day over the cap is reported. */
  lemma {:induction false} DayErrorsComplete(totals: seq<int>, n: nat, d: nat)
    requires d < n <= |totals| && totals[d] > DAY_CAP
    ensures DayOver(d, totals[d]) in DayErrors(totals, n)
  {
    var prev := DayErrors(totals, n - 1);
    if d < n - 1 {
      DayErrorsComplete(totals, n - 1, d);
      assert DayErrors(totals, n)[..|prev|] == prev;
    } else {
      assert DayErrors(totals, n) == prev + [DayOver(d, totals[d])];
      assert DayErrors(totals, n)[|prev|] == DayOver(d, totals[d]);
    }
  }

  /** With every day within the cap, no day is reported. */
  lemma {:induction false} NoDayErrors(totals: seq<int>, n: nat)
    requires n <= |totals|
    requires forall d :: 0 <= d < n ==> totals[d] <= DAY_CAP
    ensures DayErrors(totals, n) == []
  {
    if n > 0 {
      NoDayErrors(totals, n - 1);
    }
  }

  /** Seven days of at most 24 hours cannot exceed 168 hours, so a weekly
      failure always comes with at least one daily failure. */
  lemma WeekOverImpliesDayOver(totals: seq<int>)
    requires |totals| == HourCodec.DAYS && Sum(totals, HourCodec.DAYS) > WEEK_CAP
    ensures exists d :: 0 <= d < HourCodec.DAYS && totals[d] > DAY_CAP
  {
    if forall d :: 0 <= d < HourCodec.DAYS ==> totals[d] <= DAY_CAP {
      SumBound(totals, HourCodec.DAYS);
    }
  }

  lemma {:induction false} SumBound(totals: seq<int>, n: nat)
    requires n <= |totals|
    requires forall d :: 0 <= d < n ==> totals[d] <= DAY_CAP
    ensures Sum(totals, n) <= DAY_CAP * n
  {
    if n > 0 {
      SumBound(totals, n - 1);
    }
  }

  /** Seven day totals pass exactly when every day is within 24 hours:
      the weekly cap never decides on its own. */
  lemma TotalsValidIff(totals: seq<int>)
    requires |totals| == HourCodec.DAYS
    ensures TotalsErrorsOf(totals) == [] <==> forall d :: 0 <= d < HourCodec.DAYS ==> totals[d] <= DAY_CAP
  {
    if forall d :: 0 <= d < HourCodec.DAYS ==> totals[d] <= DAY_CAP {
      SumBound(totals, HourCodec.DAYS);
      NoDayErrors(totals, HourCodec.DAYS);
    } else {
      var d :| 0 <= d < HourCodec.DAYS && totals[d] > DAY_CAP;
      DayErrorsComplete(totals, HourCodec.DAYS, d);
    }
  }

  // ---------------------------------------------------------------------
  // Uniqueness of (project, work package)
  // ---------------------------------------------------------------------

  /** The key of a row: its project and its trimmed, upper-cased work
      package. `validateUniqueProjectWP` joins them into the text `project||WP`; since the
      decimal project number holds no '|', that text determines the pair. */
  datatype RowKey = RowKey(projectId: int, workPackage: string)

  /** A row's key, or none for a placeholder row (project 0 and a blank
      work package), which the check skips. */
  function KeyOf(r: Row): Option<RowKey>
  {
    var wp := Trim(Nvl(r.workPackageId));
    if r.projectId == 0 && wp == [] then None else Some(RowKey(r.projectId, ToUpper(wp)))
  }

  /** The keys of the rows, in order. */
  function Keys(rows: seq<Row>): (ks: seq<Option<RowKey>>)
    ensures |ks| == |rows|
  {
    seq(|rows|, i requires 0 <= i < |rows| => KeyOf(rows[i]))
  }

  /** A repeated key: the 1-based row where it was first seen and the
      1-based row that repeats it. */
  datatype Duplicate = Duplicate(firstRow: int, row: int)

  /** The state of the scan: each key seen so far with the 1-based row of
      its first occurrence, and the repeats found so far. */
  datatype ScanState = ScanState(firstSeenAtRow: map<RowKey, int>, duplicates: seq<Duplicate>)

  /** One step of the scan: a placeholder row is skipped; a key seen
      before is reported against its first row; a new key is remembered
      with its row. */
  function Step(prev: ScanState, key: Option<RowKey>, row: int): ScanState
  {
    match key
    case None => prev
    case Some(k) =>
      if k in prev.firstSeenAtRow then prev.(duplicates := prev.duplicates + [Duplicate(prev.firstSeenAtRow[k], row)])
      else prev.(firstSeenAtRow := prev.firstSeenAtRow[k := row])
  }

  /** The scan state after the keys `ks`. */
  function Scan(ks: seq<Option<RowKey>>): ScanState
  {
    if ks == [] then ScanState(map[], []) else Step(Scan(ks[..|ks| - 1]), ks[|ks| - 1], |ks|)
  }

  /** Scanning one more key is one more step. */
  lemma ScanPrefix(ks: seq<Option<RowKey>>, i: nat)
    requires i < |ks|
    ensures Scan(ks[..i + 1]) == Step(Scan(ks[..i]), ks[i], i + 1)
  {
    assert ks[..i + 1][..i] == ks[..i];
  }

  /** Every repeat validateUniqueProjectWP reports, in row order. */
  function Duplicates(rows: seq<Row>): seq<Duplicate>
  {
    Scan(Keys(rows)).duplicates
  }

  /** validateUniqueProjectWP: one pass over the rows with a map from key
      to the row where it was first seen. */
  method ValidateUniqueProjectWp(rows: seq<Row>) returns (ok: bool, duplicates: seq<Duplicate>)
    ensures duplicates == Duplicates(rows)
    ensures ok <==> duplicates == []
  {
    ok := true;
    duplicates := [];
    var firstSeenAtRow: map<RowKey, int> := map[];
    ghost var ks := Keys(rows);
    var i := 0;
    while i < |rows|
      invariant 0 <= i <= |rows|
      invariant ScanState(firstSeenAtRow, duplicates) == Scan(ks[..i])
      invariant ok <==> duplicates == []
    {
      var key := KeyOf(rows[i]);
      ScanPrefix(ks, i);
      if key.Some? {
        if key.value in firstSeenAtRow {
          duplicates := duplicates + [Duplicate(firstSeenAtRow[key.value], i + 1)];
          ok := false;
        } else {
          firstSeenAtRow := firstSeenAtRow[key.value := i + 1];
        }
      }
      i := i + 1;
    }
    assert Keys(rows)[..|rows|] == Keys(rows);
  }

  /** Some key occurs at two positions. */
  predicate Repeats(ks: seq<Option<RowKey>>)
  {
    exists i, j :: 0 <= i < j < |ks| && ks[i].Some? && ks[i] == ks[j]
  }

  /** Some non-placeholder key occurs in two rows. */
  predicate HasRepeatedKey(rows: seq<Row>)
  {
    exists i, j :: 0 <= i < j < |rows| && KeyOf(rows[i]).Some? && KeyOf(rows[i]) == KeyOf(rows[j])
  }

  /** Position j repeats a key seen before it. */
  predicate RepeatsEarlier(ks: seq<Option<RowKey>>, j: int)
    requires 0 <= j < |ks|
  {
    exists i :: 0 <= i < j && ks[i].Some? && ks[i] == ks[j]
  }

  /** Position p (1-based) is the first occurrence of key k. */
  predicate FirstAt(ks: seq<Option<RowKey>>, k: RowKey, p: int)
  {
    1 <= p <= |ks| && ks[p - 1] == Some(k) && forall i :: 0 <= i < p - 1 ==> ks[i] != Some(k)
  }

  /** The map holds exactly the keys seen so far, each with the 1-based
      position of its first occurrence. */
  lemma {:induction false} ScanMap(ks: seq<Option<RowKey>>)
    ensures forall k :: k in Scan(ks).firstSeenAtRow ==> FirstAt(ks, k, Scan(ks).firstSeenAtRow[k])
    ensures forall i :: 0 <= i < |ks| && ks[i].Some? ==> ks[i].value in Scan(ks).firstSeenAtRow
  {
    if ks != [] {
      var n := |ks| - 1;
      var pre := ks[..n];
      ScanMap(pre);
      var prev := Scan(pre).firstSeenAtRow;
      var m := Scan(ks).firstSeenAtRow;
      forall k | k in m
        ensures FirstAt(ks, k, m[k])
      {
        if k in prev {
          assert m[k] == prev[k];
          assert FirstAt(pre, k, prev[k]);
          forall i | 0 <= i < prev[k] - 1
            ensures ks[i] != Some(k)
          {
            assert ks[i] == pre[i];
          }
          assert ks[prev[k] - 1] == pre[prev[k] - 1];
        } else {
          assert ks[n] == Some(k) && m[k] == |ks|;
          forall i | 0 <= i < n
            ensures ks[i] != Some(k)
          {
            assert ks[i] == pre[i];
          }
        }
      }
      forall i | 0 <= i < |ks| && ks[i].Some?
        ensures ks[i].value in m
      {
        if i < n {
          assert ks[i] == pre[i];
        }
      }
    }
  }

  /** Every reported repeat is at a later position than the first
      occurrence of its key, which it names. */
  lemma {:induction false} ScanSound(ks: seq<Option<RowKey>>)
    ensures forall x :: x in Scan(ks).duplicates ==>
      1 <= x.firstRow < x.row <= |ks| && ks[x.row - 1].Some? &&
      ks[x.row - 1].value in Scan(ks).firstSeenAtRow &&
      x.firstRow == Scan(ks).firstSeenAtRow[ks[x.row - 1].value]
  {
    if ks != [] {
      var pre := ks[..|ks| - 1];
      ScanSound(pre);
      ScanMap(pre);
      assert forall i :: 0 <= i < |pre| ==> ks[i] == pre[i];
    }
  }

  /** A position is reported exactly when it repeats an earlier key. */
  lemma {:induction false} ScanComplete(ks: seq<Option<RowKey>>)
    ensures forall j :: 0 <= j < |ks| ==>
      (RepeatsEarlier(ks, j) <==> exists x :: x in Scan(ks).duplicates && x.row == j + 1)
  {
    if ks != [] {
      ScanComplete(ks[..|ks| - 1]);
      forall j | 0 <= j < |ks|
        ensures RepeatsEarlier(ks, j) <==> exists x :: x in Scan(ks).duplicates && x.row == j + 1
      {
        if j < |ks| - 1 {
          ScanKeepsEarlier(ks, j);
        } else {
          ScanLast(ks);
        }
      }
    }
  }

  /** One more key leaves the report about earlier positions as it was. */
  lemma ScanKeepsEarlier(ks: seq<Option<RowKey>>, j: int)
    requires 0 <= j < |ks| - 1
    requires var pre := ks[..|ks| - 1];
      RepeatsEarlier(pre, j) <==> exists x :: x in Scan(pre).duplicates && x.row == j + 1
    ensures RepeatsEarlier(ks, j) <==> exists x :: x in Scan(ks).duplicates && x.row == j + 1
  {
    var pre := ks[..|ks| - 1];
    ScanSound(pre);
    assert forall i :: 0 <= i <= j ==> ks[i] == pre[i];
    assert RepeatsEarlier(ks, j) == RepeatsEarlier(pre, j);
    if exists x :: x in Scan(ks).duplicates && x.row == j + 1 {
      var x :| x in Scan(ks).duplicates && x.row == j + 1;
      assert x in Scan(pre).duplicates;
    }
  }

  /** The last position is reported exactly when its key was seen before. */
  lemma ScanLast(ks: seq<Option<RowKey>>)
    requires ks != []
    ensures RepeatsEarlier(ks, |ks| - 1) <==> exists x :: x in Scan(ks).duplicates && x.row == |ks|
  {
    if RepeatsEarlier(ks, |ks| - 1) {
      ScanLastReported(ks);
    }
    if exists x :: x in Scan(ks).duplicates && x.row == |ks| {
      var x :| x in Scan(ks).duplicates && x.row == |ks|;
      ScanLastRepeats(ks, x);
    }
  }

  lemma ScanLastReported(ks: seq<Option<RowKey>>)
    requires ks != [] && RepeatsEarlier(ks, |ks| - 1)
    ensures exists x :: x in Scan(ks).duplicates && x.row == |ks|
  {
    var n := |ks| - 1;
    var pre := ks[..n];
    ScanMap(pre);
    var i :| 0 <= i < n && ks[i].Some? && ks[i] == ks[n];
    assert pre[i] == ks[i];
    assert pre[i].value in Scan(pre).firstSeenAtRow;
    var d := Scan(ks).duplicates;
    assert d[|d| - 1].row == n + 1;
  }

  lemma ScanLastRepeats(ks: seq<Option<RowKey>>, x: Duplicate)
    requires ks != [] && x in Scan(ks).duplicates && x.row == |ks|
    ensures RepeatsEarlier(ks, |ks| - 1)
  {
    var n := |ks| - 1;
    var pre := ks[..n];
    ScanSound(pre);
    ScanMap(pre);
    var prev := Scan(pre);
    assert x !in prev.duplicates;
    var k := ks[n].value;
    assert k in prev.firstSeenAtRow;
    var i := prev.firstSeenAtRow[k] - 1;
    assert FirstAt(pre, k, i + 1);
    assert ks[i] == pre[i];
  }

  /** A reported repeat shows a repeated key. */
  lemma RepeatFromDuplicate(rows: seq<Row>, x: Duplicate)
    requires x in Duplicates(rows)
    ensures HasRepeatedKey(rows)
  {
    var ks := Keys(rows);
    ScanSound(ks);
    ScanComplete(ks);
    var j := x.row - 1;
    assert RepeatsEarlier(ks, j);
    var i :| 0 <= i < j && ks[i].Some? && ks[i] == ks[j];
    assert KeyOf(rows[i]) == ks[i] && KeyOf(rows[j]) == ks[j];
  }

  /** The check fails exactly when some non-placeholder key is repeated. */
  lemma NoDuplicatesIff(rows: seq<Row>)
    ensures Duplicates(rows) == [] <==> !HasRepeatedKey(rows)
  {
    var ks := Keys(rows);
    if HasRepeatedKey(rows) {
      ScanComplete(ks);
      var i, j :| 0 <= i < j < |rows| && KeyOf(rows[i]).Some? && KeyOf(rows[i]) == KeyOf(rows[j]);
      assert ks[i] == KeyOf(rows[i]) && ks[j] == KeyOf(rows[j]);
      assert RepeatsEarlier(ks, j);
    }
    if Duplicates(rows) != [] {
      RepeatFromDuplicate(rows, Duplicates(rows)[0]);
    }
  }

  /** On keys: each reported pair names the first position holding the key
      and a later position repeating it. */
  lemma ScanPairs(ks: seq<Option<RowKey>>)
    ensures forall x :: x in Scan(ks).duplicates ==>
      1 <= x.firstRow < x.row <= |ks| &&
      ks[x.firstRow - 1].Some? && ks[x.firstRow - 1] == ks[x.row - 1] &&
      forall i :: 0 <= i < x.firstRow - 1 ==> ks[i] != ks[x.row - 1]
  {
    forall x | x in Scan(ks).duplicates
      ensures 1 <= x.firstRow < x.row <= |ks|
      ensures ks[x.firstRow - 1].Some? && ks[x.firstRow - 1] == ks[x.row - 1]
      ensures forall i :: 0 <= i < x.firstRow - 1 ==> ks[i] != ks[x.row - 1]
    {
      ScanPair(ks, x);
    }
  }

  lemma ScanPair(ks: seq<Option<RowKey>>, x: Duplicate)
    requires x in Scan(ks).duplicates
    ensures 1 <= x.firstRow < x.row <= |ks|
    ensures ks[x.firstRow - 1].Some? && ks[x.firstRow - 1] == ks[x.row - 1]
    ensures forall i :: 0 <= i < x.firstRow - 1 ==> ks[i] != ks[x.row - 1]
  {
    ScanSound(ks);
    ScanMap(ks);
    var k := ks[x.row - 1].value;
    assert k in Scan(ks).firstSeenAtRow && x.firstRow == Scan(ks).firstSeenAtRow[k];
    assert FirstAt(ks, k, x.firstRow);
  }

  /** Each reported pair names the first row with the key and a later row
      with the same key. */
  lemma DuplicatesSound(rows: seq<Row>)
    ensures forall x :: x in Duplicates(rows) ==>
      1 <= x.firstRow < x.row <= |rows| &&
      KeyOf(rows[x.firstRow - 1]).Some? && KeyOf(rows[x.firstRow - 1]) == KeyOf(rows[x.row - 1]) &&
      forall i :: 0 <= i < x.firstRow - 1 ==> KeyOf(rows[i]) != KeyOf(rows[x.row - 1])
  {
    var ks := Keys(rows);
    ScanPairs(ks);
    assert forall i :: 0 <= i < |rows| ==> ks[i] == KeyOf(rows[i]);
  }

  /** Work packages that differ only in letter case collide. */
  lemma CaseInsensitiveKeys(p: int, a: string, b: string)
    requires p != 0 && ToUpper(Trim(a)) == ToUpper(Trim(b))
    ensures KeyOf(Row(p, Some(a), None, None)) == KeyOf(Row(p, Some(b), None, None))
    ensures Duplicates([Row(p, Some(a), None, None), Row(p, Some(b), None, None)]) == [Duplicate(1, 2)]
  {
    var k := KeyOf(Row(p, Some(a), None, None));
    var ks := Keys([Row(p, Some(a), None, None), Row(p, Some(b), None, None)]);
    assert k.Some?;
    assert ks == [k, k];
    assert ks[..1] == [k];
    assert [k][..0] == [];
    assert Scan([k]) == ScanState(map[k.value := 1], []);
  }
}
