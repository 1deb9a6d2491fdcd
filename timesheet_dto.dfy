/** The JSON shapes of the timesheet REST resource: a timesheet and its rows
    as transferred, built from the entities and applied back onto them.
    LocalDate.parse is a parameter `parse` from text to an epoch day, None
    where LocalDate.parse throws. */
module TimesheetDtos {
  import opened Base
  import opened JavaText
  import opened Entities
  import HourCodec
  import Calendar

  /** A row as transferred; every reference field may be null. */
  datatype RowDto = RowDto(projectId: int, workPackageId: Option<string>, hours: Option<seq<real>>, notes: Option<string>)

  /** A timesheet as transferred: the id, the owner's number and name, the
      ISO end date, whether the caller may still edit it, and the rows;
      both the list and each of its elements may be null. */
  datatype TimesheetDto = TimesheetDto(
    id: Option<int>,
    empNumber: int,
    employeeName: string,
    endDate: Option<string>,
    editable: bool,
    rows: Option<seq<Option<RowDto>>>)

  /** TimesheetRowDto.fromEntity: the row's four fields, as they are. */
  function RowFromEntity(r: Row): (d: RowDto)
    ensures ApplyRow(d) == r <==> r.workPackageId.Some? && r.hours.Some? && |r.hours.value| == HourCodec.DAYS
  {
    RowDto(r.projectId, r.workPackageId, r.hours, r.notes)
  }

  /** TimesheetRowDto.applyToEntity on a new row: project and notes are
      copied, a null work package becomes "", and hours that are null or
      not seven long become a week of zeros. */
  function ApplyRow(d: RowDto): (r: Row)
    ensures r.projectId == d.projectId && r.notes == d.notes
    ensures r.workPackageId == Some(Nvl(d.workPackageId))
    ensures r.hours.Some? && |r.hours.value| == HourCodec.DAYS
    ensures d.hours.Some? && |d.hours.value| == HourCodec.DAYS ==> r.hours == d.hours
    ensures !(d.hours.Some? && |d.hours.value| == HourCodec.DAYS) ==> r.hours == Some(ZeroWeek())
  {
    Row(d.projectId, Some(Nvl(d.workPackageId)),
        if d.hours.Some? && |d.hours.value| == HourCodec.DAYS then d.hours else Some(ZeroWeek()),
        d.notes)
  }

  /** TimesheetDto.fromEntity: the owner's number and name, or -1 and ""
      for a sheet without owner; the end date in ISO form; one row DTO per
      row, in order. */
  function FromEntity(ts: Timesheet, id: Option<int>, editable: bool): (dto: TimesheetDto)
    ensures dto.id == id && dto.editable == editable
    ensures ts.employee.Some? ==> dto.empNumber == ts.employee.value.empNumber && dto.employeeName == ts.employee.value.name
    ensures ts.employee.None? ==> dto.empNumber == -1 && dto.employeeName == ""
    ensures dto.endDate.Some? <==> ts.endDate.Some?
    ensures dto.rows.Some? && |dto.rows.value| == |ts.details| && !HasNullRow(dto.rows)
    ensures forall k :: 0 <= k < |ts.details| ==> dto.rows.value[k] == Some(RowFromEntity(ts.details[k]))
  {
    TimesheetDto(
      id,
      if ts.employee.Some? then ts.employee.value.empNumber else -1,
      if ts.employee.Some? then ts.employee.value.name else "",
      if ts.endDate.Some? then Some(Calendar.IsoDate(ts.endDate.value)) else None,
      editable,
      Some(seq(|ts.details|, k requires 0 <= k < |ts.details| => Some(RowFromEntity(ts.details[k])))))
  }

  /** A non-null row list with a null element in it. */
  predicate HasNullRow(rows: Option<seq<Option<RowDto>>>)
  {
    rows.Some? && exists k :: 0 <= k < |rows.value| && rows.value[k].None?
  }

  /** The rows applyToEntity puts on the sheet: none for a null list, one
      per element in order, and no result at all when an element is null
      (rowDto.applyToEntity throws a NullPointerException on it). */
  function AppliedRows(rows: Option<seq<Option<RowDto>>>): (details: Option<seq<Row>>)
    ensures details.None? <==> HasNullRow(rows)
    ensures rows.None? ==> details == Some([])
    ensures rows.Some? && details.Some? ==> |details.value| == |rows.value|
    ensures rows.Some? && details.Some? ==>
      forall k :: 0 <= k < |rows.value| ==> rows.value[k].Some? && details.value[k] == ApplyRow(rows.value[k].value)
  {
    if rows.None? then Some([])
    else if HasNullRow(rows) then None
    else Some(seq(|rows.value|, k requires 0 <= k < |rows.value| => ApplyRow(rows.value[k].value)))
  }

  /** TimesheetDto.applyToEntity as a function of the sheet: a non-blank
      end date is parsed and replaces the sheet's (an unparseable one
      fails before anything changes); the rows are replaced wholesale (a
      null element fails); the owner, id, overtime and flextime are never
      touched. */
  function Applied(dto: TimesheetDto, ts: Timesheet, parse: string -> Option<int>): (r: Result<Timesheet, int>)
    ensures r.Err? <==> (dto.endDate.Some? && !IsBlank(dto.endDate.value) && parse(dto.endDate.value).None?) || HasNullRow(dto.rows)
    ensures r.Err? ==> r.error == SERVER_ERROR
    ensures r.Ok? ==> r.value.id == ts.id && r.value.employee == ts.employee
    ensures r.Ok? ==> r.value.overtime == ts.overtime && r.value.flextime == ts.flextime
    ensures r.Ok? ==> AppliedRows(dto.rows).Some? && r.value.details == AppliedRows(dto.rows).value
    ensures r.Ok? && (dto.endDate.None? || IsBlank(dto.endDate.value)) ==> r.value.endDate == ts.endDate
    ensures r.Ok? && dto.endDate.Some? && !IsBlank(dto.endDate.value) ==> r.value.endDate == parse(dto.endDate.value)
  {
    if dto.endDate.Some? && !IsBlank(dto.endDate.value) && parse(dto.endDate.value).None? then
      Err(SERVER_ERROR)
    else
      match AppliedRows(dto.rows)
      case None => Err(SERVER_ERROR)
      case Some(details) =>
        if dto.endDate.Some? && !IsBlank(dto.endDate.value) then
          Ok(ts.(endDate := parse(dto.endDate.value), details := details))
        else Ok(ts.(details := details))
  }

  /** applyToEntity: sets the end date, clears the sheet's rows and adds
      one new row per row DTO, failing at the first null one. */
  method ApplyToEntity(dto: TimesheetDto, ts: Timesheet, parse: string -> Option<int>) returns (r: Result<Timesheet, int>)
    ensures r == Applied(dto, ts, parse)
  {
    var t := ts;
    if dto.endDate.Some? && !IsBlank(dto.endDate.value) {
      var d := parse(dto.endDate.value);
      if d.None? {
        // DateTimeParseException
        return Err(SERVER_ERROR);
      }
      t := t.(endDate := d);
    }
    var details: seq<Row> := [];
    if dto.rows.Some? {
      var rows := dto.rows.value;
      var i := 0;
      while i < |rows|
        invariant 0 <= i <= |rows|
        invariant |details| == i
        invariant forall k :: 0 <= k < i ==> rows[k].Some? && details[k] == ApplyRow(rows[k].value)
      {
        if rows[i].None? {
          // rowDto.applyToEntity on null: NullPointerException
          assert HasNullRow(dto.rows);
          return Err(SERVER_ERROR);
        }
        var rowDto := rows[i].value;
        var row := NewRow();
        row := row.(projectId := rowDto.projectId, workPackageId := Some(Nvl(rowDto.workPackageId)));
        if rowDto.hours.Some? && |rowDto.hours.value| == HourCodec.DAYS {
          row := row.(hours := rowDto.hours);
        } else {
          row := row.(hours := Some(ZeroWeek()));
        }
        row := row.(notes := rowDto.notes);
        details := details + [row];
        i := i + 1;
      }
      assert !HasNullRow(dto.rows) by {
        assert forall k :: 0 <= k < |rows| ==> rows[k].Some?;
      }
      assert AppliedRows(dto.rows).value == details;
    }
    r := Ok(t.(details := details));
  }

  /** A well-formed row survives the trip through its DTO. */
  predicate WellFormedRow(r: Row)
  {
    r.workPackageId.Some? && r.hours.Some? && |r.hours.value| == HourCodec.DAYS
  }

  /** An ISO date always has a '-' after the year, so it is never blank. */
  lemma IsoDateNotBlank(d: int)
    ensures !IsBlank(Calendar.IsoDate(d))
  {
    var ymd := Calendar.CivilFromDays(d);
    var y := Calendar.YearText(ymd.0);
    var s := Calendar.IsoDate(d);
    assert s[|y|] == '-';
  }

  /** A sheet sent back unchanged, with well-formed rows and an end date the
      parser reads back, is applied as the very same sheet. */
  lemma FromEntityApplyRoundTrip(ts: Timesheet, id: Option<int>, editable: bool, parse: string -> Option<int>)
    requires ts.endDate.Some? ==> parse(Calendar.IsoDate(ts.endDate.value)) == ts.endDate
    requires forall k :: 0 <= k < |ts.details| ==> WellFormedRow(ts.details[k])
    ensures Applied(FromEntity(ts, id, editable), ts, parse) == Ok(ts)
  {
    var dto := FromEntity(ts, id, editable);
    if ts.endDate.Some? {
      IsoDateNotBlank(ts.endDate.value);
    }
    var applied := AppliedRows(dto.rows);
    assert applied.Some?;
    forall k | 0 <= k < |ts.details|
      ensures applied.value[k] == ts.details[k]
    {
      assert dto.rows.value[k] == Some(RowFromEntity(ts.details[k]));
    }
    assert applied.value == ts.details;
  }

  /** Applying a DTO twice is the same as applying it once. */
  lemma ApplyIdempotent(dto: TimesheetDto, ts: Timesheet, parse: string -> Option<int>)
    requires Applied(dto, ts, parse).Ok?
    ensures Applied(dto, Applied(dto, ts, parse).value, parse) == Applied(dto, ts, parse)
  {
  }

  /** Every row a DTO puts on a sheet is well formed, so it survives the
      trip back out. */
  lemma AppliedRowsWellFormed(rows: Option<seq<Option<RowDto>>>)
    ensures AppliedRows(rows).Some? ==>
      forall k :: 0 <= k < |AppliedRows(rows).value| ==> WellFormedRow(AppliedRows(rows).value[k])
    ensures AppliedRows(rows).Some? ==>
      forall k :: 0 <= k < |AppliedRows(rows).value| ==> ApplyRow(RowFromEntity(AppliedRows(rows).value[k])) == AppliedRows(rows).value[k]
  {
  }
}
