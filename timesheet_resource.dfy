/** The timesheet REST resource (/api/timesheets): list, read, create and
    update, each behind a Bearer token. Error answers carry no body here;
    the clock is the `today`/`now` parameters and LocalDate.parse is the
    `parse` parameter. */
module TimesheetApi {
  import opened Base
  import opened Entities
  import Calendar
  import TokenStore
  import Access
  import opened TimesheetStore
  import opened TimesheetDtos

  /** toDto: the sheet with the id the store knows it by and whether it
      can still be edited today. */
  function ToDto(ts: Timesheet, today: int): (dto: TimesheetDto)
    ensures dto.id == ts.id && dto.editable == Access.IsEditable(Some(ts), today)
    ensures ts.employee.Some? ==> dto.empNumber == ts.employee.value.empNumber
    ensures dto.rows.Some? && |dto.rows.value| == |ts.details|
  {
    FromEntity(ts, ts.id, Access.IsEditable(Some(ts), today))
  }

  /** The sheets listTimesheets shows the caller: every sheet for an
      administrator, otherwise the caller's own. */
  function Visible(table: seq<StoredSheet>, caller: Employee): (v: seq<Timesheet>)
    ensures IsAdmin(caller) ==> |v| == |table|
    ensures !IsAdmin(caller) ==> forall k :: 0 <= k < |v| ==> v[k].employee == Some(caller)
    ensures forall k :: 0 <= k < |v| ==> v[k].endDate.Some?
  {
    if IsAdmin(caller) then GetTimesheets(table) else GetTimesheetsFor(table, Some(caller))
  }

  /** listTimesheets. */
  function ListReply(table: seq<StoredSheet>, tokens: map<string, Employee>, header: Option<string>, today: int): (r: Reply<seq<TimesheetDto>>)
    ensures r.status == OK <==> Access.Authorize(header, tokens).Ok?
    ensures r.status != OK ==> r == Reply(UNAUTHORIZED, None)
    ensures r.status == OK ==> r.body == Some(Dtos(Visible(table, Access.Authorize(header, tokens).value), today))
    ensures r.status == OK && !IsAdmin(Access.Authorize(header, tokens).value) ==>
      forall k :: 0 <= k < |r.body.value| ==> r.body.value[k].empNumber == Access.Authorize(header, tokens).value.empNumber
  {
    match Access.Authorize(header, tokens)
    case Err(code) => Reply(code, None)
    case Ok(caller) =>
      Reply(OK, Some(Dtos(Visible(table, caller), today)))
  }

  /** The sheets as DTOs, in order. */
  function Dtos(sheets: seq<Timesheet>, today: int): (dtos: seq<TimesheetDto>)
    ensures |dtos| == |sheets|
    ensures forall k :: 0 <= k < |sheets| ==> dtos[k] == ToDto(sheets[k], today)
  {
    seq(|sheets|, k requires 0 <= k < |sheets| => ToDto(sheets[k], today))
  }

  /** The mapping loop of listTimesheets: one DTO per sheet, in order. */
  method ToDtos(sheets: seq<Timesheet>, today: int) returns (dtos: seq<TimesheetDto>)
    ensures dtos == Dtos(sheets, today)
  {
    dtos := [];
    var i := 0;
    while i < |sheets|
      invariant 0 <= i <= |sheets| && |dtos| == i
      invariant forall k :: 0 <= k < i ==> dtos[k] == ToDto(sheets[k], today)
    {
      dtos := dtos + [ToDto(sheets[i], today)];
      i := i + 1;
    }
  }

  /** An administrator is shown every sheet; anyone else is shown exactly
      the sheets under their own number, each carrying that number. */
  lemma ListShowsAccessibleSheets(table: seq<StoredSheet>, caller: Employee, today: int)
    ensures forall t :: t in Visible(table, caller) ==> Access.CanAccessTimesheet(caller, Some(t))
    ensures IsAdmin(caller) ==> |Visible(table, caller)| == |table|
    ensures !IsAdmin(caller) ==> forall s :: s in table && s.owner.empNumber == caller.empNumber ==>
      ToEntity(s, caller) in Visible(table, caller)
  {
    if !IsAdmin(caller) {
      GetTimesheetsForMembers(table, caller);
      forall t | t in Visible(table, caller)
        ensures Access.CanAccessTimesheet(caller, Some(t))
      {
        var k :| 0 <= k < |Visible(table, caller)| && Visible(table, caller)[k] == t;
      }
    }
  }

  /** getTimesheet: 401 for a bad token, then 404 for an unknown id, then
      403 for a sheet the caller may not see, otherwise the sheet. */
  function GetReply(table: seq<StoredSheet>, tokens: map<string, Employee>, header: Option<string>, id: Option<int>, today: int): (r: Reply<TimesheetDto>)
    ensures Access.Authorize(header, tokens).Err? ==> r == Reply(UNAUTHORIZED, None)
    ensures Access.Authorize(header, tokens).Ok? && LoadById(table, id).None? ==> r == Reply(NOT_FOUND, None)
    ensures r.status == OK <==>
      Access.Authorize(header, tokens).Ok? && Access.CanAccessTimesheet(Access.Authorize(header, tokens).value, LoadById(table, id))
    ensures r.status == OK ==> r.body == Some(ToDto(LoadById(table, id).value, today))
    ensures r.status != OK ==> r.body.None? && r.status in {UNAUTHORIZED, NOT_FOUND, FORBIDDEN}
  {
    match Access.Authorize(header, tokens)
    case Err(code) => Reply(code, None)
    case Ok(caller) =>
      match LoadById(table, id)
      case None => Reply(NOT_FOUND, None)
      case Some(ts) =>
        if !Access.CanAccessTimesheet(caller, Some(ts)) then Reply(FORBIDDEN, None)
        else Reply(OK, Some(ToDto(ts, today)))
  }

  /** An ordinary user asking for another employee's sheet is refused with
      403, never shown it. */
  lemma OthersSheetForbidden(table: seq<StoredSheet>, tokens: map<string, Employee>, header: Option<string>, id: Option<int>, today: int)
    requires Access.Authorize(header, tokens).Ok? && !IsAdmin(Access.Authorize(header, tokens).value)
    requires LoadById(table, id).Some?
    requires LoadById(table, id).value.employee.value.empNumber != Access.Authorize(header, tokens).value.empNumber
    ensures GetReply(table, tokens, header, id, today) == Reply(FORBIDDEN, None)
  {
  }

  /** The answer to createTimesheet once the sheet has been added: the
      caller's current sheet, or 500 when there is none. */
  function CreatedReply(table: seq<StoredSheet>, caller: Employee, today: int): (r: Reply<TimesheetDto>)
    ensures r.status == CREATED <==> exists x :: x in table && x.owner.empNumber == caller.empNumber
    ensures r.status != CREATED ==> r == Reply(SERVER_ERROR, None)
    ensures r.status == CREATED ==> r.body == Some(ToDto(GetCurrentTimesheet(table, Some(caller), today).value, today))
  {
    match GetCurrentTimesheet(table, Some(caller), today)
    case None => Reply(SERVER_ERROR, None)
    case Some(ts) => Reply(CREATED, Some(ToDto(ts, today)))
  }

  /** createTimesheet always answers 201 with an editable sheet of the
      caller's ending on this week's Friday; when every earlier sheet was
      created before now, it is the sheet just added. */
  lemma CreateAnswersThisWeek(table: seq<StoredSheet>, nextId: int, caller: Employee, today: int, now: int)
    requires TableValid(table, nextId)
    ensures var added := table + [StoredSheet(nextId, caller, Calendar.EndOfWeekFriday(today), now, 0, 0, PlaceholderRows())];
      var r := CreatedReply(added, caller, today);
      r.status == CREATED && r.body.Some? &&
      r.body.value.editable && r.body.value.empNumber == caller.empNumber &&
      r.body.value.endDate == Some(Calendar.IsoDate(Calendar.EndOfWeekFriday(today))) &&
      ((forall x :: x in table ==> x.createdAt < now) ==> r.body.value.id == Some(nextId))
  {
    var added := table + [StoredSheet(nextId, caller, Calendar.EndOfWeekFriday(today), now, 0, 0, PlaceholderRows())];
    AddThenCurrent(table, nextId, caller, today, now);
    assert added[|table|] in added;
    var ts := GetCurrentTimesheet(added, Some(caller), today).value;
    Access.ThisWeekEditable(ts, today);
  }

  /** updateTimesheet up to the write: 401, then 404, then 403 when the
      caller may not see the sheet, 403 when it is no longer editable, 400
      without a body, 500 when the body's end date does not parse;
      otherwise the stored sheet with the body applied. */
  function UpdateDecision(table: seq<StoredSheet>, tokens: map<string, Employee>, header: Option<string>, id: Option<int>,
                          body: Option<TimesheetDto>, today: int, parse: string -> Option<int>): (r: Result<Timesheet, int>)
    ensures r.Err? ==> r.error in {UNAUTHORIZED, NOT_FOUND, FORBIDDEN, BAD_REQUEST, SERVER_ERROR}
    ensures Access.Authorize(header, tokens).Err? ==> r == Err(UNAUTHORIZED)
    ensures Access.Authorize(header, tokens).Ok? && LoadById(table, id).None? ==> r == Err(NOT_FOUND)
    ensures r.Ok? <==>
      Access.Authorize(header, tokens).Ok? && LoadById(table, id).Some? &&
      Access.CanAccessTimesheet(Access.Authorize(header, tokens).value, LoadById(table, id)) &&
      Access.IsEditable(LoadById(table, id), today) && body.Some? &&
      Applied(body.value, LoadById(table, id).value, parse).Ok?
    ensures r.Ok? ==> r == Applied(body.value, LoadById(table, id).value, parse)
  {
    match Access.Authorize(header, tokens)
    case Err(code) => Err(code)
    case Ok(caller) =>
      match LoadById(table, id)
      case None => Err(NOT_FOUND)
      case Some(ts) =>
        if !Access.CanAccessTimesheet(caller, Some(ts)) then Err(FORBIDDEN)
        else if !Access.IsEditable(Some(ts), today) then Err(FORBIDDEN)
        else if body.None? then Err(BAD_REQUEST)
        else Applied(body.value, ts, parse)
  }

  /** An update that passes the checks is always stored, keeps the sheet's
      owner, and reading the sheet back gives the applied end date and
      exactly the applied rows, normalised, with overtime and flextime
      zeroed. */
  lemma UpdateThenLoad(table: seq<StoredSheet>, nextId: int, tokens: map<string, Employee>, header: Option<string>, id: Option<int>,
                       body: Option<TimesheetDto>, today: int, now: int, parse: string -> Option<int>)
    requires TableValid(table, nextId)
    requires UpdateDecision(table, tokens, header, id, body, today, parse).Ok?
    ensures var t := UpdateDecision(table, tokens, header, id, body, today, parse).value;
      var r := SaveSpec(table, nextId, Some(t.(id := id)), today, now);
      t.employee == LoadById(table, id).value.employee && t.id == id &&
      r.Saved? && r.id == id &&
      LoadById(r.table, id) == Some(t.(overtime := 0, flextime := 0, details := NormalisedRows(t.details)))
  {
    var t := UpdateDecision(table, tokens, header, id, body, today, parse).value;
    SaveUpdateThenLoad(table, nextId, t.(id := id), today, now);
  }

  /** The body's end date is not checked against the week: an accepted
      update that moves it before this week's Friday leaves a sheet that
      can no longer be edited. */
  lemma BackdatedUpdateLocksSheet(table: seq<StoredSheet>, tokens: map<string, Employee>, header: Option<string>, id: Option<int>,
                                  body: Option<TimesheetDto>, today: int, parse: string -> Option<int>, d: int)
    requires UpdateDecision(table, tokens, header, id, body, today, parse).Ok?
    requires body.value.endDate.Some? && parse(body.value.endDate.value) == Some(d) && d < Calendar.EndOfWeekFriday(today)
    requires !JavaText.IsBlank(body.value.endDate.value)
    ensures !Access.IsEditable(Some(UpdateDecision(table, tokens, header, id, body, today, parse).value), today)
  {
  }

  class TimesheetResource {
    const repo: TimeSheetRepo
    const tokenStore: TokenStore.AuthTokenStore
    /** The employee of the session's CurrentUser, which authenticate keeps
        in step with the token's employee. */
    var sessionUser: Option<Employee>

    predicate Valid()
      reads this, repo
    {
      repo.Valid()
    }

    constructor (repo: TimeSheetRepo, tokenStore: TokenStore.AuthTokenStore)
      requires repo.Valid()
      ensures Valid() && this.repo == repo && this.tokenStore == tokenStore && sessionUser.None?
    {
      this.repo := repo;
      this.tokenStore := tokenStore;
      sessionUser := None;
    }

    /** authenticate: the token's employee, who also becomes the session's
        current user; 401 otherwise. */
    method Authenticate(header: Option<string>) returns (r: Result<Employee, int>)
      modifies this
      ensures r == Access.Authorize(header, tokenStore.tokens)
      ensures r.Ok? ==> sessionUser == Some(r.value)
      ensures r.Err? ==> sessionUser == old(sessionUser)
    {
      if header.None? || !JavaText.StartsWith(header.value, Access.BEARER) {
        return Err(UNAUTHORIZED);
      }
      var token := JavaText.Trim(header.value[|Access.BEARER|..]);
      var emp := tokenStore.GetEmployeeForToken(Some(token));
      if emp.None? {
        return Err(UNAUTHORIZED);
      }
      sessionUser := emp;
      r := Ok(emp.value);
    }

    /** GET /api/timesheets. */
    method ListTimesheets(header: Option<string>, today: int) returns (reply: Reply<seq<TimesheetDto>>)
      modifies this
      ensures reply == ListReply(repo.sheets, tokenStore.tokens, header, today)
      ensures Access.Authorize(header, tokenStore.tokens).Ok? ==> sessionUser == Some(Access.Authorize(header, tokenStore.tokens).value)
    {
      var caller := Authenticate(header);
      if caller.Err? {
        return Reply(caller.error, None);
      }
      var dtos := ToDtos(Visible(repo.sheets, caller.value), today);
      reply := Reply(OK, Some(dtos));
    }

    /** GET /api/timesheets/{id}. */
    method GetTimesheet(header: Option<string>, id: Option<int>, today: int) returns (reply: Reply<TimesheetDto>)
      modifies this
      ensures reply == GetReply(repo.sheets, tokenStore.tokens, header, id, today)
      ensures Access.Authorize(header, tokenStore.tokens).Ok? ==> sessionUser == Some(Access.Authorize(header, tokenStore.tokens).value)
    {
      var caller := Authenticate(header);
      if caller.Err? {
        return Reply(caller.error, None);
      }
      var ts := LoadById(repo.sheets, id);
      if ts.None? {
        return Reply(NOT_FOUND, None);
      }
      if !Access.CanAccessTimesheet(caller.value, ts) {
        return Reply(FORBIDDEN, None);
      }
      reply := Reply(OK, Some(ToDto(ts.value, today)));
    }

    /** POST /api/timesheets: a new sheet for the caller's current week,
        then the caller's current sheet with 201. */
    method CreateTimesheet(header: Option<string>, today: int, now: int) returns (reply: Reply<TimesheetDto>)
      requires Valid()
      modifies this, repo
      ensures Valid()
      ensures Access.Authorize(header, tokenStore.tokens).Err? ==>
        reply == Reply(UNAUTHORIZED, None) && repo.sheets == old(repo.sheets) && repo.nextId == old(repo.nextId)
      ensures Access.Authorize(header, tokenStore.tokens).Ok? ==>
        var caller := Access.Authorize(header, tokenStore.tokens).value;
        sessionUser == Some(caller) && repo.nextId == old(repo.nextId) + 1 &&
        repo.sheets == old(repo.sheets) + [StoredSheet(old(repo.nextId), caller, Calendar.EndOfWeekFriday(today), now, 0, 0, PlaceholderRows())] &&
        reply == CreatedReply(repo.sheets, caller, today)
    {
      var caller := Authenticate(header);
      if caller.Err? {
        return Reply(caller.error, None);
      }
      sessionUser := Some(caller.value);
      var result := repo.AddTimesheet(sessionUser, today, now);
      if result == "no-user" {
        return Reply(SERVER_ERROR, None);
      }
      var ts := GetCurrentTimesheet(repo.sheets, Some(caller.value), today);
      if ts.None? {
        return Reply(SERVER_ERROR, None);
      }
      reply := Reply(CREATED, Some(FromEntity(ts.value, ts.value.id, Access.IsEditable(ts, today))));
    }

    /** PUT /api/timesheets/{id}: the checks of UpdateDecision, then the
        applied sheet saved under the path id (500 when the store fails),
        then the saved sheet with 200. */
    method UpdateTimesheet(header: Option<string>, id: Option<int>, body: Option<TimesheetDto>,
                           today: int, now: int, parse: string -> Option<int>) returns (reply: Reply<TimesheetDto>)
      requires Valid()
      modifies this, repo
      ensures Valid()
      ensures Access.Authorize(header, tokenStore.tokens).Ok? ==> sessionUser == Some(Access.Authorize(header, tokenStore.tokens).value)
      ensures var d := UpdateDecision(old(repo.sheets), tokenStore.tokens, header, id, body, today, parse);
        d.Err? ==> reply == Reply(d.error, None) && repo.sheets == old(repo.sheets) && repo.nextId == old(repo.nextId)
      ensures var d := UpdateDecision(old(repo.sheets), tokenStore.tokens, header, id, body, today, parse);
        d.Ok? ==>
          var r := SaveSpec(old(repo.sheets), old(repo.nextId), Some(d.value.(id := id)), today, now);
          (r.Failed? ==> reply == Reply(SERVER_ERROR, None) && repo.sheets == old(repo.sheets) && repo.nextId == old(repo.nextId)) &&
          (r.Saved? ==>
             reply == Reply(OK, Some(FromEntity(d.value, id, Access.IsEditable(Some(d.value), today)))) &&
             repo.sheets == r.table && repo.nextId == r.nextId)
    {
      var caller := Authenticate(header);
      if caller.Err? {
        return Reply(caller.error, None);
      }
      var ts := LoadById(repo.sheets, id);
      if ts.None? {
        return Reply(NOT_FOUND, None);
      }
      if !Access.CanAccessTimesheet(caller.value, ts) {
        return Reply(FORBIDDEN, None);
      }
      if !Access.IsEditable(ts, today) {
        return Reply(FORBIDDEN, None);
      }
      if body.None? {
        return Reply(BAD_REQUEST, None);
      }
      var applied := ApplyToEntity(body.value, ts.value, parse);
      if applied.Err? {
        return Reply(applied.error, None);
      }
      var saved, _ := repo.SaveWithId(Some(applied.value), id, today, now);
      if !saved {
        return Reply(SERVER_ERROR, None);
      }
      reply := Reply(OK, Some(FromEntity(applied.value, id, Access.IsEditable(Some(applied.value), today))));
    }
  }
}
