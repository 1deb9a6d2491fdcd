/** The authorization rules shared by the REST resources and the editor:
    reading a Bearer token from the Authorization header, the owner-or-admin
    rule for timesheets, and the rule that only this week's or a later
    timesheet can be edited. */
module Access {
  import opened Base
  import opened JavaText
  import opened Entities
  import Calendar
  import TokenStore

  const BEARER := "Bearer "

  /** The token an Authorization header carries: none when the header is
      missing or does not start with "Bearer ", otherwise the rest of the
      header, trimmed. */
  function BearerToken(header: Option<string>): (t: Option<string>)
    ensures t.Some? <==> header.Some? && StartsWith(header.value, BEARER)
  {
    if header.Some? && StartsWith(header.value, BEARER) then Some(Trim(header.value[|BEARER|..])) else None
  }

  /** A header built from a token gives that token back, trimmed. */
  lemma BearerRoundTrip(token: string)
    ensures BearerToken(Some(BEARER + token)) == Some(Trim(token))
  {
    var h := BEARER + token;
    assert h[..|BEARER|] == BEARER;
    assert h[|BEARER|..] == token;
  }

  /** requireUser / authenticate: 401 for a missing or malformed header
      and for a token the store does not resolve; otherwise the employee
      the token was issued to. */
  function Authorize(header: Option<string>, tokens: map<string, Employee>): (r: Result<Employee, int>)
    ensures r.Err? ==> r.error == UNAUTHORIZED
    ensures r.Ok? <==> TokenStore.Resolve(tokens, BearerToken(header)).Some?
    ensures r.Ok? ==> Some(r.value) == TokenStore.Resolve(tokens, BearerToken(header))
  {
    match TokenStore.Resolve(tokens, BearerToken(header))
    case None => Err(UNAUTHORIZED)
    case Some(e) => Ok(e)
  }

  /** requireAdmin: requireUser first, then 403 for a caller who is not an
      administrator. */
  function RequireAdmin(header: Option<string>, tokens: map<string, Employee>): (r: Result<Employee, int>)
    ensures r.Ok? <==> Authorize(header, tokens).Ok? && IsAdmin(Authorize(header, tokens).value)
    ensures r.Ok? ==> r == Authorize(header, tokens)
    ensures r.Err? && Authorize(header, tokens).Err? ==> r.error == UNAUTHORIZED
    ensures r.Err? && Authorize(header, tokens).Ok? ==> r.error == FORBIDDEN
  {
    match Authorize(header, tokens)
    case Err(code) => Err(code)
    case Ok(caller) => if IsAdmin(caller) then Ok(caller) else Err(FORBIDDEN)
  }

  /** A header carrying a freshly issued token authorizes its employee. */
  lemma IssuedTokenAuthorizes(tokens: map<string, Employee>, t: string, e: Employee)
    requires Trim(t) == t
    ensures Authorize(Some(BEARER + t), TokenStore.Issue(tokens, t, e)) == Ok(e)
  {
    BearerRoundTrip(t);
  }

  /** Once revoked, a token no longer authorizes anyone. */
  lemma RevokedTokenRejected(tokens: map<string, Employee>, t: string)
    requires Trim(t) == t
    ensures Authorize(Some(BEARER + t), TokenStore.Revoke(tokens, Some(t))) == Err(UNAUTHORIZED)
  {
    BearerRoundTrip(t);
  }

  /** canAccessTimesheet: false for a null sheet; true for any
      administrator; otherwise true when the sheet has an owner with the
      requester's employee number. */
  predicate CanAccessTimesheet(requester: Employee, ts: Option<Timesheet>)
    ensures CanAccessTimesheet(requester, ts) ==> ts.Some?
    ensures ts.Some? && IsAdmin(requester) ==> CanAccessTimesheet(requester, ts)
  {
    ts.Some? &&
    (IsAdmin(requester) ||
     (ts.value.employee.Some? && ts.value.employee.value.empNumber == requester.empNumber))
  }

  /** An ordinary user reaches exactly the sheets owned under their number. */
  lemma UserAccessIff(requester: Employee, ts: Timesheet)
    requires !IsAdmin(requester)
    ensures CanAccessTimesheet(requester, Some(ts)) <==>
      ts.employee.Some? && ts.employee.value.empNumber == requester.empNumber
  {
  }

  /** isEditable: false for a null sheet or end date; otherwise the end
      date is not before the Friday of today's week. */
  predicate IsEditable(ts: Option<Timesheet>, today: int)
    ensures IsEditable(ts, today) ==> ts.Some? && ts.value.endDate.Some?
    ensures ts.Some? && ts.value.endDate == Some(Calendar.EndOfWeekFriday(today)) ==> IsEditable(ts, today)
  {
    ts.Some? && ts.value.endDate.Some? && ts.value.endDate.value >= Calendar.EndOfWeekFriday(today)
  }

  /** A sheet ending on a Friday stays editable until the Sunday after it. */
  lemma EditableUntilSunday(ts: Timesheet, today: int)
    requires ts.endDate.Some? && Calendar.DayOfWeek(ts.endDate.value) == Calendar.FRIDAY
    ensures IsEditable(Some(ts), today) <==> today <= ts.endDate.value + 2
  {
    Calendar.NotBeforeThisFridayIff(ts.endDate.value, today);
  }

  /** The week-ending Friday never moves backwards as the days pass. */
  lemma FridayMonotone(a: int, b: int)
    requires a <= b
    ensures Calendar.EndOfWeekFriday(a) <= Calendar.EndOfWeekFriday(b)
  {
    assert Calendar.EndOfWeekFriday(a) == 7 * ((a + 3) / 7) + 1;
    assert Calendar.EndOfWeekFriday(b) == 7 * ((b + 3) / 7) + 1;
  }

  /** Once a sheet has stopped being editable it never becomes editable
      again on a later day. */
  lemma EditableNeverReopens(ts: Option<Timesheet>, today: int, later: int)
    requires today <= later && !IsEditable(ts, today)
    ensures !IsEditable(ts, later)
  {
    FridayMonotone(today, later);
  }

  /** A sheet for this week's Friday is editable. */
  lemma ThisWeekEditable(ts: Timesheet, today: int)
    requires ts.endDate == Some(Calendar.EndOfWeekFriday(today))
    ensures IsEditable(Some(ts), today)
  {
  }
}
