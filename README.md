# Timesheet engine, validation and sign-in rules

A Dafny model of the core of a small timesheet application. It has a JSF web
front end and a JAX-RS REST API over a relational store. The model covers:

- **Hour codec.** Seven daily hour values are packed into one 64-bit column
  as tenths of an hour, one byte per day, capped at 255 tenths.
- **Timesheet store.** `TimeSheetRepo` keeps timesheet headers and their
  numbered detail rows. It picks the "current" sheet for an employee, creates
  this week's sheet with five placeholder rows, and saves a sheet all or
  nothing: header first, then the whole row set replaced in order. Weeks end
  on the Friday of the ISO 8601 (Monday-first) week.
- **Edit grid.** `TimesheetEditBean` parses and clamps typed hour cells. It
  checks the 24 h per-day and 168 h per-week caps, rejects a (project, work
  package) pair that repeats ignoring case, writes the grid back and saves.
- **Tokens and access.** `AuthTokenStore` maps bearer tokens to employees.
  `TimesheetResource` and `EmployeeManager` grant owner-or-admin access,
  allow edits only until the sheet's Friday is in the past, and apply their
  401/403/404/400 checks in a fixed order.
- **DTOs.** `TimesheetDto` and `TimesheetRowDto` map sheets to DTOs and
  apply a DTO back onto a sheet, replacing the whole row set. The row list
  and each of its elements may be null; a null element fails the update
  with 500.
- **Directory and credentials.**
  - `EmployeeRepo`: usernames unique ignoring case; numbers MAX+1; the
    seeded `admin` cannot be deleted; passwords match exactly.
  - `AuthService`: sign-in and lookup.
  - `AuthResource`: login and logout.
  - `ChangePasswordBean`: the form's ordered checks.

Modules follow the Java classes: `HourCodec`, `Calendar`, `TimesheetStore`
(class `TimeSheetRepo`), `GridValidation` and `TimesheetEdit` (class
`TimesheetEditBean`), `TokenStore` (class `AuthTokenStore`), `Access`,
`TimesheetDtos`, `TimesheetApi` (class `TimesheetResource`),
`EmployeeDirectory` (class `EmployeeRepo`), `AuthService`, `EmployeeApi`
(class `EmployeeManager`), `AuthApi` (class `AuthResource`) and
`ChangePassword` (class `ChangePasswordBean`). `Base`, `Entities`, `JavaText`
and `Sorting` hold the shared values, the entity records, the parts of
`String` the code relies on, and a stable sort standing for `ORDER BY`.

Modelling choices:

- **Tables.** Each table is a sequence in id order: `timesheets` with its
  rows, and `employees` with its credentials. A repository class holds the
  sequence and its methods reassign it. Each such method is proved equal to
  a specification function of the old state, and the lemmas are about those
  functions.
- **Hours.** Hours are `real`, as the Java `float` values are. A day is
  stored as `Math.round(h * 10)` clamped to 0..255. The round trip is
  exact for values that are already whole tenths in that range.
- **Dates.** Dates are day numbers counted from 1970-01-01.
- **Parameters.** The clock ("today", "now"), `LocalDate.parse` and the
  random UUID of a new token are parameters.
- **Signed-in user.** The session's current user is an explicit `me`
  parameter.
- **Credentials.** An employee record carries its `credentials` row, which
  may be missing, and whose password may be NULL. `addEmployee` always
  creates one. `TimeSheetRepo` can insert an employee without one, as the
  seeded `admin` of `ensureAdminExists`. `changePassword` updates through a
  join, so it leaves an employee without a row unchanged.
- **Text length.** `String.length()` counts UTF-16 code units, so a
  character beyond U+FFFF counts twice.
- **Failures.** A REST failure is its status code only. The error body and
  its message text are not modelled.

## Model

| member | source | states |
|---|---|---|
| HourCodec.DayTenths | src/main/java/com/corejsf/TimeSheetRepo.java:588-590 | a day is stored as round(h·10) clamped into 0..255 tenths; in range it is exactly round(h·10) |
| HourCodec.Pack | src/main/java/com/corejsf/TimeSheetRepo.java:585-594 | the packed week is below 2^56, so bits 56..63 are always zero |
| HourCodec.PackHours | src/main/java/com/corejsf/TimeSheetRepo.java:585-594 | the shifting loop computes the packed week, day i in bits 8i..8i+7 |
| HourCodec.ClampedTenths | src/main/java/com/corejsf/TimeSheetRepo.java:588-590 | the rounding and the two clamping branches give the stored byte value of one day |
| HourCodec.UnpackHours | src/main/java/com/corejsf/TimeSheetRepo.java:597-604 | returns a fresh array of seven days, day k being byte k of the long divided by 10 |
| HourCodec.UnpackPack | src/main/java/com/corejsf/TimeSheetRepo.java:585-604 | unpack after pack gives each day rounded to tenths, negatives as 0 and anything above 25.5 h as 25.5 h |
| HourCodec.UnpackPackStorable | src/main/java/com/corejsf/TimeSheetRepo.java:585-604 | a week of whole tenths within 0..25.5 h comes back unchanged |
| HourCodec.PackUnpack | src/main/java/com/corejsf/TimeSheetRepo.java:585-604 | for every p below 2^56, pack(unpack(p)) == p |
| HourCodec.UnpackStorable | src/main/java/com/corejsf/TimeSheetRepo.java:597-604 | every unpacked day is a whole number of tenths within 0..25.5 h |
| HourCodec.SafeHours | src/main/java/com/corejsf/TimeSheetRepo.java:570-574 | always yields seven day values: the array itself when it has seven, zeros otherwise |
| Calendar.EndOfWeekFriday | src/main/java/com/corejsf/TimeSheetRepo.java:565-567 | a Friday in the same Monday-first week, so between two days before and four days after the date |
| Calendar.FridayIsFixed | src/main/java/com/corejsf/TimeSheetRepo.java:565-567 | a Friday is its own week end |
| Calendar.SameFridayIffSameWeek | src/main/java/com/corejsf/TimeSheetRepo.java:565-567 | two dates share a week end exactly when they lie in the same Monday-first week |
| Calendar.NotBeforeThisFridayIff | src/main/java/com/corejsf/TimesheetResource.java:71-75 | a Friday is not before this week's Friday exactly when today is at most two days after it |
| GridValidation.ParseHour | src/main/java/com/corejsf/TimesheetEditBean.java:194-204 | a null, blank or unparsable cell is 0; otherwise the parsed value, 0 below 0 and 24 above 24 |
| GridValidation.ClampHours | src/main/java/com/corejsf/TimesheetEditBean.java:196-200 | a value in 0..24 is kept, one below 0 becomes 0 and one above 24 becomes 24 |
| GridValidation.CellTenthsIsStoredValue | src/main/java/com/corejsf/TimesheetEditBean.java:299-310 | the tenths a cell adds to its day's total are the tenths the codec will store for it |
| GridValidation.TotalsErrors | src/main/java/com/corejsf/TimesheetEditBean.java:294-340 | the failures the totals check reports; their meaning is stated by DayErrorsSound, DayErrorsComplete and TotalsValidIff |
| GridValidation.ValidateTotalsFromGrid | src/main/java/com/corejsf/TimesheetEditBean.java:294-340 | the accumulation loop reports exactly the totals errors of the grid, and the grid is valid iff there are none |
| GridValidation.CellContribution | src/main/java/com/corejsf/TimesheetEditBean.java:302-312 | one cell adds its clamped value rounded to tenths, or nothing when it is missing, blank or not a number |
| GridValidation.AccumulateDayTotals | src/main/java/com/corejsf/TimesheetEditBean.java:297-314 | after the nested loops the seven day totals are the grid's column totals, each the sum over every grid row |
| GridValidation.AddWeek | src/main/java/com/corejsf/TimesheetEditBean.java:300-313 | each of the seven day totals grows by exactly that day's cell of the row in tenths, which is nothing for a null row or a missing, blank or unparsable cell |
| GridValidation.DayErrorsSound | src/main/java/com/corejsf/TimesheetEditBean.java:318-328 | over any seven day totals, every reported day error names a day whose total exceeds 24 h, with that total |
| GridValidation.DayErrorsComplete | src/main/java/com/corejsf/TimesheetEditBean.java:318-328 | over any seven day totals, every day whose total exceeds 24 h is reported, not just the first |
| GridValidation.WeekOverImpliesDayOver | src/main/java/com/corejsf/TimesheetEditBean.java:316-339 | seven day totals summing to over 168 h always include a day over 24 h |
| GridValidation.TotalsValidIff | src/main/java/com/corejsf/TimesheetEditBean.java:294-340 | seven day totals pass exactly when every one is at most 24 h: the weekly cap never decides on its own |
| GridValidation.Duplicates | src/main/java/com/corejsf/TimesheetEditBean.java:347-379 | the repeats the uniqueness check reports; their meaning is stated by DuplicatesSound, ScanComplete and NoDuplicatesIff |
| GridValidation.ValidateUniqueProjectWp | src/main/java/com/corejsf/TimesheetEditBean.java:347-379 | the scanning loop reports exactly the duplicates of the rows, and passes iff there are none |
| GridValidation.DuplicatesSound | src/main/java/com/corejsf/TimesheetEditBean.java:354-378 | each reported pair names, 1-based, the first row holding a non-placeholder key and a later row repeating it |
| GridValidation.ScanComplete | src/main/java/com/corejsf/TimesheetEditBean.java:363-378 | a row is reported exactly when its key repeats an earlier row's, and scanning goes on past it |
| GridValidation.NoDuplicatesIff | src/main/java/com/corejsf/TimesheetEditBean.java:347-379 | no duplicate is reported iff no key repeats |
| GridValidation.CaseInsensitiveKeys | src/main/java/com/corejsf/TimesheetEditBean.java:354-361 | work packages equal after trimming and upper-casing give the same key, and two such rows are reported as (1, 2) |
| TimesheetStore.StoreRows | src/main/java/com/corejsf/TimeSheetRepo.java:319-323 | the stored rows are as many as the sheet's, numbered 1..N in order, each with a 56-bit packed week |
| TimesheetStore.InsertRow | src/main/java/com/corejsf/TimeSheetRepo.java:464-486 | stores the row at its line number with a null work package as "" and the hours packed after safeHours |
| TimesheetStore.WriteRows | src/main/java/com/corejsf/TimeSheetRepo.java:319-323 | the row loop inserts the rows one by one in order, numbered from 1 |
| TimesheetStore.LoadRow | src/main/java/com/corejsf/TimeSheetRepo.java:443-450 | a loaded row keeps its project, has a non-null work package and seven days of hours, and has no notes |
| TimesheetStore.LoadRowWithNotes | src/main/java/com/corejsf/TimeSheetRepo.java:443-450 | the intended loader: a row keeps its project, has a non-null work package and seven days of hours, and carries its stored notes |
| TimesheetStore.LoadRows | src/main/java/com/corejsf/TimeSheetRepo.java:430-454 | one loaded row per stored row; RowsRoundTrip states what they hold |
| TimesheetStore.RowRoundTrip | src/main/java/com/corejsf/TimeSheetRepo.java:430-486 | a stored row loads back with its project, a non-null work package, its hours rounded to stored tenths, and no notes |
| TimesheetStore.RowRoundTripWithNotes | src/main/java/com/corejsf/TimeSheetRepo.java:430-486 | with the intended loader a stored row also keeps its notes |
| TimesheetStore.StorableRowRoundTrip | src/main/java/com/corejsf/TimeSheetRepo.java:430-486 | a row with a work package and seven storable days loads back unchanged but for its notes, and wholly unchanged with the intended loader |
| TimesheetStore.RowsRoundTrip | src/main/java/com/corejsf/TimeSheetRepo.java:430-486 | the whole row set loads back normalised, in the same order |
| TimesheetStore.NotesLostAsWritten | src/main/java/com/corejsf/TimeSheetRepo.java:430-454 | loadRows as written drops a saved row's notes |
| TimesheetStore.ToEntity | src/main/java/com/corejsf/TimeSheetRepo.java:405-424 | a loaded sheet carries its id, owner and end date and its rows as loadRows reads them, without notes |
| TimesheetStore.LoadById | src/main/java/com/corejsf/TimeSheetRepo.java:347-367 | a sheet is found exactly for a non-null stored id, with that id, an owner and an end date |
| TimesheetStore.GetTimesheets | src/main/java/com/corejsf/TimeSheetRepo.java:76-96 | lists as many sheets as are stored, grouped by owner, newest end date first within an owner |
| TimesheetStore.GetTimesheetsMembers | src/main/java/com/corejsf/TimeSheetRepo.java:76-96 | the listing holds exactly the stored sheets |
| TimesheetStore.GetTimesheetsFor | src/main/java/com/corejsf/TimeSheetRepo.java:105-128 | nothing for a null employee, otherwise that employee's sheets newest end date first, each carrying the employee |
| TimesheetStore.GetTimesheetsForMembers | src/main/java/com/corejsf/TimeSheetRepo.java:105-128 | the listing holds exactly the sheets owned by that employee number |
| TimesheetStore.CurrentSheetRecord | src/main/java/com/corejsf/TimeSheetRepo.java:145-196 | none iff the employee has no sheet; a sheet ending this Friday wins when one exists, the newest created then highest id; otherwise no sheet is closer to today by the not-past and later-date tie breaks |
| TimesheetStore.GetCurrentTimesheet | src/main/java/com/corejsf/TimeSheetRepo.java:145-196 | null for a null employee or one without sheets; otherwise the chosen sheet carrying that employee |
| TimesheetStore.GetMyNewest | src/main/java/com/corejsf/TimeSheetRepo.java:375-397 | the current user's sheet that no other of theirs is newer than (created time, then id), or null |
| TimesheetStore.PlaceholderRows | src/main/java/com/corejsf/TimeSheetRepo.java:233-241 | five rows numbered 1..5 |
| TimesheetStore.InsertPlaceholderRows | src/main/java/com/corejsf/TimeSheetRepo.java:234-241 | the insertion loop produces exactly the five placeholder rows |
| TimesheetStore.SavePreservesValid | src/main/java/com/corejsf/TimeSheetRepo.java:271-335 | a committed save keeps ids positive, increasing and below the next id, and rows numbered |
| TimesheetStore.SaveSpec | src/main/java/com/corejsf/TimeSheetRepo.java:271-335 | a null sheet changes nothing; a committed save answers an id, the sheet's own when it had one, and adds a header only for a new sheet |
| TimesheetStore.SaveFailsIff | src/main/java/com/corejsf/TimeSheetRepo.java:271-335 | save fails exactly for a new sheet without owner, an update without end date, or rows for an id no header has |
| TimesheetStore.SaveInsertThenLoad | src/main/java/com/corejsf/TimeSheetRepo.java:271-335 | a new sheet is found under the id it was given, with its owner, its end date or this Friday, zero overtime and flextime and its rows normalised in order, notes dropped |
| TimesheetStore.SaveUpdateThenLoad | src/main/java/com/corejsf/TimeSheetRepo.java:271-335 | an updated sheet keeps its owner and has exactly the saved rows, normalised and without notes: the old ones are gone |
| TimesheetStore.SaveLeavesOthers | src/main/java/com/corejsf/TimeSheetRepo.java:271-335 | a save changes no other sheet |
| TimesheetStore.TimeSheetRepo.AddTimesheet | src/main/java/com/corejsf/TimeSheetRepo.java:205-247 | "no-user" and nothing written without a user; otherwise one header for this Friday with five placeholder rows, whatever exists for that week |
| TimesheetStore.TimeSheetRepo.Save | src/main/java/com/corejsf/TimeSheetRepo.java:271-335 | commits exactly the specified save, or on failure leaves the table as it was |
| TimesheetStore.TimeSheetRepo.SaveWithId | src/main/java/com/corejsf/TimeSheetRepo.java:338-344 | a non-null id is put on the sheet before saving, forcing the update path |
| TimesheetStore.AddThenCurrent | src/main/java/com/corejsf/TimeSheetRepo.java:145-247 | after addTimesheet the current sheet ends this Friday, and is the new one when it is the newest created |
| TimesheetEdit.Padded | src/main/java/com/corejsf/TimesheetEditBean.java:111-113 | the rows are kept in order, and new rows pad a shorter list to exactly five |
| TimesheetEdit.InitNotes | src/main/java/com/corejsf/TimesheetEditBean.java:115-128 | the notes grid holds each row's notes in order |
| TimesheetEdit.WriteBackHours | src/main/java/com/corejsf/TimesheetEditBean.java:169-179 | the hours written back are seven values within 0..24 |
| TimesheetEdit.PadRows | src/main/java/com/corejsf/TimesheetEditBean.java:111-113 | the padding loop computes the padded rows |
| TimesheetEdit.ParseWeek | src/main/java/com/corejsf/TimesheetEditBean.java:172-176 | the day loop fills a fresh seven-day array with each cell read by parseHour |
| TimesheetEdit.WriteBack | src/main/java/com/corejsf/TimesheetEditBean.java:169-179 | the write-back loop gives every row the hours parsed from its grid row and its notes cell |
| TimesheetEdit.BuildGrids | src/main/java/com/corejsf/TimesheetEditBean.java:115-128 | the grid loop succeeds iff every row has hours, and builds the hours and notes grids |
| TimesheetEdit.WeekCells | src/main/java/com/corejsf/TimesheetEditBean.java:121-125 | the inner loop shows each of the seven days as an empty cell for zero and as its formatted value otherwise |
| TimesheetEdit.TimesheetEditBean.Init | src/main/java/com/corejsf/TimesheetEditBean.java:99-130 | an open sheet is kept; otherwise the selected sheet or the newest (creating this week's when there is none) is padded and its grids built |
| TimesheetEdit.TimesheetEditBean.AddRow | src/main/java/com/corejsf/TimesheetEditBean.java:138-149 | appends one new row to the sheet and the rows, a blank week to the hours grid and "" to the notes grid |
| TimesheetEdit.TimesheetEditBean.Save | src/main/java/com/corejsf/TimesheetEditBean.java:159-184 | totals checked first, then uniqueness; on either failure nothing changes; otherwise the grid is written back and the repository saved once |
| TimesheetEdit.TimesheetEditBean.StoreWrittenBack | src/main/java/com/corejsf/TimesheetEditBean.java:169-183 | once both checks pass, the rows become the written-back rows and the sheet is stored once; a refused store leaves the repository as it was |
| TimesheetEdit.InitCellRoundTrip | src/main/java/com/corejsf/TimesheetEditBean.java:119-128 | a stored hour value shown in a cell parses back to itself clamped to 0..24 |
| TimesheetEdit.UntouchedSaveKeepsRows | src/main/java/com/corejsf/TimesheetEditBean.java:169-179 | writing back an untouched grid changes the rows only by clamping hours to 0..24 |
| TimesheetEdit.StoredSheetsOpen | src/main/java/com/corejsf/TimesheetEditBean.java:111-128 | every sheet loaded from the store can be put on the grid |
| TimesheetEdit.CheckedTotalsAreStored | src/main/java/com/corejsf/TimesheetEditBean.java:159-184 | the day totals the check computes are the stored tenths of the rows written back |
| TimesheetEdit.SavedDaysWithinCap | src/main/java/com/corejsf/TimesheetEditBean.java:159-184 | a saved sheet stores at most 24 h on any day |
| TimesheetEdit.AddRowKeepsChecks | src/main/java/com/corejsf/TimesheetEditBean.java:138-149 | an added blank row changes neither the totals errors nor the duplicates |
| TokenStore.Issue | src/main/java/com/corejsf/AuthTokenStore.java:27-31 | the new token maps to the employee, and every other token keeps its mapping |
| TokenStore.Resolve | src/main/java/com/corejsf/AuthTokenStore.java:36-41 | a null token gives null; a token resolves exactly when it is in the map |
| TokenStore.Revoke | src/main/java/com/corejsf/AuthTokenStore.java:46-50 | revoking null changes nothing; revoking a token removes it and keeps every other mapping |
| TokenStore.AuthTokenStore.GetEmployeeForToken | src/main/java/com/corejsf/AuthTokenStore.java:36-41 | a token resolves exactly when it is live, to the employee it maps to; null resolves to null |
| TokenStore.AuthTokenStore.IssueToken | src/main/java/com/corejsf/AuthTokenStore.java:27-31 | returns the UUID as the token and records it for the employee |
| TokenStore.AuthTokenStore.RevokeToken | src/main/java/com/corejsf/AuthTokenStore.java:46-50 | removes the token from the map |
| TokenStore.IssueThenResolve | src/main/java/com/corejsf/AuthTokenStore.java:27-41 | an issued token resolves to its employee and every other token keeps its mapping |
| TokenStore.IssueFreshAddsOne | src/main/java/com/corejsf/AuthTokenStore.java:28-29 | a fresh token adds exactly one mapping |
| TokenStore.RevokeThenResolve | src/main/java/com/corejsf/AuthTokenStore.java:46-50 | a revoked token resolves to null; revoking one token leaves the others, for the same employee or not |
| TokenStore.RevokeIdempotent | src/main/java/com/corejsf/AuthTokenStore.java:46-50 | revoking null or an absent token changes nothing, and revoking twice is revoking once |
| Access.BearerToken | src/main/java/com/corejsf/EmployeeManager.java:53-60 | a token is found exactly when the header starts with "Bearer " |
| Access.BearerRoundTrip | src/main/java/com/corejsf/EmployeeManager.java:53-60 | the token read from "Bearer " + t is t trimmed |
| Access.Authorize | src/main/java/com/corejsf/EmployeeManager.java:52-69 | the caller is the employee the bearer token resolves to; anything else is 401 |
| Access.RequireAdmin | src/main/java/com/corejsf/EmployeeManager.java:78-87 | 401 when authorization fails, 403 for a non-admin, the caller otherwise |
| Access.IssuedTokenAuthorizes | src/main/java/com/corejsf/TimesheetResource.java:38-58 | a header carrying an issued token authorizes its employee |
| Access.RevokedTokenRejected | src/main/java/com/corejsf/TimesheetResource.java:38-58 | a header carrying a revoked token is 401 |
| Access.CanAccessTimesheet | src/main/java/com/corejsf/TimesheetResource.java:64-69 | no access to a null sheet; an administrator reaches every sheet (UserAccessIff covers other users) |
| Access.UserAccessIff | src/main/java/com/corejsf/TimesheetResource.java:64-69 | a non-admin may access a sheet iff it has an owner with the caller's number |
| Access.IsEditable | src/main/java/com/corejsf/TimesheetResource.java:71-75 | only a sheet with an end date is editable, and one ending on this week's Friday is |
| Access.EditableUntilSunday | src/main/java/com/corejsf/TimesheetResource.java:71-75 | a sheet ending on a Friday stays editable until the Sunday after it |
| Access.EditableNeverReopens | src/main/java/com/corejsf/TimesheetResource.java:71-75 | once not editable, a sheet stays so on every later day |
| Access.ThisWeekEditable | src/main/java/com/corejsf/TimesheetResource.java:71-75 | this week's sheet is editable |
| TimesheetDtos.RowFromEntity | src/main/java/com/corejsf/TimesheetRowDto.java:32-39 | applying the DTO back reproduces the row iff it has a work package and seven hours |
| TimesheetDtos.ApplyRow | src/main/java/com/corejsf/TimesheetRowDto.java:53-62 | project and notes copied, a null work package as "", seven hours copied, any other hours as seven zeros |
| TimesheetDtos.FromEntity | src/main/java/com/corejsf/TimesheetDto.java:43-58 | id and editable verbatim, owner's number and name or -1 and "", end date iff present, rows mapped in order |
| TimesheetDtos.AppliedRows | src/main/java/com/corejsf/TimesheetDto.java:77-84 | the row set is replaced wholesale, in order, or emptied for a null list; no rows at all exactly when an element is null |
| TimesheetDtos.Applied | src/main/java/com/corejsf/TimesheetDto.java:72-85 | owner, id, overtime and flextime kept; end date changed only by a non-blank one; 500 exactly when it cannot be parsed or a row element is null |
| TimesheetDtos.ApplyToEntity | src/main/java/com/corejsf/TimesheetDto.java:72-85 | the loop computes the applied sheet, and stops with 500 at the first null row element |
| TimesheetDtos.FromEntityApplyRoundTrip | src/main/java/com/corejsf/TimesheetDto.java:43-85 | applying a sheet's own DTO to it gives the sheet back when its rows are well formed |
| TimesheetDtos.ApplyIdempotent | src/main/java/com/corejsf/TimesheetDto.java:72-85 | applying the same DTO twice is applying it once |
| TimesheetDtos.AppliedRowsWellFormed | src/main/java/com/corejsf/TimesheetRowDto.java:32-62 | applied rows are well formed and survive a further DTO round trip |
| TimesheetApi.ToDto | src/main/java/com/corejsf/TimesheetResource.java:77-80 | the DTO carries the sheet's store id, whether it is editable today, its owner's number and one row DTO per row |
| TimesheetApi.Visible | src/main/java/com/corejsf/TimesheetResource.java:88-90 | an administrator is shown as many sheets as are stored; anyone else only sheets they own; every sheet shown has an end date |
| TimesheetApi.Dtos | src/main/java/com/corejsf/TimesheetResource.java:92-94 | one DTO per sheet, in order, the k-th being the k-th sheet's DTO |
| TimesheetApi.ListReply | src/main/java/com/corejsf/TimesheetResource.java:85-97 | 200 iff authorized, with the DTOs of the visible sheets in order, each carrying a non-admin caller's own number; 401 otherwise |
| TimesheetApi.ListShowsAccessibleSheets | src/main/java/com/corejsf/TimesheetResource.java:85-97 | every sheet listed is accessible to the caller; an admin sees all, a user all of their own |
| TimesheetApi.GetReply | src/main/java/com/corejsf/TimesheetResource.java:103-122 | 401, then 404, then 403; 200 exactly for an accessible sheet, with its DTO |
| TimesheetApi.OthersSheetForbidden | src/main/java/com/corejsf/TimesheetResource.java:103-122 | a non-admin asking for another owner's sheet gets 403 |
| TimesheetApi.CreatedReply | src/main/java/com/corejsf/TimesheetResource.java:134-153 | 201 with the current sheet iff the caller has one; 500 otherwise |
| TimesheetApi.CreateAnswersThisWeek | src/main/java/com/corejsf/TimesheetResource.java:127-154 | after the add, the answer is 201 with an editable sheet for this Friday owned by the caller, the new one when it is newest |
| TimesheetApi.UpdateDecision | src/main/java/com/corejsf/TimesheetResource.java:160-201 | 401, then 404, then 403 for access or editability, then 400 for a missing body; otherwise the body applied to the stored sheet |
| TimesheetApi.UpdateThenLoad | src/main/java/com/corejsf/TimesheetResource.java:160-201 | an accepted update is saved under the path id and loads back with the same owner and the new rows, normalised and without notes |
| TimesheetApi.BackdatedUpdateLocksSheet | src/main/java/com/corejsf/TimesheetResource.java:179-192 | editability is judged before applying, so a body may move the end date into the past and lock the sheet |
| TimesheetApi.TimesheetResource.Authenticate | src/main/java/com/corejsf/TimesheetResource.java:38-58 | the bearer token's employee, recorded as the current user; 401 otherwise |
| TimesheetApi.TimesheetResource.ListTimesheets | src/main/java/com/corejsf/TimesheetResource.java:85-97 | answers the list reply |
| TimesheetApi.ToDtos | src/main/java/com/corejsf/TimesheetResource.java:92-94 | the mapping loop turns every visible sheet into its DTO, in order |
| TimesheetApi.TimesheetResource.GetTimesheet | src/main/java/com/corejsf/TimesheetResource.java:103-122 | answers the get reply |
| TimesheetApi.TimesheetResource.CreateTimesheet | src/main/java/com/corejsf/TimesheetResource.java:127-154 | 401 and nothing written, or this week's sheet added and the created reply |
| TimesheetApi.TimesheetResource.UpdateTimesheet | src/main/java/com/corejsf/TimesheetResource.java:160-201 | nothing saved on any refusal; otherwise the save under the path id, 500 if it fails, 200 with the DTO if not |
| EmployeeDirectory.FindUser | src/main/java/com/corejsf/EmployeeRepo.java:195-214 | the first record whose username matches ignoring case |
| EmployeeDirectory.VerifyUser | src/main/java/com/corejsf/EmployeeRepo.java:195-214 | success needs non-null credentials, username and password and a known username; VerifyUserIff gives the exact condition |
| EmployeeDirectory.GetEmployees | src/main/java/com/corejsf/EmployeeRepo.java:54-68 | every stored employee, ordered by employee number ascending |
| EmployeeDirectory.GetEmployee | src/main/java/com/corejsf/EmployeeRepo.java:75-90 | found exactly when some username matches ignoring case, and it matches |
| EmployeeDirectory.UserExists | src/main/java/com/corejsf/EmployeeRepo.java:301-310 | a username exists exactly when it is non-null and the case-insensitive search finds a record |
| EmployeeDirectory.EmpNumberExists | src/main/java/com/corejsf/EmployeeRepo.java:313-322 | a used number is at most the stored maximum, and the maximum is always used |
| EmployeeDirectory.MaxEmpNumber | src/main/java/com/corejsf/EmployeeRepo.java:287-297 | `MAX(emp_number)`: a stored number at least every other |
| EmployeeDirectory.NextEmpNumber | src/main/java/com/corejsf/EmployeeRepo.java:287-297 | above every stored number: 1 for an empty table, otherwise one past an existing number |
| EmployeeDirectory.AddSpec | src/main/java/com/corejsf/EmployeeRepo.java:97-146 | rejected iff the username exists ignoring case or a non-zero number is taken; otherwise appended with number 0 replaced by the next number and the default password |
| EmployeeDirectory.Without | src/main/java/com/corejsf/EmployeeRepo.java:159-165 | exactly the records whose number differs from the given one are kept |
| EmployeeDirectory.DeleteSpec | src/main/java/com/corejsf/EmployeeRepo.java:153-167 | null or a user named admin ignoring case deletes nothing; otherwise exactly the records with that number go |
| EmployeeDirectory.ChangePasswordSpec | src/main/java/com/corejsf/EmployeeRepo.java:220-235 | only the matching user's password changes, and only where a credentials row exists |
| EmployeeDirectory.EmployeeRepo.AddEmployee | src/main/java/com/corejsf/EmployeeRepo.java:97-146 | nothing added when rejected; otherwise the stored employee with its number |
| EmployeeDirectory.EmployeeRepo.DeleteEmployee | src/main/java/com/corejsf/EmployeeRepo.java:153-167 | performs the specified delete |
| EmployeeDirectory.EmployeeRepo.ChangePassword | src/main/java/com/corejsf/EmployeeRepo.java:220-235 | performs the specified password change |
| EmployeeDirectory.EmployeeRepo.ChangeMyPassword | src/main/java/com/corejsf/EmployeeRepo.java:238-242 | fails without a current user; otherwise changes that user's password |
| EmployeeDirectory.AddPreservesValid | src/main/java/com/corejsf/EmployeeRepo.java:97-146 | usernames stay unique ignoring case and numbers unique after an add |
| EmployeeDirectory.AddThenFind | src/main/java/com/corejsf/EmployeeRepo.java:97-146 | a new employee is found by username in any case and signs in with the default password |
| EmployeeDirectory.AddNumbering | src/main/java/com/corejsf/EmployeeRepo.java:102-107 | number 0 becomes MAX+1, or 1 in an empty table |
| EmployeeDirectory.AdminNeverDeleted | src/main/java/com/corejsf/EmployeeRepo.java:153-167 | deleting a stored employee never removes the admin record |
| EmployeeDirectory.DeletePreservesValid | src/main/java/com/corejsf/EmployeeRepo.java:153-167 | a delete keeps the directory well formed |
| EmployeeDirectory.ChangePasswordPreservesValid | src/main/java/com/corejsf/EmployeeRepo.java:220-235 | a password change keeps the directory well formed |
| EmployeeDirectory.VerifyUserIff | src/main/java/com/corejsf/EmployeeRepo.java:195-214 | true iff a record's username matches ignoring case and it has a credentials row whose non-null password equals the given one exactly |
| EmployeeDirectory.ChangeThenVerify | src/main/java/com/corejsf/EmployeeRepo.java:220-235 | after a change a user with a credentials row signs in with the new password, and everyone else as before |
| EmployeeDirectory.ChangedUserVerifies | src/main/java/com/corejsf/EmployeeRepo.java:195-235 | the changed user, having a credentials row, signs in with the new password |
| EmployeeDirectory.OtherUserUnaffected | src/main/java/com/corejsf/EmployeeRepo.java:195-235 | a change leaves every other user's sign-in as it was |
| EmployeeDirectory.NoCredentialRowNoChange | src/main/java/com/corejsf/EmployeeRepo.java:195-235 | a user without a credentials row never signs in, and a password change for that user changes nothing |
| EmployeeDirectory.CredentialRowsKept | src/main/java/com/corejsf/EmployeeRepo.java:97-146 | adding, deleting and changing passwords keep a credentials row for every employee |
| AuthService.FirstByUserName | src/main/java/com/corejsf/AuthService.java:69-74 | the first employee in order whose username matches ignoring case, and found iff one does |
| AuthService.FindByUserName | src/main/java/com/corejsf/AuthService.java:69-74 | null for a null username; found iff the username exists ignoring case, a stored employee whose username matches |
| AuthService.Authenticate | src/main/java/com/corejsf/AuthService.java:38-49 | null for null credentials; an employee exactly when verifyUser accepts, whose username matches |
| AuthService.FindByUserNameIsGetEmployee | src/main/java/com/corejsf/AuthService.java:69-74 | the stream search finds the same employee as the directory's lookup |
| AuthService.AuthenticateIff | src/main/java/com/corejsf/AuthService.java:38-49 | signing in yields e iff e's record matches the username and has that non-null password |
| AuthService.NewEmployeeSignsIn | src/main/java/com/corejsf/AuthService.java:38-49 | a freshly added employee signs in with the default password |
| EmployeeApi.FirstByEmpNumber | src/main/java/com/corejsf/EmployeeManager.java:97-104 | found iff some employee has the number, and it has |
| EmployeeApi.EmployeeManager.FindByEmpNumberInternal | src/main/java/com/corejsf/EmployeeManager.java:97-104 | the loop returns the first employee in listing order with that number, or null |
| EmployeeApi.FindByEmpNumberReply | src/main/java/com/corejsf/EmployeeManager.java:113-124 | admin check first; then the employee iff the number exists, 404 otherwise |
| EmployeeApi.FindByUserNameReply | src/main/java/com/corejsf/EmployeeManager.java:132-143 | admin check first; then the employee iff the username exists, 404 otherwise |
| EmployeeApi.GetAllReply | src/main/java/com/corejsf/EmployeeManager.java:150-153 | admin only; every employee, ordered by number |
| EmployeeApi.PersistCheck | src/main/java/com/corejsf/EmployeeManager.java:168-196 | admin check, then 400 for a null body, a blank username, a blank name; the employee trimmed, admin iff asked |
| EmployeeApi.PersistSpec | src/main/java/com/corejsf/EmployeeManager.java:168-205 | a refused add is 500 and changes nothing; otherwise the add is made |
| EmployeeApi.RemoveCheck | src/main/java/com/corejsf/EmployeeManager.java:215-235 | admin check, then 404 for an unknown number, then 400 for the caller's own number |
| EmployeeApi.RemoveSpec | src/main/java/com/corejsf/EmployeeManager.java:215-235 | 204 and the delete, or the refusal and nothing changed |
| EmployeeApi.ResetCheck | src/main/java/com/corejsf/EmployeeManager.java:244-263 | admin check, then 400 for a blank username, then 404 for an unknown one |
| EmployeeApi.ResetSpec | src/main/java/com/corejsf/EmployeeManager.java:244-263 | 204 with the password reset to the default, or the refusal and nothing changed |
| EmployeeApi.ChangeCheck | src/main/java/com/corejsf/EmployeeManager.java:273-302 | 401, then 403 unless it is the caller's own username, then 400 for a missing or blank password |
| EmployeeApi.ChangeSpec | src/main/java/com/corejsf/EmployeeManager.java:273-302 | 204 with the password changed, or the refusal and nothing changed |
| EmployeeApi.EmployeeManager.FindByEmpNumber | src/main/java/com/corejsf/EmployeeManager.java:113-124 | answers the find-by-number reply |
| EmployeeApi.EmployeeManager.FindByUserName | src/main/java/com/corejsf/EmployeeManager.java:132-143 | answers the find-by-username reply |
| EmployeeApi.EmployeeManager.GetAll | src/main/java/com/corejsf/EmployeeManager.java:150-153 | answers the list reply |
| EmployeeApi.EmployeeManager.Persist | src/main/java/com/corejsf/EmployeeManager.java:168-205 | performs the specified persist |
| EmployeeApi.EmployeeManager.Remove | src/main/java/com/corejsf/EmployeeManager.java:215-235 | performs the specified remove |
| EmployeeApi.EmployeeManager.ResetPassword | src/main/java/com/corejsf/EmployeeManager.java:244-263 | performs the specified reset |
| EmployeeApi.EmployeeManager.ChangePassword | src/main/java/com/corejsf/EmployeeManager.java:273-302 | performs the specified change |
| EmployeeApi.PersistAnswersStored | src/main/java/com/corejsf/EmployeeManager.java:196-204 | the answer is the stored employee, found again by username |
| EmployeeApi.RemoveSparesCaller | src/main/java/com/corejsf/EmployeeManager.java:215-235 | an admin never removes their own record |
| EmployeeApi.RemoveSparesAdmin | src/main/java/com/corejsf/EmployeeManager.java:215-235 | the admin record survives every remove, which answers 204 without deleting it |
| EmployeeApi.RemoveDeletesTarget | src/main/java/com/corejsf/EmployeeManager.java:215-235 | an accepted remove of a non-admin leaves no employee with that number |
| EmployeeApi.ResetThenSignIn | src/main/java/com/corejsf/EmployeeManager.java:244-263 | after a reset a user with a credentials row signs in with the default password, everyone else as before |
| EmployeeApi.ChangeOnlyOwnPassword | src/main/java/com/corejsf/EmployeeManager.java:273-302 | no record other than the caller's changes |
| EmployeeApi.ChangeThenSignIn | src/main/java/com/corejsf/EmployeeManager.java:273-302 | after a change a caller with a credentials row signs in with the new password |
| AuthApi.LoginDecision | src/main/java/com/corejsf/AuthResource.java:31-69 | 400 for a null request or field; success iff the trimmed credentials verify; 401 otherwise |
| AuthApi.AuthResource.Login | src/main/java/com/corejsf/AuthResource.java:31-69 | a token is issued only on success, and the answer carries it with the employee's details |
| AuthApi.AuthResource.Logout | src/main/java/com/corejsf/AuthResource.java:74-88 | 401 without a bearer header; otherwise 200 and the token revoked, known or not |
| AuthApi.LoginIff | src/main/java/com/corejsf/AuthResource.java:31-69 | login succeeds exactly for a stored username in any case with its stored non-null password |
| AuthApi.LoginThenAuthorized | src/main/java/com/corejsf/AuthResource.java:31-69 | the issued token authorizes the employee who signed in |
| AuthApi.LogoutThenRejected | src/main/java/com/corejsf/AuthResource.java:74-88 | after logout the header is refused and every other token resolves as before |
| JavaText.Utf16Length | src/main/java/com/corejsf/ChangePasswordBean.java:130 | `String.length()`: at least one and at most two code units per character, and one each exactly when no character lies beyond U+FFFF |
| ChangePassword.PasswordSpec | src/main/java/com/corejsf/ChangePasswordBean.java:119-163 | blank fields, then a mismatch, then under six UTF-16 code units, then a wrong current password keep the page and change nothing; otherwise the password changes and the form goes home |
| ChangePassword.ChangePasswordBean.ChangePassword | src/main/java/com/corejsf/ChangePasswordBean.java:119-153 | performs the specified checks and change |
| ChangePassword.ChangedPasswordSignsIn | src/main/java/com/corejsf/ChangePasswordBean.java:119-153 | afterwards the user signs in with the new password, and with the old one only if it is the same |

## Left out

- JDBC, SQL text, connections, transactions and `SQLException`s. The store is a sequence of records. A failed statement is modelled only for the cases the data decides: a new sheet without an owner, an update without an end date, and rows for an id no header has. Where the failure happens before the commit, the table is left unchanged.
- `getIdFor` and its `WeakHashMap` from sheet objects to ids are not modelled. A sheet carries its id as a field.
- `requireEmployeeId` and `ensureAdminExists` are not modelled. A stored sheet holds its owner as a value, and the owner's employee number stands for the `employee_id` key. Ordering by `employee_id` is modelled as ordering by employee number.
- The unique (employee, end date) constraint of the `timesheets` table is not modelled. Neither are the other schema constraints beyond the row-to-header reference.
- Hours are `real`. Float and double rounding error is not modelled, nor are `Float.toString` forms other than a decimal with one fractional digit. Hour cells parse only plain decimal literals, not exponents, signs of infinity, `NaN` or a trailing `f`/`d`.
- The clock, `LocalDate.parse` and `UUID.randomUUID` are parameters. Only the ISO date text's non-blankness is used.
- Concurrency is not modelled. Neither are the non-transactional gaps in `addTimesheet` and `addEmployee`, where a failure midway can leave a header without rows.
- Case folding and whitespace cover ASCII only. Java `int` and `long` overflow of employee numbers and ids is not modelled.
- The JSF beans and pages are left out, apart from `TimesheetEditBean` and `ChangePasswordBean`. So are `CurrentUser` (the current user is a parameter), conversation begin and end, the session's selected sheet, and the faces messages.
- `EmployeeRepo.getLoginCombos`, `getCurrentEmployee`, `getAdministrator` and `logout` are not modelled. They are session plumbing.
- `MeResource`, `EmployeeClient` and `EmployeeService` are not part of this model.
- REST error bodies and message texts are not modelled. A failure is its status code.
- `ChangePassword.ChangePasswordBean.ChangePassword`: the catch of a runtime exception from the repository is not modelled, because the modelled repository does not fail.
- `TimesheetEdit.TimesheetEditBean.Init`: a partial state left by a failing `init` is not modelled. `init` fails when a row has null hours, and the model then leaves the bean unchanged.
- `EmployeeDirectory.AdminNeverDeleted`: stated only for an employee taken from the directory. `deleteEmployee` protects the admin by the passed employee's username but deletes by its number, so a caller could pass a made-up employee. `EmployeeManager.remove` always passes a stored one.
- `Entities.NewRow`: the Java class `TimesheetRow` is not part of this model, and the defaults of `new TimesheetRow()` are assumed: project 0, no work package, seven zero hours and no notes. `TimesheetEdit.Padded`, `TimesheetEdit.PadRows`, `TimesheetEdit.TimesheetEditBean.Init`, `TimesheetEdit.TimesheetEditBean.AddRow`, `TimesheetEdit.AddRowKeepsChecks` and `TimesheetEdit.StoredSheetsOpen` rely on these defaults. With null hours, `init`'s grid loop would throw instead.
- `TimesheetStore.PlaceholderRows`: the rows' project 0, empty work package and zero hours are in its body; its contract states only the count and numbering.

## Findings

| source | as written | input that shows it | evidently intended | confidence | as-written member | corrected member |
|---|---|---|---|---|---|---|
| src/main/java/com/corejsf/TimeSheetRepo.java:430-454 | loadRows selects the `notes` column but never copies it onto the row, although insertRow (464-486) writes it | a row with notes "design review" saved and loaded again comes back with null notes | a row loads back with the notes it was saved with | not executed | TimesheetStore.NotesLostAsWritten | TimesheetStore.RowRoundTripWithNotes |

The rest of the model reads rows back as `loadRows` is written, without
notes. `LoadRowWithNotes` is the intended loader.
