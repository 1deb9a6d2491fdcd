/** The employee REST service: admin-only lookups and account management,
    and the self-service password change. Every operation first reads the
    caller from the Bearer token; the replies' error bodies are left out. */
module EmployeeApi {
  import opened Base
  import opened JavaText
  import opened Entities
  import opened EmployeeDirectory
  import Access
  import TokenStore

  /** An employee as transferred; the text fields may be null. */
  datatype UserDto = UserDto(userName: Option<string>, name: Option<string>, empNumber: int, admin: bool)

  /** UserDto.fromEmployee. */
  function FromEmployee(e: Employee): UserDto
  {
    UserDto(Some(e.userName), Some(e.name), e.empNumber, IsAdmin(e))
  }

  /** The body key the password change reads. */
  const PASSWORD_KEY := "password"

  /** The first employee of `es` with number `n`, or null. */
  function FirstByEmpNumber(es: seq<Employee>, n: int): (r: Option<Employee>)
    ensures r.Some? <==> exists e :: e in es && e.empNumber == n
    ensures r.Some? ==> r.value in es && r.value.empNumber == n
  {
    if es == [] then None
    else if es[0].empNumber == n then Some(es[0])
    else
      assert forall e :: e in es[1..] ==> e in es;
      FirstByEmpNumber(es[1..], n)
  }

  /** The employees getEmployees lists are exactly the directory's. */
  lemma ListedEmployees(table: seq<EmployeeRecord>)
    ensures forall e :: e in GetEmployees(table) <==> exists r :: r in table && r.emp == e
  {
    var es := GetEmployees(table);
    assert forall e :: e in es <==> e in multiset(Employees(table));
    forall e | e in Employees(table)
      ensures exists r :: r in table && r.emp == e
    {
      var i :| 0 <= i < |table| && Employees(table)[i] == e;
      assert table[i] in table;
    }
    forall r | r in table
      ensures r.emp in Employees(table)
    {
      var i :| 0 <= i < |table| && table[i] == r;
      assert Employees(table)[i] == r.emp;
    }
  }

  /** findByEmpNumber: requireAdmin, then 404 when no employee has the
      number. */
  function FindByEmpNumberReply(table: seq<EmployeeRecord>, tokens: map<string, Employee>, header: Option<string>, n: int): (r: Result<Employee, int>)
    ensures Access.RequireAdmin(header, tokens).Err? ==> r == Err(Access.RequireAdmin(header, tokens).error)
    ensures Access.RequireAdmin(header, tokens).Ok? ==> (r.Ok? <==> EmpNumberExists(table, n))
    ensures Access.RequireAdmin(header, tokens).Ok? && r.Err? ==> r.error == NOT_FOUND
    ensures r.Ok? ==> r.value.empNumber == n && exists x :: x in table && x.emp == r.value
  {
    ListedEmployees(table);
    match Access.RequireAdmin(header, tokens)
    case Err(code) => Err(code)
    case Ok(_) =>
      match FirstByEmpNumber(GetEmployees(table), n)
      case None => Err(NOT_FOUND)
      case Some(e) => Ok(e)
  }

  /** findByUserName: requireAdmin, then 404 when no username matches
      ignoring case. */
  function FindByUserNameReply(table: seq<EmployeeRecord>, tokens: map<string, Employee>, header: Option<string>, u: Option<string>): (r: Result<Employee, int>)
    ensures Access.RequireAdmin(header, tokens).Err? ==> r == Err(Access.RequireAdmin(header, tokens).error)
    ensures Access.RequireAdmin(header, tokens).Ok? ==> (r.Ok? <==> UserExists(table, u))
    ensures Access.RequireAdmin(header, tokens).Ok? && r.Err? ==> r.error == NOT_FOUND
    ensures r.Ok? ==> EqualsIgnoreCase(r.value.userName, u.value) && r.value in Employees(table)
  {
    match Access.RequireAdmin(header, tokens)
    case Err(code) => Err(code)
    case Ok(_) =>
      match GetEmployee(table, u)
      case None => Err(NOT_FOUND)
      case Some(e) => Ok(e)
  }

  /** getAll: requireAdmin, then every employee by number. */
  function GetAllReply(table: seq<EmployeeRecord>, tokens: map<string, Employee>, header: Option<string>): (r: Result<seq<Employee>, int>)
    ensures Access.RequireAdmin(header, tokens).Err? ==> r == Err(Access.RequireAdmin(header, tokens).error)
    ensures r.Ok? <==> Access.RequireAdmin(header, tokens).Ok?
    ensures r.Ok? ==> multiset(r.value) == multiset(Employees(table))
    ensures r.Ok? ==> forall i, j :: 0 <= i < j < |r.value| ==> r.value[i].empNumber <= r.value[j].empNumber
  {
    match Access.RequireAdmin(header, tokens)
    case Err(code) => Err(code)
    case Ok(_) => Ok(GetEmployees(table))
  }

  /** persist's checks: requireAdmin; 400 for a null payload, then for a
      null or blank username, then for a null or blank name; otherwise the
      employee to add, an Admin or a User as the payload says, with name
      and username trimmed. */
  function PersistCheck(tokens: map<string, Employee>, header: Option<string>, dto: Option<UserDto>): (r: Result<Employee, int>)
    ensures Access.RequireAdmin(header, tokens).Err? ==> r == Err(Access.RequireAdmin(header, tokens).error)
    ensures Access.RequireAdmin(header, tokens).Ok? ==>
      (r.Ok? <==> dto.Some? && !IsNullOrBlank(dto.value.userName) && !IsNullOrBlank(dto.value.name))
    ensures Access.RequireAdmin(header, tokens).Ok? && r.Err? ==> r.error == BAD_REQUEST
    ensures r.Ok? ==> r.value.userName == Trim(dto.value.userName.value) && r.value.name == Trim(dto.value.name.value)
    ensures r.Ok? ==> r.value.empNumber == dto.value.empNumber && (IsAdmin(r.value) <==> dto.value.admin)
  {
    match Access.RequireAdmin(header, tokens)
    case Err(code) => Err(code)
    case Ok(_) =>
      if dto.None? then Err(BAD_REQUEST)
      else if IsNullOrBlank(dto.value.userName) then Err(BAD_REQUEST)
      else if IsNullOrBlank(dto.value.name) then Err(BAD_REQUEST)
      else
        var d := dto.value;
        Ok(Employee(Trim(d.name.value), d.empNumber, Trim(d.userName.value), if d.admin then Admin else User))
  }

  /** persist: the checks, then addEmployee (its refusal surfaces as 500),
      then the reply built from the stored employee read back by username,
      or from the added one when the read finds nothing. */
  function PersistSpec(table: seq<EmployeeRecord>, tokens: map<string, Employee>, header: Option<string>, dto: Option<UserDto>): (o: (Result<UserDto, int>, seq<EmployeeRecord>))
    ensures PersistCheck(tokens, header, dto).Err? ==> o == (Err(PersistCheck(tokens, header, dto).error), table)
    ensures PersistCheck(tokens, header, dto).Ok? && AddSpec(table, PersistCheck(tokens, header, dto).value).Rejected? ==>
      o == (Err(SERVER_ERROR), table)
    ensures o.0.Ok? <==> PersistCheck(tokens, header, dto).Ok? && AddSpec(table, PersistCheck(tokens, header, dto).value).Added?
    ensures o.0.Ok? ==> o.1 == AddSpec(table, PersistCheck(tokens, header, dto).value).table
  {
    match PersistCheck(tokens, header, dto)
    case Err(code) => (Err(code), table)
    case Ok(emp) =>
      match AddSpec(table, emp)
      case Rejected => (Err(SERVER_ERROR), table)
      case Added(t, e) =>
        var saved := GetEmployee(t, Some(emp.userName));
        (Ok(FromEmployee(if saved.Some? then saved.value else e)), t)
  }

  /** remove's checks: requireAdmin; 404 when no employee has the number,
      checked before 400 for a caller removing their own number; otherwise
      the employee to delete. */
  function RemoveCheck(table: seq<EmployeeRecord>, tokens: map<string, Employee>, header: Option<string>, n: int): (r: Result<Employee, int>)
    ensures Access.RequireAdmin(header, tokens).Err? ==> r == Err(Access.RequireAdmin(header, tokens).error)
    ensures Access.RequireAdmin(header, tokens).Ok? && !EmpNumberExists(table, n) ==> r == Err(NOT_FOUND)
    ensures Access.RequireAdmin(header, tokens).Ok? && EmpNumberExists(table, n) ==>
      (r.Err? <==> Access.RequireAdmin(header, tokens).value.empNumber == n) && (r.Err? ==> r.error == BAD_REQUEST)
    ensures r.Ok? ==> r.value.empNumber == n && r.value in Employees(table)
  {
    ListedEmployees(table);
    match Access.RequireAdmin(header, tokens)
    case Err(code) => Err(code)
    case Ok(caller) =>
      match FirstByEmpNumber(GetEmployees(table), n)
      case None => Err(NOT_FOUND)
      case Some(e) =>
        assert e in Employees(table) by {
          var x :| x in table && x.emp == e;
          var i :| 0 <= i < |table| && table[i] == x;
          assert Employees(table)[i] == e;
        }
        if caller.empNumber == n then Err(BAD_REQUEST) else Ok(e)
  }

  /** remove: the checks, then deleteEmployee and 204. */
  function RemoveSpec(table: seq<EmployeeRecord>, tokens: map<string, Employee>, header: Option<string>, n: int): (o: (int, seq<EmployeeRecord>))
    ensures RemoveCheck(table, tokens, header, n).Err? ==> o == (RemoveCheck(table, tokens, header, n).error, table)
    ensures RemoveCheck(table, tokens, header, n).Ok? ==>
      o == (NO_CONTENT, DeleteSpec(table, Some(RemoveCheck(table, tokens, header, n).value)))
  {
    match RemoveCheck(table, tokens, header, n)
    case Err(code) => (code, table)
    case Ok(e) => (NO_CONTENT, DeleteSpec(table, Some(e)))
  }

  /** resetPassword's checks: requireAdmin; 400 for a null or blank
      username; 404 for an unknown one; otherwise the username. */
  function ResetCheck(table: seq<EmployeeRecord>, tokens: map<string, Employee>, header: Option<string>, u: Option<string>): (r: Result<string, int>)
    ensures Access.RequireAdmin(header, tokens).Err? ==> r == Err(Access.RequireAdmin(header, tokens).error)
    ensures Access.RequireAdmin(header, tokens).Ok? && IsNullOrBlank(u) ==> r == Err(BAD_REQUEST)
    ensures Access.RequireAdmin(header, tokens).Ok? && !IsNullOrBlank(u) ==>
      (r.Ok? <==> UserExists(table, u)) && (r.Err? ==> r.error == NOT_FOUND)
    ensures r.Ok? ==> u == Some(r.value)
  {
    match Access.RequireAdmin(header, tokens)
    case Err(code) => Err(code)
    case Ok(_) =>
      if IsNullOrBlank(u) then Err(BAD_REQUEST)
      else if GetEmployee(table, u).None? then Err(NOT_FOUND)
      else Ok(u.value)
  }

  /** resetPassword: the checks, then the password becomes "password" and
      the reply is 204. */
  function ResetSpec(table: seq<EmployeeRecord>, tokens: map<string, Employee>, header: Option<string>, u: Option<string>): (o: (int, seq<EmployeeRecord>))
    ensures ResetCheck(table, tokens, header, u).Err? ==> o == (ResetCheck(table, tokens, header, u).error, table)
    ensures ResetCheck(table, tokens, header, u).Ok? ==> o == (NO_CONTENT, ChangePasswordSpec(table, u, Some(DEFAULT_PASSWORD)))
  {
    match ResetCheck(table, tokens, header, u)
    case Err(code) => (code, table)
    case Ok(_) => (NO_CONTENT, ChangePasswordSpec(table, u, Some(DEFAULT_PASSWORD)))
  }

  /** changePassword's checks: requireUser; 403 unless the caller's
      username equals the target ignoring case (a null target never does);
      400 for a null body or one without the "password" key; 400 for a null
      or blank password; otherwise the new password. */
  function ChangeCheck(tokens: map<string, Employee>, header: Option<string>, u: Option<string>, body: Option<map<string, Option<string>>>): (r: Result<string, int>)
    ensures Access.Authorize(header, tokens).Err? ==> r == Err(UNAUTHORIZED)
    ensures Access.Authorize(header, tokens).Ok? ==>
      var caller := Access.Authorize(header, tokens).value;
      !(u.Some? && EqualsIgnoreCase(caller.userName, u.value)) ==> r == Err(FORBIDDEN)
    ensures r.Ok? <==> (Access.Authorize(header, tokens).Ok? && u.Some? &&
      EqualsIgnoreCase(Access.Authorize(header, tokens).value.userName, u.value) &&
      body.Some? && PASSWORD_KEY in body.value && !IsNullOrBlank(body.value[PASSWORD_KEY]))
    ensures (r.Err? && Access.Authorize(header, tokens).Ok? && u.Some? &&
      EqualsIgnoreCase(Access.Authorize(header, tokens).value.userName, u.value)) ==> r.error == BAD_REQUEST
    ensures r.Ok? ==> body.value[PASSWORD_KEY] == Some(r.value)
  {
    match Access.Authorize(header, tokens)
    case Err(code) => Err(code)
    case Ok(caller) =>
      if !(u.Some? && EqualsIgnoreCase(caller.userName, u.value)) then Err(FORBIDDEN)
      else if body.None? || PASSWORD_KEY !in body.value then Err(BAD_REQUEST)
      else if IsNullOrBlank(body.value[PASSWORD_KEY]) then Err(BAD_REQUEST)
      else Ok(body.value[PASSWORD_KEY].value)
  }

  /** changePassword: the checks, then the target's password is replaced
      and the reply is 204. */
  function ChangeSpec(table: seq<EmployeeRecord>, tokens: map<string, Employee>, header: Option<string>, u: Option<string>, body: Option<map<string, Option<string>>>): (o: (int, seq<EmployeeRecord>))
    ensures ChangeCheck(tokens, header, u, body).Err? ==> o == (ChangeCheck(tokens, header, u, body).error, table)
    ensures ChangeCheck(tokens, header, u, body).Ok? ==>
      o == (NO_CONTENT, ChangePasswordSpec(table, u, Some(ChangeCheck(tokens, header, u, body).value)))
  {
    match ChangeCheck(tokens, header, u, body)
    case Err(code) => (code, table)
    case Ok(p) => (NO_CONTENT, ChangePasswordSpec(table, u, Some(p)))
  }

  class EmployeeManager {
    const directory: EmployeeRepo
    const tokenStore: TokenStore.AuthTokenStore

    predicate Valid()
      reads this, directory
    {
      directory.Valid()
    }

    constructor (directory: EmployeeRepo, tokenStore: TokenStore.AuthTokenStore)
      requires directory.Valid()
      ensures Valid() && this.directory == directory && this.tokenStore == tokenStore
    {
      this.directory := directory;
      this.tokenStore := tokenStore;
    }

    /** findByEmpNumberInternal: a linear scan of getEmployees, returning
        the first employee with the number, or null. */
    method FindByEmpNumberInternal(n: int) returns (e: Option<Employee>)
      ensures e == FirstByEmpNumber(GetEmployees(directory.records), n)
      ensures e.Some? <==> EmpNumberExists(directory.records, n)
    {
      ListedEmployees(directory.records);
      var es := GetEmployees(directory.records);
      var i := 0;
      while i < |es|
        invariant 0 <= i <= |es|
        invariant FirstByEmpNumber(es[i..], n) == FirstByEmpNumber(es, n)
      {
        if es[i].empNumber == n {
          return Some(es[i]);
        }
        assert es[i..][1..] == es[i + 1..];
        i := i + 1;
      }
      return None;
    }

    /** findByEmpNumber. */
    method FindByEmpNumber(header: Option<string>, n: int) returns (r: Result<Employee, int>)
      ensures r == FindByEmpNumberReply(directory.records, tokenStore.tokens, header, n)
    {
      var caller := Access.RequireAdmin(header, tokenStore.tokens);
      if caller.Err? {
        return Err(caller.error);
      }
      var e := FindByEmpNumberInternal(n);
      if e.None? {
        return Err(NOT_FOUND);
      }
      r := Ok(e.value);
    }

    /** findByUserName. */
    method FindByUserName(header: Option<string>, u: Option<string>) returns (r: Result<Employee, int>)
      ensures r == FindByUserNameReply(directory.records, tokenStore.tokens, header, u)
    {
      var caller := Access.RequireAdmin(header, tokenStore.tokens);
      if caller.Err? {
        return Err(caller.error);
      }
      var e := GetEmployee(directory.records, u);
      if e.None? {
        return Err(NOT_FOUND);
      }
      r := Ok(e.value);
    }

    /** getAll. */
    method GetAll(header: Option<string>) returns (r: Result<seq<Employee>, int>)
      ensures r == GetAllReply(directory.records, tokenStore.tokens, header)
    {
      var caller := Access.RequireAdmin(header, tokenStore.tokens);
      if caller.Err? {
        return Err(caller.error);
      }
      r := Ok(GetEmployees(directory.records));
    }

    /** persist. */
    method Persist(header: Option<string>, dto: Option<UserDto>) returns (r: Result<UserDto, int>)
      requires Valid()
      modifies directory
      ensures Valid()
      ensures (r, directory.records) == PersistSpec(old(directory.records), tokenStore.tokens, header, dto)
    {
      var emp := PersistCheck(tokenStore.tokens, header, dto);
      if emp.Err? {
        return Err(emp.error);
      }
      var added := directory.AddEmployee(emp.value);
      if added.None? {
        // IllegalStateException
        return Err(SERVER_ERROR);
      }
      var saved := GetEmployee(directory.records, Some(emp.value.userName));
      if saved.None? {
        saved := added;
      }
      r := Ok(FromEmployee(saved.value));
    }

    /** remove. */
    method Remove(header: Option<string>, n: int) returns (status: int)
      requires Valid()
      modifies directory
      ensures Valid()
      ensures (status, directory.records) == RemoveSpec(old(directory.records), tokenStore.tokens, header, n)
    {
      var caller := Access.RequireAdmin(header, tokenStore.tokens);
      if caller.Err? {
        return caller.error;
      }
      var toDelete := FindByEmpNumberInternal(n);
      if toDelete.None? {
        return NOT_FOUND;
      }
      if caller.value.empNumber == n {
        return BAD_REQUEST;
      }
      directory.DeleteEmployee(toDelete);
      status := NO_CONTENT;
    }

    /** resetPassword. */
    method ResetPassword(header: Option<string>, u: Option<string>) returns (status: int)
      requires Valid()
      modifies directory
      ensures Valid()
      ensures (status, directory.records) == ResetSpec(old(directory.records), tokenStore.tokens, header, u)
    {
      var caller := Access.RequireAdmin(header, tokenStore.tokens);
      if caller.Err? {
        return caller.error;
      }
      if IsNullOrBlank(u) {
        return BAD_REQUEST;
      }
      var e := GetEmployee(directory.records, u);
      if e.None? {
        return NOT_FOUND;
      }
      directory.ChangePassword(u, Some(DEFAULT_PASSWORD));
      status := NO_CONTENT;
    }

    /** changePassword. */
    method ChangePassword(header: Option<string>, u: Option<string>, body: Option<map<string, Option<string>>>) returns (status: int)
      requires Valid()
      modifies directory
      ensures Valid()
      ensures (status, directory.records) == ChangeSpec(old(directory.records), tokenStore.tokens, header, u, body)
    {
      var caller := Access.Authorize(header, tokenStore.tokens);
      if caller.Err? {
        return caller.error;
      }
      if !(u.Some? && EqualsIgnoreCase(caller.value.userName, u.value)) {
        return FORBIDDEN;
      }
      if body.None? || PASSWORD_KEY !in body.value {
        return BAD_REQUEST;
      }
      var p := body.value[PASSWORD_KEY];
      if IsNullOrBlank(p) {
        return BAD_REQUEST;
      }
      directory.ChangePassword(u, p);
      status := NO_CONTENT;
    }
  }

  // ---------------------------------------------------------------------
  // What the service guarantees
  // ---------------------------------------------------------------------

  /** A successful persist answers with the employee as stored, carrying
      the number the directory allocated, and that employee then signs in
      with the default password. */
  lemma PersistAnswersStored(table: seq<EmployeeRecord>, tokens: map<string, Employee>, header: Option<string>, dto: Option<UserDto>)
    requires DirectoryValid(table)
    requires PersistSpec(table, tokens, header, dto).0.Ok?
    ensures var emp := PersistCheck(tokens, header, dto).value;
      PersistSpec(table, tokens, header, dto).0.value == FromEmployee(AddSpec(table, emp).emp) &&
      GetEmployee(PersistSpec(table, tokens, header, dto).1, Some(emp.userName)) == Some(AddSpec(table, emp).emp)
  {
    var emp := PersistCheck(tokens, header, dto).value;
    AddThenFind(table, emp, emp.userName);
  }

  /** Whatever remove answers, the caller's own records survive it. */
  lemma RemoveSparesCaller(table: seq<EmployeeRecord>, tokens: map<string, Employee>, header: Option<string>, n: int, x: EmployeeRecord)
    requires Access.RequireAdmin(header, tokens).Ok?
    requires x in table && x.emp.empNumber == Access.RequireAdmin(header, tokens).value.empNumber
    ensures x in RemoveSpec(table, tokens, header, n).1
  {
  }

  /** remove never deletes the `admin` account: asked to, it answers 204
      and leaves the directory as it was. */
  lemma RemoveSparesAdmin(table: seq<EmployeeRecord>, tokens: map<string, Employee>, header: Option<string>, n: int, x: EmployeeRecord)
    requires DirectoryValid(table)
    requires x in table && EqualsIgnoreCase(ADMIN_USER, x.emp.userName)
    ensures x in RemoveSpec(table, tokens, header, n).1
    ensures RemoveCheck(table, tokens, header, n).Ok? && x.emp.empNumber == n ==>
      RemoveSpec(table, tokens, header, n) == (NO_CONTENT, table)
  {
    var c := RemoveCheck(table, tokens, header, n);
    if c.Ok? {
      AdminNeverDeleted(table, Some(c.value), x);
      if x.emp.empNumber == n {
        var i :| 0 <= i < |table| && Employees(table)[i] == c.value;
        assert table[i] in table;
      }
    }
  }

  /** A successful remove of any other account leaves no employee with
      that number. */
  lemma RemoveDeletesTarget(table: seq<EmployeeRecord>, tokens: map<string, Employee>, header: Option<string>, n: int)
    requires RemoveCheck(table, tokens, header, n).Ok?
    requires !EqualsIgnoreCase(ADMIN_USER, RemoveCheck(table, tokens, header, n).value.userName)
    ensures RemoveSpec(table, tokens, header, n).0 == NO_CONTENT
    ensures !EmpNumberExists(RemoveSpec(table, tokens, header, n).1, n)
  {
  }

  /** After a reset the user, who has a credentials row, signs in with
      "password", and everyone else signs in exactly as before. */
  lemma ResetThenSignIn(table: seq<EmployeeRecord>, tokens: map<string, Employee>, header: Option<string>, u: Option<string>, v: string, q: Option<string>)
    requires DirectoryValid(table)
    requires ResetCheck(table, tokens, header, u).Ok? && HasCredentialRow(table, u.value)
    ensures var t := ResetSpec(table, tokens, header, u).1;
      VerifyUser(t, Some(Credentials(u, Some(DEFAULT_PASSWORD)))) &&
      (!EqualsIgnoreCase(v, u.value) ==> VerifyUser(t, Some(Credentials(Some(v), q))) == VerifyUser(table, Some(Credentials(Some(v), q))))
  {
    ChangeThenVerify(table, u.value, DEFAULT_PASSWORD, u.value, q);
    ChangeThenVerify(table, u.value, DEFAULT_PASSWORD, v, q);
  }

  /** A password change only ever touches the caller's own account
      (matched ignoring case); every other record keeps its password. */
  lemma ChangeOnlyOwnPassword(table: seq<EmployeeRecord>, tokens: map<string, Employee>, header: Option<string>, u: Option<string>, body: Option<map<string, Option<string>>>)
    ensures var t := ChangeSpec(table, tokens, header, u, body).1;
      |t| == |table| &&
      forall i :: 0 <= i < |table| && t[i] != table[i] ==>
        EqualsIgnoreCase(table[i].emp.userName, Access.Authorize(header, tokens).value.userName)
  {
    var t := ChangeSpec(table, tokens, header, u, body).1;
    forall i | 0 <= i < |table| && t[i] != table[i]
      ensures EqualsIgnoreCase(table[i].emp.userName, Access.Authorize(header, tokens).value.userName)
    {
      assert t[i].credential != table[i].credential;
    }
  }

  /** After a successful change the caller, who has a credentials row,
      signs in with the new password. */
  lemma ChangeThenSignIn(table: seq<EmployeeRecord>, tokens: map<string, Employee>, header: Option<string>, u: Option<string>, body: Option<map<string, Option<string>>>)
    requires DirectoryValid(table) && u.Some? && HasCredentialRow(table, u.value)
    requires ChangeCheck(tokens, header, u, body).Ok?
    ensures VerifyUser(ChangeSpec(table, tokens, header, u, body).1,
      Some(Credentials(Some(Access.Authorize(header, tokens).value.userName), Some(ChangeCheck(tokens, header, u, body).value))))
  {
    var caller := Access.Authorize(header, tokens).value;
    ChangeThenVerify(table, u.value, ChangeCheck(tokens, header, u, body).value, caller.userName, None);
  }
}
