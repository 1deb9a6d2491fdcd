/** Signing in: checking credentials against the directory and looking the
    employee up by username. */
module AuthService {
  import opened Base
  import opened JavaText
  import opened Entities
  import opened EmployeeDirectory

  /** The first employee of `es` whose username matches `u` ignoring case
      (a stream filter and findFirst), or null. */
  function FirstByUserName(es: seq<Employee>, u: string): (r: Option<Employee>)
    ensures r.Some? <==> exists e :: e in es && EqualsIgnoreCase(e.userName, u)
    ensures r.Some? ==> r.value in es && EqualsIgnoreCase(r.value.userName, u)
    ensures r.Some? ==> exists k :: (0 <= k < |es| && es[k] == r.value &&
      forall j :: 0 <= j < k ==> !EqualsIgnoreCase(es[j].userName, u))
  {
    if es == [] then None
    else if EqualsIgnoreCase(es[0].userName, u) then Some(es[0])
    else
      var r := FirstByUserName(es[1..], u);
      assert r.Some? ==> exists k :: (0 <= k < |es| && es[k] == r.value &&
        forall j :: 0 <= j < k ==> !EqualsIgnoreCase(es[j].userName, u)) by {
        if r.Some? {
          var k :| 0 <= k < |es[1..]| && es[1..][k] == r.value &&
            forall j :: 0 <= j < k ==> !EqualsIgnoreCase(es[1..][j].userName, u);
          assert es[k + 1] == r.value;
          forall j | 0 <= j < k + 1
            ensures !EqualsIgnoreCase(es[j].userName, u)
          {
            if j > 0 {
              assert es[j] == es[1..][j - 1];
            }
          }
        }
      }
      assert forall e :: e in es[1..] ==> e in es;
      r
  }

  /** findByUserName: the first employee, in getEmployees order, whose
      username matches ignoring case; null for a null username or no match. */
  function FindByUserName(table: seq<EmployeeRecord>, u: Option<string>): (r: Option<Employee>)
    ensures r.Some? <==> UserExists(table, u)
    ensures r.Some? ==> r.value in Employees(table) && EqualsIgnoreCase(r.value.userName, u.value)
  {
    if u.None? then None
    else
      var es := GetEmployees(table);
      assert forall e :: e in es <==> e in Employees(table) by {
        assert forall e :: e in es <==> e in multiset(es);
      }
      assert forall e :: e in Employees(table) <==> exists r :: r in table && r.emp == e by {
        forall e | e in Employees(table)
          ensures exists r :: r in table && r.emp == e
        {
          var i :| 0 <= i < |table| && Employees(table)[i] == e;
          assert table[i] in table;
        }
      }
      FirstByUserName(es, u.value)
  }

  /** authenticate: null for null credentials, without consulting the
      directory; null when verifyUser fails; otherwise the employee found
      by the credential's username. */
  function Authenticate(table: seq<EmployeeRecord>, c: Option<Credentials>): (r: Option<Employee>)
    ensures c.None? ==> r.None?
    ensures r.Some? <==> VerifyUser(table, c)
    ensures r.Some? ==> r.value in Employees(table) && EqualsIgnoreCase(r.value.userName, c.value.userName.value)
  {
    if c.None? then None
    else if !VerifyUser(table, c) then None
    else
      var k := FindUser(table, c.value.userName.value);
      assert table[k] in table;
      FindByUserName(table, c.value.userName)
  }

  /** With usernames unique ignoring case, the stream search finds the same
      employee as the directory's own lookup. */
  lemma FindByUserNameIsGetEmployee(table: seq<EmployeeRecord>, u: Option<string>)
    requires DirectoryValid(table)
    ensures FindByUserName(table, u) == GetEmployee(table, u)
  {
    var a := FindByUserName(table, u);
    var b := GetEmployee(table, u);
    if a.Some? && b.Some? {
      var i :| 0 <= i < |table| && Employees(table)[i] == a.value;
      var j :| 0 <= j < |table| && Employees(table)[j] == b.value;
      assert table[i] in table && table[j] in table;
      assert EqualsIgnoreCase(table[i].emp.userName, table[j].emp.userName);
    }
  }

  /** Signing in succeeds exactly for a known username (in any case) with
      its stored, non-null password, and yields that record's employee. */
  lemma AuthenticateIff(table: seq<EmployeeRecord>, u: string, p: Option<string>, e: Employee)
    requires DirectoryValid(table)
    ensures Authenticate(table, Some(Credentials(Some(u), p))) == Some(e) <==>
      exists r :: r in table && r.emp == e && EqualsIgnoreCase(e.userName, u) && PasswordMatches(r, p)
  {
    if Authenticate(table, Some(Credentials(Some(u), p))) == Some(e) {
      AuthenticatedHasRecord(table, u, p, e);
    }
    if exists r :: r in table && r.emp == e && EqualsIgnoreCase(e.userName, u) && PasswordMatches(r, p) {
      var r :| r in table && r.emp == e && EqualsIgnoreCase(e.userName, u) && PasswordMatches(r, p);
      RecordAuthenticates(table, u, p, r);
    }
  }

  /** The employee a sign-in yields is a stored one whose password matched. */
  lemma AuthenticatedHasRecord(table: seq<EmployeeRecord>, u: string, p: Option<string>, e: Employee)
    requires DirectoryValid(table)
    requires Authenticate(table, Some(Credentials(Some(u), p))) == Some(e)
    ensures exists r :: r in table && r.emp == e && EqualsIgnoreCase(e.userName, u) && PasswordMatches(r, p)
  {
    VerifyUserIff(table, u, p);
    var r :| r in table && EqualsIgnoreCase(r.emp.userName, u) && PasswordMatches(r, p);
    var i :| 0 <= i < |table| && Employees(table)[i] == e;
    assert table[i] in table;
    assert EqualsIgnoreCase(table[i].emp.userName, r.emp.userName);
  }

  /** A stored record with a matching non-null password signs in as its
      employee. */
  lemma RecordAuthenticates(table: seq<EmployeeRecord>, u: string, p: Option<string>, r: EmployeeRecord)
    requires DirectoryValid(table)
    requires r in table && EqualsIgnoreCase(r.emp.userName, u) && PasswordMatches(r, p)
    ensures Authenticate(table, Some(Credentials(Some(u), p))) == Some(r.emp)
  {
    VerifyUserIff(table, u, p);
    var f := Authenticate(table, Some(Credentials(Some(u), p))).value;
    var i :| 0 <= i < |table| && Employees(table)[i] == f;
    assert table[i] in table;
    assert EqualsIgnoreCase(table[i].emp.userName, r.emp.userName);
  }

  /** A freshly added employee signs in with the default password, under
      its username in any case, as the employee that was stored. */
  lemma NewEmployeeSignsIn(table: seq<EmployeeRecord>, emp: Employee, u: string)
    requires DirectoryValid(table) && AddSpec(table, emp).Added?
    requires EqualsIgnoreCase(u, emp.userName)
    ensures Authenticate(AddSpec(table, emp).table, Some(Credentials(Some(u), Some(DEFAULT_PASSWORD)))) ==
      Some(AddSpec(table, emp).emp)
  {
    AddPreservesValid(table, emp);
    AddThenFind(table, emp, u);
    FindByUserNameIsGetEmployee(AddSpec(table, emp).table, Some(u));
  }
}
