/** The employee directory: the `employees` table joined with each
    employee's credential, kept in insertion order. Usernames are matched
    ignoring case, passwords exactly. */
module EmployeeDirectory {
  import opened Base
  import opened JavaText
  import opened Entities
  import Sorting

  /** A username/password pair as typed; either may be null. */
  datatype Credentials = Credentials(userName: Option<string>, password: Option<string>)

  /** An employee's row of the `credentials` table: missing altogether, or
      present with a password that may be NULL. */
  datatype CredentialRow = NoCredentials | CredentialRow(passwordHash: Option<string>)

  /** An employee joined with its credentials row. */
  datatype EmployeeRecord = EmployeeRecord(emp: Employee, credential: CredentialRow)

  /** The record has a credentials row whose password is non-null and
      equal, case and all, to `p`. */
  predicate PasswordMatches(r: EmployeeRecord, p: Option<string>)
  {
    r.credential.CredentialRow? && r.credential.passwordHash.Some? && p == r.credential.passwordHash
  }

  /** Some record whose username matches `u` ignoring case has a
      credentials row. */
  predicate HasCredentialRow(table: seq<EmployeeRecord>, u: string)
  {
    exists r :: r in table && EqualsIgnoreCase(r.emp.userName, u) && r.credential.CredentialRow?
  }

  /** The account that can never be deleted. */
  const ADMIN_USER := "admin"
  /** The password every new account starts with. */
  const DEFAULT_PASSWORD := "password"

  /** Usernames are unique ignoring case, and employee numbers are unique:
      two records that share either are the same record. */
  predicate DirectoryValid(table: seq<EmployeeRecord>)
  {
    (forall a, b :: a in table && b in table && EqualsIgnoreCase(a.emp.userName, b.emp.userName) ==> a == b) &&
    (forall a, b :: a in table && b in table && a.emp.empNumber == b.emp.empNumber ==> a == b)
  }

  /** Position of the first record whose username matches `u` ignoring
      case, or |table| when there is none. */
  function FindUser(table: seq<EmployeeRecord>, u: string): (k: nat)
    ensures k <= |table|
    ensures k < |table| ==> EqualsIgnoreCase(table[k].emp.userName, u)
    ensures forall j :: 0 <= j < k ==> !EqualsIgnoreCase(table[j].emp.userName, u)
  {
    if table == [] then 0
    else if EqualsIgnoreCase(table[0].emp.userName, u) then 0
    else 1 + FindUser(table[1..], u)
  }

  /** userExists: some username matches ignoring case; null matches none. */
  predicate UserExists(table: seq<EmployeeRecord>, u: Option<string>)
    ensures UserExists(table, u) <==> u.Some? && FindUser(table, u.value) < |table|
  {
    u.Some? && exists r :: r in table && EqualsIgnoreCase(r.emp.userName, u.value)
  }

  /** empNumberExists: some employee has number `n`. */
  predicate EmpNumberExists(table: seq<EmployeeRecord>, n: int)
    ensures EmpNumberExists(table, n) ==> table != [] && n <= MaxEmpNumber(table)
    ensures table != [] && n == MaxEmpNumber(table) ==> EmpNumberExists(table, n)
  {
    exists r :: r in table && r.emp.empNumber == n
  }

  /** The employees, in table order. */
  function Employees(table: seq<EmployeeRecord>): (es: seq<Employee>)
    ensures |es| == |table|
    ensures forall i :: 0 <= i < |table| ==> es[i] == table[i].emp
  {
    seq(|table|, i requires 0 <= i < |table| => table[i].emp)
  }

  /** `ORDER BY emp_number`. */
  predicate ByEmpNumber(a: Employee, b: Employee)
  {
    a.empNumber <= b.empNumber
  }

  /** getEmployees: every employee, ordered by employee number. */
  function GetEmployees(table: seq<EmployeeRecord>): (es: seq<Employee>)
    ensures multiset(es) == multiset(Employees(table))
    ensures forall i, j :: 0 <= i < j < |es| ==> es[i].empNumber <= es[j].empNumber
  {
    Sorting.Sort(Employees(table), ByEmpNumber)
  }

  /** getEmployee: the employee whose username matches ignoring case, or
      null. */
  function GetEmployee(table: seq<EmployeeRecord>, u: Option<string>): (r: Option<Employee>)
    ensures r.Some? <==> UserExists(table, u)
    ensures r.Some? ==> EqualsIgnoreCase(r.value.userName, u.value) && r.value in Employees(table)
  {
    if u.None? then None
    else
      var k := FindUser(table, u.value);
      if k < |table| then
        assert Employees(table)[k] == table[k].emp;
        Some(table[k].emp)
      else
        assert forall r :: r in table ==> !EqualsIgnoreCase(r.emp.userName, u.value);
        None
  }

  /** The largest employee number of a non-empty table. */
  function MaxEmpNumber(table: seq<EmployeeRecord>): (m: int)
    requires table != []
    ensures forall r :: r in table ==> r.emp.empNumber <= m
    ensures exists r :: r in table && r.emp.empNumber == m
  {
    if |table| == 1 then table[0].emp.empNumber
    else
      var rest := MaxEmpNumber(table[1..]);
      assert forall r :: r in table[1..] ==> r in table;
      if table[0].emp.empNumber >= rest then table[0].emp.empNumber else rest
  }

  /** nextEmpNumber: `COALESCE(MAX(emp_number), 0) + 1`. */
  function NextEmpNumber(table: seq<EmployeeRecord>): (n: int)
    ensures forall r :: r in table ==> r.emp.empNumber < n
    ensures table == [] ==> n == 1
    ensures table != [] ==> EmpNumberExists(table, n - 1)
  {
    if table == [] then 1 else MaxEmpNumber(table) + 1
  }

  /** The outcome of addEmployee: the new table and the employee as stored
      (its number filled in), or the IllegalStateException. */
  datatype AddResult = Added(table: seq<EmployeeRecord>, emp: Employee) | Rejected

  /** addEmployee: refused when the username is taken ignoring case, or a
      non-zero number is taken; number 0 is replaced by nextEmpNumber; the
      new employee's credential is the default password. */
  function AddSpec(table: seq<EmployeeRecord>, emp: Employee): (r: AddResult)
    ensures r.Rejected? <==> UserExists(table, Some(emp.userName)) || (emp.empNumber != 0 && EmpNumberExists(table, emp.empNumber))
    ensures r.Added? ==> r.table == table + [EmployeeRecord(r.emp, CredentialRow(Some(DEFAULT_PASSWORD)))]
    ensures r.Added? ==> r.emp == emp.(empNumber := r.emp.empNumber) && !EmpNumberExists(table, r.emp.empNumber)
    ensures r.Added? && emp.empNumber != 0 ==> r.emp.empNumber == emp.empNumber
    ensures r.Added? && emp.empNumber == 0 ==> r.emp.empNumber == NextEmpNumber(table)
  {
    if UserExists(table, Some(emp.userName)) then Rejected
    else if emp.empNumber != 0 && EmpNumberExists(table, emp.empNumber) then Rejected
    else
      var n := if emp.empNumber == 0 then NextEmpNumber(table) else emp.empNumber;
      var e := emp.(empNumber := n);
      Added(table + [EmployeeRecord(e, CredentialRow(Some(DEFAULT_PASSWORD)))], e)
  }

  /** The records whose employee number is not `n`, in order. */
  function Without(table: seq<EmployeeRecord>, n: int): (rest: seq<EmployeeRecord>)
    ensures forall r :: r in rest <==> r in table && r.emp.empNumber != n
    ensures |rest| <= |table|
  {
    if table == [] then []
    else (if table[0].emp.empNumber == n then [] else [table[0]]) + Without(table[1..], n)
  }

  /** deleteEmployee: null and the `admin` account (ignoring case) are
      left alone; otherwise every record with that number goes. */
  function DeleteSpec(table: seq<EmployeeRecord>, emp: Option<Employee>): (rest: seq<EmployeeRecord>)
    ensures emp.None? || EqualsIgnoreCase(ADMIN_USER, emp.value.userName) ==> rest == table
    ensures emp.Some? && !EqualsIgnoreCase(ADMIN_USER, emp.value.userName) ==>
      forall r :: r in rest <==> r in table && r.emp.empNumber != emp.value.empNumber
  {
    if emp.None? || EqualsIgnoreCase(ADMIN_USER, emp.value.userName) then table
    else Without(table, emp.value.empNumber)
  }

  /** changePassword: every record whose username matches `u` ignoring
      case and that has a credentials row gets the new password (NULL
      included); a record without one keeps none, since the update joins
      the credentials table; nothing else changes. */
  function ChangePasswordSpec(table: seq<EmployeeRecord>, u: Option<string>, p: Option<string>): (t: seq<EmployeeRecord>)
    ensures |t| == |table|
    ensures forall i :: 0 <= i < |table| ==> t[i].emp == table[i].emp
    ensures forall i :: 0 <= i < |table| ==>
      t[i].credential == (if u.Some? && EqualsIgnoreCase(table[i].emp.userName, u.value) && table[i].credential.CredentialRow?
        then CredentialRow(p) else table[i].credential)
  {
    seq(|table|, i requires 0 <= i < |table| =>
      if u.Some? && EqualsIgnoreCase(table[i].emp.userName, u.value) && table[i].credential.CredentialRow?
      then table[i].(credential := CredentialRow(p)) else table[i])
  }

  /** verifyUser: false for null credentials or username, for an unknown
      user and for one without a credentials row; otherwise the stored
      password is non-null and equal to the given one. */
  function VerifyUser(table: seq<EmployeeRecord>, c: Option<Credentials>): (ok: bool)
    ensures ok ==> c.Some? && c.value.userName.Some? && c.value.password.Some? && UserExists(table, c.value.userName)
  {
    if c.None? || c.value.userName.None? then false
    else
      var k := FindUser(table, c.value.userName.value);
      if k < |table| then
        assert table[k] in table;
        PasswordMatches(table[k], c.value.password)
      else false
  }

  class EmployeeRepo {
    /** The employees and their credentials. */
    var records: seq<EmployeeRecord>

    predicate Valid()
      reads this
    {
      DirectoryValid(records)
    }

    constructor (seed: seq<EmployeeRecord>)
      requires DirectoryValid(seed)
      ensures Valid() && records == seed
    {
      records := seed;
    }

    /** addEmployee: the stored employee, with its number filled in; None
        where addEmployee throws, with nothing added. */
    method AddEmployee(emp: Employee) returns (added: Option<Employee>)
      requires Valid()
      modifies this
      ensures Valid()
      ensures AddSpec(old(records), emp).Rejected? ==> added.None? && records == old(records)
      ensures AddSpec(old(records), emp).Added? ==>
        added == Some(AddSpec(old(records), emp).emp) && records == AddSpec(old(records), emp).table
    {
      if UserExists(records, Some(emp.userName)) {
        return None;
      }
      if emp.empNumber != 0 && EmpNumberExists(records, emp.empNumber) {
        return None;
      }
      var n := if emp.empNumber == 0 then NextEmpNumber(records) else emp.empNumber;
      var e := emp.(empNumber := n);
      AddPreservesValid(records, emp);
      records := records + [EmployeeRecord(e, CredentialRow(Some(DEFAULT_PASSWORD)))];
      added := Some(e);
    }

    /** deleteEmployee. */
    method DeleteEmployee(emp: Option<Employee>)
      requires Valid()
      modifies this
      ensures Valid()
      ensures records == DeleteSpec(old(records), emp)
    {
      if emp.None? || EqualsIgnoreCase(ADMIN_USER, emp.value.userName) {
        return;
      }
      records := Without(records, emp.value.empNumber);
    }

    /** changePassword. */
    method ChangePassword(u: Option<string>, p: Option<string>)
      requires Valid()
      modifies this
      ensures Valid()
      ensures records == ChangePasswordSpec(old(records), u, p)
    {
      ChangePasswordPreservesValid(records, u, p);
      records := ChangePasswordSpec(records, u, p);
    }

    /** changeMyPassword: the current user's password; false, with nothing
        changed, where changeMyPassword throws for want of a current user. */
    method ChangeMyPassword(me: Option<Employee>, p: Option<string>) returns (ok: bool)
      requires Valid()
      modifies this
      ensures Valid()
      ensures me.None? ==> !ok && records == old(records)
      ensures me.Some? ==> ok && records == ChangePasswordSpec(old(records), Some(me.value.userName), p)
    {
      if me.None? {
        return false;
      }
      ChangePassword(Some(me.value.userName), p);
      ok := true;
    }
  }

  // ---------------------------------------------------------------------
  // What the directory guarantees
  // ---------------------------------------------------------------------

  /** Adding an employee keeps usernames and numbers unique. */
  lemma AddPreservesValid(table: seq<EmployeeRecord>, emp: Employee)
    requires DirectoryValid(table)
    ensures AddSpec(table, emp).Added? ==> DirectoryValid(AddSpec(table, emp).table)
  {
    var r := AddSpec(table, emp);
    if r.Added? {
      var added := EmployeeRecord(r.emp, CredentialRow(Some(DEFAULT_PASSWORD)));
      forall a | a in table
        ensures !EqualsIgnoreCase(a.emp.userName, added.emp.userName) && a.emp.empNumber != added.emp.empNumber
      {
      }
    }
  }

  /** A new employee can be found by its username in any case, and signs
      in with the default password. */
  lemma AddThenFind(table: seq<EmployeeRecord>, emp: Employee, u: string)
    requires DirectoryValid(table) && AddSpec(table, emp).Added?
    requires EqualsIgnoreCase(u, emp.userName)
    ensures GetEmployee(AddSpec(table, emp).table, Some(u)) == Some(AddSpec(table, emp).emp)
    ensures VerifyUser(AddSpec(table, emp).table, Some(Credentials(Some(u), Some(DEFAULT_PASSWORD))))
  {
    var t := AddSpec(table, emp).table;
    forall j | 0 <= j < |table|
      ensures !EqualsIgnoreCase(t[j].emp.userName, u)
    {
      assert t[j] == table[j] && table[j] in table;
      assert !EqualsIgnoreCase(table[j].emp.userName, emp.userName);
    }
    assert EqualsIgnoreCase(t[|table|].emp.userName, u);
    assert FindUser(t, u) == |table|;
  }

  /** A new employee's number is the one given, or when none was given
      (0) one above every number in use. */
  lemma AddNumbering(table: seq<EmployeeRecord>, emp: Employee)
    requires AddSpec(table, emp).Added? && emp.empNumber == 0
    ensures forall r :: r in table ==> r.emp.empNumber < AddSpec(table, emp).emp.empNumber
    ensures table == [] ==> AddSpec(table, emp).emp.empNumber == 1
  {
  }

  /** The `admin` account survives every delete of an employee read from
      the directory. (The check looks at the username of the employee
      passed in, while the delete goes by number.) */
  lemma AdminNeverDeleted(table: seq<EmployeeRecord>, emp: Option<Employee>, r: EmployeeRecord)
    requires DirectoryValid(table)
    requires emp.Some? ==> emp.value in Employees(table)
    requires r in table && EqualsIgnoreCase(ADMIN_USER, r.emp.userName)
    ensures r in DeleteSpec(table, emp)
  {
    if emp.Some? && !EqualsIgnoreCase(ADMIN_USER, emp.value.userName) {
      var i :| 0 <= i < |table| && Employees(table)[i] == emp.value;
      assert table[i] in table && table[i].emp == emp.value;
      assert r.emp.empNumber != emp.value.empNumber;
    }
  }

  /** Deleting keeps the directory valid. */
  lemma DeletePreservesValid(table: seq<EmployeeRecord>, emp: Option<Employee>)
    requires DirectoryValid(table)
    ensures DirectoryValid(DeleteSpec(table, emp))
  {
  }

  /** Changing passwords keeps the directory valid. */
  lemma ChangePasswordPreservesValid(table: seq<EmployeeRecord>, u: Option<string>, p: Option<string>)
    requires DirectoryValid(table)
    ensures DirectoryValid(ChangePasswordSpec(table, u, p))
  {
    var t := ChangePasswordSpec(table, u, p);
    forall a, b | a in t && b in t && (EqualsIgnoreCase(a.emp.userName, b.emp.userName) || a.emp.empNumber == b.emp.empNumber)
      ensures a == b
    {
      var i :| 0 <= i < |t| && t[i] == a;
      var j :| 0 <= j < |t| && t[j] == b;
      assert table[i] in table && table[j] in table;
      assert table[i] == table[j];
    }
  }

  /** verifyUser under unique usernames: the credentials sign in exactly
      when some record's username matches ignoring case and it has a
      credentials row whose password is non-null and equal, case and all. */
  lemma VerifyUserIff(table: seq<EmployeeRecord>, u: string, p: Option<string>)
    requires DirectoryValid(table)
    ensures VerifyUser(table, Some(Credentials(Some(u), p))) <==>
      exists r :: r in table && EqualsIgnoreCase(r.emp.userName, u) && PasswordMatches(r, p)
  {
    var k := FindUser(table, u);
    if exists r :: r in table && EqualsIgnoreCase(r.emp.userName, u) && PasswordMatches(r, p) {
      var r :| r in table && EqualsIgnoreCase(r.emp.userName, u) && PasswordMatches(r, p);
      var i :| 0 <= i < |table| && table[i] == r;
      assert k <= i;
      assert table[k] in table;
    }
    if k < |table| {
      assert table[k] in table;
    }
  }

  /** After a password change the user, who has a credentials row, signs in
      with the new password (in any case of the username), and every other
      user signs in exactly as before. */
  lemma ChangeThenVerify(table: seq<EmployeeRecord>, u: string, p: string, v: string, q: Option<string>)
    requires DirectoryValid(table) && HasCredentialRow(table, u)
    ensures EqualsIgnoreCase(v, u) ==> VerifyUser(ChangePasswordSpec(table, Some(u), Some(p)), Some(Credentials(Some(v), Some(p))))
    ensures !EqualsIgnoreCase(v, u) ==>
      VerifyUser(ChangePasswordSpec(table, Some(u), Some(p)), Some(Credentials(Some(v), q))) ==
      VerifyUser(table, Some(Credentials(Some(v), q)))
  {
    if EqualsIgnoreCase(v, u) {
      ChangedUserVerifies(table, u, p, v);
    } else {
      OtherUserUnaffected(table, u, Some(p), v, q);
    }
  }

  /** The changed user's record now holds the new password. */
  lemma ChangedUserVerifies(table: seq<EmployeeRecord>, u: string, p: string, v: string)
    requires DirectoryValid(table) && HasCredentialRow(table, u) && EqualsIgnoreCase(v, u)
    ensures VerifyUser(ChangePasswordSpec(table, Some(u), Some(p)), Some(Credentials(Some(v), Some(p))))
  {
    var t := ChangePasswordSpec(table, Some(u), Some(p));
    FindUserSameNames(t, table, v);
    var k := FindUser(table, v);
    var r :| r in table && EqualsIgnoreCase(r.emp.userName, u) && r.credential.CredentialRow?;
    var i :| 0 <= i < |table| && table[i] == r;
    assert k <= i;
    assert table[k] in table && table[k] == r;
    assert t[k].credential == CredentialRow(Some(p));
  }

  /** A user whose name differs from the changed one finds the same record
      as before the change. */
  lemma OtherUserUnaffected(table: seq<EmployeeRecord>, u: string, p: Option<string>, v: string, q: Option<string>)
    requires !EqualsIgnoreCase(v, u)
    ensures VerifyUser(ChangePasswordSpec(table, Some(u), p), Some(Credentials(Some(v), q))) ==
      VerifyUser(table, Some(Credentials(Some(v), q)))
  {
    var t := ChangePasswordSpec(table, Some(u), p);
    FindUserSameNames(t, table, v);
    var k := FindUser(table, v);
    if k < |table| {
      assert !EqualsIgnoreCase(table[k].emp.userName, u);
      assert t[k] == table[k];
    }
  }

  /** A user without a credentials row never signs in, and changing that
      user's password changes nothing: the update finds no row to set. */
  lemma NoCredentialRowNoChange(table: seq<EmployeeRecord>, u: string, p: Option<string>, q: Option<string>)
    requires !HasCredentialRow(table, u)
    ensures ChangePasswordSpec(table, Some(u), p) == table
    ensures !VerifyUser(table, Some(Credentials(Some(u), q)))
  {
    var k := FindUser(table, u);
    if k < |table| {
      assert table[k] in table;
    }
  }

  /** Every employee has a credentials row. */
  predicate AllHaveCredentials(table: seq<EmployeeRecord>)
  {
    forall r :: r in table ==> r.credential.CredentialRow?
  }

  /** addEmployee, deleteEmployee and changePassword keep a credentials row
      for every employee, so in a directory that starts with one for each,
      every known user has one. */
  lemma CredentialRowsKept(table: seq<EmployeeRecord>, emp: Employee, gone: Option<Employee>, u: Option<string>, p: Option<string>)
    requires AllHaveCredentials(table)
    ensures AddSpec(table, emp).Added? ==> AllHaveCredentials(AddSpec(table, emp).table)
    ensures AllHaveCredentials(DeleteSpec(table, gone))
    ensures AllHaveCredentials(ChangePasswordSpec(table, u, p))
    ensures u.Some? && UserExists(table, u) ==> HasCredentialRow(table, u.value)
  {
    var t := ChangePasswordSpec(table, u, p);
    forall r | r in t ensures r.credential.CredentialRow? {
      var i :| 0 <= i < |t| && t[i] == r;
      assert table[i] in table;
    }
  }

  /** FindUser depends only on the usernames. */
  lemma {:induction false} FindUserSameNames(a: seq<EmployeeRecord>, b: seq<EmployeeRecord>, u: string)
    requires |a| == |b| && forall i :: 0 <= i < |a| ==> a[i].emp.userName == b[i].emp.userName
    ensures FindUser(a, u) == FindUser(b, u)
  {
    if a != [] && !EqualsIgnoreCase(a[0].emp.userName, u) {
      FindUserSameNames(a[1..], b[1..], u);
    }
  }
}
