/** The change-password form of the web UI: three typed fields checked in
    a fixed order before the current password is verified and the new one
    stored. The signed-in user is a parameter; a missing one is where
    `ChangePasswordBean.changePassword` fails with a null dereference. */
module ChangePassword {
  import opened Base
  import opened JavaText
  import opened Entities
  import opened EmployeeDirectory

  /** The shortest new password accepted. */
  const MIN_LENGTH := 6

  /** Why the form stays on the page. */
  datatype Problem = MissingFields | Mismatch | TooShort | IncorrectPassword

  /** The navigation result: stay with a message, go to "userHome", or
      fail for want of a signed-in user. */
  datatype PasswordOutcome = Stay(problem: Problem) | UserHome | NoCurrentUser

  /** The credentials the form checks: the signed-in user's username and
      the typed current password. */
  function FormCredentials(me: Employee, currentPw: Option<string>): Credentials
  {
    Credentials(Some(me.userName), currentPw)
  }

  /** changePassword: blank fields, then a confirmation that differs, then
      a new password under six UTF-16 code units, then a wrong current password,
      each keeps the page and changes nothing; otherwise the signed-in
      user's password becomes the new one and the form goes home. */
  function PasswordSpec(table: seq<EmployeeRecord>, me: Option<Employee>, currentPw: Option<string>, newPw: Option<string>, confirmPw: Option<string>): (o: (PasswordOutcome, seq<EmployeeRecord>))
    ensures o.0 != UserHome ==> o.1 == table
    ensures IsNullOrBlank(currentPw) || IsNullOrBlank(newPw) || IsNullOrBlank(confirmPw) ==> o.0 == Stay(MissingFields)
    ensures o.0 == Stay(Mismatch) <==>
      !IsNullOrBlank(currentPw) && !IsNullOrBlank(newPw) && !IsNullOrBlank(confirmPw) && newPw != confirmPw
    ensures o.0 == Stay(TooShort) <==>
      !IsNullOrBlank(currentPw) && !IsNullOrBlank(newPw) && newPw == confirmPw && Utf16Length(newPw.value) < MIN_LENGTH
    ensures o.0 == UserHome <==>
      !IsNullOrBlank(currentPw) && !IsNullOrBlank(newPw) && newPw == confirmPw && Utf16Length(newPw.value) >= MIN_LENGTH &&
      me.Some? && VerifyUser(table, Some(FormCredentials(me.value, currentPw)))
    ensures o.0 == UserHome ==> o.1 == ChangePasswordSpec(table, Some(me.value.userName), newPw)
  {
    if IsNullOrBlank(currentPw) || IsNullOrBlank(newPw) || IsNullOrBlank(confirmPw) then (Stay(MissingFields), table)
    else if newPw != confirmPw then (Stay(Mismatch), table)
    else if Utf16Length(newPw.value) < MIN_LENGTH then (Stay(TooShort), table)
    else if me.None? then (NoCurrentUser, table)
    else if !VerifyUser(table, Some(FormCredentials(me.value, currentPw))) then (Stay(IncorrectPassword), table)
    else (UserHome, ChangePasswordSpec(table, Some(me.value.userName), newPw))
  }

  class ChangePasswordBean {
    const employees: EmployeeRepo
    /** The three fields of the form, as bound by the page. */
    var currentPw: Option<string>
    var newPw: Option<string>
    var confirmPw: Option<string>

    predicate Valid()
      reads this, employees
    {
      employees.Valid()
    }

    constructor (employees: EmployeeRepo)
      requires employees.Valid()
      ensures Valid() && this.employees == employees
      ensures currentPw.None? && newPw.None? && confirmPw.None?
    {
      this.employees := employees;
      currentPw := None;
      newPw := None;
      confirmPw := None;
    }

    /** changePassword. */
    method ChangePassword(me: Option<Employee>) returns (outcome: PasswordOutcome)
      requires Valid()
      modifies employees
      ensures Valid()
      ensures (outcome, employees.records) == PasswordSpec(old(employees.records), me, currentPw, newPw, confirmPw)
    {
      if IsNullOrBlank(currentPw) || IsNullOrBlank(newPw) || IsNullOrBlank(confirmPw) {
        return Stay(MissingFields);
      }
      if newPw != confirmPw {
        return Stay(Mismatch);
      }
      if Utf16Length(newPw.value) < MIN_LENGTH {
        return Stay(TooShort);
      }
      if me.None? {
        return NoCurrentUser;
      }
      var cred := FormCredentials(me.value, currentPw);
      var ok := VerifyUser(employees.records, Some(cred));
      if !ok {
        return Stay(IncorrectPassword);
      }
      employees.ChangePassword(cred.userName, newPw);
      outcome := UserHome;
    }
  }

  /** After a successful change the user signs in with the new password
      and no longer with the old one, unless the two are equal. */
  lemma ChangedPasswordSignsIn(table: seq<EmployeeRecord>, me: Employee, currentPw: Option<string>, newPw: Option<string>, confirmPw: Option<string>)
    requires DirectoryValid(table)
    requires PasswordSpec(table, Some(me), currentPw, newPw, confirmPw).0 == UserHome
    ensures var t := PasswordSpec(table, Some(me), currentPw, newPw, confirmPw).1;
      VerifyUser(t, Some(FormCredentials(me, newPw))) &&
      (VerifyUser(t, Some(FormCredentials(me, currentPw))) <==> currentPw == newPw)
  {
    var k := FindUser(table, me.userName);
    assert table[k] in table;
    ChangeThenVerify(table, me.userName, newPw.value, me.userName, None);
    var t := ChangePasswordSpec(table, Some(me.userName), newPw);
    FindUserSameNames(t, table, me.userName);
  }
}
