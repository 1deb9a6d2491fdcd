/** The sign-in REST resource: login checks the posted credentials and
    issues a token; logout revokes the Bearer token it is shown. The random
    UUID a token is made from is a parameter of login. */
module AuthApi {
  import opened Base
  import opened JavaText
  import opened Entities
  import opened EmployeeDirectory
  import AuthService
  import Access
  import TokenStore

  /** The login payload; either field may be null. */
  datatype LoginRequest = LoginRequest(userName: Option<string>, password: Option<string>)

  /** The login answer: the token and who it was issued to. */
  datatype LoginResponse = LoginResponse(token: string, userName: string, name: string, empNumber: int, admin: bool)

  /** The credentials login checks: the username trimmed, the password as
      typed. */
  function LoginCredentials(request: LoginRequest): Credentials
    requires request.userName.Some?
  {
    Credentials(Some(Trim(request.userName.value)), request.password)
  }

  /** login's decision: 400 for a null request, username or password;
      401 when authentication fails; otherwise the employee signed in. */
  function LoginDecision(table: seq<EmployeeRecord>, request: Option<LoginRequest>): (r: Result<Employee, int>)
    ensures request.None? || request.value.userName.None? || request.value.password.None? ==> r == Err(BAD_REQUEST)
    ensures r.Ok? <==> (request.Some? && request.value.userName.Some? && request.value.password.Some? &&
      VerifyUser(table, Some(LoginCredentials(request.value))))
    ensures (request.Some? && request.value.userName.Some? && request.value.password.Some? && r.Err?) ==> r.error == UNAUTHORIZED
    ensures r.Ok? ==> r.value in Employees(table) && EqualsIgnoreCase(r.value.userName, Trim(request.value.userName.value))
  {
    if request.None? || request.value.userName.None? || request.value.password.None? then Err(BAD_REQUEST)
    else
      match AuthService.Authenticate(table, Some(LoginCredentials(request.value)))
      case None => Err(UNAUTHORIZED)
      case Some(e) => Ok(e)
  }

  /** The answer to a successful login. */
  function ResponseFor(token: string, e: Employee): LoginResponse
  {
    LoginResponse(token, e.userName, e.name, e.empNumber, IsAdmin(e))
  }

  class AuthResource {
    const employees: EmployeeRepo
    const tokenStore: TokenStore.AuthTokenStore

    constructor (employees: EmployeeRepo, tokenStore: TokenStore.AuthTokenStore)
      ensures this.employees == employees && this.tokenStore == tokenStore
    {
      this.employees := employees;
      this.tokenStore := tokenStore;
    }

    /** login: a token is issued only on success, and the answer carries it
        with the employee's username, name, number and admin flag. */
    method Login(request: Option<LoginRequest>, uuid: string) returns (reply: Reply<LoginResponse>)
      modifies tokenStore
      ensures var d := LoginDecision(employees.records, request);
        d.Err? ==> reply == Reply(d.error, None) && tokenStore.tokens == old(tokenStore.tokens)
      ensures var d := LoginDecision(employees.records, request);
        d.Ok? ==> (reply == Reply(OK, Some(ResponseFor(uuid, d.value))) &&
          tokenStore.tokens == TokenStore.Issue(old(tokenStore.tokens), uuid, d.value))
    {
      if request.None? || request.value.userName.None? || request.value.password.None? {
        return Reply(BAD_REQUEST, None);
      }
      var cred := LoginCredentials(request.value);
      var emp := AuthService.Authenticate(employees.records, Some(cred));
      if emp.None? {
        return Reply(UNAUTHORIZED, None);
      }
      var token := tokenStore.IssueToken(emp.value, uuid);
      reply := Reply(OK, Some(ResponseFor(token, emp.value)));
    }

    /** logout: 401 without a Bearer header; otherwise the token is revoked,
        known or not, and the answer is 200. */
    method Logout(header: Option<string>) returns (status: int)
      modifies tokenStore
      ensures Access.BearerToken(header).None? ==> status == UNAUTHORIZED && tokenStore.tokens == old(tokenStore.tokens)
      ensures Access.BearerToken(header).Some? ==>
        status == OK && tokenStore.tokens == TokenStore.Revoke(old(tokenStore.tokens), Access.BearerToken(header))
    {
      if header.None? || !StartsWith(header.value, Access.BEARER) {
        return UNAUTHORIZED;
      }
      var token := Trim(header.value[|Access.BEARER|..]);
      tokenStore.RevokeToken(Some(token));
      status := OK;
    }
  }

  /** Login succeeds exactly for a stored username (any case, surrounding
      whitespace ignored) with its stored, non-null password, and signs in
      that record's employee. */
  lemma LoginIff(table: seq<EmployeeRecord>, u: string, p: string, e: Employee)
    requires DirectoryValid(table)
    ensures LoginDecision(table, Some(LoginRequest(Some(u), Some(p)))) == Ok(e) <==>
      exists r :: r in table && r.emp == e && EqualsIgnoreCase(e.userName, Trim(u)) && PasswordMatches(r, Some(p))
  {
    AuthService.AuthenticateIff(table, Trim(u), Some(p), e);
  }

  /** The token a login issues authorizes the employee who signed in. */
  lemma LoginThenAuthorized(table: seq<EmployeeRecord>, tokens: map<string, Employee>, request: Option<LoginRequest>, uuid: string)
    requires LoginDecision(table, request).Ok? && Trim(uuid) == uuid
    ensures Access.Authorize(Some(Access.BEARER + uuid), TokenStore.Issue(tokens, uuid, LoginDecision(table, request).value)) ==
      Ok(LoginDecision(table, request).value)
  {
    Access.IssuedTokenAuthorizes(tokens, uuid, LoginDecision(table, request).value);
  }

  /** After logout the same header is refused, while every other token
      still resolves as before. */
  lemma LogoutThenRejected(tokens: map<string, Employee>, t: string, other: string)
    requires Trim(t) == t && other != t
    ensures Access.Authorize(Some(Access.BEARER + t), TokenStore.Revoke(tokens, Access.BearerToken(Some(Access.BEARER + t)))) ==
      Err(UNAUTHORIZED)
    ensures TokenStore.Resolve(TokenStore.Revoke(tokens, Access.BearerToken(Some(Access.BEARER + t))), Some(other)) ==
      TokenStore.Resolve(tokens, Some(other))
  {
    Access.BearerRoundTrip(t);
    Access.RevokedTokenRejected(tokens, t);
  }
}
