/** Login, logout, validation and the sliding refresh of the access token
    kept in a cookie. Signing and encoding tokens is left to the library;
    a token here is the identity it carries and its expiry time. Time is in
    integer seconds. */
module Auth {
  import opened Wrappers
  import opened Http
  import opened Db

  /** A token due to expire within this many seconds is replaced. */
  const REFRESH_WINDOW := 15 * 60
  /** Lifetime of a login token with and without "remember me". */
  const REMEMBER_LIFETIME := 7 * 24 * 60 * 60
  const SESSION_LIFETIME := 60 * 60

  datatype Token = Token(identity: int, exp: int)

  /** What a response does to the access-token cookie. */
  datatype CookieChange = Untouched | SetAccess(token: Token) | Cleared

  /** A response under construction: status, the `success` field of its
      JSON body (None for a body without one) and its cookie header. */
  class Response {
    var status: int
    var success: Option<bool>
    var cookie: CookieChange

    constructor (status: int, success: Option<bool>)
      ensures this.status == status && this.success == success && cookie == Untouched
    {
      this.status := status;
      this.success := success;
      cookie := Untouched;
    }
  }

  /** The replacement token, if any, for the token the request carried
      (`None` when it carried no valid token). */
  function Refreshed(jwt: Option<Token>, now: int, lifetime: int): (r: Option<Token>)
    ensures r.Some? <==> jwt.Some? && jwt.value.exp - now < REFRESH_WINDOW
    ensures r.Some? ==> r.value.identity == jwt.value.identity && r.value.exp == now + lifetime
  {
    if jwt.Some? && now + REFRESH_WINDOW > jwt.value.exp then Some(Token(jwt.value.identity, now + lifetime)) else None
  }

  /** A token that is refreshed now is refreshed at any later time too. */
  lemma RefreshMonotone(t: Token, now: int, later: int, lifetime: int)
    requires now <= later
    requires Refreshed(Some(t), now, lifetime).Some?
    ensures Refreshed(Some(t), later, lifetime).Some?
  {
  }

  /** A token just issued with a lifetime longer than the window is not
      refreshed again until it is within the window of its expiry. */
  lemma FreshTokenStable(id: int, issued: int, now: int, lifetime: int)
    requires REFRESH_WINDOW < lifetime
    requires issued <= now < issued + lifetime - REFRESH_WINDOW
    ensures Refreshed(Some(Token(id, issued + lifetime)), now, lifetime).None?
  {
  }

  /** The after-request hook: set a new cookie when the token is close to
      expiry; otherwise, or without a valid token, leave the response
      alone. `lifetime` is the configured default token lifetime. */
  method RefreshExpiringJwts(response: Response, jwt: Option<Token>, now: int, lifetime: int)
    modifies response
    ensures response.status == old(response.status) && response.success == old(response.success)
    ensures Refreshed(jwt, now, lifetime).Some? ==> response.cookie == SetAccess(Refreshed(jwt, now, lifetime).value)
    ensures Refreshed(jwt, now, lifetime).None? ==> response.cookie == old(response.cookie)
  {
    var r := Refreshed(jwt, now, lifetime);
    if r.Some? {
      response.cookie := SetAccess(r.value);
    }
  }

  datatype LoginBody = LoginBody(email: Option<string>, password: Option<string>, remember: Option<bool>)

  /** How a login attempt ends: an unhandled KeyError (500), a refusal
      (401) or a token for the user. */
  datatype LoginOutcome = Crash | Refused | Granted(token: Token)

  function Lifetime(remember: bool): (r: int)
    ensures r == (if remember then 7 * 24 * 3600 else 3600)
    ensures r > REFRESH_WINDOW
  {
    if remember then REMEMBER_LIFETIME else SESSION_LIFETIME
  }

  /** The login decision: the first user with the email must exist and the
      password must verify against its stored hash. The keys are read
      lazily, so a missing `password` matters only for a known email and a
      missing `remember` only after the password verified. */
  function LoginDecision(users: Table<User>, body: LoginBody, now: int): (r: LoginOutcome)
    requires users.Valid()
    ensures body.email.None? ==> r.Crash?
    ensures body.email.Some? && users.First((u: User) => u.email == body.email.value).None? ==> r.Refused?
    ensures r.Granted? <==>
      (body.email.Some? && body.password.Some? && body.remember.Some?
       && var found := users.First((u: User) => u.email == body.email.value);
       found.Some? && Verifies(found.value.1.password, body.password.value))
    ensures r.Granted? ==>
      var id := r.token.identity;
      id in users.rows && users.rows[id].email == body.email.value
      && Verifies(users.rows[id].password, body.password.value)
      && (forall j :: j in users.rows && users.rows[j].email == body.email.value ==> id <= j)
      && r.token.exp == now + Lifetime(body.remember.value)
  {
    if body.email.None? then Crash
    else
      var found := users.First((u: User) => u.email == body.email.value);
      users.FirstIsLeast((u: User) => u.email == body.email.value);
      if found.None? then Refused
      else if body.password.None? then Crash
      else if !Verifies(found.value.1.password, body.password.value) then Refused
      else if body.remember.None? then Crash
      else Granted(Token(found.value.0, now + Lifetime(body.remember.value)))
  }

  /** Login succeeds only with the password the user it finds registered
      with: the first user with the email, whatever the other users hold. */
  lemma LoginNeedsRegisteredPassword(users: Table<User>, body: LoginBody, now: int, salt: int, registered: string)
    requires users.Valid()
    requires body.email.Some?
    requires var found := users.First((u: User) => u.email == body.email.value);
      found.Some? && found.value.1.password == HashPassword(registered, salt)
    ensures LoginDecision(users, body, now).Granted? <==>
      body.password == Some(registered) && body.remember.Some?
  {
    var found := users.First((u: User) => u.email == body.email.value);
    if body.password.Some? {
      VerifiesOnlyHashedPassword(registered, body.password.value, salt);
    }
  }

  /** The login endpoint: 200 with `success` true and the token cookie, 401
      with `success` false, or 500 for a missing key. */
  method Login(db: Store, body: LoginBody, now: int) returns (response: Response)
    requires db.Valid()
    ensures fresh(response)
    ensures LoginDecision(db.users, body, now).Crash? ==> response.status == SERVER_ERROR && response.cookie == Untouched
    ensures LoginDecision(db.users, body, now).Refused? ==>
      response.status == UNAUTHORIZED && response.success == Some(false) && response.cookie == Untouched
    ensures LoginDecision(db.users, body, now).Granted? ==>
      response.status == OK && response.success == Some(true)
      && response.cookie == SetAccess(LoginDecision(db.users, body, now).token)
  {
    var outcome := LoginDecision(db.users, body, now);
    match outcome {
      case Crash =>
        response := new Response(SERVER_ERROR, None);
      case Refused =>
        response := new Response(UNAUTHORIZED, Some(false));
      case Granted(token) =>
        response := new Response(OK, Some(true));
        response.cookie := SetAccess(token);
    }
  }

  /** Logout always answers 200 and clears the token cookies. */
  method Logout() returns (response: Response)
    ensures fresh(response)
    ensures response.status == OK && response.success == Some(true) && response.cookie == Cleared
  {
    response := new Response(OK, Some(true));
    response.cookie := Cleared;
  }

  /** For an authenticated caller validation answers 200 with `success`
      false; without a token the route's guard answers 401 first. */
  method Validate(jwt: Option<Token>) returns (response: Response)
    ensures fresh(response)
    ensures jwt.None? ==> response.status == UNAUTHORIZED
    ensures jwt.Some? ==> response.status == OK && response.success == Some(false)
    ensures response.cookie == Untouched
  {
    if jwt.None? {
      response := new Response(UNAUTHORIZED, None);
    } else {
      response := new Response(OK, Some(false));
    }
  }
}
