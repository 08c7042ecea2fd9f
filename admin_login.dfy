/** The admin login endpoint (`POST /api/admin/login`): compares the posted
    password with ADMIN_PASSWORD and, on a match, sets the `admin_session`
    cookie to ADMIN_TOKEN (the token, never the password). */
module AdminLogin {
  import opened Wrappers
  import opened Strings
  import opened Http
  import AdminJobs
  import Middleware

  datatype SameSite = Lax | Strict | NoRestriction

  /** The cookie set by `response.cookies.set`. */
  datatype Cookie = Cookie(
    name: string,
    value: string,
    httpOnly: bool,
    sameSite: SameSite,
    secure: bool,
    path: string,
    maxAge: int)

  /** The JSON body: `{ password?: string }`. */
  datatype LoginPayload = LoginPayload(password: Option<string>)

  datatype LoginResult = LoginResult(response: Response, cookie: Option<Cookie>)

  /** Eight hours, in seconds. */
  const SessionMaxAge: int := 60 * 60 * 8

  predicate LoginConfigured(env: Env) {
    Truthy(env.adminPassword) && Truthy(env.adminToken)
  }

  /** The session cookie issued on a successful login. */
  function SessionCookie(env: Env): (c: Cookie)
    requires LoginConfigured(env)
    ensures c.name == "admin_session" && c.value == env.adminToken.value
    ensures c.httpOnly && c.sameSite == Lax && c.path == "/" && c.maxAge == 28800
    ensures c.secure <==> env.nodeEnv == Some("production")
  {
    Cookie("admin_session", env.adminToken.value, true, Lax, env.nodeEnv == Some("production"), "/", SessionMaxAge)
  }

  /** `POST`: 500 without both secrets (before the body is read), 400 for an
      unreadable body, 401 unless the password is present, non-empty and
      exactly ADMIN_PASSWORD, else `{ ok: true }` and the cookie. */
  function Login(env: Env, payload: Option<LoginPayload>): (r: LoginResult)
    ensures !LoginConfigured(env) ==> r == LoginResult(Failure(500, "Admin login is not configured."), None)
    ensures LoginConfigured(env) && payload.None? ==> r == LoginResult(Failure(400, "Invalid request."), None)
    ensures r.cookie.Some? <==>
              LoginConfigured(env) && payload.Some? && Truthy(payload.value.password)
              && payload.value.password == env.adminPassword
    ensures LoginConfigured(env) && payload.Some? && r.cookie.None? ==>
              r.response == Failure(401, "Invalid password.")
    ensures r.cookie.Some? ==> r.response == Success(Ok(true)) && r.cookie.value == SessionCookie(env)
  {
    if !LoginConfigured(env) then LoginResult(Failure(500, "Admin login is not configured."), None)
    else if payload.None? then LoginResult(Failure(400, "Invalid request."), None)
    else if !Truthy(payload.value.password) || payload.value.password != env.adminPassword then
      LoginResult(Failure(401, "Invalid password."), None)
    else LoginResult(Success(Ok(true)), Some(SessionCookie(env)))
  }

  /** The cookie a successful login issues opens both gates, the job API's
      `requireAdmin` and the `/admin` page middleware, for as long as
      ADMIN_TOKEN is unchanged. */
  lemma LoginOpensGates(env: Env, payload: Option<LoginPayload>, pathname: string)
    requires Login(env, payload).cookie.Some?
    ensures var c := Login(env, payload).cookie.value;
            && AdminJobs.RequireAdmin(env.adminToken, Some(c.value)).None?
            && Middleware.Gate(pathname, Some(c.value), env.adminToken) == Middleware.Next
  {
  }

  /** No cookie value other than ADMIN_TOKEN itself is accepted, the empty
      string included; knowing the password alone opens nothing. */
  lemma OnlyTheTokenOpens(env: Env, session: string, pathname: string)
    requires Middleware.StartsWith(pathname, "/admin") && pathname != Middleware.LoginPath
    requires AdminJobs.RequireAdmin(env.adminToken, Some(session)).None?
             || Middleware.Gate(pathname, Some(session), env.adminToken) == Middleware.Next
    ensures Truthy(env.adminToken) && session == env.adminToken.value && session != ""
  {
  }
}
