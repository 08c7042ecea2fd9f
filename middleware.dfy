/** The `/admin` page gate (`middleware`): a request whose path starts with
    `/admin`, other than the login page itself, goes through only with an
    `admin_session` cookie equal to ADMIN_TOKEN; otherwise it is redirected
    to the login page. */
module Middleware {
  import opened Wrappers
  import opened Strings

  datatype Outcome = Next | Redirect(pathname: string)

  const LoginPath: string := "/admin/login"

  predicate StartsWith(s: string, prefix: string) {
    |prefix| <= |s| && s[..|prefix|] == prefix
  }

  /** `middleware`: the raw string-prefix check on the pathname. */
  function Gate(pathname: string, session: Option<string>, token: Option<string>): (r: Outcome)
    ensures !StartsWith(pathname, "/admin") ==> r == Next
    ensures pathname == LoginPath ==> r == Next
    ensures StartsWith(pathname, "/admin") && pathname != LoginPath ==>
              (r == Next <==> Truthy(session) && Truthy(token) && session == token)
    ensures r.Redirect? ==> r.pathname == LoginPath
  {
    if StartsWith(pathname, "/admin") && pathname != LoginPath then
      if !Truthy(session) || !Truthy(token) || session != token then Redirect(LoginPath) else Next
    else Next
  }

  /** The redirect target is exempt, so following a redirect never
      redirects again, whatever the cookie. */
  lemma NoRedirectLoop(pathname: string, session: Option<string>, token: Option<string>, session': Option<string>)
    ensures Gate(pathname, session, token).Redirect? ==>
              Gate(Gate(pathname, session, token).pathname, session', token) == Next
  {
  }

  /** `config.matcher` `/admin/:path*`: the paths the gate is run on at all. */
  predicate MatcherApplies(pathname: string) {
    pathname == "/admin" || StartsWith(pathname, "/admin/")
  }

  /** What a request meets: the gate where the matcher applies, otherwise
      nothing. */
  function Route(pathname: string, session: Option<string>, token: Option<string>): (r: Outcome)
    ensures !MatcherApplies(pathname) ==> r == Next
    ensures MatcherApplies(pathname) ==> r == Gate(pathname, session, token)
  {
    if MatcherApplies(pathname) then Gate(pathname, session, token) else Next
  }

  /** Every path the matcher selects also passes the gate's own prefix test,
      so under the matcher the gate guards exactly the matched paths other
      than the login page. */
  lemma MatchedPathsArePrefixed(pathname: string)
    requires MatcherApplies(pathname)
    ensures StartsWith(pathname, "/admin")
  {
    if pathname != "/admin" {
      assert pathname[..6] == pathname[..7][..6];
    }
  }

  /** The gate alone guards `/administrator` (a raw prefix match), but the
      matcher never sends that path to it. */
  lemma AdministratorPath(token: Option<string>)
    ensures Gate("/administrator", None, token) == Redirect(LoginPath)
    ensures Route("/administrator", None, token) == Next
  {
    assert "/administrator"[..6] == "/admin";
    assert "/administrator"[6] == 'i';
    assert "/admin/"[6] == '/';
    assert "/administrator"[..7] != "/admin/" by {
      assert "/administrator"[..7][6] != "/admin/"[6];
    }
  }
}
