/**
 * middleware.ts: the route guard run before every matched request. The
 * signed-in user that `getUser()` reads from the session cookie is an input;
 * only whether there is one matters.
 */
module Middleware {
  import opened Wrappers

  /** The routes reachable without a session (middleware.ts:9). */
  const PublicRoutes: seq<string> := ["/login", "/register"]
  const LoginPath := "/login"
  const HomePath := "/"

  /** What the middleware answers: `NextResponse.redirect(location)` or `NextResponse.next()`. */
  datatype Decision = Redirect(location: string) | Next

  /** `publicRoutes.includes(pathname)`: exact string equality against each entry. */
  predicate IsPublic(pathname: string): (public: bool)
    ensures public <==> pathname == LoginPath || pathname == "/register"
    ensures public ==> pathname != HomePath
  {
    pathname in PublicRoutes
  }

  /** The guard of middleware.ts:12-21, for a user id from the session (`None` when signed out). */
  function Decide<User>(user: Option<User>, pathname: string): (decision: Decision)
    ensures decision.Next? <==> (user.Some? <==> !IsPublic(pathname))
    ensures user.None? && decision.Redirect? ==> decision.location == LoginPath
    ensures user.Some? && decision.Redirect? ==> decision.location == HomePath
  {
    if user.None? && !IsPublic(pathname) then Redirect(LoginPath)
    else if user.Some? && IsPublic(pathname) then Redirect(HomePath)
    else Next
  }

  /** Following the redirect never redirects again for the same user: there is no redirect loop. */
  lemma NoRedirectLoop<User>(user: Option<User>, pathname: string)
    requires Decide(user, pathname).Redirect?
    ensures Decide(user, Decide(user, pathname).location) == Next
  {
    assert IsPublic(LoginPath);
    assert HomePath != PublicRoutes[0] && HomePath != PublicRoutes[1];
  }

  /** A signed-out visitor is sent to the login page from any page but the two public ones. */
  lemma SignedOutOnlyReachesPublic<User>(pathname: string)
    ensures Decide<User>(None, pathname) == Next <==> pathname == "/login" || pathname == "/register"
  {
  }

  /** Membership is exact: "/login/" and "/LOGIN" are not public, so a signed-out visitor there is redirected. */
  lemma NearMissesAreNotPublic<User>()
    ensures Decide<User>(None, "/login/") == Redirect(LoginPath)
    ensures Decide<User>(None, "/LOGIN") == Redirect(LoginPath)
    ensures !IsPublic("/login?next=/")
  {
    assert "/login/" != PublicRoutes[0] && "/login/" != PublicRoutes[1];
    assert "/LOGIN" != PublicRoutes[0] && "/LOGIN" != PublicRoutes[1];
    assert "/login?next=/" != PublicRoutes[0] && "/login?next=/" != PublicRoutes[1];
  }

  /** A signed-in user is kept off the login and register pages and passes everywhere else. */
  lemma SignedInDecision<User>(user: User, pathname: string)
    ensures Decide(Some(user), pathname) == if IsPublic(pathname) then Redirect(HomePath) else Next
  {
  }
}
