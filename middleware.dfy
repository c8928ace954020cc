/**
 * The route gate run before every page request (src/middleware.ts).
 *
 * Given the request's pathname and whether the refreshed session carries a
 * user, the gate lets the request through, sends a logged-in user away from
 * the login/sign-up pages to onboarding, or sends an anonymous user to the
 * login page with `redirectTo` set to the page asked for.  The session refresh
 * itself (cookie handling) is an input: only its user/no-user outcome is used.
 */
module RouteGate {

  import opened Strings

  /** The three outcomes of the gate. */
  datatype Decision =
    | Pass                               // the refreshed response, unchanged
    | RedirectOnboarding                 // redirect to /onboarding
    | RedirectLogin(redirectTo: string)  // redirect to /login?redirectTo=<pathname>

  /** The `PUBLIC_ROUTES` list, in source order. */
  const PublicRoutes: seq<string> := ["/login", "/signup", "/", "/auth"]

  /**
   * `routes.some(route => pathname === route || pathname.startsWith('/auth'))`:
   * the second disjunct does not mention `route`, as in the source.
   */
  predicate SomeRouteMatches(routes: seq<string>, pathname: string)
    ensures pathname in routes ==> SomeRouteMatches(routes, pathname)
    ensures routes != [] && StartsWith(pathname, "/auth") ==> SomeRouteMatches(routes, pathname)
  {
    if routes == [] then false
    else (pathname == routes[0] || StartsWith(pathname, "/auth"))
         || SomeRouteMatches(routes[1..], pathname)
  }

  predicate IsPublic(pathname: string)
    ensures pathname in PublicRoutes ==> IsPublic(pathname)
    ensures StartsWith(pathname, "/auth") ==> IsPublic(pathname)
  {
    SomeRouteMatches(PublicRoutes, pathname)
  }

  /** The gate itself; `loggedIn` is the user/no-user outcome of the session refresh. */
  function Gate(pathname: string, loggedIn: bool): (d: Decision)
    ensures d.RedirectLogin? ==> !loggedIn && d.redirectTo == pathname && !IsPublic(pathname)
    ensures d.RedirectOnboarding? ==> loggedIn && IsPublic(pathname)
  {
    if IsPublic(pathname) then
      if loggedIn && (pathname == "/login" || pathname == "/signup") then RedirectOnboarding
      else Pass
    else if !loggedIn then RedirectLogin(pathname)
    else Pass
  }

  /**
   * The `some` test over a non-empty route list: the path equals one of the
   * routes, or (whatever the route) starts with "/auth".
   */
  lemma {:induction false} SomeRouteMatchesIff(routes: seq<string>, pathname: string)
    ensures SomeRouteMatches(routes, pathname)
        <==> pathname in routes || (routes != [] && StartsWith(pathname, "/auth"))
  {
    if routes != [] {
      SomeRouteMatchesIff(routes[1..], pathname);
      assert routes == [routes[0]] + routes[1..];
    }
  }

  /** A path is public iff it is one of the four listed routes or starts with "/auth". */
  lemma PublicIff(pathname: string)
    ensures IsPublic(pathname)
        <==> pathname in {"/login", "/signup", "/", "/auth"} || StartsWith(pathname, "/auth")
  {
    SomeRouteMatchesIff(PublicRoutes, pathname);
  }

  /** Because the prefix test ignores the list element, "/authors" is public. */
  lemma AuthorsIsPublic()
    ensures IsPublic("/authors")
    ensures Gate("/authors", false) == Pass
  {
    PublicIff("/authors");
  }

  /** A logged-in user is sent to onboarding exactly from /login and /signup. */
  lemma OnboardingRedirectIff(pathname: string, loggedIn: bool)
    ensures Gate(pathname, loggedIn) == RedirectOnboarding
        <==> loggedIn && (pathname == "/login" || pathname == "/signup")
  {
    PublicIff(pathname);
  }

  /** Every other request of a logged-in user passes, whether the path is public or not. */
  lemma LoggedInOtherwisePasses(pathname: string)
    requires pathname != "/login" && pathname != "/signup"
    ensures Gate(pathname, true) == Pass
  {
  }

  /**
   * An anonymous user is redirected to login, with the original pathname as
   * `redirectTo`, exactly on the non-public paths; on a public path an
   * anonymous user is never redirected.
   */
  lemma AnonymousIff(pathname: string)
    ensures Gate(pathname, false) == RedirectLogin(pathname)
        <==> !(pathname in {"/login", "/signup", "/", "/auth"} || StartsWith(pathname, "/auth"))
    ensures Gate(pathname, false) == Pass || Gate(pathname, false) == RedirectLogin(pathname)
  {
    PublicIff(pathname);
  }

  /** A redirect to login always carries the requested path, and only anonymous users get one. */
  lemma LoginRedirectCarriesPath(pathname: string, loggedIn: bool, target: string)
    requires Gate(pathname, loggedIn) == RedirectLogin(target)
    ensures !loggedIn && target == pathname
  {
  }
}
