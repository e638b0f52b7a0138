/** The dashboard's route guard: which page a browser request is redirected to,
    given its path and the value of the `bythewise_auth_token` cookie. */
module RouteGuard {
  import opened Common

  datatype Decision = Redirect(location: string) | Next

  /** `publicRoutes`: the guard computes membership in it but never uses it. */
  const PublicRoutes: seq<string> := ["/", "/login", "/register"]

  predicate IsPublicRoute(pathname: string)
  {
    pathname in PublicRoutes
  }

  /** `middleware(request)`: `token` is the cookie's value, None when there is
      no such cookie; an empty value counts as no token. */
  function Middleware(pathname: string, token: Option<string>): Decision
  {
    if StartsWith(pathname, "/dashboard") && !Truthy(token) then Redirect("/login")
    else if Truthy(token) && (pathname == "/login" || pathname == "/register") then Redirect("/dashboard")
    else Next
  }

  /** The two redirects and their conditions, which exclude each other: one
      needs a token and the other needs its absence. Everything else passes. */
  lemma MiddlewareDecides(pathname: string, token: Option<string>)
    ensures Middleware(pathname, token) == Redirect("/login") <==>
              StartsWith(pathname, "/dashboard") && !Truthy(token)
    ensures Middleware(pathname, token) == Redirect("/dashboard") <==>
              Truthy(token) && (pathname == "/login" || pathname == "/register")
    ensures Middleware(pathname, token) == Next <==>
              !(StartsWith(pathname, "/dashboard") && !Truthy(token))
              && !(Truthy(token) && (pathname == "/login" || pathname == "/register"))
  {
  }

  /** An empty cookie value is no token at all. */
  lemma EmptyCookieIsNoToken(pathname: string)
    ensures Middleware(pathname, Some("")) == Middleware(pathname, None)
  {
  }

  /** A public page is never sent to the login page. */
  lemma PublicRouteNeverSentToLogin(pathname: string, token: Option<string>)
    requires IsPublicRoute(pathname)
    ensures Middleware(pathname, token) != Redirect("/login")
  {
    assert !StartsWith(pathname, "/dashboard") by {
      assert pathname == "/" || pathname == "/login" || pathname == "/register";
    }
  }

  // ---------------------------------------------------------------------------
  // `config.matcher`: the paths the guard runs on
  // ---------------------------------------------------------------------------

  /** The matcher's negative lookahead after the leading '/': the
      unescaped '.' in `favicon.ico` matches any character. */
  predicate ExcludedTail(rest: string)
  {
    || StartsWith(rest, "api")
    || StartsWith(rest, "_next/static")
    || StartsWith(rest, "_next/image")
    || (|rest| >= 11 && rest[..7] == "favicon" && rest[8..11] == "ico")
  }

  /** A tail that starts with none of 'a', '_' and 'f' is not excluded. */
  lemma NotExcludedByFirstChar(rest: string)
    requires |rest| > 0 && rest[0] != 'a' && rest[0] != '_' && rest[0] != 'f'
    ensures !ExcludedTail(rest)
  {
    if |rest| >= 3 {
      assert rest[..3][0] == rest[0];
    }
    if |rest| >= 11 {
      assert rest[..7][0] == rest[0];
      assert rest[..11][0] == rest[0];
    }
    if |rest| >= 12 {
      assert rest[..12][0] == rest[0];
    }
  }

  /** The guard runs on a path that starts with '/' and whose tail is not excluded. */
  predicate GuardRuns(pathname: string)
  {
    |pathname| >= 1 && pathname[0] == '/' && !ExcludedTail(pathname[1..])
  }

  /** What the browser gets for a request: the guard's decision on the paths
      it runs on, and the page itself elsewhere. */
  function Route(pathname: string, token: Option<string>): Decision
  {
    if GuardRuns(pathname) then Middleware(pathname, token) else Next
  }

  /** API calls, build assets and the icon are never redirected: a path whose
      tail after '/' starts with an excluded prefix passes, whatever follows. */
  lemma ExcludedPathsPassThrough(tail: string, rest: string, token: Option<string>)
    requires ExcludedTail(tail)
    ensures Route("/" + tail + rest, token) == Next
  {
    var t := tail + rest;
    assert ("/" + tail + rest)[1..] == t;
    if |tail| >= 3 {
      assert t[..3] == tail[..3];
    }
    if |tail| >= 11 {
      assert t[..7] == tail[..7] && t[8..11] == tail[8..11] && t[..11] == tail[..11];
    }
    if |tail| >= 12 {
      assert t[..12] == tail[..12];
    }
  }

  /** The dashboard pages are guarded: without a token they lead to the login page. */
  lemma DashboardNeedsToken(rest: string)
    ensures Route("/dashboard" + rest, None) == Redirect("/login")
  {
    var p := "/dashboard" + rest;
    assert p[..10] == "/dashboard";
    NotExcludedByFirstChar(p[1..]);
  }

  /** No redirect loop: following a redirect with the same cookie lands on a
      page that is let through. */
  lemma NoRedirectLoop(pathname: string, token: Option<string>)
    requires Route(pathname, token).Redirect?
    ensures Route(Route(pathname, token).location, token) == Next
  {
    var location := Route(pathname, token).location;
    NotExcludedByFirstChar(location[1..]);
    if location == "/dashboard" {
      assert location[..10] == "/dashboard";
    }
  }
}
