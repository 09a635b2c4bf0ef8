/** The route gate run before every page: a protected page without a
    session goes to the login page, which is told where to return; a login
    or sign-up page with a session goes to the studio; everything else
    passes. The session lookup is the parameter `hasSession`. */
module Middleware {

  /** Pages that need a signed-in user. */
  const ProtectedRoutes: seq<string> := ["/studio", "/gallery", "/settings", "/billing"]

  /** Pages a signed-in user is sent away from. */
  const AuthRoutes: seq<string> := ["/login", "/signup"]

  /** `routes.some((route) => pathname.startsWith(route))` */
  predicate StartsWithAny(pathname: string, routes: seq<string>) {
    exists i :: 0 <= i < |routes| && routes[i] <= pathname
  }

  predicate IsProtectedRoute(pathname: string) {
    StartsWithAny(pathname, ProtectedRoutes)
  }

  predicate IsAuthRoute(pathname: string) {
    StartsWithAny(pathname, AuthRoutes)
  }

  /** What the gate answers: pass the request on, redirect to /login with
      the page as the `redirect` parameter, or redirect to /studio. */
  datatype Action = Next | RedirectToLogin(redirect: string) | RedirectToStudio

  const LoginPath := "/login"
  const StudioPath := "/studio"

  /** middleware */
  function Gate(pathname: string, hasSession: bool): (a: Action)
    ensures a.RedirectToLogin? ==> IsProtectedRoute(pathname) && !hasSession && a.redirect == pathname
    ensures a.RedirectToStudio? ==> IsAuthRoute(pathname) && hasSession
  {
    if IsProtectedRoute(pathname) && !hasSession then RedirectToLogin(pathname)
    else if IsAuthRoute(pathname) && hasSession then RedirectToStudio
    else Next
  }

  // ---------------------------------------------------------------------
  // Properties

  /** The route tests are prefix tests on the four protected and the two
      authentication pages. */
  lemma RouteClasses(pathname: string)
    ensures IsProtectedRoute(pathname) <==>
      "/studio" <= pathname || "/gallery" <= pathname || "/settings" <= pathname || "/billing" <= pathname
    ensures IsAuthRoute(pathname) <==> "/login" <= pathname || "/signup" <= pathname
  {
    if "/studio" <= pathname { assert ProtectedRoutes[0] <= pathname; }
    if "/gallery" <= pathname { assert ProtectedRoutes[1] <= pathname; }
    if "/settings" <= pathname { assert ProtectedRoutes[2] <= pathname; }
    if "/billing" <= pathname { assert ProtectedRoutes[3] <= pathname; }
    if "/login" <= pathname { assert AuthRoutes[0] <= pathname; }
    if "/signup" <= pathname { assert AuthRoutes[1] <= pathname; }
  }

  /** Being a prefix test, it also covers pages that merely begin with a
      protected name. */
  lemma PrefixAlsoMatches(rest: string)
    ensures IsProtectedRoute("/studio" + rest)
  {
    assert ProtectedRoutes[0] <= "/studio" + rest;
  }

  /** Two strings that differ at some position cannot both begin the
      same string. */
  lemma NotBothPrefixes(a: string, b: string, p: string, k: nat)
    requires k < |a| && k < |b| && a[k] != b[k]
    ensures !(a <= p && b <= p)
  {
    if a <= p {
      assert p[k] == a[k];
    }
  }

  /** No page is both protected and an authentication page, so at most
      one of the two redirects can apply. */
  lemma NeverBoth(pathname: string)
    ensures !(IsProtectedRoute(pathname) && IsAuthRoute(pathname))
  {
    forall i, j | 0 <= i < |ProtectedRoutes| && 0 <= j < |AuthRoutes|
      ensures !(ProtectedRoutes[i] <= pathname && AuthRoutes[j] <= pathname)
    {
      var a, b := ProtectedRoutes[i], AuthRoutes[j];
      var k := if a[1] == b[1] then 2 else 1;
      assert a[k] != b[k];
      NotBothPrefixes(a, b, pathname, k);
    }
  }

  /** The gate's three outcomes, each exactly when its condition holds. */
  lemma GateOutcomes(pathname: string, hasSession: bool)
    ensures Gate(pathname, hasSession).RedirectToLogin? <==> IsProtectedRoute(pathname) && !hasSession
    ensures Gate(pathname, hasSession).RedirectToStudio? <==> IsAuthRoute(pathname) && hasSession
    ensures Gate(pathname, hasSession).Next? <==>
      !(IsProtectedRoute(pathname) && !hasSession) && !(IsAuthRoute(pathname) && hasSession)
    ensures Gate(pathname, hasSession).RedirectToLogin? ==> Gate(pathname, hasSession).redirect == pathname
  {
    NeverBoth(pathname);
  }

  /** A page that is neither protected nor an authentication page always
      passes, with or without a session. */
  lemma PublicPagesPass(pathname: string, hasSession: bool)
    requires !IsProtectedRoute(pathname) && !IsAuthRoute(pathname)
    ensures Gate(pathname, hasSession) == Next
  {
  }

  /** Following a redirect does not redirect again: the login page lets a
      visitor without a session through, and the studio lets a signed-in
      user through. */
  lemma RedirectTargetsPass()
    ensures Gate(LoginPath, false) == Next
    ensures Gate(StudioPath, true) == Next
  {
    assert AuthRoutes[0] <= LoginPath;
    NeverBoth(LoginPath);
    assert ProtectedRoutes[0] <= StudioPath;
    NeverBoth(StudioPath);
  }
}
