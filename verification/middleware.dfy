/** The route guard of frontend/src/middleware.ts: for a request's pathname and whether
    the session has a user, pass the request through or redirect it. The session lookup
    is reduced to its answer, `authenticated`. */
module Middleware {
  import opened Strings

  const PublicRoutes: seq<string> := ["/login", "/auth/confirm"]

  /** `publicRoutes.some(route => pathname.startsWith(route))`. */
  function SomePrefix(path: string, routes: seq<string>): (r: bool)
    ensures r <==> exists i :: 0 <= i < |routes| && StartsWith(path, routes[i])
  {
    if |routes| == 0 then false
    else if StartsWith(path, routes[0]) then true
    else
      var rest := SomePrefix(path, routes[1..]);
      assert forall i :: 1 <= i < |routes| ==> routes[i] == routes[1..][i - 1];
      rest
  }

  predicate IsPublicRoute(path: string) {
    SomePrefix(path, PublicRoutes)
  }

  datatype Decision =
    | RedirectToLogin(redirectTo: string)  // to /login?redirectTo=<pathname>
    | RedirectHome                         // to /
    | PassThrough                          // the response with the refreshed session cookies

  function Decide(authenticated: bool, path: string): Decision {
    if !authenticated && !IsPublicRoute(path) then RedirectToLogin(path)
    else if authenticated && StartsWith(path, "/login") then RedirectHome
    else PassThrough
  }

  /** The pathname a redirect leads to. */
  function Target(d: Decision): string
    requires !d.PassThrough?
  {
    if d.RedirectToLogin? then "/login" else "/"
  }

  /** A path is public iff it starts with "/login" or "/auth/confirm"; being a prefix
      test, it also admits paths such as "/login-x". */
  lemma PublicRoutesByPrefix(path: string)
    ensures IsPublicRoute(path) <==> StartsWith(path, "/login") || StartsWith(path, "/auth/confirm")
    ensures IsPublicRoute("/login-x")
  {
    assert PublicRoutes[0] == "/login" && PublicRoutes[1] == "/auth/confirm";
    assert "/login-x"[..6] == "/login";
  }

  /** An anonymous request for a protected path goes to /login, remembering the path. */
  lemma AnonymousProtectedRedirects(path: string)
    requires !StartsWith(path, "/login") && !StartsWith(path, "/auth/confirm")
    ensures Decide(false, path) == RedirectToLogin(path)
  {
    PublicRoutesByPrefix(path);
  }

  /** A signed-in user asking for a path under /login is sent home. */
  lemma SignedInLoginRedirectsHome(path: string)
    requires StartsWith(path, "/login")
    ensures Decide(true, path) == RedirectHome
  {
  }

  /** Every other request passes: anonymous ones for public paths and signed-in ones for
      anything outside /login, /auth/confirm among them. */
  lemma OthersPass(authenticated: bool, path: string)
    requires if authenticated then !StartsWith(path, "/login") else IsPublicRoute(path)
    ensures Decide(authenticated, path) == PassThrough
    ensures Decide(true, "/auth/confirm") == PassThrough
  {
    assert !StartsWith("/auth/confirm", "/login") by {
      assert "/auth/confirm"[1] != "/login"[1];
    }
  }

  /** No redirect loop: a redirect's target, requested with the same session, passes. */
  lemma NoRedirectLoop(authenticated: bool, path: string)
    requires !Decide(authenticated, path).PassThrough?
    ensures Decide(authenticated, Target(Decide(authenticated, path))) == PassThrough
  {
    if authenticated {
      assert !StartsWith("/", "/login");
    } else {
      PublicRoutesByPrefix("/login");
      assert StartsWith("/login", "/login");
    }
  }
}
