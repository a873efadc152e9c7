/**
 * The route protection of src/hooks.server.js: which paths need a signed-in
 * user, and what an unauthenticated request to one of them gets. The
 * per-request PocketBase client, its token refresh and the cookie written
 * back are left out; whether `event.locals.user` is set arrives as a
 * parameter.
 */
module Hooks {
  import opened JsText

  /** Build output, favicons, robots.txt, the manifest, icons and static
      files (lines 9-18). */
  predicate IsStaticOrAsset(pathname: string) {
    StartsWith(pathname, "/_app/") ||
    StartsWith(pathname, "/favicon") ||
    StartsWith(pathname, "/robots") ||
    StartsWith(pathname, "/manifest") ||
    StartsWith(pathname, "/icons") ||
    StartsWith(pathname, "/static/")
  }

  /** The login page and the auth API (lines 20-22). */
  predicate IsAuthRoute(pathname: string) {
    pathname == "/login" || StartsWith(pathname, "/api/auth/")
  }

  /** Lines 24-28: the dashboard and the API, less the two groups above. */
  predicate IsProtectedRoute(pathname: string) {
    if IsStaticOrAsset(pathname) then false
    else if IsAuthRoute(pathname) then false
    else StartsWith(pathname, "/dashboard") || StartsWith(pathname, "/api/")
  }

  /** What `handle` does with the request once the user is known. */
  datatype Outcome =
    | Unauthorized(status: nat, body: string, contentType: string)
    | Redirect(status: nat, location: string)
    | Resolve

  const UnauthorizedBody: string := "{\"error\":\"Unauthorized\"}"

  /** Lines 56-71: an unauthenticated request to a protected API path gets a
      401 JSON error, one to any other protected path a 303 to the login
      page; every other request goes on to `resolve`. */
  function Handle(pathname: string, isAuthed: bool): (o: Outcome)
    ensures o.Resolve? <==> isAuthed || !IsProtectedRoute(pathname)
    ensures o.Unauthorized? ==> o == Unauthorized(401, UnauthorizedBody, "application/json")
    ensures o.Redirect? ==> o == Redirect(303, "/login")
  {
    var requiresAuth := IsProtectedRoute(pathname);
    if requiresAuth && !isAuthed then
      if StartsWith(pathname, "/api/") then Unauthorized(401, UnauthorizedBody, "application/json")
      else Redirect(303, "/login")
    else Resolve
  }

  /** A path that starts with `q` does not start with a `p` that differs
      from `q` at some position both have. */
  lemma DifferAt(s: string, p: string, q: string, i: nat)
    requires StartsWith(s, q) && i < |p| && i < |q| && p[i] != q[i]
    ensures !StartsWith(s, p)
  {
    assert s[..|q|][i] == q[i];
  }

  /** No static or asset path starts with `/dashboard` or `/api/`: the
      prefixes part at their second character. */
  lemma StaticApart(pathname: string)
    requires StartsWith(pathname, "/dashboard") || StartsWith(pathname, "/api/")
    ensures !IsStaticOrAsset(pathname)
  {
    var q := if StartsWith(pathname, "/dashboard") then "/dashboard" else "/api/";
    var statics := ["/_app/", "/favicon", "/robots", "/manifest", "/icons", "/static/"];
    forall p | p in statics
      ensures !StartsWith(pathname, p)
    {
      DifferAt(pathname, p, q, 1);
    }
  }

  /** The protected paths are exactly the dashboard and the API outside
      `/api/auth/`. */
  lemma ProtectedExactly(pathname: string)
    ensures IsProtectedRoute(pathname) <==>
      StartsWith(pathname, "/dashboard") ||
      (StartsWith(pathname, "/api/") && !StartsWith(pathname, "/api/auth/"))
  {
    if StartsWith(pathname, "/dashboard") || StartsWith(pathname, "/api/") {
      StaticApart(pathname);
      var q := if StartsWith(pathname, "/dashboard") then "/dashboard" else "/api/";
      DifferAt(pathname, "/login", q, 1);
      if StartsWith(pathname, "/dashboard") {
        DifferAt(pathname, "/api/auth/", "/dashboard", 1);
      }
    }
  }

  /** An unauthenticated API call outside the auth API is refused with 401. */
  lemma UnauthenticatedApi(pathname: string)
    requires StartsWith(pathname, "/api/") && !StartsWith(pathname, "/api/auth/")
    ensures Handle(pathname, false) == Unauthorized(401, UnauthorizedBody, "application/json")
  {
    ProtectedExactly(pathname);
  }

  /** An unauthenticated visit to the dashboard is sent to the login page. */
  lemma UnauthenticatedDashboard(pathname: string)
    requires StartsWith(pathname, "/dashboard")
    ensures Handle(pathname, false) == Redirect(303, "/login")
  {
    ProtectedExactly(pathname);
    DifferAt(pathname, "/api/", "/dashboard", 1);
  }

  /** The login page, the auth API and the static files are always served. */
  lemma OpenRoutesResolve(pathname: string, isAuthed: bool)
    requires IsAuthRoute(pathname) || IsStaticOrAsset(pathname)
    ensures Handle(pathname, isAuthed) == Resolve
  {
  }
}
