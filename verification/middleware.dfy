/**
 * The route guard run before every page request: it classifies the path as public or
 * not and, from the session lookup, passes the request or redirects it.
 */
module Middleware {
  import opened Wrappers

  const SignIn := "/auth/signin"
  const Callback := "/auth/callback"
  const Dashboard := "/dashboard"
  const AuthPrefix := "/auth/"
  const PublicRoutes: seq<string> := ["/", SignIn, Callback]

  predicate StartsWith(s: string, prefix: string) {
    |prefix| <= |s| && s[..|prefix|] == prefix
  }

  /** `routes.some(route => path === route || path.startsWith('/auth/'))`. */
  function SomeRoute(routes: seq<string>, path: string): (b: bool)
    ensures b <==> (path in routes || (routes != [] && StartsWith(path, AuthPrefix)))
    decreases |routes|
  {
    if routes == [] then false
    else path == routes[0] || StartsWith(path, AuthPrefix) || SomeRoute(routes[1..], path)
  }

  function IsPublicRoute(path: string): (b: bool)
    ensures b <==> path == "/" || path == SignIn || path == Callback || StartsWith(path, AuthPrefix)
  {
    SomeRoute(PublicRoutes, path)
  }

  /** The outcome of `supabase.auth.getSession()`: an answer with or without a session and error, or a throw. */
  datatype SessionLookup = Answered(hasSession: bool, failed: bool) | Threw

  /** Pass the request on, or redirect to a path with an optional `redirectTo` parameter. */
  datatype Response = Next | Redirect(target: string, redirectTo: Option<string>)

  /**
   * The guard's answer. It only ever redirects to sign-in or to the dashboard; only an
   * answered lookup with a session sends a public path to the dashboard, and an answered
   * lookup sends only protected paths to sign-in.
   */
  function Decide(path: string, lookup: SessionLookup): (r: Response)
    ensures r.Redirect? ==> r.target == SignIn || r.target == Dashboard
    ensures r.Redirect? && r.target == Dashboard ==>
      lookup.Answered? && lookup.hasSession && !lookup.failed && IsPublicRoute(path) && path != "/"
    ensures r.Redirect? && r.target == SignIn && lookup.Answered? ==> !IsPublicRoute(path)
    ensures r.Redirect? && r.redirectTo.Some? ==> r.redirectTo.value == path
  {
    match lookup
    case Threw =>
      if !StartsWith(path, AuthPrefix) then Redirect(SignIn, None) else Next
    case Answered(hasSession, failed) =>
      var isPublic := IsPublicRoute(path);
      if failed then
        if !isPublic then Redirect(SignIn, Some(path)) else Next
      else if !hasSession && !isPublic then Redirect(SignIn, Some(path))
      else if hasSession && isPublic && path != "/" then Redirect(Dashboard, None)
      else Next
  }

  /** A failed lookup sends a protected path to sign-in, remembering it, and lets a public one through. */
  lemma LookupFailure(path: string, hasSession: bool)
    ensures !IsPublicRoute(path) ==> Decide(path, Answered(hasSession, true)) == Redirect(SignIn, Some(path))
    ensures IsPublicRoute(path) ==> Decide(path, Answered(hasSession, true)) == Next
  {
  }

  /** Without a session a protected path goes to sign-in with `redirectTo`; a public one passes. */
  lemma SignedOut(path: string)
    ensures Decide(path, Answered(false, false)) ==
      if IsPublicRoute(path) then Next else Redirect(SignIn, Some(path))
  {
  }

  /** With a session a public path other than "/" goes to the dashboard; everything else passes. */
  lemma SignedIn(path: string)
    ensures Decide(path, Answered(true, false)) ==
      if IsPublicRoute(path) && path != "/" then Redirect(Dashboard, None) else Next
  {
  }

  /** When the guard itself throws, paths outside "/auth/" go to sign-in without `redirectTo`. */
  lemma GuardThrew(path: string)
    ensures Decide(path, Threw) == if StartsWith(path, AuthPrefix) then Next else Redirect(SignIn, None)
  {
  }

  /** No redirect ever targets the path that was requested, so the guard cannot loop on one path. */
  lemma NoSelfRedirect(path: string, lookup: SessionLookup)
    ensures Decide(path, lookup).Redirect? ==> Decide(path, lookup).target != path
  {
    if path == SignIn {
      // Sign-in is itself under "/auth/": it is public, and a throw lets it through too.
      assert StartsWith(path, AuthPrefix) by { assert path[..|AuthPrefix|] == AuthPrefix; }
      assert IsPublicRoute(path);
    } else if path == Dashboard {
      assert !StartsWith(path, AuthPrefix) by { assert path[1] != AuthPrefix[1]; }
    }
  }

  /** A redirect carries `redirectTo` only when it goes to sign-in, and then it names the requested path. */
  lemma RedirectToIsRequestedPath(path: string, lookup: SessionLookup)
    ensures Decide(path, lookup).Redirect? && Decide(path, lookup).redirectTo.Some? ==>
      Decide(path, lookup).target == SignIn && Decide(path, lookup).redirectTo == Some(path)
  {
  }
}
