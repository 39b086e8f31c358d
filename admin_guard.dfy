/**
 * The admin route guard (`middleware.ts`): a decision over the request path and the
 * session token, giving either a redirect or "continue".
 */
module AdminGuard {
  import opened Wrappers
  import opened JsStrings

  /** The decoded session token (only the role is read). */
  datatype Token = Token(role: Option<string>)

  /** `NextResponse.redirect(new URL(location, request.url))` or `NextResponse.next()`. */
  datatype Action = Next | Redirect(location: string)

  /** `pathname.startsWith('/admin')`: a plain prefix test, so `/administrator` counts too. */
  predicate IsAdminPath(pathname: string) {
    StartsWith(pathname, "/admin")
  }

  /** `pathname === '/admin/login'`. */
  predicate IsLoginPath(pathname: string) {
    pathname == "/admin/login"
  }

  /** `token?.role === 'ADMIN'`. */
  predicate IsAdminToken(token: Option<Token>) {
    token.Some? && token.value.role == Some("ADMIN")
  }

  /** The middleware's decision, its three tests taken in the order the source makes them. */
  function Middleware(pathname: string, token: Option<Token>): Action {
    if IsAdminPath(pathname) && !IsLoginPath(pathname) && token.None? then Redirect("/admin/login")
    else if IsLoginPath(pathname) && token.Some? then Redirect("/admin")
    else if IsAdminPath(pathname) && !IsLoginPath(pathname) && !IsAdminToken(token) then Redirect("/")
    else Next
  }

  /**
   * The decision described case by case, independently of the order of the tests: each of
   * the four outcomes, with exactly the requests that get it.
   */
  lemma MiddlewareCases(pathname: string, token: Option<Token>)
    ensures var a := Middleware(pathname, token);
      && (a == Redirect("/admin/login") <==> IsAdminPath(pathname) && !IsLoginPath(pathname) && token.None?)
      && (a == Redirect("/admin") <==> IsLoginPath(pathname) && token.Some?)
      && (a == Redirect("/") <==> IsAdminPath(pathname) && !IsLoginPath(pathname) && token.Some? && !IsAdminToken(token))
      && (a == Next <==>
            || !IsAdminPath(pathname)
            || (IsLoginPath(pathname) && token.None?)
            || (IsAdminPath(pathname) && !IsLoginPath(pathname) && IsAdminToken(token)))
  {
    assert StartsWith("/admin/login", "/admin");
  }

  /** A prefix test, not a path-segment test: `/administrator` is guarded like `/admin/videos`. */
  lemma AdministratorIsGuarded()
    ensures Middleware("/administrator", None) == Redirect("/admin/login")
  {
    assert "/administrator"[..6] == "/admin";
  }

  /**
   * No redirect loops: following the guard's redirects with the same token reaches a page the
   * guard lets through in at most two further requests.
   */
  lemma RedirectsSettle(pathname: string, token: Option<Token>)
    ensures Middleware(pathname, token).Redirect? ==>
      var next := Middleware(pathname, token).location;
      || Middleware(next, token) == Next
      || (Middleware(next, token).Redirect? && Middleware(Middleware(next, token).location, token) == Next)
  {
    assert StartsWith("/admin/login", "/admin");
    assert StartsWith("/admin", "/admin");
    assert !StartsWith("/", "/admin");
  }

  /**
   * The paths the middleware is installed on (`matcher: '/admin/:path*'`): `/admin` itself and
   * everything below it.
   */
  predicate Matched(pathname: string) {
    pathname == "/admin" || StartsWith(pathname, "/admin/")
  }

  /** A request as the framework routes it: unmatched paths never reach the middleware. */
  function Route(pathname: string, token: Option<Token>): Action {
    if Matched(pathname) then Middleware(pathname, token) else Next
  }

  /** Every matched path is an admin path, so inside the matcher the prefix test always holds. */
  lemma MatchedPathsAreAdminPaths(pathname: string)
    requires Matched(pathname)
    ensures IsAdminPath(pathname)
  {
    if pathname != "/admin" {
      assert pathname[..6] == pathname[..7][..6];
    }
  }

  /**
   * The matcher and the prefix test disagree exactly on paths such as `/administrator` or
   * `/admins`: `/admin` followed by anything but `/`. The middleware alone would send such a
   * request without a token to the login page, but with the matcher in front it is never
   * guarded at all.
   */
  lemma PrefixOnlyPathsAreNotRouted(pathname: string, token: Option<Token>)
    requires IsAdminPath(pathname) && |pathname| > 6 && pathname[6] != '/'
    ensures Middleware(pathname, None) == Redirect("/admin/login")
    ensures Route(pathname, token) == Next
  {
  }
}
