/** The request middleware: which paths are protected or public, where the
    session token comes from, and whether a request is redirected to the
    login page, redirected home, or let through. */
module Middleware {
  import opened Wrappers
  import opened Text

  const LoginPath := "/login"
  const SignupPath := "/signup"
  const ForgotPasswordPath := "/forgot-password"
  const ResetPasswordPath := "/reset-password"
  const DashboardPath := "/dashboard"

  /** The routes open to visitors without a session. */
  const PublicRoutes: seq<string> := [LoginPath, SignupPath, ForgotPasswordPath, ResetPasswordPath]

  /** The routes that need a session. */
  const ProtectedRoutes: seq<string> := [DashboardPath]

  /** `protectedRoutes.some(route => pathname.startsWith(route))`. */
  predicate IsProtected(path: string) {
    exists i :: 0 <= i < |ProtectedRoutes| && StartsWith(path, ProtectedRoutes[i])
  }

  /** `publicRoutes.some(route => pathname === route)`. */
  predicate IsPublic(path: string) {
    exists i :: 0 <= i < |PublicRoutes| && path == PublicRoutes[i]
  }

  /** A path is protected exactly when it starts with `/dashboard`: a prefix
      test, so `/dashboardx` is protected too. */
  lemma ProtectedMeaning(path: string)
    ensures IsProtected(path) <==> StartsWith(path, DashboardPath)
    ensures IsProtected("/dashboardx")
  {
    assert ProtectedRoutes[0] == DashboardPath;
    assert StartsWith("/dashboardx", DashboardPath) by {
      assert "/dashboardx"[..|DashboardPath|] == DashboardPath;
    }
  }

  /** A path is public exactly when it is one of the four auth routes. */
  lemma PublicMeaning(path: string)
    ensures IsPublic(path) <==>
      path == LoginPath || path == SignupPath || path == ForgotPasswordPath || path == ResetPasswordPath
  {
    if path == LoginPath {
      assert path == PublicRoutes[0];
    } else if path == SignupPath {
      assert path == PublicRoutes[1];
    } else if path == ForgotPasswordPath {
      assert path == PublicRoutes[2];
    } else if path == ResetPasswordPath {
      assert path == PublicRoutes[3];
    }
  }

  /** No public route is protected. */
  lemma PublicNotProtected(path: string)
    requires IsPublic(path)
    ensures !IsProtected(path)
  {
    PublicMeaning(path);
    ProtectedMeaning(path);
    assert path[..2] != DashboardPath[..2] || path[2] != DashboardPath[2] || |path| < |DashboardPath|;
  }

  const BearerPrefix := "Bearer "

  /** The session token: the `auth_token` cookie when non-empty, else the
      `authorization` header with its first `Bearer ` removed. A missing
      value and the empty string both mean "no token", written `""`. */
  function Token(cookie: Option<string>, header: Option<string>): (t: string)
    ensures cookie.Some? && cookie.value != "" ==> t == cookie.value
    ensures (cookie.None? || cookie.value == "") && header.None? ==> t == ""
  {
    if cookie.Some? && cookie.value != "" then cookie.value
    else if header.Some? then ReplaceFirst(header.value, BearerPrefix, "")
    else ""
  }

  /** Without a cookie, a `Bearer` header yields what follows the prefix,
      and a header without `Bearer ` anywhere is taken whole. */
  lemma HeaderToken(t: string, raw: string)
    ensures Token(None, Some(BearerPrefix + t)) == t
    ensures !Contains(raw, BearerPrefix) ==> Token(None, Some(raw)) == raw
  {
    assert StartsWith(BearerPrefix + t, BearerPrefix) by {
      assert (BearerPrefix + t)[..|BearerPrefix|] == BearerPrefix;
    }
    assert (BearerPrefix + t)[|BearerPrefix|..] == t;
    if !Contains(raw, BearerPrefix) {
      ReplaceFirstAbsent(raw, BearerPrefix, "");
    }
  }

  /** The header `Bearer ` alone carries no token. */
  lemma BarePrefixNoToken()
    ensures Token(None, Some(BearerPrefix)) == ""
  {
    HeaderToken("", "");
    assert BearerPrefix + "" == BearerPrefix;
  }

  /** What the middleware answers. */
  datatype Decision = RedirectToLogin(redirect: string) | RedirectHome | Pass

  /** `middleware`: a protected path without a token goes to the login page
      with the path as `redirect`; `/login` with a token goes home; all else
      passes. */
  function Decide(path: string, cookie: Option<string>, header: Option<string>): (d: Decision)
    ensures d.RedirectToLogin? <==> StartsWith(path, DashboardPath) && Token(cookie, header) == ""
    ensures d.RedirectToLogin? ==> d.redirect == path
    ensures d.RedirectHome? <==> path == LoginPath && Token(cookie, header) != ""
    ensures d == Pass <==> !(StartsWith(path, DashboardPath) && Token(cookie, header) == "") && !(path == LoginPath && Token(cookie, header) != "")
  {
    ProtectedMeaning(path);
    PublicMeaning(path);
    PublicMeaning(LoginPath);
    PublicNotProtected(LoginPath);
    var token := Token(cookie, header);
    if IsProtected(path) && token == "" then RedirectToLogin(path)
    else if IsPublic(path) && token != "" && path == LoginPath then RedirectHome
    else Pass
  }

  /** With a session, the other public routes pass through; only `/login`
      sends the visitor home. */
  lemma PublicRoutesWithToken(path: string, cookie: Option<string>, header: Option<string>)
    requires IsPublic(path) && Token(cookie, header) != ""
    ensures Decide(path, cookie, header) == if path == LoginPath then RedirectHome else Pass
  {
    PublicNotProtected(path);
    ProtectedMeaning(path);
  }
}
