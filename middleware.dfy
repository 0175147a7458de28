/**
 * The route guard run before every page request: it decides from the path
 * and the session token whether to serve the page or redirect.
 */
module Middleware {
  import opened Options

  /** The decoded session token; `role` is None when the token carries no role. */
  datatype Session = Session(role: Option<string>)

  /** The guard's answer: redirect the browser to `location`, or serve the request. */
  datatype Decision = Redirect(location: string) | Next

  const HomePath := "/home"
  const LoginPath := "/login"
  const AdminPrefix := "/admin"
  const AdminRole := "Admin"

  /** JavaScript's `startsWith`. */
  predicate StartsWith(s: string, prefix: string)
  {
    prefix <= s
  }

  /** The pages an anonymous visitor may open, compared as whole paths. */
  predicate IsPublicPath(path: string)
  {
    path == "/login" || path == "/forgot-password" || path == "/reset-password"
  }

  /** A session whose role is exactly "Admin"; an absent session or role is not one. */
  predicate IsAdmin(session: Option<Session>)
  {
    session.Some? && session.value.role == Some(AdminRole)
  }

  /** The three checks of the guard, in the order they run; the first that fires decides. */
  function Decide(path: string, session: Option<Session>): (d: Decision)
    ensures d.Redirect? ==> d.location == HomePath || d.location == LoginPath
  {
    if session.Some? && IsPublicPath(path) then Redirect(HomePath)
    else if session.None? && !IsPublicPath(path) then Redirect(LoginPath)
    else if StartsWith(path, AdminPrefix) && !IsAdmin(session) then Redirect(HomePath)
    else Next
  }

  /** No public path lies under the admin prefix, so the public and admin checks never compete. */
  lemma PublicPathsAreNotAdminRoutes(path: string)
    requires IsPublicPath(path)
    ensures !StartsWith(path, AdminPrefix)
  {
    assert AdminPrefix[1] == 'a';
    if path == "/login" {
      assert path[1] == 'l';
    } else if path == "/forgot-password" {
      assert path[1] == 'f';
    } else {
      assert path[1] == 'r';
    }
  }

  /** Exactly when the guard sends the browser to the login page: an anonymous request for a non-public page. */
  lemma RedirectToLoginExactly(path: string, session: Option<Session>)
    ensures Decide(path, session) == Redirect(LoginPath) <==> session.None? && !IsPublicPath(path)
  {
  }

  /**
   * Exactly when the guard sends the browser home: a signed-in request for a
   * public page, or for a page under the admin prefix without the admin role.
   */
  lemma {:induction false} RedirectToHomeExactly(path: string, session: Option<Session>)
    ensures Decide(path, session) == Redirect(HomePath) <==>
      session.Some? && (IsPublicPath(path) || (StartsWith(path, AdminPrefix) && !IsAdmin(session)))
  {
    assert HomePath != LoginPath by { assert HomePath[1] != LoginPath[1]; }
    if IsPublicPath(path) {
      PublicPathsAreNotAdminRoutes(path);
    }
  }

  /**
   * Exactly when the page is served: an anonymous request for a public page,
   * or a signed-in request for a non-public page that is outside the admin
   * prefix or made with the admin role.
   */
  lemma ServedExactly(path: string, session: Option<Session>)
    ensures Decide(path, session) == Next <==>
      (session.None? && IsPublicPath(path))
      || (session.Some? && !IsPublicPath(path) && (!StartsWith(path, AdminPrefix) || IsAdmin(session)))
  {
    if session.None? && IsPublicPath(path) {
      PublicPathsAreNotAdminRoutes(path);
    }
  }

  /** An anonymous visitor is served only public pages, whatever the path. */
  lemma AnonymousSeesOnlyPublicPages(path: string)
    ensures Decide(path, None) == Next ==> IsPublicPath(path)
    ensures !IsPublicPath(path) ==> Decide(path, None) == Redirect(LoginPath)
  {
  }

  /**
   * Nothing under the admin prefix is served without the admin role; the test
   * is a plain prefix, so "/administrator" is guarded as well.
   */
  lemma {:induction false} AdminRoutesNeedAdminRole(path: string, session: Option<Session>)
    requires StartsWith(path, AdminPrefix)
    ensures Decide(path, session) == Next ==> IsAdmin(session)
    ensures StartsWith("/administrator", AdminPrefix)
  {
    assert "/administrator"[..6] == AdminPrefix;
  }

  /** With the admin role every page except the three public ones is served. */
  lemma AdminServedEverythingButPublic(path: string, role: Option<string>)
    requires role == Some(AdminRole)
    ensures Decide(path, Some(Session(role))) == Next <==> !IsPublicPath(path)
  {
  }

  /**
   * The guard never redirects in a loop: the page it redirects to is served to
   * the same visitor on the next request.
   */
  lemma {:induction false} RedirectTargetIsServed(path: string, session: Option<Session>)
    requires Decide(path, session).Redirect?
    ensures Decide(Decide(path, session).location, session) == Next
  {
    assert !StartsWith(HomePath, AdminPrefix) by { assert HomePath[2] != AdminPrefix[2]; }
    assert !StartsWith(LoginPath, AdminPrefix) by { assert LoginPath[1] != AdminPrefix[1]; }
    assert !IsPublicPath(HomePath) by { assert HomePath[1] == 'h'; }
  }
}
