/**
 * The server-side guard of src/server/auth/require-permission.ts: it runs the
 * authorization check on the current session and either hands the session
 * back or redirects. `redirect` of Next.js never returns (it throws), so a
 * redirect ends the request; that is modelled as an outcome that carries no
 * session.
 *
 * Reading the session (`auth()`) is I/O; the session is a parameter.
 */
module RequirePermission {
  import opened Wrappers
  import opened Authz
  import Rbac

  /** `RedirectType.replace` / `RedirectType.push`. */
  datatype RedirectType = Replace | Push

  /** Either the request is redirected, or the checked session is returned. */
  datatype Outcome = Redirect(url: string, kind: RedirectType) | Proceed(session: Option<Session>)

  const LOGIN_URL: string := "/auth/login"
  const FORBIDDEN_URL: string := "/403"

  /** The decision `requirePermission` takes for a given verdict. */
  function Decide(session: Option<Session>, verdict: AuthzResult, redirectTo: Option<string>): (r: Outcome)
    ensures verdict == Ok <==> r.Proceed?
    ensures verdict == Ok ==> r == Proceed(session)
    ensures verdict.Denied? && verdict.status == 401 ==> r == Redirect(LOGIN_URL, Replace)
    ensures verdict.Denied? && verdict.status != 401 ==>
      r.Redirect? && r.kind == Push && (redirectTo.Some? ==> r.url == redirectTo.value) &&
      (redirectTo.None? ==> r.url == FORBIDDEN_URL)
  {
    if verdict.Denied? then
      if verdict.status == 401 then Redirect(LOGIN_URL, Replace)
      else Redirect(redirectTo.GetOr(FORBIDDEN_URL), Push)
    else
      Proceed(session)
  }

  /** `requirePermission({require, mode, redirectTo})` for the session `auth()` returned. */
  function RequirePermission(session: Option<Session>, require: Requirement, mode: Option<Mode>,
                             redirectTo: Option<string>): (r: Outcome)
    ensures r.Proceed? <==>
      Authenticated(session) &&
      Satisfies(Rbac.Elements(PermissionsOf(session)), Rbac.Elements(RequiredList(require)), mode.GetOr(All))
    ensures r.Proceed? ==> r.session == session
    ensures !Authenticated(session) ==> r == Redirect(LOGIN_URL, Replace)
  {
    Decide(session, CheckPermissions(session, require, mode), redirectTo)
  }

  /**
   * A signed-in user who lacks the required permissions is sent with `push`
   * to `redirectTo` when given, otherwise to "/403"; the session is not returned.
   */
  lemma ForbiddenRedirect(session: Option<Session>, require: Requirement, mode: Option<Mode>,
                          redirectTo: Option<string>)
    requires Authenticated(session)
    requires !Satisfies(Rbac.Elements(PermissionsOf(session)), Rbac.Elements(RequiredList(require)), mode.GetOr(All))
    ensures RequirePermission(session, require, mode, redirectTo) == Redirect(redirectTo.GetOr(FORBIDDEN_URL), Push)
  {
  }

  /** `redirectTo` only matters for a 403: it never affects a grant or a 401. */
  lemma RedirectToOnlyForForbidden(session: Option<Session>, require: Requirement, mode: Option<Mode>,
                                   t1: Option<string>, t2: Option<string>)
    requires CheckPermissions(session, require, mode) != Denied(403, Forbidden)
    ensures RequirePermission(session, require, mode, t1) == RequirePermission(session, require, mode, t2)
  {
  }

  /** The mode is passed through unchanged, so leaving it out means "all". */
  lemma OmittedModeIsAll(session: Option<Session>, require: Requirement, redirectTo: Option<string>)
    ensures RequirePermission(session, require, None, redirectTo) ==
            RequirePermission(session, require, Some(All), redirectTo)
  {
    Authz.OmittedModeIsAll(session, require);
  }

  /** The login redirect uses `replace` and every other redirect uses `push`. */
  lemma RedirectKindClassification(session: Option<Session>, require: Requirement, mode: Option<Mode>,
                                   redirectTo: Option<string>)
    ensures var r := RequirePermission(session, require, mode, redirectTo);
      r.Redirect? ==> (r.kind == Replace <==> !Authenticated(session))
  {
  }
}
