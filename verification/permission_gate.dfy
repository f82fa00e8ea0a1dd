/**
 * The client component of src/components/permission-gate.tsx, reduced to the
 * choice of what it renders. Rendering itself is left out: a rendered node
 * is an opaque value, and the defaults of the three fallbacks are named
 * values of that type.
 */
module PermissionGate {
  import opened Wrappers
  import opened Authz
  import Rbac

  /** The `status` field `useSession()` reports: "loading", "authenticated", "unauthenticated". */
  datatype Status = Loading | SignedIn | SignedOut

  /** A React node: nothing (`null`), the `<Forbidden />` view, or some other element. */
  datatype Node = Nothing | ForbiddenView | Element(key: string)

  /** The four branches the component can take. */
  datatype Branch = ShowLoading | ShowUnauthenticated | ShowForbidden | ShowChildren

  /** The props; the optional ones are `None` when the caller leaves them out. */
  datatype Props = Props(
    require: Requirement,
    mode: Option<Mode>,
    loadingFallback: Option<Node>,
    unauthenticatedFallback: Option<Node>,
    forbiddenFallback: Option<Node>,
    children: Node)

  const DEFAULT_LOADING: Node := Nothing
  const DEFAULT_UNAUTHENTICATED: Node := Nothing
  const DEFAULT_FORBIDDEN: Node := ForbiddenView

  /** Which branch is taken for a session status and the session data. */
  function ChooseBranch(status: Status, session: Option<Session>, require: Requirement, mode: Option<Mode>): (b: Branch)
    ensures b == ShowLoading <==> status == Loading
    ensures b == ShowChildren <==>
      status != Loading && Authenticated(session) &&
      Satisfies(Rbac.Elements(PermissionsOf(session)), Rbac.Elements(RequiredList(require)), mode.GetOr(All))
    ensures b == ShowUnauthenticated <==> status != Loading && !Authenticated(session)
  {
    if status == Loading then ShowLoading
    else
      var result := CheckPermissions(session, require, Some(mode.GetOr(All)));
      if result.Denied? then
        if result.status == 401 then ShowUnauthenticated else ShowForbidden
      else ShowChildren
  }

  /** What `<PermissionGate>` renders. */
  function Render(status: Status, session: Option<Session>, props: Props): (n: Node)
    ensures status == Loading ==> n == props.loadingFallback.GetOr(DEFAULT_LOADING)
    ensures ChooseBranch(status, session, props.require, props.mode) == ShowUnauthenticated ==>
      n == props.unauthenticatedFallback.GetOr(DEFAULT_UNAUTHENTICATED)
    ensures ChooseBranch(status, session, props.require, props.mode) == ShowForbidden ==>
      n == props.forbiddenFallback.GetOr(DEFAULT_FORBIDDEN)
    ensures ChooseBranch(status, session, props.require, props.mode) == ShowChildren ==> n == props.children
  {
    match ChooseBranch(status, session, props.require, props.mode)
    case ShowLoading => props.loadingFallback.GetOr(DEFAULT_LOADING)
    case ShowUnauthenticated => props.unauthenticatedFallback.GetOr(DEFAULT_UNAUTHENTICATED)
    case ShowForbidden => props.forbiddenFallback.GetOr(DEFAULT_FORBIDDEN)
    case ShowChildren => props.children
  }

  /** While loading the session, the permissions are not consulted at all. */
  lemma LoadingDecidedFirst(s1: Option<Session>, s2: Option<Session>, props1: Props, props2: Props)
    requires props1.loadingFallback == props2.loadingFallback
    ensures Render(Loading, s1, props1) == Render(Loading, s2, props2)
  {
  }

  /**
   * Outside loading, the branch follows the verdict of the check: ok shows the
   * children, 401 the unauthenticated fallback, 403 the forbidden one.
   */
  lemma BranchFollowsVerdict(status: Status, session: Option<Session>, require: Requirement, mode: Option<Mode>)
    requires status != Loading
    ensures var v := CheckPermissions(session, require, mode);
      var b := ChooseBranch(status, session, require, mode);
      (v == Ok <==> b == ShowChildren) &&
      (v == Denied(401, Unauthenticated) <==> b == ShowUnauthenticated) &&
      (v == Denied(403, Forbidden) <==> b == ShowForbidden)
  {
    Authz.StatusClassification(session, require, mode);
  }

  /** With no fallbacks given, a refused signed-out user sees nothing and a refused signed-in user the Forbidden view. */
  lemma DefaultFallbacks(status: Status, session: Option<Session>, require: Requirement, children: Node)
    requires status != Loading
    ensures var props := Props(require, None, None, None, None, children);
      var n := Render(status, session, props);
      (!Authenticated(session) ==> n == Nothing) &&
      (Authenticated(session) && !Rbac.HasAllPermissions(PermissionsOf(session), RequiredList(require)) ==>
         n == ForbiddenView) &&
      (Authenticated(session) && Rbac.HasAllPermissions(PermissionsOf(session), RequiredList(require)) ==>
         n == children)
  {
  }
}
