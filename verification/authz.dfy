/**
 * The authorization check of src/lib/authz.ts: a nullable session, one
 * required permission name or a list of them, and an optional "all"/"any"
 * mode yield a three-way verdict.
 *
 * The permission list is read from `session.user.permissions` and is an
 * input here: nothing in the modelled code computes it from role or direct
 * grants.
 */
module Authz {
  import opened Wrappers
  import Rbac

  /** The fields of `session.user` the check reads. */
  datatype User = User(id: string, permissions: Option<seq<string>>)

  /** A session; `user` may be missing. */
  datatype Session = Session(user: Option<User>)

  /** `require`: one permission name, or an array of them. */
  datatype Requirement = Single(name: string) | List(names: seq<string>)

  datatype Mode = All | Any

  datatype Reason = Unauthenticated | Forbidden

  /** `AuthzResult`: `{ok: true}` or `{ok: false, status, reason}`. */
  datatype AuthzResult = Ok | Denied(status: int, reason: Reason)

  /** `session?.user` is present. */
  predicate Authenticated(session: Option<Session>) {
    session.Some? && session.value.user.Some?
  }

  /** `session.user.permissions ?? []`. */
  function PermissionsOf(session: Option<Session>): seq<string>
    requires Authenticated(session)
  {
    session.value.user.value.permissions.GetOr([])
  }

  /** `Array.isArray(require) ? require : [require]`. */
  function RequiredList(require: Requirement): seq<string> {
    match require
    case Single(name) => [name]
    case List(names) => names
  }

  /**
   * The combination rule stated on sets of names: "all" asks for every
   * required name, "any" for at least one.
   */
  predicate Satisfies(held: set<string>, required: set<string>, mode: Mode) {
    match mode
    case All => required <= held
    case Any => required * held != {}
  }

  function CheckPermissions(session: Option<Session>, require: Requirement, mode: Option<Mode>): (r: AuthzResult)
    ensures !Authenticated(session) ==> r == Denied(401, Unauthenticated)
    ensures Authenticated(session) ==>
      (r == Ok <==> Satisfies(Rbac.Elements(PermissionsOf(session)),
                              Rbac.Elements(RequiredList(require)), mode.GetOr(All)))
    ensures Authenticated(session) ==> r == Ok || r == Denied(403, Forbidden)
  {
    var m := mode.GetOr(All);
    if !(session.Some? && session.value.user.Some?) then
      Denied(401, Unauthenticated)
    else
      var perms := session.value.user.value.permissions.GetOr([]);
      var requiredList := RequiredList(require);
      var hasAccess :=
        if m == All then Rbac.HasAllPermissions(perms, requiredList)
        else Rbac.HasAnyPermission(perms, requiredList);
      if !hasAccess then Denied(403, Forbidden) else Ok
  }

  /** Without a session or a user the verdict is 401 whatever is required and in whichever mode. */
  lemma UnauthenticatedIgnoresRequirement(session: Option<Session>, r1: Requirement, m1: Option<Mode>,
                                          r2: Requirement, m2: Option<Mode>)
    requires !Authenticated(session)
    ensures CheckPermissions(session, r1, m1) == CheckPermissions(session, r2, m2) == Denied(401, Unauthenticated)
  {
  }

  /** An omitted mode behaves exactly like "all". */
  lemma OmittedModeIsAll(session: Option<Session>, require: Requirement)
    ensures CheckPermissions(session, require, None) == CheckPermissions(session, require, Some(All))
  {
  }

  /** A single name is checked exactly as the one-element list holding it. */
  lemma SingleIsOneElementList(session: Option<Session>, name: string, mode: Option<Mode>)
    ensures CheckPermissions(session, Single(name), mode) == CheckPermissions(session, List([name]), mode)
  {
  }

  /** An empty requirement is granted in "all" mode and forbidden in "any" mode. */
  lemma EmptyRequirement(session: Option<Session>)
    requires Authenticated(session)
    ensures CheckPermissions(session, List([]), Some(All)) == Ok
    ensures CheckPermissions(session, List([]), Some(Any)) == Denied(403, Forbidden)
  {
  }

  /** Status 401 occurs exactly when the session has no user; every other failure is 403. */
  lemma StatusClassification(session: Option<Session>, require: Requirement, mode: Option<Mode>)
    ensures CheckPermissions(session, require, mode).Denied? ==>
      (CheckPermissions(session, require, mode).status == 401 <==> !Authenticated(session))
    ensures CheckPermissions(session, require, mode).Denied? ==>
      CheckPermissions(session, require, mode) in {Denied(401, Unauthenticated), Denied(403, Forbidden)}
  {
  }

  /** A user without a `permissions` field is refused every non-empty requirement, in both modes. */
  lemma MissingPermissionsForbidden(id: string, require: Requirement, mode: Option<Mode>)
    requires |RequiredList(require)| > 0
    ensures CheckPermissions(Some(Session(Some(User(id, None)))), require, mode) == Denied(403, Forbidden)
  {
    var r := RequiredList(require);
    assert r[0] in Rbac.Elements(r);
  }

  /** Enlarging the permission list never turns a grant into a refusal. */
  lemma MorePermissionsMonotone(id: string, p1: seq<string>, p2: seq<string>, require: Requirement, mode: Option<Mode>)
    requires Rbac.Elements(p1) <= Rbac.Elements(p2)
    requires CheckPermissions(Some(Session(Some(User(id, Some(p1))))), require, mode) == Ok
    ensures CheckPermissions(Some(Session(Some(User(id, Some(p2))))), require, mode) == Ok
  {
  }

  /** For a signed-in user the check agrees with the list predicates of src/lib/rbac.ts. */
  lemma AgreesWithListPredicates(session: Option<Session>, require: Requirement, mode: Option<Mode>)
    requires Authenticated(session)
    ensures mode.GetOr(All) == All ==>
      (CheckPermissions(session, require, mode) == Ok <==>
       Rbac.HasAllPermissions(PermissionsOf(session), RequiredList(require)))
    ensures mode.GetOr(All) == Any ==>
      (CheckPermissions(session, require, mode) == Ok <==>
       Rbac.HasAnyPermission(PermissionsOf(session), RequiredList(require)))
  {
  }
}
