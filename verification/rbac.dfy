/**
 * Membership predicates over plain permission lists (src/lib/rbac.ts).
 * The three list primitives of JavaScript used there, `includes`, `every`
 * and `some`, are written out as recursive walks over the list, each with
 * the set-theoretic meaning it must have.
 */
module Rbac {

  /** The set of names occurring in a list. */
  function Elements(xs: seq<string>): set<string> {
    set x | x in xs
  }

  /** `list.includes(name)`: a front-to-back scan. */
  function Includes(list: seq<string>, name: string): (r: bool)
    ensures r <==> name in list
  {
    if |list| == 0 then false
    else list[0] == name || Includes(list[1..], name)
  }

  /** `required.every(p => permissions.includes(p))`, stopping at the first miss. */
  function Every(permissions: seq<string>, required: seq<string>): (r: bool)
    ensures r <==> forall i | 0 <= i < |required| :: required[i] in permissions
  {
    if |required| == 0 then true
    else Includes(permissions, required[0]) && Every(permissions, required[1..])
  }

  /** `required.some(p => permissions.includes(p))`, stopping at the first hit. */
  function Some(permissions: seq<string>, required: seq<string>): (r: bool)
    ensures r <==> exists i | 0 <= i < |required| :: required[i] in permissions
  {
    if |required| == 0 then false
    else Includes(permissions, required[0]) || Some(permissions, required[1..])
  }

  /** Containment and overlap of `Elements` in terms of list indices. */
  lemma ElementsByIndex(required: seq<string>, permissions: seq<string>)
    ensures Elements(required) <= Elements(permissions)
        <==> forall i | 0 <= i < |required| :: required[i] in permissions
    ensures Elements(required) * Elements(permissions) != {}
        <==> exists i | 0 <= i < |required| :: required[i] in permissions
  {
    if exists i | 0 <= i < |required| :: required[i] in permissions {
      var i :| 0 <= i < |required| && required[i] in permissions;
      assert required[i] in Elements(required) * Elements(permissions);
    }
    if forall i | 0 <= i < |required| :: required[i] in permissions {
      forall x | x in Elements(required) ensures x in Elements(permissions) {
        var i :| 0 <= i < |required| && required[i] == x;
      }
    }
    if Elements(required) <= Elements(permissions) {
      forall i | 0 <= i < |required| ensures required[i] in permissions {
        assert required[i] in Elements(required);
      }
    }
  }

  function HasPermission(permissions: seq<string>, required: string): (r: bool)
    ensures r <==> required in Elements(permissions)
  {
    Includes(permissions, required)
  }

  function HasAllPermissions(permissions: seq<string>, required: seq<string>): (r: bool)
    ensures r <==> Elements(required) <= Elements(permissions)
  {
    ElementsByIndex(required, permissions);
    Every(permissions, required)
  }

  function HasAnyPermission(permissions: seq<string>, required: seq<string>): (r: bool)
    ensures r <==> Elements(required) * Elements(permissions) != {}
  {
    ElementsByIndex(required, permissions);
    Some(permissions, required)
  }

  /** An empty requirement is met in "all" mode and never in "any" mode. */
  lemma EmptyRequirement(permissions: seq<string>)
    ensures HasAllPermissions(permissions, [])
    ensures !HasAnyPermission(permissions, [])
  {
  }

  /** For a non-empty requirement, holding all of it means holding some of it. */
  lemma AllImpliesAny(permissions: seq<string>, required: seq<string>)
    requires |required| > 0
    ensures HasAllPermissions(permissions, required) ==> HasAnyPermission(permissions, required)
  {
    assert required[0] in Elements(required);
  }

  /** With a single required name the three predicates coincide. */
  lemma SingleName(permissions: seq<string>, name: string)
    ensures HasAllPermissions(permissions, [name]) == HasPermission(permissions, name)
    ensures HasAnyPermission(permissions, [name]) == HasPermission(permissions, name)
  {
    assert Elements([name]) == {name};
  }

  /** Only the sets of names matter: order and repetition in either list do not. */
  lemma OnlyElementsMatter(p1: seq<string>, p2: seq<string>, r1: seq<string>, r2: seq<string>)
    requires Elements(p1) == Elements(p2)
    requires Elements(r1) == Elements(r2)
    ensures HasAllPermissions(p1, r1) == HasAllPermissions(p2, r2)
    ensures HasAnyPermission(p1, r1) == HasAnyPermission(p2, r2)
  {
  }

  /** Holding more permissions never loses access. */
  lemma MorePermissionsMonotone(p1: seq<string>, p2: seq<string>, required: seq<string>)
    requires Elements(p1) <= Elements(p2)
    ensures HasAllPermissions(p1, required) ==> HasAllPermissions(p2, required)
    ensures HasAnyPermission(p1, required) ==> HasAnyPermission(p2, required)
  {
  }
}
