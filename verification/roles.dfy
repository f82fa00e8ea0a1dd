/**
 * The role catalog of src/server/rbac/roles.ts: "Super Admin", which selects
 * every permission with the "ALL" marker, and "Customer", which lists 16
 * permission names explicitly. Both are system roles.
 */
module Roles {
  import Sequences
  import Permissions

  /** `permissions`: the literal "ALL", or an explicit list of names. */
  datatype Selector = AllPermissions | Explicit(names: seq<string>)

  datatype RoleDefinition = RoleDefinition(name: string, description: string, isSystem: bool, permissions: Selector)

  const CUSTOMER_ROLE_PERMISSIONS: seq<string> := [
    "account:self:read",
    "account:self:update",
    "addresses:self:read",
    "addresses:self:write",
    "cart:self:read",
    "cart:self:write",
    "cart:self:checkout",
    "orders:self:read",
    "orders:self:create",
    "orders:self:cancel",
    "orders:self:return",
    "orders:self:invoice:download",
    "payments:self:initiate",
    "payments:self:read",
    "wishlist:self:read",
    "wishlist:self:write"
  ]

  /** `Object.entries(ROLE_DEFINITIONS)`, in declaration order. */
  const ROLE_DEFINITIONS: seq<RoleDefinition> := [
    RoleDefinition("Super Admin", "System Generated", true, AllPermissions),
    RoleDefinition("Customer", "Default customer role", true, Explicit(CUSTOMER_ROLE_PERMISSIONS))
  ]

  /** The role names, in declaration order. */
  function RoleNames(defs: seq<RoleDefinition>): (r: seq<string>)
    ensures |r| == |defs|
    ensures forall i | 0 <= i < |defs| :: r[i] == defs[i].name
  {
    Sequences.Project(defs, (d: RoleDefinition) => d.name)
  }

  /** Exactly two system roles: "Super Admin" selecting everything, and "Customer" with an explicit list. */
  lemma RoleCatalogShape()
    ensures RoleNames(ROLE_DEFINITIONS) == ["Super Admin", "Customer"]
    ensures ROLE_DEFINITIONS[0].permissions == AllPermissions
    ensures ROLE_DEFINITIONS[1].permissions.Explicit?
    ensures forall i | 0 <= i < |ROLE_DEFINITIONS| :: ROLE_DEFINITIONS[i].isSystem
  {
  }

  /** The Customer list is the first 16 names of the catalog, in catalog order. */
  lemma CustomerListIsCatalogPrefix()
    ensures CUSTOMER_ROLE_PERMISSIONS == Permissions.Names(Permissions.PERMISSIONS)[..16]
  {
    var names := Permissions.Names(Permissions.PERMISSIONS);
    forall i | 0 <= i < 16 ensures names[i] == Permissions.CUSTOMER_PERMISSIONS[i].name {
      assert Permissions.PERMISSIONS[i] == Permissions.CUSTOMER_PERMISSIONS[i];
    }
  }

  /** Every name the Customer role lists is a catalog permission name. */
  lemma CustomerNamesInCatalog()
    ensures forall i | 0 <= i < |CUSTOMER_ROLE_PERMISSIONS| :: Permissions.IsPermissionName(CUSTOMER_ROLE_PERMISSIONS[i])
  {
    CustomerListIsCatalogPrefix();
  }

  /** The Customer list has 16 pairwise distinct names. */
  lemma CustomerNamesDistinct()
    ensures |CUSTOMER_ROLE_PERMISSIONS| == 16
    ensures forall i, j | 0 <= i < j < |CUSTOMER_ROLE_PERMISSIONS| :: CUSTOMER_ROLE_PERMISSIONS[i] != CUSTOMER_ROLE_PERMISSIONS[j]
  {
  }

  /** Customers get neither the admin area nor review creation. */
  lemma CustomerExcludesAdminAndReviews()
    ensures "admin:access" !in CUSTOMER_ROLE_PERMISSIONS
    ensures "reviews:self:create" !in CUSTOMER_ROLE_PERMISSIONS
  {
  }
}
