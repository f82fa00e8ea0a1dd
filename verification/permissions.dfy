/**
 * The permission catalog of src/server/rbac/permissions.ts: a constant list
 * of 48 rows, each a colon-namespaced name with no description that is not
 * deprecated. The source lists them under four comment headings; the model
 * keeps those headings as four named sub-lists whose concatenation, in
 * source order, is the catalog.
 */
module Permissions {
  import opened Wrappers
  import Rbac
  import Sequences

  /** One entry of `PERMISSIONS`, as inserted into the `permission` table. */
  datatype PermissionRow = PermissionRow(name: string, description: Option<string>, isDeprecated: bool)

  /** The "Customer" heading. */
  const CUSTOMER_PERMISSIONS: seq<PermissionRow> := [
    PermissionRow("account:self:read", None, false),
    PermissionRow("account:self:update", None, false),
    PermissionRow("addresses:self:read", None, false),
    PermissionRow("addresses:self:write", None, false),
    PermissionRow("cart:self:read", None, false),
    PermissionRow("cart:self:write", None, false),
    PermissionRow("cart:self:checkout", None, false),
    PermissionRow("orders:self:read", None, false),
    PermissionRow("orders:self:create", None, false),
    PermissionRow("orders:self:cancel", None, false),
    PermissionRow("orders:self:return", None, false),
    PermissionRow("orders:self:invoice:download", None, false),
    PermissionRow("payments:self:initiate", None, false),
    PermissionRow("payments:self:read", None, false),
    PermissionRow("wishlist:self:read", None, false),
    PermissionRow("wishlist:self:write", None, false),
    PermissionRow("reviews:self:create", None, false)
  ]

  /** The "Public" heading. */
  const PUBLIC_PERMISSIONS: seq<PermissionRow> := [
    PermissionRow("catalog:read", None, false),
    PermissionRow("products:read", None, false),
    PermissionRow("categories:read", None, false),
    PermissionRow("search:read", None, false)
  ]

  /** The "Admin" heading. */
  const ADMIN_PERMISSIONS: seq<PermissionRow> := [
    PermissionRow("admin:access", None, false),
    PermissionRow("users:any:read", None, false),
    PermissionRow("users:any:update", None, false),
    PermissionRow("users:any:ban", None, false),
    PermissionRow("products:any:create", None, false),
    PermissionRow("products:any:read", None, false),
    PermissionRow("products:any:update", None, false),
    PermissionRow("products:any:delete", None, false),
    PermissionRow("products:any:publish", None, false),
    PermissionRow("products:any:archive", None, false),
    PermissionRow("categories:any:write", None, false),
    PermissionRow("inventory:any:read", None, false),
    PermissionRow("inventory:any:update", None, false),
    PermissionRow("orders:any:read", None, false),
    PermissionRow("orders:any:update", None, false),
    PermissionRow("orders:any:cancel", None, false),
    PermissionRow("orders:any:refund", None, false),
    PermissionRow("orders:any:fulfill", None, false),
    PermissionRow("orders:any:ship", None, false),
    PermissionRow("payments:any:read", None, false),
    PermissionRow("payments:any:refund", None, false)
  ]

  /** The "System" heading. */
  const SYSTEM_PERMISSIONS: seq<PermissionRow> := [
    PermissionRow("rbac:roles:any:read", None, false),
    PermissionRow("rbac:roles:any:write", None, false),
    PermissionRow("rbac:permissions:any:read", None, false),
    PermissionRow("rbac:permissions:any:write", None, false),
    PermissionRow("settings:global:read", None, false),
    PermissionRow("settings:global:update", None, false)
  ]

  const PERMISSIONS: seq<PermissionRow> :=
    CUSTOMER_PERMISSIONS + PUBLIC_PERMISSIONS + ADMIN_PERMISSIONS + SYSTEM_PERMISSIONS

  /** `rows.map(p => p.name)`. */
  function Names(rows: seq<PermissionRow>): (r: seq<string>)
    ensures |r| == |rows|
    ensures forall i | 0 <= i < |rows| :: r[i] == rows[i].name
  {
    Sequences.Project(rows, (p: PermissionRow) => p.name)
  }

  /** `PermissionName`: the union type of the catalog's names. */
  predicate IsPermissionName(s: string) {
    s in Names(PERMISSIONS)
  }

  /** No two rows share a name (the `permission_name_unique` constraint). */
  predicate DistinctNames(rows: seq<PermissionRow>) {
    forall i, j | 0 <= i < j < |rows| :: rows[i].name != rows[j].name
  }

  /** No row of `a` shares its name with a row of `b`. */
  predicate DisjointNames(a: seq<PermissionRow>, b: seq<PermissionRow>) {
    forall i, j | 0 <= i < |a| && 0 <= j < |b| :: a[i].name != b[j].name
  }

  lemma {:induction false} DistinctConcat(a: seq<PermissionRow>, b: seq<PermissionRow>)
    requires DistinctNames(a) && DistinctNames(b) && DisjointNames(a, b)
    ensures DistinctNames(a + b)
  {
    forall i, j | 0 <= i < j < |a + b| ensures (a + b)[i].name != (a + b)[j].name {
      if j < |a| {
        assert (a + b)[i] == a[i] && (a + b)[j] == a[j];
      } else if i < |a| {
        assert (a + b)[i] == a[i] && (a + b)[j] == b[j - |a|];
      } else {
        assert (a + b)[i] == b[i - |a|] && (a + b)[j] == b[j - |a|];
      }
    }
  }

  lemma DisjointConcat(a: seq<PermissionRow>, b: seq<PermissionRow>, c: seq<PermissionRow>)
    requires DisjointNames(a, c) && DisjointNames(b, c)
    ensures DisjointNames(a + b, c)
  {
    forall i, j | 0 <= i < |a + b| && 0 <= j < |c| ensures (a + b)[i].name != c[j].name {
      if i < |a| { assert (a + b)[i] == a[i]; } else { assert (a + b)[i] == b[i - |a|]; }
    }
  }

  // Distinctness within each heading and disjointness across headings, one
  // literal comparison table at a time; the two long headings are compared
  // one row at a time.
  lemma CustomerNamesDistinct() ensures DistinctNames(CUSTOMER_PERMISSIONS) {
    forall i | 0 <= i < |CUSTOMER_PERMISSIONS|
      ensures forall j | i < j < |CUSTOMER_PERMISSIONS| :: CUSTOMER_PERMISSIONS[i].name != CUSTOMER_PERMISSIONS[j].name
    {
      CustomerRowUnique(i);
    }
  }

  lemma CustomerRowUnique(i: nat)
    requires i < |CUSTOMER_PERMISSIONS|
    ensures forall j | i < j < |CUSTOMER_PERMISSIONS| :: CUSTOMER_PERMISSIONS[i].name != CUSTOMER_PERMISSIONS[j].name
  {}

  lemma PublicNamesDistinct() ensures DistinctNames(PUBLIC_PERMISSIONS) {}

  lemma AdminNamesDistinct() ensures DistinctNames(ADMIN_PERMISSIONS) {
    forall i | 0 <= i < |ADMIN_PERMISSIONS|
      ensures forall j | i < j < |ADMIN_PERMISSIONS| :: ADMIN_PERMISSIONS[i].name != ADMIN_PERMISSIONS[j].name
    {
      AdminRowUnique(i);
    }
  }

  lemma AdminRowUnique(i: nat)
    requires i < |ADMIN_PERMISSIONS|
    ensures forall j | i < j < |ADMIN_PERMISSIONS| :: ADMIN_PERMISSIONS[i].name != ADMIN_PERMISSIONS[j].name
  {}

  lemma SystemNamesDistinct() ensures DistinctNames(SYSTEM_PERMISSIONS) {}

  lemma CustomerPublicDisjoint() ensures DisjointNames(CUSTOMER_PERMISSIONS, PUBLIC_PERMISSIONS) {}

  lemma CustomerAdminDisjoint() ensures DisjointNames(CUSTOMER_PERMISSIONS, ADMIN_PERMISSIONS) {
    forall i | 0 <= i < |CUSTOMER_PERMISSIONS|
      ensures forall j | 0 <= j < |ADMIN_PERMISSIONS| :: CUSTOMER_PERMISSIONS[i].name != ADMIN_PERMISSIONS[j].name
    {
      CustomerRowNotAdmin(i);
    }
  }

  lemma CustomerRowNotAdmin(i: nat)
    requires i < |CUSTOMER_PERMISSIONS|
    ensures forall j | 0 <= j < |ADMIN_PERMISSIONS| :: CUSTOMER_PERMISSIONS[i].name != ADMIN_PERMISSIONS[j].name
  {}

  lemma CustomerSystemDisjoint() ensures DisjointNames(CUSTOMER_PERMISSIONS, SYSTEM_PERMISSIONS) {}
  lemma PublicAdminDisjoint() ensures DisjointNames(PUBLIC_PERMISSIONS, ADMIN_PERMISSIONS) {}
  lemma PublicSystemDisjoint() ensures DisjointNames(PUBLIC_PERMISSIONS, SYSTEM_PERMISSIONS) {}
  lemma AdminSystemDisjoint() ensures DisjointNames(ADMIN_PERMISSIONS, SYSTEM_PERMISSIONS) {}

  /** The catalog has 48 rows with pairwise distinct names. */
  lemma CatalogNamesDistinct()
    ensures |PERMISSIONS| == 48
    ensures DistinctNames(PERMISSIONS)
    ensures |Rbac.Elements(Names(PERMISSIONS))| == 48
  {
    CustomerNamesDistinct();
    PublicNamesDistinct();
    AdminNamesDistinct();
    SystemNamesDistinct();
    CustomerPublicDisjoint();
    CustomerAdminDisjoint();
    CustomerSystemDisjoint();
    PublicAdminDisjoint();
    PublicSystemDisjoint();
    AdminSystemDisjoint();
    var cp := CUSTOMER_PERMISSIONS + PUBLIC_PERMISSIONS;
    DistinctConcat(CUSTOMER_PERMISSIONS, PUBLIC_PERMISSIONS);
    DisjointConcat(CUSTOMER_PERMISSIONS, PUBLIC_PERMISSIONS, ADMIN_PERMISSIONS);
    DistinctConcat(cp, ADMIN_PERMISSIONS);
    var cpa := cp + ADMIN_PERMISSIONS;
    DisjointConcat(CUSTOMER_PERMISSIONS, PUBLIC_PERMISSIONS, SYSTEM_PERMISSIONS);
    DisjointConcat(cp, ADMIN_PERMISSIONS, SYSTEM_PERMISSIONS);
    DistinctConcat(cpa, SYSTEM_PERMISSIONS);
    assert PERMISSIONS == cpa + SYSTEM_PERMISSIONS;
    DistinctNamesCardinality(PERMISSIONS);
  }

  /** Distinct names make as many elements as rows. */
  lemma {:induction false} DistinctNamesCardinality(rows: seq<PermissionRow>)
    requires DistinctNames(rows)
    ensures |Rbac.Elements(Names(rows))| == |rows|
  {
    if |rows| > 0 {
      DistinctNamesCardinality(rows[1..]);
      var tail := Names(rows[1..]);
      assert Names(rows) == [rows[0].name] + tail;
      assert Rbac.Elements(Names(rows)) == {rows[0].name} + Rbac.Elements(tail);
      assert rows[0].name !in Rbac.Elements(tail);
    }
  }

  /** Every catalog row has no description and is not deprecated. */
  lemma CatalogDefaults()
    ensures forall i | 0 <= i < |PERMISSIONS| :: PERMISSIONS[i].description == None && !PERMISSIONS[i].isDeprecated
  {
  }

  /** The catalog names the admin-area and review-creation permissions. */
  lemma CatalogContainsKeyNames()
    ensures IsPermissionName("admin:access")
    ensures IsPermissionName("reviews:self:create")
  {
    assert Names(PERMISSIONS)[16] == "reviews:self:create";
    assert Names(PERMISSIONS)[21] == "admin:access";
  }
}
