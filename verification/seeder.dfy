/**
 * The initial roles-and-permissions seeder
 * (drizzle/seeders/20260124024254_initial-roles-and-permissions.ts) as a
 * pure transformer of the RBAC store. It upserts the role definitions and
 * the permission catalog by name, reads back the id of every row it
 * touched, expands the "ALL" selector to the catalog list of this run,
 * skips names that got no id, and inserts the resulting role-permission
 * edges unless already present.
 *
 * The uuids the database generates for the two VALUES lists are parameters:
 * `roleIds[i]` for the i-th role definition, `permIds[i]` for the i-th
 * catalog row.
 */
module InitialRolesSeeder {
  import opened Wrappers
  import opened Schema
  import Rbac
  import Permissions
  import Roles

  /** The VALUES list of the role upsert. */
  function RoleValues(defs: seq<Roles.RoleDefinition>): (r: seq<(string, RoleFields)>)
    ensures |r| == |defs|
    ensures forall i | 0 <= i < |defs| :: r[i] == (defs[i].name, RoleFields(Some(defs[i].description), defs[i].isSystem))
  {
    seq(|defs|, i requires 0 <= i < |defs| => (defs[i].name, RoleFields(Some(defs[i].description), defs[i].isSystem)))
  }

  /** The VALUES list of the permission upsert. */
  function PermissionValues(catalog: seq<Permissions.PermissionRow>): (r: seq<(string, PermissionFields)>)
    ensures |r| == |catalog|
    ensures forall i | 0 <= i < |catalog| ::
      r[i] == (catalog[i].name, PermissionFields(catalog[i].description, catalog[i].isDeprecated))
  {
    seq(|catalog|, i requires 0 <= i < |catalog| =>
      (catalog[i].name, PermissionFields(catalog[i].description, catalog[i].isDeprecated)))
  }

  /** The names a role definition selects; "ALL" stands for the catalog list of this run. */
  function Selected(def: Roles.RoleDefinition, permissionNameList: seq<string>): seq<string> {
    match def.permissions
    case AllPermissions => permissionNameList
    case Explicit(names) => names
  }

  /** The inner loop: one edge per selected name that has an id, in list order. */
  function RoleGrants(roleId: Id, names: seq<string>, permIdByName: map<string, Id>): (r: seq<Edge>)
    ensures forall e | e in r :: e.0 == roleId && exists n | n in names && n in permIdByName :: e.1 == permIdByName[n]
    ensures forall n | n in names && n in permIdByName :: (roleId, permIdByName[n]) in r
  {
    if |names| == 0 then []
    else
      var rest := RoleGrants(roleId, names[1..], permIdByName);
      if names[0] in permIdByName then [(roleId, permIdByName[names[0]])] + rest else rest
  }

  /** The edge a seeding run derives for role definition `def` and permission name `n`. */
  predicate Derives(def: Roles.RoleDefinition, n: string, permissionNameList: seq<string>,
                    roleIdByName: map<string, Id>, permIdByName: map<string, Id>, e: Edge) {
    && def.name in roleIdByName
    && n in Selected(def, permissionNameList)
    && n in permIdByName
    && e == (roleIdByName[def.name], permIdByName[n])
  }

  /** The outer loop over the role definitions, skipping a role that got no id. */
  function Mappings(defs: seq<Roles.RoleDefinition>, permissionNameList: seq<string>,
                    roleIdByName: map<string, Id>, permIdByName: map<string, Id>): (r: seq<Edge>)
    ensures forall e | e in r :: exists i, n | 0 <= i < |defs| && n in Selected(defs[i], permissionNameList) ::
      Derives(defs[i], n, permissionNameList, roleIdByName, permIdByName, e)
    ensures forall i, n | 0 <= i < |defs| && defs[i].name in roleIdByName &&
                          n in Selected(defs[i], permissionNameList) && n in permIdByName ::
      (roleIdByName[defs[i].name], permIdByName[n]) in r
  {
    if |defs| == 0 then []
    else
      var rest := Mappings(defs[1..], permissionNameList, roleIdByName, permIdByName);
      if defs[0].name !in roleIdByName then rest
      else RoleGrants(roleIdByName[defs[0].name], Selected(defs[0], permissionNameList), permIdByName) + rest
  }

  /** Role definitions with pairwise distinct names, as `Object.entries` of an object yields. */
  predicate DistinctRoleNames(defs: seq<Roles.RoleDefinition>) {
    forall i, j | 0 <= i < j < |defs| :: defs[i].name != defs[j].name
  }

  /** The role upsert of the seeder, stated on role definitions. */
  function UpsertRoles(t: Table<RoleFields>, defs: seq<Roles.RoleDefinition>, roleIds: seq<Id>): (r: Table<RoleFields>)
    requires |roleIds| == |defs| && DistinctRoleNames(defs)
    ensures r.Keys == t.Keys + Rbac.Elements(Roles.RoleNames(defs))
    ensures forall i | 0 <= i < |defs| ::
      r[defs[i].name].fields == RoleFields(Some(defs[i].description), defs[i].isSystem)
    ensures forall i | 0 <= i < |defs| && defs[i].name !in t :: r[defs[i].name].id == roleIds[i]
    ensures forall n | n in t :: r[n].id == t[n].id
    ensures forall n | n in t && n !in Roles.RoleNames(defs) :: r[n] == t[n]
  {
    var values := RoleValues(defs);
    assert KeysOf(values) == Rbac.Elements(Roles.RoleNames(defs)) by {
      forall n | n in Rbac.Elements(Roles.RoleNames(defs)) ensures n in KeysOf(values) {
        var i :| 0 <= i < |defs| && Roles.RoleNames(defs)[i] == n;
        assert values[i].0 == n;
      }
    }
    Upsert(t, values, roleIds)
  }

  /** The permission upsert of the seeder, stated on catalog rows. */
  function UpsertPermissions(t: Table<PermissionFields>, catalog: seq<Permissions.PermissionRow>, permIds: seq<Id>)
    : (r: Table<PermissionFields>)
    requires |permIds| == |catalog| && Permissions.DistinctNames(catalog)
    ensures r.Keys == t.Keys + Rbac.Elements(Permissions.Names(catalog))
    ensures forall i | 0 <= i < |catalog| ::
      r[catalog[i].name].fields == PermissionFields(catalog[i].description, catalog[i].isDeprecated)
    ensures forall i | 0 <= i < |catalog| && catalog[i].name !in t :: r[catalog[i].name].id == permIds[i]
    ensures forall n | n in t :: r[n].id == t[n].id
    ensures forall n | n in t && n !in Permissions.Names(catalog) :: r[n] == t[n]
  {
    var values := PermissionValues(catalog);
    assert KeysOf(values) == Rbac.Elements(Permissions.Names(catalog)) by {
      forall n | n in Rbac.Elements(Permissions.Names(catalog)) ensures n in KeysOf(values) {
        var i :| 0 <= i < |catalog| && Permissions.Names(catalog)[i] == n;
        assert values[i].0 == n;
      }
    }
    Upsert(t, values, permIds)
  }

  /**
   * Edge `e` comes from role definition `i` selecting catalog name `n`, with
   * the ids the two names have in the seeded tables.
   */
  predicate SeededEdge(roles: Table<RoleFields>, permissions: Table<PermissionFields>,
                       defs: seq<Roles.RoleDefinition>, catalog: seq<Permissions.PermissionRow>, e: Edge) {
    exists i, n | 0 <= i < |defs| && n in Selected(defs[i], Permissions.Names(catalog)) ::
      && n in Permissions.Names(catalog)
      && defs[i].name in roles && n in permissions
      && e == (roles[defs[i].name].id, permissions[n].id)
  }

  /** The edges the seeder computes from the ids it read back. */
  function SeedMappings(roles: Table<RoleFields>, permissions: Table<PermissionFields>,
                        defs: seq<Roles.RoleDefinition>, catalog: seq<Permissions.PermissionRow>): seq<Edge>
    requires Rbac.Elements(Roles.RoleNames(defs)) <= roles.Keys
    requires Rbac.Elements(Permissions.Names(catalog)) <= permissions.Keys
  {
    var roleIdByName := ReturnedIds(roles, Rbac.Elements(Roles.RoleNames(defs)));
    var permIdByName := ReturnedIds(permissions, Rbac.Elements(Permissions.Names(catalog)));
    Mappings(defs, Permissions.Names(catalog), roleIdByName, permIdByName)
  }

  /** Every computed edge joins a role to a catalog name it selects. */
  lemma SeedMappingsSound(roles: Table<RoleFields>, permissions: Table<PermissionFields>,
                          defs: seq<Roles.RoleDefinition>, catalog: seq<Permissions.PermissionRow>)
    requires Rbac.Elements(Roles.RoleNames(defs)) <= roles.Keys
    requires Rbac.Elements(Permissions.Names(catalog)) <= permissions.Keys
    ensures forall e | e in SeedMappings(roles, permissions, defs, catalog) :: SeededEdge(roles, permissions, defs, catalog, e)
  {
    var names := Permissions.Names(catalog);
    var roleIdByName := ReturnedIds(roles, Rbac.Elements(Roles.RoleNames(defs)));
    var permIdByName := ReturnedIds(permissions, Rbac.Elements(names));
    forall e | e in SeedMappings(roles, permissions, defs, catalog)
      ensures SeededEdge(roles, permissions, defs, catalog, e)
    {
      var i, n :| 0 <= i < |defs| && n in Selected(defs[i], names) &&
                  Derives(defs[i], n, names, roleIdByName, permIdByName, e);
      assert n in names && defs[i].name in roles && n in permissions;
    }
  }

  /** Every role gets an edge to every catalog name it selects. */
  lemma SeedMappingsComplete(roles: Table<RoleFields>, permissions: Table<PermissionFields>,
                             defs: seq<Roles.RoleDefinition>, catalog: seq<Permissions.PermissionRow>)
    requires Rbac.Elements(Roles.RoleNames(defs)) <= roles.Keys
    requires Rbac.Elements(Permissions.Names(catalog)) <= permissions.Keys
    ensures forall i, n | 0 <= i < |defs| && n in Selected(defs[i], Permissions.Names(catalog)) &&
                          n in Permissions.Names(catalog) ::
      (roles[defs[i].name].id, permissions[n].id) in SeedMappings(roles, permissions, defs, catalog)
  {
    var names := Permissions.Names(catalog);
    var roleIdByName := ReturnedIds(roles, Rbac.Elements(Roles.RoleNames(defs)));
    forall i | 0 <= i < |defs| ensures defs[i].name in roleIdByName {
      assert Roles.RoleNames(defs)[i] == defs[i].name;
    }
  }

  /**
   * `seed(db)` run against arbitrary role definitions and catalog. The edge
   * table gains exactly the edges from each role to each selected catalog
   * name, with "ALL" meaning the catalog list of this run; nothing is removed.
   */
  function SeedWith(db: Store, defs: seq<Roles.RoleDefinition>, catalog: seq<Permissions.PermissionRow>,
                    roleIds: seq<Id>, permIds: seq<Id>): (r: Store)
    requires |roleIds| == |defs| && |permIds| == |catalog|
    requires DistinctRoleNames(defs) && Permissions.DistinctNames(catalog)
    ensures r.users == db.users && r.userRoles == db.userRoles && r.userPermissions == db.userPermissions
    ensures r.roles == UpsertRoles(db.roles, defs, roleIds)
    ensures r.permissions == UpsertPermissions(db.permissions, catalog, permIds)
    ensures db.rolePermissions <= r.rolePermissions
    ensures forall e | e in r.rolePermissions - db.rolePermissions :: SeededEdge(r.roles, r.permissions, defs, catalog, e)
    ensures forall i, n | 0 <= i < |defs| && n in Selected(defs[i], Permissions.Names(catalog)) &&
                          n in Permissions.Names(catalog) ::
      (r.roles[defs[i].name].id, r.permissions[n].id) in r.rolePermissions
  {
    var roles := UpsertRoles(db.roles, defs, roleIds);
    var permissions := UpsertPermissions(db.permissions, catalog, permIds);
    var mappings := SeedMappings(roles, permissions, defs, catalog);
    SeedMappingsSound(roles, permissions, defs, catalog);
    SeedMappingsComplete(roles, permissions, defs, catalog);
    db.(roles := roles, permissions := permissions,
        rolePermissions := InsertEdges(db.rolePermissions, mappings))
  }

  /** Running the seeder a second time, with whatever ids, changes no table. */
  lemma SeedIdempotent(db: Store, defs: seq<Roles.RoleDefinition>, catalog: seq<Permissions.PermissionRow>,
                       roleIds1: seq<Id>, permIds1: seq<Id>, roleIds2: seq<Id>, permIds2: seq<Id>)
    requires |roleIds1| == |defs| && |permIds1| == |catalog|
    requires |roleIds2| == |defs| && |permIds2| == |catalog|
    requires DistinctRoleNames(defs) && Permissions.DistinctNames(catalog)
    ensures var once := SeedWith(db, defs, catalog, roleIds1, permIds1);
            SeedWith(once, defs, catalog, roleIds2, permIds2) == once
  {
    var once := SeedWith(db, defs, catalog, roleIds1, permIds1);
    var twice := SeedWith(once, defs, catalog, roleIds2, permIds2);
    UpsertIdempotent(db.roles, RoleValues(defs), roleIds1, roleIds2);
    UpsertIdempotent(db.permissions, PermissionValues(catalog), permIds1, permIds2);
    assert twice.roles == once.roles;
    assert twice.permissions == once.permissions;
    assert twice.rolePermissions <= once.rolePermissions;
  }

  /**
   * A store that only adds role and permission rows (keeping ids unique),
   * leaves the user tables alone and adds edges between existing rows is
   * still valid.
   */
  lemma ValidAfterGrowth(db: Store, r: Store)
    requires Valid(db)
    requires UniqueIds(r.roles) && UniqueIds(r.permissions)
    requires Ids(db.roles) <= Ids(r.roles) && Ids(db.permissions) <= Ids(r.permissions)
    requires r.users == db.users && r.userRoles == db.userRoles && r.userPermissions == db.userPermissions
    requires db.rolePermissions <= r.rolePermissions
    requires forall e | e in r.rolePermissions - db.rolePermissions :: e.0 in Ids(r.roles) && e.1 in Ids(r.permissions)
    ensures Valid(r)
  {
  }

  /** With freshly generated ids the seeder keeps every key and foreign key intact. */
  lemma SeedPreservesValid(db: Store, defs: seq<Roles.RoleDefinition>, catalog: seq<Permissions.PermissionRow>,
                           roleIds: seq<Id>, permIds: seq<Id>)
    requires |roleIds| == |defs| && |permIds| == |catalog|
    requires DistinctRoleNames(defs) && Permissions.DistinctNames(catalog)
    requires Valid(db) && FreshIds(db.roles, roleIds) && FreshIds(db.permissions, permIds)
    ensures Valid(SeedWith(db, defs, catalog, roleIds, permIds))
  {
    var r := SeedWith(db, defs, catalog, roleIds, permIds);
    UpsertKeepsIdsUnique(db.roles, RoleValues(defs), roleIds);
    UpsertKeepsIdsUnique(db.permissions, PermissionValues(catalog), permIds);
    forall e | e in r.rolePermissions - db.rolePermissions ensures e.0 in Ids(r.roles) && e.1 in Ids(r.permissions) {
      var i, n :| 0 <= i < |defs| && n in Selected(defs[i], Permissions.Names(catalog)) &&
                  n in Permissions.Names(catalog) && defs[i].name in r.roles && n in r.permissions &&
                  e == (r.roles[defs[i].name].id, r.permissions[n].id);
    }
    ValidAfterGrowth(db, r);
  }

  /**
   * A role gains a new permission edge only if one of its definitions
   * selects that permission's name and the catalog of this run lists it.
   */
  lemma NewEdgeOnlyIfSelected(db: Store, defs: seq<Roles.RoleDefinition>, catalog: seq<Permissions.PermissionRow>,
                              roleIds: seq<Id>, permIds: seq<Id>, roleName: string, permName: string)
    requires |roleIds| == |defs| && |permIds| == |catalog|
    requires DistinctRoleNames(defs) && Permissions.DistinctNames(catalog)
    requires UniqueIds(db.roles) && FreshIds(db.roles, roleIds)
    requires UniqueIds(db.permissions) && FreshIds(db.permissions, permIds)
    ensures var r := SeedWith(db, defs, catalog, roleIds, permIds);
      roleName in r.roles && permName in r.permissions &&
      (r.roles[roleName].id, r.permissions[permName].id) in r.rolePermissions - db.rolePermissions ==>
        && permName in Permissions.Names(catalog)
        && exists i | 0 <= i < |defs| :: defs[i].name == roleName && permName in Selected(defs[i], Permissions.Names(catalog))
  {
    var r := SeedWith(db, defs, catalog, roleIds, permIds);
    if roleName in r.roles && permName in r.permissions &&
       (r.roles[roleName].id, r.permissions[permName].id) in r.rolePermissions - db.rolePermissions {
      UpsertKeepsIdsUnique(db.roles, RoleValues(defs), roleIds);
      UpsertKeepsIdsUnique(db.permissions, PermissionValues(catalog), permIds);
      var e := (r.roles[roleName].id, r.permissions[permName].id);
      assert SeededEdge(r.roles, r.permissions, defs, catalog, e);
      var i, n :| 0 <= i < |defs| && n in Selected(defs[i], Permissions.Names(catalog)) &&
                  n in Permissions.Names(catalog) && defs[i].name in r.roles && n in r.permissions &&
                  e == (r.roles[defs[i].name].id, r.permissions[n].id);
      assert defs[i].name == roleName;
      assert n == permName;
    }
  }

  /**
   * The expansion is materialised: a permission row whose name is not in the
   * catalog list of this run (added later, or a name a role lists but the
   * catalog lacks) receives no new edge.
   */
  lemma NoNewEdgeOutsideCatalog(db: Store, defs: seq<Roles.RoleDefinition>, catalog: seq<Permissions.PermissionRow>,
                                roleIds: seq<Id>, permIds: seq<Id>, roleName: string, permName: string)
    requires |roleIds| == |defs| && |permIds| == |catalog|
    requires DistinctRoleNames(defs) && Permissions.DistinctNames(catalog)
    requires UniqueIds(db.roles) && FreshIds(db.roles, roleIds)
    requires UniqueIds(db.permissions) && FreshIds(db.permissions, permIds)
    requires permName !in Permissions.Names(catalog)
    ensures var r := SeedWith(db, defs, catalog, roleIds, permIds);
      roleName in r.roles && permName in r.permissions &&
      (r.roles[roleName].id, r.permissions[permName].id) in r.rolePermissions ==>
      (r.roles[roleName].id, r.permissions[permName].id) in db.rolePermissions
  {
    var r := SeedWith(db, defs, catalog, roleIds, permIds);
    if roleName in r.roles && permName in r.permissions &&
       (r.roles[roleName].id, r.permissions[permName].id) in r.rolePermissions - db.rolePermissions {
      NewEdgeOnlyIfSelected(db, defs, catalog, roleIds, permIds, roleName, permName);
      assert false;
    }
  }

  /** A role defined with "ALL" is granted every permission of the catalog list of this run. */
  lemma AllSelectorGrantsCatalog(db: Store, defs: seq<Roles.RoleDefinition>, catalog: seq<Permissions.PermissionRow>,
                                 roleIds: seq<Id>, permIds: seq<Id>, i: nat)
    requires |roleIds| == |defs| && |permIds| == |catalog|
    requires DistinctRoleNames(defs) && Permissions.DistinctNames(catalog)
    requires i < |defs| && defs[i].permissions == Roles.AllPermissions
    ensures var r := SeedWith(db, defs, catalog, roleIds, permIds);
      forall j | 0 <= j < |catalog| :: (r.roles[defs[i].name].id, r.permissions[catalog[j].name].id) in r.rolePermissions
  {
    var names := Permissions.Names(catalog);
    forall j | 0 <= j < |catalog| ensures catalog[j].name in Selected(defs[i], names) && catalog[j].name in names {
      assert names[j] == catalog[j].name;
    }
  }

  /** A role with an explicit list is granted each listed name the catalog of this run knows. */
  lemma ExplicitSelectorGrantsListed(db: Store, defs: seq<Roles.RoleDefinition>, catalog: seq<Permissions.PermissionRow>,
                                     roleIds: seq<Id>, permIds: seq<Id>, i: nat)
    requires |roleIds| == |defs| && |permIds| == |catalog|
    requires DistinctRoleNames(defs) && Permissions.DistinctNames(catalog)
    requires i < |defs| && defs[i].permissions.Explicit?
    ensures var r := SeedWith(db, defs, catalog, roleIds, permIds);
      var names := defs[i].permissions.names;
      forall j | 0 <= j < |names| && names[j] in Permissions.Names(catalog) ::
        names[j] in r.permissions && (r.roles[defs[i].name].id, r.permissions[names[j]].id) in r.rolePermissions
  {
    var names := defs[i].permissions.names;
    forall j | 0 <= j < |names| ensures names[j] in Selected(defs[i], Permissions.Names(catalog)) {
    }
  }

  lemma RoleDefinitionNamesDistinct()
    ensures DistinctRoleNames(Roles.ROLE_DEFINITIONS)
  {
  }

  /** The role named `name` is defined with "ALL": it is granted the whole catalog of this run. */
  lemma NamedAllRoleGrants(db: Store, defs: seq<Roles.RoleDefinition>, catalog: seq<Permissions.PermissionRow>,
                           roleIds: seq<Id>, permIds: seq<Id>, name: string)
    requires |roleIds| == |defs| && |permIds| == |catalog|
    requires DistinctRoleNames(defs) && Permissions.DistinctNames(catalog)
    requires exists i | 0 <= i < |defs| :: defs[i].name == name && defs[i].permissions == Roles.AllPermissions
    ensures var r := SeedWith(db, defs, catalog, roleIds, permIds);
      name in r.roles &&
      forall j | 0 <= j < |catalog| ::
        catalog[j].name in r.permissions && (r.roles[name].id, r.permissions[catalog[j].name].id) in r.rolePermissions
  {
    var i :| 0 <= i < |defs| && defs[i].name == name && defs[i].permissions == Roles.AllPermissions;
    AllSelectorGrantsCatalog(db, defs, catalog, roleIds, permIds, i);
  }

  /** The role named `name` lists `names`: it is granted each of them the catalog knows. */
  lemma NamedExplicitRoleGrants(db: Store, defs: seq<Roles.RoleDefinition>, catalog: seq<Permissions.PermissionRow>,
                                roleIds: seq<Id>, permIds: seq<Id>, name: string, names: seq<string>)
    requires |roleIds| == |defs| && |permIds| == |catalog|
    requires DistinctRoleNames(defs) && Permissions.DistinctNames(catalog)
    requires exists i | 0 <= i < |defs| :: defs[i].name == name && defs[i].permissions == Roles.Explicit(names)
    ensures var r := SeedWith(db, defs, catalog, roleIds, permIds);
      name in r.roles &&
      forall j | 0 <= j < |names| && names[j] in Permissions.Names(catalog) ::
        names[j] in r.permissions && (r.roles[name].id, r.permissions[names[j]].id) in r.rolePermissions
  {
    var i :| 0 <= i < |defs| && defs[i].name == name && defs[i].permissions == Roles.Explicit(names);
    ExplicitSelectorGrantsListed(db, defs, catalog, roleIds, permIds, i);
  }

  /** `seed(db)` with the shipped role definitions and catalog. */
  function Seed(db: Store, roleIds: seq<Id>, permIds: seq<Id>): (r: Store)
    requires |roleIds| == |Roles.ROLE_DEFINITIONS| && |permIds| == |Permissions.PERMISSIONS|
    ensures r.roles.Keys == db.roles.Keys + {"Super Admin", "Customer"}
    ensures r.roles["Super Admin"].fields == RoleFields(Some("System Generated"), true)
    ensures r.roles["Customer"].fields == RoleFields(Some("Default customer role"), true)
  {
    Permissions.CatalogNamesDistinct();
    RoleDefinitionNamesDistinct();
    Roles.RoleCatalogShape();
    var defs := Roles.ROLE_DEFINITIONS;
    assert Rbac.Elements(Roles.RoleNames(defs)) == {"Super Admin", "Customer"} by {
      assert Roles.RoleNames(defs) == ["Super Admin", "Customer"];
    }
    assert defs[0].name == "Super Admin" && defs[0].description == "System Generated" && defs[0].isSystem;
    assert defs[1].name == "Customer" && defs[1].description == "Default customer role" && defs[1].isSystem;
    SeedWith(db, defs, Permissions.PERMISSIONS, roleIds, permIds)
  }

  /** The shipped definitions and catalog meet the seeder's requirements, and the role list has two entries. */
  lemma ShippedDefinitions()
    ensures DistinctRoleNames(Roles.ROLE_DEFINITIONS) && Permissions.DistinctNames(Permissions.PERMISSIONS)
    ensures |Roles.ROLE_DEFINITIONS| == 2
    ensures Roles.ROLE_DEFINITIONS[0].name == "Super Admin" && Roles.ROLE_DEFINITIONS[0].permissions == Roles.AllPermissions
    ensures Roles.ROLE_DEFINITIONS[1].name == "Customer"
    ensures Roles.ROLE_DEFINITIONS[1].permissions == Roles.Explicit(Roles.CUSTOMER_ROLE_PERMISSIONS)
  {
    Permissions.CatalogNamesDistinct();
    RoleDefinitionNamesDistinct();
  }

  /** Super Admin is granted all 48 catalog permissions. */
  lemma SeedGrantsSuperAdminAll(db: Store, roleIds: seq<Id>, permIds: seq<Id>)
    requires |roleIds| == |Roles.ROLE_DEFINITIONS| && |permIds| == |Permissions.PERMISSIONS|
    ensures var r := Seed(db, roleIds, permIds);
      forall j | 0 <= j < |Permissions.PERMISSIONS| ::
        Permissions.PERMISSIONS[j].name in r.permissions &&
        (r.roles["Super Admin"].id, r.permissions[Permissions.PERMISSIONS[j].name].id) in r.rolePermissions
  {
    ShippedDefinitions();
    var defs := Roles.ROLE_DEFINITIONS;
    var catalog := Permissions.PERMISSIONS;
    assert Seed(db, roleIds, permIds) == SeedWith(db, defs, catalog, roleIds, permIds);
    assert defs[0].name == "Super Admin" && defs[0].permissions == Roles.AllPermissions;
    NamedAllRoleGrants(db, defs, catalog, roleIds, permIds, "Super Admin");
  }

  /** Customer is granted each of its 16 listed permissions. */
  lemma SeedGrantsCustomerList(db: Store, roleIds: seq<Id>, permIds: seq<Id>)
    requires |roleIds| == |Roles.ROLE_DEFINITIONS| && |permIds| == |Permissions.PERMISSIONS|
    ensures var r := Seed(db, roleIds, permIds);
      forall j | 0 <= j < |Roles.CUSTOMER_ROLE_PERMISSIONS| ::
        Roles.CUSTOMER_ROLE_PERMISSIONS[j] in r.permissions &&
        (r.roles["Customer"].id, r.permissions[Roles.CUSTOMER_ROLE_PERMISSIONS[j]].id) in r.rolePermissions
  {
    ShippedDefinitions();
    Roles.CustomerNamesInCatalog();
    var defs := Roles.ROLE_DEFINITIONS;
    var catalog := Permissions.PERMISSIONS;
    assert Seed(db, roleIds, permIds) == SeedWith(db, defs, catalog, roleIds, permIds);
    assert defs[1].name == "Customer" && defs[1].permissions == Roles.Explicit(Roles.CUSTOMER_ROLE_PERMISSIONS);
    NamedExplicitRoleGrants(db, defs, catalog, roleIds, permIds, "Customer", Roles.CUSTOMER_ROLE_PERMISSIONS);
  }

  /** A role defined with an explicit list gains no edge to a permission it does not list. */
  lemma ExplicitRoleGainsOnlyListed(db: Store, defs: seq<Roles.RoleDefinition>, catalog: seq<Permissions.PermissionRow>,
                                    roleIds: seq<Id>, permIds: seq<Id>, name: string, names: seq<string>, permName: string)
    requires |roleIds| == |defs| && |permIds| == |catalog|
    requires DistinctRoleNames(defs) && Permissions.DistinctNames(catalog)
    requires UniqueIds(db.roles) && FreshIds(db.roles, roleIds)
    requires UniqueIds(db.permissions) && FreshIds(db.permissions, permIds)
    requires exists i | 0 <= i < |defs| :: defs[i].name == name && defs[i].permissions == Roles.Explicit(names)
    requires permName !in names
    ensures var r := SeedWith(db, defs, catalog, roleIds, permIds);
      name in r.roles && permName in r.permissions &&
      (r.roles[name].id, r.permissions[permName].id) in r.rolePermissions ==>
      (r.roles[name].id, r.permissions[permName].id) in db.rolePermissions
  {
    var r := SeedWith(db, defs, catalog, roleIds, permIds);
    if name in r.roles && permName in r.permissions &&
       (r.roles[name].id, r.permissions[permName].id) in r.rolePermissions - db.rolePermissions {
      NewEdgeOnlyIfSelected(db, defs, catalog, roleIds, permIds, name, permName);
      SelectedByExplicitIsListed(defs, catalog, name, names, permName);
      assert false;
    }
  }

  /** A name selected by the definition of a role with an explicit list is on that list. */
  lemma SelectedByExplicitIsListed(defs: seq<Roles.RoleDefinition>, catalog: seq<Permissions.PermissionRow>,
                                   name: string, names: seq<string>, permName: string)
    requires DistinctRoleNames(defs)
    requires exists i | 0 <= i < |defs| :: defs[i].name == name && defs[i].permissions == Roles.Explicit(names)
    requires exists j | 0 <= j < |defs| :: defs[j].name == name && permName in Selected(defs[j], Permissions.Names(catalog))
    ensures permName in names
  {
    var j :| 0 <= j < |defs| && defs[j].name == name && permName in Selected(defs[j], Permissions.Names(catalog));
    var i :| 0 <= i < |defs| && defs[i].name == name && defs[i].permissions == Roles.Explicit(names);
    SameNameSameDefinition(defs, i, j);
  }

  lemma SameNameSameDefinition(defs: seq<Roles.RoleDefinition>, i: nat, j: nat)
    requires DistinctRoleNames(defs) && i < |defs| && j < |defs| && defs[i].name == defs[j].name
    ensures i == j
  {
  }

  /**
   * Seeding never grants "admin:access" to Customer: if the edge was not
   * there before, it is not there after.
   */
  lemma SeedKeepsCustomerOutOfAdmin(db: Store, roleIds: seq<Id>, permIds: seq<Id>)
    requires |roleIds| == |Roles.ROLE_DEFINITIONS| && |permIds| == |Permissions.PERMISSIONS|
    requires UniqueIds(db.roles) && FreshIds(db.roles, roleIds)
    requires UniqueIds(db.permissions) && FreshIds(db.permissions, permIds)
    ensures var r := Seed(db, roleIds, permIds);
      "admin:access" in r.permissions &&
      ((r.roles["Customer"].id, r.permissions["admin:access"].id) in r.rolePermissions ==>
       (r.roles["Customer"].id, r.permissions["admin:access"].id) in db.rolePermissions)
  {
    ShippedDefinitions();
    Permissions.CatalogContainsKeyNames();
    Roles.CustomerExcludesAdminAndReviews();
    var defs := Roles.ROLE_DEFINITIONS;
    var catalog := Permissions.PERMISSIONS;
    assert Seed(db, roleIds, permIds) == SeedWith(db, defs, catalog, roleIds, permIds);
    assert defs[1].name == "Customer" && defs[1].permissions == Roles.Explicit(Roles.CUSTOMER_ROLE_PERMISSIONS);
    ExplicitRoleGainsOnlyListed(db, defs, catalog, roleIds, permIds,
                                "Customer", Roles.CUSTOMER_ROLE_PERMISSIONS, "admin:access");
  }
}
