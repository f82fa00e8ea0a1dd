/**
 * The RBAC tables of src/server/db/schema.ts as a value: `role` and
 * `permission` are keyed by their unique `name` and carry a generated
 * primary-key id; `role_permission`, `user_role` and `user_permission` are
 * sets of id pairs, their composite primary keys. Timestamps are not
 * modelled. The statements the seeder issues against these tables
 * (insert-or-update by name, insert-or-ignore of edges) and the refusal to
 * delete a referenced row are defined here.
 */
module Schema {
  import opened Wrappers

  /** A generated uuid primary key. */
  type Id = nat

  /** The updatable columns of a `role` row. */
  datatype RoleFields = RoleFields(description: Option<string>, isSystem: bool)

  /** The updatable columns of a `permission` row. */
  datatype PermissionFields = PermissionFields(description: Option<string>, isDeprecated: bool)

  /** A row of a table with a generated id; its unique `name` is the map key. */
  datatype Row<F> = Row(id: Id, fields: F)

  type Table<F> = map<string, Row<F>>

  /** A row of an edge table: (roleId, permissionId), (userId, roleId) or (userId, permissionId). */
  type Edge = (Id, Id)

  datatype Store = Store(
    users: set<Id>,
    roles: Table<RoleFields>,
    permissions: Table<PermissionFields>,
    rolePermissions: set<Edge>,
    userRoles: set<Edge>,
    userPermissions: set<Edge>)

  /** The primary keys present in a table. */
  function Ids<F>(t: Table<F>): set<Id> {
    set n | n in t :: t[n].id
  }

  /** No two names share an id: the id column is a primary key. */
  predicate UniqueIds<F>(t: Table<F>) {
    forall a, b | a in t && b in t && t[a].id == t[b].id :: a == b
  }

  /** Primary keys and the six foreign keys of the three edge tables. */
  predicate Valid(db: Store) {
    && UniqueIds(db.roles)
    && UniqueIds(db.permissions)
    && (forall e | e in db.rolePermissions :: e.0 in Ids(db.roles) && e.1 in Ids(db.permissions))
    && (forall e | e in db.userRoles :: e.0 in db.users && e.1 in Ids(db.roles))
    && (forall e | e in db.userPermissions :: e.0 in db.users && e.1 in Ids(db.permissions))
  }

  /** The names a VALUES list inserts. */
  function KeysOf<F>(values: seq<(string, F)>): set<string> {
    set i | 0 <= i < |values| :: values[i].0
  }

  /** No name occurs twice in a VALUES list. */
  predicate DistinctKeys<F>(values: seq<(string, F)>) {
    forall i, j | 0 <= i < j < |values| :: values[i].0 != values[j].0
  }

  /** Ids the database generated for a statement: pairwise distinct and unused in the table. */
  predicate FreshIds<F>(t: Table<F>, ids: seq<Id>) {
    && (forall i, j | 0 <= i < j < |ids| :: ids[i] != ids[j])
    && (forall i | 0 <= i < |ids| :: ids[i] !in Ids(t))
  }

  /**
   * `insert(values).onConflictDoUpdate({target: name, set: fields})`: a new
   * name gets a row with the id generated for its VALUES entry; an existing
   * name keeps its id and takes the new fields. `ids[i]` is the id generated
   * for `values[i]`. The database refuses a statement that would update one
   * row twice, hence the distinct names.
   */
  function Upsert<F>(t: Table<F>, values: seq<(string, F)>, ids: seq<Id>): (r: Table<F>)
    requires |ids| == |values|
    requires DistinctKeys(values)
    decreases |values|
    ensures r.Keys == t.Keys + KeysOf(values)
    ensures forall i | 0 <= i < |values| :: r[values[i].0].fields == values[i].1
    ensures forall i | 0 <= i < |values| && values[i].0 !in t :: r[values[i].0].id == ids[i]
    ensures forall n | n in t :: r[n].id == t[n].id
    ensures forall n | n in t && n !in KeysOf(values) :: r[n] == t[n]
  {
    if |values| == 0 then t
    else
      var name := values[0].0;
      var row := if name in t then Row(t[name].id, values[0].1) else Row(ids[0], values[0].1);
      KeysOfCons(values);
      Upsert(t[name := row], values[1..], ids[1..])
  }

  /** The first name of a VALUES list with distinct names does not recur in the rest. */
  lemma KeysOfCons<F>(values: seq<(string, F)>)
    requires |values| > 0 && DistinctKeys(values)
    ensures KeysOf(values) == {values[0].0} + KeysOf(values[1..])
    ensures values[0].0 !in KeysOf(values[1..])
    ensures DistinctKeys(values[1..])
  {
    forall k | k in KeysOf(values) ensures k in {values[0].0} + KeysOf(values[1..]) {
      var i :| 0 <= i < |values| && values[i].0 == k;
      if i > 0 { assert values[1..][i - 1].0 == k; }
    }
    forall k | k in KeysOf(values[1..]) ensures k in KeysOf(values) && k != values[0].0 {
      var i :| 0 <= i < |values[1..]| && values[1..][i].0 == k;
      assert values[i + 1].0 == k;
    }
  }

  /** Re-running an upsert with the same values changes nothing, whatever ids it generates. */
  lemma UpsertIdempotent<F>(t: Table<F>, values: seq<(string, F)>, ids1: seq<Id>, ids2: seq<Id>)
    requires |ids1| == |values| && |ids2| == |values|
    requires DistinctKeys(values)
    ensures Upsert(Upsert(t, values, ids1), values, ids2) == Upsert(t, values, ids1)
  {
    var u := Upsert(t, values, ids1);
    var w := Upsert(u, values, ids2);
    forall n | n in w ensures w[n] == u[n] {
      if n in KeysOf(values) {
        var i :| 0 <= i < |values| && values[i].0 == n;
        assert w[n].fields == u[n].fields;
      }
    }
  }

  /** With freshly generated ids an upsert keeps every id unique, and only adds ids. */
  lemma UpsertKeepsIdsUnique<F>(t: Table<F>, values: seq<(string, F)>, ids: seq<Id>)
    requires |ids| == |values|
    requires DistinctKeys(values)
    requires UniqueIds(t) && FreshIds(t, ids)
    ensures UniqueIds(Upsert(t, values, ids))
    ensures Ids(t) <= Ids(Upsert(t, values, ids))
  {
    var r := Upsert(t, values, ids);
    forall a, b | a in r && b in r && r[a].id == r[b].id ensures a == b {
      if a !in t && b !in t {
        var i :| 0 <= i < |values| && values[i].0 == a;
        var j :| 0 <= j < |values| && values[j].0 == b;
        assert ids[i] == ids[j];
      }
    }
    forall x | x in Ids(t) ensures x in Ids(r) {
      var n :| n in t && t[n].id == x;
      assert r[n].id == x;
    }
  }

  /** `.returning()` turned into a name-to-id map: the id of every row the statement touched. */
  function ReturnedIds<F>(t: Table<F>, names: set<string>): (r: map<string, Id>)
    requires names <= t.Keys
    ensures r.Keys == names
    ensures forall n | n in r :: r[n] in Ids(t)
    ensures forall n | n in r :: r[n] == t[n].id
  {
    map n | n in names :: t[n].id
  }

  /** `insert(edges).onConflictDoNothing()` on a table whose key is the whole pair. */
  function InsertEdges(table: set<Edge>, edges: seq<Edge>): (r: set<Edge>)
    ensures table <= r
    ensures forall e | e in r - table :: e in edges
    ensures forall i | 0 <= i < |edges| :: edges[i] in r
  {
    table + set i | 0 <= i < |edges| :: edges[i]
  }

  /** Inserting the same edges again adds nothing: a grant is recorded at most once. */
  lemma InsertEdgesIdempotent(table: set<Edge>, edges: seq<Edge>)
    ensures InsertEdges(InsertEdges(table, edges), edges) == InsertEdges(table, edges)
  {
  }

  /**
   * `delete from role where name = ...`. The foreign keys from
   * `role_permission` and `user_role` declare no `onDelete` action, so a role
   * still referenced by an edge cannot be deleted; a missing name deletes
   * nothing.
   */
  function DeleteRole(db: Store, name: string): (r: Option<Store>)
    ensures r.None? <==>
      name in db.roles &&
      ((exists e | e in db.rolePermissions :: e.0 == db.roles[name].id) ||
       (exists e | e in db.userRoles :: e.1 == db.roles[name].id))
    ensures r.Some? ==> r.value.roles.Keys == db.roles.Keys - {name}
    ensures r.Some? ==> forall n | n in r.value.roles :: r.value.roles[n] == db.roles[n]
    ensures r.Some? ==> r.value.(roles := db.roles) == db
  {
    if name !in db.roles then Some(db)
    else
      var id := db.roles[name].id;
      if (exists e | e in db.rolePermissions :: e.0 == id) || (exists e | e in db.userRoles :: e.1 == id) then None
      else Some(db.(roles := db.roles - {name}))
  }

  /** Same rule for `permission`, referenced from `role_permission` and `user_permission`. */
  function DeletePermission(db: Store, name: string): (r: Option<Store>)
    ensures r.None? <==>
      name in db.permissions &&
      ((exists e | e in db.rolePermissions :: e.1 == db.permissions[name].id) ||
       (exists e | e in db.userPermissions :: e.1 == db.permissions[name].id))
    ensures r.Some? ==> r.value.permissions.Keys == db.permissions.Keys - {name}
    ensures r.Some? ==> forall n | n in r.value.permissions :: r.value.permissions[n] == db.permissions[n]
    ensures r.Some? ==> r.value.(permissions := db.permissions) == db
  {
    if name !in db.permissions then Some(db)
    else
      var id := db.permissions[name].id;
      if (exists e | e in db.rolePermissions :: e.1 == id) || (exists e | e in db.userPermissions :: e.1 == id) then None
      else Some(db.(permissions := db.permissions - {name}))
  }

  /** Because deletion is refused while references exist, it never leaves a dangling edge. */
  lemma DeletesPreserveValid(db: Store, name: string)
    requires Valid(db)
    ensures DeleteRole(db, name).Some? ==> Valid(DeleteRole(db, name).value)
    ensures DeletePermission(db, name).Some? ==> Valid(DeletePermission(db, name).value)
  {
    if name in db.roles && DeleteRole(db, name).Some? {
      var r := DeleteRole(db, name).value;
      var id := db.roles[name].id;
      forall x | x in Ids(db.roles) && x != id ensures x in Ids(r.roles) {
        var n :| n in db.roles && db.roles[n].id == x;
        assert n in r.roles;
      }
    }
    if name in db.permissions && DeletePermission(db, name).Some? {
      var r := DeletePermission(db, name).value;
      var id := db.permissions[name].id;
      forall x | x in Ids(db.permissions) && x != id ensures x in Ids(r.permissions) {
        var n :| n in db.permissions && db.permissions[n].id == x;
        assert n in r.permissions;
      }
    }
  }
}
