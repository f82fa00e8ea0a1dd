# RBAC core of an e-commerce admin application, in Dafny

This project models the role-based access-control core of a Next.js/Drizzle
e-commerce administration application, together with the small pure helpers
of its seed tooling, and proves properties of the model.

- **Authorization check** (`Authz`, `Rbac`). `checkPermissions` takes a
  session that may be missing, one required permission name or a list of
  them, and an `all`/`any` mode. It returns `ok`, `401 UNAUTHENTICATED` or
  `403 FORBIDDEN`. The list predicates `hasPermission`, `hasAllPermissions`
  and `hasAnyPermission` are written as front-to-back scans. Each is proved
  equal to a set-theoretic statement.
- **Catalogs** (`Permissions`, `Roles`). These are the 48-entry permission
  catalog and the two role definitions, given as literal sequences. "Super
  Admin" selects `"ALL"`; "Customer" gives an explicit list of 16 names.
- **Store** (`Schema`). The `role`, `permission`, `role_permission`,
  `user_role` and `user_permission` tables are modelled as a value:
  - roles and permissions are maps keyed by their unique name;
  - the three edge tables are sets of id pairs, i.e. their composite keys.

  The module also defines:
  - insert-or-update by name;
  - insert-or-ignore of edges;
  - deletion that is refused while a row is referenced.
- **Seeder** (`InitialRolesSeeder`). The initial roles-and-permissions seeder
  is a pure transformer of the store. It upserts roles and permissions by
  name and reads back their ids. It expands `"ALL"` to the catalog list of
  the current run, skips names that have no id, and inserts the
  role→permission edges unless they are already present.
- **Enforcement** (`RequirePermission`, `PermissionGate`). The page guard
  maps the verdict to a redirect or to the returned session. The gate
  component picks one of four render branches.
- **Seed tooling** (`SeedRunner`, `MakeSeed`). The runner decides which
  files to consider, in what order, and whether to run or skip each one.
  `make:seed` contributes the name sanitiser, the zero padding, the
  timestamp and the shape of the file name.

Three of the source's inputs are parameters of the model:
- the session;
- the permission list inside it;
- the ids the database generates.

Three of its outputs are the results of the model functions:
- the redirect;
- the rendered branch;
- the list of seeder runs.

The model has no I/O.

## Behaviour of the code worth knowing

- **Effective permissions.** `checkPermissions` reads
  `session.user.permissions`, and the session callback never sets that
  field. The code has no function that combines role grants with direct
  grants, so none is modelled: the permission list is an input to the check.
- **The "ALL" selector.** The seeder materialises it as edges to the catalog
  list of the run. A permission added later gets no edge until the seeder
  runs again (`InitialRolesSeeder.NoNewEdgeOutsideCatalog`).
- **No transaction.** The seeder issues three separate statements and opens
  no transaction. The model treats the run as one step, so a partial failure
  is not modelled.
- **Unknown permission names.** The Customer list is declared with
  `satisfies readonly PermissionName[]` (src/server/rbac/roles.ts:30), so the
  compiler checks each listed name against the catalog. At run time the
  seeder adds no check of its own: a selected name that has no id is skipped
  without a word (`InitialRolesSeeder.RoleGrants`).

## Model

| member | source | states |
|---|---|---|
| Rbac.Includes | src/lib/rbac.ts:7 | the scan `permissions.includes(required)` is true exactly when the name occurs in the list |
| Rbac.Every | src/lib/rbac.ts:14 | the early-exit `every` scan is true exactly when each required entry occurs in the permission list |
| Rbac.Some | src/lib/rbac.ts:21 | the early-exit `some` scan is true exactly when some required entry occurs in the permission list |
| Rbac.HasPermission | src/lib/rbac.ts:3-8 | `hasPermission` holds iff the name is an element of the list |
| Rbac.HasAllPermissions | src/lib/rbac.ts:10-15 | `hasAllPermissions` holds iff the required names form a subset of the held names |
| Rbac.HasAnyPermission | src/lib/rbac.ts:17-22 | `hasAnyPermission` holds iff the required and held names intersect |
| Rbac.EmptyRequirement | src/lib/rbac.ts:10-22 | an empty requirement satisfies `hasAllPermissions` and never `hasAnyPermission` |
| Rbac.AllImpliesAny | src/lib/rbac.ts:10-22 | for a non-empty requirement, `hasAllPermissions` implies `hasAnyPermission` |
| Rbac.SingleName | src/lib/rbac.ts:3-22 | with one required name, all three predicates agree |
| Rbac.OnlyElementsMatter | src/lib/rbac.ts:14-21 | the results depend only on the sets of names, not on their order or repetitions |
| Rbac.MorePermissionsMonotone | src/lib/rbac.ts:10-22 | enlarging the held names never falsifies `hasAllPermissions` or `hasAnyPermission` |
| Authz.CheckPermissions | src/lib/authz.ts:8-32 | no session or user gives 401 UNAUTHENTICATED; a signed-in user gets ok iff the set rule of the mode (default "all") holds; every other result is 403 FORBIDDEN |
| Authz.UnauthenticatedIgnoresRequirement | src/lib/authz.ts:15-17 | without a user the verdict is 401 whatever the requirement and mode |
| Authz.OmittedModeIsAll | src/lib/authz.ts:13 | an omitted mode gives the same verdict as "all" |
| Authz.SingleIsOneElementList | src/lib/authz.ts:20 | one required name is checked exactly as the one-element list |
| Authz.EmptyRequirement | src/lib/authz.ts:22-25 | for a signed-in user an empty list is ok in "all" mode and 403 in "any" mode |
| Authz.StatusClassification | src/lib/authz.ts:15-29 | a refusal has status 401 iff there is no user; a refusal is always 401 UNAUTHENTICATED or 403 FORBIDDEN |
| Authz.MissingPermissionsForbidden | src/lib/authz.ts:19 | a user without a permissions field is refused every non-empty requirement in both modes |
| Authz.MorePermissionsMonotone | src/lib/authz.ts:22-25 | enlarging the user's permission list never turns ok into a refusal |
| Authz.AgreesWithListPredicates | src/lib/authz.ts:22-25 | for a signed-in user, ok coincides with `hasAllPermissions` or `hasAnyPermission` on the same lists, according to the mode |
| Permissions.CatalogNamesDistinct | src/server/rbac/permissions.ts:1-65 | the catalog has 48 rows whose names are pairwise distinct, giving 48 distinct names, as the unique name column requires |
| Permissions.CatalogDefaults | src/server/rbac/permissions.ts:3-64 | every catalog row has description null and isDeprecated false |
| Permissions.CatalogContainsKeyNames | src/server/rbac/permissions.ts:23-32 | "admin:access" and "reviews:self:create" are permission names of the catalog |
| Roles.RoleCatalogShape | src/server/rbac/roles.ts:3-32 | there are exactly two definitions, "Super Admin" with the ALL selector and "Customer" with an explicit list, both system roles |
| Roles.CustomerListIsCatalogPrefix | src/server/rbac/roles.ts:13-30 | the Customer list equals the first 16 catalog names, in catalog order |
| Roles.CustomerNamesInCatalog | src/server/rbac/roles.ts:13-30 | every Customer name is a catalog permission name |
| Roles.CustomerNamesDistinct | src/server/rbac/roles.ts:14-29 | the Customer list has 16 pairwise distinct names |
| Roles.CustomerExcludesAdminAndReviews | src/server/rbac/roles.ts:14-29 | the Customer list contains neither "admin:access" nor "reviews:self:create" |
| Schema.Upsert | src/server/db/schema.ts:139-173 | an upsert by unique name adds exactly the inserted names; each row takes the new fields; a new name gets its generated id; an existing name keeps its id; other rows are unchanged |
| Schema.UpsertIdempotent | src/server/db/schema.ts:139-173 | repeating an upsert with the same values changes nothing, whatever ids the second run would generate |
| Schema.UpsertKeepsIdsUnique | src/server/db/schema.ts:142-146 | with fresh generated ids, ids stay a primary key and no existing id disappears |
| Schema.ReturnedIds | src/server/db/schema.ts:142-146 | `.returning()` yields an id for every name the statement touched, and that id is the one stored for the name |
| Schema.InsertEdges | src/server/db/schema.ts:181-203 | insert-or-ignore on a pair-keyed table keeps every old edge, adds every given edge and nothing else |
| Schema.InsertEdgesIdempotent | src/server/db/schema.ts:191 | inserting the same edges twice equals inserting them once, so a grant is stored at most once |
| Schema.DeleteRole | src/server/db/schema.ts:192-196 | deleting a role is refused iff the role exists and a role_permission or user_role edge references it (no cascade); otherwise only that name disappears, every other role keeps its fields, and the other five tables are unchanged |
| Schema.DeletePermission | src/server/db/schema.ts:197-201 | deleting a permission is refused iff a role_permission or user_permission edge references it; otherwise only that name disappears, every other permission keeps its fields, and the other five tables are unchanged |
| Schema.DeletesPreserveValid | src/server/db/schema.ts:192-274 | since deletion of referenced rows is refused, a permitted delete leaves every primary and foreign key intact |
| InitialRolesSeeder.RoleGrants | drizzle/seeders/20260124024254_initial-roles-and-permissions.ts:58-63 | the inner loop emits an edge from the role to each selected name that has an id, skipping names without one, and no other edge |
| InitialRolesSeeder.Mappings | drizzle/seeders/20260124024254_initial-roles-and-permissions.ts:47-64 | the outer loop emits exactly the edges derived from some definition whose role has an id and a selected name that has an id, with "ALL" selecting the catalog list |
| InitialRolesSeeder.RoleValues | drizzle/seeders/20260124024254_initial-roles-and-permissions.ts:10-16 | one VALUES entry per role definition, in order, carrying its name, description and isSystem |
| InitialRolesSeeder.PermissionValues | drizzle/seeders/20260124024254_initial-roles-and-permissions.ts:28-34 | one VALUES entry per catalog row, in order, carrying its name, description and isDeprecated |
| InitialRolesSeeder.UpsertRoles | drizzle/seeders/20260124024254_initial-roles-and-permissions.ts:8-24 | after the role upsert every defined name exists with its description and isSystem; a pre-existing role keeps its id; roles not defined are untouched |
| InitialRolesSeeder.UpsertPermissions | drizzle/seeders/20260124024254_initial-roles-and-permissions.ts:26-42 | after the permission upsert every catalog name exists with its description and isDeprecated; a pre-existing row keeps its id; other rows are untouched |
| InitialRolesSeeder.SeedMappingsSound | drizzle/seeders/20260124024254_initial-roles-and-permissions.ts:44-64 | with ids read back for every upserted name, every computed edge links a role to a catalog name its definition selects |
| InitialRolesSeeder.SeedMappingsComplete | drizzle/seeders/20260124024254_initial-roles-and-permissions.ts:44-64 | with ids read back for every upserted name, every role is linked to every catalog name its definition selects |
| InitialRolesSeeder.SeedWith | drizzle/seeders/20260124024254_initial-roles-and-permissions.ts:7-67 | seeding keeps the user tables and all old edges; every new edge links a role to a name its definition selects from this run's catalog; every such pair is linked |
| InitialRolesSeeder.SeedIdempotent | drizzle/seeders/20260124024254_initial-roles-and-permissions.ts:17-66 | a second run, with any generated ids, leaves roles, permissions and edges as the first run left them |
| InitialRolesSeeder.SeedPreservesValid | drizzle/seeders/20260124024254_initial-roles-and-permissions.ts:7-67 | with fresh generated ids, seeding a store with intact keys leaves all primary and foreign keys intact |
| InitialRolesSeeder.NewEdgeOnlyIfSelected | drizzle/seeders/20260124024254_initial-roles-and-permissions.ts:51-66 | a new edge between a role and a permission exists only if the role's definition selects that name and the catalog of this run lists it |
| InitialRolesSeeder.NoNewEdgeOutsideCatalog | drizzle/seeders/20260124024254_initial-roles-and-permissions.ts:47-60 | a permission outside this run's catalog list gains no edge, not even for an "ALL" role, so the expansion is materialised |
| InitialRolesSeeder.AllSelectorGrantsCatalog | drizzle/seeders/20260124024254_initial-roles-and-permissions.ts:55-56 | a role defined with "ALL" is linked to every permission of this run's catalog |
| InitialRolesSeeder.ExplicitSelectorGrantsListed | drizzle/seeders/20260124024254_initial-roles-and-permissions.ts:58-62 | a role with an explicit list is linked to each listed name the catalog knows |
| InitialRolesSeeder.RoleDefinitionNamesDistinct | src/server/rbac/roles.ts:3-32 | the role definitions have distinct names, as the keys of one object |
| InitialRolesSeeder.NamedAllRoleGrants | drizzle/seeders/20260124024254_initial-roles-and-permissions.ts:51-63 | the role named by an "ALL" definition exists after seeding and is linked to every catalog permission |
| InitialRolesSeeder.NamedExplicitRoleGrants | drizzle/seeders/20260124024254_initial-roles-and-permissions.ts:51-63 | the role named by an explicit definition exists after seeding and is linked to each listed catalog name |
| InitialRolesSeeder.Seed | drizzle/seeders/20260124024254_initial-roles-and-permissions.ts:8-24 | seeding with the shipped definitions adds exactly the roles "Super Admin" and "Customer", with their descriptions and isSystem true |
| InitialRolesSeeder.SeedGrantsSuperAdminAll | drizzle/seeders/20260124024254_initial-roles-and-permissions.ts:51-66 | after seeding with the shipped definitions, Super Admin is linked to all 48 catalog permissions |
| InitialRolesSeeder.SeedGrantsCustomerList | drizzle/seeders/20260124024254_initial-roles-and-permissions.ts:51-66 | after seeding with the shipped definitions, Customer is linked to each of its 16 listed permissions |
| InitialRolesSeeder.ExplicitRoleGainsOnlyListed | drizzle/seeders/20260124024254_initial-roles-and-permissions.ts:55-62 | a role with an explicit list gains no edge to a permission it does not list |
| InitialRolesSeeder.SeedKeepsCustomerOutOfAdmin | drizzle/seeders/20260124024254_initial-roles-and-permissions.ts:55-62 | seeding never gives Customer "admin:access": the edge exists after seeding only if it existed before |
| RequirePermission.Decide | src/server/auth/require-permission.ts:19-27 | ok returns the checked session; 401 redirects to "/auth/login" with replace; any other refusal redirects with push to redirectTo, or to "/403" when redirectTo is absent |
| RequirePermission.RequirePermission | src/server/auth/require-permission.ts:6-28 | the session is returned, unchanged, iff the user is signed in and satisfies the requirement; without a user the guard redirects to login with replace |
| RequirePermission.ForbiddenRedirect | src/server/auth/require-permission.ts:24 | a signed-in user lacking the permissions is redirected with push to redirectTo, or to "/403" by default, and no session is returned |
| RequirePermission.RedirectToOnlyForForbidden | src/server/auth/require-permission.ts:19-27 | redirectTo affects only a 403 outcome |
| RequirePermission.OmittedModeIsAll | src/server/auth/require-permission.ts:13-17 | the mode is passed through, so omitting it behaves as "all" |
| RequirePermission.RedirectKindClassification | src/server/auth/require-permission.ts:19-25 | a redirect uses replace iff the user is not signed in |
| PermissionGate.ChooseBranch | src/components/permission-gate.tsx:25-34 | loading is chosen iff the status is loading; children are shown iff the status is not loading and the signed-in user satisfies the requirement (mode defaulting to "all"); the unauthenticated branch is chosen iff the status is not loading and there is no user |
| PermissionGate.Render | src/components/permission-gate.tsx:8-35 | each branch renders its fallback, which defaults to nothing for loading and unauthenticated and to the Forbidden view for forbidden; granted access renders the children |
| PermissionGate.LoadingDecidedFirst | src/components/permission-gate.tsx:25 | while loading, the output depends on neither the session nor the requirement |
| PermissionGate.BranchFollowsVerdict | src/components/permission-gate.tsx:27-34 | outside loading, ok, 401 and 403 correspond one-to-one to the children, unauthenticated and forbidden branches |
| PermissionGate.DefaultFallbacks | src/components/permission-gate.tsx:10-34 | with no optional props, a signed-out user sees nothing, a refused user sees the Forbidden view, and a granted user sees the children, in "all" mode |
| SeedRunner.ShouldRunSeed | src/scripts/seed.ts:8-14 | a seed is skipped iff skipProd is true and the environment is "production"; an omitted environment counts as development |
| SeedRunner.FilterSeedFiles | src/scripts/seed.ts:19-20 | the filter keeps exactly the names ending in ".ts" or ".js", each as often as it is listed |
| SeedRunner.Sort | src/scripts/seed.ts:21 | sorting yields an ascending permutation of its input |
| SeedRunner.SortedUnique | src/scripts/seed.ts:21 | two ascending arrangements of the same names are equal, so the sorted order is determined |
| SeedRunner.Decide | src/scripts/seed.ts:27-40 | a file runs iff its module exports `seed` and is not skipProd in production; it is skipped as "no seed export" iff there is no `seed`; a missing skipProd counts as false |
| SeedRunner.Plan | src/scripts/seed.ts:17-41 | the plan holds one step per considered file, in ascending order, each with the run/skip decision for its module |
| SeedRunner.PlanConsidersSeedFiles | src/scripts/seed.ts:19-20 | a name appears in the plan iff it is listed and ends in ".ts" or ".js" |
| SeedRunner.PlanIgnoresListingOrder | src/scripts/seed.ts:19-23 | the plan does not depend on the order in which the directory lists its files |
| SeedRunner.NoSkipProdAlwaysRuns | src/scripts/seed.ts:32 | a module that exports `seed` but no skipProd runs in every environment |
| SeedRunner.OutsideProductionEverySeedRuns | src/scripts/seed.ts:8-14 | outside production every module that exports `seed` runs |
| MakeSeed.TrimStart | src/scripts/make-seed.ts:23 | what remains is a suffix; only whitespace was dropped; it does not start with whitespace |
| MakeSeed.TrimEnd | src/scripts/make-seed.ts:23 | what remains is a prefix; only whitespace was dropped; it does not end with whitespace |
| MakeSeed.CollapseWhitespace | src/scripts/make-seed.ts:25 | replacing whitespace runs with "_" leaves no whitespace and keeps the significant characters in order; a lone whitespace character becomes "_" |
| MakeSeed.CollapseConcat | src/scripts/make-seed.ts:25 | the whitespace replacement splits at any non-whitespace character: the result is the concatenation of the results of the two parts |
| MakeSeed.CollapseRun | src/scripts/make-seed.ts:25 | a whitespace run followed by a non-whitespace character, or by nothing, becomes exactly one "_" |
| MakeSeed.CollapseAroundRun | src/scripts/make-seed.ts:25 | a maximal interior whitespace run becomes exactly one "_" between the replaced left and right parts |
| MakeSeed.KeepSafe | src/scripts/make-seed.ts:26 | after dropping unsafe characters only [a-z0-9_:-] remain and the significant characters are kept in order; a safe string, "_" included, is kept whole; a lone unsafe character is dropped |
| MakeSeed.KeepSafeConcat | src/scripts/make-seed.ts:26 | the filter acts character by character: filtering a concatenation concatenates the filtered parts |
| MakeSeed.SquashUnderscores | src/scripts/make-seed.ts:27 | after squashing underscore runs no "__" remains; the first character and the significant characters are kept; a string without "__" is unchanged |
| MakeSeed.SquashConcat | src/scripts/make-seed.ts:27 | the squash splits at any character other than "_": the result is the concatenation of the results of the two parts |
| MakeSeed.SquashRun | src/scripts/make-seed.ts:27 | a run of underscores followed by another character, or by nothing, becomes exactly one "_" |
| MakeSeed.SquashAroundRun | src/scripts/make-seed.ts:27 | a maximal interior run of underscores becomes exactly one "_" between the squashed left and right parts |
| MakeSeed.ToSafeName | src/scripts/make-seed.ts:21-28 | the safe name contains only [a-z0-9_:-] and never two consecutive underscores |
| MakeSeed.SignificantPreserved | src/scripts/make-seed.ts:21-28 | letters, digits, ":" and "-" survive in order, upper-case letters lower-cased |
| MakeSeed.UppercaseLowered | src/scripts/make-seed.ts:24 | an upper-case letter of the input appears lower-cased in the safe name, not dropped |
| MakeSeed.TrimSplit | src/scripts/make-seed.ts:23 | `trim()` removes a whitespace prefix and a whitespace suffix and nothing else |
| MakeSeed.SurroundingWhitespaceIgnored | src/scripts/make-seed.ts:23 | leading and trailing whitespace does not change the safe name |
| MakeSeed.InteriorWhitespaceBecomesUnderscore | src/scripts/make-seed.ts:21-28 | for any ASCII parts without whitespace at their ends, an interior whitespace run gives the same safe name as a single "_" in its place |
| MakeSeed.TwoWordsJoined | src/scripts/make-seed.ts:21-28 | two words of letters, digits, ":" or "-" separated by a whitespace run become the two words joined by exactly one "_" |
| MakeSeed.ThreeWordsJoined | src/scripts/make-seed.ts:21-28 | "a b c" becomes "a_b_c" |
| MakeSeed.GreetingGapJoined | src/scripts/make-seed.ts:21-28 | the space in "Hello, World" acts as a "_" even after punctuation |
| MakeSeed.Trim | src/scripts/make-seed.ts:23 | the trimmed string neither starts nor ends with whitespace |
| MakeSeed.TrimOfPlainEnds | src/scripts/make-seed.ts:23 | a string with no whitespace at either end is left unchanged by `trim()` |
| MakeSeed.ToLower | src/scripts/make-seed.ts:24 | lower-casing keeps the length and lower-cases each character in place |
| MakeSeed.ToLowerConcat | src/scripts/make-seed.ts:24 | lower-casing a concatenation concatenates the lower-cased parts |
| MakeSeed.LowerKeepsSpacing | src/scripts/make-seed.ts:24 | lower-casing leaves whitespace unchanged and neither creates nor removes whitespace at either end |
| MakeSeed.PadStart | src/scripts/make-seed.ts:5 | a string at least as long as the width is unchanged; a shorter one gets fill characters in front up to exactly the width |
| MakeSeed.SafeNameIsFixed | src/scripts/make-seed.ts:21-28 | a name that is already safe is returned unchanged |
| MakeSeed.ToSafeNameIdempotent | src/scripts/make-seed.ts:21-28 | sanitising a safe name again changes nothing |
| MakeSeed.NatToString | src/scripts/make-seed.ts:5 | `String(n)` is a non-empty digit string without a leading zero that reads back as n, with one digit below 10, two below 100, and four from 1000 to 9999 |
| MakeSeed.Pad | src/scripts/make-seed.ts:4-6 | for n up to 99 `pad(n)` has two digits reading back as n; from 10 on it is `String(n)` unchanged |
| MakeSeed.Timestamp | src/scripts/make-seed.ts:8-19 | the timestamp is all digits; for a valid time with a four-digit year it has 14 digits spelling year, month + 1, day, hours, minutes and seconds as consecutive base-100 places after the year, so every field can be read back |
| MakeSeed.DigitOrderIsNumeric | src/scripts/make-seed.ts:8-19 | for digit strings of equal length, the runner's sort order is numeric order |
| MakeSeed.EarlierTimestampSortsFirst | src/scripts/make-seed.ts:8-19 | of two valid local wall-clock readings, the earlier reading has the timestamp that sorts strictly first |
| MakeSeed.EarlierSeedRunsFirst | src/scripts/make-seed.ts:42 | a seed created at an earlier local wall-clock reading (to the second) gets a file name that sorts first, whatever the two names are |
| MakeSeed.SeedFileName | src/scripts/make-seed.ts:42 | the file name is timestamp, "_", name, ".ts": it ends in ".ts", so the runner's filter accepts it |
| MakeSeed.MakeSeedFile | src/scripts/make-seed.ts:30-62 | a missing or empty argument is a usage error; otherwise the new file is named `<timestamp>_<toSafeName(argument)>.ts`, keeping the argument's letters, digits, ":" and "-" in order and lower-cased, and exports `seed` with no skipProd |
| MakeSeed.CreatedSeedAlwaysRuns | src/scripts/make-seed.ts:45-57 | a seed file created by make:seed is run by the seed runner in every environment |

## Left out

- Reading the session (`auth()`, `useSession()`), `redirect` and React rendering are I/O or framework calls. The session and the session status are parameters. A redirect is an outcome value. A rendered node is an opaque value.
- The auth configuration is left out. It covers the next-auth adapter, credential verification and session creation. It never fills `session.user.permissions`, so the permission list is a plain input of the check.
- No effective-permission resolver (role grants ∪ direct grants) is modelled, because the code has none.
- The tRPC procedures, the UI components, product actions, the storage client and the user-creation scripts are not part of this model.
- Timestamps, `crypto.randomUUID()` and the clock are left out. The generated ids are `nat` parameters, and the creation time is a `DateTime` parameter.
- Database failures, transactions and concurrency are not modelled. Each seeder statement either applies fully or is not modelled at all.
- Schema.Upsert requires distinct names in one VALUES list. PostgreSQL rejects an upsert that would update the same row twice, and the shipped lists have distinct names.
- The ORM's refusal of an empty VALUES list is not modelled: the shipped role and catalog lists are non-empty. An empty edge list would make the last seeder statement throw, but the shipped definitions always produce edges.
- The `if (!roleId)` and `if (!permissionId)` checks are modelled as absence from the returned map. A uuid string is never falsy, and since `.returning()` gives every row the statement touched, that skip branch is not reached with the shipped definitions.
- The column defaults for isSystem and isDeprecated (false) are not observable here, because the seeder always supplies both values.
- MakeSeed.ToSafeName: requires ASCII input. `trim`, `toLowerCase` and `\s` also act on some non-ASCII characters (no-break space, line separator, a few letters whose lower case is ASCII), and those cases are not modelled.
- MakeSeed.Pad: covers non-negative integers only, which are the only values `Date` getters return. Negative numbers and non-integers are not modelled.
- SeedRunner.Sort: compares strings by character code. JavaScript's default sort compares UTF-16 code units, which differs only for characters outside the Basic Multilingual Plane.
- SeedRunner.Plan: produces the run plan, not the run. A `seed` that throws stops the runner, and the files after it do not run. That failure path is not modelled.
- The console messages and `process.exit` codes of both scripts are left out. The usage error of `make:seed` is an outcome value.
- MakeSeed.EarlierSeedRunsFirst: orders local wall-clock readings, which is what the `Date` getters return. A daylight-saving or time-zone change between two runs can give a later seed an earlier reading, and then its file sorts first. Instants are not modelled.
- `make:seed` accepts a name that sanitises to the empty string and then produces `<timestamp>_.ts`. The model reproduces this behaviour and does not treat it as an error.
