# Grocery store: store hierarchy access control and personnel listing

A Dafny model of the core of the grocery-store back end: the in-memory
ancestry index over the store hierarchy (`StoreTree`), the store access
middleware built on it, the bearer-token middleware, the resolution of the
personnel visibility type, the personnel listing service and the user
repository's paged query, login and creation, the error kinds, and the two
copies of the seed-tree flattening that produce the node records the index is
built from.

Everything is pure functions over immutable datatypes. The `StoreTree`
singleton is an explicit state `Option<Tree>` that `Initialize` returns and
`GetInstance` reads. Database collections are sequences of documents. The
password check, JWT verification, the storage layer's `create` and
`Types.ObjectId.isValid` are function parameters. `Types.ObjectId.createFromHexString`
is modelled concretely: exactly 24 hex digits, printed back in lower case.

Modules, one per file: `Wrappers` (Option, Result), `Errors`, `Strings`
(prefix, substring, JavaScript `trim`, binary string order), `ObjectIds`,
`Entities`, `StoreTree`, `StoreAccess`, `TokenValidation`,
`PersonnelRequest`, `UserOrder` (username sort), `UserRepo`,
`StoreNodeService`, `Seeding`, `PersonnelRoute` (the GET personnel route's
handler chain).

Behaviour of the code worth knowing:
- an employee asking for `type=all` gets employees only;
- a target store the index does not know is refused as forbidden (403), not
  reported as not found;
- asking the index before it is loaded is a BadRequest (400).

## Model

| member | source | states |
|---|---|---|
| Errors.StatusCode | src/domain/error/error.index.ts:3-25 | BadRequest is 400, UnauthorizedAccess 401, ForbiddenAccess 403, NotFound 404 |
| Errors.StatusCodeInjective | src/domain/error/error.index.ts:3-25 | different error kinds never share a status code |
| Errors.MakeError | src/domain/error/error.index.ts:4-5 | a domain error keeps its kind and message; omitted details become an empty record |
| ObjectIds.CreateFromHexString | src/api/web.api.middleware/store.access.middleware.ts:16-17 | the conversion succeeds exactly on 24 hex digits and yields the lower-case id digit by digit |
| ObjectIds.CanonicalRoundTrip | src/api/web.api.middleware/store.access.middleware.ts:16-17 | a printed (lower-case) id converts back to itself |
| ObjectIds.ParseIdempotent | src/domain/entity/StoreTree.ts:35-36 | converting an already converted id changes nothing |
| Strings.Trim | src/api/web.api.middleware/token.validation.middleware.ts:14 | `trim` removes only whitespace, from both ends, and leaves no whitespace at either end |
| Strings.TrimIdempotent | src/api/web.api.middleware/token.validation.middleware.ts:14 | trimming twice is trimming once |
| Strings.LexLeTotal | src/database/repository/User.repo.ts:47 | the username order compares every pair of strings |
| Strings.LexLeAntisymmetric | src/database/repository/User.repo.ts:47 | two usernames ordered both ways are equal |
| Strings.LexLeTransitive | src/database/repository/User.repo.ts:47 | the username order is transitive |
| Entities.ReturnedRecordOmitsPassword | src/domain/entity/User.ts:9-39 | the record returned for a stored document carries its username, name, role and store unchanged and does not depend on the password hash |
| Entities.RoleFilter | src/database/repository/User.repo.ts:43 | `manager` and `employee` filter on that role; `all` filters on none |
| StoreTree.BuildAncestryIndex | src/domain/entity/StoreTree.ts:57-79 | the index has one key per distinct node id, and each id first seen maps to itself plus its listed ancestors |
| StoreTree.DuplicateKeepsFirst | src/domain/entity/StoreTree.ts:63-66 | a later node with an already indexed id leaves the first occurrence's ancestry in place |
| StoreTree.GetInstance | src/domain/entity/StoreTree.ts:15-20 | before initialization it fails with BadRequest "Store tree not initialized"; afterwards it returns the instance |
| StoreTree.Initialize | src/domain/entity/StoreTree.ts:22-28 | the first call publishes an index of the nodes: exactly their ids, each under its first listing's ancestry; a second call fails with "Store tree already initialized" and keeps the first |
| StoreTree.Lifecycle | src/domain/entity/StoreTree.ts:15-28 | get-before-init fails, the first initialization's instance is what get returns, a second initialization fails and changes nothing |
| StoreTree.IsInSubtree | src/domain/entity/StoreTree.ts:34-44 | true exactly when the store is indexed and the node is in its ancestry; false, not an error, for an unindexed store |
| StoreTree.IsInSubtreeOfNodes | src/domain/entity/StoreTree.ts:34-44 | against the node list: `a` covers `b` iff `b` is listed and `a` is `b` or one of the ancestors of `b`'s first listing |
| StoreTree.SubtreeReflexive | src/domain/entity/StoreTree.ts:69 | every indexed store is in its own subtree, since every index entry holds its own id |
| StoreTree.BuiltSubtreeReflexive | src/domain/entity/StoreTree.ts:69 | in an index built from nodes, every listed id is in its own subtree |
| StoreTree.ListedAncestorCovers | src/domain/entity/StoreTree.ts:71-73 | any ancestor a node lists has that node in its subtree |
| StoreTree.GetDescendants | src/domain/entity/StoreTree.ts:46-55 | exactly the indexed ids other than the root whose ancestry holds the root, in index order, without repeats, never the root |
| StoreTree.DescendantsIn | src/domain/entity/StoreTree.ts:49-53 | the scan keeps exactly the matching entries, as a subsequence of the index order, without repeats when the index has none, and yields nothing when no entry matches |
| StoreTree.DescendantsDuality | src/domain/entity/StoreTree.ts:34-55 | `k` is a descendant of `r` iff `k` is in `r`'s subtree and differs from `r` |
| StoreTree.LeafHasNoDescendants | src/domain/entity/StoreTree.ts:46-55 | a leaf or an unknown id has no descendants |
| StoreTree.DoesStoreExist | src/domain/entity/StoreTree.ts:30-32 | true iff the id is a valid object id and an index key |
| StoreTree.DoesStoreExistOfNodes | src/domain/entity/StoreTree.ts:30-32 | against the node list: a valid id exists iff some node carries it |
| StoreTree.SmallTreeQueries | test/domain/entity/storeTree.test.ts:26-49 | on the six-node test tree: the root covers itself and both children, a child does not cover the root or its sibling, covers its own child; the root's descendants are exactly the other five; a leaf has none |
| StoreTree.SmallTreeBuilt | test/domain/entity/storeTree.test.ts:19-49 | every answer of the six-node test holds for the index built from the test tree's node list: reflexivity, coverage of the children, no upward or sibling coverage, exactly five descendants of the root, none for a leaf |
| StoreAccess.TargetStoreId | src/api/web.api.middleware/store.access.middleware.ts:9 | the target is the route parameter when it is non-empty, otherwise the body's store id |
| StoreAccess.VerifyAccess | src/api/web.api.middleware/store.access.middleware.ts:7-28 | a missing or empty id gives BadRequest "No store ids provided"; otherwise the request passes unchanged exactly when both ids are well formed, the index is loaded and the caller's store covers the target; an unloaded index is BadRequest "Store tree not initialized", and a refused check is ForbiddenAccess |
| StoreAccess.UnknownTargetDenied | src/api/web.api.middleware/store.access.middleware.ts:19 | a target absent from the index is always refused |
| StoreAccess.OwnStoreAllowed | src/api/web.api.middleware/store.access.middleware.ts:19 | a caller is always let through to its own indexed store |
| StoreAccess.AncestorAllowed | src/api/web.api.middleware/store.access.middleware.ts:19-24 | a caller whose store a node lists as an ancestor is let through to that node |
| TokenValidation.ExtractToken | src/api/web.api.middleware/token.validation.middleware.ts:14 | the token is the header after `Bearer `, trimmed |
| TokenValidation.ExtractTokenRoundTrip | src/api/web.api.middleware/token.validation.middleware.ts:14 | `Bearer ` followed by a token padded with whitespace yields exactly that token |
| TokenValidation.TrimPadded | src/api/web.api.middleware/token.validation.middleware.ts:14 | trimming strips exactly the whitespace padding around an unpadded core |
| TokenValidation.VerifyToken | src/api/web.api.middleware/token.validation.middleware.ts:7-30 | a missing header or one without the `Bearer ` prefix is UnauthorizedAccess; a verification failure propagates; a missing or empty claim is UnauthorizedAccess "Invalid token payload"; on success the identity is the three claims exactly |
| TokenValidation.HeaderCheckedFirst | src/api/web.api.middleware/token.validation.middleware.ts:10-12 | without a usable header the verifier is never consulted |
| PersonnelRequest.ResolveType | src/api/store/request/get.personnel.request.ts:33-46 | `manager` needs the manager role (else UnauthorizedAccess), `employee` is employee for anyone, anything else is all for a manager and employee otherwise |
| PersonnelRequest.IncludeChildNodes | src/api/store/request/get.personnel.request.ts:30 | true iff the query value is exactly `true` |
| PersonnelRequest.NewGetPersonnelRequest | src/api/store/request/get.personnel.request.ts:27-46 | fails only for a non-manager asking for managers; otherwise keeps the route store verbatim, the page numbers and the resolved type |
| PersonnelRequest.NonManagerSeesEmployeesOnly | src/api/store/request/get.personnel.request.ts:33-46 | a caller without the manager role always resolves to employee |
| PersonnelRequest.ManagersVisibleOnlyToManagers | src/api/store/request/get.personnel.request.ts:33-46 | a resolution that lets managers through happens only for a manager |
| PersonnelRequest.AllIsDefault | src/api/store/request/get.personnel.request.ts:43-45 | asking for `all` is the same as asking for nothing |
| UserOrder.Insert | src/database/repository/User.repo.ts:47 | inserting into a username-sorted list keeps it sorted and adds exactly that document |
| UserOrder.SortByUsername | src/database/repository/User.repo.ts:47 | the result is sorted by username and is a permutation of the input |
| UserOrder.SortedArrangementUnique | src/database/model/User.model.ts:30-36 | with unique usernames, two username-sorted arrangements of the same documents are identical |
| UserRepo.ParseAll | src/database/repository/User.repo.ts:41 | the conversion succeeds iff every id is well formed, element by element |
| UserRepo.FilterDocs | src/database/repository/User.repo.ts:42-43 | keeps exactly the documents of the given stores (and role), and keeps usernames unique |
| UserRepo.Window | src/database/repository/User.repo.ts:48-49 | skips `offset` elements and takes at most `count`, in order |
| UserRepo.GetByStoreIdsPaged | src/database/repository/User.repo.ts:37-55 | a malformed id fails the query; otherwise the page is sorted by username, no longer than min(limit, 1000), and holds only stored users of the given stores and, unless `all`, of the requested role |
| UserRepo.PageIsWindow | src/database/repository/User.repo.ts:45-50 | the page is the window [offset, offset + min(limit, 1000)) of the username-ordered list of exactly the matching users, however that list is obtained |
| UserRepo.ConsecutivePagesDisjoint | src/database/repository/User.repo.ts:47-49 | pages (k, n) and (k + n, n) share no user, given unique usernames |
| UserRepo.PagesTile | src/database/repository/User.repo.ts:48-49 | pages (k, n) and (k + n, n) together are page (k, 2n) while 2n is within the cap |
| UserRepo.AllIncludesEachRole | src/database/repository/User.repo.ts:43 | the `all` filter keeps every document a role filter keeps |
| UserRepo.WiderScopeListsMore | src/database/repository/User.repo.ts:42 | more store ids never drop a matching document |
| UserRepo.WiderScopeLongerListing | src/database/repository/User.repo.ts:42-47 | over more store ids the sorted listing is at least as long |
| UserRepo.FindByUsername | src/database/repository/User.repo.ts:24 | finds a stored document with that username exactly when one exists |
| UserRepo.Login | src/database/repository/User.repo.ts:23-35 | an unknown username is UnauthorizedAccess "User not found"; a success is a stored user with that name whose password check passed; every failure is one of the two |
| UserRepo.LoginDecision | src/database/repository/User.repo.ts:29-34 | with unique usernames, the right password logs that user in and a wrong one is "Invalid credentials" |
| UserRepo.Create | src/database/repository/User.repo.ts:11-21 | a saved document becomes the returned user; a failure whose message contains "Username must be unique!" becomes BadRequest with that message; any other failure is rethrown unchanged |
| UserRepo.CreateErrorMapping | src/database/repository/User.repo.ts:15-19 | creation fails with a bad request exactly when the duplicate is reported or the storage failure already was one |
| StoreNodeService.PersonnelScope | src/domain/service/StoreNode.service.ts:20-22 | without child stores the scope is exactly the target and the index is not consulted; with them it starts with the target, has no repeats, and holds exactly the target and the stores whose ancestry lists it |
| StoreNodeService.ScopeMember | src/domain/service/StoreNode.service.ts:20-22 | every scope entry is the target or a store below it |
| StoreNodeService.GetPersonnel | src/domain/service/StoreNode.service.ts:11-31 | type, limit and offset reach the repository unchanged with the scope; the result is one record per returned user in the repository's order |
| StoreNodeService.PersonnelWithinScope | src/domain/service/StoreNode.service.ts:20-30 | each listed person has the requested role and works in the target store or, with child stores, in a store below it |
| StoreNodeService.IncludeChildNodesNeverShrinks | src/domain/service/StoreNode.service.ts:20-28 | including child stores never yields a shorter page |
| StoreNodeService.OwnStoreListingIgnoresIndex | src/domain/service/StoreNode.service.ts:20-22 | a listing without child stores does not depend on the index |
| StoreNodeService.GetUserStores | src/domain/service/StoreNode.service.ts:33-39 | the stores requested are the caller's store followed by every store below it, without repeats |
| StoreNodeService.InitializeStoreTree | src/domain/service/StoreNode.service.ts:41-49 | no fetched nodes fails with "No store nodes found" and leaves the state alone; otherwise the index over the fetched nodes is loaded, or a loaded one is kept with "Store tree already initialized" |
| StoreNodeService.LoadThenScope | src/domain/service/StoreNode.service.ts:41-49 | after a load the index is available and a fetched store's scope starts with it and covers only stores that list it |
| Seeding.FlattenNode | test/utils/seed.ts:35-51 | one record per node of the subtree, the node's own record first |
| Seeding.FlattenForest | test/utils/seed.ts:30-52 | as many records as input nodes |
| Seeding.Record | test/utils/seed.ts:36-45 | the record carries the node's id, name, kind and the parent it was called with; the test copy stores the chain through the parent, the script copy the chain it was handed |
| Seeding.ChildChain | test/utils/seed.ts:37 | children receive the incoming chain plus the parent, or nothing at the top level |
| Seeding.FlattenConcat | test/utils/seed.ts:35 | siblings are flattened one after another, in input order |
| Seeding.ChildRecord | test/utils/seed.ts:43-50 | the `i`-th child's record follows its earlier siblings' blocks, names the node as parent, and its chain is the parent's chain plus the parent (test copy) or the chain through the grandparent, leaving out the direct parent (script copy) |
| Seeding.BlockOf | scripts/seedStoreTree.ts:32-49 | a sibling's block of records starts right after the blocks of the siblings before it |
| Seeding.LeafYieldsOneRecord | test/utils/seed.ts:47-49 | a node without children yields only its own record |
| Seeding.TopLevelRecords | test/utils/seed.ts:37 | top-level nodes get no parent and an empty chain |
| Seeding.TestSeedForestChains | test/utils/seed.ts:37-50 | every record the test copy writes lists its parent last, or has neither |
| Seeding.ParentCoversChild | test/utils/seed.ts:44 | with distinct ids, the index built from the test copy's records puts every record in its parent's subtree |
| Seeding.ScriptParentNotInSubtree | scripts/seedStoreTree.ts:42 | a root with one child: the child's record names the root as parent, yet the index does not put the child in the root's subtree |
| Seeding.ScriptDepthOneRecord | scripts/seedStoreTree.ts:35-49 | in the script's output a child of a top-level node names it as parent but carries an empty chain |
| Seeding.ScriptDepthOneOutside | scripts/seedStoreTree.ts:42 | with distinct ids, no child of a top-level node is in that node's subtree in an index built from the script's records |
| PersonnelRoute.GetPersonnelRoute | src/api/store/store.router.ts:11-17 | a token failure is returned first; with a valid token a refused access check is returned next, then a refused request construction; when all three pass the result is the service's listing for the route store, the resolved type, the child-store flag and the page |
| PersonnelRoute.AccessCheckedBeforeVisibility | src/api/store/store.controller.ts:9-17 | an employee asking for managers gets the access check's refusal when that check fails, and the manager-listing refusal only when it passes |
| PersonnelRoute.NonManagersSeeEmployeesOnly | test/api/store.router.test.ts:127-135 | callers without the manager role only ever receive employees |
| PersonnelRoute.ListedPersonnelInCallerSubtree | src/api/store/store.router.ts:11-17 | every listed person works in the requested store or a store below it, and the caller's store covers the requested store |

## Left out

- JWT signing and verification (src/domain/entity/JwtToken.ts) is a parameter `verify` that yields the claims or fails; `initialize` throwing on an empty secret is not modelled.
- Password hashing and comparison (scrypt, random salt, constant-time compare) is the parameter `verifyPassword`.
- The storage layer's `create`, including where the "Username must be unique!" message comes from, is the parameter `insert`; the unique index on `username` is the assumption `UniqueUsernames` where a property needs it.
- Joi schemas and the validation middleware are not modelled; the personnel route skips that stage. The schema for object ids lives in a file that is not part of this model. The router test expecting 400 for an unknown but well-formed store id is presumably that schema's doing; without it the model answers ForbiddenAccess.
- `Types.ObjectId.isValid` is the parameter `isValidObjectId` of `DoesStoreExist`.
- The library's wording of the malformed object id error is not modelled (`MalformedIdError`).
- The numeric defaulting of `limit` and `offset` is not modelled: the query carries them as naturals. In the code `Number(undefined) ?? 100` is NaN, so the fallback never applies.
- UserRepo.GetByStoreIdsPaged: a `limit` of 0 is modelled as the database refusing the `$limit` stage; Joi's minimum of 1 normally keeps it out.
- The store repository (`getAll`, and `getByIds`, which the service calls but the shown repository file does not define): `GetUserStores` returns the id list it would be asked for, and `InitializeStoreTree` takes the fetched nodes as input.
- Express wiring, controllers' JSON responses, bootstrap, swagger, logging (`console.warn` on a duplicate node) and the error-handling middleware, which is not part of this model. Results are error kinds, not HTTP responses. The router test expecting 403 for an employee asking for managers does not match the code, which throws UnauthorizedAccess (401).
- `UserService` (login token issue, create, available stores), the user router and the login/create request classes are thin wrappers and are not modelled.
- Seeding: each raw `_id` is taken as the node id verbatim; the conversion to an object id, which throws on malformed ids, is not modelled. An absent `children` list is the empty list. The script's unused `pathPrefix` and the database writes are left out.
- Mongo's `$sort` order on strings is modelled as the binary order on characters; collation settings are not modelled.

## Findings

| source | as written | input that shows it | evidently intended | confidence | as-written member | corrected member |
|---|---|---|---|---|---|---|
| scripts/seedStoreTree.ts:42 | the record stores the incoming `ancestorIds`, which stop above the node's parent | a root R with one child C: C's record has parent R and an empty chain, so the index gives `isInSubtree(R, C) == false` and a manager of R is refused access to C | store the chain through the parent, as test/utils/seed.ts:44 does | high, not executed | Seeding.ScriptParentNotInSubtree, Seeding.ScriptDepthOneOutside | Seeding.ParentCoversChild |
