# Organization Management Service — tenant lifecycle model

This project models the core of a multi-tenant organization service. A
master collection, `master_organizations`, holds one record per tenant
organization: its name, its derived collection name, its admin email, its
admin password hash and its creation time. Each tenant also owns a MongoDB
collection whose name is `org_` followed by the tenant's name, lower-cased,
with spaces turned into underscores. The model covers:

- creating a tenant;
- authenticating an admin and logging in, which issues claims `sub`,
  `org_id` and `org_name`;
- authorizing a request from those claims;
- reading a tenant by name;
- updating the caller's tenant, which writes the record first and then
  renames its collection;
- deleting the caller's tenant, which drops its collection and then
  deletes its record.

The store is a value `Db` with three parts:

- the registry, a sequence of records in insertion order;
- the tenant collections, a map from collection name to document count;
- an id counter that stands in for ObjectId generation.

MongoDB's `find_one` is modelled as the first matching record in insertion order. Each
handler is a function from the store before to a `Step`, which holds the
response (or the HTTP failure) and the store after. The class
`Store.Database` holds the same state in mutable fields. Its methods make
the handlers' writes one at a time, in the source's order, and are proved
to land exactly on the state and result of the transition functions.

The lifecycle lemmas prove the following:

- three invariants hold for every store reachable from the empty one:
  - tenant names are unique;
  - ids are distinct and allocated;
  - every stored collection name is the derivation of the stored name;
- an update that changes the name or email revokes the old claims, and a
  delete does too;
- a login after an update authorizes the renamed record;
- the whole create → login → update → re-login → delete flow returns the
  registry and the set of collections to where they started.

The derivation is not injective. Whether each record owns exactly one
existing collection ("isolation") is therefore proved only under the
hypothesis that the new name derives a collection no other live name
derives. Without that hypothesis, two tenants can share a collection, and
deleting one drops the collection the other still names.

Three behaviours of the code are modelled as written:

- `create_organization` and `update_organization` check the tenant name
  but never the admin email.
  `OrgService.DuplicateEmailAccepted` and `OrgService.SharedEmailShadowed`
  state the consequences: a duplicate is accepted, and the later admin
  cannot log in while the earlier record holds that email.
- The collection name is not collision-free: "Test Corp" and "test_corp"
  give the same collection, and so do "TestCorp" and "testcorp".
- `update_organization` renames the old collection without checking
  whether the target already exists. MongoDB then rejects the rename.
  This happens after the registry write, so the request fails with a
  server error and the record already names the new collection.

## Model

| member | source | states |
|---|---|---|
| Naming.FoldChar | app/services/org_service.py:21 | the folded character is never an ASCII upper-case letter and never a space |
| Naming.Fold | app/services/org_service.py:21 | `lower().replace(' ', '_')` restricted to ASCII: same length, each character folded in place |
| Naming.CollectionName | app/services/org_service.py:21 | the collection name is `org_` followed by one folded character per character of the name, with no upper-case letter or space anywhere |
| Naming.TestCorpCollection | tests/test_flow.py:32 | "TestCorp" derives "org_testcorp" |
| Naming.NewCorpCollection | tests/test_flow.py:60 | "NewCorp" derives "org_newcorp" |
| Naming.CollectionNameNotMaster | app/services/org_service.py:9-21 | no tenant collection name is `master_organizations` |
| Naming.SameCollectionName | app/services/org_service.py:21 | two names derive the same collection iff they have the same length and fold to the same characters |
| Naming.FoldIdempotent | app/services/org_service.py:21 | folding twice is folding once, and a folded name derives the same collection as the original |
| Naming.CollectionNameNotInjective | app/services/org_service.py:21 | any name with an upper-case letter or a space differs from its folded form yet derives the same collection |
| Naming.SpaceCollision | app/services/org_service.py:21 | the distinct names "Test Corp" and "test_corp" derive the same collection |
| Naming.CaseCollision | app/services/org_service.py:21 | the distinct names "TestCorp" and "testcorp" derive the same collection |
| Naming.FoldsTo | app/services/org_service.py:21 | a string whose characters fold one by one to `t` folds to `t` |
| Credentials.VerifyHash | app/services/org_service.py:24 | a password verifies against its own hash |
| Registry.FindOne | app/services/org_service.py:13 | `find_one` gives the first matching record, and gives none exactly when no record matches |
| Registry.SetFields | app/routers/organization.py:83-90 | `update_one` by id rewrites name, email, hash and collection of the record with that id, keeps its id and creation time, leaves every other record alone, and is a no-op when no record has the id |
| Registry.DeleteOne | app/routers/organization.py:119 | `delete_one` by id removes exactly the first record with that id and keeps the order of the rest; no-op when absent |
| Registry.FindById | app/routers/organization.py:100 | with distinct ids, looking a record's id up finds that record |
| Registry.FindByName | app/routers/organization.py:46 | with unique names, looking a record's name up finds that record |
| Registry.FindOneAppend | app/services/org_service.py:34 | after an `insert_one`, a lookup finds what it found before, else the new record if it matches |
| Registry.SetFieldsAt | app/routers/organization.py:90 | with distinct ids, the update by id is a point update of the caller's position |
| Registry.DeleteOneAt | app/routers/organization.py:119 | with distinct ids, the delete by id removes exactly the caller's position |
| Namespaces.InsertDoc | app/services/org_service.py:40 | inserting the `init` document makes the collection exist with one more document and changes no other collection |
| Namespaces.Drop | app/routers/organization.py:116 | dropping removes that collection, present or not, and changes no other |
| Namespaces.Rename | app/routers/organization.py:97 | a rename fails when the source is absent or the target exists; otherwise the target takes the source's documents and the others are unchanged |
| Namespaces.DropIdempotent | app/routers/organization.py:116 | dropping twice is dropping once |
| Namespaces.RenameBack | app/routers/organization.py:97 | a successful rename is undone by renaming back |
| OrgService.CreateOrganization | app/services/org_service.py:11-48 | a held name fails with 400 and changes nothing; otherwise exactly one record is appended with the next id, name, email, derived collection, hashed password and time, earlier records stay, the collection gains one document and others are unchanged, and the response mirrors the new record |
| OrgService.AuthenticateAdmin | app/services/org_service.py:50-56 | no record with the email gives none; otherwise the first such record is returned iff the password verifies against its hash |
| OrgService.AuthenticateIffPassword | app/services/org_service.py:50-56 | with one record per email, authentication succeeds iff the password verifies, and returns that record |
| OrgService.SharedEmailShadowed | app/services/org_service.py:51 | a later record sharing an earlier record's email is never the authenticated one |
| OrgService.DuplicateEmailAccepted | app/services/org_service.py:11-34 | creating with a free name and an email already in use succeeds |
| AdminRouter.LoginForAccessToken | app/routers/admin.py:15-34 | login fails with 401 iff authentication fails; otherwise `sub` is the record's email, `org_id` its id and `org_name` its name, the type is "bearer" and the response's id and name equal the claims |
| OrganizationRouter.GetCurrentAdmin | app/routers/organization.py:19-38 | 401 when `sub` or `org_name` is missing; otherwise the admin is found iff some record has both that name and that email, and the one returned does |
| OrganizationRouter.GetOrganization | app/routers/organization.py:44-56 | 404 iff no record has the name; otherwise the view of the first record with it |
| OrganizationRouter.UpdateOrganization | app/routers/organization.py:58-107 | a bad token is 401 and a different held name is 400, both changing nothing; otherwise the caller's record is rewritten by id, then the collection is kept, renamed, or the rename fails with the registry already written, and the response carries the new name, email and collection, the caller's id and the creation time of the record read back |
| OrganizationRouter.SyncCollection | app/routers/organization.py:92-107 | after the registry write: rename only when the collection name changed and the old collection exists; the request fails exactly when it then finds the target present, and otherwise reads the record back by id |
| OrganizationRouter.DeleteOrganization | app/routers/organization.py:109-121 | a bad token is 401 and changes nothing; otherwise the caller's collection is dropped, its record removed by id, and the message names the tenant |
| Lifecycle.EmptyIsGood | app/services/org_service.py:9 | the empty store satisfies the invariants and isolation |
| Lifecycle.CoversAppend | app/services/org_service.py:34-40 | appending a record and adding its collection keeps every record's collection present and every collection owned |
| Lifecycle.CoversReplace | app/routers/organization.py:90-97 | replacing a record and swapping its collection keeps that correspondence, given distinct collections |
| Lifecycle.CoversRemove | app/routers/organization.py:116-119 | removing a record and its collection keeps that correspondence, given distinct collections |
| Lifecycle.CallerPosition | app/routers/organization.py:35-38 | the authorized admin sits at a position that a lookup by its id finds |
| Lifecycle.CreateAppends | app/services/org_service.py:34 | a create with a free name appends exactly the new record |
| Lifecycle.CreatePreservesGood | app/services/org_service.py:11-40 | create keeps names unique, ids distinct and allocated, and collections derived |
| Lifecycle.CreatePreservesIsolation | app/services/org_service.py:11-40 | if the new name derives a collection no other live name derives, create keeps one distinct existing collection per record and no orphan |
| Lifecycle.AppendKeepsIsolated | app/services/org_service.py:34-40 | appending a record whose collection is new, together with that collection, keeps isolation |
| Lifecycle.CollisionBreaksIsolation | app/services/org_service.py:21 | starting from an isolated store, two free names that derive the same collection are both created onto it, which leaves the store provisioned but not isolated; deleting the second keeps exactly the first record, and the collection it names is gone |
| Lifecycle.CreateColliding | app/services/org_service.py:11-40 | two creates of distinct free names on an isolated store both succeed, keep the store Good and provisioned, and append their two records |
| Lifecycle.CreateTwice | app/services/org_service.py:11-40 | two creates of distinct free names append their two records in order |
| Lifecycle.DeleteSecond | app/routers/organization.py:109-121 | when the last two records share a collection, the store is not isolated, and deleting the last keeps every other record and removes the collection the other one names |
| Lifecycle.UpdateWrites | app/routers/organization.py:74-90 | a 400 update changes nothing and the name is held; otherwise the name was free or the caller's own, and the registry is the caller's point update |
| Lifecycle.UpdateKeepsCreatedAt | app/routers/organization.py:100-106 | with distinct ids, an accepted update answers with the caller's original creation time |
| Lifecycle.ReplaceKeepsGood | app/routers/organization.py:74-90 | a point update that keeps the id, derives the collection and takes a free or own name keeps the invariants |
| Lifecycle.UpdatePreservesGood | app/routers/organization.py:58-107 | update keeps names unique, ids distinct and allocated, and collections derived, on every path |
| Lifecycle.UpdateRenames | app/routers/organization.py:92-97 | with the caller's collection present, an update either fails on an existing target or moves the collection from the old name to the new |
| Lifecycle.ReplaceKeepsIsolated | app/routers/organization.py:90-97 | a point update onto a collection no other record uses keeps isolation |
| Lifecycle.UpdatePreservesIsolation | app/routers/organization.py:58-107 | if no record other than the caller's holds a different name deriving the new collection, update keeps isolation and never hits the existing-target failure |
| Lifecycle.RemoveAt | app/routers/organization.py:119 | the sequence without position k lists the other records in order |
| Lifecycle.RemoveKeepsGood | app/routers/organization.py:119 | removing one record keeps the invariants and distinct collections |
| Lifecycle.DeleteRemoves | app/routers/organization.py:109-121 | delete removes exactly the caller's position and collection and keeps the counter |
| Lifecycle.DeletePreservesGood | app/routers/organization.py:109-121 | delete keeps the invariants |
| Lifecycle.DeletePreservesIsolation | app/routers/organization.py:109-121 | delete keeps isolation |
| Lifecycle.LoginAuthorizes | app/routers/admin.py:27-33 | the claims issued by a login authorize exactly the authenticated record |
| Lifecycle.CreateKeepsSessions | app/services/org_service.py:34 | a create does not change what existing claims authorize |
| Lifecycle.RecreateRevivesSession | app/routers/organization.py:35 | claims that authorize no current record start to authorize again once a tenant with that name and email is created |
| Lifecycle.UpdateRevokesSessions | app/routers/organization.py:35-38 | after an accepted update, the caller's old claims still authorize iff neither the name nor the email changed |
| Lifecycle.ReloginAfterUpdate | tests/test_flow.py:91-99 | after an accepted update, logging in with the new email and password succeeds when no other record has that email, with the same id and the new name, and the claims authorize |
| Lifecycle.DeleteRevokesSessions | app/routers/organization.py:109-121 | after a delete, the caller's claims no longer authorize and the tenant's name is not found |
| Lifecycle.FlowCreate | tests/test_flow.py:19-48 | creating a free name with a free email succeeds onto its derived collection, the tenant is found, and a login's claims authorize it |
| Lifecycle.FlowUpdate | tests/test_flow.py:51-99 | renaming with the login's claims succeeds onto the derived collection, the new name is found, the old claims are refused and a new login's claims authorize the renamed record |
| Lifecycle.FlowDelete | tests/test_flow.py:101-103 | deleting with valid claims succeeds, removes the collection, and the name is then not found |
| Lifecycle.UpdateThenDelete | tests/test_flow.py:51-103 | renaming the newest tenant answers with the new name and collection and the new name is found; then deleting it removes exactly its record and collection |
| Lifecycle.EndToEnd | tests/test_flow.py:8-106 | the whole flow succeeds at each step: the created tenant is found and its login's claims authorize, the update answers with the new name and collection and the new name is found, the stale claims are refused, the new login's claims authorize, the delete succeeds and the name is then not found; the registry and the set of collections return to their initial value |
| Store.Database.constructor | app/services/org_service.py:9 | a new store is empty and satisfies the invariants |
| Store.Database.CreateOrganization | app/services/org_service.py:11-48 | the in-place lookup, insert and init-document steps end in the state and response of the create function, and keep the invariants |
| Store.Database.UpdateOrganization | app/routers/organization.py:58-107 | the in-place token check, name check and registry write, followed by the collection sync, end as the update function says and keep the invariants |
| Store.Database.SyncCollection | app/routers/organization.py:92-107 | the in-place rename and read-back end as the sync function says |
| Store.Database.DeleteOrganization | app/routers/organization.py:109-121 | the in-place drop and then delete end as the delete function says and keep the invariants |

## Left out

- JWT encoding, signing, verification and expiry are not modelled. A token
  is the claims record it carries, and a token that fails to decode is
  `None`. The `create_access_token` code is not part of this model.
- Password hashing is replaced by a fixed, unsalted stand-in. `Verify`
  accepts exactly the stand-in hash of the password. Salting and the
  hashing library are not modelled.
- Each request is atomic and requests run one after another. The
  check-then-insert race between two concurrent creates is not modelled.
- HTTP plumbing is not modelled: routing, `HTTPBearer`, headers, and
  pydantic or `EmailStr` validation. A failure is a status and a detail.
- A MongoDB error during rename is not an `HTTPException`. The framework
  answers it with a 500. The model tags it as status 500 with the
  driver's message.
- `created_at` is passed in by the caller instead of read from the clock.
  The ObjectId is a counter, and `str(_id)` is the id itself.
- The `init` document's contents are not kept. A collection is its name
  and its document count.
- `list_collection_names` also lists `master_organizations`. The model
  keeps the registry apart from the tenant collections. No tenant
  collection can be named `master_organizations`
  (`Naming.CollectionNameNotMaster`), so the membership test gives the
  same answer.
- `str.lower()` is modelled on ASCII letters only. Other characters pass
  through unchanged.
- The response to a failed read-back after an update (`updated_org` is
  `None`) is modelled as a 500. It cannot happen once the token check has
  found the record.
- Startup, shutdown and router wiring (app/main.py) are not modelled,
  and neither is settings loading (app/core/config.py).
- `create_new_organization` only forwards to `create_organization` and
  is not modelled separately.
- Lifecycle.CreatePreservesIsolation and Lifecycle.UpdatePreservesIsolation
  hold only under the hypothesis that the new name derives a collection
  that no other live name derives (for an update, the caller's own record
  is exempt). Lifecycle.CollisionBreaksIsolation shows the hypothesis is
  needed.
- OrgService.CreateOrganization, OrganizationRouter.UpdateOrganization and
  OrganizationRouter.DeleteOrganization do not model the driver rejecting
  an invalid collection name. Such a name ends in `.`, contains `$`, `..`
  or a NUL character (for example the one derived from "Acme Inc."), or
  makes the full namespace `org_management_db.<collection>` longer than
  MongoDB's limit of 255 bytes (120 bytes before version 4.4). The
  request schema does not bound the name's length. The model answers
  `Ok` where the source fails with a 500:
  - create fails after the registry insert, leaving a record without its
    collection;
  - delete fails at the drop, before the record is removed;
  - update fails at the rename, after the registry write. This covers a
    new name that is too long as well as one with a rejected character.
- OrgService.CreateOrganization returns the creation time as given.
  MongoDB stores it at millisecond precision, so a later read of the
  record can differ from the create response. The model keeps one value
  for both.
