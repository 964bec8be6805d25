/** app/routers/organization.py: the token check that guards update and
    delete, and the get, update and delete endpoints. */
module OrganizationRouter {
  import opened Wrappers
  import opened Naming
  import opened Credentials
  import opened Domain
  import opened Registry
  import opened Namespaces

  /** The failure of the final `find_one` by id in update, which never
      happens once the token check has found the record. */
  const InternalError := Failure(500, "Internal Server Error")

  /** The claims that name an admin: both `sub` and `org_name` present. */
  predicate Complete(token: Option<Claims>) {
    token.Some? && token.value.sub.Some? && token.value.orgName.Some?
  }

  /** `get_current_admin`: 401 when the token does not decode (`None`) or
      lacks `sub` or `org_name`; otherwise the first record holding both
      that name and that email, and 401 when there is none. */
  function GetCurrentAdmin(rs: seq<OrgRecord>, token: Option<Claims>): (r: Result<OrgRecord, Failure>)
    ensures r.Err? ==> r.error == BadToken
    ensures !Complete(token) ==> r.Err?
    ensures Complete(token) ==>
      (r.Ok? <==> exists k :: 0 <= k < |rs| && rs[k].organizationName == token.value.orgName.value
                                           && rs[k].adminEmail == token.value.sub.value)
    ensures r.Ok? ==>
      && r.value in rs
      && Some(r.value.organizationName) == token.value.orgName
      && Some(r.value.adminEmail) == token.value.sub
  {
    if !Complete(token) then Err(BadToken)
    else
      match FindOne(rs, ByNameAndEmail(token.value.orgName.value, token.value.sub.value))
      case None => Err(BadToken)
      case Some(k) => Ok(rs[k])
  }

  /** `get_organization`: 404 exactly when no record holds the name;
      otherwise the view of the first record that does. */
  function GetOrganization(rs: seq<OrgRecord>, name: string): (r: Result<OrgView, Failure>)
    ensures r.Err? <==> NameFree(rs, name)
    ensures r.Err? ==> r.error == NotFound
    ensures forall k: nat :: FirstMatch(rs, ByName(name), k) ==> r == Ok(View(rs[k]))
  {
    match FindOne(rs, ByName(name))
    case None => Err(NotFound)
    case Some(k) => Ok(View(rs[k]))
  }

  /** The closing `find_one` by id of update and the response built from it. */
  function Refetch(db: Db, id: Id): Step<OrgView> {
    match FindOne(db.registry, ById(id))
    case None => Step(Err(InternalError), db)
    case Some(k) => Step(Ok(View(db.registry[k])), db)
  }

  /** `update_organization`, after the token check: a new name already held
      by a record is refused with 400 (keeping one's own name skips the
      check); otherwise the caller's record gets the new name, email, hash
      and derived collection (registry write first), and then the old
      collection is renamed when the collection name changed and the old
      one exists. A rename onto an existing collection fails after the
      registry write. */
  function UpdateOrganization(db: Db, token: Option<Claims>, newName: string, newEmail: string, newPassword: string)
    : (s: Step<OrgView>)
    ensures GetCurrentAdmin(db.registry, token).Err? ==> s == Step(Err(BadToken), db)
    ensures GetCurrentAdmin(db.registry, token).Ok? ==>
      var caller := GetCurrentAdmin(db.registry, token).value;
      var oldC := caller.organizationCollection;
      var newC := CollectionName(newName);
      if newName != caller.organizationName && FindOne(db.registry, ByName(newName)).Some? then
        s == Step(Err(NameExists), db)
      else
        && s.db.registry == SetFields(db.registry, caller.id, newName, newEmail, Hash(newPassword), newC)
        && s.db.nextId == db.nextId
        && (oldC == newC || oldC !in db.collections ==> s.db.collections == db.collections && s.result.Ok?)
        && (oldC != newC && oldC in db.collections && newC in db.collections ==>
              s.db.collections == db.collections && s.result == Err(RenameTargetExists))
        && (oldC != newC && oldC in db.collections && newC !in db.collections ==>
              s.db.collections == Rename(db.collections, oldC, newC).value && s.result.Ok?)
        && (s.result.Ok? ==> s.result.value == OrgView(newName, newEmail, newC, caller.id,
                                                  db.registry[FindOne(db.registry, ById(caller.id)).value].createdAt))
  {
    match GetCurrentAdmin(db.registry, token)
    case Err(e) => Step(Err(e), db)
    case Ok(caller) =>
      if newName != caller.organizationName && FindOne(db.registry, ByName(newName)).Some? then
        Step(Err(NameExists), db)
      else
        var newCollection := CollectionName(newName);
        var oldCollection := caller.organizationCollection;
        var registry := SetFields(db.registry, caller.id, newName, newEmail, Hash(newPassword), newCollection);
        assert FindOne(db.registry, ById(caller.id)).Some?;
        SyncCollection(db.(registry := registry), caller.id, oldCollection, newCollection)
  }

  /** The second half of `update_organization`, once the registry has been
      written: rename the old collection when the name changed and it
      exists, then read the record back. */
  function SyncCollection(written: Db, id: Id, oldCollection: string, newCollection: string): (s: Step<OrgView>)
    ensures s.db.registry == written.registry && s.db.nextId == written.nextId
    ensures oldCollection == newCollection || oldCollection !in written.collections ==>
      s.db.collections == written.collections
    ensures oldCollection != newCollection && oldCollection in written.collections && newCollection in written.collections ==>
      s.db.collections == written.collections && s.result == Err(RenameTargetExists)
    ensures oldCollection != newCollection && oldCollection in written.collections && newCollection !in written.collections ==>
      s.db.collections == Rename(written.collections, oldCollection, newCollection).value
    ensures s.result == Err(RenameTargetExists) <==>
      oldCollection != newCollection && oldCollection in written.collections && newCollection in written.collections
    ensures s.result != Err(RenameTargetExists) ==>
      match FindOne(written.registry, ById(id))
      case None => s.result == Err(InternalError)
      case Some(k) => s.result == Ok(View(written.registry[k]))
  {
    if oldCollection != newCollection && oldCollection in written.collections then
      match Rename(written.collections, oldCollection, newCollection)
      case Err(_) => Step(Err(RenameTargetExists), written)
      case Ok(collections) => Refetch(written.(collections := collections), id)
    else
      Refetch(written, id)
  }

  /** `delete_organization`, after the token check: the caller's collection
      is dropped (absent or not), then the caller's record is removed by id. */
  function DeleteOrganization(db: Db, token: Option<Claims>): (s: Step<string>)
    ensures GetCurrentAdmin(db.registry, token).Err? ==> s == Step(Err(BadToken), db)
    ensures GetCurrentAdmin(db.registry, token).Ok? ==>
      var caller := GetCurrentAdmin(db.registry, token).value;
      && s.result == Ok("Organization " + caller.organizationName + " deleted successfully")
      && s.db.collections == Drop(db.collections, caller.organizationCollection)
      && s.db.registry == DeleteOne(db.registry, caller.id)
      && s.db.nextId == db.nextId
  {
    match GetCurrentAdmin(db.registry, token)
    case Err(e) => Step(Err(e), db)
    case Ok(caller) =>
      var collections := Drop(db.collections, caller.organizationCollection);
      var registry := DeleteOne(db.registry, caller.id);
      Step(Ok("Organization " + caller.organizationName + " deleted successfully"),
           Db(registry, collections, db.nextId))
  }
}
