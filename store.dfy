/** The store the handlers mutate, step by step: the master registry, the
    tenant collections and the id counter standing in for ObjectId
    generation. Each method performs the source's writes in the source's
    order and is proved to end in the state, with the result, that the
    corresponding transition function describes. */
module Store {
  import opened Wrappers
  import opened Naming
  import opened Credentials
  import opened Domain
  import opened Registry
  import opened Namespaces
  import OrgService
  import OrganizationRouter
  import Lifecycle

  class Database {
    var registry: seq<OrgRecord>
    var collections: Namespaces
    var nextId: Id

    function State(): Db
      reads this
    {
      Db(registry, collections, nextId)
    }

    /** Distinct names, allocated distinct ids, derived collection names. */
    predicate Valid()
      reads this
    {
      Lifecycle.Good(State())
    }

    /** A store with an empty registry and no tenant collections. */
    constructor ()
      ensures State() == Lifecycle.Empty && Valid()
    {
      registry := [];
      collections := map[];
      nextId := 0;
      Lifecycle.EmptyIsGood();
    }

    /** `create_organization`: look the name up, insert the master record,
        then insert the `init` document into the derived collection. */
    method CreateOrganization(name: string, email: string, password: string, now: int)
      returns (r: Result<OrgView, Failure>)
      modifies this
      ensures Step(r, State()) == OrgService.CreateOrganization(old(State()), name, email, password, now)
      ensures old(Valid()) ==> Valid()
    {
      ghost var before := State();
      if FindOne(registry, ByName(name)).Some? {
        return Err(NameExists);
      }
      var collection := CollectionName(name);
      var record := OrgRecord(nextId, name, collection, email, Hash(password), now);
      registry := registry + [record];
      nextId := nextId + 1;
      collections := InsertDoc(collections, collection);
      r := Ok(View(record));
      if Lifecycle.Good(before) {
        Lifecycle.CreatePreservesGood(before, name, email, password, now);
      }
    }

    /** `update_organization`: authenticate the token, refuse a new name
        that is already held, write the caller's record, then rename the
        old collection when the name changed and it exists, and read the
        record back. */
    method UpdateOrganization(token: Option<Claims>, newName: string, newEmail: string, newPassword: string)
      returns (r: Result<OrgView, Failure>)
      modifies this
      ensures Step(r, State()) ==
        OrganizationRouter.UpdateOrganization(old(State()), token, newName, newEmail, newPassword)
      ensures old(Valid()) ==> Valid()
    {
      ghost var before := State();
      if Lifecycle.Good(before) {
        Lifecycle.UpdatePreservesGood(before, token, newName, newEmail, newPassword);
      }
      var auth := OrganizationRouter.GetCurrentAdmin(registry, token);
      if auth.Err? {
        return Err(auth.error);
      }
      var caller := auth.value;
      if newName != caller.organizationName && FindOne(registry, ByName(newName)).Some? {
        return Err(NameExists);
      }
      var newCollection := CollectionName(newName);
      var oldCollection := caller.organizationCollection;
      assert FindOne(registry, ById(caller.id)).Some?;
      registry := SetFields(registry, caller.id, newName, newEmail, Hash(newPassword), newCollection);
      r := SyncCollection(caller.id, oldCollection, newCollection);
    }

    /** The rename that follows the registry write, and the read-back. */
    method SyncCollection(id: Id, oldCollection: string, newCollection: string)
      returns (r: Result<OrgView, Failure>)
      modifies this
      ensures Step(r, State()) == OrganizationRouter.SyncCollection(old(State()), id, oldCollection, newCollection)
    {
      if oldCollection != newCollection && oldCollection in collections {
        var renamed := Rename(collections, oldCollection, newCollection);
        if renamed.Err? {
          return Err(RenameTargetExists);
        }
        collections := renamed.value;
      }
      var updated := FindOne(registry, ById(id));
      if updated.None? {
        r := Err(OrganizationRouter.InternalError);
      } else {
        r := Ok(View(registry[updated.value]));
      }
    }

    /** `delete_organization`: authenticate the token, drop the caller's
        collection, then delete the caller's record by id. */
    method DeleteOrganization(token: Option<Claims>) returns (r: Result<string, Failure>)
      modifies this
      ensures Step(r, State()) == OrganizationRouter.DeleteOrganization(old(State()), token)
      ensures old(Valid()) ==> Valid()
    {
      ghost var before := State();
      if Lifecycle.Good(before) {
        Lifecycle.DeletePreservesGood(before, token);
      }
      var auth := OrganizationRouter.GetCurrentAdmin(registry, token);
      if auth.Err? {
        return Err(auth.error);
      }
      var caller := auth.value;
      collections := Drop(collections, caller.organizationCollection);
      registry := DeleteOne(registry, caller.id);
      r := Ok("Organization " + caller.organizationName + " deleted successfully");
    }
  }
}
