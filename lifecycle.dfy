/** Properties of the tenant lifecycle across requests: the registry
    invariants every request keeps, the conditions under which every record
    owns exactly one collection, and how session claims follow the registry. */
module Lifecycle {
  import opened Wrappers
  import opened Naming
  import opened Credentials
  import opened Domain
  import opened Registry
  import opened OrgService
  import opened AdminRouter
  import opened OrganizationRouter

  /** The store before any request. */
  const Empty := Db([], map[], 0)

  /** What create, update and delete always keep: distinct names, distinct
      allocated ids, and every collection name derived from its record's name. */
  predicate Good(db: Db) {
    && UniqueNames(db.registry)
    && IdsAllocated(db.registry, db.nextId)
    && CollectionsDerived(db.registry)
  }

  /** Every record's collection exists, and every tenant collection belongs to
      a record: no dangling record and no orphan collection. */
  predicate Provisioned(db: Db) {
    Covers(db.registry, db.collections.Keys)
  }

  predicate Covers(rs: seq<OrgRecord>, names: set<string>) {
    && (forall k :: 0 <= k < |rs| ==> rs[k].organizationCollection in names)
    && (forall c :: c in names ==> exists k :: 0 <= k < |rs| && rs[k].organizationCollection == c)
  }

  /** No two records share a collection. */
  predicate DistinctCollections(rs: seq<OrgRecord>) {
    forall i, j :: 0 <= i < |rs| && 0 <= j < |rs| && i != j ==>
      rs[i].organizationCollection != rs[j].organizationCollection
  }

  /** Provisioned, and no two records share a collection. */
  predicate Isolated(db: Db) {
    Provisioned(db) && DistinctCollections(db.registry)
  }

  lemma CoversAppend(rs: seq<OrgRecord>, names: set<string>, r: OrgRecord)
    requires Covers(rs, names)
    ensures Covers(rs + [r], names + {r.organizationCollection})
  {
    var rs' := rs + [r];
    forall c | c in names + {r.organizationCollection}
      ensures exists k :: 0 <= k < |rs'| && rs'[k].organizationCollection == c
    {
      if c == r.organizationCollection {
        assert rs'[|rs|].organizationCollection == c;
      } else {
        var k :| 0 <= k < |rs| && rs[k].organizationCollection == c;
        assert rs'[k] == rs[k];
      }
    }
  }

  lemma CoversReplace(rs: seq<OrgRecord>, names: set<string>, k: nat, r: OrgRecord)
    requires Covers(rs, names) && DistinctCollections(rs) && k < |rs|
    ensures Covers(rs[k := r], names - {rs[k].organizationCollection} + {r.organizationCollection})
  {
    var rs' := rs[k := r];
    forall c | c in names - {rs[k].organizationCollection} + {r.organizationCollection}
      ensures exists j :: 0 <= j < |rs'| && rs'[j].organizationCollection == c
    {
      if c == r.organizationCollection {
        assert rs'[k].organizationCollection == c;
      } else {
        var j :| 0 <= j < |rs| && rs[j].organizationCollection == c;
        assert j != k && rs'[j] == rs[j];
      }
    }
  }

  lemma CoversRemove(rs: seq<OrgRecord>, names: set<string>, k: nat)
    requires Covers(rs, names) && DistinctCollections(rs) && k < |rs|
    ensures Covers(rs[..k] + rs[k + 1..], names - {rs[k].organizationCollection})
  {
    var rs' := rs[..k] + rs[k + 1..];
    RemoveAt(rs, k);
    forall c | c in names - {rs[k].organizationCollection}
      ensures exists j :: 0 <= j < |rs'| && rs'[j].organizationCollection == c
    {
      var i :| 0 <= i < |rs| && rs[i].organizationCollection == c;
      var j := if i < k then i else i - 1;
      assert rs'[j] == rs[i];
    }
  }

  /** The hypothesis under which isolation survives a request that stores
      `name`: no other live name derives the same collection. */
  predicate DerivesApart(rs: seq<OrgRecord>, name: string) {
    forall k :: 0 <= k < |rs| && rs[k].organizationName != name ==>
      CollectionName(rs[k].organizationName) != CollectionName(name)
  }

  /** The update hypothesis: no record other than the caller's (by id)
      holds a different name that derives the same collection as `name`. */
  predicate DerivesApartFromOthers(rs: seq<OrgRecord>, name: string, id: Id) {
    forall k :: 0 <= k < |rs| && rs[k].id != id && rs[k].organizationName != name ==>
      CollectionName(rs[k].organizationName) != CollectionName(name)
  }

  lemma EmptyIsGood()
    ensures Good(Empty) && Isolated(Empty)
  {
  }

  /** The record a successful token check returns sits at the position that
      the lookup by its id finds. */
  lemma CallerPosition(db: Db, token: Option<Claims>) returns (k: nat)
    requires Good(db) && GetCurrentAdmin(db.registry, token).Ok?
    ensures k < |db.registry| && db.registry[k] == GetCurrentAdmin(db.registry, token).value
    ensures FindOne(db.registry, ById(db.registry[k].id)) == Some(k)
  {
    var caller := GetCurrentAdmin(db.registry, token).value;
    k :| 0 <= k < |db.registry| && db.registry[k] == caller;
    FindById(db.registry, db.nextId, k);
  }

  // ---- create ----

  /** The record create appends, when the name is free. */
  function NewRecord(db: Db, name: string, email: string, password: string, now: int): OrgRecord {
    OrgRecord(db.nextId, name, CollectionName(name), email, Hash(password), now)
  }

  lemma CreateAppends(db: Db, name: string, email: string, password: string, now: int)
    requires FindOne(db.registry, ByName(name)).None?
    ensures CreateOrganization(db, name, email, password, now).db.registry
         == db.registry + [NewRecord(db, name, email, password, now)]
  {
  }

  lemma CreatePreservesGood(db: Db, name: string, email: string, password: string, now: int)
    requires Good(db)
    ensures Good(CreateOrganization(db, name, email, password, now).db)
  {
    if FindOne(db.registry, ByName(name)).None? {
      CreateAppends(db, name, email, password, now);
      var rs' := db.registry + [NewRecord(db, name, email, password, now)];
      assert forall j :: 0 <= j < |db.registry| ==> rs'[j] == db.registry[j];
    }
  }

  /** Create keeps each record on its own collection as long as the new
      name does not derive the collection of another live name. */
  lemma CreatePreservesIsolation(db: Db, name: string, email: string, password: string, now: int)
    requires Good(db) && Isolated(db) && DerivesApart(db.registry, name)
    ensures Isolated(CreateOrganization(db, name, email, password, now).db)
  {
    var s := CreateOrganization(db, name, email, password, now);
    if FindOne(db.registry, ByName(name)).None? {
      CreateAppends(db, name, email, password, now);
      var rs, r := db.registry, NewRecord(db, name, email, password, now);
      forall j | 0 <= j < |rs| ensures rs[j].organizationCollection != r.organizationCollection {
        assert rs[j].organizationName != name;
      }
      AppendKeepsIsolated(db, r, s.db);
    }
  }

  lemma AppendKeepsIsolated(db: Db, r: OrgRecord, db': Db)
    requires Isolated(db)
    requires db'.registry == db.registry + [r]
    requires db'.collections.Keys == db.collections.Keys + {r.organizationCollection}
    requires forall j :: 0 <= j < |db.registry| ==> db.registry[j].organizationCollection != r.organizationCollection
    ensures Isolated(db')
  {
    var rs, rs' := db.registry, db'.registry;
    CoversAppend(rs, db.collections.Keys, r);
    assert forall j :: 0 <= j < |rs| ==> rs'[j] == rs[j];
  }

  /** Without that hypothesis isolation fails: two distinct free names with
      the same derived collection are both created onto it, and deleting the
      second tenant drops the collection the first one still names. */
  lemma CollisionBreaksIsolation(db: Db, a: string, b: string, ea: string, eb: string, pa: string, pb: string, t: int,
                                 token: Option<Claims>)
    requires Good(db) && Isolated(db) && a != b && CollectionName(a) == CollectionName(b)
    requires NameFree(db.registry, a) && NameFree(db.registry, b)
    requires token == Some(Claims(Some(eb), Some(db.nextId + 1), Some(b)))
    ensures
      var s1 := CreateOrganization(db, a, ea, pa, t);
      var s2 := CreateOrganization(s1.db, b, eb, pb, t);
      var s3 := DeleteOrganization(s2.db, token);
      && s1.result.Ok? && s2.result.Ok? && Provisioned(s2.db) && !Isolated(s2.db)
      && s3.result.Ok? && !Provisioned(s3.db)
      && s3.db.registry == db.registry + [NewRecord(db, a, ea, pa, t)]
      && CollectionName(a) !in s3.db.collections
  {
    var s1 := CreateOrganization(db, a, ea, pa, t);
    var s2 := CreateOrganization(s1.db, b, eb, pb, t);
    var r1 := NewRecord(db, a, ea, pa, t);
    CreateColliding(db, a, b, ea, eb, pa, pb, t);
    var n := |db.registry|;
    assert s2.db.registry[n] == r1;
    DeleteSecond(s2.db, n, eb, b);
    assert (db.registry + [r1, NewRecord(s1.db, b, eb, pb, t)])[..n + 1] == db.registry + [r1];
  }

  /** The two creates of the collision: both succeed, the store stays Good
      and provisioned, and the two new records end the registry. */
  lemma CreateColliding(db: Db, a: string, b: string, ea: string, eb: string, pa: string, pb: string, t: int)
    requires Good(db) && Isolated(db) && a != b
    requires NameFree(db.registry, a) && NameFree(db.registry, b)
    ensures
      var s1 := CreateOrganization(db, a, ea, pa, t);
      var s2 := CreateOrganization(s1.db, b, eb, pb, t);
      && s1.result.Ok? && s2.result.Ok? && Good(s2.db) && Provisioned(s2.db)
      && s2.db.registry == db.registry + [NewRecord(db, a, ea, pa, t), NewRecord(s1.db, b, eb, pb, t)]
  {
    var s1 := CreateOrganization(db, a, ea, pa, t);
    var r1 := NewRecord(db, a, ea, pa, t);
    var r2 := NewRecord(s1.db, b, eb, pb, t);
    CreateTwice(db, a, b, ea, eb, pa, pb, t);
    CreatePreservesGood(db, a, ea, pa, t);
    CreatePreservesGood(s1.db, b, eb, pb, t);
    CoversAppend(db.registry, db.collections.Keys, r1);
    CoversAppend(s1.db.registry, s1.db.collections.Keys, r2);
  }

  /** Two creates of free names append their two records in order. */
  lemma CreateTwice(db: Db, a: string, b: string, ea: string, eb: string, pa: string, pb: string, t: int)
    requires a != b
    requires NameFree(db.registry, a) && NameFree(db.registry, b)
    ensures
      var s1 := CreateOrganization(db, a, ea, pa, t);
      var s2 := CreateOrganization(s1.db, b, eb, pb, t);
      && s1.result.Ok? && s2.result.Ok?
      && s2.db.registry == db.registry + [NewRecord(db, a, ea, pa, t), NewRecord(s1.db, b, eb, pb, t)]
  {
    var rs := db.registry;
    var s1 := CreateOrganization(db, a, ea, pa, t);
    CreateAppends(db, a, ea, pa, t);
    var rs1 := rs + [NewRecord(db, a, ea, pa, t)];
    assert forall j :: 0 <= j < |rs| ==> rs1[j] == rs[j];
    assert forall j :: 0 <= j < |rs1| ==> rs1[j].organizationName != b;
    CreateAppends(s1.db, b, eb, pb, t);
    assert rs1 + [NewRecord(s1.db, b, eb, pb, t)] == db.registry + [NewRecord(db, a, ea, pa, t), NewRecord(s1.db, b, eb, pb, t)];
  }

  /** Deleting the last of two records that share a collection leaves the
      other one without its collection. */
  lemma DeleteSecond(db: Db, n: nat, email: string, name: string)
    requires Good(db) && |db.registry| == n + 2
    requires db.registry[n + 1].organizationName == name && db.registry[n + 1].adminEmail == email
    requires db.registry[n].organizationCollection == db.registry[n + 1].organizationCollection
    ensures !Isolated(db)
    ensures
      var s := DeleteOrganization(db, Some(Claims(Some(email), Some(db.registry[n + 1].id), Some(name))));
      && s.result.Ok? && !Provisioned(s.db)
      && s.db.registry == db.registry[..n + 1]
      && db.registry[n].organizationCollection !in s.db.collections
  {
    var rs := db.registry;
    var token := Some(Claims(Some(email), Some(rs[n + 1].id), Some(name)));
    assert !DistinctCollections(rs);
    assert Matches(ByNameAndEmail(name, email), rs[n + 1]);
    var k := DeleteRemoves(db, token);
    assert k == n + 1;
    assert DeleteOrganization(db, token).db.registry[n] == rs[n];
    assert rs[..n + 1 + 1][..n + 1] == rs[..n + 1];
  }

  // ---- update ----

  /** The effect of an update on the registry, once the token check passed:
      the name check refuses only a new name that another record holds;
      otherwise the caller's position gets the four new fields. */
  lemma UpdateWrites(db: Db, token: Option<Claims>, newName: string, newEmail: string, newPassword: string)
    returns (k: nat)
    requires Good(db) && GetCurrentAdmin(db.registry, token).Ok?
    ensures k < |db.registry| && db.registry[k] == GetCurrentAdmin(db.registry, token).value
    ensures
      var rs := db.registry;
      var s := UpdateOrganization(db, token, newName, newEmail, newPassword);
      if s.result == Err(NameExists) then
        && s.db == db
        && newName != rs[k].organizationName
        && exists j :: 0 <= j < |rs| && rs[j].organizationName == newName
      else
        && (newName == rs[k].organizationName || NameFree(rs, newName))
        && s.db.nextId == db.nextId
        && s.db.registry == rs[k := OrgRecord(rs[k].id, newName, CollectionName(newName), newEmail,
                                              Hash(newPassword), rs[k].createdAt)]
  {
    k := CallerPosition(db, token);
    var rs := db.registry;
    SetFieldsAt(rs, db.nextId, k, newName, newEmail, Hash(newPassword), CollectionName(newName));
  }

  /** The response of an accepted update carries the caller's original
      creation time: the read-back by id finds the caller's own record. */
  lemma UpdateKeepsCreatedAt(db: Db, token: Option<Claims>, newName: string, newEmail: string, newPassword: string)
    requires Good(db) && GetCurrentAdmin(db.registry, token).Ok?
    ensures
      var s := UpdateOrganization(db, token, newName, newEmail, newPassword);
      s.result.Ok? ==> s.result.value.createdAt == GetCurrentAdmin(db.registry, token).value.createdAt
  {
    var k := CallerPosition(db, token);
  }

  /** Rewriting one record keeps the registry invariants when the id is
      kept, the collection is derived, and the name is the old one or free. */
  lemma ReplaceKeepsGood(rs: seq<OrgRecord>, nextId: Id, k: nat, r: OrgRecord)
    requires UniqueNames(rs) && IdsAllocated(rs, nextId) && CollectionsDerived(rs) && k < |rs|
    requires r.id == rs[k].id && r.organizationCollection == CollectionName(r.organizationName)
    requires r.organizationName == rs[k].organizationName || NameFree(rs, r.organizationName)
    ensures UniqueNames(rs[k := r]) && IdsAllocated(rs[k := r], nextId) && CollectionsDerived(rs[k := r])
  {
  }

  lemma UpdatePreservesGood(db: Db, token: Option<Claims>, newName: string, newEmail: string, newPassword: string)
    requires Good(db)
    ensures Good(UpdateOrganization(db, token, newName, newEmail, newPassword).db)
  {
    var s := UpdateOrganization(db, token, newName, newEmail, newPassword);
    if GetCurrentAdmin(db.registry, token).Ok? {
      var k := UpdateWrites(db, token, newName, newEmail, newPassword);
      if s.result != Err(NameExists) {
        var rs := db.registry;
        var r := OrgRecord(rs[k].id, newName, CollectionName(newName), newEmail, Hash(newPassword), rs[k].createdAt);
        ReplaceKeepsGood(rs, db.nextId, k, r);
      }
    }
  }

  /** The collections after an update that passed the name check: when the
      old collection exists and the new one does not, the old one is found
      under the new name; a new name already present fails the rename. */
  lemma UpdateRenames(db: Db, token: Option<Claims>, newName: string, newEmail: string, newPassword: string, k: nat)
    requires Good(db) && GetCurrentAdmin(db.registry, token).Ok?
    requires k < |db.registry| && db.registry[k] == GetCurrentAdmin(db.registry, token).value
    requires db.registry[k].organizationCollection in db.collections
    ensures
      var s := UpdateOrganization(db, token, newName, newEmail, newPassword);
      var oldC, newC := db.registry[k].organizationCollection, CollectionName(newName);
      s.result != Err(NameExists) ==>
        if oldC != newC && newC in db.collections then s.result == Err(RenameTargetExists)
        else s.db.collections.Keys == db.collections.Keys - {oldC} + {newC}
  {
  }

  lemma ReplaceKeepsIsolated(rs: seq<OrgRecord>, names: set<string>, k: nat, r: OrgRecord)
    requires Covers(rs, names) && DistinctCollections(rs) && k < |rs|
    requires forall j :: 0 <= j < |rs| && j != k ==> rs[j].organizationCollection != r.organizationCollection
    ensures Covers(rs[k := r], names - {rs[k].organizationCollection} + {r.organizationCollection})
    ensures DistinctCollections(rs[k := r])
  {
    CoversReplace(rs, names, k, r);
  }

  /** Update keeps each record on its own collection when the new name does
      not derive the collection of another live name; under that hypothesis
      the rename never meets an existing collection. */
  lemma UpdatePreservesIsolation(db: Db, token: Option<Claims>, newName: string, newEmail: string, newPassword: string)
    requires Good(db) && Isolated(db)
    requires GetCurrentAdmin(db.registry, token).Ok? ==>
      DerivesApartFromOthers(db.registry, newName, GetCurrentAdmin(db.registry, token).value.id)
    ensures
      var s := UpdateOrganization(db, token, newName, newEmail, newPassword);
      Isolated(s.db) && s.result != Err(RenameTargetExists)
  {
    var s := UpdateOrganization(db, token, newName, newEmail, newPassword);
    if GetCurrentAdmin(db.registry, token).Ok? {
      var k := UpdateWrites(db, token, newName, newEmail, newPassword);
      if s.result != Err(NameExists) {
        var rs := db.registry;
        var r := OrgRecord(rs[k].id, newName, CollectionName(newName), newEmail, Hash(newPassword), rs[k].createdAt);
        var oldC, newC := rs[k].organizationCollection, CollectionName(newName);
        forall j | 0 <= j < |rs| && j != k ensures rs[j].organizationCollection != newC {
          assert rs[j].id != rs[k].id;
        }
        assert oldC != newC ==> newC !in db.collections;
        UpdateRenames(db, token, newName, newEmail, newPassword, k);
        ReplaceKeepsIsolated(rs, db.collections.Keys, k, r);
      }
    }
  }

  // ---- delete ----

  /** Position `j` of the registry without position `k` held position
      `Skip(k, j)` before. */
  function Skip(k: nat, j: nat): nat {
    if j < k then j else j + 1
  }

  lemma RemoveAt(rs: seq<OrgRecord>, k: nat)
    requires k < |rs|
    ensures |rs[..k] + rs[k + 1..]| == |rs| - 1
    ensures forall j :: 0 <= j < |rs| - 1 ==> (rs[..k] + rs[k + 1..])[j] == rs[Skip(k, j)]
  {
  }

  /** Removing one record keeps the registry invariants and distinct collections. */
  lemma RemoveKeepsGood(rs: seq<OrgRecord>, nextId: Id, k: nat)
    requires UniqueNames(rs) && IdsAllocated(rs, nextId) && CollectionsDerived(rs) && k < |rs|
    ensures var rs' := rs[..k] + rs[k + 1..];
      UniqueNames(rs') && IdsAllocated(rs', nextId) && CollectionsDerived(rs')
    ensures DistinctCollections(rs) ==> DistinctCollections(rs[..k] + rs[k + 1..])
  {
    RemoveAt(rs, k);
  }

  /** The effect of a delete on the registry, once the token check passed. */
  lemma DeleteRemoves(db: Db, token: Option<Claims>) returns (k: nat)
    requires Good(db) && GetCurrentAdmin(db.registry, token).Ok?
    ensures k < |db.registry| && db.registry[k] == GetCurrentAdmin(db.registry, token).value
    ensures
      var s := DeleteOrganization(db, token);
      && s.db.registry == db.registry[..k] + db.registry[k + 1..]
      && s.db.collections.Keys == db.collections.Keys - {db.registry[k].organizationCollection}
      && s.db.nextId == db.nextId
  {
    k := CallerPosition(db, token);
    DeleteOneAt(db.registry, db.nextId, k);
  }

  lemma DeletePreservesGood(db: Db, token: Option<Claims>)
    requires Good(db)
    ensures Good(DeleteOrganization(db, token).db)
  {
    if GetCurrentAdmin(db.registry, token).Ok? {
      var k := DeleteRemoves(db, token);
      RemoveKeepsGood(db.registry, db.nextId, k);
    }
  }

  /** Delete keeps isolation: the dropped collection was the caller's alone. */
  lemma DeletePreservesIsolation(db: Db, token: Option<Claims>)
    requires Good(db) && Isolated(db)
    ensures Isolated(DeleteOrganization(db, token).db)
  {
    if GetCurrentAdmin(db.registry, token).Ok? {
      var k := DeleteRemoves(db, token);
      RemoveKeepsGood(db.registry, db.nextId, k);
      CoversRemove(db.registry, db.collections.Keys, k);
    }
  }

  // ---- sessions ----

  /** Claims issued by login authorize the record that logged in, as long as
      the registry has not changed. */
  lemma LoginAuthorizes(rs: seq<OrgRecord>, email: string, password: string)
    requires LoginForAccessToken(rs, email, password).Ok?
    ensures GetCurrentAdmin(rs, Some(LoginForAccessToken(rs, email, password).value.accessToken))
         == Ok(AuthenticateAdmin(rs, email, password).value)
  {
    var f := FindOne(rs, ByEmail(email)).value;
    var user := rs[f];
    var q := ByNameAndEmail(user.organizationName, email);
    assert Matches(q, rs[f]);
    var g := FindOne(rs, q).value;
    assert Matches(ByEmail(email), rs[g]);
  }

  /** A new tenant does not disturb any existing session. */
  lemma CreateKeepsSessions(db: Db, token: Option<Claims>, name: string, email: string, password: string, now: int)
    requires GetCurrentAdmin(db.registry, token).Ok?
    ensures GetCurrentAdmin(CreateOrganization(db, name, email, password, now).db.registry, token)
         == GetCurrentAdmin(db.registry, token)
  {
    var s := CreateOrganization(db, name, email, password, now);
    if FindOne(db.registry, ByName(name)).None? {
      FindOneAppend(db.registry, s.db.registry[|db.registry|],
                    ByNameAndEmail(token.value.orgName.value, token.value.sub.value));
      assert s.db.registry == db.registry + [s.db.registry[|db.registry|]];
    }
  }

  /** Session claims are not tied to a record id: after a tenant is deleted,
      creating a tenant with the same name and email makes the old claims
      authorize the new record. */
  lemma RecreateRevivesSession(db: Db, token: Option<Claims>, password: string, now: int)
    requires Complete(token) && GetCurrentAdmin(db.registry, token).Err?
    ensures
      var s := CreateOrganization(db, token.value.orgName.value, token.value.sub.value, password, now);
      s.result.Ok? ==> GetCurrentAdmin(s.db.registry, token) == Ok(s.db.registry[|db.registry|])
  {
    var name, email := token.value.orgName.value, token.value.sub.value;
    var s := CreateOrganization(db, name, email, password, now);
    if s.result.Ok? {
      var rec := s.db.registry[|db.registry|];
      FindOneAppend(db.registry, rec, ByNameAndEmail(name, email));
      assert s.db.registry == db.registry + [rec];
    }
  }

  /** After an update passes the name check, the caller's old claims still
      authorize exactly when neither the name nor the email changed. */
  lemma UpdateRevokesSessions(db: Db, token: Option<Claims>, newName: string, newEmail: string, newPassword: string)
    requires Good(db) && GetCurrentAdmin(db.registry, token).Ok?
    ensures
      var caller := GetCurrentAdmin(db.registry, token).value;
      var s := UpdateOrganization(db, token, newName, newEmail, newPassword);
      s.result != Err(NameExists) ==>
        (GetCurrentAdmin(s.db.registry, token).Ok? <==>
           newName == caller.organizationName && newEmail == caller.adminEmail)
  {
    var caller := GetCurrentAdmin(db.registry, token).value;
    var s := UpdateOrganization(db, token, newName, newEmail, newPassword);
    var k := CallerPosition(db, token);
    if s.result != Err(NameExists) {
      var rs, rs' := db.registry, s.db.registry;
      assert rs'[k].organizationName == newName && rs'[k].adminEmail == newEmail;
      if newName == caller.organizationName && newEmail == caller.adminEmail {
        assert rs'[k].organizationName == token.value.orgName.value;
      } else {
        forall j | 0 <= j < |rs'|
          ensures !(rs'[j].organizationName == token.value.orgName.value && rs'[j].adminEmail == token.value.sub.value)
        {
          if j != k {
            assert rs'[j] == rs[j];
            assert rs[j].organizationName != rs[k].organizationName;
          }
        }
      }
    }
  }

  /** After an update, logging in with the new email and password succeeds,
      provided no other record holds that email, and its claims authorize
      the updated record. */
  lemma ReloginAfterUpdate(db: Db, token: Option<Claims>, newName: string, newEmail: string, newPassword: string)
    requires Good(db) && GetCurrentAdmin(db.registry, token).Ok?
    requires forall j :: 0 <= j < |db.registry| && db.registry[j] != GetCurrentAdmin(db.registry, token).value ==>
      db.registry[j].adminEmail != newEmail
    ensures
      var caller := GetCurrentAdmin(db.registry, token).value;
      var s := UpdateOrganization(db, token, newName, newEmail, newPassword);
      var login := LoginForAccessToken(s.db.registry, newEmail, newPassword);
      s.result != Err(NameExists) ==>
        && login.Ok?
        && login.value.organizationName == newName
        && login.value.organizationId == caller.id
        && GetCurrentAdmin(s.db.registry, Some(login.value.accessToken)).Ok?
  {
    var caller := GetCurrentAdmin(db.registry, token).value;
    var s := UpdateOrganization(db, token, newName, newEmail, newPassword);
    var k := CallerPosition(db, token);
    if s.result != Err(NameExists) {
      var rs, rs' := db.registry, s.db.registry;
      assert rs'[k].adminEmail == newEmail && rs'[k].adminPasswordHash == Hash(newPassword);
      forall j | 0 <= j < |rs'| && j != k ensures rs'[j].adminEmail != newEmail {
        assert rs'[j] == rs[j];
        assert rs[j].id != rs[k].id;
      }
      AuthenticateIffPassword(rs', k, newPassword);
      VerifyHash(newPassword);
      LoginAuthorizes(rs', newEmail, newPassword);
    }
  }

  /** After delete, the caller's claims no longer authorize and the name is
      no longer found. */
  lemma DeleteRevokesSessions(db: Db, token: Option<Claims>)
    requires Good(db) && GetCurrentAdmin(db.registry, token).Ok?
    ensures
      var caller := GetCurrentAdmin(db.registry, token).value;
      var s := DeleteOrganization(db, token);
      && GetCurrentAdmin(s.db.registry, token).Err?
      && GetOrganization(s.db.registry, caller.organizationName) == Err(NotFound)
  {
    var k := CallerPosition(db, token);
    var rs, rs' := db.registry, DeleteOrganization(db, token).db.registry;
    forall j | 0 <= j < |rs'| ensures rs'[j].organizationName != rs[k].organizationName {
      var i := if j < k then j else j + 1;
      assert rs'[j] == rs[i] && i != k;
    }
  }

  // ---- the whole lifecycle ----

  /** The claims a successful login hands out. */
  function LoginClaims(rs: seq<OrgRecord>, email: string, password: string): Option<Claims> {
    match LoginForAccessToken(rs, email, password)
    case Ok(response) => Some(response.accessToken)
    case Err(_) => None
  }

  /** Create a tenant, log in, look it up. */
  lemma FlowCreate(db: Db, n1: string, e1: string, p1: string, t: int)
    requires Good(db) && NameFree(db.registry, n1) && EmailFree(db.registry, e1)
    ensures
      var s1 := CreateOrganization(db, n1, e1, p1, t);
      var r1 := NewRecord(db, n1, e1, p1, t);
      && s1.result.Ok? && s1.result.value.organizationCollection == CollectionName(n1)
      && s1.db.registry == db.registry + [r1]
      && s1.db.collections.Keys == db.collections.Keys + {CollectionName(n1)}
      && Good(s1.db)
      && GetOrganization(s1.db.registry, n1).Ok?
      && GetCurrentAdmin(s1.db.registry, LoginClaims(s1.db.registry, e1, p1)) == Ok(r1)
  {
    var s1 := CreateOrganization(db, n1, e1, p1, t);
    var r1 := NewRecord(db, n1, e1, p1, t);
    var n := |db.registry|;
    CreateAppends(db, n1, e1, p1, t);
    CreatePreservesGood(db, n1, e1, p1, t);
    var rs1 := db.registry + [r1];
    assert rs1[n] == r1;
    assert forall j :: 0 <= j < n ==> rs1[j] == db.registry[j];
    AuthenticateIffPassword(rs1, n, p1);
    VerifyHash(p1);
    LoginAuthorizes(rs1, e1, p1);
  }

  /** Update the tenant's name and email with the claims from its login:
      the old claims stop authorizing, and a login with the new email and
      password gives claims that authorize the renamed record. */
  lemma FlowUpdate(db: Db, token: Option<Claims>, n2: string, e2: string, p2: string)
    requires Good(db) && GetCurrentAdmin(db.registry, token).Ok?
    requires NameFree(db.registry, n2)
    requires forall j :: 0 <= j < |db.registry| && db.registry[j] != GetCurrentAdmin(db.registry, token).value ==>
      db.registry[j].adminEmail != e2
    requires CollectionName(n2) !in db.collections
    requires GetCurrentAdmin(db.registry, token).value.organizationCollection in db.collections
    ensures
      var caller := GetCurrentAdmin(db.registry, token).value;
      var s2 := UpdateOrganization(db, token, n2, e2, p2);
      && s2.result.Ok?
      && s2.result.value.organizationName == n2
      && s2.result.value.organizationCollection == CollectionName(n2)
      && s2.db.collections.Keys == db.collections.Keys - {caller.organizationCollection} + {CollectionName(n2)}
      && Good(s2.db)
      && GetOrganization(s2.db.registry, n2).Ok?
      && GetCurrentAdmin(s2.db.registry, token).Err?
      && GetCurrentAdmin(s2.db.registry, LoginClaims(s2.db.registry, e2, p2)).Ok?
      && GetCurrentAdmin(s2.db.registry, LoginClaims(s2.db.registry, e2, p2)).value.organizationName == n2
  {
    var caller := GetCurrentAdmin(db.registry, token).value;
    var s2 := UpdateOrganization(db, token, n2, e2, p2);
    var k := UpdateWrites(db, token, n2, e2, p2);
    assert caller.organizationName != n2;
    assert FindOne(db.registry, ByName(n2)).None?;
    UpdateRenames(db, token, n2, e2, p2, k);
    UpdatePreservesGood(db, token, n2, e2, p2);
    UpdateRevokesSessions(db, token, n2, e2, p2);
    ReloginAfterUpdate(db, token, n2, e2, p2);
    assert s2.db.registry[k].organizationName == n2;
  }

  /** Delete the tenant with the new claims: the name is no longer found. */
  lemma FlowDelete(db: Db, token: Option<Claims>, n2: string)
    requires Good(db) && GetCurrentAdmin(db.registry, token).Ok?
    requires GetCurrentAdmin(db.registry, token).value.organizationName == n2
    ensures
      var caller := GetCurrentAdmin(db.registry, token).value;
      var s3 := DeleteOrganization(db, token);
      && s3.result.Ok?
      && GetOrganization(s3.db.registry, n2) == Err(NotFound)
      && s3.db.collections.Keys == db.collections.Keys - {caller.organizationCollection}
  {
    DeleteRevokesSessions(db, token);
    var k := DeleteRemoves(db, token);
  }

  /** Rename and then delete the newest tenant, each with the claims of a
      fresh login: the registry loses exactly that record. */
  lemma UpdateThenDelete(db: Db, token: Option<Claims>, n2: string, e2: string, p2: string)
    requires Good(db) && GetCurrentAdmin(db.registry, token).Ok?
    requires |db.registry| > 0 && GetCurrentAdmin(db.registry, token).value == db.registry[|db.registry| - 1]
    requires NameFree(db.registry, n2)
    requires forall j :: 0 <= j < |db.registry| - 1 ==> db.registry[j].adminEmail != e2
    requires CollectionName(n2) !in db.collections
    requires db.registry[|db.registry| - 1].organizationCollection in db.collections
    ensures
      var s2 := UpdateOrganization(db, token, n2, e2, p2);
      var tokenB := LoginClaims(s2.db.registry, e2, p2);
      var s3 := DeleteOrganization(s2.db, tokenB);
      && s2.result.Ok? && s2.result.value.organizationCollection == CollectionName(n2)
      && s2.result.value.organizationName == n2
      && GetOrganization(s2.db.registry, n2).Ok?
      && GetCurrentAdmin(s2.db.registry, token).Err?
      && GetCurrentAdmin(s2.db.registry, tokenB).Ok?
      && s3.result.Ok?
      && GetOrganization(s3.db.registry, n2) == Err(NotFound)
      && s3.db.registry == db.registry[..|db.registry| - 1]
      && s3.db.collections.Keys == db.collections.Keys - {db.registry[|db.registry| - 1].organizationCollection}
  {
    var n := |db.registry| - 1;
    var caller := db.registry[n];
    forall j | 0 <= j < |db.registry| && db.registry[j] != caller ensures db.registry[j].adminEmail != e2
    {
      assert j != n;
    }
    FlowUpdate(db, token, n2, e2, p2);
    var s2 := UpdateOrganization(db, token, n2, e2, p2);
    var tokenB := LoginClaims(s2.db.registry, e2, p2);
    FlowDelete(s2.db, tokenB, n2);
    var k := UpdateWrites(db, token, n2, e2, p2);
    var k' := DeleteRemoves(s2.db, tokenB);
    assert k == n;
    assert k' == n;
    assert s2.db.registry[..n] == db.registry[..n];
    var c1, c2 := caller.organizationCollection, CollectionName(n2);
    assert db.collections.Keys - {c1} + {c2} - {c2} == db.collections.Keys - {c1};
  }

  /** The end-to-end flow: create a tenant, log in, rename it and change its
      email, see the old claims refused, log in again, delete it. Afterwards
      the tenant is gone and the registry and the set of collections are as
      they were before. */
  lemma EndToEnd(db: Db, n1: string, e1: string, p1: string, n2: string, e2: string, p2: string, t: int)
    requires Good(db)
    requires NameFree(db.registry, n1) && EmailFree(db.registry, e1)
    requires NameFree(db.registry, n2) && EmailFree(db.registry, e2)
    requires CollectionName(n1) !in db.collections && CollectionName(n2) !in db.collections
    requires CollectionName(n1) != CollectionName(n2)
    ensures
      var s1 := CreateOrganization(db, n1, e1, p1, t);
      var tokenA := LoginClaims(s1.db.registry, e1, p1);
      var s2 := UpdateOrganization(s1.db, tokenA, n2, e2, p2);
      var tokenB := LoginClaims(s2.db.registry, e2, p2);
      var s3 := DeleteOrganization(s2.db, tokenB);
      && s1.result.Ok? && s1.result.value.organizationCollection == CollectionName(n1)
      && GetOrganization(s1.db.registry, n1).Ok?
      && GetCurrentAdmin(s1.db.registry, tokenA).Ok?
      && s2.result.Ok? && s2.result.value.organizationCollection == CollectionName(n2)
      && s2.result.value.organizationName == n2
      && GetOrganization(s2.db.registry, n2).Ok?
      && GetCurrentAdmin(s2.db.registry, tokenA).Err?
      && GetCurrentAdmin(s2.db.registry, tokenB).Ok?
      && s3.result.Ok?
      && GetOrganization(s3.db.registry, n2) == Err(NotFound)
      && s3.db.registry == db.registry
      && s3.db.collections.Keys == db.collections.Keys
  {
    var n := |db.registry|;
    var s1 := CreateOrganization(db, n1, e1, p1, t);
    var r1 := NewRecord(db, n1, e1, p1, t);
    FlowCreate(db, n1, e1, p1, t);
    var rs1 := s1.db.registry;
    forall j | 0 <= j < n + 1 ensures rs1[j].organizationName != n2
    {
      if j < n { assert rs1[j] == db.registry[j]; }
    }
    forall j | 0 <= j < n ensures rs1[j].adminEmail != e2
    {
      assert rs1[j] == db.registry[j];
    }
    assert rs1[..n] == db.registry;
    UpdateThenDelete(s1.db, LoginClaims(rs1, e1, p1), n2, e2, p2);
    var c1 := CollectionName(n1);
    assert db.collections.Keys + {c1} - {c1} == db.collections.Keys;
  }
}
