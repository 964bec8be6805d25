/** app/services/org_service.py: creating an organization and checking an
    admin's credentials. */
module OrgService {
  import opened Wrappers
  import opened Naming
  import opened Credentials
  import opened Domain
  import opened Registry
  import opened Namespaces

  /** `create_organization`: refused with 400 when the name is already held;
      otherwise one record is appended (with the next id, the derived
      collection and the hashed password) and the new collection receives
      its `init` document. The admin email is not checked. */
  function CreateOrganization(db: Db, name: string, email: string, password: string, now: int)
    : (s: Step<OrgView>)
    ensures FindOne(db.registry, ByName(name)).Some? ==> s == Step(Err(NameExists), db)
    ensures FindOne(db.registry, ByName(name)).None? ==>
      var n := |db.registry|;
      var c := CollectionName(name);
      && |s.db.registry| == n + 1
      && s.db.registry[..n] == db.registry
      && s.db.registry[n] == OrgRecord(db.nextId, name, c, email, Hash(password), now)
      && s.db.nextId == db.nextId + 1
      && s.db.collections.Keys == db.collections.Keys + {c}
      && s.db.collections[c] == (if c in db.collections then db.collections[c] else 0) + 1
      && (forall d :: d in db.collections && d != c ==> s.db.collections[d] == db.collections[d])
      && s.result == Ok(OrgView(name, email, c, db.nextId, now))
  {
    if FindOne(db.registry, ByName(name)).Some? then
      Step(Err(NameExists), db)
    else
      var collection := CollectionName(name);
      var record := OrgRecord(db.nextId, name, collection, email, Hash(password), now);
      var registry := db.registry + [record];
      var collections := InsertDoc(db.collections, collection);
      Step(Ok(View(record)), Db(registry, collections, db.nextId + 1))
  }

  /** `authenticate_admin`: the first record holding the email, provided the
      password verifies against its hash; nothing otherwise. */
  function AuthenticateAdmin(rs: seq<OrgRecord>, email: string, password: string)
    : (user: Option<OrgRecord>)
    ensures (forall k :: 0 <= k < |rs| ==> rs[k].adminEmail != email) ==> user.None?
    ensures forall k: nat :: FirstMatch(rs, ByEmail(email), k) ==>
      user == if Verify(password, rs[k].adminPasswordHash) then Some(rs[k]) else None
  {
    match FindOne(rs, ByEmail(email))
    case None => None
    case Some(k) => if Verify(password, rs[k].adminPasswordHash) then Some(rs[k]) else None
  }

  /** With one record per email, authentication succeeds exactly when the
      password verifies against that record's hash. */
  lemma AuthenticateIffPassword(rs: seq<OrgRecord>, k: nat, password: string)
    requires k < |rs|
    requires forall j :: 0 <= j < |rs| && j != k ==> rs[j].adminEmail != rs[k].adminEmail
    ensures AuthenticateAdmin(rs, rs[k].adminEmail, password).Some?
        <==> Verify(password, rs[k].adminPasswordHash)
    ensures AuthenticateAdmin(rs, rs[k].adminEmail, password).Some? ==>
        AuthenticateAdmin(rs, rs[k].adminEmail, password).value == rs[k]
  {
    assert FirstMatch(rs, ByEmail(rs[k].adminEmail), k);
  }

  /** Because create and update never check emails, a later record that
      shares an earlier record's email can never be authenticated. */
  lemma SharedEmailShadowed(rs: seq<OrgRecord>, i: nat, k: nat, password: string)
    requires i < k < |rs| && rs[i].adminEmail == rs[k].adminEmail
    requires forall j :: 0 <= j < |rs| && j != k ==> rs[j].id != rs[k].id
    ensures AuthenticateAdmin(rs, rs[k].adminEmail, password) != Some(rs[k])
  {
    var f := FindOne(rs, ByEmail(rs[k].adminEmail)).value;
    assert f <= i;
    assert FirstMatch(rs, ByEmail(rs[k].adminEmail), f);
    assert rs[f] != rs[k];
  }

  /** Creating a tenant whose name is free succeeds even when its admin
      email is already used by another record. */
  lemma DuplicateEmailAccepted(db: Db, k: nat, name: string, password: string, now: int)
    requires k < |db.registry|
    requires NameFree(db.registry, name)
    ensures CreateOrganization(db, name, db.registry[k].adminEmail, password, now).result.Ok?
  {
  }
}
