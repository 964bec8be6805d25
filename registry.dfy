/** The operations the service performs on `master_organizations`:
    `find_one` by a filter, `insert_one`, `update_one` with `$set` by `_id`,
    and `delete_one` by `_id`; and the invariants the lifecycle keeps. */
module Registry {
  import opened Wrappers
  import opened Naming
  import opened Domain

  /** The filters the service passes to `find_one`. */
  datatype Query =
    | ByName(name: string)
    | ByEmail(email: string)
    | ByNameAndEmail(name: string, email: string)
    | ById(id: Id)

  predicate Matches(q: Query, r: OrgRecord) {
    match q
    case ByName(n) => r.organizationName == n
    case ByEmail(e) => r.adminEmail == e
    case ByNameAndEmail(n, e) => r.organizationName == n && r.adminEmail == e
    case ById(id) => r.id == id
  }

  /** Position `k` holds the first record, in insertion order, that matches. */
  predicate FirstMatch(rs: seq<OrgRecord>, q: Query, k: nat) {
    k < |rs| && Matches(q, rs[k]) && forall j :: 0 <= j < k ==> !Matches(q, rs[j])
  }

  /** `find_one`: the position of the first record, in insertion order, that
      matches the filter. */
  function FindOne(rs: seq<OrgRecord>, q: Query): (found: Option<nat>)
    ensures found.Some? ==> FirstMatch(rs, q, found.value)
    ensures found.None? <==> forall j :: 0 <= j < |rs| ==> !Matches(q, rs[j])
  {
    if rs == [] then None
    else if Matches(q, rs[0]) then Some(0)
    else
      match FindOne(rs[1..], q)
      case None => None
      case Some(i) => Some(i + 1)
  }

  /** `update_one({"_id": id}, {"$set": ...})` with the four fields that
      update writes: the first record with that id gets them, id and
      creation time are kept, nothing else changes. */
  function SetFields(rs: seq<OrgRecord>, id: Id, name: string, email: string, hash: string, collection: string)
    : (rs': seq<OrgRecord>)
    ensures |rs'| == |rs|
    ensures FindOne(rs, ById(id)).None? ==> rs' == rs
    ensures FindOne(rs, ById(id)).Some? ==>
      var k := FindOne(rs, ById(id)).value;
      && rs'[k] == OrgRecord(id, name, collection, email, hash, rs[k].createdAt)
      && forall j :: 0 <= j < |rs| && j != k ==> rs'[j] == rs[j]
  {
    match FindOne(rs, ById(id))
    case None => rs
    case Some(k) =>
      rs[k := rs[k].(organizationName := name, adminEmail := email,
                     adminPasswordHash := hash, organizationCollection := collection)]
  }

  /** `delete_one({"_id": id})`: the first record with that id is removed and
      the others keep their order. */
  function DeleteOne(rs: seq<OrgRecord>, id: Id): (rs': seq<OrgRecord>)
    ensures FindOne(rs, ById(id)).None? ==> rs' == rs
    ensures FindOne(rs, ById(id)).Some? ==>
      var k := FindOne(rs, ById(id)).value;
      && |rs'| == |rs| - 1
      && (forall j :: 0 <= j < k ==> rs'[j] == rs[j])
      && (forall j :: k <= j < |rs'| ==> rs'[j] == rs[j + 1])
  {
    match FindOne(rs, ById(id))
    case None => rs
    case Some(k) => rs[..k] + rs[k + 1..]
  }

  /** No record holds the name. */
  predicate NameFree(rs: seq<OrgRecord>, name: string) {
    forall j :: 0 <= j < |rs| ==> rs[j].organizationName != name
  }

  /** No record holds the email. */
  predicate EmailFree(rs: seq<OrgRecord>, email: string) {
    forall j :: 0 <= j < |rs| ==> rs[j].adminEmail != email
  }

  /** No two records share an organization name. */
  predicate UniqueNames(rs: seq<OrgRecord>) {
    forall i, j :: 0 <= i < |rs| && 0 <= j < |rs| && i != j ==>
      rs[i].organizationName != rs[j].organizationName
  }

  /** No two records share an id, and every id is below the next one to allocate. */
  predicate IdsAllocated(rs: seq<OrgRecord>, nextId: Id) {
    && (forall i, j :: 0 <= i < |rs| && 0 <= j < |rs| && i != j ==> rs[i].id != rs[j].id)
    && (forall i :: 0 <= i < |rs| ==> rs[i].id < nextId)
  }

  /** Every stored collection name is the derivation of the stored organization name. */
  predicate CollectionsDerived(rs: seq<OrgRecord>) {
    forall i :: 0 <= i < |rs| ==> rs[i].organizationCollection == CollectionName(rs[i].organizationName)
  }

  /** When ids are distinct, the record found by id is the one at that position. */
  lemma FindById(rs: seq<OrgRecord>, nextId: Id, k: nat)
    requires IdsAllocated(rs, nextId) && k < |rs|
    ensures FindOne(rs, ById(rs[k].id)) == Some(k)
  {
  }

  /** When names are distinct, the record found by name is the one at that position. */
  lemma FindByName(rs: seq<OrgRecord>, k: nat)
    requires UniqueNames(rs) && k < |rs|
    ensures FindOne(rs, ByName(rs[k].organizationName)) == Some(k)
  {
  }

  /** Appending a record does not change what an earlier match finds. */
  lemma {:induction false} FindOneAppend(rs: seq<OrgRecord>, r: OrgRecord, q: Query)
    ensures FindOne(rs + [r], q) == match FindOne(rs, q)
      case Some(k) => Some(k)
      case None => if Matches(q, r) then Some(|rs|) else None
  {
    if rs != [] {
      assert (rs + [r])[1..] == rs[1..] + [r];
      FindOneAppend(rs[1..], r, q);
    }
  }

  /** With distinct ids, the `$set` by the id of position `k` rewrites exactly position `k`. */
  lemma SetFieldsAt(rs: seq<OrgRecord>, nextId: Id, k: nat, name: string, email: string, hash: string, collection: string)
    requires IdsAllocated(rs, nextId) && k < |rs|
    ensures SetFields(rs, rs[k].id, name, email, hash, collection)
         == rs[k := OrgRecord(rs[k].id, name, collection, email, hash, rs[k].createdAt)]
  {
    FindById(rs, nextId, k);
  }

  /** With distinct ids, the delete by the id of position `k` removes exactly position `k`. */
  lemma DeleteOneAt(rs: seq<OrgRecord>, nextId: Id, k: nat)
    requires IdsAllocated(rs, nextId) && k < |rs|
    ensures DeleteOne(rs, rs[k].id) == rs[..k] + rs[k + 1..]
  {
    FindById(rs, nextId, k);
  }
}
