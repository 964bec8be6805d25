/** The records, views and claims of the service (app/models/domain.py,
    app/models/schemas.py), and a snapshot of the document store. */
module Domain {
  import opened Wrappers

  /** An ObjectId, allocated from a counter. */
  type Id = nat

  /** A document of `master_organizations` (`MasterOrganization` plus `_id`).
      `createdAt` is the `datetime.utcnow()` reading, passed in by the caller. */
  datatype OrgRecord = OrgRecord(
    id: Id,
    organizationName: string,
    organizationCollection: string,
    adminEmail: string,
    adminPasswordHash: string,
    createdAt: int)

  /** `OrganizationResponse`: the public view of a record. */
  datatype OrgView = OrgView(
    organizationName: string,
    email: string,
    organizationCollection: string,
    adminId: Id,
    createdAt: int)

  /** The response built from a stored record (`str(_id)` is kept as the id). */
  function View(r: OrgRecord): OrgView {
    OrgView(r.organizationName, r.adminEmail, r.organizationCollection, r.id, r.createdAt)
  }

  /** The payload of a session token. Each claim may be absent from a
      decoded payload, as `payload.get(...)` allows. */
  datatype Claims = Claims(sub: Option<string>, orgId: Option<Id>, orgName: Option<string>)

  /** The `Token` schema returned by the login endpoint. The access token is
      represented by the claims it carries; signing is not modelled. */
  datatype TokenResponse = TokenResponse(
    accessToken: Claims,
    tokenType: string,
    organizationId: Id,
    organizationName: string)

  /** An `HTTPException` (or an unhandled store error): status and detail. */
  datatype Failure = Failure(status: nat, detail: string)

  const NameExists := Failure(400, "Organization name already exists")
  const WrongCredentials := Failure(401, "Incorrect email or password")
  const BadToken := Failure(401, "Could not validate credentials")
  const NotFound := Failure(404, "Organization not found")
  /** MongoDB's rename onto an existing collection raises; the request ends in a server error. */
  const RenameTargetExists := Failure(500, "target namespace exists")

  /** The document store: the registry collection in insertion order, every
      other collection by name with its number of documents, and the next
      ObjectId. */
  datatype Db = Db(registry: seq<OrgRecord>, collections: map<string, nat>, nextId: Id)

  /** The response of one request together with the store after it. */
  datatype Step<T> = Step(result: Result<T, Failure>, db: Db)
}
