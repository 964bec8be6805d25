/** app/routers/admin.py: the login endpoint. */
module AdminRouter {
  import opened Wrappers
  import opened Domain
  import opened OrgService

  /** `login_for_access_token`: 401 when authentication fails; otherwise
      claims naming the admin (`sub`), the record id (`org_id`) and the
      organization name (`org_name`), echoed in the response body. */
  function LoginForAccessToken(rs: seq<OrgRecord>, email: string, password: string)
    : (r: Result<TokenResponse, Failure>)
    ensures r.Err? <==> AuthenticateAdmin(rs, email, password).None?
    ensures r.Err? ==> r.error == WrongCredentials
    ensures r.Ok? ==>
      var user := AuthenticateAdmin(rs, email, password).value;
      && r.value.accessToken.sub == Some(email)
      && r.value.accessToken.sub == Some(user.adminEmail)
      && r.value.accessToken.orgId == Some(user.id)
      && r.value.accessToken.orgName == Some(user.organizationName)
      && r.value.tokenType == "bearer"
      && r.value.accessToken.orgId == Some(r.value.organizationId)
      && r.value.accessToken.orgName == Some(r.value.organizationName)
  {
    match AuthenticateAdmin(rs, email, password)
    case None => Err(WrongCredentials)
    case Some(user) =>
      var claims := Claims(Some(user.adminEmail), Some(user.id), Some(user.organizationName));
      Ok(TokenResponse(claims, "bearer", user.id, user.organizationName))
  }
}
