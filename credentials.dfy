/** Password hashing (`get_password_hash` / `verify_password`, defined in
    app/core/security.py, which is not part of this model). The real scheme
    is salted and one-way; here a fixed stand-in digest is used, and the
    rest of the model relies only on `VerifyHash`. */
module Credentials {

  /** Stand-in for `get_password_hash`. */
  function Hash(password: string): string {
    "$stand-in$" + password
  }

  /** Stand-in for `verify_password`: a password matches the digest made from it. */
  predicate Verify(password: string, digest: string) {
    digest == Hash(password)
  }

  lemma VerifyHash(password: string)
    ensures Verify(password, Hash(password))
  {
  }
}
