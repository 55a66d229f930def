/**
 * src/lib/auth.ts: the session is the raw user id kept in the `linkforge_session` cookie, and a
 * password is stored as the SHA-256 hex digest of the password followed by a fixed salt. The
 * digest itself is a parameter `sha256Hex`: any total function of strings.
 */
module Auth {
  import opened Common
  import opened Store

  const Salt := "linkforge_salt_2026"

  /** `getSession`: the cookie value, read by the caller, resolved to a user row. */
  function GetSession(db: Db, cookie: Option<string>): (r: Option<UserRow>)
    reads db
    ensures cookie.None? ==> r.None?
    ensures cookie.Some? ==> (r.Some? <==> cookie.value in UserIds(db.users))
    ensures r.Some? ==> r.value in db.users && r.value.id == cookie.value
  {
    match cookie
    case None => None
    case Some(userId) => db.GetUserById(userId)
  }

  /** `hashPassword`: the digest of the password followed by the salt. */
  function HashPassword(sha256Hex: string -> string, password: string): string
  {
    sha256Hex(password + Salt)
  }

  /** `verifyPassword`: recompute the digest and compare. */
  function VerifyPassword(sha256Hex: string -> string, password: string, hash: string): (r: bool)
    ensures r <==> hash == HashPassword(sha256Hex, password)
  {
    HashPassword(sha256Hex, password) == hash
  }

  /** A password always verifies against its own stored hash. */
  lemma VerifyOwnHash(sha256Hex: string -> string, password: string)
    ensures VerifyPassword(sha256Hex, password, HashPassword(sha256Hex, password))
  {
  }
}
