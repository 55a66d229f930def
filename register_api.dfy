/**
 * src/app/api/auth/register/route.ts: a chain of checks, each answering 400 with its own
 * message, then one `createUser` with a fresh id and the session cookie set to that id.
 */
module RegisterApi {
  import opened Common
  import opened Store
  import opened Http
  import Auth

  /** Names that would collide with the site's own routes. */
  const Reserved: seq<string> :=
    ["admin", "api", "dashboard", "login", "register", "settings", "about", "contact", "help", "pricing", "blog"]

  /** One character of the class `[a-z0-9_-]`. */
  predicate UsernameChar(c: char)
  {
    'a' <= c <= 'z' || '0' <= c <= '9' || c == '_' || c == '-'
  }

  /** `/^[a-z0-9_-]+$/.test(username)` */
  predicate UsernamePattern(u: string)
  {
    |u| > 0 && forall i :: 0 <= i < |u| ==> UsernameChar(u[i])
  }

  /** Every condition under which the handler creates the account. */
  ghost predicate Acceptable(db: Db, username: Option<string>, email: Option<string>, password: Option<string>)
    reads db
  {
    && Truthy(username) && Truthy(email) && Truthy(password)
    && 3 <= Utf16Length(username.value) <= 30
    && UsernamePattern(username.value)
    && Utf16Length(password.value) >= 6
    && (forall u :: u in db.users ==> u.email != email.value && u.username != username.value)
    && username.value !in Reserved
  }

  /** The checks in the handler's order: the message of the first one that fails, if any. */
  function Rejection(db: Db, username: Option<string>, email: Option<string>, password: Option<string>): (r: Option<string>)
    reads db
    requires db.Valid()
    ensures r.None? <==> Acceptable(db, username, email, password)
  {
    if !Truthy(username) || !Truthy(email) || !Truthy(password) then Some(FillAllFields)
    else if Utf16Length(username.value) < 3 || Utf16Length(username.value) > 30 then Some(UsernameLength)
    else if !UsernamePattern(username.value) then Some(UsernameCharset)
    else if Utf16Length(password.value) < 6 then Some(PasswordLength)
    else if db.GetUserByEmail(email.value).Some? then Some(EmailTaken)
    else if db.GetUserByUsername(username.value).Some? then Some(UsernameTaken)
    else if username.value in Reserved then Some(UsernameReserved)
    else None
  }

  /** The format checks come first, in the order fields, length, characters, password length. */
  lemma FormatChecksFirst(db: Db, username: Option<string>, email: Option<string>, password: Option<string>)
    requires db.Valid()
    ensures !Truthy(username) || !Truthy(email) || !Truthy(password) ==>
      Rejection(db, username, email, password) == Some(FillAllFields)
    ensures Truthy(username) && Truthy(email) && Truthy(password) && (Utf16Length(username.value) < 3 || Utf16Length(username.value) > 30) ==>
      Rejection(db, username, email, password) == Some(UsernameLength)
    ensures Truthy(username) && Truthy(email) && Truthy(password) && 3 <= Utf16Length(username.value) <= 30 && !UsernamePattern(username.value) ==>
      Rejection(db, username, email, password) == Some(UsernameCharset)
    ensures Truthy(username) && Truthy(email) && Truthy(password) && 3 <= Utf16Length(username.value) <= 30 && UsernamePattern(username.value) && Utf16Length(password.value) < 6 ==>
      Rejection(db, username, email, password) == Some(PasswordLength)
  {
  }

  /** Well-formed input: a taken email wins over a taken username; a reserved name is refused even when free. */
  lemma StoreChecksInOrder(db: Db, username: string, email: string, password: string)
    requires db.Valid()
    requires username != "" && email != "" && Utf16Length(password) >= 6
    requires 3 <= Utf16Length(username) <= 30 && UsernamePattern(username)
    ensures (exists u :: u in db.users && u.email == email) ==>
      Rejection(db, Some(username), Some(email), Some(password)) == Some(EmailTaken)
    ensures (forall u :: u in db.users ==> u.email != email) && (exists u :: u in db.users && u.username == username) ==>
      Rejection(db, Some(username), Some(email), Some(password)) == Some(UsernameTaken)
    ensures (forall u :: u in db.users ==> u.email != email && u.username != username) && username in Reserved ==>
      Rejection(db, Some(username), Some(email), Some(password)) == Some(UsernameReserved)
  {
    // the format checks all pass, so the answer is decided by the store lookups and the reserved list
    assert Rejection(db, Some(username), Some(email), Some(password)) ==
      if db.GetUserByEmail(email).Some? then Some(EmailTaken)
      else if db.GetUserByUsername(username).Some? then Some(UsernameTaken)
      else if username in Reserved then Some(UsernameReserved)
      else None;
  }

  /**
   * Lengths are JavaScript lengths: three astral characters are six UTF-16 code units, so such a
   * password passes the length check.
   */
  lemma AstralPasswordAccepted(db: Db)
    requires db.Valid() && db.users == []
    ensures Rejection(db, Some("bob"), Some("b@x.com"), Some("\U{1F600}\U{1F600}\U{1F600}")).None?
  {
    assert UsernamePattern("bob") by {
      forall i | 0 <= i < 3 ensures UsernameChar("bob"[i]) {
      }
    }
    assert Utf16Length("\U{1F600}\U{1F600}\U{1F600}") == 6;
  }

  /** `POST`: on success one user is added with the fresh id, and the session cookie is that id. */
  method Post(db: Db, sha256Hex: string -> string, freshId: string, username: Option<string>, email: Option<string>, password: Option<string>)
    returns (resp: Response)
    requires db.Valid()
    modifies db
    ensures db.Valid()
    ensures old(Rejection(db, username, email, password)).Some? ==>
      resp == Error(400, old(Rejection(db, username, email, password)).value) && db.Snapshot() == old(db.Snapshot())
    ensures old(Rejection(db, username, email, password)).None? && freshId in old(UserIds(db.users)) ==>
      resp == Error(500, ServerError) && db.Snapshot() == old(db.Snapshot())
    ensures old(Rejection(db, username, email, password)).None? && freshId !in old(UserIds(db.users)) ==>
      && db.users == old(db.users) + [NewUser(freshId, username.value, email.value, Auth.HashPassword(sha256Hex, password.value))]
      && db.links == old(db.links) && db.analytics == old(db.analytics) && db.nextClickId == old(db.nextClickId)
      && resp == Response(200, SignedIn(username.value), Some(freshId))
  {
    var rejection := Rejection(db, username, email, password);
    if rejection.Some? {
      return Error(400, rejection.value);
    }
    var passwordHash := Auth.HashPassword(sha256Hex, password.value);
    var ok := db.CreateUser(freshId, username.value, email.value, passwordHash);
    if !ok {
      // a duplicate primary key: the exception reaches the handler's catch
      return Error(500, ServerError);
    }
    resp := Response(200, SignedIn(username.value), Some(freshId));
  }
}
