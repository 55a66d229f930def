/** src/app/api/auth/login/route.ts: look the email up, verify the password, set the session. */
module LoginApi {
  import opened Common
  import opened Store
  import opened Http
  import Auth

  /** `POST`: a read-only handler; an unknown email and a wrong password get the same answer. */
  function Post(db: Db, sha256Hex: string -> string, email: Option<string>, password: Option<string>): (r: Response)
    reads db
    requires db.Valid()
    ensures !Truthy(email) || !Truthy(password) ==> r == Error(400, EmailAndPasswordRequired)
    ensures r.status == 200 <==>
      Truthy(email) && Truthy(password) &&
      exists u :: u in db.users && u.email == email.value && Auth.VerifyPassword(sha256Hex, password.value, u.passwordHash)
    ensures r.status == 200 ==>
      exists u :: u in db.users && u.email == email.value && r == Response(200, SignedIn(u.username), Some(u.id))
    ensures Truthy(email) && Truthy(password) && r.status != 200 ==> r == Error(401, WrongCredentials)
  {
    if !Truthy(email) || !Truthy(password) then Error(400, EmailAndPasswordRequired)
    else
      match db.GetUserByEmail(email.value)
      case None => Error(401, WrongCredentials)
      case Some(user) =>
        if !Auth.VerifyPassword(sha256Hex, password.value, user.passwordHash) then Error(401, WrongCredentials)
        else Response(200, SignedIn(user.username), Some(user.id))
  }

  /** A stored account logs in with its email and the password its hash was made from, under its own id. */
  lemma LoginFindsAccount(db: Db, sha256Hex: string -> string, user: UserRow, password: string)
    requires db.Valid()
    requires user in db.users && user.email != "" && password != ""
    requires user.passwordHash == Auth.HashPassword(sha256Hex, password)
    ensures Post(db, sha256Hex, Some(user.email), Some(password)) == Response(200, SignedIn(user.username), Some(user.id))
  {
    assert db.GetUserByEmail(user.email) == Some(user);
  }
}
