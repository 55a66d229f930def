/** src/app/api/profile/route.ts: merge the supplied profile fields into the session user's row. */
module ProfileApi {
  import opened Common
  import opened Store
  import opened Http
  import Auth

  /** `field ?? current`: a missing or null field keeps the current value; `''` does not. */
  function Merge(field: Option<string>, current: string): (r: string)
    ensures field.Some? ==> r == field.value
    ensures field.None? ==> r == current
  {
    match field
    case Some(v) => v
    case None => current
  }

  /** The row the handler writes for `user`. */
  function Merged(user: UserRow, displayName: Option<string>, bio: Option<string>, avatarUrl: Option<string>, theme: Option<string>): (r: UserRow)
    ensures r.id == user.id && r.username == user.username && r.email == user.email && r.passwordHash == user.passwordHash
    ensures displayName.Some? ==> r.displayName == displayName.value
    ensures displayName.None? ==> r.displayName == user.displayName
    ensures bio.Some? ==> r.bio == bio.value
    ensures bio.None? ==> r.bio == user.bio
    ensures avatarUrl.Some? ==> r.avatarUrl == avatarUrl.value
    ensures avatarUrl.None? ==> r.avatarUrl == user.avatarUrl
    ensures theme.Some? ==> r.theme == theme.value
    ensures theme.None? ==> r.theme == user.theme
    ensures displayName.None? && bio.None? && avatarUrl.None? && theme.None? ==> r == user
  {
    user.(displayName := Merge(displayName, user.displayName), bio := Merge(bio, user.bio),
          avatarUrl := Merge(avatarUrl, user.avatarUrl), theme := Merge(theme, user.theme))
  }

  /** Sending the same profile body twice leaves the row as the first request left it. */
  lemma MergeTwice(user: UserRow, displayName: Option<string>, bio: Option<string>, avatarUrl: Option<string>, theme: Option<string>)
    ensures var once := Merged(user, displayName, bio, avatarUrl, theme);
      Merged(once, displayName, bio, avatarUrl, theme) == once
  {
  }

  /** `PUT`: only the session user's row changes, and only in the four profile columns. */
  method Put(db: Db, cookie: Option<string>, displayName: Option<string>, bio: Option<string>, avatarUrl: Option<string>, theme: Option<string>)
    returns (resp: Response)
    requires db.Valid()
    modifies db
    ensures db.Valid()
    ensures old(Auth.GetSession(db, cookie)).None? ==> resp == Unauthorized && db.Snapshot() == old(db.Snapshot())
    ensures old(Auth.GetSession(db, cookie)).Some? ==>
      var user := old(Auth.GetSession(db, cookie)).value;
      && resp == Response(200, Success, None)
      && |db.users| == |old(db.users)|
      && (forall i :: 0 <= i < |db.users| ==>
            db.users[i] == if old(db.users[i]).id == user.id then Merged(user, displayName, bio, avatarUrl, theme) else old(db.users[i]))
      && db.links == old(db.links) && db.analytics == old(db.analytics) && db.nextClickId == old(db.nextClickId)
    ensures displayName.None? && bio.None? && avatarUrl.None? && theme.None? ==> db.Snapshot() == old(db.Snapshot())
  {
    var user := Auth.GetSession(db, cookie);
    if user.None? {
      return Unauthorized;
    }
    var u := user.value;
    ghost var before := db.users;
    db.UpdateUserProfile(u.id, Merge(displayName, u.displayName), Merge(bio, u.bio), Merge(avatarUrl, u.avatarUrl), Merge(theme, u.theme));
    assert forall i :: 0 <= i < |before| && before[i].id == u.id ==> before[i] == u by {
      forall i | 0 <= i < |before| && before[i].id == u.id ensures before[i] == u {
        var j :| 0 <= j < |before| && before[j] == u;
        assert i == j by {
          assert before[i].id == before[j].id;
        }
      }
    }
    if displayName.None? && bio.None? && avatarUrl.None? && theme.None? {
      assert db.users == before;
    }
    resp := Response(200, Success, None);
  }
}
