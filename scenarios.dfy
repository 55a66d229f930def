/**
 * End-to-end runs of the handlers against one store: a registration followed by a login, a
 * second registration with a taken name, and the dashboard session of a new user.
 */
module Scenarios {
  import opened Common
  import opened Store
  import opened Http
  import Auth
  import RegisterApi
  import LoginApi
  import LinksApi
  import ClicksApi

  /** A successful registration is followed by a login with the same credentials that resolves to the same id. */
  method RegisterThenLogin(db: Db, sha256Hex: string -> string, freshId: string, username: string, email: string, password: string)
    returns (registered: Response, signedIn: Response)
    requires db.Valid()
    modifies db
    ensures db.Valid()
    ensures registered.status == 200 ==>
      registered.session == Some(freshId) && signedIn == Response(200, SignedIn(username), Some(freshId))
  {
    registered := RegisterApi.Post(db, sha256Hex, freshId, Some(username), Some(email), Some(password));
    signedIn := LoginApi.Post(db, sha256Hex, Some(email), Some(password));
    if registered.status == 200 {
      var user := NewUser(freshId, username, email, Auth.HashPassword(sha256Hex, password));
      assert db.users[|db.users| - 1] == user;
      LoginApi.LoginFindsAccount(db, sha256Hex, user, password);
    }
  }

  /**
   * After a successful registration, a second one with the same email is refused as an email
   * conflict, and one with the same username and a new, unused email as a username conflict.
   */
  method RegisterTwice(db: Db, sha256Hex: string -> string, firstId: string, secondId: string,
                       username: string, email: string, otherEmail: string, password: string)
    returns (first: Response, sameEmail: Response, sameUsername: Response)
    requires db.Valid()
    requires otherEmail != "" && otherEmail != email
    requires forall u :: u in db.users ==> u.email != otherEmail
    modifies db
    ensures db.Valid()
    ensures first.status == 200 ==>
      && sameEmail == Error(400, EmailTaken)
      && sameUsername == Error(400, UsernameTaken)
      && |db.users| == |old(db.users)| + 1
  {
    first := RegisterApi.Post(db, sha256Hex, firstId, Some(username), Some(email), Some(password));
    if first.status != 200 {
      sameEmail := first;
      sameUsername := first;
      return;
    }
    var user := db.users[|db.users| - 1];
    assert user.username == username && user.email == email;
    RegisterApi.StoreChecksInOrder(db, username, email, password);
    sameEmail := RegisterApi.Post(db, sha256Hex, secondId, Some(username), Some(email), Some(password));
    RegisterApi.StoreChecksInOrder(db, username, otherEmail, password);
    sameUsername := RegisterApi.Post(db, sha256Hex, secondId, Some(username), Some(otherEmail), Some(password));
  }

  /** `alice` is none of the reserved route names. */
  lemma AliceNotReserved()
    ensures "alice" !in RegisterApi.Reserved
  {
    assert "admin"[1] != "alice"[1] && "login"[0] != "alice"[0] && "about"[1] != "alice"[1];
  }

  /** The format checks pass for `alice` with the password `secret1`. */
  lemma AliceWellFormed()
    ensures RegisterApi.UsernamePattern("alice")
    ensures Utf16Length("alice") == 5 && Utf16Length("secret1") == 7
  {
    assert RegisterApi.UsernamePattern("alice") by {
      forall i | 0 <= i < 5 ensures RegisterApi.UsernameChar("alice"[i]) {
      }
    }
    assert forall i :: 0 <= i < |"alice"| ==> !Astral("alice"[i]);
    assert forall i :: 0 <= i < |"secret1"| ==> !Astral("secret1"[i]);
  }

  /** On an empty store every check of the sign-up handler passes for `alice`. */
  lemma AliceAccepted(db: Db)
    requires db.Valid() && db.users == []
    ensures RegisterApi.Rejection(db, Some("alice"), Some("alice@x.com"), Some("secret1")).None?
  {
    AliceWellFormed();
    AliceNotReserved();
    assert RegisterApi.Acceptable(db, Some("alice"), Some("alice@x.com"), Some("secret1"));
  }

  /** The user `alice` signs up on an empty store. */
  method SignUpAlice(sha256Hex: string -> string) returns (db: Db)
    ensures db.Valid()
    ensures db.users == [NewUser("user-1", "alice", "alice@x.com", Auth.HashPassword(sha256Hex, "secret1"))]
    ensures db.links == [] && db.analytics == []
    ensures fresh(db)
  {
    db := new Db();
    AliceAccepted(db);
    var r := RegisterApi.Post(db, sha256Hex, "user-1", Some("alice"), Some("alice@x.com"), Some("secret1"));
  }

  /** The first link added through the endpoint takes position 0, with no clicks, and is active. */
  method AddFirstLink(db: Db)
    requires db.Valid() && |db.users| == 1 && db.users[0].id == "user-1" && db.links == []
    modifies db
    ensures db.Valid() && db.users == old(db.users) && db.analytics == old(db.analytics)
    ensures db.links == [LinkRow("link-1", "user-1", "Site", "https://a.com", LinksApi.DefaultIcon, 0, 0, true)]
  {
    assert Auth.GetSession(db, Some("user-1")) == Some(db.users[0]);
    var r := LinksApi.Post(db, Some("user-1"), "link-1", Some("Site"), Some("https://a.com"), None);
  }

  /** The second one takes position 1. */
  method AddSecondLink(db: Db)
    requires db.Valid() && |db.users| == 1 && db.users[0].id == "user-1"
    requires db.links == [LinkRow("link-1", "user-1", "Site", "https://a.com", LinksApi.DefaultIcon, 0, 0, true)]
    modifies db
    ensures db.Valid() && db.users == old(db.users) && db.analytics == old(db.analytics)
    ensures db.links == [LinkRow("link-1", "user-1", "Site", "https://a.com", LinksApi.DefaultIcon, 0, 0, true),
                         LinkRow("link-2", "user-1", "Blog", "https://b.com", LinksApi.DefaultIcon, 1, 0, true)]
  {
    assert Auth.GetSession(db, Some("user-1")) == Some(db.users[0]);
    assert "link-2" !in LinkIds(db.links);
    assert MaxPosition(db.links, "user-1") == Some(0);
    var r := LinksApi.Post(db, Some("user-1"), "link-2", Some("Blog"), Some("https://b.com"), None);
  }

  /** Deleting the first link leaves the second one at position 1: positions are not renumbered. */
  method DeleteFirst(db: Db)
    requires db.Valid() && |db.users| == 1 && db.users[0].id == "user-1"
    requires db.links == [LinkRow("link-1", "user-1", "Site", "https://a.com", LinksApi.DefaultIcon, 0, 0, true),
                          LinkRow("link-2", "user-1", "Blog", "https://b.com", LinksApi.DefaultIcon, 1, 0, true)]
    requires db.analytics == []
    modifies db
    ensures db.Valid() && db.users == old(db.users) && db.analytics == []
    ensures db.links == [LinkRow("link-2", "user-1", "Blog", "https://b.com", LinksApi.DefaultIcon, 1, 0, true)]
  {
    assert Auth.GetSession(db, Some("user-1")) == Some(db.users[0]);
    assert IndexOfLink(db.links, "link-1", "user-1") == Some(0);
    var r := LinksApi.Delete(db, Some("user-1"), Some("link-1"));
    assert db.links == old(db.links[..0] + db.links[1..]);
  }

  /** Two clicks on the remaining link raise its count to 2 and add two analytics rows for it. */
  method ClickTwice(db: Db)
    requires db.Valid()
    requires db.links == [LinkRow("link-2", "user-1", "Blog", "https://b.com", LinksApi.DefaultIcon, 1, 0, true)]
    modifies db
    ensures db.Valid() && db.users == old(db.users)
    ensures db.links == [LinkRow("link-2", "user-1", "Blog", "https://b.com", LinksApi.DefaultIcon, 1, 2, true)]
    ensures |db.analytics| == |old(db.analytics)| + 2
    ensures db.analytics[|db.analytics| - 2].linkId == "link-2" && db.analytics[|db.analytics| - 1].linkId == "link-2"
  {
    assert "link-2" in LinkIds(db.links);
    var r := ClicksApi.Post(db, Some("link-2"), None);
    assert db.links[0].clicks == 1;
    assert "link-2" in LinkIds(db.links);
    r := ClicksApi.Post(db, Some("link-2"), Some("https://t.co"));
  }

  /** With one account and only its links stored, its listing is the whole links table. */
  lemma ListOwnLinks(db: Db)
    requires db.Valid() && |db.users| == 1 && db.users[0].id == "user-1"
    requires forall l :: l in db.links ==> l.userId == "user-1"
    ensures Auth.GetSession(db, Some("user-1")) == Some(db.users[0])
    ensures db.GetLinksByUserId("user-1") == db.links
  {
    OwnedByAll(db.links, "user-1");
  }

  lemma {:induction false} OwnedByAll(links: seq<LinkRow>, userId: string)
    requires forall l :: l in links ==> l.userId == userId
    ensures OwnedBy(links, userId) == links
  {
    if links != [] {
      OwnedByAll(links[1..], userId);
    }
  }

  /**
   * A new user adds two links (positions 0 and 1), deletes the first, and the remaining link is
   * clicked twice: it keeps position 1, counts two clicks, and two analytics rows reference it.
   */
  method FirstSession(sha256Hex: string -> string) returns (db: Db, listed: Response)
    ensures db.Valid()
    ensures db.links == [LinkRow("link-2", "user-1", "Blog", "https://b.com", LinksApi.DefaultIcon, 1, 2, true)]
    ensures |db.analytics| == 2 && db.analytics[0].linkId == "link-2" && db.analytics[1].linkId == "link-2"
    ensures listed.status == 200 && listed.body == LinkList(db.links)
    ensures db.GetTotalClicks("user-1") == 2
  {
    db := SignUpAlice(sha256Hex);
    AddFirstLink(db);
    AddSecondLink(db);
    DeleteFirst(db);
    ClickTwice(db);
    ListOwnLinks(db);
    listed := LinksApi.Get(db, Some("user-1"));
  }
}
