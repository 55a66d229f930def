/**
 * The link store of src/lib/db.ts: three tables (users, links, analytics) kept as sequences of
 * rows in insertion order inside one object. SELECT statements are functions of the object,
 * INSERT / UPDATE / DELETE statements are methods that change it. A statement that SQLite
 * refuses (a duplicate primary key, a UNIQUE violation, a foreign key that points nowhere)
 * returns `false` and leaves every table as it was.
 */
module Store {
  import opened Common

  /** A row of `users`; `created_at` is not modelled. */
  datatype UserRow = UserRow(
    id: string,
    username: string,
    email: string,
    passwordHash: string,
    displayName: string,
    bio: string,
    avatarUrl: string,
    theme: string)

  /** A row of `links`; the INTEGER column `active` holds 1 or 0, modelled as a boolean. */
  datatype LinkRow = LinkRow(
    id: string,
    userId: string,
    title: string,
    url: string,
    icon: string,
    position: int,
    clicks: nat,
    active: bool)

  /** A row of `analytics`; `id` is the AUTOINCREMENT key, `clicked_at` is not modelled. */
  datatype ClickRow = ClickRow(id: nat, linkId: string, referrer: string, country: string)

  /** The column default of `users.theme`. */
  const DefaultTheme: string := "midnight"

  /** The row `createUser` inserts: the four given columns and the schema defaults. */
  function NewUser(id: string, username: string, email: string, passwordHash: string): (r: UserRow)
    ensures r.id == id && r.username == username && r.email == email && r.passwordHash == passwordHash
    ensures r.displayName == "" && r.bio == "" && r.avatarUrl == "" && r.theme == DefaultTheme
  {
    UserRow(id, username, email, passwordHash, "", "", "", DefaultTheme)
  }

  // ---- Keys and single-row lookups ----

  /** The three unique columns of `users`, each of which `getUserBy…` looks up. */
  datatype UserKey = ById(id: string) | ByUsername(username: string) | ByEmail(email: string)

  predicate HasKey(u: UserRow, k: UserKey)
  {
    match k
    case ById(x) => u.id == x
    case ByUsername(x) => u.username == x
    case ByEmail(x) => u.email == x
  }

  /** `SELECT * FROM users WHERE <key> = ?` with `.get`: the first matching row, if any. */
  function FindUser(users: seq<UserRow>, k: UserKey): (r: Option<UserRow>)
    ensures r.Some? <==> exists i :: 0 <= i < |users| && HasKey(users[i], k)
    ensures r.Some? ==> r.value in users && HasKey(r.value, k)
  {
    if users == [] then None
    else if HasKey(users[0], k) then Some(users[0])
    else FindUser(users[1..], k)
  }

  function UserIds(users: seq<UserRow>): set<string>
  {
    set u | u in users :: u.id
  }

  function LinkIds(links: seq<LinkRow>): set<string>
  {
    set l | l in links :: l.id
  }

  /** The `WHERE id = ? AND user_id = ?` clause of `updateLink` and `deleteLink`. */
  predicate Matches(l: LinkRow, id: string, userId: string)
  {
    l.id == id && l.userId == userId
  }

  /** The index of the row matching `(id, userId)`, if there is one. */
  function IndexOfLink(links: seq<LinkRow>, id: string, userId: string): (k: Option<nat>)
    ensures k.Some? ==> k.value < |links| && Matches(links[k.value], id, userId)
    ensures k.None? ==> forall l :: l in links ==> !Matches(l, id, userId)
  {
    if links == [] then None
    else if Matches(links[0], id, userId) then Some(0)
    else
      match IndexOfLink(links[1..], id, userId)
      case None => None
      case Some(j) => Some(j + 1)
  }

  // ---- Derived queries over the links table ----

  /** `SELECT * FROM links WHERE user_id = ?`, in table order. */
  function OwnedBy(links: seq<LinkRow>, userId: string): (r: seq<LinkRow>)
    ensures forall l :: l in r <==> l in links && l.userId == userId
    ensures |r| <= |links|
  {
    if links == [] then []
    else if links[0].userId == userId then [links[0]] + OwnedBy(links[1..], userId)
    else OwnedBy(links[1..], userId)
  }

  /** `MAX(position)` over the owner's links: NULL (None) when the owner has none. */
  function MaxPosition(links: seq<LinkRow>, userId: string): (m: Option<int>)
    ensures m.None? <==> forall l :: l in links ==> l.userId != userId
    ensures m.Some? ==> exists l :: l in links && l.userId == userId && l.position == m.value
    ensures m.Some? ==> forall l :: l in links && l.userId == userId ==> l.position <= m.value
  {
    if links == [] then None
    else
      var rest := MaxPosition(links[1..], userId);
      assert forall l :: l in links <==> l == links[0] || l in links[1..];
      if links[0].userId != userId then rest
      else if rest.Some? && rest.value >= links[0].position then rest
      else Some(links[0].position)
  }

  /** `COALESCE(MAX(position), -1) + 1`: the position `createLink` gives a new link. */
  function NextPosition(links: seq<LinkRow>, userId: string): (r: int)
    ensures (forall l :: l in links ==> l.userId != userId) ==> r == 0
    ensures forall l :: l in links && l.userId == userId ==> l.position < r
    ensures (exists l :: l in links && l.userId == userId) ==>
      exists l :: l in links && l.userId == userId && l.position == r - 1
  {
    match MaxPosition(links, userId)
    case None => 0
    case Some(m) => m + 1
  }

  /** Reference sum of the `clicks` column over a list of links. */
  function SumClicks(ls: seq<LinkRow>): nat
  {
    if ls == [] then 0 else ls[0].clicks + SumClicks(ls[1..])
  }

  /** `SUM(clicks) ... WHERE user_id = ?`, computed in one pass over the whole table. */
  function OwnedClicks(links: seq<LinkRow>, userId: string): (total: nat)
    ensures total == SumClicks(OwnedBy(links, userId))
  {
    if links == [] then 0
    else
      var rest := OwnedClicks(links[1..], userId);
      if links[0].userId == userId then
        assert ([links[0]] + OwnedBy(links[1..], userId))[1..] == OwnedBy(links[1..], userId);
        links[0].clicks + rest
      else rest
  }

  /** Rows of an owner appear in strictly increasing position order (table order = creation order). */
  ghost predicate PositionsIncrease(links: seq<LinkRow>)
  {
    forall i, j :: 0 <= i < j < |links| && links[i].userId == links[j].userId ==> links[i].position < links[j].position
  }

  ghost predicate SortedByPosition(ls: seq<LinkRow>)
  {
    forall i, j :: 0 <= i < j < |ls| ==> ls[i].position < ls[j].position
  }

  lemma TailPositionsIncrease(links: seq<LinkRow>)
    requires links != [] && PositionsIncrease(links)
    ensures PositionsIncrease(links[1..])
  {
    var tail := links[1..];
    forall i, j | 0 <= i < j < |tail| && tail[i].userId == tail[j].userId
      ensures tail[i].position < tail[j].position
    {
      assert tail[i] == links[i + 1] && tail[j] == links[j + 1];
    }
  }

  lemma HeadBelowOwnedTail(links: seq<LinkRow>, userId: string)
    requires links != [] && PositionsIncrease(links) && links[0].userId == userId
    ensures forall l :: l in OwnedBy(links[1..], userId) ==> links[0].position < l.position
  {
    var tail := links[1..];
    forall l | l in OwnedBy(tail, userId) ensures links[0].position < l.position {
      var k :| 0 <= k < |tail| && tail[k] == l;
      assert links[k + 1] == tail[k];
    }
  }

  lemma {:induction false} OwnedBySorted(links: seq<LinkRow>, userId: string)
    requires PositionsIncrease(links)
    ensures SortedByPosition(OwnedBy(links, userId))
  {
    if links != [] {
      var tail := links[1..];
      TailPositionsIncrease(links);
      OwnedBySorted(tail, userId);
      if links[0].userId == userId {
        HeadBelowOwnedTail(links, userId);
        var r := OwnedBy(links, userId);
        var rest := OwnedBy(tail, userId);
        assert r == [links[0]] + rest;
        forall j | 0 < j < |r| ensures links[0].position < r[j].position {
          assert r[j] == rest[j - 1];
        }
      }
    }
  }

  /** `DELETE FROM analytics WHERE link_id = ?`: the cascade of deleting a link. */
  function WithoutClicksOf(analytics: seq<ClickRow>, linkId: string): (r: seq<ClickRow>)
    ensures forall c :: c in r <==> c in analytics && c.linkId != linkId
    ensures |r| <= |analytics|
  {
    if analytics == [] then []
    else if analytics[0].linkId == linkId then WithoutClicksOf(analytics[1..], linkId)
    else [analytics[0]] + WithoutClicksOf(analytics[1..], linkId)
  }

  ghost predicate IdsIncrease(analytics: seq<ClickRow>)
  {
    forall i, j :: 0 <= i < j < |analytics| ==> analytics[i].id < analytics[j].id
  }

  lemma {:induction false} WithoutClicksOfKeepsOrder(analytics: seq<ClickRow>, linkId: string)
    requires IdsIncrease(analytics)
    ensures IdsIncrease(WithoutClicksOf(analytics, linkId))
  {
    if analytics != [] {
      var tail := analytics[1..];
      assert IdsIncrease(tail) by {
        forall i, j | 0 <= i < j < |tail| ensures tail[i].id < tail[j].id {
          assert tail[i] == analytics[i + 1] && tail[j] == analytics[j + 1];
        }
      }
      WithoutClicksOfKeepsOrder(tail, linkId);
      if analytics[0].linkId != linkId {
        var r := WithoutClicksOf(analytics, linkId);
        var rest := WithoutClicksOf(tail, linkId);
        assert r == [analytics[0]] + rest;
        forall j | 0 < j < |r| ensures analytics[0].id < r[j].id {
          assert r[j] == rest[j - 1];
          assert rest[j - 1] in tail;
          var k :| 0 <= k < |tail| && tail[k] == rest[j - 1];
          assert analytics[k + 1] == tail[k];
        }
      }
    }
  }

  // ---- Table invariants ----

  ghost predicate UsersUnique(users: seq<UserRow>)
  {
    forall i, j :: 0 <= i < j < |users| ==>
      users[i].id != users[j].id && users[i].username != users[j].username && users[i].email != users[j].email
  }

  ghost predicate UniqueLinkIds(links: seq<LinkRow>)
  {
    forall i, j :: 0 <= i < j < |links| ==> links[i].id != links[j].id
  }

  /** The foreign key `links.user_id REFERENCES users(id)`. */
  ghost predicate LinksOwned(links: seq<LinkRow>, users: seq<UserRow>)
  {
    forall i :: 0 <= i < |links| ==> links[i].userId in UserIds(users)
  }

  /** The foreign key `analytics.link_id REFERENCES links(id)`, and ids below the AUTOINCREMENT counter. */
  ghost predicate ClicksReferenced(analytics: seq<ClickRow>, links: seq<LinkRow>, nextClickId: nat)
  {
    forall i :: 0 <= i < |analytics| ==> analytics[i].linkId in LinkIds(links) && analytics[i].id < nextClickId
  }

  /** No link that exists before and after a statement has fewer clicks afterwards. */
  ghost predicate NoClickLost(before: seq<LinkRow>, after: seq<LinkRow>)
  {
    forall l, l' :: l in before && l' in after && l.id == l'.id ==> l.clicks <= l'.clicks
  }

  lemma SameIdSameIndex(links: seq<LinkRow>, i: nat, j: nat)
    requires UniqueLinkIds(links)
    requires i < |links| && j < |links| && links[i].id == links[j].id
    ensures i == j
  {
  }

  lemma NoClickLostWhenUnchanged(links: seq<LinkRow>)
    requires UniqueLinkIds(links)
    ensures NoClickLost(links, links)
  {
    forall l, l' | l in links && l' in links && l.id == l'.id ensures l.clicks <= l'.clicks {
      var i :| 0 <= i < |links| && links[i] == l;
      var j :| 0 <= j < |links| && links[j] == l';
      SameIdSameIndex(links, i, j);
    }
  }

  lemma {:induction false} DistinctIdsCount(users: seq<UserRow>)
    requires forall i, j :: 0 <= i < j < |users| ==> users[i].id != users[j].id
    ensures |UserIds(users)| == |users|
  {
    if users != [] {
      var tail := users[1..];
      assert forall i, j :: 0 <= i < j < |tail| ==> tail[i].id != tail[j].id by {
        forall i, j | 0 <= i < j < |tail| ensures tail[i].id != tail[j].id {
          assert tail[i] == users[i + 1] && tail[j] == users[j + 1];
        }
      }
      DistinctIdsCount(tail);
      UserIdsCons(users);
    }
  }

  /** The ids of a table are its first id and, distinct from it, the ids of the rest. */
  lemma UserIdsCons(users: seq<UserRow>)
    requires users != []
    requires forall i, j :: 0 <= i < j < |users| ==> users[i].id != users[j].id
    ensures UserIds(users) == {users[0].id} + UserIds(users[1..])
    ensures users[0].id !in UserIds(users[1..])
  {
    var tail := users[1..];
    assert forall u :: u in users <==> u == users[0] || u in tail;
    forall u | u in tail ensures u.id != users[0].id {
      var k :| 0 <= k < |tail| && tail[k] == u;
      assert users[k + 1] == u;
    }
  }

  /** Appending a user with fresh keys keeps the keys unique and adds exactly its id. */
  lemma AppendUser(users: seq<UserRow>, row: UserRow)
    requires UsersUnique(users)
    requires forall u :: u in users ==> u.id != row.id && u.username != row.username && u.email != row.email
    ensures UsersUnique(users + [row])
    ensures UserIds(users + [row]) == UserIds(users) + {row.id}
  {
    var after := users + [row];
    assert forall u :: u in after <==> u in users || u == row;
    forall i, j | 0 <= i < j < |after|
      ensures after[i].id != after[j].id && after[i].username != after[j].username && after[i].email != after[j].email
    {
      if j == |users| {
        assert after[i] in users;
      }
    }
  }

  /** Appending a link with a fresh id, placed above its owner's positions, keeps the link invariants. */
  lemma AppendLink(before: seq<LinkRow>, row: LinkRow)
    requires UniqueLinkIds(before) && PositionsIncrease(before)
    requires row.id !in LinkIds(before)
    requires forall l :: l in before && l.userId == row.userId ==> l.position < row.position
    ensures UniqueLinkIds(before + [row]) && PositionsIncrease(before + [row])
    ensures LinkIds(before + [row]) == LinkIds(before) + {row.id}
    ensures NoClickLost(before, before + [row])
  {
    var after := before + [row];
    assert forall l :: l in after <==> l in before || l == row;
    forall i, j | 0 <= i < j < |after|
      ensures after[i].id != after[j].id
      ensures after[i].userId == after[j].userId ==> after[i].position < after[j].position
    {
      if j == |before| {
        assert after[i] in before;
      }
    }
    forall l, l' | l in before && l' in after && l.id == l'.id ensures l.clicks <= l'.clicks {
      var i :| 0 <= i < |before| && before[i] == l;
      var j :| 0 <= j < |before| && before[j] == l';
      SameIdSameIndex(before, i, j);
    }
  }

  /** The rows left after removing index `k`, by their old index. */
  lemma RemovedIndex(before: seq<LinkRow>, k: nat, after: seq<LinkRow>)
    requires k < |before| && after == before[..k] + before[k + 1..]
    ensures |after| == |before| - 1
    ensures forall i :: 0 <= i < k ==> after[i] == before[i]
    ensures forall i :: k <= i < |after| ==> after[i] == before[i + 1]
  {
  }

  /** Removing the row at `k` from a table with unique ids removes exactly the rows matching its key. */
  lemma RemoveLinkAt(before: seq<LinkRow>, k: nat, id: string, userId: string)
    requires UniqueLinkIds(before) && PositionsIncrease(before)
    requires k < |before| && Matches(before[k], id, userId)
    ensures forall l :: l in before[..k] + before[k + 1..] <==> l in before && !Matches(l, id, userId)
    ensures LinkIds(before[..k] + before[k + 1..]) == LinkIds(before) - {id}
    ensures UniqueLinkIds(before[..k] + before[k + 1..]) && PositionsIncrease(before[..k] + before[k + 1..])
    ensures NoClickLost(before, before[..k] + before[k + 1..])
  {
    var after := before[..k] + before[k + 1..];
    RemovedIndex(before, k, after);
    RemoveLinkAtRows(before, k, id, userId);
    assert LinkIds(after) == LinkIds(before) - {id} by {
      forall x | x in LinkIds(before) - {id} ensures x in LinkIds(after) {
        var l :| l in before && l.id == x;
        assert l in after;
      }
    }
    RemoveLinkAtOrder(before, k);
    RemoveLinkAtClicks(before, k);
  }

  /** The removal together with its cascade keeps both foreign keys. */
  lemma RemoveLinkKeepsKeys(before: seq<LinkRow>, k: nat, id: string, userId: string,
                            users: seq<UserRow>, clicks: seq<ClickRow>, nextClickId: nat)
    requires UniqueLinkIds(before) && PositionsIncrease(before)
    requires k < |before| && Matches(before[k], id, userId)
    requires LinksOwned(before, users) && ClicksReferenced(clicks, before, nextClickId)
    ensures LinksOwned(before[..k] + before[k + 1..], users)
    ensures ClicksReferenced(WithoutClicksOf(clicks, id), before[..k] + before[k + 1..], nextClickId)
  {
    var after := before[..k] + before[k + 1..];
    var kept := WithoutClicksOf(clicks, id);
    RemoveLinkAt(before, k, id, userId);
    forall i | 0 <= i < |after| ensures after[i].userId in UserIds(users) {
      assert after[i] in before;
      var j :| 0 <= j < |before| && before[j] == after[i];
    }
    forall i | 0 <= i < |kept| ensures kept[i].linkId in LinkIds(after) && kept[i].id < nextClickId {
      assert kept[i] in clicks;
      var j :| 0 <= j < |clicks| && clicks[j] == kept[i];
    }
  }

  /** The rows kept by the removal are exactly those not matching the key. */
  lemma RemoveLinkAtRows(before: seq<LinkRow>, k: nat, id: string, userId: string)
    requires UniqueLinkIds(before)
    requires k < |before| && Matches(before[k], id, userId)
    ensures forall l :: l in before[..k] + before[k + 1..] <==> l in before && !Matches(l, id, userId)
    ensures forall l :: l in before[..k] + before[k + 1..] ==> l.id != id
  {
    var after := before[..k] + before[k + 1..];
    RemovedIndex(before, k, after);
    forall l | l in before && !Matches(l, id, userId) ensures l in after {
      var i :| 0 <= i < |before| && before[i] == l;
      assert after[if i < k then i else i - 1] == l;
    }
    forall l | l in after ensures l in before && l.id != id {
      var i :| 0 <= i < |after| && after[i] == l;
      var i' := if i < k then i else i + 1;
      assert l == before[i'] && i' != k;
    }
  }

  /** The removal keeps ids unique and each owner's positions increasing. */
  lemma RemoveLinkAtOrder(before: seq<LinkRow>, k: nat)
    requires UniqueLinkIds(before) && PositionsIncrease(before)
    requires k < |before|
    ensures UniqueLinkIds(before[..k] + before[k + 1..]) && PositionsIncrease(before[..k] + before[k + 1..])
  {
    var after := before[..k] + before[k + 1..];
    RemovedIndex(before, k, after);
    forall i, j | 0 <= i < j < |after|
      ensures after[i].id != after[j].id
      ensures after[i].userId == after[j].userId ==> after[i].position < after[j].position
    {
      var i', j' := if i < k then i else i + 1, if j < k then j else j + 1;
      assert i' < j' && after[i] == before[i'] && after[j] == before[j'];
    }
  }

  /** The surviving rows keep their click counts. */
  lemma RemoveLinkAtClicks(before: seq<LinkRow>, k: nat)
    requires UniqueLinkIds(before)
    requires k < |before|
    ensures NoClickLost(before, before[..k] + before[k + 1..])
  {
    var after := before[..k] + before[k + 1..];
    assert forall l :: l in after ==> l in before;
    forall l, l' | l in before && l' in after && l.id == l'.id ensures l.clicks <= l'.clicks {
      var i :| 0 <= i < |before| && before[i] == l;
      var j :| 0 <= j < |before| && before[j] == l';
      SameIdSameIndex(before, i, j);
    }
  }

  /**
   * A statement that rewrites rows without touching `id`, `user_id` or `position` keeps the link
   * invariants and the set of link ids, and lowers no click count.
   */
  lemma RewriteLinks(before: seq<LinkRow>, after: seq<LinkRow>)
    requires UniqueLinkIds(before) && PositionsIncrease(before)
    requires |after| == |before|
    requires forall i :: 0 <= i < |before| ==>
      after[i].id == before[i].id && after[i].userId == before[i].userId &&
      after[i].position == before[i].position && after[i].clicks >= before[i].clicks
    ensures UniqueLinkIds(after) && PositionsIncrease(after)
    ensures LinkIds(after) == LinkIds(before)
    ensures NoClickLost(before, after)
  {
    assert LinkIds(after) == LinkIds(before) by {
      forall x | x in LinkIds(before) ensures x in LinkIds(after) {
        var l :| l in before && l.id == x;
        var i :| 0 <= i < |before| && before[i] == l;
        assert after[i] in after;
      }
      forall x | x in LinkIds(after) ensures x in LinkIds(before) {
        var l :| l in after && l.id == x;
        var i :| 0 <= i < |after| && after[i] == l;
        assert before[i] in before;
      }
    }
    forall l, l' | l in before && l' in after && l.id == l'.id ensures l.clicks <= l'.clicks {
      var i :| 0 <= i < |before| && before[i] == l;
      var j :| 0 <= j < |after| && after[j] == l';
      SameIdSameIndex(before, i, j);
    }
  }

  /** Appending the next click row keeps the analytics foreign key and the growing ids. */
  lemma AppendClick(analytics: seq<ClickRow>, links: seq<LinkRow>, nextClickId: nat, row: ClickRow)
    requires ClicksReferenced(analytics, links, nextClickId) && IdsIncrease(analytics)
    requires row.id == nextClickId && row.linkId in LinkIds(links)
    ensures ClicksReferenced(analytics + [row], links, nextClickId + 1) && IdsIncrease(analytics + [row])
  {
    var after := analytics + [row];
    assert forall i :: 0 <= i < |analytics| ==> after[i] == analytics[i];
  }

  /** The whole content of the database, for stating that a request changed nothing. */
  datatype Tables = Tables(users: seq<UserRow>, links: seq<LinkRow>, analytics: seq<ClickRow>, nextClickId: nat)

  /** The database handle: the three tables and SQLite's AUTOINCREMENT counter of `analytics`. */
  class Db {
    var users: seq<UserRow>
    var links: seq<LinkRow>
    var analytics: seq<ClickRow>
    var nextClickId: nat

    /**
     * What the schema and the statements keep true: `users.id`, `users.username`, `users.email`
     * and `links.id` are unique, both foreign keys hold, AUTOINCREMENT ids grow, and each owner's
     * positions grow in creation order (positions are only ever assigned by `createLink`).
     */
    ghost predicate Valid()
      reads this
    {
      && UsersUnique(users)
      && UniqueLinkIds(links)
      && PositionsIncrease(links)
      && LinksOwned(links, users)
      && ClicksReferenced(analytics, links, nextClickId)
      && IdsIncrease(analytics)
    }

    ghost function Snapshot(): Tables
      reads this
    {
      Tables(users, links, analytics, nextClickId)
    }

    /** `initDb` on a fresh database file: three empty tables. */
    constructor ()
      ensures Valid()
      ensures users == [] && links == [] && analytics == [] && nextClickId == 1
    {
      users, links, analytics := [], [], [];
      nextClickId := 1;
    }

    // ---- User operations ----

    function GetUserById(id: string): (r: Option<UserRow>)
      reads this
      ensures r.Some? <==> id in UserIds(users)
      ensures r.Some? ==> r.value in users && r.value.id == id
    {
      var r := FindUser(users, ById(id));
      assert r.Some? <== id in UserIds(users) by {
        if id in UserIds(users) {
          var u :| u in users && u.id == id;
          var i :| 0 <= i < |users| && users[i] == u;
          assert HasKey(users[i], ById(id));
        }
      }
      r
    }

    function GetUserByUsername(username: string): (r: Option<UserRow>)
      reads this
      ensures r.Some? <==> exists u :: u in users && u.username == username
      ensures r.Some? ==> r.value in users && r.value.username == username
    {
      var r := FindUser(users, ByUsername(username));
      assert r.Some? <== exists u :: u in users && u.username == username by {
        if exists u :: u in users && u.username == username {
          var u :| u in users && u.username == username;
          var i :| 0 <= i < |users| && users[i] == u;
          assert HasKey(users[i], ByUsername(username));
        }
      }
      r
    }

    function GetUserByEmail(email: string): (r: Option<UserRow>)
      reads this
      requires Valid()
      ensures r.Some? <==> exists u :: u in users && u.email == email
      ensures forall u :: u in users && u.email == email ==> r == Some(u)
    {
      var r := FindUser(users, ByEmail(email));
      assert forall u :: u in users && u.email == email ==> r == Some(u) by {
        forall u | u in users && u.email == email ensures r == Some(u) {
          var i :| 0 <= i < |users| && users[i] == u;
          assert HasKey(users[i], ByEmail(email));
          var j :| 0 <= j < |users| && users[j] == r.value;
          assert i == j by {
            assert users[i].email == users[j].email;
          }
        }
      }
      r
    }

    /** `INSERT INTO users (id, username, email, password_hash)`: refused on a duplicate key. */
    method CreateUser(id: string, username: string, email: string, passwordHash: string) returns (ok: bool)
      requires Valid()
      modifies this
      ensures Valid()
      ensures ok <==> forall u :: u in old(users) ==> u.id != id && u.username != username && u.email != email
      ensures ok ==> users == old(users) + [NewUser(id, username, email, passwordHash)]
      ensures ok ==> GetTotalUsers() == old(GetTotalUsers()) + 1
      ensures !ok ==> users == old(users)
      ensures links == old(links) && analytics == old(analytics) && nextClickId == old(nextClickId)
    {
      ok := forall u :: u in users ==> u.id != id && u.username != username && u.email != email;
      if ok {
        var row := NewUser(id, username, email, passwordHash);
        AppendUser(users, row);
        users := users + [row];
        assert LinksOwned(links, users);
      }
    }

    /** `UPDATE users SET display_name, bio, avatar_url, theme WHERE id = ?`: zero rows when absent. */
    method UpdateUserProfile(id: string, displayName: string, bio: string, avatarUrl: string, theme: string)
      requires Valid()
      modifies this
      ensures Valid()
      ensures |users| == |old(users)|
      ensures forall i :: 0 <= i < |users| ==>
        users[i] == if old(users[i]).id == id
                    then old(users[i]).(displayName := displayName, bio := bio, avatarUrl := avatarUrl, theme := theme)
                    else old(users[i])
      ensures links == old(links) && analytics == old(analytics) && nextClickId == old(nextClickId)
    {
      var before := users;
      users := seq(|before|, i requires 0 <= i < |before| =>
        if before[i].id == id
        then before[i].(displayName := displayName, bio := bio, avatarUrl := avatarUrl, theme := theme)
        else before[i]);
      assert UserIds(users) == UserIds(before) by {
        forall x | x in UserIds(before) ensures x in UserIds(users) {
          var u :| u in before && u.id == x;
          var i :| 0 <= i < |before| && before[i] == u;
          assert users[i] in users;
        }
        forall x | x in UserIds(users) ensures x in UserIds(before) {
          var u :| u in users && u.id == x;
          var i :| 0 <= i < |users| && users[i] == u;
          assert before[i] in before;
        }
      }
      assert LinksOwned(links, users);
    }

    /** `SELECT COUNT(*) FROM users`: the number of distinct accounts. */
    function GetTotalUsers(): (n: nat)
      reads this
      requires Valid()
      ensures n == |UserIds(users)|
    {
      DistinctIdsCount(users);
      |users|
    }

    // ---- Link operations ----

    /**
     * `createLink`: the new row goes after every existing one, at `max(owner positions, -1) + 1`,
     * with 0 clicks and active; refused on a duplicate id or an owner that is not a user.
     */
    method CreateLink(id: string, userId: string, title: string, url: string, icon: string) returns (ok: bool)
      requires Valid()
      modifies this
      ensures Valid()
      ensures ok <==> id !in LinkIds(old(links)) && userId in UserIds(old(users))
      ensures ok ==> links == old(links) + [LinkRow(id, userId, title, url, icon, NextPosition(old(links), userId), 0, true)]
      ensures !ok ==> links == old(links)
      ensures NoClickLost(old(links), links)
      ensures users == old(users) && analytics == old(analytics) && nextClickId == old(nextClickId)
    {
      ok := id !in LinkIds(links) && userId in UserIds(users);
      if ok {
        var row := LinkRow(id, userId, title, url, icon, NextPosition(links, userId), 0, true);
        AppendLink(links, row);
        links := links + [row];
        assert LinksOwned(links, users);
        assert ClicksReferenced(analytics, links, nextClickId);
      } else {
        NoClickLostWhenUnchanged(links);
      }
    }

    /** `SELECT * FROM links WHERE user_id = ? ORDER BY position ASC`. */
    function GetLinksByUserId(userId: string): (r: seq<LinkRow>)
      reads this
      requires Valid()
      ensures forall l :: l in r <==> l in links && l.userId == userId
      ensures SortedByPosition(r)
    {
      OwnedBySorted(links, userId);
      OwnedBy(links, userId)
    }

    /** `UPDATE links SET title, url, icon, active WHERE id = ? AND user_id = ?`: zero rows on a mismatch. */
    method UpdateLink(id: string, userId: string, title: string, url: string, icon: string, active: bool)
      requires Valid()
      modifies this
      ensures Valid()
      ensures |links| == |old(links)|
      ensures forall i :: 0 <= i < |links| ==>
        links[i] == if Matches(old(links[i]), id, userId)
                    then old(links[i]).(title := title, url := url, icon := icon, active := active)
                    else old(links[i])
      ensures IndexOfLink(old(links), id, userId).None? ==> links == old(links)
      ensures NoClickLost(old(links), links)
      ensures users == old(users) && analytics == old(analytics) && nextClickId == old(nextClickId)
    {
      var before := links;
      links := seq(|before|, i requires 0 <= i < |before| =>
        if Matches(before[i], id, userId)
        then before[i].(title := title, url := url, icon := icon, active := active)
        else before[i]);
      RewriteLinks(before, links);
      assert LinksOwned(links, users);
      assert ClicksReferenced(analytics, links, nextClickId);
      if IndexOfLink(before, id, userId).None? {
        assert forall i :: 0 <= i < |before| ==> links[i] == before[i] by {
          forall i | 0 <= i < |before| ensures links[i] == before[i] {
            assert before[i] in before;
          }
        }
      }
    }

    /** `DELETE FROM links WHERE id = ? AND user_id = ?`, cascading to the link's analytics rows. */
    method DeleteLink(id: string, userId: string)
      requires Valid()
      modifies this
      ensures Valid()
      ensures forall l :: l in links <==> l in old(links) && !Matches(l, id, userId)
      ensures match IndexOfLink(old(links), id, userId)
              case Some(k) => links == old(links[..k] + links[k + 1..]) && analytics == WithoutClicksOf(old(analytics), id)
              case None => links == old(links) && analytics == old(analytics)
      ensures NoClickLost(old(links), links)
      ensures users == old(users) && nextClickId == old(nextClickId)
    {
      match IndexOfLink(links, id, userId)
      case None =>
        NoClickLostWhenUnchanged(links);
      case Some(k) =>
        var before, clicks := links, analytics;
        RemoveLinkAt(before, k, id, userId);
        RemoveLinkKeepsKeys(before, k, id, userId, users, clicks, nextClickId);
        WithoutClicksOfKeepsOrder(clicks, id);
        links := before[..k] + before[k + 1..];
        analytics := WithoutClicksOf(clicks, id);
        assert UniqueLinkIds(links) && PositionsIncrease(links);
        assert LinksOwned(links, users) && ClicksReferenced(analytics, links, nextClickId) && IdsIncrease(analytics);
    }

    /** `UPDATE links SET clicks = clicks + 1 WHERE id = ?` (no owner check). */
    method IncrementLinkClicks(id: string)
      requires Valid()
      modifies this
      ensures Valid()
      ensures |links| == |old(links)|
      ensures forall i :: 0 <= i < |links| ==>
        links[i] == if old(links[i]).id == id then old(links[i]).(clicks := old(links[i]).clicks + 1) else old(links[i])
      ensures LinkIds(links) == LinkIds(old(links))
      ensures id !in LinkIds(old(links)) ==> links == old(links)
      ensures NoClickLost(old(links), links)
      ensures users == old(users) && analytics == old(analytics) && nextClickId == old(nextClickId)
    {
      var before := links;
      links := seq(|before|, i requires 0 <= i < |before| =>
        if before[i].id == id then before[i].(clicks := before[i].clicks + 1) else before[i]);
      RewriteLinks(before, links);
      assert LinksOwned(links, users);
      assert ClicksReferenced(analytics, links, nextClickId);
      if id !in LinkIds(before) {
        assert forall i :: 0 <= i < |before| ==> links[i] == before[i] by {
          forall i | 0 <= i < |before| ensures links[i] == before[i] {
            assert before[i] in before;
          }
        }
      }
    }

    /**
     * `recordClick`: the increment, then `INSERT INTO analytics (link_id, referrer, country)`,
     * which the foreign key refuses for a link that does not exist (the increment then touched
     * no row, so nothing changes).
     */
    method RecordClick(linkId: string, referrer: string, country: string) returns (ok: bool)
      requires Valid()
      modifies this
      ensures Valid()
      ensures ok <==> linkId in LinkIds(old(links))
      ensures |links| == |old(links)|
      ensures forall i :: 0 <= i < |links| ==>
        links[i] == if old(links[i]).id == linkId then old(links[i]).(clicks := old(links[i]).clicks + 1) else old(links[i])
      ensures ok ==> analytics == old(analytics) + [ClickRow(old(nextClickId), linkId, referrer, country)]
      ensures ok ==> nextClickId == old(nextClickId) + 1
      ensures !ok ==> links == old(links) && analytics == old(analytics) && nextClickId == old(nextClickId)
      ensures NoClickLost(old(links), links)
      ensures users == old(users)
    {
      IncrementLinkClicks(linkId);
      ok := linkId in LinkIds(links);
      if ok {
        var row := ClickRow(nextClickId, linkId, referrer, country);
        AppendClick(analytics, links, nextClickId, row);
        analytics := analytics + [row];
        nextClickId := nextClickId + 1;
      }
    }

    /** `SELECT COALESCE(SUM(clicks), 0) FROM links WHERE user_id = ?`. */
    function GetTotalClicks(userId: string): (total: nat)
      reads this
      ensures total == SumClicks(OwnedBy(links, userId))
      ensures (forall l :: l in links ==> l.userId != userId) ==> total == 0
    {
      OwnedClicks(links, userId)
    }
  }
}
