/**
 * src/app/api/links/route.ts: the dashboard's link endpoints. Each handler resolves the session,
 * answers 401 without one, checks its required fields, makes at most one store call, and then
 * answers with the session user's whole link list as it stands afterwards.
 */
module LinksApi {
  import opened Common
  import opened Store
  import opened Http
  import Auth

  /** The generic link glyph U+1F517. */
  const DefaultIcon := "\U{1F517}"

  /** `icon || '🔗'`: a missing or empty icon becomes the generic glyph, so no stored icon is empty. */
  function IconOrDefault(icon: Option<string>): (r: string)
    ensures r != ""
    ensures Truthy(icon) ==> r == icon.value
    ensures !Truthy(icon) ==> r == DefaultIcon
  {
    if Truthy(icon) then icon.value else DefaultIcon
  }

  /** `active !== false`: only the JSON value `false` deactivates; absent, null or anything else is true. */
  function ActiveFlag(active: Option<JsonValue>): (r: bool)
    ensures !r <==> active == Some(JBool(false))
  {
    active != Some(JBool(false))
  }

  /** `{ success: true, links: getLinksByUserId(user.id) }` */
  function ChangedList(db: Db, userId: string): (r: Response)
    reads db
    requires db.Valid()
    ensures r.status == 200 && r.session.None? && r.body.LinksChanged?
    ensures forall l :: l in r.body.links <==> l in db.links && l.userId == userId
    ensures SortedByPosition(r.body.links)
  {
    Response(200, LinksChanged(db.GetLinksByUserId(userId)), None)
  }

  /** `GET`: the session user's links, active or not, in position order. */
  function Get(db: Db, cookie: Option<string>): (resp: Response)
    reads db
    requires db.Valid()
    ensures Auth.GetSession(db, cookie).None? ==> resp == Unauthorized
    ensures Auth.GetSession(db, cookie).Some? ==>
      var u := Auth.GetSession(db, cookie).value;
      && resp == Response(200, LinkList(db.GetLinksByUserId(u.id)), None)
      && (forall l :: l in resp.body.links <==> l in db.links && l.userId == u.id)
      && SortedByPosition(resp.body.links)
  {
    var user := Auth.GetSession(db, cookie);
    if user.None? then Unauthorized
    else Response(200, LinkList(db.GetLinksByUserId(user.value.id)), None)
  }

  /** `POST`: create a link at the end of the user's list. */
  method Post(db: Db, cookie: Option<string>, freshId: string, title: Option<string>, url: Option<string>, icon: Option<string>)
    returns (resp: Response)
    requires db.Valid()
    modifies db
    ensures db.Valid()
    ensures old(Auth.GetSession(db, cookie)).None? ==> resp == Unauthorized && db.Snapshot() == old(db.Snapshot())
    ensures old(Auth.GetSession(db, cookie)).Some? && !(Truthy(title) && Truthy(url)) ==>
      resp == Error(400, TitleAndUrlRequired) && db.Snapshot() == old(db.Snapshot())
    ensures old(Auth.GetSession(db, cookie)).Some? && Truthy(title) && Truthy(url) && freshId in old(LinkIds(db.links)) ==>
      resp == Crashed && db.Snapshot() == old(db.Snapshot())
    ensures old(Auth.GetSession(db, cookie)).Some? && Truthy(title) && Truthy(url) && freshId !in old(LinkIds(db.links)) ==>
      var u := old(Auth.GetSession(db, cookie)).value;
      && db.links == old(db.links) + [LinkRow(freshId, u.id, title.value, url.value, IconOrDefault(icon), NextPosition(old(db.links), u.id), 0, true)]
      && db.users == old(db.users) && db.analytics == old(db.analytics) && db.nextClickId == old(db.nextClickId)
      && resp == ChangedList(db, u.id)
  {
    var user := Auth.GetSession(db, cookie);
    if user.None? {
      return Unauthorized;
    }
    if !Truthy(title) || !Truthy(url) {
      return Error(400, TitleAndUrlRequired);
    }
    var ok := db.CreateLink(freshId, user.value.id, title.value, url.value, IconOrDefault(icon));
    if !ok {
      return Crashed;
    }
    resp := ChangedList(db, user.value.id);
  }

  /** `PUT`: rewrite title, url, icon and active of the user's link with that id. */
  method Put(db: Db, cookie: Option<string>, id: Option<string>, title: string, url: string, icon: Option<string>, active: Option<JsonValue>)
    returns (resp: Response)
    requires db.Valid()
    modifies db
    ensures db.Valid()
    ensures old(Auth.GetSession(db, cookie)).None? ==> resp == Unauthorized && db.Snapshot() == old(db.Snapshot())
    ensures old(Auth.GetSession(db, cookie)).Some? && !Truthy(id) ==> resp == Error(400, LinkIdRequired) && db.Snapshot() == old(db.Snapshot())
    ensures old(Auth.GetSession(db, cookie)).Some? && Truthy(id) ==>
      var u := old(Auth.GetSession(db, cookie)).value;
      && |db.links| == |old(db.links)|
      && (forall i :: 0 <= i < |db.links| ==>
            db.links[i] == if Matches(old(db.links[i]), id.value, u.id)
                           then old(db.links[i]).(title := title, url := url, icon := IconOrDefault(icon), active := ActiveFlag(active))
                           else old(db.links[i]))
      && db.users == old(db.users) && db.analytics == old(db.analytics) && db.nextClickId == old(db.nextClickId)
      && resp == ChangedList(db, u.id)
  {
    var user := Auth.GetSession(db, cookie);
    if user.None? {
      return Unauthorized;
    }
    if !Truthy(id) {
      return Error(400, LinkIdRequired);
    }
    db.UpdateLink(id.value, user.value.id, title, url, IconOrDefault(icon), ActiveFlag(active));
    resp := ChangedList(db, user.value.id);
  }

  /** `DELETE`: remove the user's link with that id, with its analytics rows. */
  method Delete(db: Db, cookie: Option<string>, id: Option<string>) returns (resp: Response)
    requires db.Valid()
    modifies db
    ensures db.Valid()
    ensures old(Auth.GetSession(db, cookie)).None? ==> resp == Unauthorized && db.Snapshot() == old(db.Snapshot())
    ensures old(Auth.GetSession(db, cookie)).Some? && !Truthy(id) ==> resp == Error(400, LinkIdRequired) && db.Snapshot() == old(db.Snapshot())
    ensures old(Auth.GetSession(db, cookie)).Some? && Truthy(id) ==>
      var u := old(Auth.GetSession(db, cookie)).value;
      && (forall l :: l in db.links <==> l in old(db.links) && !Matches(l, id.value, u.id))
      && (match IndexOfLink(old(db.links), id.value, u.id)
          case Some(k) =>
            db.links == old(db.links[..k] + db.links[k + 1..]) && db.analytics == WithoutClicksOf(old(db.analytics), id.value)
          case None => db.links == old(db.links) && db.analytics == old(db.analytics))
      && db.users == old(db.users) && db.nextClickId == old(db.nextClickId)
      && resp == ChangedList(db, u.id)
  {
    var user := Auth.GetSession(db, cookie);
    if user.None? {
      return Unauthorized;
    }
    if !Truthy(id) {
      return Error(400, LinkIdRequired);
    }
    db.DeleteLink(id.value, user.value.id);
    resp := ChangedList(db, user.value.id);
  }
}
