/** src/app/api/clicks/route.ts: the public page's click beacon. */
module ClicksApi {
  import opened Common
  import opened Store
  import opened Http

  /** `request.headers.get('referer') || ''` */
  function Referrer(referer: Option<string>): (r: string)
    ensures referer.Some? ==> r == referer.value
    ensures referer.None? ==> r == ""
  {
    if Truthy(referer) then referer.value else ""
  }

  /** `POST`: one `recordClick` with the referrer and an empty country; any failure answers 500. */
  method Post(db: Db, linkId: Option<string>, referer: Option<string>) returns (resp: Response)
    requires db.Valid()
    modifies db
    ensures db.Valid()
    ensures !Truthy(linkId) ==> resp == Error(400, LinkIdRequired) && db.Snapshot() == old(db.Snapshot())
    ensures Truthy(linkId) && linkId.value !in old(LinkIds(db.links)) ==>
      resp == Error(500, ClickFailed) && db.Snapshot() == old(db.Snapshot())
    ensures Truthy(linkId) && linkId.value in old(LinkIds(db.links)) ==>
      && resp == Response(200, Success, None)
      && |db.links| == |old(db.links)|
      && (forall i :: 0 <= i < |db.links| ==>
            db.links[i] == if old(db.links[i]).id == linkId.value
                           then old(db.links[i]).(clicks := old(db.links[i]).clicks + 1)
                           else old(db.links[i]))
      && db.analytics == old(db.analytics) + [ClickRow(old(db.nextClickId), linkId.value, Referrer(referer), "")]
      && db.nextClickId == old(db.nextClickId) + 1
      && db.users == old(db.users)
  {
    if !Truthy(linkId) {
      return Error(400, LinkIdRequired);
    }
    var ok := db.RecordClick(linkId.value, Referrer(referer), "");
    if !ok {
      return Error(500, ClickFailed);
    }
    resp := Response(200, Success, None);
  }
}
