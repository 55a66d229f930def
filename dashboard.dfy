/**
 * The pure expressions of src/app/dashboard/page.tsx: the URL normalisation before a link is sent,
 * the bodies `addLink` and `saveEdit` send, and the two statistics shown above the list.
 */
module Dashboard {
  import opened Common
  import opened Store
  import opened Http
  import LinksApi

  /** `url.startsWith('http') ? url : `https://${url}``, used by `addLink` and `saveEdit`. */
  function NormalizeUrl(url: string): (r: string)
    ensures StartsWith(r, "http")
    ensures StartsWith(url, "http") ==> r == url
    ensures !StartsWith(url, "http") ==> r == "https://" + url
  {
    if StartsWith(url, "http") then url else "https://" + url
  }

  /** Normalising twice is normalising once. */
  lemma NormalizeIdempotent(url: string)
    ensures NormalizeUrl(NormalizeUrl(url)) == NormalizeUrl(url)
  {
  }

  /** The JSON body of the `POST /api/links` request. */
  datatype PostBody = PostBody(title: string, url: string, icon: string)

  /** The JSON body of the `PUT /api/links` request. */
  datatype PutBody = PutBody(id: string, title: string, url: string, icon: string, active: bool)

  /** `addLink`: no request when the title or the url is empty, else the normalised body. */
  function AddLinkRequest(title: string, url: string, icon: string): (r: Option<PostBody>)
    ensures r.None? <==> title == "" || url == ""
    ensures r.Some? ==> r.value.title == title && r.value.icon == icon && r.value.url == NormalizeUrl(url)
    ensures r.Some? ==> StartsWith(r.value.url, "http")
  {
    if title == "" || url == "" then None else Some(PostBody(title, NormalizeUrl(url), icon))
  }

  /** A body `addLink` sends always passes the handler's required-field check. */
  lemma AddLinkPassesServerCheck(title: string, url: string, icon: string)
    ensures var r := AddLinkRequest(title, url, icon);
      r.Some? ==> Truthy(Some(r.value.title)) && Truthy(Some(r.value.url))
  {
    var r := AddLinkRequest(title, url, icon);
    if r.Some? {
      assert |r.value.url| >= 4;
    }
  }

  /** `saveEdit`: the body always carries `active: true`. */
  function SaveEditRequest(id: string, title: string, url: string, icon: string): (r: PutBody)
    ensures r.active
    ensures r.id == id && r.title == title && r.icon == icon && r.url == NormalizeUrl(url)
    ensures StartsWith(r.url, "http")
  {
    PutBody(id, title, NormalizeUrl(url), icon, true)
  }

  /** What the handler stores from an edit is `active = true`: editing re-activates a link. */
  lemma SaveEditReactivates(id: string, title: string, url: string, icon: string)
    ensures LinksApi.ActiveFlag(Some(JBool(SaveEditRequest(id, title, url, icon).active)))
  {
  }

  /** `links.reduce((sum, l) => sum + l.clicks, 0)` as the left fold it is. */
  function FoldClicks(acc: nat, links: seq<LinkRow>): nat
    decreases |links|
  {
    if links == [] then acc else FoldClicks(acc + links[0].clicks, links[1..])
  }

  lemma {:induction false} FoldClicksIsSum(acc: nat, links: seq<LinkRow>)
    ensures FoldClicks(acc, links) == acc + SumClicks(links)
    decreases |links|
  {
    if links != [] {
      FoldClicksIsSum(acc + links[0].clicks, links[1..]);
    }
  }

  /** `totalClicks`: the sum of the clicks of the listed links, 0 for an empty list. */
  function TotalClicks(links: seq<LinkRow>): (t: nat)
    ensures t == SumClicks(links)
  {
    FoldClicksIsSum(0, links);
    FoldClicks(0, links)
  }

  /** The dashboard's total over the list the handlers answer with equals the store's `getTotalClicks`. */
  lemma {:induction false} DashboardTotalIsStoreTotal(db: Db, userId: string)
    requires db.Valid()
    ensures TotalClicks(db.GetLinksByUserId(userId)) == db.GetTotalClicks(userId)
  {
  }

  /**
   * `totalClicks > 0 && links.length > 0 ? Math.round(totalClicks / links.length) : 0`, in exact
   * arithmetic: `Math.round` rounds half up, so the result r satisfies r - 1/2 <= t/n < r + 1/2.
   */
  function AverageClicks(total: nat, count: nat): (r: nat)
    ensures total == 0 || count == 0 ==> r == 0
    ensures total > 0 && count > 0 ==> 2 * r * count <= 2 * total + count < 2 * r * count + 2 * count
  {
    if total > 0 && count > 0 then
      var d, x := 2 * count, 2 * total + count;
      var q := x / d;
      assert d * q <= x < d * q + d;
      assert 2 * q * count == d * q;
      q
    else 0
  }
}
