/**
 * app/api/user/pages/route.ts: listing a user's linked pages (GET) and
 * choosing the active one (POST), which also copies the chosen page into
 * the legacy single-page fields.
 */
module PagesRoute {
  import opened Wrappers
  import opened JsText
  import opened UserSchema
  import opened UserDocuments
  import opened Http

  /* ---------------- GET: the listing ---------------- */

  /** One entry of the listing: a page without its encrypted token. */
  datatype PageSummary = PageSummary(
    pageId: string,
    pageName: string,
    category: Option<string>,
    tasks: seq<string>,
    igBusinessId: Option<string>,
    igUsername: Option<string>,
    isActive: bool)

  datatype PagesListing = PagesListing(pages: seq<PageSummary>, activePageId: Option<string>)

  /** `page.pageId === user.activePageId`: never true while `activePageId` is unset. */
  function Summarize(p: Page, activePageId: Option<string>): (s: PageSummary)
    ensures s.isActive <==> activePageId.Some? && activePageId.value == p.pageId
  {
    PageSummary(p.pageId, p.pageName, p.category, p.tasks, p.igBusinessId, p.igUsername, activePageId == Some(p.pageId))
  }

  /** `(user.pages || []).map(...)` */
  function Summaries(pages: seq<Page>, activePageId: Option<string>): (s: seq<PageSummary>)
    ensures |s| == |pages|
  {
    seq(|pages|, i requires 0 <= i < |pages| => Summarize(pages[i], activePageId))
  }

  /** GET `?userId=`: 400 without an id, 404 for an unknown one, else the listing. */
  function ListPages(users: map<string, UserRecord>, userId: Option<string>): (r: Response<PagesListing>)
    ensures !Truthy(userId) ==> r == Fail(400, "userId is required")
    ensures Truthy(userId) && userId.value !in users ==> r == Fail(404, "User not found")
    ensures r.Ok? ==> Truthy(userId) && userId.value in users && r.body.activePageId == users[userId.value].activePageId
  {
    if !Truthy(userId) then Fail(400, "userId is required")
    else if userId.value !in users then Fail(404, "User not found")
    else
      var u := users[userId.value];
      Ok(PagesListing(Summaries(u.pages, u.activePageId), u.activePageId))
  }

  /**
   * The listing has one entry per stored page, in stored order, carrying the
   * page's own fields; an entry is marked active exactly when its page id is
   * the active one, so (page ids being non-empty, as the schema requires)
   * some entry is marked active exactly when `getActivePage` finds a page,
   * and the first marked entry is that page.
   */
  lemma ListingMarksActivePage(users: map<string, UserRecord>, userId: string)
    requires userId != "" && userId in users
    requires forall i :: 0 <= i < |users[userId].pages| ==> users[userId].pages[i].pageId != ""
    ensures ListPages(users, Some(userId)) == Ok(PagesListing(Summaries(users[userId].pages, users[userId].activePageId), users[userId].activePageId))
    ensures var u := users[userId]; var s := Summaries(u.pages, u.activePageId);
      forall i :: 0 <= i < |u.pages| ==>
        && s[i].pageId == u.pages[i].pageId && s[i].pageName == u.pages[i].pageName
        && s[i].igBusinessId == u.pages[i].igBusinessId && s[i].igUsername == u.pages[i].igUsername
        && (s[i].isActive <==> u.activePageId == Some(u.pages[i].pageId))
    ensures var u := users[userId]; var s := Summaries(u.pages, u.activePageId);
      (exists i :: 0 <= i < |s| && s[i].isActive) <==> GetActivePage(u).Some?
    ensures var u := users[userId]; var s := Summaries(u.pages, u.activePageId);
      GetActivePage(u).Some? ==>
        var k := FindPageIndex(u.pages, u.activePageId.value);
        && k < |s| && s[k].isActive && u.pages[k] == GetActivePage(u).value
        && forall j :: 0 <= j < k ==> !s[j].isActive
  {
    var u := users[userId];
    var s := Summaries(u.pages, u.activePageId);
    if exists i :: 0 <= i < |s| && s[i].isActive {
      var i :| 0 <= i < |s| && s[i].isActive;
      assert u.pages[i].pageId != "" && u.pages[i].pageId == u.activePageId.value;
      assert HasPage(u.pages, u.activePageId.value);
    }
    if GetActivePage(u).Some? {
      var k := FindPageIndex(u.pages, u.activePageId.value);
      assert s[k].isActive;
      assert u.pages[k] == FindPage(u.pages, u.activePageId.value).value;
      forall j | 0 <= j < k ensures !s[j].isActive {
        assert u.pages[j].pageId != u.activePageId.value;
      }
    }
  }

  /* ---------------- POST: choosing the active page ---------------- */

  datatype ActivePageSet = ActivePageSet(activePageId: string, pageName: string)

  /** `activePageId` set to the page, and the legacy fields copied from it. */
  function SelectPage(r: UserRecord, pageId: string): UserRecord
    requires HasPage(r.pages, pageId)
  {
    var p := FindPage(r.pages, pageId).value;
    r.(activePageId := Some(pageId), pageId := Some(p.pageId), pageName := Some(p.pageName),
       igBusinessId := p.igBusinessId, igUsername := p.igUsername)
  }

  /**
   * Selecting a page makes it the active page (as `getActivePage` reads it),
   * mirrors it into the legacy fields, and changes nothing else: not the
   * pages, not the token, not `isActive`.
   */
  lemma SelectPageProperties(r: UserRecord, pageId: string)
    requires HasPage(r.pages, pageId) && pageId != ""
    ensures var s := SelectPage(r, pageId);
      var p := FindPage(r.pages, pageId).value;
      && s.activePageId == Some(pageId) && s.pageId == Some(pageId) && s.pageName == Some(p.pageName)
      && s.igBusinessId == p.igBusinessId && s.igUsername == p.igUsername
      && GetActivePage(s) == Some(p)
      && s.(activePageId := r.activePageId, pageId := r.pageId, pageName := r.pageName,
            igBusinessId := r.igBusinessId, igUsername := r.igUsername) == r
  {
  }

  function SetActivePageSpec(users: map<string, UserRecord>, userId: Option<string>, pageId: Option<string>, now: Time)
    : Outcome<Response<ActivePageSet>>
  {
    if !Truthy(userId) || !Truthy(pageId) then Outcome(Fail(400, "userId and pageId are required"), users)
    else if userId.value !in users then Outcome(Fail(404, "User not found"), users)
    else
      var r := users[userId.value];
      if !HasPage(r.pages, pageId.value) then Outcome(Fail(404, "Page not found in user's pages"), users)
      else
        var saved := Saved(r, SelectPage(r, pageId.value), false, now);
        Outcome(Ok(ActivePageSet(pageId.value, FindPage(r.pages, pageId.value).value.pageName)), users[userId.value := saved])
  }

  /**
   * Every refusal (missing id, unknown user, page not among the user's
   * pages) leaves the collection unchanged; a success stores the selected
   * record, touched now if it changed.
   */
  lemma SetActivePageProperties(users: map<string, UserRecord>, userId: Option<string>, pageId: Option<string>, now: Time)
    ensures var o := SetActivePageSpec(users, userId, pageId, now);
      && (o.result.Fail? ==> o.users == users)
      && ((!Truthy(userId) || !Truthy(pageId)) ==> o.result == Fail(400, "userId and pageId are required"))
      && (Truthy(userId) && Truthy(pageId) && userId.value !in users ==> o.result == Fail(404, "User not found"))
      && (Truthy(userId) && Truthy(pageId) && userId.value in users && !HasPage(users[userId.value].pages, pageId.value) ==>
            o.result == Fail(404, "Page not found in user's pages"))
      && (o.result.Ok? <==> Truthy(userId) && Truthy(pageId) && userId.value in users && HasPage(users[userId.value].pages, pageId.value))
      && (o.result.Ok? ==>
            var r := users[userId.value];
            var s := o.users[userId.value];
            && o.users == users[userId.value := s]
            && s.(lastActivity := r.lastActivity, updatedAt := r.updatedAt) == SelectPage(r, pageId.value)
            && GetActivePage(s) == FindPage(r.pages, pageId.value)
            && o.result.body.activePageId == pageId.value)
  {
    var o := SetActivePageSpec(users, userId, pageId, now);
    if o.result.Ok? {
      SelectPageProperties(users[userId.value], pageId.value);
    }
  }

  /** Choosing the same page again, at any later time, returns the same reply and changes nothing. */
  lemma SetActivePageIdempotent(users: map<string, UserRecord>, userId: Option<string>, pageId: Option<string>, now: Time, later: Time)
    ensures var once := SetActivePageSpec(users, userId, pageId, now);
      SetActivePageSpec(once.users, userId, pageId, later) == once
  {
    var once := SetActivePageSpec(users, userId, pageId, now);
    if once.result.Ok? {
      var r := users[userId.value];
      var s := once.users[userId.value];
      assert s.pages == r.pages;
      assert SelectPage(s, pageId.value) == s;
    }
  }

  /** POST `{ userId, pageId }` */
  method SetActivePage(coll: UserCollection, userId: Option<string>, pageId: Option<string>, now: Time)
      returns (response: Response<ActivePageSet>)
    requires coll.Valid()
    modifies coll
    ensures coll.Valid()
    ensures response == SetActivePageSpec(old(coll.users), userId, pageId, now).result
    ensures coll.users == SetActivePageSpec(old(coll.users), userId, pageId, now).users
  {
    if !Truthy(userId) || !Truthy(pageId) {
      return Fail(400, "userId and pageId are required");
    }
    if userId.value !in coll.users {
      return Fail(404, "User not found");
    }
    var doc := new UserDocument.Hydrate(coll.users[userId.value]);
    if !HasPage(doc.fields.pages, pageId.value) {
      return Fail(404, "Page not found in user's pages");
    }
    doc.fields := doc.fields.(activePageId := Some(pageId.value));
    var activePage := FindPage(doc.fields.pages, pageId.value);
    if activePage.Some? {
      doc.fields := doc.fields.(pageId := Some(activePage.value.pageId), pageName := Some(activePage.value.pageName),
                                igBusinessId := activePage.value.igBusinessId, igUsername := activePage.value.igUsername);
    }
    var _ := coll.Save(doc, now);
    return Ok(ActivePageSet(pageId.value, activePage.value.pageName));
  }
}
