/**
 * The application shell (App.tsx): the signed-in user derived from a session,
 * the site list kept in the browser when no backend is configured, the list
 * filters of the landing page and dashboard, navigation, and `#site/<id>` links.
 */
module HostingApp {
  import opened Wrappers
  import opened Strings
  import opened Lists
  import opened Types
  import FooterInjection

  /** The parts of an authentication session the application reads; time stamps already converted to milliseconds. */
  datatype SessionUser = SessionUser(
    id: string,
    email: Option<string>,
    metadataName: Option<string>,
    createdAt: int,
    lastSignInAt: Option<int>)

  /** The display name: the metadata name, else the part of the e-mail before `@`, else `User`. */
  function DisplayName(metadataName: Option<string>, email: string): (name: string)
    ensures name != ""
    ensures metadataName.Some? && metadataName.value != "" ==> name == metadataName.value
    ensures (metadataName.None? || metadataName.value == "") && email != "" && email[0] != '@' ==>
              name <= email && '@' !in name && (|name| == |email| || email[|name|] == '@')
    ensures (metadataName.None? || metadataName.value == "") && (email == "" || email[0] == '@') ==>
              name == "User"
  {
    var local := Split(email, {'@'})[0];
    SplitFirstPieceEnds(email, {'@'});
    assert forall m :: 0 <= m < |local| ==> local[m] != '@';
    OrElse(OrDefault(metadataName, ""), OrElse(local, "User"))
  }

  /** The user record built from a session (App.tsx, the session listener). */
  function UserFromSession(u: SessionUser, now: int): (r: User)
    ensures r.id == u.id && r.email == OrDefault(u.email, "")
    ensures r.role == Admin <==> StartsWith(OrDefault(u.email, ""), "admin")
    ensures r.name == DisplayName(u.metadataName, r.email)
    ensures r.lastLoginAt == u.lastSignInAt.GetOr(now) && r.createdAt == u.createdAt
  {
    var email := OrDefault(u.email, "");
    User(
      u.id, email, DisplayName(u.metadataName, email), None,
      if StartsWith(email, "admin") then Admin else RegularUser,
      u.createdAt, u.lastSignInAt.GetOr(now))
  }

  /** An address whose local part is `admin…` yields an administrator named after it. */
  lemma AdminSession(local: string, domain: string, id: string, now: int)
    requires '@' !in local && local != ""
    ensures var r := UserFromSession(SessionUser(id, Some("admin" + local + "@" + domain), None, 0, None), now);
            r.role == Admin && r.name == "admin" + local && r.lastLoginAt == now
  {
    var email := "admin" + local + "@" + domain;
    assert At(email, "admin", 0) by { assert email[..5] == "admin"; }
    var pieces := Split(email, {'@'});
    JoinSplit(email, '@');
    var n := |"admin" + local|;
    assert email[..n] == "admin" + local;
    assert '@' !in "admin";
    SplitFirstPiece(email, '@', n);
  }

  /** The first piece of a split ends at the first separator. */
  lemma {:induction false} SplitFirstPiece(s: string, sep: char, n: nat)
    requires n < |s| && s[n] == sep && sep !in s[..n]
    ensures Split(s, {sep})[0] == s[..n]
    decreases n
  {
    if n > 0 {
      assert s[1..][n - 1] == sep;
      assert s[1..][..n - 1] == s[..n][1..];
      SplitFirstPiece(s[1..], sep, n - 1);
      assert s[..n] == [s[0]] + s[1..][..n - 1];
    }
  }

  /** The site record built for a save: it is published, has no views and is time-stamped `now`. */
  function SiteObject(data: SaveRequest, user: User, generatedId: string, finalHtml: string, now: int): (r: Site)
    ensures r.userId == user.id && r.authorName == user.name && r.title == data.title && r.htmlContent == finalHtml
    ensures r.views == 0 && r.published && r.createdAt == now && r.updatedAt == Some(now)
    ensures r.isPublic == Some(data.isPublic) && r.allowSourceDownload == Some(data.allowSourceDownload)
    ensures OrDefault(data.id, "") != "" ==> r.id == data.id.value
    ensures OrDefault(data.id, "") == "" ==> r.id == generatedId
  {
    Site(
      OrDefault(data.id, generatedId), user.id, user.name, data.title, finalHtml,
      now, Some(now), 0, true, Some(data.isPublic), Some(data.allowSourceDownload))
  }

  /** The local update: the entry with the id is replaced, keeping its creation time and view count. */
  function ReplaceSite(sites: seq<Site>, id: string, obj: Site): (r: seq<Site>)
    ensures |r| == |sites|
    ensures forall k :: 0 <= k < |sites| && sites[k].id != id ==> r[k] == sites[k]
    ensures forall k :: 0 <= k < |sites| && sites[k].id == id ==>
              r[k] == obj.(createdAt := sites[k].createdAt, views := sites[k].views)
  {
    if sites == [] then []
    else
      var s := sites[0];
      [if s.id == id then obj.(createdAt := s.createdAt, views := s.views) else s]
      + ReplaceSite(sites[1..], id, obj)
  }

  /** The local delete: every entry with the id goes, the rest stay in order. */
  function DeleteSite(sites: seq<Site>, id: string): (r: seq<Site>)
    ensures forall s :: s in r <==> s in sites && s.id != id
    ensures Subsequence(r, sites)
    ensures forall s :: multiset(r)[s] == if s.id != id then multiset(sites)[s] else 0
  {
    Filter(sites, (s: Site) => s.id != id)
  }

  /** The index of the first site with the id, or -1. */
  function FindSiteIndex(sites: seq<Site>, id: string): (k: int)
    ensures -1 <= k < |sites|
    ensures k == -1 <==> forall j :: 0 <= j < |sites| ==> sites[j].id != id
    ensures k >= 0 ==> sites[k].id == id && forall j :: 0 <= j < k ==> sites[j].id != id
  {
    if sites == [] then -1
    else if sites[0].id == id then 0
    else
      var k := FindSiteIndex(sites[1..], id);
      if k == -1 then -1 else k + 1
  }

  /** `allSites.find(s => s.id === id)`: the first site with the id. */
  function FindSite(sites: seq<Site>, id: string): (r: Option<Site>)
    ensures r.None? <==> forall k :: 0 <= k < |sites| ==> sites[k].id != id
    ensures r.Some? ==> r.value in sites && r.value.id == id
    ensures r.Some? ==> 0 <= FindSiteIndex(sites, id) && r.value == sites[FindSiteIndex(sites, id)]
  {
    var k := FindSiteIndex(sites, id);
    if k == -1 then None else Some(sites[k])
  }

  /** After a create, the new entry is found under its id if no older entry had it. */
  lemma CreateThenFind(sites: seq<Site>, obj: Site)
    ensures FindSite([obj] + sites, obj.id) == Some(obj)
  {
  }

  /** Deleting a site that was just created (with an id no other entry has) restores the list. */
  lemma DeleteUndoesCreate(sites: seq<Site>, obj: Site)
    requires forall k :: 0 <= k < |sites| ==> sites[k].id != obj.id
    ensures DeleteSite([obj] + sites, obj.id) == sites
  {
    var keep := (s: Site) => s.id != obj.id;
    FilterAppend([obj], sites, keep);
    FilterKeepsAll(sites, keep);
    assert Filter([obj], keep) == [];
  }

  /** After a delete, the id is not found any more. */
  lemma DeleteThenFind(sites: seq<Site>, id: string)
    ensures FindSite(DeleteSite(sites, id), id).None?
  {
    var r := DeleteSite(sites, id);
    forall k | 0 <= k < |r| ensures r[k].id != id {
      assert r[k] in r;
    }
  }

  /** After an update of an existing id (the new record carrying that id), finding it gives the new content with the old creation time and views. */
  lemma {:induction false} ReplaceThenFind(sites: seq<Site>, id: string, obj: Site)
    requires FindSite(sites, id).Some? && obj.id == id
    ensures var o := FindSite(sites, id).value;
            FindSite(ReplaceSite(sites, id, obj), id) == Some(obj.(createdAt := o.createdAt, views := o.views))
  {
    var k := FindSiteIndex(sites, id);
    FindSiteIndexAt(ReplaceSite(sites, id, obj), id, k);
  }

  lemma {:induction false} FindSiteIndexAt(sites: seq<Site>, id: string, k: nat)
    requires k < |sites| && sites[k].id == id && forall j :: 0 <= j < k ==> sites[j].id != id
    ensures FindSiteIndex(sites, id) == k
    decreases k
  {
    if k > 0 {
      FindSiteIndexAt(sites[1..], id, k - 1);
    }
  }

  /** The landing page lists exactly the published public sites, in order. */
  function PublicSites(sites: seq<Site>): (r: seq<Site>)
    ensures forall s :: s in r <==> s in sites && s.published && s.isPublic == Some(true)
    ensures Subsequence(r, sites)
    ensures forall s :: multiset(r)[s] == if s.published && s.isPublic == Some(true) then multiset(sites)[s] else 0
  {
    Filter(sites, (s: Site) => s.published && s.isPublic == Some(true))
  }

  /** The dashboard lists exactly the user's own sites, in order. */
  function OwnSites(sites: seq<Site>, user: User): (r: seq<Site>)
    ensures forall s :: s in r <==> s in sites && s.userId == user.id
    ensures Subsequence(r, sites)
    ensures forall s :: multiset(r)[s] == if s.userId == user.id then multiset(sites)[s] else 0
  {
    Filter(sites, (s: Site) => s.userId == user.id)
  }

  /**
   * A site saved for the first time heads its owner's dashboard, and it is
   * listed on the landing page exactly when it was saved as public.
   */
  lemma NewSiteListing(sites: seq<Site>, data: SaveRequest, user: User, generatedId: string, finalHtml: string, now: int)
    ensures var obj := SiteObject(data, user, generatedId, finalHtml, now);
            && OwnSites([obj] + sites, user) == [obj] + OwnSites(sites, user)
            && PublicSites([obj] + sites) == (if data.isPublic then [obj] else []) + PublicSites(sites)
  {
    var obj := SiteObject(data, user, generatedId, finalHtml, now);
    assert ([obj] + sites)[1..] == sites;
  }

  const SiteHashPrefix := "#site/"

  /** The site id of a `#site/<id>` location hash. */
  function SiteIdFromHash(hash: string): (r: Option<string>)
    ensures r.Some? <==> StartsWith(hash, SiteHashPrefix)
    ensures r.Some? ==> hash == SiteHashPrefix + r.value
  {
    if StartsWith(hash, SiteHashPrefix) then
      ReplaceFirstAtStart(hash, SiteHashPrefix, "");
      assert hash == hash[..|SiteHashPrefix|] + hash[|SiteHashPrefix|..];
      Some(ReplaceFirst(hash, SiteHashPrefix, ""))
    else None
  }

  /** The hash written when a site is opened reads back as that site's id. */
  lemma HashRoundTrip(id: string)
    ensures SiteIdFromHash(SiteHashPrefix + id) == Some(id)
  {
    var h := SiteHashPrefix + id;
    assert At(h, SiteHashPrefix, 0) by { assert h[..|SiteHashPrefix|] == SiteHashPrefix; }
  }

  function IsAdmin(user: Option<User>): bool {
    user.Some? && user.value.role == Admin
  }

  /** Nobody is an administrator when signed out; a session's user is one exactly when the address starts with `admin`. */
  lemma SessionAdmin(u: SessionUser, now: int)
    ensures !IsAdmin(None)
    ensures IsAdmin(Some(UserFromSession(u, now))) <==> StartsWith(OrDefault(u.email, ""), "admin")
  {
  }

  /** The application's state, each field one piece of the component's state. */
  class App {
    var user: Option<User>
    var view: ViewState
    var allSites: seq<Site>
    var currentSite: Option<Site>
    var editingSite: Option<Site>
    var deleteTargetId: Option<string>

    constructor (user: Option<User>, sites: seq<Site>)
      ensures this.user == user && allSites == sites && view == Landing
      ensures currentSite.None? && editingSite.None? && deleteTargetId.None?
    {
      this.user := user;
      allSites := sites;
      view := Landing;
      currentSite := None;
      editingSite := None;
      deleteTargetId := None;
    }

    /**
     * `handleSaveSite` without a backend: inject the footer, then update the
     * entry with the request's id or put a new entry first.
     */
    method SaveSiteLocally(data: SaveRequest, appUrl: string, generatedId: string, now: int)
      modifies this
      ensures old(user).None? ==> unchanged(this)
      ensures old(user).Some? ==>
                var obj := SiteObject(data, old(user).value, generatedId,
                                      FooterInjection.Injected(data.htmlContent, appUrl), now);
                && allSites == (if OrDefault(data.id, "") != "" then ReplaceSite(old(allSites), data.id.value, obj)
                                else [obj] + old(allSites))
                && editingSite.None? && view == Dashboard
                && user == old(user) && currentSite == old(currentSite) && deleteTargetId == old(deleteTargetId)
    {
      if user.None? {
        return;
      }
      var finalHtml := FooterInjection.InjectFooter(data.htmlContent, appUrl);
      var siteObj := SiteObject(data, user.value, generatedId, finalHtml, now);
      if OrDefault(data.id, "") != "" {
        allSites := ReplaceSite(allSites, data.id.value, siteObj);
      } else {
        allSites := [siteObj] + allSites;
      }
      editingSite := None;
      view := Dashboard;
    }

    /** `handleDeleteSite`: remember which site the confirmation is about. */
    method RequestDelete(id: string)
      modifies this`deleteTargetId
      ensures deleteTargetId == Some(id)
    {
      deleteTargetId := Some(id);
    }

    /** `confirmDelete` without a backend. */
    method ConfirmDelete()
      modifies this`allSites, this`deleteTargetId
      ensures OrDefault(old(deleteTargetId), "") == "" ==>
                allSites == old(allSites) && deleteTargetId == old(deleteTargetId)
      ensures OrDefault(old(deleteTargetId), "") != "" ==>
                allSites == DeleteSite(old(allSites), old(deleteTargetId).value) && deleteTargetId.None?
    {
      if OrDefault(deleteTargetId, "") == "" {
        return;
      }
      var id := deleteTargetId.value;
      allSites := DeleteSite(allSites, id);
      deleteTargetId := None;
    }

    /** `navigateTo`: the navigation bar's targets. */
    method NavigateTo(target: string)
      modifies this`view, this`editingSite
      ensures target == "landing" ==> view == Landing && editingSite == old(editingSite)
      ensures target == "dashboard" ==>
                editingSite.None? && view == (if IsAdmin(user) then AdminView else Dashboard)
      ensures target == "admin" ==> view == AdminView && editingSite == old(editingSite)
      ensures target == "create" ==> editingSite.None? && view == Editor
      ensures target !in {"landing", "dashboard", "admin", "create"} ==>
                view == old(view) && editingSite == old(editingSite)
    {
      if target == "landing" {
        view := Landing;
      }
      if target == "dashboard" {
        editingSite := None;
        view := if IsAdmin(user) then AdminView else Dashboard;
      }
      if target == "admin" {
        view := AdminView;
      }
      if target == "create" {
        editingSite := None;
        view := Editor;
      }
    }

    /** The hash listener: `#site/<id>` opens that site, but only if it is in the list. */
    method HashChanged(hash: string)
      modifies this`currentSite, this`view
      ensures var id := SiteIdFromHash(hash);
              if id.Some? && FindSite(allSites, id.value).Some? then
                currentSite == FindSite(allSites, id.value) && view == Viewer
              else
                currentSite == old(currentSite) && view == old(view)
    {
      if StartsWith(hash, SiteHashPrefix) {
        var siteId := ReplaceFirst(hash, SiteHashPrefix, "");
        var targetSite := FindSite(allSites, siteId);
        if targetSite.Some? {
          currentSite := targetSite;
          view := Viewer;
        }
      }
    }
  }
}
