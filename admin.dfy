/**
 * The administrator's console (views/AdminPanel.tsx): the search that
 * narrows the user and site tables, the total view count, how time stamps
 * are shown, and which rows offer deletion. Rendering a date in the
 * `zh-CN` locale is left to a parameter.
 */
module AdminConsole {
  import opened Wrappers
  import opened Strings
  import opened Lists
  import opened Types

  const NoDate := "N/A"
  const InvalidDate := "Invalid Date"
  /** The largest distance from the epoch, in milliseconds, a JavaScript date can hold. */
  const MaxTime := 8_640_000_000_000_000

  /** A user row is shown when the name or the e-mail contains the search text, ignoring case. */
  predicate UserMatches(u: User, search: string) {
    ContainsIgnoringCase(u.name, search) || ContainsIgnoringCase(u.email, search)
  }

  /** A site row is shown when the title or the author's name contains the search text, ignoring case. */
  predicate SiteMatches(s: Site, search: string) {
    ContainsIgnoringCase(s.title, search) || ContainsIgnoringCase(s.authorName, search)
  }

  /** `filteredUsers`. */
  function FilteredUsers(users: seq<User>, search: string): (r: seq<User>)
    ensures forall u :: u in r <==> u in users && UserMatches(u, search)
    ensures Subsequence(r, users)
    ensures forall u :: multiset(r)[u] == if UserMatches(u, search) then multiset(users)[u] else 0
  {
    Filter(users, (u: User) => UserMatches(u, search))
  }

  /** `filteredSites`. */
  function FilteredSites(sites: seq<Site>, search: string): (r: seq<Site>)
    ensures forall s :: s in r <==> s in sites && SiteMatches(s, search)
    ensures Subsequence(r, sites)
    ensures forall s :: multiset(r)[s] == if SiteMatches(s, search) then multiset(sites)[s] else 0
  {
    Filter(sites, (s: Site) => SiteMatches(s, search))
  }

  /** With no search text both tables are shown whole. */
  lemma EmptySearchShowsAll(users: seq<User>, sites: seq<Site>)
    ensures FilteredUsers(users, "") == users
    ensures FilteredSites(sites, "") == sites
  {
    forall i | 0 <= i < |users| ensures UserMatches(users[i], "") {
      EmptySearchMatches(users[i].name);
    }
    FilterKeepsAll(users, (u: User) => UserMatches(u, ""));
    forall i | 0 <= i < |sites| ensures SiteMatches(sites[i], "") {
      EmptySearchMatches(sites[i].title);
    }
    FilterKeepsAll(sites, (s: Site) => SiteMatches(s, ""));
  }

  /** Typing more of the search text only ever removes rows. */
  lemma LongerSearchNarrows(users: seq<User>, sites: seq<Site>, search: string, more: string)
    ensures forall u :: u in FilteredUsers(users, search + more) ==> u in FilteredUsers(users, search)
    ensures forall s :: s in FilteredSites(sites, search + more) ==> s in FilteredSites(sites, search)
  {
    forall u | u in FilteredUsers(users, search + more) ensures u in FilteredUsers(users, search) {
      if ContainsIgnoringCase(u.name, search + more) {
        ContainsIgnoringCasePrefix(u.name, search, more);
      } else {
        ContainsIgnoringCasePrefix(u.email, search, more);
      }
    }
    forall s | s in FilteredSites(sites, search + more) ensures s in FilteredSites(sites, search) {
      if ContainsIgnoringCase(s.title, search + more) {
        ContainsIgnoringCasePrefix(s.title, search, more);
      } else {
        ContainsIgnoringCasePrefix(s.authorName, search, more);
      }
    }
  }

  /** `totalViews`: the views of all sites added up, from the left. */
  function TotalViews(sites: seq<Site>): (total: int)
    ensures (forall k :: 0 <= k < |sites| ==> sites[k].views >= 0) ==> total >= 0
    decreases |sites|
  {
    if sites == [] then 0 else TotalViews(sites[..|sites| - 1]) + sites[|sites| - 1].views
  }

  /** The total over two lists of sites is the sum of their totals. */
  lemma {:induction false} TotalViewsAppend(a: seq<Site>, b: seq<Site>)
    ensures TotalViews(a + b) == TotalViews(a) + TotalViews(b)
    decreases |b|
  {
    if b == [] {
      assert a + b == a;
    } else {
      var init := b[..|b| - 1];
      assert (a + b)[..|a + b| - 1] == a + init;
      TotalViewsAppend(a, init);
    }
  }

  /** Where no count is negative, the total is at least any one site's views. */
  lemma {:induction false} TotalViewsBound(sites: seq<Site>, i: nat)
    requires i < |sites| && forall k :: 0 <= k < |sites| ==> sites[k].views >= 0
    ensures TotalViews(sites) >= sites[i].views
  {
    var init := sites[..|sites| - 1];
    assert forall k :: 0 <= k < |init| ==> init[k] == sites[k];
    if i < |init| {
      TotalViewsBound(init, i);
    }
  }

  /**
   * `formatDate`: a missing or zero time stamp reads "N/A", one outside the
   * range of JavaScript dates "Invalid Date", and any other is rendered by
   * `render`.
   */
  function FormatDate(timestamp: Option<int>, render: int -> string): (r: string)
    ensures timestamp.None? || timestamp.value == 0 ==> r == NoDate
    ensures timestamp.Some? && timestamp.value != 0 && -MaxTime <= timestamp.value <= MaxTime ==> r == render(timestamp.value)
    ensures timestamp.Some? && (timestamp.value < -MaxTime || MaxTime < timestamp.value) ==> r == InvalidDate
  {
    match timestamp
    case None => NoDate
    case Some(t) =>
      if t == 0 then NoDate
      else if t < -MaxTime || MaxTime < t then InvalidDate
      else render(t)
  }

  /** Only regular users can be deleted from the console; every site can be taken down. */
  predicate OffersUserDeletion(u: User) {
    u.role != Admin
  }

  /** No administrator is ever offered for deletion. */
  lemma AdminsAreNotDeletable(users: seq<User>, search: string)
    ensures forall u :: u in FilteredUsers(users, search) && OffersUserDeletion(u) ==> u in users && u.role == RegularUser
  {
  }
}
