/**
 * The mapping between the `sites` table's snake_case rows and the
 * application's `Site` records (lib/supabase.ts, `mapSiteFromDB` and
 * `mapSiteToDB`). Dates are passed in as functions: `parse` stands for
 * `new Date(text).getTime()`, `format` for `new Date(ms).toISOString()`
 * and `now` for the current time.
 */
module SiteRecords {
  import opened Wrappers
  import opened Strings
  import opened Types

  const UnknownAuthor := "Unknown"
  const UntitledSite := "Untitled"

  /** A time stamp column as it comes back: text, a number, or null. */
  datatype DbTime = TimeText(text: string) | TimeNumber(ms: int) | TimeNull

  /** A row of the `sites` table; the optional columns may be null. */
  datatype DbSite = DbSite(
    id: Option<string>,
    userId: string,
    authorName: Option<string>,
    title: Option<string>,
    htmlContent: Option<string>,
    views: int,
    published: bool,
    isPublic: Option<bool>,
    allowSourceDownload: Option<bool>,
    createdAt: DbTime,
    updatedAt: DbTime)

  /** Whether a time stamp column is truthy in JavaScript. */
  predicate Truthy(t: DbTime) {
    match t
    case TimeText(s) => s != ""
    case TimeNumber(n) => n != 0
    case TimeNull => false
  }

  /** A text column is parsed as a date; anything else goes through `Number` (null is 0). */
  function Millis(t: DbTime, parse: string -> int): int {
    match t
    case TimeText(s) => parse(s)
    case TimeNumber(n) => n
    case TimeNull => 0
  }

  /** `mapSiteFromDB`. A row without an id gives the empty id. */
  function FromDB(row: DbSite, parse: string -> int): (s: Site)
    ensures s.id == row.id.GetOr("") && s.userId == row.userId
    ensures s.authorName != "" && s.title != ""
    ensures row.authorName.Some? && row.authorName.value != "" ==> s.authorName == row.authorName.value
    ensures (row.authorName.None? || row.authorName.value == "") ==> s.authorName == UnknownAuthor
    ensures row.title.Some? && row.title.value != "" ==> s.title == row.title.value
    ensures (row.title.None? || row.title.value == "") ==> s.title == UntitledSite
    ensures s.htmlContent == row.htmlContent.GetOr("")
    ensures s.createdAt == Millis(row.createdAt, parse)
    ensures s.updatedAt.None? <==> !Truthy(row.updatedAt)
    ensures s.updatedAt.Some? ==> s.updatedAt.value == Millis(row.updatedAt, parse)
    ensures s.views == row.views && s.published == row.published
    ensures s.isPublic == row.isPublic && s.allowSourceDownload == row.allowSourceDownload
  {
    Site(
      row.id.GetOr(""),
      row.userId,
      OrDefault(row.authorName, UnknownAuthor),
      OrDefault(row.title, UntitledSite),
      OrDefault(row.htmlContent, ""),
      Millis(row.createdAt, parse),
      if Truthy(row.updatedAt) then Some(Millis(row.updatedAt, parse)) else None,
      row.views,
      row.published,
      row.isPublic,
      row.allowSourceDownload)
  }

  /** `site.updatedAt` is truthy: present and not zero. */
  predicate HasUpdate(site: Site) {
    site.updatedAt.Some? && site.updatedAt.value != 0
  }

  /** `mapSiteToDB`: the id only when it is non-empty; both time stamps always, as text. */
  function ToDB(site: Site, format: int -> string, now: int): (row: DbSite)
    ensures row.id.Some? <==> site.id != ""
    ensures row.id.Some? ==> row.id.value == site.id
    ensures row.createdAt.TimeText? && row.updatedAt.TimeText?
    ensures row.createdAt.text == format(if site.createdAt != 0 then site.createdAt else now)
    ensures row.updatedAt.text == format(if HasUpdate(site) then site.updatedAt.value else now)
    ensures row.userId == site.userId && row.views == site.views && row.published == site.published
    ensures row.authorName == Some(site.authorName) && row.title == Some(site.title)
    ensures row.htmlContent == Some(site.htmlContent)
    ensures row.isPublic == site.isPublic && row.allowSourceDownload == site.allowSourceDownload
  {
    DbSite(
      if site.id != "" then Some(site.id) else None,
      site.userId,
      Some(site.authorName),
      Some(site.title),
      Some(site.htmlContent),
      site.views,
      site.published,
      site.isPublic,
      site.allowSourceDownload,
      TimeText(format(if site.createdAt != 0 then site.createdAt else now)),
      TimeText(format(if HasUpdate(site) then site.updatedAt.value else now)))
  }

  /** Does `parse` read back every time `format` writes, as `getTime` does for `toISOString`? */
  ghost predicate DatesRoundTrip(format: int -> string, parse: string -> int) {
    forall t :: format(t) != "" && parse(format(t)) == t
  }

  /**
   * Writing a site and reading it back keeps the id, the owner, the
   * counters and the flags, and every non-empty text; a missing time stamp
   * comes back as the time of writing.
   */
  lemma StoredSiteReadsBack(site: Site, format: int -> string, parse: string -> int, now: int)
    requires DatesRoundTrip(format, parse)
    ensures var s := FromDB(ToDB(site, format, now), parse);
            && s.id == site.id && s.userId == site.userId
            && s.views == site.views && s.published == site.published
            && s.isPublic == site.isPublic && s.allowSourceDownload == site.allowSourceDownload
            && s.htmlContent == site.htmlContent
            && (site.authorName != "" ==> s.authorName == site.authorName)
            && (site.title != "" ==> s.title == site.title)
            && s.createdAt == (if site.createdAt != 0 then site.createdAt else now)
            && s.updatedAt == Some(if HasUpdate(site) then site.updatedAt.value else now)
  {
    var row := ToDB(site, format, now);
    assert format(if site.createdAt != 0 then site.createdAt else now) != "";
    assert parse(row.createdAt.text) == (if site.createdAt != 0 then site.createdAt else now);
    assert parse(row.updatedAt.text) == (if HasUpdate(site) then site.updatedAt.value else now);
    assert Truthy(row.updatedAt);
  }

  /** A site read from a row and written again keeps the row's plain columns. */
  lemma ReadSiteWritesBack(row: DbSite, parse: string -> int, format: int -> string, now: int)
    requires row.id.Some? ==> row.id.value != ""
    ensures var r := ToDB(FromDB(row, parse), format, now);
            && r.id == row.id && r.userId == row.userId
            && r.views == row.views && r.published == row.published
            && r.isPublic == row.isPublic && r.allowSourceDownload == row.allowSourceDownload
            && (row.title.Some? && row.title.value != "" ==> r.title == row.title)
            && (row.authorName.Some? && row.authorName.value != "" ==> r.authorName == row.authorName)
  {
  }
}
