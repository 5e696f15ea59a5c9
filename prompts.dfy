/**
 * The prompt-template catalogue (views/PromptTemplates.tsx): built-in
 * prompts merged with database and browser-stored ones, tag parsing,
 * search and category filters, and the rules that route a deletion or an
 * update to the database or to the browser's storage by the prompt's id.
 */
module PromptCatalogue {
  import opened Wrappers
  import opened Strings
  import opened Lists
  import opened Types
  import Numbers

  /** The built-in prompts, always listed first. */
  const SystemPrompts: seq<Prompt> := [
    Prompt("sys_zh_1", "现代作品集",
      "为摄影师创建一个现代、极简的作品集网站。使用深色主题，配有大尺寸的高质量图片占位符。包含一个粘性导航栏，一个带有淡入动画的英雄区域，一个瀑布流画廊，一个\"关于我\"部分和一个联系表单。使用 Inter 字体。",
      "作品集", ["深色模式", "极简", "画廊"], None, Some(true)),
    Prompt("sys_zh_2", "SaaS 落地页",
      "为名为 \"TaskFlow\" 的 SaaS 产品设计一个高转化率的落地页。使用干净的蓝白配色方案。包含一个带有\"立即开始\" CTA 的英雄区域，一个使用图标展示的\"功能\"部分，一个包含 3 个层级（基础版、专业版、企业版）的\"价格\"表，以及页脚。为按钮添加悬停效果。",
      "落地页", ["商业", "简洁", "价格表"], None, Some(true)),
    Prompt("sys_zh_3", "餐厅菜单",
      "为一家意大利小酒馆建立一个餐厅菜单网站。使用暖色调（奶油色、赤陶色、橄榄色）。标题应使用衬线字体显示餐厅名称。将菜品分为\"开胃菜\"、\"头盘\"、\"主菜\"和\"甜点\"。每道菜都应有名称、描述和价格。添加一个\"预订座位\"按钮。",
      "餐饮", ["暖色调", "菜单", "衬线体"], None, Some(true)),
    Prompt("sys_zh_4", "博客主页",
      "创建一个博客主页布局。左侧侧边栏用于导航和分类。主要内容区域显示最近的文章列表，包含特色图片、标题、摘要和\"阅读更多\"链接。右侧侧边栏显示\"热门文章\"和\"通讯订阅\"。正文使用清晰易读的衬线字体。",
      "博客", ["布局", "内容", "侧边栏"], None, Some(true)),
    Prompt("sys_zh_5", "电商产品页",
      "为一款高端手表设计单个产品页面。分屏布局：左侧是大尺寸产品图片画廊，右侧是产品详情（标题、价格、描述、\"加入购物车\"按钮）。下方添加\"相关产品\"轮播图。使用奢华、时尚的设计风格。",
      "电商", ["奢华", "产品", "画廊"], None, Some(true))
  ]

  const BuiltInPrefix := "sys_"
  const LocalPrefix := "usr_"
  const AllCategories := "All"
  const DefaultCategory := "Custom"
  const DefaultAuthor := "User"
  const TagSeparator := ", "
  const CannotDelete := "Cannot delete built-in system prompts."
  const CannotEdit := "Cannot edit built-in system prompts."

  /** The characters of the tag pattern `/[,，]/`: the ASCII and the full-width comma. */
  const TagSeparators: set<char> := {',', '\U{FF0C}'}

  /** The browser's `hg_user_prompts` entry: absent (or empty), not a JSON array, or a list. */
  datatype LocalStore = Missing | Corrupt | Stored(entries: seq<Prompt>)

  /** A row of the `prompts` table as the database returns it. */
  datatype PromptRow = PromptRow(
    id: string,
    title: string,
    content: string,
    category: string,
    tags: Option<seq<string>>,
    authorName: Option<string>,
    isSystem: Option<bool>)

  /** The modal form's fields. */
  datatype Form = Form(title: string, content: string, category: string, tags: string, isSystem: bool)

  const EmptyForm := Form("", "", "", "", false)

  /** The record `handleSavePrompt` sends to the database (`promptData`). */
  datatype PromptData = PromptData(
    title: string,
    content: string,
    category: string,
    tags: seq<string>,
    authorId: Option<string>,
    authorName: string,
    isSystem: bool)

  /** A database row as a catalogue entry; missing tags become an empty list. */
  function FromRow(row: PromptRow): (p: Prompt)
    ensures p.id == row.id && p.title == row.title && p.content == row.content
    ensures p.category == row.category && p.author == row.authorName && p.isSystem == row.isSystem
    ensures row.tags.Some? ==> p.tags == row.tags.value
    ensures row.tags.None? ==> p.tags == []
  {
    Prompt(row.id, row.title, row.content, row.category, row.tags.GetOr([]), row.authorName, row.isSystem)
  }

  function FromRows(rows: seq<PromptRow>): (ps: seq<Prompt>)
    ensures |ps| == |rows| && forall i :: 0 <= i < |rows| ==> ps[i] == FromRow(rows[i])
  {
    seq(|rows|, i requires 0 <= i < |rows| => FromRow(rows[i]))
  }

  /** The tags typed into the form: split at either comma, trimmed, empty pieces dropped. */
  function ParseTags(s: string): (r: seq<string>)
    ensures forall k :: 0 <= k < |r| ==> r[k] != "" && Trim(r[k]) == r[k]
  {
    NonEmptyTrimmed(Split(s, TagSeparators))
  }

  /** A piece ended by either comma is the next tag, trimmed, unless it is blank. */
  lemma ParseTagsAfterPiece(a: string, c: char, rest: string)
    requires c in TagSeparators && Avoids(a, TagSeparators)
    ensures ParseTags(a + [c] + rest) == (if Trim(a) != "" then [Trim(a)] else []) + ParseTags(rest)
  {
    FieldsAfterPiece(a, c, rest, TagSeparators);
  }

  /** Text without a comma is one tag, trimmed, or no tag when it is blank. */
  lemma ParseTagsOfLastPiece(a: string)
    requires Avoids(a, TagSeparators)
    ensures ParseTags(a) == (if Trim(a) != "" then [Trim(a)] else [])
  {
    FieldsOfLastPiece(a, TagSeparators);
  }

  /** No parsed tag contains a comma of either kind. */
  lemma ParsedTagsHaveNoSeparator(s: string)
    ensures forall k :: 0 <= k < |ParseTags(s)| ==> Avoids(ParseTags(s)[k], TagSeparators)
  {
    var pieces := Split(s, TagSeparators);
    forall i | 0 <= i < |pieces| ensures Avoids(pieces[i], TagSeparators) {
    }
    NonEmptyTrimmedAvoids(pieces, TagSeparators);
  }

  /** A tag that `ParseTags` can give back: non-empty, trimmed, without commas. */
  predicate IsCleanTag(t: string) {
    t != "" && Trim(t) == t && Avoids(t, TagSeparators)
  }

  lemma Regroup(lead: string, t: string, j: string)
    ensures lead + (t + TagSeparator + j) == (lead + t) + [','] + (" " + j)
  {
    assert TagSeparator == [','] + " ";
  }

  /** A clean tag after white space still has no comma in it. */
  lemma AvoidsAfterSpaces(lead: string, t: string)
    requires forall m :: 0 <= m < |lead| ==> IsSpace(lead[m])
    requires Avoids(t, TagSeparators)
    ensures Avoids(lead + t, TagSeparators)
  {
    var a := lead + t;
    forall m | 0 <= m < |a| ensures a[m] !in TagSeparators {
      if m >= |lead| { assert a[m] == t[m - |lead|]; } else { assert IsSpace(lead[m]); }
    }
  }

  /** How a joined tag list, after some white space, splits: the first tag, then the rest. */
  lemma SplitJoinedTags(lead: string, tags: seq<string>)
    requires forall m :: 0 <= m < |lead| ==> IsSpace(lead[m])
    requires tags != [] && IsCleanTag(tags[0])
    ensures Split(lead + Join(tags, TagSeparator), TagSeparators) ==
              [lead + tags[0]] + (if |tags| == 1 then [] else Split(" " + Join(tags[1..], TagSeparator), TagSeparators))
  {
    var t := tags[0];
    var a := lead + t;
    AvoidsAfterSpaces(lead, t);
    if |tags| == 1 {
      assert lead + Join(tags, TagSeparator) == a;
      SplitWithoutSeparator(a, TagSeparators);
    } else {
      var j := Join(tags[1..], TagSeparator);
      assert lead + Join(tags, TagSeparator) == a + [','] + (" " + j) by {
        assert Join(tags, TagSeparator) == t + TagSeparator + j;
        Regroup(lead, t, j);
      }
      SplitAfterPiece(a, ',', " " + j, TagSeparators);
    }
  }

  /** White space contains no comma. */
  lemma SpacesAvoidSeparators(lead: string)
    requires forall m :: 0 <= m < |lead| ==> IsSpace(lead[m])
    ensures Avoids(lead, TagSeparators)
  {
    forall m | 0 <= m < |lead| ensures lead[m] !in TagSeparators {
      assert IsSpace(lead[m]);
    }
  }

  /** White space alone gives no tags. */
  lemma SpacesGiveNoTags(lead: string)
    requires forall m :: 0 <= m < |lead| ==> IsSpace(lead[m])
    ensures NonEmptyTrimmed(Split(lead, TagSeparators)) == []
  {
    SpacesAvoidSeparators(lead);
    SplitWithoutSeparator(lead, TagSeparators);
    TrimOfSpaces(lead);
    assert NonEmptyTrimmed([lead]) == [];
  }

  lemma {:induction false} ParseJoinedAfterSpaces(lead: string, tags: seq<string>)
    requires forall m :: 0 <= m < |lead| ==> IsSpace(lead[m])
    requires forall k :: 0 <= k < |tags| ==> IsCleanTag(tags[k])
    ensures NonEmptyTrimmed(Split(lead + Join(tags, TagSeparator), TagSeparators)) == tags
    decreases |tags|
  {
    if tags == [] {
      assert lead + Join(tags, TagSeparator) == lead;
      SpacesGiveNoTags(lead);
    } else {
      var t, rest := tags[0], tags[1..];
      assert tags == [t] + rest;
      var pieces := if |tags| == 1 then [] else Split(" " + Join(rest, TagSeparator), TagSeparators);
      assert Split(lead + Join(tags, TagSeparator), TagSeparators) == [lead + t] + pieces by {
        assert IsCleanTag(t);
        SplitJoinedTags(lead, tags);
      }
      assert NonEmptyTrimmed([lead + t] + pieces) == [t] + NonEmptyTrimmed(pieces) by {
        assert IsCleanTag(t);
        TrimAfterSpaces(lead, t);
        NonEmptyTrimmedCons(lead + t, pieces);
      }
      if |tags| > 1 {
        ParseJoinedAfterSpaces(" ", rest);
      }
    }
  }

  /** The tags an edit form shows, `tags.join(', ')`, parse back to the same tags. */
  lemma ParseJoinedTags(tags: seq<string>)
    requires forall k :: 0 <= k < |tags| ==> IsCleanTag(tags[k])
    ensures ParseTags(Join(tags, TagSeparator)) == tags
  {
    ParseJoinedAfterSpaces("", tags);
    assert "" + Join(tags, TagSeparator) == Join(tags, TagSeparator);
  }

  /** `prompts.map(p => p.category)`. */
  function CategoryColumn(prompts: seq<Prompt>): (r: seq<string>)
    ensures |r| == |prompts| && forall i :: 0 <= i < |prompts| ==> r[i] == prompts[i].category
  {
    seq(|prompts|, i requires 0 <= i < |prompts| => prompts[i].category)
  }

  /** The category tabs: "All", then every category once, in order of first appearance. */
  function Categories(prompts: seq<Prompt>): (r: seq<string>)
    ensures |r| >= 1 && r[0] == AllCategories
    ensures forall c :: c in r[1..] <==> exists i :: 0 <= i < |prompts| && prompts[i].category == c
    ensures forall i, j :: 1 <= i < j < |r| ==> r[i] != r[j]
    ensures forall i, j :: 1 <= i < j < |r| ==>
              && r[i] in CategoryColumn(prompts) && r[j] in CategoryColumn(prompts)
              && FirstIndex(CategoryColumn(prompts), r[i]) < FirstIndex(CategoryColumn(prompts), r[j])
  {
    var d := Distinct(CategoryColumn(prompts));
    var r := [AllCategories] + d;
    assert r[1..] == d;
    assert forall i :: 1 <= i < |r| ==> r[i] == d[i - 1];
    r
  }

  /** The search text occurs, ignoring case, in the title, the content or some tag. */
  predicate MatchesSearch(p: Prompt, search: string) {
    || ContainsIgnoringCase(p.title, search)
    || ContainsIgnoringCase(p.content, search)
    || exists k :: 0 <= k < |p.tags| && ContainsIgnoringCase(p.tags[k], search)
  }

  predicate MatchesCategory(p: Prompt, category: string) {
    category == AllCategories || p.category == category
  }

  /** The prompts shown for a search text and a selected category tab. */
  function Filtered(prompts: seq<Prompt>, search: string, category: string): (r: seq<Prompt>)
    ensures forall p :: p in r <==> p in prompts && MatchesSearch(p, search) && MatchesCategory(p, category)
    ensures Subsequence(r, prompts)
    ensures forall p :: multiset(r)[p] ==
              if MatchesSearch(p, search) && MatchesCategory(p, category) then multiset(prompts)[p] else 0
  {
    Filter(prompts, p => MatchesSearch(p, search) && MatchesCategory(p, category))
  }

  /** An empty search on the "All" tab shows the whole catalogue. */
  lemma UnfilteredShowsAll(prompts: seq<Prompt>)
    ensures Filtered(prompts, "", AllCategories) == prompts
  {
    forall i | 0 <= i < |prompts| ensures MatchesSearch(prompts[i], "") {
      EmptySearchMatches(prompts[i].title);
    }
    FilterKeepsAll(prompts, p => MatchesSearch(p, "") && MatchesCategory(p, AllCategories));
  }

  /** Does a change to this prompt go to the database rather than to the browser's storage? */
  predicate RoutedRemotely(remote: bool, id: string, isSystem: bool) {
    remote && (isSystem || !StartsWith(id, LocalPrefix))
  }

  /** The record sent on save, built from the form and the signed-in user. */
  function DataOf(form: Form, user: Option<User>): (d: PromptData)
    ensures d.title == form.title && d.content == form.content && d.tags == ParseTags(form.tags)
    ensures d.category != ""
    ensures form.category != "" ==> d.category == form.category
    ensures form.category == "" ==> d.category == DefaultCategory
    ensures d.isSystem <==> form.isSystem && user.Some? && user.value.role == Admin
    ensures d.authorName != ""
    ensures user.Some? && user.value.name != "" ==> d.authorName == user.value.name
  {
    PromptData(
      form.title,
      form.content,
      OrElse(form.category, DefaultCategory),
      ParseTags(form.tags),
      if user.Some? then Some(user.value.id) else None,
      OrDefault(if user.Some? then Some(user.value.name) else None, DefaultAuthor),
      form.isSystem && user.Some? && user.value.role == Admin)
  }

  /**
   * `{ ...p, ...promptData, tags }` read back as a catalogue entry: the text
   * fields and tags are replaced, while the id, the author and the
   * `isSystem` flag stay (the data's own keys are `author_name` and
   * `is_system`, which the entry does not read).
   */
  function Merged(p: Prompt, d: PromptData): (r: Prompt)
    ensures r.id == p.id && r.author == p.author && r.isSystem == p.isSystem
    ensures r.title == d.title && r.content == d.content && r.category == d.category && r.tags == d.tags
  {
    p.(title := d.title, content := d.content, category := d.category, tags := d.tags)
  }

  /** `ps.map(p => p.id === id ? merged : p)`. */
  function UpdateById(ps: seq<Prompt>, id: string, d: PromptData): (r: seq<Prompt>)
    ensures |r| == |ps|
    ensures forall i :: 0 <= i < |ps| ==> r[i].id == ps[i].id
    ensures forall i :: 0 <= i < |ps| && ps[i].id != id ==> r[i] == ps[i]
    ensures forall i :: 0 <= i < |ps| && ps[i].id == id ==> r[i] == Merged(ps[i], d)
  {
    seq(|ps|, i requires 0 <= i < |ps| => if ps[i].id == id then Merged(ps[i], d) else ps[i])
  }

  /** `ps.filter(p => p.id !== id)`. */
  function RemoveById(ps: seq<Prompt>, id: string): (r: seq<Prompt>)
    ensures forall p :: p in r <==> p in ps && p.id != id
    ensures Subsequence(r, ps)
    ensures forall p :: multiset(r)[p] == if p.id != id then multiset(ps)[p] else 0
  {
    Filter(ps, (p: Prompt) => p.id != id)
  }

  /** Removing an id no entry has leaves the list as it is. */
  lemma RemoveAbsentId(ps: seq<Prompt>, id: string)
    requires forall i :: 0 <= i < |ps| ==> ps[i].id != id
    ensures RemoveById(ps, id) == ps
  {
    FilterKeepsAll(ps, (p: Prompt) => p.id != id);
  }

  /** The entry a save creates when it does not go to the database; `now` is `Date.now()`. */
  function LocalPrompt(form: Form, user: Option<User>, now: nat): (p: Prompt)
    ensures StartsWith(p.id, LocalPrefix) && p.isSystem == Some(false)
    ensures p.title == form.title && p.content == form.content
    ensures p.category == DataOf(form, user).category && p.tags == ParseTags(form.tags)
    ensures p.author == Some(DataOf(form, user).authorName)
  {
    var d := DataOf(form, user);
    Prompt(LocalPrefix + Numbers.Decimal(now), form.title, form.content, d.category, d.tags, Some(d.authorName), Some(false))
  }

  /** Prompts created locally at different times get different ids. */
  lemma LocalIdsDiffer(form: Form, form': Form, user: Option<User>, now: nat, now': nat)
    requires now != now'
    ensures LocalPrompt(form, user, now).id != LocalPrompt(form', user, now').id
  {
    var a, b := Numbers.Decimal(now), Numbers.Decimal(now');
    if LocalPrefix + a == LocalPrefix + b {
      assert a == (LocalPrefix + a)[|LocalPrefix|..];
      assert b == (LocalPrefix + b)[|LocalPrefix|..];
      Numbers.ParseDecimal(now);
      Numbers.ParseDecimal(now');
    }
  }

  /** A locally created prompt is later deleted and updated in the browser's storage. */
  lemma LocalPromptStaysLocal(form: Form, user: Option<User>, now: nat, remote: bool)
    ensures var p := LocalPrompt(form, user, now);
            !RoutedRemotely(remote, p.id, p.isSystem == Some(true))
  {
  }

  /** What the edit form shows for an entry. */
  function FormOf(p: Prompt): (f: Form)
    ensures f.title == p.title && f.content == p.content && f.category == p.category
    ensures f.tags == Join(p.tags, TagSeparator)
    ensures f.isSystem <==> p.isSystem == Some(true)
  {
    Form(p.title, p.content, p.category, Join(p.tags, TagSeparator), p.isSystem == Some(true))
  }

  /** Opening an entry for editing and saving it untouched gives the same entry back. */
  lemma EditSaveRoundTrip(p: Prompt, user: Option<User>)
    requires p.category != ""
    requires forall k :: 0 <= k < |p.tags| ==> IsCleanTag(p.tags[k])
    ensures Merged(p, DataOf(FormOf(p), user)) == p
  {
    ParseJoinedTags(p.tags);
  }

  /** All built-in prompts carry the `sys_` prefix and the system flag. */
  lemma SystemPromptsAreBuiltIn()
    ensures forall i :: 0 <= i < |SystemPrompts| ==>
              StartsWith(SystemPrompts[i].id, BuiltInPrefix) && SystemPrompts[i].isSystem == Some(true)
  {
  }

  /** The catalogue page: its list, the browser's storage and the form. */
  class Catalogue {
    /** The signed-in user, if any. */
    const user: Option<User>
    /** Whether a database client is configured. */
    const remote: bool
    var prompts: seq<Prompt>
    var stored: LocalStore
    var searchTerm: string
    var selectedCategory: string
    var form: Form
    var editing: Option<Prompt>
    var modalOpen: bool

    constructor(user: Option<User>, remote: bool, stored: LocalStore)
      ensures this.user == user && this.remote == remote && this.stored == stored
      ensures prompts == [] && searchTerm == "" && selectedCategory == AllCategories
      ensures form == EmptyForm && editing == None && !modalOpen
    {
      this.user := user;
      this.remote := remote;
      this.stored := stored;
      prompts := [];
      searchTerm := "";
      selectedCategory := AllCategories;
      form := EmptyForm;
      editing := None;
      modalOpen := false;
    }

    /** The form is cleared and the modal closed. */
    predicate Closed()
      reads this
    {
      form == EmptyForm && editing == None && !modalOpen
    }

    /** The prompts the page shows. */
    function Shown(): (r: seq<Prompt>)
      reads this
      ensures forall p :: p in r <==> p in prompts && MatchesSearch(p, searchTerm) && MatchesCategory(p, selectedCategory)
    {
      Filtered(prompts, searchTerm, selectedCategory)
    }

    /**
     * `loadPrompts`: the built-in prompts, then the database rows (`dbRows`
     * is the query's `data`), then the browser's list; unreadable browser
     * data is skipped.
     */
    method Load(dbRows: Option<seq<PromptRow>>)
      modifies this`prompts
      ensures prompts ==
                SystemPrompts
                + (if remote && dbRows.Some? then FromRows(dbRows.value) else [])
                + (if stored.Stored? then stored.entries else [])
    {
      var allPrompts := SystemPrompts;
      if remote {
        if dbRows.Some? {
          allPrompts := allPrompts + FromRows(dbRows.value);
        }
      }
      if stored.Stored? {
        allPrompts := allPrompts + stored.entries;
      }
      prompts := allPrompts;
    }

    /**
     * `handleDelete`: `confirmed` is the user's answer to the confirmation
     * dialog and `deleteError` the database's error message, if any.
     * Unreadable browser data makes the handler throw, so nothing changes.
     */
    method Delete(id: string, isSystem: bool, confirmed: bool, deleteError: Option<string>)
      returns (alert: Option<string>)
      modifies this`prompts, this`stored
      ensures !confirmed ==> prompts == old(prompts) && stored == old(stored) && alert == None
      ensures confirmed && StartsWith(id, BuiltInPrefix) ==>
                prompts == old(prompts) && stored == old(stored) && alert == Some(CannotDelete)
      ensures confirmed && !StartsWith(id, BuiltInPrefix) && RoutedRemotely(remote, id, isSystem) ==>
                && stored == old(stored)
                && (deleteError.Some? ==> prompts == old(prompts) && alert == Some("Failed to delete: " + deleteError.value))
                && (deleteError.None? ==> prompts == RemoveById(old(prompts), id) && alert == None)
      ensures confirmed && !StartsWith(id, BuiltInPrefix) && !RoutedRemotely(remote, id, isSystem) ==>
                && alert == None
                && (old(stored).Corrupt? ==> prompts == old(prompts) && stored == old(stored))
                && (old(stored).Missing? ==> prompts == RemoveById(old(prompts), id) && stored == Missing)
                && (old(stored).Stored? ==>
                      prompts == RemoveById(old(prompts), id) && stored == Stored(RemoveById(old(stored).entries, id)))
      ensures forall p :: p in old(prompts) && StartsWith(p.id, BuiltInPrefix) ==> p in prompts
    {
      alert := None;
      if !confirmed {
        return;
      }
      if StartsWith(id, BuiltInPrefix) {
        alert := Some(CannotDelete);
        return;
      }
      if remote && (isSystem || !StartsWith(id, LocalPrefix)) {
        if deleteError.Some? {
          alert := Some("Failed to delete: " + deleteError.value);
          return;
        }
      } else {
        match stored
        case Missing =>
        case Corrupt =>
          return;
        case Stored(localPrompts) =>
          stored := Stored(RemoveById(localPrompts, id));
      }
      assert forall p: Prompt :: StartsWith(p.id, BuiltInPrefix) ==> p.id != id;
      prompts := RemoveById(prompts, id);
    }

    /** `handleEditPrompt`: built-in prompts are refused; others fill the form and open it. */
    method Edit(prompt: Prompt) returns (alert: Option<string>)
      modifies this`form, this`editing, this`modalOpen
      ensures StartsWith(prompt.id, BuiltInPrefix) ==>
                alert == Some(CannotEdit) && form == old(form) && editing == old(editing) && modalOpen == old(modalOpen)
      ensures !StartsWith(prompt.id, BuiltInPrefix) ==>
                alert == None && form == FormOf(prompt) && editing == Some(prompt) && modalOpen
    {
      if StartsWith(prompt.id, BuiltInPrefix) {
        alert := Some(CannotEdit);
        return;
      }
      alert := None;
      editing := Some(prompt);
      form := FormOf(prompt);
      modalOpen := true;
    }

    /**
     * `handleSavePrompt`. `now` is `Date.now()`; `updateError` and
     * `insertReply` are what the database answers to an update and to an insert.
     * A database error, or unreadable browser data (the handler throws),
     * ends the save before the form is cleared.
     */
    method Save(now: nat, updateError: Option<string>, insertReply: Result<Option<PromptRow>, string>)
      returns (alert: Option<string>)
      modifies this`prompts, this`stored, this`form, this`editing, this`modalOpen
      ensures old(form).title == "" || old(form).content == "" ==> unchanged(this) && alert == None
      ensures old(form).title != "" && old(form).content != "" && old(editing).Some? ==>
                var ep := old(editing).value;
                var d := DataOf(old(form), user);
                if RoutedRemotely(remote, ep.id, ep.isSystem == Some(true)) then
                  if updateError.Some? then
                    unchanged(this) && alert == Some("Failed to update: " + updateError.value)
                  else
                    prompts == UpdateById(old(prompts), ep.id, d) && stored == old(stored) && Closed() && alert == None
                else
                  match old(stored)
                  case Corrupt => unchanged(this) && alert == None
                  case Missing => prompts == old(prompts) && stored == Missing && Closed() && alert == None
                  case Stored(entries) =>
                    && prompts == UpdateById(old(prompts), ep.id, d)
                    && stored == Stored(UpdateById(entries, ep.id, d))
                    && Closed() && alert == None
      ensures old(form).title != "" && old(form).content != "" && old(editing).None? ==>
                if remote && (old(form).isSystem || user.Some?) then
                  match insertReply
                  case Failure(e) => unchanged(this) && alert == Some("Failed to save: " + e)
                  case Success(row) =>
                    && prompts == (if row.Some? then [FromRow(row.value)] else []) + old(prompts)
                    && stored == old(stored) && Closed() && alert == None
                else
                  var np := LocalPrompt(old(form), user, now);
                  match old(stored)
                  case Corrupt => unchanged(this) && alert == None
                  case Missing => prompts == [np] + old(prompts) && stored == Stored([np]) && Closed() && alert == None
                  case Stored(entries) =>
                    prompts == [np] + old(prompts) && stored == Stored(entries + [np]) && Closed() && alert == None
    {
      alert := None;
      if form.title == "" || form.content == "" {
        return;
      }
      var promptData := DataOf(form, user);
      if editing.Some? {
        var editingPrompt := editing.value;
        if remote && (editingPrompt.isSystem == Some(true) || !StartsWith(editingPrompt.id, LocalPrefix)) {
          if updateError.Some? {
            alert := Some("Failed to update: " + updateError.value);
            return;
          }
          prompts := UpdateById(prompts, editingPrompt.id, promptData);
        } else {
          match stored
          case Missing =>
          case Corrupt =>
            return;
          case Stored(localPrompts) =>
            stored := Stored(UpdateById(localPrompts, editingPrompt.id, promptData));
            prompts := UpdateById(prompts, editingPrompt.id, promptData);
        }
      } else {
        if remote && (form.isSystem || user.Some?) {
          match insertReply
          case Failure(e) =>
            alert := Some("Failed to save: " + e);
            return;
          case Success(data) =>
            if data.Some? {
              prompts := [FromRow(data.value)] + prompts;
            }
        } else {
          var newPrompt := LocalPrompt(form, user, now);
          var localPrompts;
          match stored {
            case Missing =>
              localPrompts := [];
            case Corrupt =>
              return;
            case Stored(entries) =>
              localPrompts := entries;
          }
          stored := Stored(localPrompts + [newPrompt]);
          prompts := [newPrompt] + prompts;
        }
      }
      form := EmptyForm;
      editing := None;
      modalOpen := false;
    }
  }
}
