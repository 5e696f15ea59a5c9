/**
 * The page editor (views/Editor.tsx): its state, the upload and AI handlers
 * that replace the page, and the save payload with the title read from the
 * page's `<title>` element.
 */
module SiteEditor {
  import opened Wrappers
  import opened Strings
  import opened Types

  const TitleOpen := "<title>"
  const TitleClose := "</title>"

  /** The title saved when neither the page nor the user gives one. */
  const UntitledSite := "未命名网站"
  /** The title a generated page gets when there is none yet. */
  const GeneratedTitle := "AI 生成的网站"
  /** The alert shown when generation fails. */
  const GenerationFailed := "生成代码失败。请检查您的 API Key 并重试。"

  /** The page a new site starts from. */
  const StarterPage := StarterHead + TitleOpen + "我的网站" + TitleClose + StarterRest

  /** The starter page after its `</title>`. */
  const StarterRest :=
    "\n"
    + "    <script src=\"https://cdn.tailwindcss.com\"></script>\n"
    + "</head>\n"
    + "<body class=\"bg-gray-100 min-h-screen flex items-center justify-center\">\n"
    + "    <div class=\"bg-white p-8 rounded-lg shadow-lg text-center\">\n"
    + "        <h1 class=\"text-4xl font-bold text-indigo-600 mb-4\">你好，世界</h1>\n"
    + "        <p class=\"text-gray-600\">欢迎来到我的个人主页。</p>\n"
    + "    </div>\n"
    + "</body>\n"
    + "</html>"

  /**
   * `<title>` at `k`, letters in either case. The `i` flag folds only ASCII
   * letters onto ASCII letters, so ASCII lowering is exact here.
   */
  predicate OpensAt(s: string, k: int) {
    && 0 <= k && k + 7 <= |s|
    && s[k] == '<' && LowerChar(s[k + 1]) == 't' && LowerChar(s[k + 2]) == 'i'
    && LowerChar(s[k + 3]) == 't' && LowerChar(s[k + 4]) == 'l' && LowerChar(s[k + 5]) == 'e'
    && s[k + 6] == '>'
  }

  /** `</title>` at `k`, letters in either case. */
  predicate ClosesAt(s: string, k: int) {
    && 0 <= k && k + 8 <= |s|
    && s[k] == '<' && s[k + 1] == '/' && LowerChar(s[k + 2]) == 't' && LowerChar(s[k + 3]) == 'i'
    && LowerChar(s[k + 4]) == 't' && LowerChar(s[k + 5]) == 'l' && LowerChar(s[k + 6]) == 'e'
    && s[k + 7] == '>'
  }

  /**
   * The lazy `(.*?)` of the title pattern, started at `q` and now at `e`:
   * the first index from `e` on where `</title>` follows, provided no line
   * terminator comes first.
   */
  function TitleEnd(s: string, q: nat, e: nat): (r: Option<nat>)
    requires q <= e <= |s|
    requires forall m :: q <= m < e ==> !IsLineTerminator(s[m])
    ensures r.Some? ==> e <= r.value && ClosesAt(s, r.value)
    ensures r.Some? ==> forall m :: q <= m < r.value ==> !IsLineTerminator(s[m])
    ensures r.Some? ==> forall m :: e <= m < r.value ==> !ClosesAt(s, m)
    ensures r.None? ==> forall m :: e <= m <= LineEnd(s, e) ==> !ClosesAt(s, m)
    decreases |s| - e
  {
    if ClosesAt(s, e) then Some(e)
    else if e < |s| && !IsLineTerminator(s[e]) then TitleEnd(s, q, e + 1)
    else None
  }

  /**
   * `<title>(.*?)<\/title>` tried at index `i`: the bounds of the capture,
   * which runs to the first `</title>` on the line; there is none exactly
   * when no `</title>` starts before the line ends.
   */
  function MatchTitleAt(s: string, i: nat): (r: Option<(nat, nat)>)
    ensures r.Some? ==> OpensAt(s, i) && r.value.0 == i + |TitleOpen| <= r.value.1 <= |s|
    ensures r.Some? ==> ClosesAt(s, r.value.1)
    ensures r.Some? ==> forall m :: r.value.0 <= m < r.value.1 ==> !IsLineTerminator(s[m]) && !ClosesAt(s, m)
    ensures OpensAt(s, i) && r.None? ==>
              forall m :: i + |TitleOpen| <= m <= LineEnd(s, i + |TitleOpen|) ==> !ClosesAt(s, m)
  {
    if OpensAt(s, i) then
      var q := i + |TitleOpen|;
      var e := TitleEnd(s, q, q);
      if e.Some? then Some((q, e.value)) else None
    else None
  }

  /** Where the leftmost match from index `i` on starts. */
  function MatchTitleFrom(s: string, i: nat): (r: Option<nat>)
    requires i <= |s|
    ensures r.Some? ==> i <= r.value <= |s| && MatchTitleAt(s, r.value).Some?
    ensures forall j :: i <= j <= |s| && MatchTitleAt(s, j).Some? ==> r.Some? && r.value <= j
    decreases |s| - i
  {
    if MatchTitleAt(s, i).Some? then Some(i) else if i == |s| then None else MatchTitleFrom(s, i + 1)
  }

  /**
   * The capture of the leftmost match, if there is one: the text between the
   * first `<title>` that is closed on its own line and the first `</title>`
   * after it.
   */
  function TitleCapture(html: string): (r: Option<string>)
    ensures r.None? <==> forall j :: 0 <= j <= |html| ==> MatchTitleAt(html, j).None?
    ensures r.Some? ==>
              exists i :: 0 <= i <= |html| && MatchTitleAt(html, i).Some?
                          && (forall j :: 0 <= j < i ==> MatchTitleAt(html, j).None?)
                          && r.value == html[MatchTitleAt(html, i).value.0..MatchTitleAt(html, i).value.1]
  {
    var i := MatchTitleFrom(html, 0);
    if i.Some? then
      var b := MatchTitleAt(html, i.value).value;
      Some(html[b.0..b.1])
    else None
  }

  /** `html.match(/<title>(.*?)<\/title>/i)`, with its capture trimmed when it is non-empty. */
  function ExtractTitle(html: string): (t: string)
    ensures t == Trim(t)
    ensures TitleCapture(html).Some? ==> t == Trim(TitleCapture(html).value)
    ensures TitleCapture(html).None? ==> t == ""
  {
    var c := TitleCapture(html);
    if c.Some? && c.value != "" then
      TrimIdempotent(c.value);
      Trim(c.value)
    else
      assert Trim("") == "";
      ""
  }

  /** `extractedTitle || title || '未命名网站'`. */
  function SavedTitle(extracted: string, typed: string): (r: string)
    ensures r != ""
    ensures extracted != "" ==> r == extracted
    ensures extracted == "" && typed != "" ==> r == typed
    ensures extracted == "" && typed == "" ==> r == UntitledSite
  {
    OrElse(OrElse(extracted, typed), UntitledSite)
  }

  /** `file.name.replace('.html', '')`: the first `.html` is cut out. */
  function UploadTitle(fileName: string): (r: string)
    ensures !Contains(fileName, ".html") ==> r == fileName
    ensures Contains(fileName, ".html") ==>
              var k := IndexOf(fileName, ".html");
              && 0 <= k && k + 5 <= |fileName| && fileName[k..k + 5] == ".html"
              && (forall j :: 0 <= j < k ==> !At(fileName, ".html", j))
              && r == fileName[..k] + fileName[k + 5..]
  {
    ReplaceFirst(fileName, ".html", "")
  }

  /** A file name without dots followed by `.html` gives the bare name. */
  lemma UploadTitleDropsExtension(name: string)
    requires '.' !in name
    ensures UploadTitle(name + ".html") == name
  {
    var s := name + ".html";
    assert At(s, ".html", |name|) by {
      assert s[|name|..|name| + 5] == ".html";
    }
    forall j | 0 <= j < |name| ensures !At(s, ".html", j) {
      assert s[j] == name[j];
      NotAtFirstCharDiffers(s, ".html", j);
    }
    assert s[..|name|] == name;
  }

  /** The scan for `</title>` runs over one line without a close up to a close at `stop`. */
  lemma {:induction false} TitleEndReaches(s: string, q: nat, e: nat, stop: nat)
    requires q <= e <= stop <= |s|
    requires forall m :: q <= m < stop ==> !IsLineTerminator(s[m]) && !ClosesAt(s, m)
    requires ClosesAt(s, stop)
    ensures TitleEnd(s, q, e) == Some(stop)
    decreases stop - e
  {
    if e < stop {
      TitleEndReaches(s, q, e + 1, stop);
    }
  }

  /**
   * A page whose first `<title>` (in any case) starts at `i` and is closed
   * at `stop` on the same line, with no other `</title>` between, yields the
   * text between, trimmed.
   */
  lemma TitleOfPage(s: string, i: nat, stop: nat)
    requires OpensAt(s, i) && i + |TitleOpen| <= stop
    requires forall j :: 0 <= j < i ==> !OpensAt(s, j)
    requires ClosesAt(s, stop)
    requires forall m :: i + |TitleOpen| <= m < stop ==> !IsLineTerminator(s[m]) && !ClosesAt(s, m)
    ensures ExtractTitle(s) == Trim(s[i + |TitleOpen|..stop])
  {
    var q := i + |TitleOpen|;
    TitleEndReaches(s, q, q, stop);
    assert MatchTitleAt(s, i) == Some((q, stop));
    var f := MatchTitleFrom(s, 0);
    assert f.Some?;
    assert f.value == i;
  }

  /**
   * A page whose only `<title>` starts at `i` and has a line break at `nl`
   * before any `</title>` is not matched, so the page gives no title.
   */
  lemma BrokenTitleGivesNone(s: string, i: nat, nl: nat)
    requires OpensAt(s, i) && i + |TitleOpen| <= nl < |s| && IsLineTerminator(s[nl])
    requires forall m :: i + |TitleOpen| <= m < nl ==> !ClosesAt(s, m)
    requires forall j :: 0 <= j <= |s| && j != i ==> !OpensAt(s, j)
    ensures ExtractTitle(s) == ""
  {
    var r := MatchTitleAt(s, i);
    assert !ClosesAt(s, nl);
    assert r.None?;
    forall j | 0 <= j <= |s| ensures MatchTitleAt(s, j).None? {
      if j != i {
        assert !OpensAt(s, j);
      }
    }
  }

  /** No `<` in `x` starts `<t` or `<T`, so no `<title>` can open in `x`. */
  predicate NoTitleOpenIn(x: string) {
    forall j :: 0 <= j < |x| && x[j] == '<' ==> j + 1 < |x| && LowerChar(x[j + 1]) != 't'
  }

  lemma NoTitleOpenInPlain(x: string)
    requires '<' !in x
    ensures NoTitleOpenIn(x)
  {
    forall j | 0 <= j < |x| ensures x[j] != '<' { }
  }

  lemma NoTitleOpenInTag(x: string)
    requires '<' !in x && x != [] && LowerChar(x[0]) != 't'
    ensures NoTitleOpenIn("<" + x)
  {
    forall j | 1 <= j < |"<" + x| ensures ("<" + x)[j] != '<' {
      assert ("<" + x)[j] == x[j - 1];
    }
  }

  lemma NoTitleOpenInAppend(a: string, b: string)
    requires NoTitleOpenIn(a) && NoTitleOpenIn(b)
    ensures NoTitleOpenIn(a + b)
  {
    forall j | 0 <= j < |a + b| && (a + b)[j] == '<' ensures j + 1 < |a + b| && LowerChar((a + b)[j + 1]) != 't' {
      if j < |a| {
        assert (a + b)[j + 1] == a[j + 1];
      } else {
        assert (a + b)[j] == b[j - |a|];
        assert (a + b)[j + 1] == b[j + 1 - |a|];
      }
    }
  }

  /** A page whose first `<title>` is `<title>t</title>`, with `t` on one line and free of `<`, gives `t`, trimmed. */
  lemma TitleAfterHead(head: string, t: string, rest: string)
    requires NoTitleOpenIn(head) && '<' !in t
    requires forall m :: 0 <= m < |t| ==> !IsLineTerminator(t[m])
    ensures ExtractTitle(head + TitleOpen + t + TitleClose + rest) == Trim(t)
  {
    var s := head + TitleOpen + t + TitleClose + rest;
    var i := |head|;
    var q := i + |TitleOpen|;
    var stop := q + |t|;
    assert s[i..q] == TitleOpen;
    assert s[q..stop] == t;
    assert s[stop..stop + |TitleClose|] == TitleClose;
    assert OpensAt(s, i) by {
      forall m | 0 <= m < |TitleOpen| ensures s[i + m] == TitleOpen[m] {
        assert s[i + m] == s[i..q][m];
      }
    }
    assert ClosesAt(s, stop) by {
      forall m | 0 <= m < |TitleClose| ensures s[stop + m] == TitleClose[m] {
        assert s[stop + m] == s[stop..stop + |TitleClose|][m];
      }
    }
    forall m | q <= m < stop ensures !IsLineTerminator(s[m]) && !ClosesAt(s, m) {
      assert s[m] == t[m - q];
    }
    forall j | 0 <= j < i ensures !OpensAt(s, j) {
      assert s[j] == head[j];
      if head[j] == '<' {
        assert s[j + 1] == head[j + 1];
      }
    }
    TitleOfPage(s, i, stop);
  }

  /** The starter page up to its `<title>`, cut before each `<`. */
  const StarterHead :=
    ("<" + "!DOCTYPE html>\n") + ("<" + "html lang=\"zh-CN\">\n") + ("<" + "head>\n    ")
    + ("<" + "meta charset=\"UTF-8\">\n    ") + StarterViewport

  /** The starter page's viewport `<meta>` line. */
  const StarterViewport :=
    ("<" + "meta name=\"viewport\" ") + "content=\"width=device-width, " + "initial-scale=1.0\">\n    "

  lemma StarterHeadHasNoTitle()
    ensures NoTitleOpenIn(StarterHead)
  {
    var a := "<" + "!DOCTYPE html>\n";
    var b := "<" + "html lang=\"zh-CN\">\n";
    var c := "<" + "head>\n    ";
    var d := "<" + "meta charset=\"UTF-8\">\n    ";
    NoTitleOpenInTag("!DOCTYPE html>\n");
    NoTitleOpenInTag("html lang=\"zh-CN\">\n");
    NoTitleOpenInTag("head>\n    ");
    NoTitleOpenInTag("meta charset=\"UTF-8\">\n    ");
    NoTitleOpenInAppend(a, b);
    NoTitleOpenInAppend(a + b, c);
    NoTitleOpenInAppend(a + b + c, d);
    StarterViewportHasNoTitle();
    NoTitleOpenInAppend(a + b + c + d, StarterViewport);
  }

  lemma StarterViewportHasNoTitle()
    ensures NoTitleOpenIn(StarterViewport)
  {
    var e := "<" + "meta name=\"viewport\" ";
    var f := "content=\"width=device-width, ";
    var g := "initial-scale=1.0\">\n    ";
    NoTitleOpenInTag("meta name=\"viewport\" ");
    NoTitleOpenInPlain(f);
    NoTitleOpenInPlain(g);
    NoTitleOpenInAppend(e, f);
    NoTitleOpenInAppend(e + f, g);
  }

  /** The starter page's title is read back as `我的网站`. */
  lemma StarterPageTitle()
    ensures ExtractTitle(StarterPage) == "我的网站"
  {
    StarterHeadHasNoTitle();
    TitleAfterHead(StarterHead, "我的网站", StarterRest);
    TrimOfTrimmed("我的网站");
  }

  /** The editor's state; the controls write `title`, `html`, `aiPrompt` and the two flags directly. */
  class Editor {
    const initialSite: Option<Site>
    var html: string
    var title: string
    var isPublic: bool
    var allowSourceDownload: bool
    var aiPrompt: string
    var isAiGenerating: bool

    /** The initial state, then the effect that loads the site being edited, flags defaulting to true. */
    constructor (initialSite: Option<Site>)
      ensures this.initialSite == initialSite
      ensures initialSite.None? ==> html == StarterPage && title == "" && isPublic && allowSourceDownload
      ensures initialSite.Some? ==>
                && html == initialSite.value.htmlContent
                && title == initialSite.value.title
                && isPublic == initialSite.value.isPublic.GetOr(true)
                && allowSourceDownload == initialSite.value.allowSourceDownload.GetOr(true)
      ensures aiPrompt == "" && !isAiGenerating
    {
      this.initialSite := initialSite;
      html := StarterPage;
      title := "";
      isPublic := true;
      allowSourceDownload := true;
      aiPrompt := "";
      isAiGenerating := false;
      if initialSite.Some? {
        var site := initialSite.value;
        title := site.title;
        html := site.htmlContent;
        isPublic := if site.isPublic.Some? then site.isPublic.value else true;
        allowSourceDownload := if site.allowSourceDownload.Some? then site.allowSourceDownload.value else true;
      }
    }

    /** The save button is enabled when the page is not all white space. */
    predicate CanSave(): (b: bool)
      reads this
      ensures b <==> exists m :: 0 <= m < |html| && !IsSpace(html[m])
    {
      TrimEmptyIff(html);
      Trim(html) != ""
    }

    /** The generate button is enabled when the prompt is not all white space. */
    predicate CanGenerate(): (b: bool)
      reads this
      ensures b <==> exists m :: 0 <= m < |aiPrompt| && !IsSpace(aiPrompt[m])
    {
      TrimEmptyIff(aiPrompt);
      Trim(aiPrompt) != ""
    }

    /** An uploaded file, once read, replaces the page; it names a new, untitled site. */
    method UploadFile(fileName: string, content: string)
      modifies this
      ensures html == content
      ensures title == if old(title) == "" && initialSite.None? then UploadTitle(fileName) else old(title)
      ensures isPublic == old(isPublic) && allowSourceDownload == old(allowSourceDownload)
      ensures aiPrompt == old(aiPrompt) && isAiGenerating == old(isAiGenerating)
    {
      html := content;
      if title == "" && initialSite.None? {
        title := UploadTitle(fileName);
      }
    }

    /**
     * `handleAiGenerate`, with the service call as `generate`: a blank prompt
     * does nothing; a failure keeps the page and returns the alert text.
     */
    method AiGenerate(generate: string -> Result<string, string>) returns (alert: Option<string>)
      modifies this
      ensures Trim(old(aiPrompt)) == "" ==>
                alert.None? && html == old(html) && title == old(title) && isAiGenerating == old(isAiGenerating)
      ensures Trim(old(aiPrompt)) != "" ==> !isAiGenerating
      ensures Trim(old(aiPrompt)) != "" && generate(old(aiPrompt)).Success? ==>
                && alert.None?
                && html == generate(old(aiPrompt)).value
                && title == if old(title) == "" && initialSite.None? then GeneratedTitle else old(title)
      ensures Trim(old(aiPrompt)) != "" && generate(old(aiPrompt)).Failure? ==>
                alert == Some(GenerationFailed) && html == old(html) && title == old(title)
      ensures aiPrompt == old(aiPrompt) && isPublic == old(isPublic)
      ensures allowSourceDownload == old(allowSourceDownload)
    {
      alert := None;
      if Trim(aiPrompt) == "" {
        return;
      }
      isAiGenerating := true;
      var reply := generate(aiPrompt);
      if reply.Success? {
        html := reply.value;
        if title == "" && initialSite.None? {
          title := GeneratedTitle;
        }
      } else {
        alert := Some(GenerationFailed);
      }
      isAiGenerating := false;
    }

    /** `handleSave`: the payload handed to the application. */
    method Save() returns (r: SaveRequest)
      ensures r.id == if initialSite.Some? then Some(initialSite.value.id) else None
      ensures r.title == SavedTitle(ExtractTitle(html), title)
      ensures r.htmlContent == html
      ensures r.isPublic == isPublic && r.allowSourceDownload == allowSourceDownload
    {
      var extractedTitle := "";
      var titleMatch := TitleCapture(html);
      if titleMatch.Some? && titleMatch.value != "" {
        extractedTitle := Trim(titleMatch.value);
      }
      var id := if initialSite.Some? then Some(initialSite.value.id) else None;
      r := SaveRequest(id, OrElse(OrElse(extractedTitle, title), UntitledSite), html, isPublic, allowSourceDownload);
    }
  }
}
