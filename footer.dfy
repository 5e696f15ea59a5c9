/**
 * The attribution footer that the application adds to every page it saves
 * (App.tsx, `handleSaveSite`): a style block placed before the first
 * `</head>` and a footer placed before the last `</body>`, skipped when the
 * page already mentions `#hg-footer`.
 */
module FooterInjection {
  import opened Strings

  /** The text whose presence marks a page that already carries the footer. */
  const Marker := "#hg-footer"
  const HeadClose := "</head>"
  const BodyClose := "</body>"

  const StylesHead :=
    "\n      <style>\n"
    + "        html, body { min-height: 100%; margin: 0; }\n"
    + "        body { display: flex; flex-direction: column; }\n"
    + "        "
  const StylesTail :=
    " { \n"
    + "          margin-top: auto;\n"
    + "          padding: 10px 0;\n"
    + "          width: 100%;\n"
    + "          text-align: center;\n"
    + "          font-size: 12px;\n"
    + "          opacity: 0.6;\n"
    + "          z-index: 9999;\n"
    + "          background: transparent;\n"
    + "          color: inherit; \n"
    + "          font-family: inherit;\n"
    + "        }\n"
    + "        #hg-footer a {\n"
    + "          color: inherit;\n"
    + "          text-decoration: none;\n"
    + "          font-weight: bold;\n"
    + "        }\n"
    + "        #hg-footer a:hover {\n"
    + "          text-decoration: underline;\n"
    + "        }\n"
    + "        #hg-footer p {\n"
    + "          margin: 2px 0;\n"
    + "        }\n"
    + "      </style>\n"
    + "    "

  /** The style block; its first rule is the one for `#hg-footer`. */
  const FooterStyles := StylesHead + Marker + StylesTail

  /** The footer markup, linking back to the application's origin `appUrl`. */
  function FooterHtml(appUrl: string): string {
    "\n      <!-- HostGenie Footer -->\n"
    + "      <footer id=\"hg-footer\">\n"
    + "        <p>托管于 <a href=\"" + appUrl + "\" target=\"_blank\">HostGenie</a></p>\n"
    + "        <p>技术支持微信：35808387</p>\n"
    + "      </footer>\n"
    + "    "
  }

  /** `s.slice(0, i) + t + s.slice(i)`. */
  function Insert(s: string, i: nat, t: string): (r: string)
    requires i <= |s|
    ensures |r| == |s| + |t|
    ensures r[..i] == s[..i] && r[i..i + |t|] == t && r[i + |t|..] == s[i..]
  {
    s[..i] + t + s[i..]
  }

  /** Cuts `n` characters out of `s` at index `i`. */
  function Remove(s: string, i: nat, n: nat): (r: string)
    requires i + n <= |s|
    ensures |r| == |s| - n
  {
    s[..i] + s[i + n..]
  }

  /** The inserted text occurs in the result where it was put. */
  lemma AtInserted(s: string, i: nat, t: string, p: string, m: int)
    requires i <= |s| && At(t, p, m)
    ensures At(Insert(s, i, t), p, i + m)
  {
    var r := Insert(s, i, t);
    assert r[i + m..i + m + |p|] == r[i..i + |t|][m..m + |p|];
  }

  /** An occurrence that ends before the insertion point stays where it was. */
  lemma AtBeforeInsert(s: string, i: nat, t: string, p: string, k: int)
    requires i <= |s| && At(s, p, k) && k + |p| <= i
    ensures At(Insert(s, i, t), p, k)
  {
    var r := Insert(s, i, t);
    assert r[k..k + |p|] == r[..i][k..k + |p|];
    assert s[k..k + |p|] == s[..i][k..k + |p|];
  }

  /** An occurrence that starts at or after the insertion point moves by the inserted length. */
  lemma AtAfterInsert(s: string, i: nat, t: string, p: string, k: int)
    requires i <= |s| && At(s, p, k) && i <= k
    ensures At(Insert(s, i, t), p, k + |t|)
  {
    var r := Insert(s, i, t);
    assert r[k + |t|..k + |t| + |p|] == r[i + |t|..][k - i..k - i + |p|];
    assert s[k..k + |p|] == s[i..][k - i..k - i + |p|];
  }

  /** Where the style block goes: the first `</head>`, or the start of the page. */
  function StylePoint(html: string): (i: nat)
    ensures i <= |html|
    ensures Contains(html, HeadClose) ==>
              At(html, HeadClose, i) && forall j :: 0 <= j < i ==> !At(html, HeadClose, j)
    ensures !Contains(html, HeadClose) ==> i == 0
  {
    var k := IndexOf(html, HeadClose);
    if k == -1 then 0 else k
  }

  /** Where the footer goes: the last `</body>`, or the end of the page. */
  function BodyPoint(s: string): (i: nat)
    ensures i <= |s|
    ensures Contains(s, BodyClose) ==>
              At(s, BodyClose, i) && forall j :: i < j ==> !At(s, BodyClose, j)
    ensures !Contains(s, BodyClose) ==> i == |s|
  {
    var k := LastIndexOf(s, BodyClose);
    if k == -1 then |s| else k
  }

  /** The page after a style block `styles` is added. */
  function Styled(html: string, styles: string): string {
    Insert(html, StylePoint(html), styles)
  }

  /** The injection for any style block and footer texts. */
  function InjectedWith(html: string, styles: string, footer: string): string {
    if Contains(html, Marker) then html
    else
      var mid := Styled(html, styles);
      Insert(mid, BodyPoint(mid), footer)
  }

  /** The page as it is stored: the specification of `InjectFooter`. */
  function Injected(html: string, appUrl: string): string {
    InjectedWith(html, FooterStyles, FooterHtml(appUrl))
  }

  /** `handleSaveSite`'s rewriting of `finalHtml`, one step at a time. */
  method InjectFooter(html: string, appUrl: string) returns (finalHtml: string)
    ensures finalHtml == Injected(html, appUrl)
    ensures Contains(html, Marker) ==> finalHtml == html
  {
    var footerStyles, footerHtml := FooterStyles, FooterHtml(appUrl);
    finalHtml := InjectSteps(html, footerStyles, footerHtml);
  }

  method InjectSteps(html: string, footerStyles: string, footerHtml: string) returns (finalHtml: string)
    ensures finalHtml == InjectedWith(html, footerStyles, footerHtml)
  {
    finalHtml := html;
    if !Contains(finalHtml, Marker) {
      var headCloseIndex := IndexOf(finalHtml, HeadClose);
      if headCloseIndex != -1 {
        finalHtml := finalHtml[..headCloseIndex] + footerStyles + finalHtml[headCloseIndex..];
      } else {
        finalHtml := footerStyles + finalHtml;
      }
      assert finalHtml == Styled(html, footerStyles) by {
        StylePointIsIndexOf(html);
        assert html[..0] == [] && html[0..] == html;
      }
      var mid := finalHtml;
      var bodyCloseIndex := LastIndexOf(finalHtml, BodyClose);
      if bodyCloseIndex != -1 {
        finalHtml := finalHtml[..bodyCloseIndex] + footerHtml + finalHtml[bodyCloseIndex..];
      } else {
        finalHtml := finalHtml + footerHtml;
      }
      assert finalHtml == Insert(mid, BodyPoint(mid), footerHtml) by {
        BodyPointIsLastIndexOf(mid);
        assert mid[..|mid|] == mid && mid[|mid|..] == [];
      }
    }
  }

  lemma StylePointIsIndexOf(html: string)
    ensures StylePoint(html) == if IndexOf(html, HeadClose) == -1 then 0 else IndexOf(html, HeadClose)
  {
  }

  lemma BodyPointIsLastIndexOf(s: string)
    ensures BodyPoint(s) == if LastIndexOf(s, BodyClose) == -1 then |s| else LastIndexOf(s, BodyClose)
  {
  }

  lemma MarkerInStyles()
    ensures At(FooterStyles, Marker, |StylesHead|)
  {
    assert FooterStyles[|StylesHead|..|StylesHead| + |Marker|] == Marker;
  }

  /** A `</body>` cannot start inside the marker, none of whose characters is '<'. */
  lemma BodyCloseNotInsideMarker(s: string, k: int, b: int)
    requires At(s, Marker, k) && At(s, BodyClose, b)
    ensures b <= k || k + |Marker| <= b
  {
    AtFirstChar(s, BodyClose, b);
    assert forall j :: k <= j < k + |Marker| ==> s[j] == Marker[j - k] by {
      assert s[k..k + |Marker|] == Marker;
    }
  }

  /** A style block with the marker at `m`, after which a footer is placed, leaves the marker in the page. */
  lemma InjectedWithHasMarker(html: string, styles: string, footer: string, m: nat)
    requires At(styles, Marker, m)
    ensures Contains(InjectedWith(html, styles, footer), Marker)
  {
    if !Contains(html, Marker) {
      var a := StylePoint(html);
      AtInserted(html, a, styles, Marker, m);
      MarkerSurvivesFooter(Styled(html, styles), footer, a + m);
    }
  }

  /** Placing the footer keeps a marker already in the page. */
  lemma MarkerSurvivesFooter(mid: string, footer: string, k: int)
    requires At(mid, Marker, k)
    ensures Contains(Insert(mid, BodyPoint(mid), footer), Marker)
  {
    var b := BodyPoint(mid);
    if Contains(mid, BodyClose) {
      BodyCloseNotInsideMarker(mid, k, b);
    }
    if k + |Marker| <= b {
      AtBeforeInsert(mid, b, footer, Marker, k);
    } else {
      AtAfterInsert(mid, b, footer, Marker, k);
    }
  }

  /** Every page the injection produces carries the marker. */
  lemma InjectedHasMarker(html: string, appUrl: string)
    ensures Contains(Injected(html, appUrl), Marker)
  {
    MarkerInStyles();
    InjectedWithHasMarker(html, FooterStyles, FooterHtml(appUrl), |StylesHead|);
  }

  /** Saving a saved page again leaves it as it is. */
  lemma InjectedIdempotent(html: string, appUrl: string, appUrl': string)
    ensures Injected(Injected(html, appUrl), appUrl') == Injected(html, appUrl)
  {
    InjectedHasMarker(html, appUrl);
  }

  /** The style block sits right before the first `</head>` of the page, or at its start. */
  lemma StylesBeforeFirstHeadClose(html: string, styles: string)
    ensures var a := StylePoint(html);
            && Styled(html, styles)[..a] == html[..a]
            && Styled(html, styles)[a..a + |styles|] == styles
            && Styled(html, styles)[a + |styles|..] == html[a..]
            && (Contains(html, HeadClose) ==>
                  StartsWith(html[a..], HeadClose) && !Contains(html[..a + |HeadClose| - 1], HeadClose))
            && (!Contains(html, HeadClose) ==> a == 0)
  {
    FirstHeadClose(html);
  }

  /** The first `</head>` starts at the style point, and none ends before it. */
  lemma FirstHeadClose(html: string)
    ensures var a := StylePoint(html);
            Contains(html, HeadClose) ==>
              StartsWith(html[a..], HeadClose) && !Contains(html[..a + |HeadClose| - 1], HeadClose)
  {
    var a := StylePoint(html);
    if Contains(html, HeadClose) {
      assert html[a..][..|HeadClose|] == html[a..a + |HeadClose|];
      var n := a + |HeadClose| - 1;
      if Contains(html[..n], HeadClose) {
        var j :| At(html[..n], HeadClose, j);
        AtInPrefix(html, n, HeadClose, j);
      }
    }
  }

  /** The footer sits right before the last `</body>` of the styled page, or at its end. */
  lemma FooterBeforeLastBodyClose(html: string, styles: string, footer: string)
    requires !Contains(html, Marker)
    ensures var mid := Styled(html, styles);
            var b := BodyPoint(mid);
            var out := InjectedWith(html, styles, footer);
            && out[..b] == mid[..b]
            && out[b..b + |footer|] == footer
            && out[b + |footer|..] == mid[b..]
            && (Contains(mid, BodyClose) ==>
                  StartsWith(mid[b..], BodyClose) && !Contains(mid[b + 1..], BodyClose))
            && (!Contains(mid, BodyClose) ==> b == |mid|)
  {
    LastBodyClose(Styled(html, styles));
  }

  /** The last `</body>` starts at the footer point. */
  lemma LastBodyClose(mid: string)
    ensures var b := BodyPoint(mid);
            Contains(mid, BodyClose) ==> StartsWith(mid[b..], BodyClose) && !Contains(mid[b + 1..], BodyClose)
  {
    var b := BodyPoint(mid);
    if Contains(mid, BodyClose) {
      assert mid[b..][..|BodyClose|] == mid[b..b + |BodyClose|];
      if Contains(mid[b + 1..], BodyClose) {
        var j :| At(mid[b + 1..], BodyClose, j);
        AtInSuffix(mid, b + 1, BodyClose, j);
      }
    }
  }

  /** Cutting the two inserted blocks out of the stored page gives back the user's page exactly. */
  lemma RemovingBlocksRestoresPage(html: string, styles: string, footer: string)
    requires !Contains(html, Marker)
    ensures var mid := Styled(html, styles);
            var out := InjectedWith(html, styles, footer);
            Remove(Remove(out, BodyPoint(mid), |footer|), StylePoint(html), |styles|) == html
  {
    var a := StylePoint(html);
    var mid := Styled(html, styles);
    var b := BodyPoint(mid);
    var out := InjectedWith(html, styles, footer);
    assert Remove(out, b, |footer|) == mid by {
      assert out[..b] + out[b + |footer|..] == mid[..b] + mid[b..];
      assert mid[..b] + mid[b..] == mid;
    }
    assert Remove(mid, a, |styles|) == html by {
      assert html[..a] + html[a..] == html;
    }
  }
}
