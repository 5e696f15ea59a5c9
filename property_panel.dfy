/**
 * The visual editor's property panel (components/VisualEditor.tsx): the
 * controls are seeded from the element selected in the preview, and Apply
 * sends back the text if it was edited and a style record holding only the
 * properties that differ from the element (text alignment and shadow are
 * always sent).
 */
module PropertyPanel {
  import opened Wrappers
  import opened Strings
  import opened Numbers

  /** The computed styles reported for the selected element; each may be missing. */
  datatype Styles = Styles(
    color: Option<string>,
    backgroundColor: Option<string>,
    fontSize: Option<string>,
    fontWeight: Option<string>,
    fontFamily: Option<string>,
    fontStyle: Option<string>,
    textDecoration: Option<string>,
    backgroundImage: Option<string>)

  datatype Selection = Selection(tagName: string, textContent: string, styles: Styles)

  datatype BgType = Color | Image

  /** Every piece of the panel's state. */
  datatype PanelState = PanelState(
    editedText: string,
    textColor: string,
    bgColor: string,
    bgType: BgType,
    currentBgImage: Option<string>,
    fontFamily: string,
    fontSize: string,
    isBold: bool,
    isItalic: bool,
    isUnderline: bool,
    textAlign: string,
    textShadow: bool,
    shadowColor: string)

  const Initial := PanelState("", "#000000", "transparent", Color, None, "inherit", "16",
                              false, false, false, "left", false, "#000000")

  /** A weight counts as bold when it is `bold` or its integer prefix (`400` when missing) is at least 700. */
  predicate IsBold(fontWeight: Option<string>) {
    fontWeight == Some("bold")
    || (var w := ParseInt(OrDefault(fontWeight, "400")); w.Some? && w.value >= 700)
  }

  /** A numeric weight is bold exactly from 700 on. */
  lemma IsBoldNumeric(n: nat)
    ensures IsBold(Some(Decimal(n))) <==> n >= 700
  {
    ParseDecimal(n);
    assert Decimal(n) != "bold" by {
      assert Decimal(n)[0] != 'b';
    }
  }

  /** A missing weight defaults to 400, which is not bold; `bold` is. */
  lemma MissingWeightIsNotBold(fontWeight: Option<string>)
    requires OrDefault(fontWeight, "") == ""
    ensures !IsBold(fontWeight)
  {
    var d := "400";
    assert LeadingSpaces(d) == 0;
    assert d[0..] == d;
    assert DigitRun(d, 10) == 3;
    assert d[..3] == d;
    assert d[..2] == "40" && "40"[..1] == "4" && "4"[..0] == "";
    assert Value(d, 10) == 400;
  }

  predicate IsUnderline(textDecoration: Option<string>) {
    textDecoration.Some? && Contains(textDecoration.value, "underline")
  }

  predicate IsQuote(c: char) {
    c == '"' || c == '\''
  }

  /** After the captured text, `["']?\)` matches at index `e`. */
  predicate ClosesAt(s: string, e: nat) {
    e < |s| && (s[e] == ')' || (IsQuote(s[e]) && e + 1 < |s| && s[e + 1] == ')'))
  }

  /** The lazy `(.+?)` run from `q`, which has reached `e`: the first end that closes. */
  function LazyEnd(s: string, q: nat, e: nat): (r: Option<nat>)
    requires q < e <= |s|
    requires forall m :: q <= m < e ==> !IsLineTerminator(s[m])
    ensures r.Some? ==> e <= r.value && ClosesAt(s, r.value)
    ensures r.Some? ==> forall m :: q <= m < r.value ==> !IsLineTerminator(s[m])
    ensures r.Some? ==> forall m :: e <= m < r.value ==> !ClosesAt(s, m)
    ensures r.None? ==> forall m :: e <= m <= LineEnd(s, e) ==> !ClosesAt(s, m)
    decreases |s| - e
  {
    if ClosesAt(s, e) then Some(e)
    else if e < |s| && !IsLineTerminator(s[e]) then LazyEnd(s, q, e + 1)
    else None
  }

  /** The capture `(.+?)` starting at `q`, as the end index of the shortest run that can close. */
  function Capture(s: string, q: nat): (r: Option<nat>)
    ensures r.Some? ==> q < r.value && ClosesAt(s, r.value)
    ensures r.Some? ==> forall m :: q <= m < r.value ==> !IsLineTerminator(s[m])
    ensures r.Some? ==> forall m :: q < m < r.value ==> !ClosesAt(s, m)
    ensures q < |s| && r.None? ==> forall m :: q < m <= LineEnd(s, q) ==> !ClosesAt(s, m)
  {
    if q < |s| && !IsLineTerminator(s[q]) then LazyEnd(s, q, q + 1) else None
  }

  /** `url\(["']?(.+?)["']?\)` tried at index `i`; the optional quote is taken first. */
  function MatchUrlAt(s: string, i: nat): (r: Option<string>)
    ensures r.Some? ==> r.value != ""
  {
    if !At(s, "url(", i) then None
    else
      var j := i + 4;
      var quoted := if j < |s| && IsQuote(s[j]) then Capture(s, j + 1) else None;
      if quoted.Some? then Some(s[j + 1..quoted.value])
      else
        var plain := Capture(s, j);
        if plain.Some? then Some(s[j..plain.value]) else None
  }

  /** The first match from index `i` on. */
  function MatchUrlFrom(s: string, i: nat): (r: Option<string>)
    requires i <= |s|
    ensures r.Some? ==> r.value != ""
    decreases |s| - i
  {
    var m := MatchUrlAt(s, i);
    if m.Some? then m else if i == |s| then None else MatchUrlFrom(s, i + 1)
  }

  /** `bgImg.match(/url\(["']?(.+?)["']?\)/)?.[1]`. */
  function ExtractUrl(bgImg: string): (r: Option<string>)
    ensures r.Some? ==> r.value != ""
  {
    MatchUrlFrom(bgImg, 0)
  }

  /** A lazy run over text with no closing character ends right at the first `)` after it. */
  lemma {:induction false} LazyEndAtClose(s: string, q: nat, e: nat, stop: nat)
    requires q < e <= stop < |s| && s[stop] == ')'
    requires forall m :: q <= m < stop ==> !IsQuote(s[m]) && s[m] != ')' && !IsLineTerminator(s[m])
    ensures LazyEnd(s, q, e) == Some(stop)
    decreases stop - e
  {
    if e < stop {
      LazyEndAtClose(s, q, e + 1, stop);
    }
  }

  /** The uploaded image (a data URL, which holds no quote or `)`) reads back from the style it produced. */
  lemma ExtractUploadedUrl(u: string)
    requires u != ""
    requires forall m :: 0 <= m < |u| ==> !IsQuote(u[m]) && u[m] != ')' && !IsLineTerminator(u[m])
    ensures ExtractUrl("url(" + u + ")") == Some(u)
  {
    var s := "url(" + u + ")";
    assert At(s, "url(", 0) by { assert s[..4] == "url("; }
    assert s[4] == u[0];
    LazyEndAtClose(s, 4, 5, 4 + |u|);
    assert s[4..4 + |u|] == u;
  }

  /** The same, for the quoted form browsers report for computed styles. */
  lemma ExtractQuotedUrl(u: string)
    requires u != ""
    requires forall m :: 0 <= m < |u| ==> !IsQuote(u[m]) && u[m] != ')' && !IsLineTerminator(u[m])
    ensures ExtractUrl("url(\"" + u + "\")") == Some(u)
  {
    var s := "url(\"" + u + "\")";
    assert At(s, "url(", 0) by { assert s[..4] == "url("; }
    assert s[5] == u[0];
    LazyEndBeforeQuote(s, 5, 6, 5 + |u|);
    assert s[5..5 + |u|] == u;
  }

  lemma {:induction false} LazyEndBeforeQuote(s: string, q: nat, e: nat, stop: nat)
    requires q < e <= stop && stop + 1 < |s| && IsQuote(s[stop]) && s[stop + 1] == ')'
    requires forall m :: q <= m < stop ==> !IsQuote(s[m]) && s[m] != ')' && !IsLineTerminator(s[m])
    ensures LazyEnd(s, q, e) == Some(stop)
    decreases stop - e
  {
    if e < stop {
      LazyEndBeforeQuote(s, q, e + 1, stop);
    }
  }

  /** Text without `url(` yields no image. */
  lemma NoUrlNoImage(s: string)
    requires !Contains(s, "url(")
    ensures ExtractUrl(s).None?
  {
    NoMatchFrom(s, 0);
  }

  lemma {:induction false} NoMatchFrom(s: string, i: nat)
    requires i <= |s| && !Contains(s, "url(")
    ensures MatchUrlFrom(s, i).None?
    decreases |s| - i
  {
    if i < |s| {
      NoMatchFrom(s, i + 1);
    }
  }

  /** The selection's image, if it has one: present, non-empty and not `none`. */
  predicate HasImage(st: Styles) {
    OrDefault(st.backgroundImage, "") != "" && st.backgroundImage.value != "none"
  }

  /** The seeding effect: every control but alignment and shadow is taken from the selection. */
  function Seeded(sel: Selection, prev: PanelState): (p: PanelState)
    ensures p.bgType == Image <==> HasImage(sel.styles)
    ensures p.bgType == Color ==> p.currentBgImage.None?
    ensures p.bgType == Image ==> p.currentBgImage == ExtractUrl(sel.styles.backgroundImage.value)
    ensures p.isBold == IsBold(sel.styles.fontWeight)
    ensures p.textAlign == prev.textAlign && p.textShadow == prev.textShadow && p.shadowColor == prev.shadowColor
  {
    var st := sel.styles;
    PanelState(
      sel.textContent,
      OrDefault(st.color, "#000000"),
      OrDefault(st.backgroundColor, "transparent"),
      if HasImage(st) then Image else Color,
      if HasImage(st) then ExtractUrl(st.backgroundImage.value) else None,
      OrDefault(st.fontFamily, "inherit"),
      ReplaceFirst(OrDefault(st.fontSize, "16px"), "px", ""),
      IsBold(st.fontWeight),
      st.fontStyle == Some("italic"),
      IsUnderline(st.textDecoration),
      prev.textAlign, prev.textShadow, prev.shadowColor)
  }

  /** The text Apply sends, if it was edited. */
  function TextChange(p: PanelState, sel: Selection): (r: Option<string>)
    ensures r.Some? <==> p.editedText != sel.textContent
    ensures r.Some? ==> r.value == p.editedText
  {
    if p.editedText != sel.textContent then Some(p.editedText) else None
  }

  function ShadowValue(p: PanelState): string {
    if p.textShadow then "2px 2px 4px " + p.shadowColor else NoneValue
  }

  /** The CSS properties the panel writes, named as in the style record. */
  datatype StyleKey =
    | ColorKey | BackgroundColor | BackgroundImage | FontFamily | FontSize | FontWeight
    | FontStyle | TextDecoration | TextAlign | TextShadow | BackgroundSize | BackgroundPosition
  {
    function Name(): string {
      match this
      case ColorKey => "color"
      case BackgroundColor => "backgroundColor"
      case BackgroundImage => "backgroundImage"
      case FontFamily => "fontFamily"
      case FontSize => "fontSize"
      case FontWeight => "fontWeight"
      case FontStyle => "fontStyle"
      case TextDecoration => "textDecoration"
      case TextAlign => "textAlign"
      case TextShadow => "textShadow"
      case BackgroundSize => "backgroundSize"
      case BackgroundPosition => "backgroundPosition"
    }
  }

  type StyleRecord = map<StyleKey, string>

  /** What Apply compares the panel against: each property as derived from the selection. */
  datatype Current = Current(
    color: Option<string>,
    backgroundColor: Option<string>,
    fontFamily: string,
    fontSize: Option<string>,
    bold: bool,
    italic: bool,
    underline: bool)

  function CurrentOf(st: Styles): Current {
    Current(st.color, st.backgroundColor, OrDefault(st.fontFamily, "inherit"), st.fontSize,
            IsBold(st.fontWeight), st.fontStyle == Some("italic"), IsUnderline(st.textDecoration))
  }

  /** `m` with `k` set to `v` when there is a value to write. */
  function Put(m: StyleRecord, k: StyleKey, v: Option<string>): (r: StyleRecord)
    ensures forall j :: j != k ==> (j in r <==> j in m)
    ensures forall j :: j != k && j in m ==> r[j] == m[j]
    ensures k in r <==> v.Some? || k in m
    ensures v.Some? ==> r[k] == v.value
    ensures v.None? ==> r == m
  {
    if v.Some? then m[k := v.value] else m
  }

  /** `m` after the colour writes: text colour, background colour, background image. */
  function ColorWrites(m: StyleRecord, p: PanelState, c: Current): StyleRecord {
    Put(Put(Put(m, ColorKey, Entry(p, c, ColorKey)), BackgroundColor, Entry(p, c, BackgroundColor)), BackgroundImage, Entry(p, c, BackgroundImage))
  }

  /** A key of the group with an entry is set to it; every other key is left as it was. */
  lemma ColorWritesAt(m: StyleRecord, p: PanelState, c: Current, k: StyleKey)
    ensures var r := ColorWrites(m, p, c);
            if k == ColorKey || k == BackgroundColor || k == BackgroundImage then
              && (k in r <==> Entry(p, c, k).Some? || k in m)
              && (Entry(p, c, k).Some? ==> r[k] == Entry(p, c, k).value)
              && (Entry(p, c, k).None? && k in m ==> r[k] == m[k])
            else
              (k in r <==> k in m) && (k in m ==> r[k] == m[k])
  {
  }

  /** `m` after the font writes: family, size, weight, style. */
  function FontWrites(m: StyleRecord, p: PanelState, c: Current): StyleRecord {
    Put(Put(Put(Put(m, FontFamily, Entry(p, c, FontFamily)), FontSize, Entry(p, c, FontSize)), FontWeight, Entry(p, c, FontWeight)), FontStyle, Entry(p, c, FontStyle))
  }

  /** A key of the group with an entry is set to it; every other key is left as it was. */
  lemma FontWritesAt(m: StyleRecord, p: PanelState, c: Current, k: StyleKey)
    ensures var r := FontWrites(m, p, c);
            if k == FontFamily || k == FontSize || k == FontWeight || k == FontStyle then
              && (k in r <==> Entry(p, c, k).Some? || k in m)
              && (Entry(p, c, k).Some? ==> r[k] == Entry(p, c, k).value)
              && (Entry(p, c, k).None? && k in m ==> r[k] == m[k])
            else
              (k in r <==> k in m) && (k in m ==> r[k] == m[k])
  {
  }

  /** `m` after the decoration, alignment and shadow writes. */
  function LayoutWrites(m: StyleRecord, p: PanelState, c: Current): StyleRecord {
    Put(Put(Put(m, TextDecoration, Entry(p, c, TextDecoration)), TextAlign, Entry(p, c, TextAlign)), TextShadow, Entry(p, c, TextShadow))
  }

  /** A key of the group with an entry is set to it; every other key is left as it was. */
  lemma LayoutWritesAt(m: StyleRecord, p: PanelState, c: Current, k: StyleKey)
    ensures var r := LayoutWrites(m, p, c);
            if k == TextDecoration || k == TextAlign || k == TextShadow then
              && (k in r <==> Entry(p, c, k).Some? || k in m)
              && (Entry(p, c, k).Some? ==> r[k] == Entry(p, c, k).value)
              && (Entry(p, c, k).None? && k in m ==> r[k] == m[k])
            else
              (k in r <==> k in m) && (k in m ==> r[k] == m[k])
  {
  }

  /** The record after Apply's ten writes, in order, against derived values `c`. */
  function Written(p: PanelState, c: Current): StyleRecord {
    LayoutWrites(FontWrites(ColorWrites(map[], p, c), p, c), p, c)
  }

  /** The style record Apply sends for the selection `sel`. */
  function Diff(p: PanelState, sel: Selection): StyleRecord {
    Written(p, CurrentOf(sel.styles))
  }

  /** Key `k` is set by its own write and left alone by the others. */
  lemma WrittenAt(p: PanelState, c: Current, k: StyleKey)
    ensures k in Written(p, c) <==> Entry(p, c, k).Some?
    ensures k in Written(p, c) ==> Written(p, c)[k] == Entry(p, c, k).value
  {
    var m0 := ColorWrites(map[], p, c);
    var m1 := FontWrites(m0, p, c);
    ColorWritesAt(map[], p, c, k);
    FontWritesAt(m0, p, c, k);
    LayoutWritesAt(m1, p, c, k);
  }

  /** The record Apply sends holds exactly the keys that have an entry, each with its value. */
  lemma DiffHoldsEntries(p: PanelState, sel: Selection)
    ensures forall k :: k in Diff(p, sel) <==> Entry(p, CurrentOf(sel.styles), k).Some?
    ensures forall k :: k in Diff(p, sel) ==> Diff(p, sel)[k] == Entry(p, CurrentOf(sel.styles), k).value
  {
    forall k {
      WrittenAt(p, CurrentOf(sel.styles), k);
    }
  }

  /** The value Apply writes under key `k`, if any. */
  function Entry(p: PanelState, c: Current, k: StyleKey): Option<string> {
    match k
    case ColorKey => ColorEntry(p, c)
    case BackgroundColor => if BackgroundChanged(p, c) then Some(p.bgColor) else None
    case BackgroundImage => if BackgroundChanged(p, c) then Some(NoneValue) else None
    case FontFamily => FontFamilyEntry(p, c)
    case FontSize => FontSizeEntry(p, c)
    case FontWeight => FontWeightEntry(p, c)
    case FontStyle => FontStyleEntry(p, c)
    case TextDecoration => TextDecorationEntry(p, c)
    case TextAlign => TextAlignEntry(p)
    case TextShadow => Some(ShadowValue(p))
    case BackgroundSize => None
    case BackgroundPosition => None
  }

  const NoneValue := "none"

  function ColorEntry(p: PanelState, c: Current): Option<string> {
    if c.color != Some(p.textColor) then Some(p.textColor) else None
  }

  predicate BackgroundChanged(p: PanelState, c: Current) {
    p.bgType == Color && c.backgroundColor != Some(p.bgColor)
  }

  function FontFamilyEntry(p: PanelState, c: Current): Option<string> {
    if p.fontFamily != c.fontFamily then Some(p.fontFamily) else None
  }

  function FontSizeEntry(p: PanelState, c: Current): Option<string> {
    if c.fontSize != Some(p.fontSize + "px") then Some(p.fontSize + "px") else None
  }

  function FontWeightEntry(p: PanelState, c: Current): Option<string> {
    if p.isBold != c.bold then Some(if p.isBold then "bold" else "normal") else None
  }

  function FontStyleEntry(p: PanelState, c: Current): Option<string> {
    if p.isItalic != c.italic then Some(if p.isItalic then "italic" else "normal") else None
  }

  function TextDecorationEntry(p: PanelState, c: Current): Option<string> {
    if p.isUnderline != c.underline then Some(if p.isUnderline then "underline" else NoneValue) else None
  }

  function TextAlignEntry(p: PanelState): Option<string> {
    if p.textAlign != "" then Some(p.textAlign) else None
  }

  /**
   * A property other than alignment and shadow is sent exactly when the panel
   * disagrees with the selection; a background colour only in colour mode and
   * always together with `backgroundImage: none`; the shadow always.
   */
  lemma DiffSendsChangedProperties(p: PanelState, sel: Selection)
    ensures var m := Diff(p, sel);
            && (ColorKey in m <==> sel.styles.color != Some(p.textColor))
            && (BackgroundColor in m <==> p.bgType == Color && sel.styles.backgroundColor != Some(p.bgColor))
            && (BackgroundImage in m <==> BackgroundColor in m)
            && (FontFamily in m <==> p.fontFamily != OrDefault(sel.styles.fontFamily, "inherit"))
            && (FontSize in m <==> sel.styles.fontSize != Some(p.fontSize + "px"))
            && (FontWeight in m <==> p.isBold != IsBold(sel.styles.fontWeight))
            && (FontStyle in m <==> p.isItalic != (sel.styles.fontStyle == Some("italic")))
            && (TextDecoration in m <==> p.isUnderline != IsUnderline(sel.styles.textDecoration))
            && (TextAlign in m <==> p.textAlign != "")
            && TextShadow in m
            && BackgroundSize !in m && BackgroundPosition !in m
  {
    DiffHoldsEntries(p, sel);
    EntryPresence(p, CurrentOf(sel.styles));
  }

  /** Which keys have an entry, for any derived values `c`. */
  lemma EntryPresence(p: PanelState, c: Current)
    ensures && (Entry(p, c, ColorKey).Some? <==> c.color != Some(p.textColor))
            && (Entry(p, c, BackgroundColor).Some? <==> p.bgType == Color && c.backgroundColor != Some(p.bgColor))
            && (Entry(p, c, BackgroundImage).Some? <==> Entry(p, c, BackgroundColor).Some?)
            && (Entry(p, c, FontFamily).Some? <==> p.fontFamily != c.fontFamily)
            && (Entry(p, c, FontSize).Some? <==> c.fontSize != Some(p.fontSize + "px"))
            && (Entry(p, c, FontWeight).Some? <==> p.isBold != c.bold)
            && (Entry(p, c, FontStyle).Some? <==> p.isItalic != c.italic)
            && (Entry(p, c, TextDecoration).Some? <==> p.isUnderline != c.underline)
            && (Entry(p, c, TextAlign).Some? <==> p.textAlign != "")
            && Entry(p, c, TextShadow).Some?
            && Entry(p, c, BackgroundSize).None? && Entry(p, c, BackgroundPosition).None?
  {
  }

  /** Each property sent carries the panel's value in CSS form. */
  lemma DiffValues(p: PanelState, sel: Selection)
    ensures var m := Diff(p, sel);
            && (ColorKey in m ==> m[ColorKey] == p.textColor)
            && (BackgroundColor in m ==> m[BackgroundColor] == p.bgColor)
            && (BackgroundImage in m ==> m[BackgroundImage] == "none")
            && (FontFamily in m ==> m[FontFamily] == p.fontFamily)
            && (FontSize in m ==> m[FontSize] == p.fontSize + "px")
            && (FontWeight in m ==> m[FontWeight] == (if p.isBold then "bold" else "normal"))
            && (FontStyle in m ==> m[FontStyle] == (if p.isItalic then "italic" else "normal"))
            && (TextDecoration in m ==> m[TextDecoration] == (if p.isUnderline then "underline" else "none"))
            && (TextAlign in m ==> m[TextAlign] == p.textAlign)
            && (TextShadow in m ==> m[TextShadow] == (if p.textShadow then "2px 2px 4px " + p.shadowColor else "none"))
  {
    DiffHoldsEntries(p, sel);
    EntryValues(p, CurrentOf(sel.styles));
  }

  /** The value of each entry that is present. */
  lemma EntryValues(p: PanelState, c: Current)
    ensures && (Entry(p, c, ColorKey).Some? ==> Entry(p, c, ColorKey).value == p.textColor)
            && (Entry(p, c, BackgroundColor).Some? ==>
                  Entry(p, c, BackgroundColor).value == p.bgColor && Entry(p, c, BackgroundImage).value == "none")
            && (Entry(p, c, FontFamily).Some? ==> Entry(p, c, FontFamily).value == p.fontFamily)
            && (Entry(p, c, FontSize).Some? ==> Entry(p, c, FontSize).value == p.fontSize + "px")
            && (Entry(p, c, FontWeight).Some? ==> Entry(p, c, FontWeight).value == (if p.isBold then "bold" else "normal"))
            && (Entry(p, c, FontStyle).Some? ==> Entry(p, c, FontStyle).value == (if p.isItalic then "italic" else "normal"))
            && (Entry(p, c, TextDecoration).Some? ==>
                  Entry(p, c, TextDecoration).value == (if p.isUnderline then "underline" else "none"))
            && (Entry(p, c, TextAlign).Some? ==> Entry(p, c, TextAlign).value == p.textAlign)
            && Entry(p, c, TextShadow) == Some(if p.textShadow then "2px 2px 4px " + p.shadowColor else "none")
  {
  }

  lemma ReplacePxSuffix(n: string)
    requires 'p' !in n
    ensures ReplaceFirst(n + "px", "px", "") == n
  {
    var s := n + "px";
    assert At(s, "px", |n|) by { assert s[|n|..|n| + 2] == "px"; }
    forall j | 0 <= j < |n| ensures !At(s, "px", j) {
      assert s[j] == n[j];
      NotAtFirstCharDiffers(s, "px", j);
    }
    assert s[..|n|] == n;
  }

  /**
   * Right after an element is selected, Apply with no edits sends only the
   * alignment and the shadow, provided the element reports its colour, its
   * background colour (when it has no image) and a size in pixels.
   */
  lemma UneditedApplySendsOnlyAlignAndShadow(sel: Selection, prev: PanelState, size: string)
    requires OrDefault(sel.styles.color, "") != ""
    requires !HasImage(sel.styles) ==> OrDefault(sel.styles.backgroundColor, "") != ""
    requires sel.styles.fontSize == Some(size + "px") && 'p' !in size
    ensures var p := Seeded(sel, prev);
            && TextChange(p, sel).None?
            && Diff(p, sel).Keys <= {TextAlign, TextShadow}
            && TextShadow in Diff(p, sel)
  {
    ReplacePxSuffix(size);
    DiffSendsChangedProperties(Seeded(sel, prev), sel);
  }

  /** Apply always sends a non-empty style record, so the style callback always runs. */
  lemma ApplyAlwaysSendsStyles(p: PanelState, sel: Selection)
    ensures |Diff(p, sel)| > 0
  {
    DiffHoldsEntries(p, sel);
    assert TextShadow in Diff(p, sel).Keys;
  }

  const RemoveBackgroundStyles: StyleRecord := map[BackgroundImage := "none", BackgroundColor := "transparent"]

  function ImageStyles(imageUrl: string): StyleRecord {
    map[BackgroundImage := "url(" + imageUrl + ")", BackgroundSize := "cover", BackgroundPosition := "center"]
  }

  /** `file.name.replace(/\.[^/.]+$/, "")`: the last `.ext` is dropped if the extension is non-empty and holds no `/`. */
  function FontName(fileName: string): (r: string)
    ensures r <= fileName
  {
    var k := LastIndexOf(fileName, ".");
    if k != -1 && k + 1 < |fileName| && '/' !in fileName[k + 1..] then fileName[..k] else fileName
  }

  lemma FontNameDropsExtension(name: string, ext: string)
    requires ext != "" && '.' !in ext && '/' !in ext
    ensures FontName(name + "." + ext) == name
  {
    var s := name + "." + ext;
    var k := |name|;
    assert At(s, ".", k) by { assert s[k..k + 1] == "."; }
    forall j | k < j ensures !At(s, ".", j) {
      if j < |s| {
        assert s[j] == ext[j - k - 1];
        NotAtFirstCharDiffers(s, ".", j);
      }
    }
    assert s[k + 1..] == ext;
    assert s[..k] == name;
  }

  /** The name ends in what `/\.[^/.]+$/` matches: a `.` and a non-empty extension free of `.` and `/`. */
  predicate HasFontExtension(fileName: string) {
    exists k :: 0 <= k && k + 1 < |fileName| && fileName[k] == '.' && '.' !in fileName[k + 1..] && '/' !in fileName[k + 1..]
  }

  /** The file name is the font name as it is exactly when it ends in no extension the pattern matches. */
  lemma FontNameUnchanged(fileName: string)
    ensures FontName(fileName) == fileName <==> !HasFontExtension(fileName)
  {
    var k := LastIndexOf(fileName, ".");
    if k != -1 && k + 1 < |fileName| && '/' !in fileName[k + 1..] {
      AtFirstChar(fileName, ".", k);
      forall j | k < j < |fileName| ensures fileName[j] != '.' {
        if fileName[j] == '.' {
          assert At(fileName, ".", j) by { assert fileName[j..j + 1] == "."; }
        }
      }
      assert '.' !in fileName[k + 1..];
      assert |FontName(fileName)| == k;
    } else {
      forall m | 0 <= m && m + 1 < |fileName| && fileName[m] == '.'
        ensures '.' in fileName[m + 1..] || '/' in fileName[m + 1..]
      {
        assert At(fileName, ".", m) by { assert fileName[m..m + 1] == "."; }
        assert m <= k;
        AtFirstChar(fileName, ".", k);
        if m < k {
          assert fileName[m + 1..][k - m - 1] == '.';
        }
      }
    }
  }

  /** `selectedElement.tagName === 'IMG'`. */
  predicate IsImageElement(sel: Selection) {
    sel.tagName == "IMG"
  }

  /** The text and text-style controls are shown only for a non-image element with text. */
  predicate ShowsTextControls(sel: Selection) {
    !IsImageElement(sel) && sel.textContent != ""
  }

  /** The image upload control is shown for an image. */
  predicate ShowsImageUpload(sel: Selection) {
    IsImageElement(sel)
  }

  /** The text colour control is shown for anything but an image. */
  predicate ShowsTextColor(sel: Selection) {
    !IsImageElement(sel)
  }

  /**
   * Each selection gets either the image upload or the text colour control,
   * never both; the text controls are hidden for an image and, for an
   * element with text, shown exactly when it is not an image.
   */
  lemma ControlsByElementKind(sel: Selection)
    ensures ShowsImageUpload(sel) <==> !ShowsTextColor(sel)
    ensures ShowsImageUpload(sel) ==> !ShowsTextControls(sel)
    ensures sel.textContent != "" ==> (ShowsTextControls(sel) <==> sel.tagName != "IMG")
    ensures sel.textContent == "" ==> !ShowsTextControls(sel)
  {
  }

  /** Selecting an element whose background is an uploaded image seeds that image back. */
  lemma UploadedImageSeedsBack(sel: Selection, prev: PanelState, u: string)
    requires u != ""
    requires forall m :: 0 <= m < |u| ==> !IsQuote(u[m]) && u[m] != ')' && !IsLineTerminator(u[m])
    requires sel.styles.backgroundImage == Some(ImageStyles(u)[BackgroundImage])
    ensures Seeded(sel, prev).bgType == Image && Seeded(sel, prev).currentBgImage == Some(u)
  {
    ExtractUploadedUrl(u);
    assert ("url(" + u + ")")[0] == 'u';
  }
}
