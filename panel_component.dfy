/**
 * The property panel's component state (components/VisualEditor.tsx): the
 * state hooks, the handlers that change them, and Apply's step-by-step
 * construction of the style record, each proved against the functions of
 * PropertyPanel.
 */
module PanelComponent {
  import opened Wrappers
  import opened Strings
  import opened PropertyPanel

  /** Apply's text colour write, when it differs from the selection's. */
  method ApplyColor(p: PanelState, st: Styles, styles0: StyleRecord) returns (styles: StyleRecord)
    ensures styles == Put(styles0, ColorKey, Entry(p, CurrentOf(st), ColorKey))
  {
    styles := styles0;
    if st.color != Some(p.textColor) {
      styles := styles[ColorKey := p.textColor];
    }
  }

  /** Apply's background colour write, in colour mode only, with `background-image: none` beside it. */
  method ApplyBackground(p: PanelState, st: Styles, styles0: StyleRecord) returns (styles: StyleRecord)
    ensures styles == Put(Put(styles0, BackgroundColor, Entry(p, CurrentOf(st), BackgroundColor)),
                          BackgroundImage, Entry(p, CurrentOf(st), BackgroundImage))
  {
    styles := styles0;
    if p.bgType == Color && st.backgroundColor != Some(p.bgColor) {
      styles := styles[BackgroundColor := p.bgColor];
      styles := styles[BackgroundImage := NoneValue];
    }
  }

  /** Apply's font family write; a missing family compares as `inherit`. */
  method ApplyFontFamily(p: PanelState, st: Styles, styles0: StyleRecord) returns (styles: StyleRecord)
    ensures styles == Put(styles0, FontFamily, Entry(p, CurrentOf(st), FontFamily))
  {
    styles := styles0;
    if p.fontFamily != OrDefault(st.fontFamily, "inherit") {
      styles := styles[FontFamily := p.fontFamily];
    }
  }

  /** Apply's font size write, in pixels. */
  method ApplyFontSize(p: PanelState, st: Styles, styles0: StyleRecord) returns (styles: StyleRecord)
    ensures styles == Put(styles0, FontSize, Entry(p, CurrentOf(st), FontSize))
  {
    styles := styles0;
    if st.fontSize != Some(p.fontSize + "px") {
      styles := styles[FontSize := p.fontSize + "px"];
    }
  }

  /** Apply's font weight write: sent when boldness differs from the selection's weight. */
  method ApplyWeight(p: PanelState, st: Styles, styles0: StyleRecord) returns (styles: StyleRecord)
    ensures styles == Put(styles0, FontWeight, Entry(p, CurrentOf(st), FontWeight))
  {
    styles := styles0;
    var currentWeight := IsBold(st.fontWeight);
    if p.isBold != currentWeight {
      styles := styles[FontWeight := if p.isBold then "bold" else "normal"];
    }
  }

  /** Apply's font style write. */
  method ApplyItalic(p: PanelState, st: Styles, styles0: StyleRecord) returns (styles: StyleRecord)
    ensures styles == Put(styles0, FontStyle, Entry(p, CurrentOf(st), FontStyle))
  {
    styles := styles0;
    if p.isItalic != (st.fontStyle == Some("italic")) {
      styles := styles[FontStyle := if p.isItalic then "italic" else "normal"];
    }
  }

  /** Apply's text decoration write. */
  method ApplyUnderline(p: PanelState, st: Styles, styles0: StyleRecord) returns (styles: StyleRecord)
    ensures styles == Put(styles0, TextDecoration, Entry(p, CurrentOf(st), TextDecoration))
  {
    styles := styles0;
    var currentUnderline := IsUnderline(st.textDecoration);
    if p.isUnderline != currentUnderline {
      styles := styles[TextDecoration := if p.isUnderline then "underline" else NoneValue];
    }
  }

  /** Apply's alignment write, whenever an alignment is set. */
  method ApplyAlign(p: PanelState, st: Styles, styles0: StyleRecord) returns (styles: StyleRecord)
    ensures styles == Put(styles0, TextAlign, Entry(p, CurrentOf(st), TextAlign))
  {
    styles := styles0;
    if p.textAlign != "" {
      styles := styles[TextAlign := p.textAlign];
    }
  }

  /** Apply's shadow write, which always happens. */
  method ApplyShadow(p: PanelState, st: Styles, styles0: StyleRecord) returns (styles: StyleRecord)
    ensures styles == Put(styles0, TextShadow, Entry(p, CurrentOf(st), TextShadow))
  {
    styles := styles0;
    if p.textShadow {
      styles := styles[TextShadow := "2px 2px 4px " + p.shadowColor];
    } else {
      styles := styles[TextShadow := NoneValue];
    }
  }

  /** The panel component; its state hooks are kept together in one record. */
  class Panel {
    var state: PanelState

    constructor ()
      ensures state == Initial
    {
      state := Initial;
    }

    /** The seeding effect run when a new element is selected: one batch of state updates. */
    method Select(sel: Selection)
      modifies this
      ensures state == Seeded(sel, old(state))
    {
      state := Seeded(sel, state);
    }

    /** `handleApply`: the text to send, if edited, and the style record, built one write at a time. */
    method Apply(sel: Selection) returns (textChange: Option<string>, styles: StyleRecord)
      ensures textChange == TextChange(state, sel)
      ensures styles == Diff(state, sel)
    {
      var p := state;
      var st := sel.styles;
      textChange := if p.editedText != sel.textContent then Some(p.editedText) else None;
      styles := ApplyColor(p, st, map[]);
      styles := ApplyBackground(p, st, styles);
      styles := ApplyFontFamily(p, st, styles);
      styles := ApplyFontSize(p, st, styles);
      styles := ApplyWeight(p, st, styles);
      styles := ApplyItalic(p, st, styles);
      styles := ApplyUnderline(p, st, styles);
      styles := ApplyAlign(p, st, styles);
      styles := ApplyShadow(p, st, styles);
    }

    /** `handleRemoveBackground`. */
    method RemoveBackground() returns (styles: StyleRecord)
      modifies this
      ensures styles == RemoveBackgroundStyles
      ensures state == old(state).(currentBgImage := None, bgType := Color)
    {
      styles := RemoveBackgroundStyles;
      state := state.(currentBgImage := None);
      state := state.(bgType := Color);
    }

    /** The background-image upload, once the file has been read as a data URL. */
    method UploadBackgroundImage(imageUrl: string) returns (styles: StyleRecord)
      modifies this
      ensures styles == ImageStyles(imageUrl)
      ensures state == old(state).(currentBgImage := Some(imageUrl))
    {
      state := state.(currentBgImage := Some(imageUrl));
      styles := ImageStyles(imageUrl);
    }

    /**
     * `handleFontUpload`, once the file has been read as the data URL
     * `fontData`: the name and the data are handed to `onAddFont`, and the
     * new font is selected.
     */
    method UploadFont(fileName: string, fontData: string) returns (fontName: string, addedData: string)
      modifies this
      ensures fontName == FontName(fileName) && addedData == fontData
      ensures state == old(state).(fontFamily := fontName)
    {
      fontName := FontName(fileName);
      addedData := fontData;
      state := state.(fontFamily := fontName);
    }
  }

}
