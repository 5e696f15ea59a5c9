/**
 * The language provider (contexts/LanguageContext.tsx): the chosen
 * language, remembered in the browser's storage, and `t`, which walks a
 * dotted key through the nested translation table and falls back to the
 * key itself. The two tables are parameters of the provider.
 */
module Translations {
  import opened Wrappers
  import opened Strings

  datatype Lang = En | Zh

  /** A translation table: a text, or an object of named entries. */
  datatype Tree = Text(text: string) | Node(children: map<string, Tree>)

  const StorageKey := "hg_language"

  /** The code stored for a language. */
  function Code(lang: Lang): (c: string)
    ensures c == "en" || c == "zh"
  {
    match lang
    case En => "en"
    case Zh => "zh"
  }

  /** The stored value, when it names one of the two languages. */
  function SavedLanguage(saved: Option<string>): (r: Option<Lang>)
    ensures r.Some? <==> saved.Some? && (saved.value == "en" || saved.value == "zh")
    ensures r.Some? ==> Code(r.value) == saved.value
  {
    if saved == Some("en") then Some(En)
    else if saved == Some("zh") then Some(Zh)
    else None
  }

  /** What a language's code is read back as. */
  lemma CodeReadsBack(lang: Lang)
    ensures SavedLanguage(Some(Code(lang))) == Some(lang)
  {
  }

  /** The entry a path of names leads to, if every name is present on the way. */
  function Descend(t: Tree, path: seq<string>): Option<Tree>
    decreases |path|
  {
    if path == [] then Some(t)
    else if t.Node? && path[0] in t.children then Descend(t.children[path[0]], path[1..])
    else None
  }

  /** The text a path leads to, if it leads to a text. */
  function Resolve(t: Tree, path: seq<string>): Option<string> {
    match Descend(t, path)
    case Some(Text(s)) => Some(s)
    case _ => None
  }

  /** Walking a path in two parts is walking the first, then the second from where it ends. */
  lemma {:induction false} DescendAppend(t: Tree, p: seq<string>, q: seq<string>)
    ensures Descend(t, p + q) == if Descend(t, p).Some? then Descend(Descend(t, p).value, q) else None
    decreases |p|
  {
    if p == [] {
      assert p + q == q;
    } else {
      assert (p + q)[0] == p[0];
      assert (p + q)[1..] == p[1..] + q;
      if t.Node? && p[0] in t.children {
        DescendAppend(t.children[p[0]], p[1..], q);
      }
    }
  }

  /** Resolving a path in two parts resolves the second part from where the first ends. */
  lemma ResolveAppend(t: Tree, p: seq<string>, q: seq<string>)
    ensures Resolve(t, p + q) == if Descend(t, p).Some? then Resolve(Descend(t, p).value, q) else None
  {
    DescendAppend(t, p, q);
  }

  /** A path through an entry's parent goes on through the entry. */
  lemma DescendStep(t: Tree, path: seq<string>, i: nat)
    requires i < |path| && Descend(t, path[..i]).Some?
    ensures var v := Descend(t, path[..i]).value;
            Descend(t, path[..i + 1]) ==
              if v.Node? && path[i] in v.children then Some(v.children[path[i]]) else None
  {
    DescendAppend(t, path[..i], [path[i]]);
    assert path[..i + 1] == path[..i] + [path[i]];
  }

  class LanguageProvider {
    const en: Tree
    const zh: Tree
    var language: Lang
    /** The browser's `hg_language` entry. */
    var saved: Option<string>

    /** The provider starts in Chinese and then takes a valid stored language. */
    constructor(en: Tree, zh: Tree, saved: Option<string>)
      ensures this.en == en && this.zh == zh && this.saved == saved
      ensures SavedLanguage(saved).Some? ==> language == SavedLanguage(saved).value
      ensures SavedLanguage(saved).None? ==> language == Zh
    {
      this.en := en;
      this.zh := zh;
      this.saved := saved;
      language := Zh;
      if saved.Some? && (saved.value == "en" || saved.value == "zh") {
        language := if saved.value == "en" then En else Zh;
      }
    }

    /** The table of the chosen language. */
    function Table(): Tree
      reads this
    {
      if language == En then en else zh
    }

    /** `handleSetLanguage`: switch and remember. */
    method SetLanguage(lang: Lang)
      modifies this
      ensures language == lang && saved == Some(Code(lang))
      ensures SavedLanguage(saved) == Some(lang)
    {
      language := lang;
      saved := Some(Code(lang));
    }

    /** `t`: the text the dotted key leads to in the chosen table, or the key itself. */
    method T(key: string) returns (s: string)
      ensures var r := Resolve(Table(), Split(key, {'.'}));
              && (r.Some? ==> s == r.value)
              && (r.None? ==> s == key)
    {
      var keys := Split(key, {'.'});
      var value := if language == En then en else zh;
      assert keys[..0] == [];
      for i := 0 to |keys|
        invariant Descend(Table(), keys[..i]) == Some(value)
      {
        var k := keys[i];
        DescendStep(Table(), keys, i);
        if value.Node? && k in value.children {
          value := value.children[k];
        } else {
          assert Descend(Table(), keys[..i + 1]) == None;
          DescendAppend(Table(), keys[..i + 1], keys[i + 1..]);
          assert keys[..i + 1] + keys[i + 1..] == keys;
          return key;
        }
      }
      assert keys[..|keys|] == keys;
      s := if value.Text? then value.text else key;
    }
  }
}
