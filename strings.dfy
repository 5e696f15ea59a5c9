/**
 * The JavaScript string primitives the application relies on, written out:
 * `indexOf`, `lastIndexOf`, `includes`, `startsWith`, `endsWith`, `replace`
 * with a string pattern, global replacement, `split`, `trim` and `toLowerCase`.
 */
module Strings {
  import opened Wrappers

  /** `p` occurs in `s` starting at index `i`. */
  predicate At(s: string, p: string, i: int) {
    0 <= i && i + |p| <= |s| && s[i..i + |p|] == p
  }

  predicate StartsWith(s: string, p: string) {
    At(s, p, 0)
  }

  predicate EndsWith(s: string, p: string) {
    |p| <= |s| && s[|s| - |p|..] == p
  }

  /** An occurrence in a suffix of `s` is an occurrence in `s`. */
  lemma AtInSuffix(s: string, d: nat, p: string, j: int)
    requires d <= |s| && At(s[d..], p, j)
    ensures At(s, p, d + j)
  {
    assert s[d..][j..j + |p|] == s[d + j..d + j + |p|];
  }

  /** An occurrence in a prefix of `s` is an occurrence in `s`. */
  lemma AtInPrefix(s: string, n: nat, p: string, j: int)
    requires n <= |s| && At(s[..n], p, j)
    ensures At(s, p, j)
  {
    assert s[..n][j..j + |p|] == s[j..j + |p|];
  }

  /** An occurrence at `k` has the pattern's first character there. */
  lemma AtFirstChar(s: string, p: string, k: int)
    requires At(s, p, k) && |p| > 0
    ensures s[k] == p[0]
  {
    assert s[k..k + |p|][0] == s[k];
  }

  /** No occurrence starts where the first character differs. */
  lemma NotAtFirstCharDiffers(s: string, p: string, k: int)
    requires 0 <= k < |s| && |p| > 0 && s[k] != p[0]
    ensures !At(s, p, k)
  {
    if k + |p| <= |s| {
      assert s[k..k + |p|][0] == s[k];
    }
  }

  /** `s.indexOf(p, i)`: the first occurrence at or after `i`, or -1. */
  function IndexOfFrom(s: string, p: string, i: nat): (r: int)
    requires i <= |s|
    ensures r == -1 || (i <= r && At(s, p, r))
    ensures forall j :: i <= j && (r == -1 || j < r) ==> !At(s, p, j)
    decreases |s| - i
  {
    if i + |p| > |s| then -1
    else if s[i..i + |p|] == p then i
    else IndexOfFrom(s, p, i + 1)
  }

  /** `s.indexOf(p)`. */
  function IndexOf(s: string, p: string): (r: int)
    ensures r == -1 || At(s, p, r)
    ensures forall j :: 0 <= j && (r == -1 || j < r) ==> !At(s, p, j)
  {
    IndexOfFrom(s, p, 0)
  }

  /** The last occurrence at or before `i`, or -1. */
  function LastIndexOfUpTo(s: string, p: string, i: int): (r: int)
    ensures r == -1 || (r <= i && At(s, p, r))
    ensures forall j :: r < j <= i ==> !At(s, p, j)
    decreases i + 1
  {
    if i < 0 then -1
    else if At(s, p, i) then i
    else LastIndexOfUpTo(s, p, i - 1)
  }

  /** `s.lastIndexOf(p)`. */
  function LastIndexOf(s: string, p: string): (r: int)
    ensures r == -1 || At(s, p, r)
    ensures forall j :: r < j ==> !At(s, p, j)
  {
    LastIndexOfUpTo(s, p, |s| - |p|)
  }

  /** `s.includes(p)`. */
  function Contains(s: string, p: string): (b: bool)
    ensures b <==> exists i :: At(s, p, i)
  {
    IndexOf(s, p) != -1
  }

  /** `s.replace(p, r)` with a string pattern: only the first occurrence is replaced. */
  function ReplaceFirst(s: string, p: string, r: string): string {
    var i := IndexOf(s, p);
    if i == -1 then s else s[..i] + r + s[i + |p|..]
  }

  lemma ReplaceFirstAtStart(s: string, p: string, r: string)
    requires StartsWith(s, p)
    ensures ReplaceFirst(s, p, r) == r + s[|p|..]
  {
    assert At(s, p, 0);
  }

  /** `s.replace(/p/g, r)`: every occurrence, scanning left to right without overlap. */
  function ReplaceAll(s: string, p: string, r: string): string
    requires |p| > 0
    decreases |s|
  {
    var i := IndexOf(s, p);
    if i == -1 then s else s[..i] + r + ReplaceAll(s[i + |p|..], p, r)
  }

  lemma ReplaceAllAbsent(s: string, p: string, r: string)
    requires |p| > 0 && !Contains(s, p)
    ensures ReplaceAll(s, p, r) == s
  {
  }

  /** JavaScript's WhiteSpace and LineTerminator code points, which `trim` removes. */
  predicate IsSpace(c: char) {
    c == '\t' || c == '\n' || c == '\U{000B}' || c == '\U{000C}' || c == '\r' || c == ' '
    || c == '\U{00A0}' || c == '\U{1680}' || ('\U{2000}' <= c <= '\U{200A}')
    || c == '\U{2028}' || c == '\U{2029}' || c == '\U{202F}' || c == '\U{205F}'
    || c == '\U{3000}' || c == '\U{FEFF}'
  }

  /** The characters a regular-expression `.` does not match (no `s` flag). */
  predicate IsLineTerminator(c: char) {
    c == '\n' || c == '\r' || c == '\U{2028}' || c == '\U{2029}'
  }

  /** The end of the line that index `e` is on: the first line terminator from `e` on, or the end of `s`. */
  function LineEnd(s: string, e: nat): (n: nat)
    requires e <= |s|
    ensures e <= n <= |s|
    ensures forall m :: e <= m < n ==> !IsLineTerminator(s[m])
    ensures n < |s| ==> IsLineTerminator(s[n])
    decreases |s| - e
  {
    if e == |s| || IsLineTerminator(s[e]) then e else LineEnd(s, e + 1)
  }

  /** The number of white-space characters `s` starts with. */
  function LeadingSpaces(s: string): (k: nat)
    ensures k <= |s|
    ensures forall m :: 0 <= m < k ==> IsSpace(s[m])
    ensures k < |s| ==> !IsSpace(s[k])
  {
    if |s| > 0 && IsSpace(s[0]) then 1 + LeadingSpaces(s[1..]) else 0
  }

  /** The number of white-space characters `s` ends with. */
  function TrailingSpaces(s: string): (k: nat)
    ensures k <= |s|
    ensures forall m :: |s| - k <= m < |s| ==> IsSpace(s[m])
    ensures k < |s| ==> !IsSpace(s[|s| - 1 - k])
  {
    if |s| > 0 && IsSpace(s[|s| - 1]) then 1 + TrailingSpaces(s[..|s| - 1]) else 0
  }

  /** `s.trim()`. */
  function Trim(s: string): (r: string)
    ensures r != "" ==> !IsSpace(r[0]) && !IsSpace(r[|r| - 1])
  {
    var a := s[LeadingSpaces(s)..];
    a[..|a| - TrailingSpaces(a)]
  }

  /** `trim` removes white space at both ends and nothing else. */
  lemma TrimIsInfix(s: string)
    ensures exists i, j ::
              && 0 <= i <= j <= |s| && Trim(s) == s[i..j]
              && (forall m :: 0 <= m < i ==> IsSpace(s[m]))
              && (forall m :: j <= m < |s| ==> IsSpace(s[m]))
  {
    var i := LeadingSpaces(s);
    var a := s[i..];
    var t := TrailingSpaces(a);
    var j := i + |a| - t;
    assert Trim(s) == s[i..j];
    forall m | j <= m < |s| ensures IsSpace(s[m]) {
      assert s[m] == a[m - i];
    }
  }

  /** `trim` adds no character. */
  lemma TrimChars(s: string)
    ensures forall c :: c in Trim(s) ==> c in s
  {
    var a := s[LeadingSpaces(s)..];
    assert forall c :: c in a[..|a| - TrailingSpaces(a)] ==> c in a;
  }

  /** The trimmed string is empty exactly when the input is all white space. */
  lemma TrimEmptyIff(s: string)
    ensures Trim(s) == "" <==> forall m :: 0 <= m < |s| ==> IsSpace(s[m])
  {
    var i := LeadingSpaces(s);
    var a := s[i..];
    if Trim(s) == "" {
      assert TrailingSpaces(a) == |a|;
      assert i == |s|;
    }
  }

  /** A string of white space trims to nothing. */
  lemma TrimOfSpaces(s: string)
    requires forall m :: 0 <= m < |s| ==> IsSpace(s[m])
    ensures Trim(s) == ""
  {
    TrimEmptyIff(s);
  }

  /** A string without white space at either end is its own `trim`. */
  lemma TrimOfTrimmed(s: string)
    requires s != [] ==> !IsSpace(s[0]) && !IsSpace(s[|s| - 1])
    ensures Trim(s) == s
  {
    assert LeadingSpaces(s) == 0;
    assert s[0..] == s;
    assert TrailingSpaces(s) == 0;
  }

  /** `trim` is idempotent. */
  lemma TrimIdempotent(s: string)
    ensures Trim(Trim(s)) == Trim(s)
  {
    TrimOfTrimmed(Trim(s));
  }

  /** `s.split(sep)` where `sep` matches any one character of `seps`. */
  function Split(s: string, seps: set<char>): (r: seq<string>)
    ensures |r| >= 1
    ensures r[0] <= s
    ensures forall k, m :: 0 <= k < |r| && 0 <= m < |r[k]| ==> r[k][m] !in seps
    decreases |s|
  {
    if s == [] then [""]
    else
      var rest := Split(s[1..], seps);
      if s[0] in seps then [""] + rest
      else [[s[0]] + rest[0]] + rest[1..]
  }

  /** The first piece runs up to the first separator, or to the end. */
  lemma {:induction false} SplitFirstPieceEnds(s: string, seps: set<char>)
    ensures var n := |Split(s, seps)[0]|; n < |s| ==> s[n] in seps
    decreases |s|
  {
    if s != [] && s[0] !in seps {
      SplitFirstPieceEnds(s[1..], seps);
    }
  }

  /** `pieces.join(sep)`. */
  function Join(pieces: seq<string>, sep: string): string {
    if pieces == [] then ""
    else if |pieces| == 1 then pieces[0]
    else pieces[0] + sep + Join(pieces[1..], sep)
  }

  /** Splitting on one character and joining with it gives the string back. */
  lemma {:induction false} JoinSplit(s: string, sep: char)
    ensures Join(Split(s, {sep}), [sep]) == s
    decreases |s|
  {
    if s != [] {
      JoinSplit(s[1..], sep);
      var rest := Split(s[1..], {sep});
      var r := Split(s, {sep});
      assert [s[0]] + s[1..] == s;
      if s[0] == sep {
        assert r == [""] + rest;
        assert r[1..] == rest;
        assert Join(r, [sep]) == "" + [sep] + Join(rest, [sep]);
      } else {
        assert r == [[s[0]] + rest[0]] + rest[1..];
        if |rest| == 1 {
          assert Join(r, [sep]) == [s[0]] + rest[0];
        } else {
          assert r[1..] == rest[1..];
          assert Join(r, [sep]) == [s[0]] + (rest[0] + [sep] + Join(rest[1..], [sep]));
        }
      }
    }
  }

  /** A string with no separator in it is a single piece. */
  lemma {:induction false} SplitWithoutSeparator(s: string, seps: set<char>)
    requires forall m :: 0 <= m < |s| ==> s[m] !in seps
    ensures Split(s, seps) == [s]
    decreases |s|
  {
    if s != [] {
      SplitWithoutSeparator(s[1..], seps);
      assert [s[0]] + s[1..] == s;
    }
  }

  /** A piece without separators, followed by a separator, splits off as the first piece. */
  lemma {:induction false} SplitAfterPiece(a: string, c: char, rest: string, seps: set<char>)
    requires c in seps
    requires forall m :: 0 <= m < |a| ==> a[m] !in seps
    ensures Split(a + [c] + rest, seps) == [a] + Split(rest, seps)
    decreases |a|
  {
    var s := a + [c] + rest;
    if a == [] {
      assert s == [c] + rest;
      assert s[1..] == rest;
    } else {
      assert s[0] == a[0];
      assert s[1..] == a[1..] + [c] + rest;
      SplitAfterPiece(a[1..], c, rest, seps);
      assert [a[0]] + a[1..] == a;
    }
  }

  /** White space in front of a string does not change its `trim`. */
  lemma {:induction false} TrimAfterSpaces(lead: string, t: string)
    requires forall m :: 0 <= m < |lead| ==> IsSpace(lead[m])
    ensures Trim(lead + t) == Trim(t)
    decreases |lead|
  {
    if lead == [] {
      assert lead + t == t;
    } else {
      assert (lead + t)[1..] == lead[1..] + t;
      TrimAfterSpaces(lead[1..], t);
      assert LeadingSpaces(lead + t) == 1 + LeadingSpaces(lead[1..] + t);
      var a := (lead + t)[LeadingSpaces(lead + t)..];
      assert a == (lead[1..] + t)[LeadingSpaces(lead[1..] + t)..];
      assert Trim(lead + t) == a[..|a| - TrailingSpaces(a)];
    }
  }

  /** The trimmed pieces that are not empty: `.map(t => t.trim()).filter(t => t)`. */
  function NonEmptyTrimmed(pieces: seq<string>): (r: seq<string>)
    ensures forall k :: 0 <= k < |r| ==> r[k] != "" && Trim(r[k]) == r[k]
  {
    if pieces == [] then []
    else
      var t := Trim(pieces[0]);
      TrimIdempotent(pieces[0]);
      var rest := NonEmptyTrimmed(pieces[1..]);
      if t != "" then [t] + rest else rest
  }

  /** The result holds exactly the non-empty trimmed pieces. */
  lemma {:induction false} NonEmptyTrimmedMembers(pieces: seq<string>)
    ensures forall t :: t in NonEmptyTrimmed(pieces) <==> t != "" && exists i :: 0 <= i < |pieces| && t == Trim(pieces[i])
  {
    if pieces != [] {
      NonEmptyTrimmedMembers(pieces[1..]);
      assert forall i :: 1 <= i < |pieces| ==> pieces[i] == pieces[1..][i - 1];
    }
  }

  /** Every character of `s` lies outside `seps`. */
  predicate Avoids(s: string, seps: set<char>) {
    forall m :: 0 <= m < |s| ==> s[m] !in seps
  }

  /** Trimming the pieces adds no character. */
  lemma {:induction false} NonEmptyTrimmedAvoids(pieces: seq<string>, seps: set<char>)
    requires forall i :: 0 <= i < |pieces| ==> Avoids(pieces[i], seps)
    ensures forall k :: 0 <= k < |NonEmptyTrimmed(pieces)| ==> Avoids(NonEmptyTrimmed(pieces)[k], seps)
  {
    if pieces != [] {
      var x := pieces[0];
      assert Avoids(x, seps);
      NonEmptyTrimmedAvoids(pieces[1..], seps);
      TrimIsInfix(x);
      var a, b :| 0 <= a <= b <= |x| && Trim(x) == x[a..b];
      assert Avoids(Trim(x), seps) by {
        forall m | 0 <= m < |Trim(x)| ensures Trim(x)[m] !in seps {
          assert Trim(x)[m] == x[a + m];
        }
      }
    }
  }

  /** `NonEmptyTrimmed` one piece at a time. */
  lemma NonEmptyTrimmedCons(x: string, ps: seq<string>)
    ensures NonEmptyTrimmed([x] + ps) == (if Trim(x) != "" then [Trim(x)] else []) + NonEmptyTrimmed(ps)
  {
    assert ([x] + ps)[1..] == ps;
  }

  /**
   * `s.split(sep).map(t => t.trim()).filter(t => t)` field by field: a
   * field ended by a separator contributes its trimmed text, when that is
   * not empty, ahead of the fields after it.
   */
  lemma FieldsAfterPiece(a: string, c: char, rest: string, seps: set<char>)
    requires c in seps && Avoids(a, seps)
    ensures NonEmptyTrimmed(Split(a + [c] + rest, seps))
            == (if Trim(a) != "" then [Trim(a)] else []) + NonEmptyTrimmed(Split(rest, seps))
  {
    SplitAfterPiece(a, c, rest, seps);
    NonEmptyTrimmedCons(a, Split(rest, seps));
  }

  /** The last field, with no separator in it, contributes its trimmed text when that is not empty. */
  lemma FieldsOfLastPiece(a: string, seps: set<char>)
    requires Avoids(a, seps)
    ensures NonEmptyTrimmed(Split(a, seps)) == (if Trim(a) != "" then [Trim(a)] else [])
  {
    SplitWithoutSeparator(a, seps);
    NonEmptyTrimmedCons(a, []);
  }

  function LowerChar(c: char): char {
    if 'A' <= c <= 'Z' then (c as int + 32) as char else c
  }

  /** `s.toLowerCase()` on the ASCII letters. */
  function Lower(s: string): (r: string)
    ensures |r| == |s| && forall i :: 0 <= i < |s| ==> r[i] == LowerChar(s[i])
  {
    if s == [] then [] else [LowerChar(s[0])] + Lower(s[1..])
  }

  /** `text.toLowerCase().includes(search.toLowerCase())`. */
  function ContainsIgnoringCase(text: string, search: string): bool {
    Contains(Lower(text), Lower(search))
  }

  /** A text that contains a search text, ignoring case, contains each of its prefixes. */
  lemma ContainsIgnoringCasePrefix(text: string, search: string, more: string)
    requires ContainsIgnoringCase(text, search + more)
    ensures ContainsIgnoringCase(text, search)
  {
    var i :| At(Lower(text), Lower(search + more), i);
    assert Lower(search + more)[..|search|] == Lower(search);
    assert Lower(text)[i..i + |search|] == Lower(search + more)[..|search|];
    assert At(Lower(text), Lower(search), i);
  }

  /** Every string contains the empty search text. */
  lemma EmptySearchMatches(text: string)
    ensures ContainsIgnoringCase(text, "")
  {
    assert At(Lower(text), "", 0);
  }

  /** JavaScript's `a || d` for an optional string: missing and empty are both falsy. */
  function OrDefault(a: Option<string>, d: string): string {
    if a.Some? && a.value != "" then a.value else d
  }

  /** JavaScript's `a || d` for strings: the empty string is falsy. */
  function OrElse(a: string, d: string): string {
    if a != "" then a else d
  }
}
