/**
 * The `.env.local` reader of the site-listing script (check_sites.js): each
 * line of the form `KEY=VALUE` becomes an entry, later lines overriding
 * earlier ones, with the value trimmed and one quote removed at either end.
 * Reading the file is left to the caller, who passes its text if it exists.
 */
module EnvFile {
  import opened Wrappers
  import opened Strings

  const UrlVar := "NEXT_PUBLIC_SUPABASE_URL"
  const KeyVar := "NEXT_PUBLIC_SUPABASE_ANON_KEY"

  predicate IsQuote(c: char) {
    c == '"' || c == '\''
  }

  /** `.replace(/^["']|["']$/g, '')`: one quote off the front and one off the back, never the same one twice. */
  function Unquote(v: string): (r: string)
    ensures |v| >= 2 && IsQuote(v[0]) && IsQuote(v[|v| - 1]) ==> r == v[1..|v| - 1]
    ensures (|v| == 0 || !IsQuote(v[0])) && (|v| == 0 || !IsQuote(v[|v| - 1])) ==> r == v
    ensures |v| == 1 && IsQuote(v[0]) ==> r == ""
    ensures |v| >= 1 && IsQuote(v[0]) && (|v| == 1 || !IsQuote(v[|v| - 1])) ==> r == v[1..]
    ensures |v| >= 1 && !IsQuote(v[0]) && IsQuote(v[|v| - 1]) ==> r == v[..|v| - 1]
    ensures forall c :: c in r ==> c in v
  {
    var start := if |v| > 0 && IsQuote(v[0]) then 1 else 0;
    var end := if |v| - 1 >= start && IsQuote(v[|v| - 1]) then |v| - 1 else |v|;
    assert forall c :: c in v[start..end] ==> c in v by {
      forall c | c in v[start..end] ensures c in v {
        var m :| 0 <= m < end - start && v[start..end][m] == c;
        assert v[start + m] == c;
      }
    }
    v[start..end]
  }

  /** Does the regular expression `^([^=]+)=(.*)$` match? At least one character before the first `=`, and no line terminator after it. */
  predicate Assignment(line: string) {
    var i := IndexOf(line, "=");
    i > 0 && forall m :: i < m < |line| ==> !IsLineTerminator(line[m])
  }

  /** The key and value a line assigns, if it is an assignment: the trimmed text before the first `=`, and the unquoted trimmed text after it. */
  function ParseLine(line: string): (r: Option<(string, string)>)
    ensures r.Some? <==> Assignment(line)
    ensures r.Some? ==> Trim(r.value.0) == r.value.0 && '=' !in r.value.0
    ensures r.Some? ==> forall c :: c in r.value.1 ==> !IsLineTerminator(c)
  {
    var i := IndexOf(line, "=");
    if Assignment(line) then
      var key, value := line[..i], line[i + 1..];
      assert '=' !in key by {
        forall m | 0 <= m < |key| ensures key[m] != '=' {
          assert !At(line, "=", m);
          assert line[m..m + 1] == [key[m]];
        }
      }
      assert forall c :: c in value ==> !IsLineTerminator(c) by {
        forall c | c in value ensures !IsLineTerminator(c) {
          var m :| 0 <= m < |value| && value[m] == c;
          assert line[i + 1 + m] == c;
        }
      }
      TrimChars(key);
      TrimIdempotent(key);
      TrimChars(value);
      Some((Trim(key), Unquote(Trim(value))))
    else None
  }

  /**
   * The entries the lines define, each assignment overriding earlier ones
   * for its key; keys are trimmed and free of `=`, values free of line breaks.
   */
  function Config(lines: seq<string>): (r: map<string, string>)
    ensures forall k :: k in r ==> Trim(k) == k && '=' !in k
    ensures forall k :: k in r ==> forall c :: c in r[k] ==> !IsLineTerminator(c)
    decreases |lines|
  {
    if lines == [] then map[]
    else
      var c := Config(lines[..|lines| - 1]);
      match ParseLine(lines[|lines| - 1])
      case None => c
      case Some((k, v)) => c[k := v]
  }

  /** Does line `i` assign key `k`? */
  predicate Assigns(lines: seq<string>, i: int, k: string)
    requires 0 <= i < |lines|
  {
    ParseLine(lines[i]).Some? && ParseLine(lines[i]).value.0 == k
  }

  /** The entries after one more line. */
  lemma ConfigSnoc(lines: seq<string>, line: string)
    ensures Config(lines + [line]) ==
              if ParseLine(line).Some? then Config(lines)[ParseLine(line).value.0 := ParseLine(line).value.1]
              else Config(lines)
  {
    assert (lines + [line])[..|lines|] == lines;
  }

  /** A key is defined exactly when some line assigns it. */
  lemma {:induction false} ConfigKeys(lines: seq<string>, k: string)
    ensures k in Config(lines) <==> exists i :: 0 <= i < |lines| && Assigns(lines, i, k)
    decreases |lines|
  {
    if lines != [] {
      var init, last := lines[..|lines| - 1], lines[|lines| - 1];
      assert lines == init + [last];
      ConfigKeys(init, k);
      ConfigSnoc(init, last);
      assert forall i :: 0 <= i < |init| ==> Assigns(init, i, k) == Assigns(lines, i, k);
      if k in Config(lines) {
        if k in Config(init) {
          var i :| 0 <= i < |init| && Assigns(init, i, k);
          assert Assigns(lines, i, k);
        } else {
          assert Assigns(lines, |lines| - 1, k);
        }
      }
      if exists i :: 0 <= i < |lines| && Assigns(lines, i, k) {
        var i :| 0 <= i < |lines| && Assigns(lines, i, k);
        if i < |init| {
          assert Assigns(init, i, k);
        }
      }
    }
  }

  /** The value of a key is the one its last assignment gives. */
  lemma {:induction false} LastAssignmentWins(lines: seq<string>, i: nat, k: string)
    requires i < |lines| && Assigns(lines, i, k)
    requires forall j :: i < j < |lines| ==> !Assigns(lines, j, k)
    ensures k in Config(lines) && Config(lines)[k] == ParseLine(lines[i]).value.1
    decreases |lines|
  {
    var init, last := lines[..|lines| - 1], lines[|lines| - 1];
    assert lines == init + [last];
    ConfigSnoc(init, last);
    if i < |lines| - 1 {
      assert forall j :: 0 <= j < |init| ==> Assigns(init, j, k) == Assigns(lines, j, k);
      LastAssignmentWins(init, i, k);
      assert !Assigns(lines, |lines| - 1, k);
    }
  }

  /** A line with a carriage return after its `=`, as every line of a CRLF file has, is ignored. */
  lemma CarriageReturnLineIgnored(line: string, m: nat)
    requires IndexOf(line, "=") < m < |line| && line[m] == '\r'
    ensures ParseLine(line).None?
  {
  }

  /** A line `k=v` with no `=` in its key assigns the trimmed key the unquoted trimmed value. */
  lemma AssignmentLine(k: string, v: string)
    requires k != "" && '=' !in k
    requires forall m :: 0 <= m < |v| ==> !IsLineTerminator(v[m])
    ensures ParseLine(k + "=" + v) == Some((Trim(k), Unquote(Trim(v))))
  {
    var line := k + "=" + v;
    assert At(line, "=", |k|) by {
      assert line[|k|..|k| + 1] == "=";
    }
    assert forall j :: 0 <= j < |k| ==> !At(line, "=", j) by {
      forall j | 0 <= j < |k| ensures !At(line, "=", j) {
        assert line[j] == k[j];
        NotAtFirstCharDiffers(line, "=", j);
      }
    }
    assert IndexOf(line, "=") == |k|;
    assert line[..|k|] == k;
    assert line[|k| + 1..] == v;
  }

  /** A quoted value is read back without its quotes. */
  lemma QuotedValueReadsBack(k: string, v: string)
    requires k != "" && Trim(k) == k && '=' !in k
    requires forall m :: 0 <= m < |v| ==> !IsLineTerminator(v[m])
    ensures ParseLine(k + "=\"" + v + "\"") == Some((k, v))
  {
    var quoted := "\"" + v + "\"";
    assert k + "=\"" + v + "\"" == k + "=" + quoted;
    AssignmentLine(k, quoted);
    QuotesRemoved(v);
  }

  /** A quoted text is its own trim, and loses exactly its two quotes. */
  lemma QuotesRemoved(v: string)
    ensures Unquote(Trim("\"" + v + "\"")) == v
  {
    var quoted := "\"" + v + "\"";
    assert Trim(quoted) == quoted by {
      TrimOfTrimmed(quoted);
    }
    assert quoted[1..|quoted| - 1] == v;
  }

  /**
   * Reads `.env.local` as `check_sites.js` does: nothing when the file does
   * not exist (`envFile` is its text when it does), otherwise `split('\n')`
   * and one entry per assignment line.
   */
  method ParseEnv(envFile: Option<string>) returns (envConfig: map<string, string>)
    ensures envFile.None? ==> envConfig == map[]
    ensures envFile.Some? ==> envConfig == Config(Split(envFile.value, {'\n'}))
  {
    envConfig := map[];
    if envFile.Some? {
      var lines := Split(envFile.value, {'\n'});
      for n := 0 to |lines|
        invariant envConfig == Config(lines[..n])
      {
        var line := lines[n];
        assert lines[..n + 1] == lines[..n] + [line];
        ConfigSnoc(lines[..n], line);
        var parsed := ParseLine(line);
        if parsed.Some? {
          var (key, value) := parsed.value;
          envConfig := envConfig[key := value];
        }
      }
      assert lines[..|lines|] == lines;
    }
  }

  /** The database credentials, when both are present and non-empty; otherwise the script stops. */
  function Credentials(config: map<string, string>): (r: Option<(string, string)>)
    ensures r.Some? <==> UrlVar in config && config[UrlVar] != "" && KeyVar in config && config[KeyVar] != ""
    ensures r.Some? ==> r.value == (config[UrlVar], config[KeyVar])
  {
    if UrlVar in config && config[UrlVar] != "" && KeyVar in config && config[KeyVar] != "" then
      Some((config[UrlVar], config[KeyVar]))
    else None
  }
}
