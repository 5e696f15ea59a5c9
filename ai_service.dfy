/**
 * The page generator's client for an OpenAI-compatible chat endpoint
 * (services/geminiService.ts): configuration read from environment
 * variables, the key list, markdown-fence clean-up of the answer, and the
 * failover that tries each key in turn. The HTTP exchange is a function
 * parameter `call` from a request to a reply.
 */
module AiService {
  import opened Wrappers
  import opened Strings

  const DefaultBaseUrl := "https://api.openai.com/v1"
  const DefaultModel := "gpt-3.5-turbo"
  const MissingKey := "API Key is missing. Please add NEXT_PUBLIC_API_KEY to .env.local"
  const AllKeysFailed := "生成失败: 所有API Key均尝试无效。请检查配置。\n最后一次错误: "
  const Fence := "```"
  const HtmlFence := "```html"

  /** `getApiKeys`: the comma-separated list, trimmed, empty entries dropped; a missing list is an error. */
  function ApiKeys(keyVar: Option<string>): (r: Result<seq<string>, string>)
    ensures r.Failure? <==> keyVar.None? || keyVar.value == ""
    ensures r.Failure? ==> r.error == MissingKey
    ensures r.Success? ==> forall k :: 0 <= k < |r.value| ==>
              r.value[k] != "" && Trim(r.value[k]) == r.value[k] && Avoids(r.value[k], {','})
  {
    if keyVar.None? || keyVar.value == "" then Failure(MissingKey)
    else
      var pieces := Split(keyVar.value, {','});
      NonEmptyTrimmedAvoids(pieces, {','});
      Success(NonEmptyTrimmed(pieces))
  }

  /** A key followed by a comma is the next entry, trimmed, unless it is blank. */
  lemma ApiKeysAfterKey(a: string, rest: string)
    requires Avoids(a, {','})
    ensures ApiKeys(Some(a + "," + rest)) ==
              Success((if Trim(a) != "" then [Trim(a)] else []) + (if rest == "" then [] else ApiKeys(Some(rest)).value))
  {
    FieldsAfterPiece(a, ',', rest, {','});
    if rest == "" {
      FieldsOfLastPiece(rest, {','});
      assert Trim(rest) == "";
    }
  }

  /** A list without commas is one key, trimmed, or an empty list when it is blank. */
  lemma ApiKeysSingle(a: string)
    requires a != "" && Avoids(a, {','})
    ensures ApiKeys(Some(a)) == Success(if Trim(a) != "" then [Trim(a)] else [])
  {
    FieldsOfLastPiece(a, {','});
  }

  /** The base URL: the variable or the OpenAI endpoint, without one trailing slash. */
  function BaseUrlOf(urlVar: Option<string>): (u: string)
    ensures var d := OrDefault(urlVar, DefaultBaseUrl);
            && (EndsWith(d, "/") ==> u + "/" == d)
            && (!EndsWith(d, "/") ==> u == d)
  {
    var d := OrDefault(urlVar, DefaultBaseUrl);
    if EndsWith(d, "/") then
      assert d == d[..|d| - 1] + "/";
      d[..|d| - 1]
    else d
  }

  /** `getBaseUrl`, which reassigns `url`. */
  method BaseUrl(urlVar: Option<string>) returns (url: string)
    ensures url == BaseUrlOf(urlVar)
    ensures var d := OrDefault(urlVar, DefaultBaseUrl); d == url || d == url + "/"
  {
    url := OrDefault(urlVar, DefaultBaseUrl);
    if EndsWith(url, "/") {
      url := url[..|url| - 1];
    }
  }

  /** `getModel`. */
  function ModelOf(modelVar: Option<string>): (m: string)
    ensures m != ""
    ensures modelVar.Some? && modelVar.value != "" ==> m == modelVar.value
    ensures (modelVar.None? || modelVar.value == "") ==> m == DefaultModel
  {
    OrDefault(modelVar, DefaultModel)
  }

  /** The answer with every "```html" and then every "```" removed, trimmed: no fence is left. */
  function CleanFences(text: string): (r: string)
    ensures !Contains(r, Fence)
    ensures Trim(r) == r
  {
    var s := ReplaceAll(ReplaceAll(text, HtmlFence, ""), Fence, "");
    RemovingFencesLeavesNone(ReplaceAll(text, HtmlFence, ""));
    TrimIsInfix(s);
    var i, j :| 0 <= i <= j <= |s| && Trim(s) == s[i..j];
    NoFenceInSlice(s, i, j);
    TrimIdempotent(s);
    Trim(s)
  }

  /** A string that contains no fence has no fence in any slice. */
  lemma NoFenceInSlice(s: string, i: nat, j: nat)
    requires i <= j <= |s| && !Contains(s, Fence)
    ensures !Contains(s[i..j], Fence)
  {
    if Contains(s[i..j], Fence) {
      var k :| At(s[i..j], Fence, k);
      assert s[i..][..j - i] == s[i..j];
      AtInPrefix(s[i..], j - i, Fence, k);
      AtInSuffix(s, i, Fence, k);
    }
  }

  /** A match inside the left part of a concatenation is a match of that part. */
  lemma AtLeftPart(a: string, r: string, p: string, k: int)
    requires At(a + r, p, k) && k + |p| <= |a|
    ensures At(a, p, k)
  {
    assert (a + r)[k..k + |p|] == a[k..k + |p|];
  }

  /** A match inside the right part of a concatenation is a match of that part. */
  lemma AtRightPart(a: string, r: string, p: string, k: int)
    requires At(a + r, p, k) && |a| <= k
    ensures At(r, p, k - |a|)
  {
    assert (a + r)[k..k + |p|] == r[k - |a|..k - |a| + |p|];
  }

  /** Every character of a fence match is a backtick. */
  lemma CharOfMatch(s: string, k: int, m: nat)
    requires At(s, Fence, k) && m < |Fence|
    ensures s[k + m] == '`'
  {
    assert s[k + m] == s[k..k + |Fence|][m];
  }

  /**
   * Two fence-free parts, the first not ending in a backtick, join without
   * a fence: one would have to start in the first part and end in the second.
   */
  lemma JoinWithoutFence(a: string, r: string)
    requires !Contains(a, Fence) && !Contains(r, Fence)
    requires a != [] ==> a[|a| - 1] != '`'
    ensures !Contains(a + r, Fence)
  {
    if Contains(a + r, Fence) {
      var k :| At(a + r, Fence, k);
      if k + |Fence| <= |a| {
        AtLeftPart(a, r, Fence, k);
      } else if |a| <= k {
        AtRightPart(a, r, Fence, k);
      } else {
        CharOfMatch(a + r, k, |a| - 1 - k);
      }
    }
  }

  /** What comes before the first fence neither contains one nor ends in a backtick. */
  lemma BeforeFirstFence(s: string)
    requires IndexOf(s, Fence) != -1
    ensures var i := IndexOf(s, Fence);
            && !Contains(s[..i], Fence)
            && (i > 0 ==> s[i - 1] != '`')
  {
    var i := IndexOf(s, Fence);
    if Contains(s[..i], Fence) {
      var k :| At(s[..i], Fence, k);
      AtInPrefix(s, i, Fence, k);
    }
    if i > 0 && s[i - 1] == '`' {
      var f := s[i..i + 3];
      assert f == Fence;
      var w := s[i - 1..i + 2];
      assert w[0] == '`';
      assert w[1] == f[0] == '`';
      assert w[2] == f[1] == '`';
      assert w == Fence;
      assert At(s, Fence, i - 1);
    }
  }

  /** Removing every fence, left to right, leaves none. */
  lemma {:induction false} RemovingFencesLeavesNone(s: string)
    ensures !Contains(ReplaceAll(s, Fence, ""), Fence)
    decreases |s|
  {
    var i := IndexOf(s, Fence);
    if i != -1 {
      var rest := s[i + |Fence|..];
      RemovingFencesLeavesNone(rest);
      var r := ReplaceAll(rest, Fence, "");
      assert ReplaceAll(s, Fence, "") == s[..i] + r;
      BeforeFirstFence(s);
      JoinWithoutFence(s[..i], r);
    }
  }

  /** A string without backticks holds no fence. */
  lemma NoBacktickNoFence(s: string, p: string)
    requires '`' !in s && |p| > 0 && p[0] == '`'
    ensures !Contains(s, p)
  {
    if Contains(s, p) {
      var k :| At(s, p, k);
      AtFirstChar(s, p, k);
    }
  }

  /** An answer without backticks is only trimmed. */
  lemma PlainAnswerIsTrimmed(text: string)
    requires '`' !in text
    ensures CleanFences(text) == Trim(text)
  {
    NoBacktickNoFence(text, HtmlFence);
    ReplaceAllAbsent(text, HtmlFence, "");
    NoBacktickNoFence(text, Fence);
    ReplaceAllAbsent(text, Fence, "");
  }

  /** What a chat-completion request carries besides the fixed instruction text. */
  datatype Request = Request(url: string, apiKey: string, model: string, prompt: string)

  /** The first choice's content (absent when the reply has none), or the error of a failed request. */
  datatype Reply = Answered(content: Option<string>) | Failed(message: string)

  /** The endpoint, model and user prompt shared by the requests of one generation. */
  datatype Session = Session(baseUrl: string, model: string, prompt: string)

  function RequestFor(s: Session, apiKey: string): Request {
    Request(s.baseUrl + "/chat/completions", apiKey, s.model, s.prompt)
  }

  /** The position of the first key whose request is answered, or the number of keys. */
  function FirstAnswered(keys: seq<string>, call: Request -> Reply, s: Session): (i: nat)
    ensures i <= |keys|
    ensures i < |keys| ==> call(RequestFor(s, keys[i])).Answered?
    ensures forall j :: 0 <= j < i ==> call(RequestFor(s, keys[j])).Failed?
  {
    if keys == [] then 0
    else if call(RequestFor(s, keys[0])).Answered? then 0
    else 1 + FirstAnswered(keys[1..], call, s)
  }

  /** The error the last key's request failed with, or `null` when there is no key. */
  function LastError(keys: seq<string>, call: Request -> Reply, s: Session): string
    requires keys != [] ==> call(RequestFor(s, keys[|keys| - 1])).Failed?
  {
    if keys == [] then "null" else call(RequestFor(s, keys[|keys| - 1])).message
  }

  /**
   * The failover loop of `generateHtmlCode`: the keys are tried in order
   * and the first answer, cleaned, is the result; when every key fails the
   * error names the last failure. `tried` lists the keys used.
   */
  method Failover(apiKeys: seq<string>, call: Request -> Reply, session: Session)
    returns (r: Result<string, string>, tried: seq<string>)
    ensures var i := FirstAnswered(apiKeys, call, session);
            && (i < |apiKeys| ==>
                  && tried == apiKeys[..i + 1]
                  && r == Success(CleanFences(OrDefault(call(RequestFor(session, apiKeys[i])).content, ""))))
            && (i == |apiKeys| ==> tried == apiKeys && r == Failure(AllKeysFailed + LastError(apiKeys, call, session)))
  {
    ghost var first := FirstAnswered(apiKeys, call, session);
    tried := [];
    var lastError: Option<string> := None;
    var n := 0;
    while n < |apiKeys|
      invariant n <= first && n <= |apiKeys|
      invariant tried == apiKeys[..n]
      invariant n == 0 ==> lastError == None
      invariant n > 0 ==> lastError == Some(call(RequestFor(session, apiKeys[n - 1])).message)
    {
      var apiKey := apiKeys[n];
      tried := tried + [apiKey];
      var reply := call(RequestFor(session, apiKey));
      if reply.Answered? {
        assert n == first;
        var text := OrDefault(reply.content, "");
        return Success(CleanFences(text)), tried;
      }
      assert n < first;
      lastError := Some(reply.message);
      n := n + 1;
    }
    assert first == |apiKeys|;
    var shown := if lastError.Some? then lastError.value else "null";
    r := Failure(AllKeysFailed + shown);
  }

  /** `generateHtmlCode`: the configuration, then the failover over the keys. */
  method Generate(prompt: string, keyVar: Option<string>, urlVar: Option<string>, modelVar: Option<string>,
                  call: Request -> Reply)
    returns (r: Result<string, string>, tried: seq<string>)
    ensures ApiKeys(keyVar).Failure? ==> r == Failure(MissingKey) && tried == []
    ensures ApiKeys(keyVar).Success? ==>
              var keys := ApiKeys(keyVar).value;
              var s := Session(BaseUrlOf(urlVar), ModelOf(modelVar), prompt);
              var i := FirstAnswered(keys, call, s);
              && (i < |keys| ==>
                    && tried == keys[..i + 1]
                    && r == Success(CleanFences(OrDefault(call(RequestFor(s, keys[i])).content, ""))))
              && (i == |keys| ==> tried == keys && r == Failure(AllKeysFailed + LastError(keys, call, s)))
  {
    var keysResult := ApiKeys(keyVar);
    if keysResult.Failure? {
      return Failure(keysResult.error), [];
    }
    var apiKeys := keysResult.value;
    var baseUrl := BaseUrl(urlVar);
    var model := ModelOf(modelVar);
    r, tried := Failover(apiKeys, call, Session(baseUrl, model, prompt));
  }
}
