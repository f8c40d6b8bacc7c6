/**
 * The Cowrie command hook of ai_command_hook.py: get_ai_response answers the
 * four most common commands from a fixed table and asks the backend for the
 * rest, turning every failure into a fixed text.
 *
 * The HTTP exchange is a parameter: an Outcome says whether requests.post
 * raised, and otherwise the status code and the body as JSON (None when the
 * body is not valid JSON).
 */
module CommandHook {
  import opened Wrappers
  import opened Text

  /** A JSON value, as `r.json()` decodes it. */
  datatype Json =
    | JNull
    | JBool(b: bool)
    | JNumber(n: int)
    | JString(s: string)
    | JArray(items: seq<Json>)
    | JObject(fields: map<string, Json>)

  /** What requests.post(API_URL, ...) did. */
  datatype Outcome =
    | Raised
    | Answered(status: int, body: Option<Json>)

  /** FAKE_RESPONSES (ai_command_hook.py lines 9-14). */
  const FakeResponses: map<string, string> := map[
    "ls" := "bin  etc  home  usr",
    "whoami" := "root",
    "pwd" := "/root",
    "uname" := "Linux honeypot 5.4.0"]

  const NoResponse := "(no response)"
  const AiError := "(ai error)"
  const Unavailable := "(system unavailable)"

  // ---------------------------------------------------------------------------
  // cmd_key

  /** Python's str.split() without arguments: the maximal runs of non-whitespace, in order. */
  function Split(s: string): (words: seq<string>)
    ensures words == [] <==> AllIn(s, 0, |s|, IsSpace)
    ensures forall n :: 0 <= n < |words| ==> words[n] != [] && AllIn(words[n], 0, |words[n]|, NotSpace)
    ensures words != [] ==> var i := Span(s, 0, IsSpace); words[0] == s[i..Span(s, i, NotSpace)]
    decreases |s|
  {
    var i := Span(s, 0, IsSpace);
    if i == |s| then []
    else
      var j := Span(s, i, NotSpace);
      assert AllIn(s[i..j], 0, j - i, NotSpace) by {
        assert forall k :: 0 <= k < j - i ==> s[i..j][k] == s[i + k];
      }
      [s[i..j]] + Split(s[j..])
  }

  /**
   * Split takes words off the front one at a time: whitespace, then a whole
   * word, then the rest, which is empty or starts with whitespace.
   */
  lemma SplitPadded(a: string, w: string, b: string)
    requires AllIn(a, 0, |a|, IsSpace)
    requires w != [] && AllIn(w, 0, |w|, NotSpace)
    requires b == [] || IsSpace(b[0])
    ensures Split(a + w + b) == [w] + Split(b)
  {
    var s := a + w + b;
    assert AllIn(s, 0, |a|, IsSpace) by {
      forall k | 0 <= k < |a| ensures IsSpace(s[k]) { assert s[k] == a[k]; }
    }
    assert s[|a|] == w[0];
    SpanStopsAt(s, 0, |a|, IsSpace);
    var e := |a| + |w|;
    assert AllIn(s, |a|, e, NotSpace) by {
      forall k | |a| <= k < e ensures NotSpace(s[k]) { assert s[k] == w[k - |a|]; }
    }
    assert e < |s| ==> s[e] == b[0];
    SpanStopsAt(s, |a|, e, NotSpace);
    assert s[|a|..e] == w;
    assert s[e..] == b;
  }

  /**
   * `command_text.strip().split()[0] if command_text.strip() else ""`: the
   * first word of the command, or "" when the command is blank.
   */
  function CommandKey(command: string): (key: string)
    ensures key == [] <==> AllIn(command, 0, |command|, IsSpace)
    ensures key <= Strip(command)
    ensures AllIn(key, 0, |key|, NotSpace)
    ensures |key| < |Strip(command)| ==> IsSpace(Strip(command)[|key|])
  {
    var t := Strip(command);
    if t != [] then
      assert Span(t, 0, IsSpace) == 0;
      Split(t)[0]
    else ""
  }

  // ---------------------------------------------------------------------------
  // get_ai_response

  /**
   * The reply taken from the backend: the "response" member of a 200 reply
   * (any JSON value, "(no response)" when it is missing), "(ai error)" for any
   * other status, and "(system unavailable)" when anything raised: the post
   * itself, `r.json()` on a body that is not JSON, or `.get` on JSON that is
   * not an object.
   */
  function NetworkReply(outcome: Outcome): (reply: Json)
    ensures outcome.Raised? ==> reply == JString(Unavailable)
    ensures outcome.Answered? && outcome.status != 200 ==> reply == JString(AiError)
    ensures outcome.Answered? && outcome.status == 200 && outcome.body.Some? && outcome.body.value.JObject? ==>
      reply == (if "response" in outcome.body.value.fields then outcome.body.value.fields["response"]
                else JString(NoResponse))
    ensures outcome.Answered? && outcome.status == 200 && !(outcome.body.Some? && outcome.body.value.JObject?) ==>
      reply == JString(Unavailable)
    ensures reply.JString? || (outcome.Answered? && outcome.status == 200 && outcome.body.Some?
      && outcome.body.value.JObject? && "response" in outcome.body.value.fields
      && reply == outcome.body.value.fields["response"])
  {
    match outcome
    case Raised => JString(Unavailable)
    case Answered(status, body) =>
      if status != 200 then JString(AiError)
      else
        match body
        case Some(JObject(fields)) =>
          if "response" in fields then fields["response"] else JString(NoResponse)
        case _ => JString(Unavailable)
  }

  /** get_ai_response (ai_command_hook.py lines 19-33). */
  function GetAiResponse(command: string, outcome: Outcome): (reply: Json)
    ensures CommandKey(command) in FakeResponses ==> reply == JString(FakeResponses[CommandKey(command)])
    ensures CommandKey(command) !in FakeResponses ==> reply == NetworkReply(outcome)
  {
    var key := CommandKey(command);
    if key in FakeResponses then JString(FakeResponses[key]) else NetworkReply(outcome)
  }

  // ---------------------------------------------------------------------------
  // Properties

  /** The key is the stripped command up to its first whitespace, whatever follows. */
  lemma KeyIsFirstWord(command: string, n: nat)
    requires n <= |Strip(command)|
    requires AllIn(Strip(command), 0, n, NotSpace)
    requires n < |Strip(command)| ==> IsSpace(Strip(command)[n])
    ensures CommandKey(command) == Strip(command)[..n]
  {
    var t, key := Strip(command), CommandKey(command);
    assert |key| <= n;
    assert |key| >= n;
    assert key == t[..|key|];
  }

  /** A blank command has the key "", which is not in the table, so it always goes to the backend. */
  lemma BlankCommandAsksBackend(command: string, outcome: Outcome)
    requires AllIn(command, 0, |command|, IsSpace)
    ensures GetAiResponse(command, outcome) == NetworkReply(outcome)
  {
    assert CommandKey(command) == [];
  }

  const Ls := "ls"

  /** Only the first word is looked up: "ls -la" gets the canned listing without any request. */
  lemma CannedCommandWithArguments(outcome: Outcome)
    ensures GetAiResponse(Ls + " -la", outcome) == JString("bin  etc  home  usr")
  {
    var c := Ls + " -la";
    assert IsStripped(c) by { assert !IsSpace(c[0]) && !IsSpace(c[|c| - 1]); }
    StripStripped(c);
    assert IsSpace(c[2]) && !IsSpace(c[0]) && !IsSpace(c[1]);
    KeyIsFirstWord(c, 2);
    assert c[..2] == Ls;
  }

  const Whoami := "whoami"

  /** Surrounding whitespace, a trailing newline included, does not hide a canned command. */
  lemma PaddedCommandIsCanned(outcome: Outcome)
    ensures GetAiResponse("  " + Whoami + "\n", outcome) == JString("root")
  {
    PaddedWhoamiStrips();
    LettersAreAWord(Whoami);
    KeyIsFirstWord("  " + Whoami + "\n", |Whoami|);
    assert Whoami[..|Whoami|] == Whoami;
  }

  lemma PaddedWhoamiStrips()
    ensures Strip("  " + Whoami + "\n") == Whoami
  {
    assert IsStripped(Whoami) by { assert !IsSpace('w') && !IsSpace('i'); }
    assert AllIn("  ", 0, 2, IsSpace) && AllIn("\n", 0, 1, IsSpace);
    StripPadded("  ", Whoami, "\n");
  }

  /** Lower-case ASCII letters are not whitespace. */
  lemma LettersAreAWord(w: string)
    requires forall k :: 0 <= k < |w| ==> 'a' <= w[k] <= 'z'
    ensures AllIn(w, 0, |w|, NotSpace)
  {
  }

  /** The lookup is case-sensitive: "LS" is not in the table and goes to the backend. */
  lemma KeyIsCaseSensitive(outcome: Outcome)
    ensures GetAiResponse("LS", outcome) == NetworkReply(outcome)
  {
    var c := "LS";
    assert IsStripped(c) by { assert !IsSpace('L') && !IsSpace('S'); }
    StripStripped(c);
    assert AllIn(c, 0, 2, NotSpace) by { assert !IsSpace(c[0]) && !IsSpace(c[1]); }
    KeyIsFirstWord(c, 2);
    assert c[..2] == c;
  }

  /** Whatever the backend does, a command whose key is in the table gets the table's text. */
  lemma CannedIgnoresBackend(command: string, o1: Outcome, o2: Outcome)
    requires CommandKey(command) in FakeResponses
    ensures GetAiResponse(command, o1) == GetAiResponse(command, o2)
    ensures GetAiResponse(command, o1).JString?
  {
  }

  /**
   * The reply is text unless the backend answered 200 with an object whose
   * "response" member is not a string; then that member is returned as it is.
   */
  lemma ReplyIsTextUnlessBackendSaysOtherwise(command: string, outcome: Outcome)
    ensures var reply := GetAiResponse(command, outcome);
      reply.JString? || (outcome.Answered? && outcome.status == 200 && outcome.body.Some?
        && outcome.body.value.JObject? && "response" in outcome.body.value.fields
        && !outcome.body.value.fields["response"].JString?
        && reply == outcome.body.value.fields["response"])
  {
  }
}
