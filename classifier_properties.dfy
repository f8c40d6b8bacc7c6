/**
 * Properties of the line classifier (forwarder.py): the matches the searches
 * return are exactly the leftmost-greedy ones, the priority of the three
 * recognisers, the command each branch extracts, and worked examples.
 */
module ClassifierProperties {
  import opened Wrappers
  import opened Text
  import opened Classifier

  // ---------------------------------------------------------------------------
  // The searches return the leftmost-greedy witness and nothing else

  /** Any witness that is leftmost, then greedy in `.*` and in `\s*`, is what cmd_re.search finds. */
  lemma CmdMatchIsLeftmostGreedy(s: string, h: CmdHit)
    requires CmdWitness(s, h.bracket, h.marker, h.group)
    requires forall b: nat, e: nat, g :: CmdWitness(s, b, e, g) ==> h.bracket <= b
    requires forall e: nat, g :: CmdWitness(s, h.bracket, e, g) ==> e <= h.marker
    requires forall g :: CmdWitness(s, h.bracket, h.marker, g) ==> g.start <= h.group.start
    ensures CmdMatch(s) == Some(h)
  {
    var m := CmdMatch(s).value;
    assert m.bracket == h.bracket;
    assert m.marker == h.marker;
    assert m.group.start == h.group.start;
    assert Rest(s, h.group.start) == Some(h.group.end);
  }

  /** A leftmost dotted quad whose last run is whole is what extract_ip returns. */
  lemma ExtractIpFinds(s: string, q: Quad)
    requires QuadWitness(s, q)
    requires q.end == |s| || !IsDigit(s[q.end])
    requires forall q': Quad :: QuadWitness(s, q') ==> q.start <= q'.start
    ensures ExtractIp(s) == s[q.start..q.end]
  {
    SpanStopsAt(s, q.start, q.dot1, IsDigit);
    SpanStopsAt(s, q.dot1 + 1, q.dot2, IsDigit);
    SpanStopsAt(s, q.dot2 + 1, q.dot3, IsDigit);
    SpanStopsAt(s, q.dot3 + 1, q.end, IsDigit);
    assert QuadAt(s, q.start) == Some(q);
  }

  /**
   * A line that opens with a dotted quad, followed by anything that does not
   * start with a digit, yields that quad.
   */
  lemma LeadingQuad(ip: string, rest: string, q: Quad)
    requires QuadWitness(ip, q) && q.start == 0 && q.end == |ip|
    requires rest == [] || !IsDigit(rest[0])
    ensures ExtractIp(ip + rest) == ip
  {
    var s := ip + rest;
    assert forall k :: 0 <= k < |ip| ==> s[k] == ip[k];
    assert QuadWitness(s, q);
    assert q.end < |s| ==> s[q.end] == rest[0];
    ExtractIpFinds(s, q);
    assert s[..|ip|] == ip;
  }

  // ---------------------------------------------------------------------------
  // parse_line: priority and the extracted command

  /**
   * A cmd_re match decides the result whatever else the line holds: the command
   * is the rest of the stripped line after the "CMD:" found and the whitespace
   * that follows it.
   */
  lemma CmdBranch(raw: string, clock: string)
    requires CmdMatch(Strip(raw)).Some?
    ensures var t, h := Strip(raw), CmdMatch(Strip(raw)).value;
      && IsAt(t, h.marker, "CMD:")
      && h.marker + 4 <= h.group.start < |t|
      && AllIn(t, h.marker + 4, h.group.start, IsSpace) && !IsSpace(t[h.group.start])
      && ParseLine(raw, clock) == Some(Observed(t, t[h.group.start..], clock))
  {
    var t, h := Strip(raw), CmdMatch(Strip(raw)).value;
    GroupIsRestOfLine(t, h.marker + 4, h.group);
  }

  /** found_re is consulted only when cmd_re fails; the command is the rest after its marker. */
  lemma FoundBranch(raw: string, clock: string)
    requires CmdMatch(Strip(raw)).None? && FoundMatch(Strip(raw)).Some?
    ensures var t, h := Strip(raw), FoundMatch(Strip(raw)).value;
      && IsAt(t, h.marker, FoundMarker)
      && h.marker + |FoundMarker| <= h.group.start < |t|
      && AllIn(t, h.marker + |FoundMarker|, h.group.start, IsSpace) && !IsSpace(t[h.group.start])
      && ParseLine(raw, clock) == Some(Observed(t, t[h.group.start..], clock))
  {
    var t, h := Strip(raw), FoundMatch(Strip(raw)).value;
    GroupIsRestOfLine(t, h.marker + |FoundMarker|, h.group);
  }

  /** On a stripped line without newlines, `\s*(.+)$` matches from any i before the end. */
  lemma TailOnLine(t: string, i: nat)
    requires IsStripped(t) && AllIn(t, 0, |t|, NotNewline)
    requires i < |t|
    ensures TailWitness(t, i, Capture(Span(t, i, IsSpace), |t|))
  {
    var q := Span(t, i, IsSpace);
    assert q < |t|;
  }

  /**
   * On a line without newlines (what the tail loop reads), found_re uses the
   * leftmost "Command found:".
   */
  lemma FoundUsesFirstMarker(t: string)
    requires IsStripped(t) && AllIn(t, 0, |t|, NotNewline)
    requires FoundMatch(t).Some?
    ensures forall e: nat :: e < FoundMatch(t).value.marker ==> !IsAt(t, e, FoundMarker)
  {
    var h := FoundMatch(t).value;
    forall e: nat | e < h.marker && IsAt(t, e, FoundMarker) ensures false {
      TailOnLine(t, e + |FoundMarker|);
      assert FoundWitness(t, e, Capture(Span(t, e + |FoundMarker|, IsSpace), |t|));
    }
  }

  /**
   * On a line without newlines, cmd_re uses the last "CMD:": a later one can
   * only be a "CMD:" that ends the line, which `(.+)` cannot follow.
   */
  lemma CmdUsesLastMarker(t: string)
    requires IsStripped(t) && AllIn(t, 0, |t|, NotNewline)
    requires CmdMatch(t).Some?
    ensures forall e: nat :: CmdMatch(t).value.marker < e && IsAt(t, e, "CMD:") ==> e + 4 == |t|
  {
    var h := CmdMatch(t).value;
    forall e: nat | h.marker < e && IsAt(t, e, "CMD:") && e + 4 < |t| ensures false {
      TailOnLine(t, e + 4);
      assert CmdWitness(t, h.bracket, e, Capture(Span(t, e + 4, IsSpace), |t|));
    }
  }

  /** Without a "] " somewhere before a "CMD:", cmd_re does not match. */
  lemma CmdNeedsBracket(t: string)
    requires forall b: nat, e: nat :: IsAt(t, b, "] ") && IsAt(t, e, "CMD:") ==> e < b + 2
    ensures CmdMatch(t).None?
  {
  }

  /** The login test runs only when both command patterns fail. */
  lemma LoginBranch(raw: string, clock: string)
    requires CmdMatch(Strip(raw)).None? && FoundMatch(Strip(raw)).None?
    ensures ParseLine(raw, clock) ==
      if LoginPhrase(Strip(raw)) then Some(Observed(Strip(raw), LoginCommand, clock)) else None
  {
  }

  /** parse_line strips its input first, so a line that is already stripped is classified the same way. */
  lemma ParseLineStripInvariant(raw: string, clock: string)
    ensures ParseLine(Strip(raw), clock) == ParseLine(raw, clock)
  {
    StripIdempotent(raw);
  }

  // ---------------------------------------------------------------------------
  // Worked examples

  /** A text none of whose characters starts pat holds no occurrence of it. */
  lemma Absent(s: string, pat: string)
    requires |pat| > 0 && forall k :: 0 <= k < |s| ==> s[k] != pat[0]
    ensures forall i: nat :: !IsAt(s, i, pat)
  {
    forall i: nat ensures !IsAt(s, i, pat) {
      if i + |pat| <= |s| {
        assert s[i..i + |pat|][0] == s[i];
      }
    }
  }

  /** A Cowrie command line. */
  const CmdExample := "[12:00:01] session CMD: whoami"

  lemma CmdExampleWitness()
    ensures CmdWitness(CmdExample, 9, 19, Capture(24, 30))
  {
    var l := CmdExample;
    assert RestWitness(l, 24, 30);
    assert AllIn(l, 23, 24, IsSpace) by { assert l[23] == ' '; }
  }

  /** A character found at n and nowhere else in s occurs only at n. */
  lemma OnlyOccurrence(s: string, c: char, n: nat)
    requires n < |s|
    requires c !in s[..n] && c !in s[n + 1..]
    ensures forall k :: 0 <= k < |s| && s[k] == c ==> k == n
  {
    forall k | 0 <= k < |s| && k != n ensures s[k] != c {
      if k < n {
        assert s[k] == s[..n][k];
      } else {
        assert s[k] == s[n + 1..][k - n - 1];
      }
    }
  }

  lemma CmdExampleOnlyBracket()
    ensures forall b: nat :: IsAt(CmdExample, b, "] ") ==> b == 9
  {
    var l := CmdExample;
    CmdExampleBeforeBracket();
    CmdExampleAfterBracket();
    CmdExampleCharAt(']', 9, "[12:00:01", " session CMD: whoami");
    forall b: nat | IsAt(l, b, "] ") ensures b == 9 {
      assert l[b] == l[b..b + 2][0] == ']';
    }
  }

  lemma CmdExampleOnlyMarker()
    ensures forall e: nat :: IsAt(CmdExample, e, "CMD:") ==> e == 19
  {
    var l := CmdExample;
    CmdExampleCharAt('C', 19, "[12:00:01] session ", "MD: whoami");
    forall e: nat | IsAt(l, e, "CMD:") ensures e == 19 {
      assert l[e] == l[e..e + 4][0] == 'C';
    }
  }

  /** The example line before its "]"; kept apart from the text after it so that each proof stays small. */
  lemma CmdExampleBeforeBracket()
    ensures CmdExample[..9] == "[12:00:01" && ']' !in "[12:00:01"
  {
  }

  lemma CmdExampleAfterBracket()
    ensures CmdExample[10..] == " session CMD: whoami" && ']' !in " session CMD: whoami"
  {
  }

  /** c occurs in the example line only at n, given the text on either side of it. */
  lemma CmdExampleCharAt(c: char, n: nat, before: string, after: string)
    requires n < |CmdExample|
    requires CmdExample[..n] == before && c !in before
    requires CmdExample[n + 1..] == after && c !in after
    ensures forall k :: 0 <= k < |CmdExample| && CmdExample[k] == c ==> k == n
  {
    OnlyOccurrence(CmdExample, c, n);
  }

  /** cmd_re finds "] " at 9, "CMD:" at 19 and the group "whoami". */
  lemma CmdExampleMatch()
    ensures CmdMatch(CmdExample) == Some(CmdHit(9, 19, Capture(24, 30)))
  {
    CmdExampleWitness();
    CmdExampleOnlyBracket();
    CmdExampleOnlyMarker();
    assert !IsSpace(CmdExample[24]);
    CmdMatchIsLeftmostGreedy(CmdExample, CmdHit(9, 19, Capture(24, 30)));
  }

  lemma CmdExampleNoIp()
    ensures ExtractIp(CmdExample) == Unknown
  {
    assert '.' !in CmdExample;
    assert forall k :: 0 <= k < |CmdExample| ==> CmdExample[k] != '.';
  }

  /** The command line becomes a "whoami" event with an unknown source address. */
  lemma CmdExampleEvent(clock: string)
    ensures ParseLine(CmdExample, clock)
      == Some(Event(clock + "Z", None, "unknown", None, "ssh", None, "whoami", CmdExample))
  {
    assert CmdExample[24..30] == "whoami";
    assert IsStripped("whoami") by { assert !IsSpace('w') && !IsSpace('i'); }
    StripStripped("whoami");
    StripStripped(CmdExample);
    CmdExampleMatch();
    CmdExampleNoIp();
  }

  const FirstFour := "1.2.3.4"

  /** ip_re takes the first four runs of "1.2.3.4.5"; a fifth run is not part of the address. */
  lemma FiveRunsGiveFirstFour()
    ensures ExtractIp(FirstFour + ".5") == FirstFour
  {
    FirstFourIsQuad();
    LeadingQuad(FirstFour, ".5", Quad(0, 1, 3, 5, 7));
  }

  lemma FirstFourIsQuad()
    ensures QuadWitness(FirstFour, Quad(0, 1, 3, 5, 7))
  {
    var ip := FirstFour;
    assert forall k :: k in {0, 2, 4, 6} ==> IsDigit(ip[k]);
  }

  /** ip_re checks no octet range: "999.1.2.3" is returned as an address. */
  lemma OctetsAreNotRangeChecked()
    ensures ExtractIp("999.1.2.3") == "999.1.2.3"
  {
    var ip := "999.1.2.3";
    assert QuadWitness(ip, Quad(0, 3, 5, 7, 9));
    LeadingQuad(ip, "", Quad(0, 3, 5, 7, 9));
    assert ip + "" == ip;
  }

  /** lower() commutes with slicing. */
  lemma LowerSlice(s: string, i: nat, j: nat)
    requires i <= j <= |s|
    ensures Lower(s)[i..j] == Lower(s[i..j])
  {
  }

  /** lower() leaves spaces and lower-case ASCII letters alone. */
  lemma LowerKeepsLowerCase(s: string)
    requires forall k :: 0 <= k < |s| ==> s[k] == ' ' || 'a' <= s[k] <= 'z'
    ensures Lower(s) == s
  {
  }

  /** The thirteen characters at i are "login attempt" in some capitalisation. */
  predicate LoginAttemptAt(line: string, i: nat) {
    i + 13 <= |line| && Lower(line[i..i + 13]) == "login attempt"
  }

  /**
   * The login test finds "login attempt" in any capitalisation: a line passes
   * it exactly when it holds "unauthorized login" as written, or thirteen
   * characters that lower() turns into "login attempt".
   */
  lemma LoginPhraseAnyCase(line: string)
    ensures LoginPhrase(line) <==>
      Occurs("unauthorized login", line) || exists i: nat :: LoginAttemptAt(line, i)
  {
    if exists i: nat :: LoginAttemptAt(line, i) {
      var i: nat :| LoginAttemptAt(line, i);
      LowerSlice(line, i, i + 13);
      assert IsAt(Lower(line), i, "login attempt");
    }
    if Occurs("login attempt", Lower(line)) {
      var i :| 0 <= i <= |Lower(line)| && IsAt(Lower(line), i, "login attempt");
      LowerSlice(line, i, i + 13);
      assert LoginAttemptAt(line, i);
    }
  }

  /** A login line with no command marker; the phrase is capitalised. */
  const LoginAddress := "10.0.0.5"
  const LoginExample := LoginAddress + " Login attempt failed"

  lemma LoginExampleNoCommand()
    ensures CmdMatch(LoginExample).None? && FoundMatch(LoginExample).None?
  {
    var l := LoginExample;
    assert ']' !in l && 'C' !in l;
    assert forall k :: 0 <= k < |l| ==> l[k] != ']' && l[k] != 'C';
    Absent(l, "] ");
    Absent(l, FoundMarker);
  }

  lemma LoginPhraseLowered()
    ensures Lower("Login attempt") == "login attempt"
  {
    var w := "ogin attempt";
    assert forall k :: 0 <= k < |w| ==> w[k] == ' ' || 'a' <= w[k] <= 'z';
    LowerKeepsLowerCase(w);
    assert Lower("Login attempt") == [LowerChar('L')] + Lower(w);
  }

  /** "login attempt" is looked for in the lowered line, so the capital L does not hide it. */
  lemma LoginExamplePhrase()
    ensures LoginPhrase(LoginExample)
  {
    assert LoginExample[9..22] == "Login attempt";
    LowerSlice(LoginExample, 9, 22);
    LoginPhraseLowered();
    assert IsAt(Lower(LoginExample), 9, "login attempt");
  }

  lemma LoginExampleIp()
    ensures ExtractIp(LoginExample) == "10.0.0.5"
  {
    assert QuadWitness(LoginAddress, Quad(0, 2, 4, 6, 8));
    LeadingQuad(LoginAddress, " Login attempt failed", Quad(0, 2, 4, 6, 8));
  }

  /** The login line becomes a "login_attempt" event carrying the address in it. */
  lemma LoginExampleEvent(clock: string)
    ensures ParseLine(LoginExample, clock)
      == Some(Event(clock + "Z", None, "10.0.0.5", None, "ssh", None, "login_attempt", LoginExample))
  {
    StripStripped(LoginExample);
    LoginExampleNoCommand();
    LoginExamplePhrase();
    LoginExampleIp();
  }
}
