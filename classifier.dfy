/**
 * The line classifier of forwarder.py: the three regular expressions cmd_re,
 * found_re and ip_re, extract_ip and parse_line.
 *
 * Each regular expression is modelled twice. A "witness" predicate says which
 * spans the pattern can match at all; a search function does what Python's
 * backtracking engine does with re.search: it tries start positions from the
 * left, lets each greedy quantifier take as much as it can, and gives back one
 * character at a time until the rest of the pattern matches. The contracts of
 * the search functions prove that the engine picks the leftmost witness and,
 * within it, the one each greedy quantifier prefers.
 *
 * As in Python without flags: `.` matches anything but a newline, `$` matches
 * at the end of the text or just before a newline that ends it, and `\s` is
 * Python's whitespace (Text.IsSpace).
 */
module Classifier {
  import opened Wrappers
  import opened Text

  predicate NotNewline(c: char) { c != '\n' }

  /** A capture group: the text s[start..end]. */
  datatype Capture = Capture(start: nat, end: nat)

  /** `$` without MULTILINE: at the end of the text, or just before a newline that ends it. */
  predicate EndAnchor(s: string, r: nat) {
    r == |s| || (r + 1 == |s| && s[r] == '\n')
  }

  // ---------------------------------------------------------------------------
  // `(.+)$`, the capture that ends cmd_re and found_re

  /** `(.+)$` can match s[p..r]. */
  ghost predicate RestWitness(s: string, p: nat, r: nat) {
    p < r <= |s| && AllIn(s, p, r, NotNewline) && EndAnchor(s, r)
  }

  /** `(.+)$` at p: `.+` takes the whole run of non-newlines; `$` must hold after it. */
  function Rest(s: string, p: nat): (m: Option<nat>)
    requires p <= |s|
    ensures m.Some? ==> RestWitness(s, p, m.value)
    ensures forall r: nat :: RestWitness(s, p, r) ==> m == Some(r)
  {
    var r := Span(s, p, NotNewline);
    if p < r && EndAnchor(s, r) then Some(r) else None
  }

  // ---------------------------------------------------------------------------
  // `\s*(.+)$`

  /** `\s*(.+)$` can match from i with the group g. */
  ghost predicate TailWitness(s: string, i: nat, g: Capture) {
    i <= g.start && AllIn(s, i, g.start, IsSpace) && RestWitness(s, g.start, g.end)
  }

  /** `\s*` gives back one character at a time, from p down to i, until `(.+)$` matches. */
  function TailBack(s: string, i: nat, p: nat): (m: Option<Capture>)
    requires i <= p <= |s|
    ensures m.Some? ==> i <= m.value.start <= p && Rest(s, m.value.start) == Some(m.value.end)
    ensures m.Some? ==> forall p' :: m.value.start < p' <= p ==> Rest(s, p').None?
    ensures m.None? ==> forall p' :: i <= p' <= p ==> Rest(s, p').None?
    decreases p
  {
    match Rest(s, p)
    case Some(r) => Some(Capture(p, r))
    case None => if p == i then None else TailBack(s, i, p - 1)
  }

  /** `\s*(.+)$` from i: the leading whitespace is taken greedily. */
  function Tail(s: string, i: nat): (m: Option<Capture>)
    requires i <= |s|
    ensures m.Some? ==> TailWitness(s, i, m.value)
    ensures m.Some? ==> forall g :: TailWitness(s, i, g) ==> g.start <= m.value.start
    ensures m.None? ==> forall g :: !TailWitness(s, i, g)
  {
    TailBounds(s, i);
    TailBack(s, i, Span(s, i, IsSpace))
  }

  /** A group `\s*` can leave starts within the whitespace run, where `(.+)$` matches. */
  lemma TailBounds(s: string, i: nat)
    requires i <= |s|
    ensures forall g :: TailWitness(s, i, g) ==> g.start <= Span(s, i, IsSpace) && Rest(s, g.start) == Some(g.end)
  {
    forall g | TailWitness(s, i, g) ensures g.start <= Span(s, i, IsSpace) {
      SpanCovers(s, i, g.start, IsSpace);
    }
  }

  /**
   * On a stripped line, the group of `\s*(.+)$` runs to the end of the line and
   * starts at its first non-whitespace character, so stripping it changes nothing.
   */
  lemma GroupIsRestOfLine(t: string, i: nat, g: Capture)
    requires IsStripped(t)
    requires TailWitness(t, i, g)
    requires forall g' :: TailWitness(t, i, g') ==> g'.start <= g.start
    ensures g.start < g.end == |t|
    ensures AllIn(t, i, g.start, IsSpace) && !IsSpace(t[g.start])
    ensures Strip(t[g.start..g.end]) == t[g.start..]
  {
    assert IsSpace('\n');
    assert g.end == |t|;
    if IsSpace(t[g.start]) {
      TailWitnessShift(t, i, g);
      assert false;
    }
    var u := t[g.start..];
    assert u == t[g.start..g.end];
    assert u[0] == t[g.start] && u[|u| - 1] == t[|t| - 1];
    StripStripped(u);
  }

  /** On a stripped line, a group that starts with whitespace can give it to `\s*`. */
  lemma TailWitnessShift(t: string, i: nat, g: Capture)
    requires IsStripped(t)
    requires TailWitness(t, i, g) && g.end == |t|
    requires IsSpace(t[g.start])
    ensures TailWitness(t, i, Capture(g.start + 1, |t|))
  {
    assert g.start + 1 < |t|;
    var g' := Capture(g.start + 1, |t|);
    assert AllIn(t, i, g'.start, IsSpace);
    assert RestWitness(t, g'.start, g'.end);
  }

  // ---------------------------------------------------------------------------
  // cmd_re = `\] .*CMD:\s*(.+)$`  (forwarder.py line 21)

  /** cmd_re can match with "] " at b, `.*` over s[b+2..e], "CMD:" at e and the group g. */
  ghost predicate CmdWitness(s: string, b: nat, e: nat, g: Capture) {
    && IsAt(s, b, "] ")
    && b + 2 <= e
    && AllIn(s, b + 2, e, NotNewline)
    && IsAt(s, e, "CMD:")
    && TailWitness(s, e + 4, g)
  }

  /** A match of cmd_re: where "] " and "CMD:" were found, and the group. */
  datatype CmdHit = CmdHit(bracket: nat, marker: nat, group: Capture)

  /**
   * `.*` gives back one character at a time, from e down to lo, until "CMD:"
   * and the tail match. Only the marker and the group of the result matter:
   * its bracket field holds lo, and CmdAt puts the position of "] " there.
   */
  function CmdBack(s: string, lo: nat, e: nat): (m: Option<CmdHit>)
    requires lo <= e <= |s|
    ensures m.Some? ==> lo <= m.value.marker <= e && IsAt(s, m.value.marker, "CMD:")
    ensures m.Some? ==> Tail(s, m.value.marker + 4) == Some(m.value.group)
    decreases e
  {
    if IsAt(s, e, "CMD:") && Tail(s, e + 4).Some? then Some(CmdHit(lo, e, Tail(s, e + 4).value))
    else if e == lo then None
    else CmdBack(s, lo, e - 1)
  }

  /**
   * CmdBack stops at the last "CMD:" in range that the tail can follow: a
   * marker x that works means it succeeds, at x or later.
   */
  lemma {:induction false} CmdBackReaches(s: string, lo: nat, e: nat, x: nat)
    requires lo <= x <= e <= |s|
    requires IsAt(s, x, "CMD:") && Tail(s, x + 4).Some?
    ensures CmdBack(s, lo, e).Some? && x <= CmdBack(s, lo, e).value.marker
    decreases e
  {
    if IsAt(s, e, "CMD:") && Tail(s, e + 4).Some? {
      assert CmdBack(s, lo, e) == Some(CmdHit(lo, e, Tail(s, e + 4).value));
    } else {
      assert x < e;
      CmdBackReaches(s, lo, e - 1, x);
      assert CmdBack(s, lo, e) == CmdBack(s, lo, e - 1);
    }
  }

  /** CmdBack fails only when no "CMD:" in range can be followed by the tail, and skips none that can. */
  lemma CmdBackIsLast(s: string, lo: nat, e: nat)
    requires lo <= e <= |s|
    ensures forall x :: lo <= x <= e && IsAt(s, x, "CMD:") && Tail(s, x + 4).Some? ==>
      CmdBack(s, lo, e).Some? && x <= CmdBack(s, lo, e).value.marker
  {
    forall x | lo <= x <= e && IsAt(s, x, "CMD:") && Tail(s, x + 4).Some?
      ensures CmdBack(s, lo, e).Some? && x <= CmdBack(s, lo, e).value.marker
    {
      CmdBackReaches(s, lo, e, x);
    }
  }

  /** cmd_re anchored at b: the match the engine finds starting there, if any. */
  function CmdAt(s: string, b: nat): (m: Option<CmdHit>)
    requires b <= |s|
    ensures m.Some? ==> m.value.bracket == b && CmdWitness(s, b, m.value.marker, m.value.group)
    ensures m.Some? ==> forall e: nat, g :: CmdWitness(s, b, e, g) ==> e <= m.value.marker
    ensures m.Some? ==> forall g :: CmdWitness(s, b, m.value.marker, g) ==> g.start <= m.value.group.start
    ensures m.None? ==> forall e: nat, g :: !CmdWitness(s, b, e, g)
  {
    if IsAt(s, b, "] ") then
      CmdBackIsLast(s, b + 2, Span(s, b + 2, NotNewline));
      match CmdBack(s, b + 2, Span(s, b + 2, NotNewline))
      case Some(h) => Some(CmdHit(b, h.marker, h.group))
      case None => None
    else None
  }

  /** re.search with cmd_re, trying start positions from b on. */
  function CmdSearch(s: string, b: nat): (m: Option<CmdHit>)
    requires b <= |s|
    ensures m.Some? ==> b <= m.value.bracket <= |s| && CmdAt(s, m.value.bracket) == m
    ensures m.Some? ==> forall b': nat, e: nat, g :: b <= b' < m.value.bracket ==> !CmdWitness(s, b', e, g)
    ensures m.None? ==> forall b': nat, e: nat, g :: b <= b' ==> !CmdWitness(s, b', e, g)
    decreases |s| - b
  {
    match CmdAt(s, b)
    case Some(h) => Some(h)
    case None => if b < |s| then CmdSearch(s, b + 1) else None
  }

  /**
   * `cmd_re.search(line)`: None exactly when no witness exists; otherwise the
   * leftmost "] ", then the last "CMD:" the greedy `.*` can reach, then the
   * group after the longest run of whitespace.
   */
  function CmdMatch(s: string): (m: Option<CmdHit>)
    ensures m.None? <==> forall b: nat, e: nat, g :: !CmdWitness(s, b, e, g)
    ensures m.Some? ==> CmdWitness(s, m.value.bracket, m.value.marker, m.value.group)
    ensures m.Some? ==> forall b: nat, e: nat, g :: CmdWitness(s, b, e, g) ==> m.value.bracket <= b
    ensures m.Some? ==> forall e: nat, g :: CmdWitness(s, m.value.bracket, e, g) ==> e <= m.value.marker
    ensures m.Some? ==> forall g :: CmdWitness(s, m.value.bracket, m.value.marker, g) ==> g.start <= m.value.group.start
  {
    CmdSearch(s, 0)
  }

  // ---------------------------------------------------------------------------
  // found_re = `Command found:\s*(.+)$`  (forwarder.py line 22)

  const FoundMarker := "Command found:"

  /** found_re can match with the marker at e and the group g. */
  ghost predicate FoundWitness(s: string, e: nat, g: Capture) {
    IsAt(s, e, FoundMarker) && TailWitness(s, e + |FoundMarker|, g)
  }

  /** A match of found_re: where the marker was found, and the group. */
  datatype FoundHit = FoundHit(marker: nat, group: Capture)

  /** re.search with found_re, trying start positions from e on. */
  function FoundSearch(s: string, e: nat): (m: Option<FoundHit>)
    requires e <= |s|
    ensures m.Some? ==> e <= m.value.marker && FoundWitness(s, m.value.marker, m.value.group)
    ensures m.Some? ==> forall g :: FoundWitness(s, m.value.marker, g) ==> g.start <= m.value.group.start
    ensures m.Some? ==> forall e', g :: e <= e' < m.value.marker ==> !FoundWitness(s, e', g)
    ensures m.None? ==> forall e', g :: e <= e' ==> !FoundWitness(s, e', g)
    decreases |s| - e
  {
    if IsAt(s, e, FoundMarker) && Tail(s, e + |FoundMarker|).Some? then
      Some(FoundHit(e, Tail(s, e + |FoundMarker|).value))
    else if e < |s| then FoundSearch(s, e + 1)
    else None
  }

  /** `found_re.search(line)`: the leftmost marker followed by a non-empty rest of line. */
  function FoundMatch(s: string): (m: Option<FoundHit>)
    ensures m.None? <==> forall e, g :: !FoundWitness(s, e, g)
    ensures m.Some? ==> FoundWitness(s, m.value.marker, m.value.group)
    ensures m.Some? ==> forall e, g :: FoundWitness(s, e, g) ==> m.value.marker <= e
    ensures m.Some? ==> forall g :: FoundWitness(s, m.value.marker, g) ==> g.start <= m.value.group.start
  {
    FoundSearch(s, 0)
  }

  // ---------------------------------------------------------------------------
  // ip_re = `(\d+\.\d+\.\d+\.\d+)`  (forwarder.py line 23)

  /** The four digit runs of a dotted quad: s[start..dot1], s[dot1+1..dot2], s[dot2+1..dot3], s[dot3+1..end]. */
  datatype Quad = Quad(start: nat, dot1: nat, dot2: nat, dot3: nat, end: nat)

  /** ip_re can match the span q; no run is range-checked. */
  ghost predicate QuadWitness(s: string, q: Quad) {
    && q.start < q.dot1 && q.dot1 + 1 < q.dot2 && q.dot2 + 1 < q.dot3 && q.dot3 + 1 < q.end <= |s|
    && AllIn(s, q.start, q.dot1, IsDigit) && s[q.dot1] == '.'
    && AllIn(s, q.dot1 + 1, q.dot2, IsDigit) && s[q.dot2] == '.'
    && AllIn(s, q.dot2 + 1, q.dot3, IsDigit) && s[q.dot3] == '.'
    && AllIn(s, q.dot3 + 1, q.end, IsDigit)
  }

  /**
   * ip_re anchored at st. Giving back a digit never helps (a dot would have to
   * match a digit), so each `\d+` takes its whole run.
   */
  function QuadAt(s: string, st: nat): (m: Option<Quad>)
    requires st <= |s|
    ensures m.Some? ==> m.value.start == st && QuadWitness(s, m.value)
    ensures m.Some? ==> forall q: Quad :: q.start == st && QuadWitness(s, q) ==> q.end <= m.value.end
    ensures m.None? ==> forall q: Quad :: q.start == st ==> !QuadWitness(s, q)
  {
    var a := Span(s, st, IsDigit);
    if st < a < |s| && s[a] == '.' then
      var b := Span(s, a + 1, IsDigit);
      if a + 1 < b < |s| && s[b] == '.' then
        var c := Span(s, b + 1, IsDigit);
        if b + 1 < c < |s| && s[c] == '.' then
          var j := Span(s, c + 1, IsDigit);
          if c + 1 < j then Some(Quad(st, a, b, c, j)) else None
        else None
      else None
    else None
  }

  /** re.search with ip_re, trying start positions from st on. */
  function IpSearch(s: string, st: nat): (m: Option<Quad>)
    requires st <= |s|
    ensures m.Some? ==> st <= m.value.start <= |s| && QuadAt(s, m.value.start) == m
    ensures m.Some? ==> forall q: Quad :: st <= q.start < m.value.start ==> !QuadWitness(s, q)
    ensures m.None? ==> forall q: Quad :: st <= q.start ==> !QuadWitness(s, q)
    decreases |s| - st
  {
    match QuadAt(s, st)
    case Some(q) => Some(q)
    case None => if st < |s| then IpSearch(s, st + 1) else None
  }

  /** `ip_re.search(line)`: the leftmost dotted quad, its last run taken whole. */
  function IpMatch(s: string): (m: Option<Quad>)
    ensures m.None? <==> forall q: Quad :: !QuadWitness(s, q)
    ensures m.Some? ==> QuadWitness(s, m.value) && QuadAt(s, m.value.start) == m
    ensures m.Some? ==> forall q: Quad :: QuadWitness(s, q) ==> m.value.start <= q.start
    ensures m.Some? ==> forall q: Quad :: QuadWitness(s, q) && q.start == m.value.start ==> q.end <= m.value.end
  {
    IpSearch(s, 0)
  }

  const Unknown := "unknown"

  /** extract_ip (forwarder.py lines 25-27). */
  function ExtractIp(line: string): (ip: string)
    ensures ip == Unknown <==> forall q: Quad :: !QuadWitness(line, q)
    ensures ip != Unknown ==> forall k :: 0 <= k < |ip| ==> IsDigit(ip[k]) || ip[k] == '.'
  {
    match IpMatch(line)
    case Some(q) =>
      QuadText(line, q);
      line[q.start..q.end]
    case None => Unknown
  }

  /** The text of a dotted quad is digits and dots, starting with a digit. */
  lemma QuadText(s: string, q: Quad)
    requires QuadWitness(s, q)
    ensures var t := s[q.start..q.end]; IsDigit(t[0]) && forall k :: 0 <= k < |t| ==> IsDigit(t[k]) || t[k] == '.'
  {
    var t := s[q.start..q.end];
    forall k | 0 <= k < |t| ensures IsDigit(t[k]) || t[k] == '.' {
      var n := q.start + k;
      assert t[k] == s[n];
      if n < q.dot1 {
      } else if n == q.dot1 || n == q.dot2 || n == q.dot3 {
      } else if n < q.dot2 {
        assert AllIn(s, q.dot1 + 1, q.dot2, IsDigit);
      } else if n < q.dot3 {
        assert AllIn(s, q.dot2 + 1, q.dot3, IsDigit);
      } else {
        assert AllIn(s, q.dot3 + 1, q.end, IsDigit);
      }
    }
  }

  // ---------------------------------------------------------------------------
  // parse_line (forwarder.py lines 29-77)

  /** The event dict parse_line returns; fields the line never carries are None. */
  datatype Event = Event(
    timestamp: string,
    sessionId: Option<string>,
    srcIp: string,
    srcPort: Option<int>,
    destService: string,
    username: Option<string>,
    command: string,
    metadata: string)

  /**
   * The dict literal every branch of parse_line builds; `clock` stands for
   * datetime.utcnow().isoformat(), read when the branch returns.
   */
  function Observed(line: string, command: string, clock: string): (ev: Event)
    ensures ev.metadata == line && ev.command == command
    ensures ev.timestamp == clock + "Z" && ev.destService == "ssh"
    ensures ev.srcIp == ExtractIp(line) && (ev.srcIp == Unknown <==> forall q: Quad :: !QuadWitness(line, q))
    ensures ev.sessionId.None? && ev.srcPort.None? && ev.username.None?
  {
    Event(clock + "Z", None, ExtractIp(line), None, "ssh", None, command, line)
  }

  /**
   * The login test: one phrase case-sensitive, the other after lower(). The
   * lower-case phrase is found as it stands, and no line shorter than it
   * passes.
   */
  predicate LoginPhrase(line: string): (b: bool)
    ensures Occurs("unauthorized login", line) ==> b
    ensures Occurs("login attempt", line) ==> b
    ensures b ==> |line| >= |"login attempt"|
  {
    LowerKeepsPhrase(line);
    Occurs("unauthorized login", line) || Occurs("login attempt", Lower(line))
  }

  /** Where "login attempt" occurs in a line, it occurs in the lowered line too. */
  lemma LowerKeepsPhrase(line: string)
    ensures Occurs("login attempt", line) ==> Occurs("login attempt", Lower(line))
  {
    if Occurs("login attempt", line) {
      var i :| 0 <= i <= |line| && IsAt(line, i, "login attempt");
      var w := "login attempt";
      forall k | 0 <= k < |w| ensures Lower(line)[i + k] == w[k] {
        assert line[i + k] == line[i..i + |w|][k];
      }
      assert Lower(line)[i..i + |w|] == w;
      assert IsAt(Lower(line), i, w);
    }
  }

  const LoginCommand := "login_attempt"

  /** parse_line: the first recogniser that matches the stripped line decides. */
  function ParseLine(raw: string, clock: string): (ev: Option<Event>)
    ensures ev.Some? ==> var e := ev.value;
      && e.metadata == Strip(raw)
      && e.srcIp == ExtractIp(Strip(raw))
      && e.timestamp == clock + "Z"
      && e.destService == "ssh"
      && e.sessionId.None? && e.srcPort.None? && e.username.None?
      && e.command != []
    ensures ev.None? <==>
      CmdMatch(Strip(raw)).None? && FoundMatch(Strip(raw)).None? && !LoginPhrase(Strip(raw))
  {
    var line := Strip(raw);
    match CmdMatch(line)
    case Some(h) =>
      GroupIsRestOfLine(line, h.marker + 4, h.group);
      Some(Observed(line, Strip(line[h.group.start..h.group.end]), clock))
    case None =>
      match FoundMatch(line)
      case Some(h) =>
        GroupIsRestOfLine(line, h.marker + |FoundMarker|, h.group);
        Some(Observed(line, Strip(line[h.group.start..h.group.end]), clock))
      case None =>
        if LoginPhrase(line) then Some(Observed(line, LoginCommand, clock)) else None
  }
}
