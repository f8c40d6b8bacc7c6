/**
 * Character classes and string helpers shared by the Python and JavaScript
 * parts of the pipeline.
 */
module Text {

  /**
   * Python's str.isspace(): the characters that str.strip(), str.split() and the
   * regular-expression class \s all treat as whitespace.
   */
  predicate IsSpace(c: char) {
    || ('\t' <= c <= '\r')
    || ('\U{1C}' <= c <= ' ')
    || c == '\U{85}' || c == '\U{A0}' || c == '\U{1680}'
    || ('\U{2000}' <= c <= '\U{200A}')
    || c == '\U{2028}' || c == '\U{2029}' || c == '\U{202F}' || c == '\U{205F}' || c == '\U{3000}'
  }

  predicate IsDigit(c: char) { '0' <= c <= '9' }

  /** Every character of s[i..j] satisfies p. */
  ghost predicate AllIn(s: string, i: nat, j: nat, p: char -> bool) {
    forall k :: i <= k < j && k < |s| ==> p(s[k])
  }

  /** `pat` occurs in `s` starting at index i. */
  predicate IsAt(s: string, i: nat, pat: string) {
    i + |pat| <= |s| && s[i..i + |pat|] == pat
  }

  /** Python's `pat in s` on strings. */
  predicate Occurs(pat: string, s: string) {
    exists i | 0 <= i <= |s| :: IsAt(s, i, pat)
  }

  /** The end of the longest run of characters satisfying p that starts at i. */
  function Span(s: string, i: nat, p: char -> bool): (j: nat)
    requires i <= |s|
    ensures i <= j <= |s|
    ensures AllIn(s, i, j, p)
    ensures j < |s| ==> !p(s[j])
    decreases |s| - i
  {
    if i < |s| && p(s[i]) then Span(s, i + 1, p) else i
  }

  /** A run that ends at a character failing p is exactly the span. */
  lemma SpanStopsAt(s: string, i: nat, k: nat, p: char -> bool)
    requires i <= k <= |s|
    requires AllIn(s, i, k, p)
    requires k == |s| || !p(s[k])
    ensures Span(s, i, p) == k
  {
  }

  /** Any run of characters satisfying p from i lies within the span. */
  lemma SpanCovers(s: string, i: nat, k: nat, p: char -> bool)
    requires i <= k <= |s|
    requires AllIn(s, i, k, p)
    ensures k <= Span(s, i, p)
  {
  }

  /** One character of str.lower(), for the ASCII letters only. */
  function LowerChar(c: char): char {
    if 'A' <= c <= 'Z' then (c as int + 32) as char else c
  }

  /**
   * str.lower(), folding the ASCII letters only: the same length, no capital
   * letter left, each capital replaced by its small letter and every other
   * character kept.
   */
  function Lower(s: string): (t: string)
    ensures |t| == |s|
    ensures forall k :: 0 <= k < |t| ==> !('A' <= t[k] <= 'Z')
    ensures forall k :: 0 <= k < |t| && 'A' <= s[k] <= 'Z' ==> t[k] as int == s[k] as int + 32
    ensures forall k :: 0 <= k < |t| && !('A' <= s[k] <= 'Z') ==> t[k] == s[k]
  {
    seq(|s|, k requires 0 <= k < |s| => LowerChar(s[k]))
  }

  /** A string Python's str.strip() leaves unchanged. */
  predicate IsStripped(t: string) {
    t == [] || (!IsSpace(t[0]) && !IsSpace(t[|t| - 1]))
  }

  predicate NotSpace(c: char) { !IsSpace(c) }

  /** The start of the last run of whitespace that ends at j. */
  function TrimEnd(s: string, j: nat): (k: nat)
    requires j <= |s|
    ensures k <= j
    ensures AllIn(s, k, j, IsSpace)
    ensures k > 0 ==> !IsSpace(s[k - 1])
    decreases j
  {
    if j > 0 && IsSpace(s[j - 1]) then TrimEnd(s, j - 1) else j
  }

  /** Python's str.strip() with no argument. */
  function Strip(s: string): (t: string)
    ensures IsStripped(t)
    ensures |t| <= |s|
    ensures t == [] <==> AllIn(s, 0, |s|, IsSpace)
  {
    var i := Span(s, 0, IsSpace);
    if i == |s| then []
    else
      var j := TrimEnd(s, |s|);
      assert i < j by {
        assert !IsSpace(s[i]);
      }
      s[i..j]
  }

  /** Strip removes exactly the surrounding whitespace: it inverts padding. */
  lemma {:induction false} StripPadded(a: string, t: string, b: string)
    requires AllIn(a, 0, |a|, IsSpace) && AllIn(b, 0, |b|, IsSpace)
    requires IsStripped(t)
    ensures Strip(a + t + b) == t
  {
    var s := a + t + b;
    if t == [] {
      assert AllIn(s, 0, |s|, IsSpace) by {
        forall k | 0 <= k < |s| ensures IsSpace(s[k]) {
          if k < |a| { assert s[k] == a[k]; } else { assert s[k] == b[k - |a|]; }
        }
      }
    } else {
      assert AllIn(s, 0, |a|, IsSpace) by {
        forall k | 0 <= k < |a| ensures IsSpace(s[k]) { assert s[k] == a[k]; }
      }
      assert s[|a|] == t[0];
      SpanStopsAt(s, 0, |a|, IsSpace);
      var e := |a| + |t|;
      assert s[e - 1] == t[|t| - 1];
      assert AllIn(s, e, |s|, IsSpace) by {
        forall k | e <= k < |s| ensures IsSpace(s[k]) { assert s[k] == b[k - e]; }
      }
      TrimEndStops(s, e);
      assert s[|a|..e] == t;
    }
  }

  lemma TrimEndStops(s: string, e: nat)
    requires 0 < e <= |s|
    requires AllIn(s, e, |s|, IsSpace)
    requires !IsSpace(s[e - 1])
    ensures TrimEnd(s, |s|) == e
  {
  }

  /** A stripped string is its own strip. */
  lemma StripStripped(t: string)
    requires IsStripped(t)
    ensures Strip(t) == t
  {
    StripPadded([], t, []);
    assert [] + t + [] == t;
  }

  /** Stripping twice is stripping once. */
  lemma StripIdempotent(s: string)
    ensures Strip(Strip(s)) == Strip(s)
  {
    StripPadded([], Strip(s), []);
    assert [] + Strip(s) + [] == Strip(s);
  }

  /** Lexicographic order by code point: SQLite's BINARY collation on UTF-8 text. */
  predicate TextLe(a: string, b: string) {
    a == [] || (b != [] && (a[0] < b[0] || (a[0] == b[0] && TextLe(a[1..], b[1..]))))
  }

  lemma {:induction false} TextLeTotal(a: string, b: string)
    ensures TextLe(a, b) || TextLe(b, a)
  {
    if a != [] && b != [] && a[0] == b[0] {
      TextLeTotal(a[1..], b[1..]);
    }
  }

  lemma {:induction false} TextLeTransitive(a: string, b: string, c: string)
    requires TextLe(a, b) && TextLe(b, c)
    ensures TextLe(a, c)
  {
    if a != [] && b != [] && c != [] && a[0] == b[0] == c[0] {
      TextLeTransitive(a[1..], b[1..], c[1..]);
    }
  }

  lemma {:induction false} TextLeAntisymmetric(a: string, b: string)
    requires TextLe(a, b) && TextLe(b, a)
    ensures a == b
  {
    if a != [] && b != [] {
      TextLeAntisymmetric(a[1..], b[1..]);
      assert a == [a[0]] + a[1..];
      assert b == [b[0]] + b[1..];
    }
  }
}
