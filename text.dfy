/**
 * String helpers shared by the contact-form validator: the whitespace set of
 * JavaScript's `String.prototype.trim` and of the regular-expression class
 * `\s` (both are WhiteSpace plus LineTerminator), `trim` itself, and the email
 * pattern `^[^\s@]+@[^\s@]+\.[^\s@]+$`.
 */
module Text {
  import opened Wrappers

  /** ECMAScript WhiteSpace (tab, vertical tab, form feed, space, no-break space,
      byte-order mark, the Unicode space separators) and LineTerminator. */
  predicate IsSpace(c: char) {
    c == '\t' || c == '\n' || c == '\U{000B}' || c == '\U{000C}' || c == '\r' ||
    c == ' ' || c == '\U{00A0}' || c == '\U{1680}' ||
    ('\U{2000}' <= c <= '\U{200A}') ||
    c == '\U{2028}' || c == '\U{2029}' || c == '\U{202F}' || c == '\U{205F}' ||
    c == '\U{3000}' || c == '\U{FEFF}'
  }

  /** Every character of `s` is whitespace (the empty string included). */
  predicate IsBlank(s: string) {
    forall i | 0 <= i < |s| :: IsSpace(s[i])
  }

  /** The number of whitespace characters `s` starts with. */
  function LeadingSpaces(s: string): (n: nat)
    ensures n <= |s|
    ensures forall i | 0 <= i < n :: IsSpace(s[i])
    ensures n < |s| ==> !IsSpace(s[n])
  {
    if s != [] && IsSpace(s[0]) then 1 + LeadingSpaces(s[1..]) else 0
  }

  /** The number of whitespace characters `s` ends with. */
  function TrailingSpaces(s: string): (n: nat)
    ensures n <= |s|
    ensures forall i | |s| - n <= i < |s| :: IsSpace(s[i])
    ensures n < |s| ==> !IsSpace(s[|s| - n - 1])
  {
    if s != [] && IsSpace(s[|s| - 1]) then 1 + TrailingSpaces(s[..|s| - 1]) else 0
  }

  /** Whitespace at the end of the suffix `s[k..]` is whitespace at the end
      of `s`. */
  lemma TrailingSpacesOfSuffix(s: string, k: nat)
    requires k <= |s|
    ensures var m := TrailingSpaces(s[k..]);
      forall i | |s| - m <= i < |s| :: IsSpace(s[i])
  {
    var t := s[k..];
    var m := TrailingSpaces(t);
    forall i | |s| - m <= i < |s| ensures IsSpace(s[i]) {
      assert s[i] == t[i - k];
    }
  }

  /** `s.trim()`: the part of `s` between its leading and its trailing
      whitespace. It starts where the leading whitespace ends, everything cut
      off is whitespace, and it neither starts nor ends with whitespace. */
  function Trim(s: string): (r: string)
    ensures r == [] || (!IsSpace(r[0]) && !IsSpace(r[|r| - 1]))
    ensures var k := LeadingSpaces(s);
      k + |r| <= |s| && r == s[k..k + |r|] &&
      (forall i | 0 <= i < k :: IsSpace(s[i])) &&
      (forall i | k + |r| <= i < |s| :: IsSpace(s[i]))
  {
    var k := LeadingSpaces(s);
    var m := TrailingSpaces(s[k..]);
    TrailingSpacesOfSuffix(s, k);
    s[k..|s| - m]
  }

  /** `!s.trim()` holds exactly when `s` consists of whitespace only. */
  lemma TrimEmptyIffBlank(s: string)
    ensures Trim(s) == [] <==> IsBlank(s)
  {
  }

  /** A character of the pattern's class `[^\s@]`. */
  predicate Plain(c: char) {
    !IsSpace(c) && c != '@'
  }

  predicate AllPlain(s: string) {
    forall i | 0 <= i < |s| :: Plain(s[i])
  }

  /** `s` is `local @ host . top` with each of the three parts one or more
      characters of `[^\s@]`, the `@` at index `at` and the dot at `dot`. */
  ghost predicate SplitsAt(s: string, at: int, dot: int) {
    0 < at && at + 1 < dot && dot + 1 < |s| &&
    AllPlain(s[..at]) && s[at] == '@' &&
    AllPlain(s[at + 1..dot]) && s[dot] == '.' &&
    AllPlain(s[dot + 1..])
  }

  /** The anchored regular expression `^[^\s@]+@[^\s@]+\.[^\s@]+$` matches `s`
      exactly when some choice of the `@` and of the separating dot splits it
      that way (the match semantics of a regular expression, with backtracking
      over the position of the dot). */
  ghost predicate MatchesEmailPattern(s: string) {
    exists at, dot :: SplitsAt(s, at, dot)
  }

  /** The index of the first occurrence of `c` in `s`, if any. */
  function IndexOf(s: string, c: char): (r: Option<nat>)
    ensures r.Some? ==> r.value < |s| && s[r.value] == c && c !in s[..r.value]
    ensures r.None? ==> c !in s
  {
    if s == [] then None
    else if s[0] == c then Some(0)
    else match IndexOf(s[1..], c)
      case None => None
      case Some(i) =>
        assert s[..i + 1] == [s[0]] + s[1..][..i];
        Some(i + 1)
  }

  /** `h` has a dot that is neither its first nor its last character. */
  predicate HasInnerDot(h: string) {
    exists i | 0 < i < |h| - 1 :: h[i] == '.'
  }

  /** An executable test of the email pattern: split at the first `@`; the
      part before it must be non-empty and all of `[^\s@]`, the part after it
      all of `[^\s@]` with an inner dot. */
  predicate EmailTest(s: string) {
    match IndexOf(s, '@')
    case None => false
    case Some(at) => 0 < at && AllPlain(s[..at]) && AllPlain(s[at + 1..]) && HasInnerDot(s[at + 1..])
  }

  /** An `@` with only `[^\s@]` before it is the first `@`. */
  lemma FirstAtSign(s: string, at: nat)
    requires at < |s| && s[at] == '@' && AllPlain(s[..at])
    ensures IndexOf(s, '@') == Some(at)
  {
    assert s[at] in s;
  }

  /** Every split the executable test accepts is a match of the pattern. */
  lemma EmailTestSound(s: string)
    requires EmailTest(s)
    ensures MatchesEmailPattern(s)
  {
    var at := IndexOf(s, '@').value;
    var h := s[at + 1..];
    var i :| 0 < i < |h| - 1 && h[i] == '.';
    var dot := at + 1 + i;
    assert s[at + 1..dot] == h[..i];
    assert s[dot + 1..] == h[i + 1..];
    assert SplitsAt(s, at, dot);
  }

  /** Every match of the pattern passes the executable test. */
  lemma EmailTestComplete(s: string, at: int, dot: int)
    requires SplitsAt(s, at, dot)
    ensures EmailTest(s)
  {
    FirstAtSign(s, at);
    var h := s[at + 1..];
    forall j | 0 <= j < |h| ensures Plain(h[j]) {
      if at + 1 + j < dot {
        assert h[j] == s[at + 1..dot][j];
      } else if at + 1 + j > dot {
        assert h[j] == s[dot + 1..][at + j - dot];
      }
    }
    assert h[dot - at - 1] == '.';
  }

  /** The executable test agrees with the regular expression on every string. */
  lemma EmailTestMatchesPattern(s: string)
    ensures EmailTest(s) <==> MatchesEmailPattern(s)
  {
    if EmailTest(s) {
      EmailTestSound(s);
    }
    if MatchesEmailPattern(s) {
      var at, dot :| SplitsAt(s, at, dot);
      EmailTestComplete(s, at, dot);
    }
  }

  /** No whitespace anywhere, exactly one `@` with something before it, and
      a dot after it that is neither the first nor the last character of the
      part after the `@`. */
  ghost predicate EmailShape(s: string) {
    (forall i | 0 <= i < |s| :: !IsSpace(s[i])) &&
    exists at | 0 < at < |s| ::
      s[at] == '@' && (forall j | 0 <= j < |s| && j != at :: s[j] != '@') && HasInnerDot(s[at + 1..])
  }

  lemma ShapeFromEmailTest(s: string)
    requires EmailTest(s)
    ensures EmailShape(s)
  {
    var at := IndexOf(s, '@').value;
    forall j | 0 <= j < |s| ensures !IsSpace(s[j]) && (j != at ==> s[j] != '@') {
      if j < at {
        assert s[j] == s[..at][j];
      } else if j > at {
        assert s[j] == s[at + 1..][j - at - 1];
      }
    }
  }

  lemma EmailTestFromShape(s: string)
    requires EmailShape(s)
    ensures EmailTest(s)
  {
    var at :| 0 < at < |s| &&
      s[at] == '@' && (forall j | 0 <= j < |s| && j != at :: s[j] != '@') && HasInnerDot(s[at + 1..]);
    var w := s[..at];
    forall j | 0 <= j < |w| ensures Plain(w[j]) {
      assert w[j] == s[j];
    }
    FirstAtSign(s, at);
    var h := s[at + 1..];
    forall j | 0 <= j < |h| ensures Plain(h[j]) {
      assert h[j] == s[at + 1 + j];
    }
  }

  /** What the pattern means in plain terms: it matches exactly the strings
      of `EmailShape`. */
  lemma EmailPatternShape(s: string)
    ensures MatchesEmailPattern(s) <==> EmailShape(s)
  {
    EmailTestMatchesPattern(s);
    if EmailTest(s) {
      ShapeFromEmailTest(s);
    }
    if EmailShape(s) {
      EmailTestFromShape(s);
    }
  }
}
