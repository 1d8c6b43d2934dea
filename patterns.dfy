/** The two regular expressions the form's rules test, written as predicates
    over strings with JavaScript's meaning of the character classes. */
module Patterns {

  /** JavaScript's `\s`: the WhiteSpace and LineTerminator code points of
      section 12.2 and 12.3 of ECMA-262 (tab, vertical tab, form feed, space,
      no-break space, byte-order mark, the other space separators, line feed,
      carriage return, line and paragraph separators). `\S` is its complement. */
  predicate IsWhitespace(c: char) {
    c == '\t' || c == '\n' || c == '\U{000B}' || c == '\U{000C}' || c == '\r' || c == ' '
    || c == '\U{00A0}' || c == '\U{1680}' || ('\U{2000}' <= c <= '\U{200A}')
    || c == '\U{2028}' || c == '\U{2029}' || c == '\U{202F}' || c == '\U{205F}'
    || c == '\U{3000}' || c == '\U{FEFF}'
  }

  /** JavaScript's `\d` without the unicode flag: the ASCII decimal digits. */
  predicate IsDigit(c: char) {
    '0' <= c <= '9'
  }

  /** `/^\d{10}$/.test(s)`: without the multiline flag `^` and `$` anchor at
      the ends of the whole string, so the string is exactly ten digits. */
  predicate PhoneMatches(s: string) {
    |s| == 10 && forall i :: 0 <= i < |s| ==> IsDigit(s[i])
  }

  /** `s[i..j]` is a match of `\S+`: non-empty and free of whitespace. */
  predicate NonWhitespaceRun(s: string, i: int, j: int)
    requires 0 <= i <= j <= |s|
  {
    i < j && forall k :: i <= k < j ==> !IsWhitespace(s[k])
  }

  /** `s[a..e]` matches `\S+@\S+\.\S+` with the `@` at `p` and the `.` at `q`. */
  predicate EmailMatchAt(s: string, a: int, p: int, q: int, e: int) {
    0 <= a < p && p + 1 < q && q + 1 < e <= |s|
    && s[p] == '@' && s[q] == '.'
    && NonWhitespaceRun(s, a, p) && NonWhitespaceRun(s, p + 1, q) && NonWhitespaceRun(s, q + 1, e)
  }

  /** `/\S+@\S+\.\S+/.test(s)`: the pattern is not anchored, so the test
      succeeds when any substring matches it. */
  ghost predicate EmailRegexMatches(s: string) {
    exists a, p, q, e :: EmailMatchAt(s, a, p, q, e)
  }

  /** A decision procedure for the email pattern: an `@` with a non-whitespace
      character before it, followed by a whitespace-free stretch that holds a
      `.` which is not its first character and is followed by a non-whitespace
      character. */
  predicate EmailTest(s: string) {
    exists p, q :: 0 < p < |s| && p + 1 < q < |s| - 1 && EmailCore(s, p, q)
  }

  /** The shortest match with the `@` at `p` and the `.` at `q`. */
  predicate EmailCore(s: string, p: int, q: int)
    requires 0 < p && p + 1 < q < |s| - 1
  {
    s[p] == '@' && s[q] == '.' && !IsWhitespace(s[p - 1]) && !IsWhitespace(s[q + 1])
    && forall k :: p < k < q ==> !IsWhitespace(s[k])
  }

  /** The decision procedure answers exactly what the regular expression test does. */
  lemma EmailTestIsRegex(s: string)
    ensures EmailTest(s) <==> EmailRegexMatches(s)
  {
    if EmailTest(s) {
      var p, q :| 0 < p < |s| && p + 1 < q < |s| - 1 && EmailCore(s, p, q);
      assert EmailMatchAt(s, p - 1, p, q, q + 2);
    }
    if EmailRegexMatches(s) {
      var a, p, q, e :| EmailMatchAt(s, a, p, q, e);
      assert !IsWhitespace(s[p - 1]);
      assert !IsWhitespace(s[q + 1]);
      assert EmailCore(s, p, q);
    }
  }

  /** Because the pattern is unanchored, text on either side of a match
      leaves the test successful. */
  lemma EmailUnanchored(s: string, before: string, after: string)
    requires EmailRegexMatches(s)
    ensures EmailRegexMatches(before + s + after)
  {
    var a, p, q, e :| EmailMatchAt(s, a, p, q, e);
    var t := before + s + after;
    var n := |before|;
    assert forall k :: 0 <= k < |s| ==> t[n + k] == s[k];
    assert EmailMatchAt(t, n + a, n + p, n + q, n + e);
  }

  /** A string with no `@` never passes the email test. */
  lemma EmailNeedsAt(s: string)
    requires forall i :: 0 <= i < |s| ==> s[i] != '@'
    ensures !EmailRegexMatches(s)
  {
  }
}
