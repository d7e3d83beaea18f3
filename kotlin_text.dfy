/** The Kotlin string operations applied to `.gitignore` lines: `trim()`,
    `isNotEmpty()`, `startsWith` and `removeSuffix`. Strings are sequences of
    characters. */
module KotlinText {

  /** Kotlin's `Char.isWhitespace()` on the JVM: `Character.isWhitespace`
      or `Character.isSpaceChar`, that is the ASCII controls TAB, LF, VT, FF,
      CR and U+001C..U+001F, plus every space, line and paragraph separator
      of Unicode (including the no-break spaces), with the Unicode tables of
      JDK 9 and later; on JDK 8, U+180E MONGOLIAN VOWEL SEPARATOR is a space
      as well. */
  predicate IsWhitespace(c: char) {
    c == '\t' || c == '\n' || c == '\U{000B}' || c == '\U{000C}' || c == '\r'
    || ('\U{001C}' <= c <= '\U{001F}')
    || c == ' ' || c == '\U{00A0}' || c == '\U{1680}'
    || ('\U{2000}' <= c <= '\U{200A}')
    || c == '\U{2028}' || c == '\U{2029}' || c == '\U{202F}' || c == '\U{205F}' || c == '\U{3000}'
  }

  predicate StartsWith(s: string, prefix: string) {
    |prefix| <= |s| && s[..|prefix|] == prefix
  }

  predicate EndsWith(s: string, suffix: string) {
    |suffix| <= |s| && s[|s| - |suffix|..] == suffix
  }

  /** How many whitespace characters `s` starts with. */
  function LeadingWhitespace(s: string): (n: nat)
    ensures n <= |s|
    ensures forall i :: 0 <= i < n ==> IsWhitespace(s[i])
    ensures n == |s| || !IsWhitespace(s[n])
  {
    if s != [] && IsWhitespace(s[0]) then 1 + LeadingWhitespace(s[1..]) else 0
  }

  /** How many whitespace characters `s` ends with. */
  function TrailingWhitespace(s: string): (n: nat)
    ensures n <= |s|
    ensures forall i :: |s| - n <= i < |s| ==> IsWhitespace(s[i])
    ensures n == |s| || !IsWhitespace(s[|s| - n - 1])
  {
    if s != [] && IsWhitespace(s[|s| - 1]) then 1 + TrailingWhitespace(s[..|s| - 1]) else 0
  }

  /** Kotlin `trim()`: `s` without its leading and trailing whitespace; a
      string made only of whitespace trims to the empty string. */
  function Trim(s: string): (r: string)
    ensures LeadingWhitespace(s) + |r| <= |s|
    ensures r == s[LeadingWhitespace(s)..LeadingWhitespace(s) + |r|]
    ensures forall i :: LeadingWhitespace(s) + |r| <= i < |s| ==> IsWhitespace(s[i])
    ensures r == [] || (!IsWhitespace(r[0]) && !IsWhitespace(r[|r| - 1]))
  {
    var lead := LeadingWhitespace(s);
    var rest := s[lead..];
    rest[..|rest| - TrailingWhitespace(rest)]
  }

  /** A string with no whitespace at either end is its own trim. */
  lemma TrimOfUnpadded(s: string)
    requires s == [] || (!IsWhitespace(s[0]) && !IsWhitespace(s[|s| - 1]))
    ensures Trim(s) == s
  {
    if s != [] {
      assert LeadingWhitespace(s) == 0;
      assert TrailingWhitespace(s) == 0;
    }
  }

  /** Whitespace around a string that has none at its ends is removed. */
  lemma TrimOfSpaced(s: string)
    requires s != [] && !IsWhitespace(s[0]) && !IsWhitespace(s[|s| - 1])
    ensures Trim(" " + s + " ") == s
  {
    var padded := " " + s + " ";
    assert padded[1..] == s + " ";
    assert LeadingWhitespace(s + " ") == 0;
    assert LeadingWhitespace(padded) == 1;
    assert (s + " ")[..|s|] == s;
    assert TrailingWhitespace(s) == 0;
    assert TrailingWhitespace(s + " ") == 1;
  }

  /** A string that is all whitespace trims to the empty string, and one that
      already has no whitespace at either end is left unchanged. */
  lemma TrimOfTrimmed(s: string)
    ensures Trim(Trim(s)) == Trim(s)
  {
    var r := Trim(s);
    if r != [] {
      assert LeadingWhitespace(r) == 0;
      assert TrailingWhitespace(r) == 0;
    }
  }

  /** Kotlin `removeSuffix`: drops ONE occurrence of `suffix` from the end of
      `s` when `s` ends with it, and otherwise returns `s` unchanged. */
  function RemoveSuffix(s: string, suffix: string): (r: string)
    ensures EndsWith(s, suffix) ==> r + suffix == s
    ensures !EndsWith(s, suffix) ==> r == s
  {
    if EndsWith(s, suffix) then s[..|s| - |suffix|] else s
  }

  /** Only one occurrence is removed: `x//` becomes `x/`, not `x`. */
  lemma RemoveSuffixRemovesOnce(x: string)
    ensures RemoveSuffix(x + "//", "/") == x + "/"
    ensures RemoveSuffix(x + "/", "/") == x
  {
    assert (x + "//")[..|x + "//"| - 1] == x + "/";
    assert (x + "/")[..|x + "/"| - 1] == x;
  }
}
