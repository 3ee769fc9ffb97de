/**
 * Character classes and small string helpers shared by the model.
 *
 * Strings are sequences of Unicode scalar values, so every "count" in the model is a
 * character count, never a byte count.
 *
 * Whitespace is the exact Unicode White_Space set, which is what the standard library's
 * whitespace splitting and trimming use. Alphabetic and alphanumeric classification and
 * lower-casing stand for the full Unicode tables; they are approximations (see README), and
 * the general lemmas of the model never look inside them.
 */
module Chars {

  /** The 25 characters of the Unicode White_Space property. */
  const WhitespaceChars: set<char> := {
    '\t', '\n', '\U{000B}', '\U{000C}', '\r', ' ', '\U{0085}', '\U{00A0}', '\U{1680}',
    '\U{2000}', '\U{2001}', '\U{2002}', '\U{2003}', '\U{2004}', '\U{2005}', '\U{2006}',
    '\U{2007}', '\U{2008}', '\U{2009}', '\U{200A}', '\U{2028}', '\U{2029}', '\U{202F}',
    '\U{205F}', '\U{3000}'
  }

  predicate IsWhitespace(c: char) {
    c in WhitespaceChars
  }

  /** Blocks above U+00FF that hold punctuation, symbols and spaces rather than letters. */
  predicate IsSymbolBlock(c: char) {
    || ('\U{0300}' <= c <= '\U{036F}')   // combining diacritical marks
    || c == '\U{1680}'                    // ogham space mark
    || ('\U{2000}' <= c <= '\U{2BFF}')   // punctuation, symbols, arrows, box drawing
    || ('\U{3000}' <= c <= '\U{303F}')   // CJK symbols and punctuation
    || ('\U{FF00}' <= c <= '\U{FF20}')   // full-width punctuation and digits
  }

  /** Stands for `char::is_alphabetic`. */
  predicate IsAlphabetic(c: char) {
    || ('a' <= c <= 'z')
    || ('A' <= c <= 'Z')
    || c == '\U{00AA}' || c == '\U{00B5}' || c == '\U{00BA}'
    || ('\U{00C0}' <= c <= '\U{00FF}' && c != '\U{00D7}' && c != '\U{00F7}')
    || ('\U{0100}' <= c && !IsSymbolBlock(c))
  }

  /** Stands for `char::is_numeric`. */
  predicate IsNumeric(c: char) {
    ('0' <= c <= '9') || ('\U{FF10}' <= c <= '\U{FF19}')
  }

  /** Stands for `char::is_alphanumeric`. */
  predicate IsAlphanumeric(c: char) {
    IsAlphabetic(c) || IsNumeric(c)
  }

  lemma AlphanumericIsNotWhitespace(c: char)
    requires IsAlphanumeric(c)
    ensures !IsWhitespace(c)
  {
  }

  /** Stands for the character-wise `to_lowercase`; only ASCII capitals change. */
  function ToLower(c: char): (r: char)
    ensures 'A' <= c <= 'Z' ==> 'a' <= r <= 'z'
    ensures !('A' <= c <= 'Z') ==> r == c
  {
    if 'A' <= c <= 'Z' then (c as int + 32) as char else c
  }

  function ToLowerString(s: string): (r: string)
    ensures |r| == |s|
    ensures forall i :: 0 <= i < |s| ==> r[i] == ToLower(s[i])
  {
    seq(|s|, i requires 0 <= i < |s| => ToLower(s[i]))
  }

  /** `str::trim_start`: drop leading whitespace. */
  function TrimStart(s: string): (r: string)
    ensures |r| <= |s| && r == s[|s| - |r|..]
    ensures r == [] || !IsWhitespace(r[0])
    ensures forall i :: 0 <= i < |s| - |r| ==> IsWhitespace(s[i])
  {
    if s == [] || !IsWhitespace(s[0]) then s else TrimStart(s[1..])
  }

  /** `str::trim_end`: drop trailing whitespace. */
  function TrimEnd(s: string): (r: string)
    ensures |r| <= |s| && r == s[..|r|]
    ensures r == [] || !IsWhitespace(r[|r| - 1])
    ensures forall i :: |r| <= i < |s| ==> IsWhitespace(s[i])
  {
    if s == [] || !IsWhitespace(s[|s| - 1]) then s else TrimEnd(s[..|s| - 1])
  }

  /** `str::trim`. */
  function Trim(s: string): (r: string) {
    TrimEnd(TrimStart(s))
  }

  /** A string of `n` copies of `c`. */
  function Repeat(c: char, n: nat): (r: string)
    ensures |r| == n
    ensures forall i :: 0 <= i < n ==> r[i] == c
  {
    seq(n, _ => c)
  }

  predicate OccursAt(s: string, pattern: string, i: nat) {
    i + |pattern| <= |s| && s[i..i + |pattern|] == pattern
  }

  /** `str::contains` for a string pattern. */
  predicate Contains(s: string, pattern: string) {
    exists i: nat :: i <= |s| && OccursAt(s, pattern, i)
  }

  function DigitChar(d: nat): (r: char)
    requires d < 10
    ensures '0' <= r <= '9'
  {
    ('0' as int + d) as char
  }

  /** Decimal rendering of a natural number, as `format!("{}", n)` prints it. */
  function NatToString(n: nat): (r: string)
    ensures |r| >= 1
    ensures forall i :: 0 <= i < |r| ==> '0' <= r[i] <= '9'
  {
    if n < 10 then [DigitChar(n)] else NatToString(n / 10) + [DigitChar(n % 10)]
  }

  /** `format!("{:02}", n)`: at least two digits, zero-padded on the left. */
  function Pad2(n: nat): (r: string)
    ensures |r| >= 2
    ensures forall i :: 0 <= i < |r| ==> '0' <= r[i] <= '9'
  {
    if n < 10 then ['0', DigitChar(n)] else NatToString(n)
  }
}
