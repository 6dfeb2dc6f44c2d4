// Character classes and string helpers of the Java platform that the field
// grammars rely on: the regex classes `\d`, `\s` and `.`, `Character.isWhitespace`,
// `String.trim`, `String.isBlank` and `String.toLowerCase`.
module Chars {

  /** `\d` of a Java regex (no UNICODE_CHARACTER_CLASS flag): an ASCII digit. */
  predicate IsAsciiDigit(c: char) {
    '0' <= c <= '9'
  }

  predicate AllDigits(s: string) {
    forall k :: 0 <= k < |s| ==> IsAsciiDigit(s[k])
  }

  /** The characters a regex `.` does not match. */
  predicate IsLineTerminator(c: char) {
    c == '\n' || c == '\r' || c == '\U{0085}' || c == '\U{2028}' || c == '\U{2029}'
  }

  predicate NoLineTerminator(s: string) {
    forall k :: 0 <= k < |s| ==> !IsLineTerminator(s[k])
  }

  /** `\s` of a Java regex: space, tab, line feed, vertical tab, form feed, carriage return. */
  predicate IsRegexSpace(c: char) {
    c == ' ' || c == '\t' || c == '\n' || c == '\U{000B}' || c == '\U{000C}' || c == '\r'
  }

  /** `Character.isWhitespace`: the Unicode separators other than the no-break
      spaces, and the controls U+0009..U+000D and U+001C..U+001F. */
  predicate IsWhitespace(c: char) {
    || ('\t' <= c <= '\r')
    || ('\U{001C}' <= c <= ' ')
    || c == '\U{1680}'
    || ('\U{2000}' <= c <= '\U{2006}')
    || ('\U{2008}' <= c <= '\U{200A}')
    || c == '\U{2028}' || c == '\U{2029}' || c == '\U{205F}' || c == '\U{3000}'
  }

  /** `\p{L}`, restricted to the Latin, Greek, Cyrillic and CJK letters. */
  predicate IsLetter(c: char) {
    || ('A' <= c <= 'Z') || ('a' <= c <= 'z')
    || c == '\U{00AA}' || c == '\U{00B5}' || c == '\U{00BA}'
    || ('\U{00C0}' <= c <= '\U{00D6}') || ('\U{00D8}' <= c <= '\U{00F6}')
    || ('\U{00F8}' <= c <= '\U{024F}')
    || ('\U{0391}' <= c <= '\U{03A1}') || ('\U{03A3}' <= c <= '\U{03A9}')
    || ('\U{03B1}' <= c <= '\U{03C9}')
    || ('\U{0410}' <= c <= '\U{044F}')
    || ('\U{4E00}' <= c <= '\U{9FFF}')
  }

  /** `\p{M}`, restricted to the combining diacritical marks. */
  predicate IsMark(c: char) {
    '\U{0300}' <= c <= '\U{036F}'
  }

  /** `String.isBlank`: empty or whitespace only. */
  predicate IsBlank(s: string) {
    forall k :: 0 <= k < |s| ==> IsWhitespace(s[k])
  }

  /** No letter and no digit is whitespace. */
  lemma LetterOrDigitIsNotWhitespace(c: char)
    requires IsLetter(c) || IsAsciiDigit(c)
    ensures !IsWhitespace(c)
  {
  }

  function TrimStart(s: string): (t: string)
    ensures |t| <= |s| && t == s[|s| - |t|..]
    ensures forall k :: 0 <= k < |s| - |t| ==> s[k] <= ' '
    ensures t == [] || t[0] > ' '
  {
    if s != [] && s[0] <= ' ' then TrimStart(s[1..]) else s
  }

  function TrimEnd(s: string): (t: string)
    ensures |t| <= |s| && t == s[..|t|]
    ensures forall k :: |t| <= k < |s| ==> s[k] <= ' '
    ensures t == [] || t[|t| - 1] > ' '
  {
    if s != [] && s[|s| - 1] <= ' ' then TrimEnd(s[..|s| - 1]) else s
  }

  /** `String.trim`: drops every leading and trailing character up to U+0020. */
  function Trim(s: string): (t: string)
    ensures |t| <= |s|
    ensures t == [] || (t[0] > ' ' && t[|t| - 1] > ' ')
    ensures t == [] <==> forall k :: 0 <= k < |s| ==> s[k] <= ' '
    ensures s == [] || (s[0] > ' ' && s[|s| - 1] > ' ') ==> t == s
  {
    TrimEnd(TrimStart(s))
  }

  lemma TrimTwice(s: string)
    ensures Trim(Trim(s)) == Trim(s)
  {
  }

  /** `Character.toLowerCase` on the Basic Latin and Latin-1 upper-case letters;
      every other character is left as it is. */
  function LowerChar(c: char): (d: char)
    ensures IsAsciiDigit(c) <==> IsAsciiDigit(d)
    ensures IsRegexSpace(c) <==> IsRegexSpace(d)
    ensures IsLineTerminator(c) <==> IsLineTerminator(d)
  {
    if ('A' <= c <= 'Z') || ('\U{00C0}' <= c <= '\U{00DE}' && c != '\U{00D7}')
    then (c as int + 32) as char
    else c
  }

  /** `String.toLowerCase`, character by character. */
  function ToLowerCase(s: string): (r: string)
    ensures |r| == |s|
    ensures forall k :: 0 <= k < |s| ==> r[k] == LowerChar(s[k])
  {
    if s == [] then [] else [LowerChar(s[0])] + ToLowerCase(s[1..])
  }

  /** `s[i..j]` is all `\d`. */
  predicate DigitsIn(s: string, i: int, j: int) {
    0 <= i <= j <= |s| && forall k :: i <= k < j ==> IsAsciiDigit(s[k])
  }

  /** `s[i..j]` is all `\s`. */
  predicate SpacesIn(s: string, i: int, j: int) {
    0 <= i <= j <= |s| && forall k :: i <= k < j ==> IsRegexSpace(s[k])
  }

  /** The end of the longest run of `\d` starting at `i`. */
  function DigitRun(s: string, i: nat): (e: nat)
    requires i <= |s|
    ensures i <= e <= |s|
    ensures forall k :: i <= k < e ==> IsAsciiDigit(s[k])
    ensures e == |s| || !IsAsciiDigit(s[e])
    decreases |s| - i
  {
    if i < |s| && IsAsciiDigit(s[i]) then DigitRun(s, i + 1) else i
  }

  /** The end of the longest run of `\s` starting at `i`. */
  function SpaceRun(s: string, i: nat): (e: nat)
    requires i <= |s|
    ensures i <= e <= |s|
    ensures forall k :: i <= k < e ==> IsRegexSpace(s[k])
    ensures e == |s| || !IsRegexSpace(s[e])
    decreases |s| - i
  {
    if i < |s| && IsRegexSpace(s[i]) then SpaceRun(s, i + 1) else i
  }

  /** A run is maximal exactly where it stops: any `j` bounding a run of digits
      that cannot be extended is the end `DigitRun` finds. */
  lemma {:induction false} DigitRunEnd(s: string, i: nat, j: nat)
    requires i <= j <= |s|
    requires forall k :: i <= k < j ==> IsAsciiDigit(s[k])
    requires j == |s| || !IsAsciiDigit(s[j])
    ensures DigitRun(s, i) == j
    decreases j - i
  {
    if i < j {
      DigitRunEnd(s, i + 1, j);
    }
  }

  lemma {:induction false} SpaceRunEnd(s: string, i: nat, j: nat)
    requires i <= j <= |s|
    requires forall k :: i <= k < j ==> IsRegexSpace(s[k])
    requires j == |s| || !IsRegexSpace(s[j])
    ensures SpaceRun(s, i) == j
    decreases j - i
  {
    if i < j {
      SpaceRunEnd(s, i + 1, j);
    }
  }
}
