/**
 * Character classes used by the analyzer: the word characters of the regular
 * expression class `\w`, the whitespace of `\s` and `str.split()`, the line
 * boundaries of `str.splitlines()`, and ASCII lower-casing.
 */
module Chars {

  /** `\w`, restricted to ASCII: a letter, a digit or the underscore. */
  predicate IsWordChar(c: char) {
    'a' <= c <= 'z' || 'A' <= c <= 'Z' || '0' <= c <= '9' || c == '_'
  }

  /**
   * Python's whitespace (`str.isspace`, `\s` on `str`, the separators of
   * `str.split()` without arguments): tab to carriage return, the four
   * information separators 0x1C-0x1F, space, and the Unicode spaces.
   */
  predicate IsSpace(c: char) {
    || '\t' <= c <= '\r'
    || '\U{1C}' <= c <= ' '
    || c == '\U{85}' || c == '\U{A0}' || c == '\U{1680}'
    || '\U{2000}' <= c <= '\U{200A}'
    || c == '\U{2028}' || c == '\U{2029}' || c == '\U{202F}' || c == '\U{205F}'
    || c == '\U{3000}'
  }

  /**
   * The line boundaries of `str.splitlines()`: line feed, vertical tab, form
   * feed, carriage return, the separators 0x1C-0x1E, next line, and the Unicode
   * line and paragraph separators. Every one of them is also whitespace.
   */
  predicate IsLineBreak(c: char)
    ensures IsLineBreak(c) ==> IsSpace(c) && !IsWordChar(c)
  {
    || '\n' <= c <= '\r'
    || '\U{1C}' <= c <= '\U{1E}'
    || c == '\U{85}' || c == '\U{2028}' || c == '\U{2029}'
  }

  predicate IsUpper(c: char) {
    'A' <= c <= 'Z'
  }

  /** `str.lower()` on one character, for ASCII: maps 'A'-'Z' to 'a'-'z'. */
  function ToLower(c: char): (d: char)
    ensures !IsUpper(d)
    ensures IsUpper(c) ==> 'a' <= d <= 'z' && d as int - c as int == 'a' as int - 'A' as int
    ensures !IsUpper(c) ==> d == c
    ensures IsWordChar(d) == IsWordChar(c) && IsSpace(d) == IsSpace(c)
  {
    if IsUpper(c) then (c as int - 'A' as int + 'a' as int) as char else c
  }
}
