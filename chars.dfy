/**
 * Character classes of Python's `re` module and `str` methods, as used by the
 * preprocessor. Word characters are the ASCII ones; whitespace is everything
 * str.isspace() accepts, which is also what `\s` and str.split() use.
 */
module Chars {

  /** `\w` restricted to ASCII: letters, digits and the underscore. */
  predicate IsWordChar(c: char)
  {
    ('a' <= c <= 'z') || ('A' <= c <= 'Z') || ('0' <= c <= '9') || c == '_'
  }

  /** `\s`: the characters for which Python's str.isspace() holds. */
  predicate IsSpace(c: char)
  {
    var n := c as int;
    (9 <= n <= 13) || (28 <= n <= 32) || n == 0x85 || n == 0xA0 || n == 0x1680
    || (0x2000 <= n <= 0x200A) || n == 0x2028 || n == 0x2029 || n == 0x202F
    || n == 0x205F || n == 0x3000
  }

  /** A word character that lower() leaves unchanged. */
  predicate IsLowerWordChar(c: char)
  {
    ('a' <= c <= 'z') || ('0' <= c <= '9') || c == '_'
  }

  /** str.lower() on one character (ASCII letters only). */
  function ToLower(c: char): (d: char)
    ensures IsWordChar(c) <==> IsLowerWordChar(d)
    ensures IsSpace(c) <==> IsSpace(d)
    ensures !('A' <= c <= 'Z') ==> d == c
  {
    if 'A' <= c <= 'Z' then (c as int + 32) as char else c
  }

  /** str.lower(). */
  function Lower(s: string): (r: string)
    ensures |r| == |s|
    ensures forall i :: 0 <= i < |s| ==> (IsWordChar(s[i]) <==> IsLowerWordChar(r[i]))
    ensures forall i :: 0 <= i < |s| ==> (IsSpace(s[i]) <==> IsSpace(r[i]))
  {
    seq(|s|, i requires 0 <= i < |s| => ToLower(s[i]))
  }
}
