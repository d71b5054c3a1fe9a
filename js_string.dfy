/**
 * The part of JavaScript's `String.prototype.trim` that the add handler relies on:
 * `newItem.trim()` is truthy exactly when it is not the empty string.
 *
 * `trim` removes, from both ends, every code point that ECMAScript classifies as
 * WhiteSpace or LineTerminator (ECMAScript 2024, sections 12.2 and 12.3, used by
 * TrimString in section 22.1.3.32.1).
 */
module JsString {

  /** ECMAScript WhiteSpace (TAB, VT, FF, ZWNBSP and the Unicode Zs category)
      or LineTerminator (LF, CR, LS, PS). */
  predicate IsJsWhitespace(c: char) {
    || c == '\t' || c == '\U{000B}' || c == '\U{000C}' || c == '\U{FEFF}'
    // the Unicode general category Zs
    || c == ' ' || c == '\U{00A0}' || c == '\U{1680}'
    || ('\U{2000}' <= c <= '\U{200A}')
    || c == '\U{202F}' || c == '\U{205F}' || c == '\U{3000}'
    // LineTerminator
    || c == '\n' || c == '\r' || c == '\U{2028}' || c == '\U{2029}'
  }

  /** A text that is empty or consists of whitespace only. */
  predicate IsBlank(s: string) {
    forall i :: 0 <= i < |s| ==> IsJsWhitespace(s[i])
  }

  /** Everything of `s` before index `a` and from index `b` on is whitespace. */
  predicate BlankOutside(s: string, a: nat, b: nat)
    requires a <= b <= |s|
  {
    IsBlank(s[..a]) && IsBlank(s[b..])
  }

  /** Drops the leading whitespace: the result is the longest suffix of `s`
      that does not start with whitespace. */
  function TrimStart(s: string): (r: string)
    ensures |r| <= |s| && r == s[|s| - |r|..]
    ensures r == [] || !IsJsWhitespace(r[0])
    ensures forall i :: 0 <= i < |s| - |r| ==> IsJsWhitespace(s[i])
  {
    if s == [] then []
    else if IsJsWhitespace(s[0]) then TrimStart(s[1..])
    else s
  }

  /** Drops the trailing whitespace: the result is the longest prefix of `s`
      that does not end with whitespace. */
  function TrimEnd(s: string): (r: string)
    ensures |r| <= |s| && r == s[..|r|]
    ensures r == [] || !IsJsWhitespace(r[|r| - 1])
    ensures forall i :: |r| <= i < |s| ==> IsJsWhitespace(s[i])
  {
    if s == [] then []
    else if IsJsWhitespace(s[|s| - 1]) then TrimEnd(s[..|s| - 1])
    else s
  }

  /** `s.trim()`: the slice of `s` left once the whitespace at both ends is
      dropped; it neither starts nor ends with whitespace. */
  function Trim(s: string): (r: string)
    ensures |r| <= |s|
    ensures r == [] || (!IsJsWhitespace(r[0]) && !IsJsWhitespace(r[|r| - 1]))
    ensures exists a, b :: 0 <= a <= b <= |s| && r == s[a..b] && BlankOutside(s, a, b)
  {
    var start := TrimStart(s);
    var a := |s| - |start|;
    var b := a + |TrimEnd(start)|;
    assert TrimEnd(start) == s[a..b] && BlankOutside(s, a, b);
    TrimEnd(start)
  }

  /** `s.trim()` is the empty string exactly when `s` is blank, so the add
      handler's guard `if (newItem.trim())` rejects exactly the blank texts. */
  lemma TrimEmptyIffBlank(s: string)
    ensures Trim(s) == [] <==> IsBlank(s)
  {
  }
}
