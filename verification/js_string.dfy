/**
 The part of JavaScript's string library the store relies on: `String.prototype.trim`,
 which strips white space and line terminators from both ends of a string.

 A Dafny `char` is a Unicode scalar value while a JavaScript string is a sequence of
 UTF-16 code units; every character `trim` strips lies in the Basic Multilingual Plane,
 so the difference does not affect what is stripped.
 */
module JsString {

  /** The characters of the ECMAScript WhiteSpace and LineTerminator productions. */
  predicate IsJsSpace(c: char) {
    || c == '\t' || c == '\n' || c == '\U{000B}' || c == '\U{000C}' || c == '\r'
    || c == ' ' || c == '\U{00A0}' || c == '\U{1680}'
    || ('\U{2000}' <= c <= '\U{200A}')
    || c == '\U{2028}' || c == '\U{2029}' || c == '\U{202F}' || c == '\U{205F}'
    || c == '\U{3000}' || c == '\U{FEFF}'
  }

  /** Every character of `s` is white space (vacuously true of the empty string). */
  predicate AllSpace(s: string) {
    forall i :: 0 <= i < |s| ==> IsJsSpace(s[i])
  }

  /** Drops the leading white space: the result is the suffix of `s` that starts at its first non-space character. */
  function TrimStart(s: string): (r: string)
    ensures |r| <= |s| && r == s[|s| - |r|..]
    ensures forall i :: 0 <= i < |s| - |r| ==> IsJsSpace(s[i])
    ensures |r| > 0 ==> !IsJsSpace(r[0])
  {
    if |s| > 0 && IsJsSpace(s[0]) then TrimStart(s[1..]) else s
  }

  /** Drops the trailing white space: the result is the prefix of `s` that ends at its last non-space character. */
  function TrimEnd(s: string): (r: string)
    ensures |r| <= |s| && r == s[..|r|]
    ensures forall i :: |r| <= i < |s| ==> IsJsSpace(s[i])
    ensures |r| > 0 ==> !IsJsSpace(r[|r| - 1])
  {
    if |s| > 0 && IsJsSpace(s[|s| - 1]) then TrimEnd(s[..|s| - 1]) else s
  }

  /**
   `s.trim()`: `s` without its leading and trailing white space; it is empty exactly
   when `s` holds nothing but white space.
   */
  function Trim(s: string): (r: string)
    ensures exists k :: TrimmedAt(s, k, r)
    ensures |r| > 0 ==> !IsJsSpace(r[0]) && !IsJsSpace(r[|r| - 1])
    ensures r == [] <==> AllSpace(s)
  {
    var m := TrimStart(s);
    var r := TrimEnd(m);
    TrimIsInfix(s, m, r);
    r
  }

  /** `r` is the infix of `s` at offset `k`, with only white space before and after it. */
  predicate TrimmedAt(s: string, k: int, r: string) {
    && 0 <= k <= |s| - |r|
    && r == s[k..k + |r|]
    && (forall i :: 0 <= i < k ==> IsJsSpace(s[i]))
    && (forall i :: k + |r| <= i < |s| ==> IsJsSpace(s[i]))
  }

  /** A white-space suffix `m` of `s`, cut down to its prefix `r` with only white space after it, is an infix of `s` surrounded by white space. */
  lemma TrimIsInfix(s: string, m: string, r: string)
    requires |m| <= |s| && m == s[|s| - |m|..]
    requires forall i :: 0 <= i < |s| - |m| ==> IsJsSpace(s[i])
    requires |r| <= |m| && r == m[..|r|]
    requires forall i :: |r| <= i < |m| ==> IsJsSpace(m[i])
    ensures TrimmedAt(s, |s| - |m|, r)
  {
    var k := |s| - |m|;
    forall i | k + |r| <= i < |s| ensures IsJsSpace(s[i]) {
      assert s[i] == m[i - k];
    }
  }
}
