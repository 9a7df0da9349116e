/**
 The part of JavaScript's string semantics that the message endpoint uses:
 `String.prototype.trim` and the emptiness test `_.isEmpty` applies to a
 string (its length is zero).
 */
module JsString {

  /**
   The characters `trim` strips: the WhiteSpace and LineTerminator productions
   of ECMA-262, sections 12.2 and 12.3 of the 2017 and later editions
   (TAB, VT, FF, SPACE, NO-BREAK SPACE, ZERO WIDTH NO-BREAK SPACE, every
   space separator of category Zs, and LF, CR, LINE SEPARATOR, PARAGRAPH
   SEPARATOR).
   */
  predicate IsWhitespace(c: char) {
    || c == '\t' || c == '\U{000B}' || c == '\U{000C}' || c == ' '
    || c == '\U{00A0}' || c == '\U{FEFF}'
    || c == '\U{1680}' || ('\U{2000}' <= c <= '\U{200A}') || c == '\U{202F}'
    || c == '\U{205F}' || c == '\U{3000}'
    || c == '\n' || c == '\r' || c == '\U{2028}' || c == '\U{2029}'
  }

  predicate AllWhitespace(s: string) {
    forall i :: 0 <= i < |s| ==> IsWhitespace(s[i])
  }

  /** The scan `trim` makes from the front: the first position at or after `i` holding a non-space. */
  function StartOfText(s: string, i: nat): (a: nat)
    requires i <= |s|
    requires AllWhitespace(s[..i])
    ensures i <= a <= |s|
    ensures AllWhitespace(s[..a])
    ensures a == |s| || !IsWhitespace(s[a])
    decreases |s| - i
  {
    if i < |s| && IsWhitespace(s[i]) then
      assert forall k :: 0 <= k <= i ==> s[..i + 1][k] == s[k];
      StartOfText(s, i + 1)
    else i
  }

  /** The scan `trim` makes from the back: the last position at or before `j` just after a non-space. */
  function EndOfText(s: string, j: nat): (b: nat)
    requires j <= |s|
    requires AllWhitespace(s[j..])
    ensures b <= j
    ensures AllWhitespace(s[b..])
    ensures b == 0 || !IsWhitespace(s[b - 1])
    decreases j
  {
    if j > 0 && IsWhitespace(s[j - 1]) then
      EndOfText(s, j - 1)
    else j
  }

  /** Drops the leading whitespace: the result is the longest suffix starting with a non-space. */
  function TrimStart(s: string): (t: string)
    ensures |t| <= |s|
    ensures t == s[|s| - |t|..]
    ensures AllWhitespace(s[..|s| - |t|])
    ensures t == [] || !IsWhitespace(t[0])
  {
    s[StartOfText(s, 0)..]
  }

  /** Drops the trailing whitespace: the result is the longest prefix ending with a non-space. */
  function TrimEnd(s: string): (t: string)
    ensures |t| <= |s|
    ensures t == s[..|t|]
    ensures AllWhitespace(s[|t|..])
    ensures t == [] || !IsWhitespace(t[|t| - 1])
  {
    s[..EndOfText(s, |s|)]
  }

  /**
   `s.trim()`: a contiguous piece of `s` that neither starts nor ends with
   whitespace, everything cut away on either side being whitespace.
   */
  function Trim(s: string): (t: string)
    ensures exists a :: 0 <= a <= |s| - |t| && t == s[a..a + |t|]
                         && AllWhitespace(s[..a]) && AllWhitespace(s[a + |t|..])
    ensures t == [] || (!IsWhitespace(t[0]) && !IsWhitespace(t[|t| - 1]))
  {
    var u := TrimStart(s);
    var t := TrimEnd(u);
    var a := |s| - |u|;
    assert s[a..a + |t|] == u[..|t|];
    assert s[a + |t|..] == u[|t|..];
    t
  }

  /** The message endpoint's blank test: a string trims to "" exactly when it is all whitespace. */
  lemma TrimEmptyIffBlank(s: string)
    ensures |Trim(s)| == 0 <==> AllWhitespace(s)
  {
    var u := TrimStart(s);
    if |Trim(s)| == 0 {
      assert AllWhitespace(u[0..]);
      assert |u| == 0;
      assert s[..|s|] == s;
    } else {
      assert !IsWhitespace(s[|s| - |u|]);
    }
  }
}
