/**
 * `String.prototype.trim` as ECMAScript defines it: strip the WhiteSpace and
 * LineTerminator code points from both ends of a string.
 */
module JsText {

  /** ECMAScript WhiteSpace (including every Zs space) and LineTerminator code points. */
  predicate IsWhitespace(c: char)
  {
    || c == '\t' || c == '\n' || c == '\U{000B}' || c == '\U{000C}' || c == '\r' || c == ' '
    || c == '\U{00A0}' || c == '\U{1680}' || ('\U{2000}' <= c <= '\U{200A}')
    || c == '\U{2028}' || c == '\U{2029}' || c == '\U{202F}' || c == '\U{205F}'
    || c == '\U{3000}' || c == '\U{FEFF}'
  }

  /** How many whitespace characters `s` starts with. */
  function LeadingWhitespace(s: string): (n: nat)
    ensures n <= |s|
    ensures forall i :: 0 <= i < n ==> IsWhitespace(s[i])
    ensures n < |s| ==> !IsWhitespace(s[n])
  {
    if s != [] && IsWhitespace(s[0]) then
      var m := LeadingWhitespace(s[1..]);
      assert forall i :: 1 <= i < m + 1 ==> s[i] == s[1..][i - 1];
      m + 1
    else 0
  }

  /** Where the trailing whitespace of `s` begins. */
  function TrailingStart(s: string): (n: nat)
    ensures n <= |s|
    ensures forall i :: n <= i < |s| ==> IsWhitespace(s[i])
    ensures n > 0 ==> !IsWhitespace(s[n - 1])
  {
    if s != [] && IsWhitespace(s[|s| - 1]) then TrailingStart(s[..|s| - 1]) else |s|
  }

  /** The string without its leading whitespace: a suffix of `s`, and all that was cut is whitespace. */
  function TrimStart(s: string): (r: string)
    ensures |r| <= |s| && r == s[|s| - |r|..]
    ensures forall i :: 0 <= i < |s| - |r| ==> IsWhitespace(s[i])
    ensures r == [] || !IsWhitespace(r[0])
  {
    s[LeadingWhitespace(s)..]
  }

  /** The string without its trailing whitespace: a prefix of `s`, and all that was cut is whitespace. */
  function TrimEnd(s: string): (r: string)
    ensures |r| <= |s| && r == s[..|r|]
    ensures forall i :: |r| <= i < |s| ==> IsWhitespace(s[i])
    ensures r == [] || !IsWhitespace(r[|r| - 1])
  {
    s[..TrailingStart(s)]
  }

  /**
   * `s.trim()`: the contiguous middle of `s` left after removing whitespace
   * at both ends; it is empty exactly when `s` is all whitespace.
   */
  function Trim(s: string): (r: string)
    ensures var k := LeadingWhitespace(s); k + |r| <= |s| && r == s[k..k + |r|]
    ensures var k := LeadingWhitespace(s); forall i :: k + |r| <= i < |s| ==> IsWhitespace(s[i])
    ensures r != [] ==> !IsWhitespace(r[0]) && !IsWhitespace(r[|r| - 1])
    ensures r == [] <==> forall i :: 0 <= i < |s| ==> IsWhitespace(s[i])
  {
    var k := LeadingWhitespace(s);
    var t := s[k..];
    var m := TrailingStart(t);
    assert t[..m] == s[k..k + m];
    assert forall i :: k + m <= i < |s| ==> s[i] == t[i - k];
    assert m > 0 ==> s[k] == t[0];
    t[..m]
  }

  /** Trimming both ends is trimming the start, then the end of what is left. */
  lemma TrimBothEnds(s: string)
    ensures Trim(s) == TrimEnd(TrimStart(s))
  {
  }

  /** Trimming a trimmed string changes nothing. */
  lemma {:induction false} TrimIdempotent(s: string)
    ensures Trim(Trim(s)) == Trim(s)
  {
    var t := Trim(s);
    if t != [] {
      assert LeadingWhitespace(t) == 0;
      assert TrimStart(t) == t;
      assert TrailingStart(t) == |t|;
    }
  }
}
