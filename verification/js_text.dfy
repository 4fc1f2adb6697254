/** The handful of JavaScript string operations the script relies on:
    `String.prototype.trim`, `startsWith` and `includes`. Strings are
    sequences of code points; every character these operations look at is
    in the Basic Multilingual Plane, so UTF-16 and code points agree here. */
module JsText {

  /** The WhiteSpace and LineTerminator code points of ECMAScript
      (sections 12.2 and 12.3 of ECMA-262), which `trim` removes and
      `parseInt` skips. */
  predicate IsWhitespace(c: char) {
    || c == '\t' || c == '\U{B}' || c == '\U{C}' || c == ' ' || c == '\U{A0}'
    || c == '\U{FEFF}' || c == '\U{1680}' || ('\U{2000}' <= c <= '\U{200A}')
    || c == '\U{202F}' || c == '\U{205F}' || c == '\U{3000}'
    || c == '\n' || c == '\r' || c == '\U{2028}' || c == '\U{2029}'
  }

  /** The ASCII digits, the class `\d` of a regular expression without the
      `u` flag and the decimal digits of `parseInt`. */
  predicate IsDecimalDigit(c: char) {
    '0' <= c <= '9'
  }

  /** The number of whitespace characters `s` starts with. */
  function LeadingSpace(s: string): (n: nat)
    ensures n <= |s|
    ensures forall k :: 0 <= k < n ==> IsWhitespace(s[k])
    ensures n < |s| ==> !IsWhitespace(s[n])
  {
    if |s| > 0 && IsWhitespace(s[0]) then
      assert forall k :: 1 <= k < |s| ==> s[k] == s[1..][k - 1];
      1 + LeadingSpace(s[1..])
    else 0
  }

  /** The number of whitespace characters `s` ends with. */
  function TrailingSpace(s: string): (n: nat)
    ensures n <= |s|
    ensures forall k :: |s| - n <= k < |s| ==> IsWhitespace(s[k])
    ensures n < |s| ==> !IsWhitespace(s[|s| - 1 - n])
  {
    if |s| > 0 && IsWhitespace(s[|s| - 1]) then
      assert forall k :: 0 <= k < |s| - 1 ==> s[k] == s[..|s| - 1][k];
      1 + TrailingSpace(s[..|s| - 1])
    else 0
  }

  /** `s.trimStart()`: `s` without its leading whitespace. */
  function TrimStart(s: string): (r: string)
    ensures |r| > 0 ==> !IsWhitespace(r[0])
  {
    s[LeadingSpace(s)..]
  }

  /** `r` is `s` with the whitespace before position `i` and after
      position `i + |r|` removed. */
  predicate TrimmedAt(s: string, r: string, i: int) {
    && 0 <= i && i + |r| <= |s| && s[i..i + |r|] == r
    && (forall k :: 0 <= k < i ==> IsWhitespace(s[k]))
    && (forall k :: i + |r| <= k < |s| ==> IsWhitespace(s[k]))
  }

  /** `s.trim()`: the slice of `s` between its leading and trailing
      whitespace. */
  function Trim(s: string): (r: string)
    ensures exists i :: TrimmedAt(s, r, i)
    ensures |r| > 0 ==> !IsWhitespace(r[0]) && !IsWhitespace(r[|r| - 1])
    ensures r == [] <==> forall k :: 0 <= k < |s| ==> IsWhitespace(s[k])
  {
    var i := LeadingSpace(s);
    if i == |s| then
      assert TrimmedAt(s, [], i);
      []
    else
      var j := |s| - TrailingSpace(s);
      assert i < j;
      var r := s[i..j];
      assert TrimmedAt(s, r, i);
      assert r[0] == s[i] && r[|r| - 1] == s[j - 1];
      r
  }

  /** `s.startsWith(p)`. */
  predicate StartsWith(s: string, p: string) {
    |p| <= |s| && s[..|p|] == p
  }

  /** `sub` occurs in `s` at position `k`. */
  predicate OccursAt(s: string, sub: string, k: int) {
    0 <= k && k + |sub| <= |s| && s[k..k + |sub|] == sub
  }

  /** `s.includes(sub)`: some position of `s` holds an occurrence of `sub`. */
  function Includes(s: string, sub: string): (b: bool)
    ensures b <==> exists k :: OccursAt(s, sub, k)
    decreases |s|
  {
    if StartsWith(s, sub) then
      assert OccursAt(s, sub, 0);
      true
    else if |s| <= |sub| then
      assert forall k :: OccursAt(s, sub, k) ==> k == 0 && StartsWith(s, sub);
      false
    else
      var b := Includes(s[1..], sub);
      assert forall k :: OccursAt(s[1..], sub, k) <==> OccursAt(s, sub, k + 1) by {
        forall k | 0 <= k && k + |sub| <= |s| - 1
          ensures OccursAt(s[1..], sub, k) <==> OccursAt(s, sub, k + 1)
        {
          assert s[1..][k..k + |sub|] == s[k + 1..k + 1 + |sub|];
        }
      }
      assert b ==> exists k :: OccursAt(s, sub, k) by {
        if b {
          var k :| OccursAt(s[1..], sub, k);
          assert OccursAt(s, sub, k + 1);
        }
      }
      assert (exists k :: OccursAt(s, sub, k)) ==> b by {
        if exists k :: OccursAt(s, sub, k) {
          var k :| OccursAt(s, sub, k);
          assert k != 0;
          assert OccursAt(s[1..], sub, k - 1);
        }
      }
      b
  }
}
