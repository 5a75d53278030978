/**
 * The part of JavaScript's `String.prototype.trim` that both the web client and
 * the service rely on: dropping leading and trailing white space and line
 * terminators.
 */
module JsString {

  /** WhiteSpace and LineTerminator code points of ECMAScript (sections 12.2 and 12.3 of ECMA-262). */
  predicate IsWhitespace(c: char) {
    c == '\t' || c == '\U{000B}' || c == '\U{000C}' || c == ' ' || c == '\U{00A0}' || c == '\U{FEFF}'
    || c == '\U{1680}' || ('\U{2000}' <= c <= '\U{200A}') || c == '\U{202F}' || c == '\U{205F}'
    || c == '\U{3000}'
    || c == '\n' || c == '\r' || c == '\U{2028}' || c == '\U{2029}'
  }

  predicate AllWhitespace(s: string) {
    forall i :: 0 <= i < |s| ==> IsWhitespace(s[i])
  }

  /** Neither starts nor ends with white space: what `trim` produces. */
  predicate IsTrimmed(s: string) {
    s == [] || (!IsWhitespace(s[0]) && !IsWhitespace(s[|s| - 1]))
  }

  /** How many characters of leading white space `s` has. */
  function LeadingWhitespace(s: string): (k: nat)
    ensures k <= |s|
    ensures forall i :: 0 <= i < k ==> IsWhitespace(s[i])
    ensures k == |s| || !IsWhitespace(s[k])
  {
    if s == [] || !IsWhitespace(s[0]) then 0
    else
      var k := 1 + LeadingWhitespace(s[1..]);
      assert forall i :: 1 <= i < |s| ==> s[i] == s[1..][i - 1];
      k
  }

  /** Where the trailing white space of `s` starts. */
  function TrailingWhitespaceStart(s: string): (j: nat)
    ensures j <= |s|
    ensures forall i :: j <= i < |s| ==> IsWhitespace(s[i])
    ensures j == 0 || !IsWhitespace(s[j - 1])
  {
    if s == [] || !IsWhitespace(s[|s| - 1]) then |s|
    else
      var j := TrailingWhitespaceStart(s[..|s| - 1]);
      assert forall i :: 0 <= i < |s| - 1 ==> s[i] == s[..|s| - 1][i];
      j
  }

  /** `s.trim()`: what lies between the leading and the trailing white space. */
  function Trim(s: string): (r: string)
    ensures IsTrimmed(r)
    ensures |r| <= |s|
    ensures r == [] <==> AllWhitespace(s)
  {
    var k, j := LeadingWhitespace(s), TrailingWhitespaceStart(s);
    if k == |s| then [] else s[k..j]
  }

  /**
   * Trim keeps exactly the middle of the string: it starts right after the
   * leading white space, and whatever follows it in `s` is white space.
   */
  lemma TrimIsInfix(s: string)
    ensures var k := LeadingWhitespace(s);
      k + |Trim(s)| <= |s| && Trim(s) == s[k..k + |Trim(s)|]
      && (forall i :: 0 <= i < k ==> IsWhitespace(s[i]))
      && (forall i :: k + |Trim(s)| <= i < |s| ==> IsWhitespace(s[i]))
  {
  }

  /** The leading white space is the only prefix of white space followed by something else. */
  lemma LeadingWhitespaceUnique(s: string, k: nat)
    requires k <= |s|
    requires forall i :: 0 <= i < k ==> IsWhitespace(s[i])
    requires k == |s| || !IsWhitespace(s[k])
    ensures LeadingWhitespace(s) == k
  {
  }

  /** The trailing white space is the only suffix of white space preceded by something else. */
  lemma TrailingWhitespaceUnique(s: string, j: nat)
    requires j <= |s|
    requires forall i :: j <= i < |s| ==> IsWhitespace(s[i])
    requires j == 0 || !IsWhitespace(s[j - 1])
    ensures TrailingWhitespaceStart(s) == j
  {
  }

  /** Conversely, white space around a trimmed middle is exactly what Trim removes. */
  lemma TrimUnique(front: string, middle: string, back: string)
    requires AllWhitespace(front) && AllWhitespace(back) && IsTrimmed(middle)
    ensures Trim(front + middle + back) == middle
  {
    var s := front + middle + back;
    var m := |front| + |middle|;
    assert forall i :: 0 <= i < |s| ==>
      s[i] == if i < |front| then front[i] else if i < m then middle[i - |front|] else back[i - m];
    if middle != [] {
      LeadingWhitespaceUnique(s, |front|);
      TrailingWhitespaceUnique(s, m);
      assert s[|front|..m] == middle;
    }
  }

  /** A string that is already trimmed comes back unchanged. */
  lemma TrimOfTrimmed(s: string)
    requires IsTrimmed(s)
    ensures Trim(s) == s
  {
    TrimUnique([], s, []);
    assert [] + s + [] == s;
  }

  /** Trimming twice is trimming once. */
  lemma TrimIdempotent(s: string)
    ensures Trim(Trim(s)) == Trim(s)
  {
    TrimOfTrimmed(Trim(s));
  }
}
