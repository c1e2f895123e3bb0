/** `String.prototype.trim`, used by addWord on the word it stores and by
    the add handler to reject blank input. */
module Text {

  /** WhiteSpace and LineTerminator code points of ECMA-262, the characters
      `trim` removes from both ends. */
  predicate IsWhitespace(c: char) {
    || c == ' ' || c == '\t' || c == '\n' || c == '\r'
    || c == '\U{B}' || c == '\U{C}' || c == '\U{A0}' || c == '\U{FEFF}'
    || c == '\U{1680}' || ('\U{2000}' <= c <= '\U{200A}')
    || c == '\U{2028}' || c == '\U{2029}' || c == '\U{202F}'
    || c == '\U{205F}' || c == '\U{3000}'
  }

  /** Every character of `s` from `lo` up to `hi` is whitespace. */
  predicate BlankBetween(s: string, lo: nat, hi: nat)
    requires lo <= hi <= |s|
  {
    forall i :: lo <= i < hi ==> IsWhitespace(s[i])
  }

  predicate AllWhitespace(s: string) {
    BlankBetween(s, 0, |s|)
  }

  /** Where the text of `s` starts: the length of its leading whitespace. */
  function TextStart(s: string): (k: nat)
    ensures k <= |s|
    ensures BlankBetween(s, 0, k)
    ensures k < |s| ==> !IsWhitespace(s[k])
  {
    if s != [] && IsWhitespace(s[0]) then
      var k := TextStart(s[1..]);
      assert forall i :: 1 <= i < k + 1 ==> s[i] == s[1..][i - 1];
      k + 1
    else 0
  }

  /** Where the text of `s` ends: its length minus its trailing whitespace. */
  function TextEnd(s: string): (k: nat)
    ensures k <= |s|
    ensures BlankBetween(s, k, |s|)
    ensures 0 < k ==> !IsWhitespace(s[k - 1])
  {
    if s != [] && IsWhitespace(s[|s| - 1]) then
      var k := TextEnd(s[..|s| - 1]);
      assert forall i :: k <= i < |s| - 1 ==> s[i] == s[..|s| - 1][i];
      k
    else |s|
  }

  /** A string with some text has its text start before its text end. */
  lemma TextBounds(s: string)
    ensures TextStart(s) == |s| <==> AllWhitespace(s)
    ensures !AllWhitespace(s) ==> TextStart(s) < TextEnd(s)
  {
    var lo := TextStart(s);
    var hi := TextEnd(s);
    if lo < |s| {
      assert !IsWhitespace(s[lo]);
      assert lo < hi;
    }
  }

  /** `s.trim()`: empty exactly when `s` is blank; otherwise it neither
      starts nor ends with whitespace. */
  function Trim(s: string): (r: string)
    ensures r == [] <==> AllWhitespace(s)
    ensures r != [] ==> !IsWhitespace(r[0]) && !IsWhitespace(r[|r| - 1])
  {
    TextBounds(s);
    var lo := TextStart(s);
    var hi := TextEnd(s);
    if lo < hi then s[lo..hi] else []
  }

  /** Trim removes only whitespace, and only at the two ends: the result is
      the block of `s` between its leading and its trailing whitespace. */
  lemma TrimKeepsInterior(s: string)
    ensures var lo := TextStart(s); var r := Trim(s);
      && lo + |r| <= |s|
      && r == s[lo..lo + |r|]
      && BlankBetween(s, 0, lo)
      && BlankBetween(s, lo + |r|, |s|)
  {
    TextBounds(s);
  }

  /** Trimming twice is trimming once. */
  lemma TrimIdempotent(s: string)
    ensures Trim(Trim(s)) == Trim(s)
  {
    var r := Trim(s);
    if r != [] {
      assert TextStart(r) == 0;
      assert TextEnd(r) == |r|;
    }
  }
}
