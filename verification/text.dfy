/** Python's `str.strip()` with no arguments: removing leading and trailing
    whitespace, where whitespace is exactly the set `str.isspace` accepts. */
module Text {

  /** The characters Python's `str.isspace` accepts: ASCII tab through
      carriage return, the space, the four ASCII separators, NEL, NBSP and the
      Unicode space and line/paragraph separators. */
  predicate IsSpace(c: char) {
    || c == ' '
    || '\t' <= c <= '\r'
    || '\U{1c}' <= c <= '\U{1f}'
    || c == '\U{85}'
    || c == '\U{a0}'
    || c == '\U{1680}'
    || '\U{2000}' <= c <= '\U{200a}'
    || c == '\U{2028}'
    || c == '\U{2029}'
    || c == '\U{202f}'
    || c == '\U{205f}'
    || c == '\U{3000}'
  }

  /** Every character of `s` is whitespace (vacuously so for ""). */
  predicate AllSpace(s: string) {
    forall i :: 0 <= i < |s| ==> IsSpace(s[i])
  }

  /** The index of the first non-space at or after `i` (or `|s|`). */
  function SkipSpace(s: string, i: nat): (n: nat)
    requires i <= |s|
    ensures i <= n <= |s|
    ensures forall k :: i <= k < n ==> IsSpace(s[k])
    ensures n == |s| || !IsSpace(s[n])
    decreases |s| - i
  {
    if i < |s| && IsSpace(s[i]) then SkipSpace(s, i + 1) else i
  }

  /** The index just past the last non-space before `j` that is at or after
      `lo` (or `lo`). */
  function SkipSpaceBack(s: string, lo: nat, j: nat): (n: nat)
    requires lo <= j <= |s|
    ensures lo <= n <= j
    ensures forall k :: n <= k < j ==> IsSpace(s[k])
    ensures n == lo || !IsSpace(s[n - 1])
    decreases j - lo
  {
    if lo < j && IsSpace(s[j - 1]) then SkipSpaceBack(s, lo, j - 1) else j
  }

  /** Python's `s.strip()`. The result is the piece of `s` between its leading
      and its trailing whitespace; it is empty exactly when `s` is all
      whitespace, and otherwise starts and ends with a non-space. */
  function Strip(s: string): (r: string)
    ensures |r| <= |s|
    ensures r == [] <==> AllSpace(s)
    ensures r != [] ==> !IsSpace(r[0]) && !IsSpace(r[|r| - 1])
  {
    var i := SkipSpace(s, 0);
    var j := SkipSpaceBack(s, i, |s|);
    assert i < j ==> !AllSpace(s);
    s[i..j]
  }

  /** `strip()` cuts `s` into whitespace, the result, and whitespace: with
      the ends of the result being non-spaces, this pins the result down. */
  lemma StripTrims(s: string)
    ensures exists i, j :: && 0 <= i <= j <= |s| && Strip(s) == s[i..j]
                           && AllSpace(s[..i]) && AllSpace(s[j..])
  {
    var i := SkipSpace(s, 0);
    var j := SkipSpaceBack(s, i, |s|);
    assert Strip(s) == s[i..j];
    assert AllSpace(s[..i]);
    assert AllSpace(s[j..]);
  }
}
