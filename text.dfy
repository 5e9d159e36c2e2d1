/** The part of JavaScript's String.prototype.trim that addNote relies on:
    `input.trim() !== ""` decides whether a draft may become a note. */
module Text {

  /** The characters trim strips: ECMAScript WhiteSpace (tab, vertical tab,
      form feed, space, no-break space, zero-width no-break space and the
      other Unicode "Zs" space separators) and LineTerminator (line feed,
      carriage return, line separator, paragraph separator). */
  predicate IsWs(c: char) {
    || c == '\t' || c == '\n' || c == '\U{000B}' || c == '\U{000C}' || c == '\r'
    || c == ' ' || c == '\U{00A0}' || c == '\U{1680}'
    || ('\U{2000}' <= c <= '\U{200A}')
    || c == '\U{2028}' || c == '\U{2029}' || c == '\U{202F}' || c == '\U{205F}'
    || c == '\U{3000}' || c == '\U{FEFF}'
  }

  /** Every character of `s` is whitespace (vacuously true of ""). */
  predicate AllWs(s: string) {
    forall i :: 0 <= i < |s| ==> IsWs(s[i])
  }

  /** `s` has some non-whitespace character. */
  predicate HasContent(s: string) {
    !AllWs(s)
  }

  /** Where the content starts when leading whitespace is skipped from
      index `i` on: everything from `i` up to the result is whitespace, and
      the character at the result, if any, is not. */
  function ContentStart(s: string, i: nat): (r: nat)
    requires i <= |s|
    ensures i <= r <= |s|
    ensures forall k :: i <= k < r ==> IsWs(s[k])
    ensures r < |s| ==> !IsWs(s[r])
    decreases |s| - i
  {
    if i == |s| || !IsWs(s[i]) then i else ContentStart(s, i + 1)
  }

  /** Where the content ends when trailing whitespace is dropped from index
      `j` down, but never below `lo`: everything from the result up to `j`
      is whitespace, and the character before the result, if above `lo`,
      is not. */
  function ContentEnd(s: string, lo: nat, j: nat): (r: nat)
    requires lo <= j <= |s|
    ensures lo <= r <= j
    ensures forall k :: r <= k < j ==> IsWs(s[k])
    ensures r > lo ==> !IsWs(s[r - 1])
    decreases j
  {
    if j == lo || !IsWs(s[j - 1]) then j else ContentEnd(s, lo, j - 1)
  }

  /** String.prototype.trim: leading whitespace removed, then trailing
      whitespace. The result is empty exactly when `s` is all whitespace,
      and otherwise begins and ends with a non-whitespace character. */
  function Trim(s: string): (r: string)
    ensures |r| <= |s|
    ensures r == [] <==> AllWs(s)
    ensures r != [] ==> !IsWs(r[0]) && !IsWs(r[|r| - 1])
  {
    var a := ContentStart(s, 0);
    var b := ContentEnd(s, a, |s|);
    assert a < |s| ==> b > a;
    s[a..b]
  }
}
