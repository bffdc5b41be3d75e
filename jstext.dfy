/** The few JavaScript string behaviours the scraper's extraction code leans on:
    `String.prototype.trim`, the `||` fallback on strings, and the value an
    attribute lookup yields (a string, or `undefined` when nothing matched). */
module JsText {

  /** The result of `.attr(name)` on a selection: `undefined` when the selection
      is empty or lacks the attribute, the attribute's string otherwise. */
  datatype Attr = Absent | Present(value: string)
  {
    /** JavaScript truthiness of the value: `undefined` and `""` are falsy. */
    predicate Truthy() {
      Present? && value != []
    }
  }

  /** The characters ECMAScript's `trim` removes from both ends of a string:
      the WhiteSpace code points (tab, vertical tab, form feed, space, no-break
      space, the byte order mark and the space separators) and the line
      terminators. */
  predicate IsTrimmable(c: char) {
    || c in {'\t', '\n', '\U{B}', '\U{C}', '\r', ' ', '\U{A0}', '\U{1680}'}
    || ('\U{2000}' <= c <= '\U{200A}')
    || c in {'\U{2028}', '\U{2029}', '\U{202F}', '\U{205F}', '\U{3000}', '\U{FEFF}'}
  }

  /** Index of the first character at or after `i` that `trim` keeps, or `|s|`. */
  function SkipLeading(s: string, i: nat): (j: nat)
    requires i <= |s|
    ensures i <= j <= |s|
    ensures forall k :: i <= k < j ==> IsTrimmable(s[k])
    ensures j < |s| ==> !IsTrimmable(s[j])
    decreases |s| - i
  {
    if i == |s| || !IsTrimmable(s[i]) then i else SkipLeading(s, i + 1)
  }

  /** Index just past the last character of `s[lo..hi]` that `trim` keeps, or `lo`. */
  function SkipTrailing(s: string, lo: nat, hi: nat): (j: nat)
    requires lo <= hi <= |s|
    ensures lo <= j <= hi
    ensures forall k :: j <= k < hi ==> IsTrimmable(s[k])
    ensures lo < j ==> !IsTrimmable(s[j - 1])
    decreases hi - lo
  {
    if hi == lo || !IsTrimmable(s[hi - 1]) then hi else SkipTrailing(s, lo, hi - 1)
  }

  /** `s.trim()`: `s` without its leading and trailing trimmable characters. */
  function Trim(s: string): (r: string)
    ensures |r| <= |s|
    ensures r == [] <==> forall k :: 0 <= k < |s| ==> IsTrimmable(s[k])
    ensures r != [] ==> !IsTrimmable(r[0]) && !IsTrimmable(r[|r| - 1])
    ensures var lo := SkipLeading(s, 0);
              && lo + |r| <= |s| && r == s[lo..lo + |r|]
              && (forall k :: 0 <= k < lo ==> IsTrimmable(s[k]))
              && (forall k :: lo + |r| <= k < |s| ==> IsTrimmable(s[k]))
  {
    var lo := SkipLeading(s, 0);
    var hi := SkipTrailing(s, lo, |s|);
    assert s[lo..hi] == s[lo..lo + (hi - lo)];
    s[lo..hi]
  }

  /** `s || fallback` for a string `s`: the empty string is falsy. */
  function OrElse(s: string, fallback: string): string {
    if s != [] then s else fallback
  }

  /** `attr || fallback`: a missing or empty attribute falls back. */
  function AttrOrElse(a: Attr, fallback: string): string {
    if a.Truthy() then a.value else fallback
  }
}
