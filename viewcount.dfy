/** The view-count parser of the video extractor: the first match of the
    regular expression `(\d+(?:,\d+)*)` in the text, commas removed, read with
    `parseInt(…, 10)`; 0 when the text has no match. */
module ViewCount {

  /** `\d` in a JavaScript regular expression without the `u` flag: ASCII digits. */
  predicate IsDigit(c: char) {
    '0' <= c <= '9'
  }

  /** `t` is a whole match of `\d+(?:,\d+)*`: digits, single commas between
      digit groups, starting and ending with a digit. */
  predicate IsGroupedNumber(t: string) {
    && |t| > 0
    && IsDigit(t[0])
    && IsDigit(t[|t| - 1])
    && (forall k :: 0 <= k < |t| ==> IsDigit(t[k]) || t[k] == ',')
    && (forall k :: 0 <= k < |t| - 1 && t[k] == ',' ==> IsDigit(t[k + 1]))
  }

  /** The pattern can consume more text at index `e`: a digit, or a comma
      followed by a digit. */
  predicate Extendable(s: string, e: nat)
    requires e <= |s|
  {
    e < |s| && (IsDigit(s[e]) || (s[e] == ',' && e + 1 < |s| && IsDigit(s[e + 1])))
  }

  /** The span of the first match, or no match. */
  datatype Match = NoMatch | Span(start: nat, end: nat)

  /** Index of the first digit at or after `i`, or `|s|`. */
  function FirstDigit(s: string, i: nat): (j: nat)
    requires i <= |s|
    ensures i <= j <= |s|
    ensures forall k :: i <= k < j ==> !IsDigit(s[k])
    ensures j < |s| ==> IsDigit(s[j])
    decreases |s| - i
  {
    if i == |s| || IsDigit(s[i]) then i else FirstDigit(s, i + 1)
  }

  /** Greedy extension of a match `s[i..j]`: the regular expression's `\d+`
      and `(?:,\d+)*` each take as much as they can. */
  function GreedyEnd(s: string, i: nat, j: nat): (e: nat)
    requires i < j <= |s| && IsGroupedNumber(s[i..j])
    ensures j <= e <= |s| && IsGroupedNumber(s[i..e])
    ensures !Extendable(s, e)
    decreases |s| - j
  {
    if j < |s| && IsDigit(s[j]) then
      assert s[i..j + 1] == s[i..j] + [s[j]];
      GreedyEnd(s, i, j + 1)
    else if j + 1 < |s| && s[j] == ',' && IsDigit(s[j + 1]) then
      assert s[i..j + 2] == s[i..j] + [s[j], s[j + 1]];
      GreedyEnd(s, i, j + 2)
    else j
  }

  /** A grouped number that the pattern cannot extend is never a proper prefix
      of a longer grouped number starting at the same place. */
  lemma {:induction false} NoLongerMatch(s: string, i: nat, e: nat, e': nat)
    requires i < e < e' <= |s|
    requires IsGroupedNumber(s[i..e]) && !Extendable(s, e)
    ensures !IsGroupedNumber(s[i..e'])
  {
    var t := s[i..e'];
    assert t[e - i] == s[e];
    assert e + 1 < e' ==> t[e - i + 1] == s[e + 1];
  }

  /** An unextendable grouped number ends where the greedy scan ends: the
      greedy end is the only place a maximal match can stop. */
  lemma {:induction false} GreedyEndUnique(s: string, i: nat, e: nat)
    requires i < e <= |s| && IsGroupedNumber(s[i..e]) && !Extendable(s, e)
    ensures GreedyEnd(s, i, i + 1) == e
  {
    assert IsGroupedNumber(s[i..i + 1]);
    var g := GreedyEnd(s, i, i + 1);
    if g < e {
      NoLongerMatch(s, i, g, e);
    } else if e < g {
      NoLongerMatch(s, i, e, g);
    }
  }

  /** `text.match(/(\d+(?:,\d+)*)/)`: the leftmost match, and at that place
      the longest one. */
  function FirstMatch(s: string): (m: Match)
    ensures m.NoMatch? <==> forall k :: 0 <= k < |s| ==> !IsDigit(s[k])
    ensures m.Span? ==>
      && m.start < m.end <= |s|
      && IsGroupedNumber(s[m.start..m.end])
      && (forall k :: 0 <= k < m.start ==> !IsDigit(s[k]))
      && (forall e :: m.end < e <= |s| ==> !IsGroupedNumber(s[m.start..e]))
  {
    var i := FirstDigit(s, 0);
    if i == |s| then NoMatch
    else
      assert s[i..i + 1] == [s[i]];
      var e := GreedyEnd(s, i, i + 1);
      assert forall e' :: e < e' <= |s| ==> !IsGroupedNumber(s[i..e']) by {
        forall e' | e < e' <= |s| ensures !IsGroupedNumber(s[i..e']) {
          NoLongerMatch(s, i, e, e');
        }
      }
      Span(i, e)
  }

  /** `t.replace(/,/g, "")`. */
  function StripCommas(t: string): (r: string)
    ensures |r| <= |t|
    ensures forall k :: 0 <= k < |r| ==> r[k] != ','
    ensures multiset(r) == multiset(t)[',' := 0]
  {
    if t == [] then []
    else
      assert t == [t[0]] + t[1..];
      if t[0] == ',' then StripCommas(t[1..])
      else [t[0]] + StripCommas(t[1..])
  }

  function DigitValue(c: char): (d: nat)
    requires IsDigit(c)
    ensures d < 10
  {
    c as int - '0' as int
  }

  /** `parseInt(d, 10)` of a string of digits: its base-10 value. */
  function DigitsValue(d: string): (n: nat)
    requires forall k :: 0 <= k < |d| ==> IsDigit(d[k])
  {
    if d == [] then 0 else DigitsValue(d[..|d| - 1]) * 10 + DigitValue(d[|d| - 1])
  }

  /** The view count of a video node's views text. */
  function ParseViews(text: string): (views: nat)
    ensures (forall k :: 0 <= k < |text| ==> !IsDigit(text[k])) ==> views == 0
  {
    match FirstMatch(text)
    case NoMatch => 0
    case Span(i, e) =>
      StripDigitsOnly(text[i..e]);
      DigitsValue(StripCommas(text[i..e]))
  }

  /** Removing the commas of a grouped number leaves only digits. */
  lemma {:induction false} StripDigitsOnly(t: string)
    requires forall k :: 0 <= k < |t| ==> IsDigit(t[k]) || t[k] == ','
    ensures forall k :: 0 <= k < |StripCommas(t)| ==> IsDigit(StripCommas(t)[k])
  {
    if t != [] {
      StripDigitsOnly(t[1..]);
    }
  }

  /** `StripCommas` distributes over concatenation. */
  lemma {:induction false} StripCommasAppend(a: string, b: string)
    ensures StripCommas(a + b) == StripCommas(a) + StripCommas(b)
  {
    if a != [] {
      assert (a + b)[0] == a[0];
      assert (a + b)[1..] == a[1..] + b;
      StripCommasAppend(a[1..], b);
      if a[0] == ',' {
        assert StripCommas(a + b) == StripCommas(a[1..] + b);
      } else {
        assert StripCommas(a + b) == [a[0]] + StripCommas(a[1..] + b);
      }
    } else {
      assert a + b == b;
    }
  }

  function Pow10(k: nat): (p: nat)
    ensures p >= 1
  {
    if k == 0 then 1 else 10 * Pow10(k - 1)
  }

  /** Reading digits left to right: the value of `a + b` shifts `a` by `|b|` places. */
  lemma {:induction false} DigitsValueAppend(a: string, b: string)
    requires forall k :: 0 <= k < |a| ==> IsDigit(a[k])
    requires forall k :: 0 <= k < |b| ==> IsDigit(b[k])
    ensures DigitsValue(a + b) == DigitsValue(a) * Pow10(|b|) + DigitsValue(b)
  {
    if b == [] {
      assert a + b == a;
    } else {
      var b' := b[..|b| - 1];
      assert (a + b)[..|a + b| - 1] == a + b';
      assert (a + b)[|a + b| - 1] == b[|b| - 1];
      DigitsValueAppend(a, b');
      assert b[..|b| - 1] == b';
      var x, p, y, d := DigitsValue(a), Pow10(|b'|), DigitsValue(b'), DigitValue(b[|b| - 1]);
      assert DigitsValue(a + b) == (x * p + y) * 10 + d;
      assert DigitsValue(b) == y * 10 + d;
      assert Pow10(|b|) == p * 10;
      ShiftByDigit(x, p, y, d);
    }
  }

  lemma ShiftByDigit(x: nat, p: nat, y: nat, d: nat)
    ensures (x * p + y) * 10 + d == x * (p * 10) + (y * 10 + d)
  {
  }

  function DigitChar(d: nat): (c: char)
    requires d < 10
    ensures IsDigit(c) && DigitValue(c) == d
  {
    ('0' as int + d) as char
  }

  /** The base-10 numeral of `n`, without leading zeros. */
  function Decimal(n: nat): (d: string)
    ensures 0 < |d|
    ensures forall k :: 0 <= k < |d| ==> IsDigit(d[k])
    ensures DigitsValue(d) == n
  {
    if n < 10 then [DigitChar(n)]
    else
      var d := Decimal(n / 10) + [DigitChar(n % 10)];
      assert d[..|d| - 1] == Decimal(n / 10);
      d
  }

  /** A group of exactly three digits, as after a thousands separator. */
  function ThreeDigits(n: nat): (d: string)
    requires n < 1000
    ensures |d| == 3
    ensures forall k :: 0 <= k < |d| ==> IsDigit(d[k])
    ensures DigitsValue(d) == n
  {
    var d := [DigitChar(n / 100), DigitChar(n / 10 % 10), DigitChar(n % 10)];
    assert d[..2][..1] == [d[0]];
    assert DigitsValue(d[..1]) == n / 100;
    assert DigitsValue(d[..2]) == n / 100 * 10 + n / 10 % 10;
    d
  }

  /** `n` as a page shows a view count: digit groups of three separated by
      commas ("1,234,567"). */
  function Grouped(n: nat): (t: string)
    ensures IsGroupedNumber(t)
    decreases n
  {
    if n < 1000 then
      Decimal(n)
    else
      JoinGroups(Grouped(n / 1000), ThreeDigits(n % 1000));
      Grouped(n / 1000) + [','] + ThreeDigits(n % 1000)
  }

  /** The digits of `Grouped(n)`, commas removed, spell `n`. */
  lemma {:induction false} GroupedValue(n: nat)
    ensures forall k :: 0 <= k < |StripCommas(Grouped(n))| ==> IsDigit(StripCommas(Grouped(n))[k])
    ensures DigitsValue(StripCommas(Grouped(n))) == n
    decreases n
  {
    if n < 1000 {
      StripNoCommas(Decimal(n));
    } else {
      var g := Grouped(n / 1000);
      var low := ThreeDigits(n % 1000);
      GroupedValue(n / 1000);
      JoinGroups(g, low);
      var digits := StripCommas(g);
      DigitsValueAppend(digits, low);
      assert Pow10(3) == 1000;
      assert DigitsValue(digits + low) == n / 1000 * 1000 + n % 1000;
    }
  }

  /** Joining a grouped number and a three-digit group with a comma gives a
      grouped number whose digits are those of both parts. */
  lemma {:induction false} JoinGroups(g: string, low: string)
    requires IsGroupedNumber(g)
    requires |low| == 3 && forall k :: 0 <= k < 3 ==> IsDigit(low[k])
    ensures IsGroupedNumber(g + [','] + low)
    ensures StripCommas(g + [','] + low) == StripCommas(g) + low
  {
    var t := g + [','] + low;
    StripCommasAppend(g + [','], low);
    StripCommasAppend(g, [',']);
    StripNoCommas(low);
    assert StripCommas([',']) == [];
    forall k | 0 <= k < |t| - 1 && t[k] == ',' ensures IsDigit(t[k + 1]) {
      if k < |g| - 1 {
        assert t[k] == g[k] && t[k + 1] == g[k + 1];
      } else if k == |g| {
        assert t[k + 1] == low[0];
      }
    }
    forall k | 0 <= k < |t| ensures IsDigit(t[k]) || t[k] == ',' {
      if k < |g| {
        assert t[k] == g[k];
      } else if k > |g| {
        assert t[k] == low[k - |g| - 1];
      }
    }
  }

  /** A string of digits has no commas to strip. */
  lemma {:induction false} StripNoCommas(d: string)
    requires forall k :: 0 <= k < |d| ==> IsDigit(d[k])
    ensures StripCommas(d) == d
  {
    if d != [] {
      StripNoCommas(d[1..]);
    }
  }

  /** Round trip: a view count rendered with thousands separators, preceded
      by text without digits and followed by text the pattern cannot consume
      (" views", the end of the text), parses back to the same count. */
  lemma {:induction false} ParseGroupedViews(prefix: string, n: nat, suffix: string)
    requires forall k :: 0 <= k < |prefix| ==> !IsDigit(prefix[k])
    requires !Extendable(suffix, 0)
    ensures ParseViews(prefix + Grouped(n) + suffix) == n
  {
    var g := Grouped(n);
    GroupedValue(n);
    var s := prefix + g + suffix;
    var i, e := |prefix|, |prefix| + |g|;
    assert s[i..e] == g;
    assert s[i] == g[0];
    assert FirstDigit(s, 0) == i by {
      FirstDigitSkips(s, prefix);
    }
    assert !Extendable(s, e) by {
      if e < |s| {
        assert s[e] == suffix[0];
        if e + 1 < |s| {
          assert s[e + 1] == suffix[1];
        }
      }
    }
    GreedyEndUnique(s, i, e);
    assert FirstMatch(s) == Span(i, e);
  }

  /** A digit-free prefix is skipped by the search for the first digit. */
  lemma {:induction false} FirstDigitSkips(s: string, prefix: string)
    requires prefix <= s && |prefix| < |s| && IsDigit(s[|prefix|])
    requires forall k :: 0 <= k < |prefix| ==> !IsDigit(prefix[k])
    ensures FirstDigit(s, 0) == |prefix|
  {
  }
}
