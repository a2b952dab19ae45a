/**
 * The few `kotlin.text` operations the core relies on, over `string` = `seq<char>`:
 * `split`, `joinToString`, `trim`, `replace`, `lastIndexOf`, `removePrefix`/`removeSuffix`,
 * `toInt`/`toLong` of a decimal text, `Int.toString()` and `String.toBoolean()`.
 */
module Text {
  import opened Wrappers

  // ---------------------------------------------------------------------------
  // split / joinToString
  // ---------------------------------------------------------------------------

  /** `s.split(d)`: the pieces between the non-overlapping occurrences of `d`, scanned left to right. */
  function Split(s: string, d: string): (r: seq<string>)
    requires |d| > 0
    ensures |r| >= 1
    decreases |s|
  {
    if |s| < |d| then [s]
    else if s[..|d|] == d then [""] + Split(s[|d|..], d)
    else
      var rest := Split(s[1..], d);
      [[s[0]] + rest[0]] + rest[1..]
  }

  /** `parts.joinToString(sep)`. */
  function Join(parts: seq<string>, sep: string): string
  {
    if |parts| == 0 then ""
    else if |parts| == 1 then parts[0]
    else parts[0] + sep + Join(parts[1..], sep)
  }

  /** A text in which the delimiter never starts is not cut. */
  lemma {:induction false} SplitWhole(p: string, d: string)
    requires |d| > 0 && d[0] !in p
    ensures Split(p, d) == [p]
    decreases |p|
  {
    if |p| >= |d| {
      assert p[..|d|][0] == p[0];
      SplitWhole(p[1..], d);
      assert [p[0]] + p[1..] == p;
    }
  }

  /** The first delimiter after a piece free of the delimiter's first character ends that piece. */
  lemma {:induction false} SplitAtFirst(p: string, d: string, rest: string)
    requires |d| > 0 && d[0] !in p
    ensures Split(p + d + rest, d) == [p] + Split(rest, d)
    decreases |p|
  {
    var s := p + d + rest;
    if |p| == 0 {
      assert s[..|d|] == d;
      assert s[|d|..] == rest;
    } else {
      assert s[..|d|][0] == p[0];
      assert s[1..] == p[1..] + d + rest;
      SplitAtFirst(p[1..], d, rest);
      assert [p[0]] + p[1..] == p;
    }
  }

  /** Joining pieces that do not contain a one-character separator and splitting again gives them back. */
  lemma {:induction false} SplitJoin(parts: seq<string>, c: char)
    requires |parts| >= 1
    requires forall i :: 0 <= i < |parts| ==> c !in parts[i]
    ensures Split(Join(parts, [c]), [c]) == parts
    decreases |parts|
  {
    if |parts| == 1 {
      SplitWhole(parts[0], [c]);
    } else {
      SplitJoin(parts[1..], c);
      SplitAtFirst(parts[0], [c], Join(parts[1..], [c]));
    }
  }

  /** Whether `d` occurs in `s` as a contiguous piece. */
  predicate Contains(s: string, d: string)
  {
    exists i :: 0 <= i <= |s| - |d| && OccursAt(s, d, i)
  }

  /** Whether `d` occurs in `s` starting at position `i`. */
  predicate OccursAt(s: string, d: string, i: int)
  {
    0 <= i <= |s| - |d| && s[i..i + |d|] == d
  }

  // ---------------------------------------------------------------------------
  // replace
  // ---------------------------------------------------------------------------

  /** `s.replace(t, r)`: every non-overlapping occurrence of `t`, scanned left to right, becomes `r`. */
  function Replace(s: string, t: string, r: string): string
    requires |t| > 0
    decreases |s|
  {
    if |s| < |t| then s
    else if s[..|t|] == t then r + Replace(s[|t|..], t, r)
    else [s[0]] + Replace(s[1..], t, r)
  }

  /** A text without the searched piece is left unchanged. */
  lemma {:induction false} ReplaceAbsent(s: string, t: string, r: string)
    requires |t| > 0 && !Contains(s, t)
    ensures Replace(s, t, r) == s
    decreases |s|
  {
    if |s| >= |t| {
      assert !OccursAt(s, t, 0);
      assert !Contains(s[1..], t) by {
        forall i | 0 <= i <= |s[1..]| - |t|
          ensures !OccursAt(s[1..], t, i)
        {
          assert s[1..][i..i + |t|] == s[i + 1..i + 1 + |t|];
          assert !OccursAt(s, t, i + 1);
        }
      }
      ReplaceAbsent(s[1..], t, r);
    }
  }

  /** Each occurrence, found left to right, is replaced and the text around it is kept. */
  lemma {:induction false} ReplaceAtFirst(a: string, t: string, r: string, b: string)
    requires |t| > 0 && t[0] !in a
    ensures Replace(a + t + b, t, r) == a + r + Replace(b, t, r)
    decreases |a|
  {
    var s := a + t + b;
    if |a| == 0 {
      assert s == t + b;
      assert s[..|t|] == t && s[|t|..] == b;
      assert Replace(s, t, r) == r + Replace(b, t, r);
      assert a + r == r;
    } else {
      assert a[0] in a;
      assert s[..|t|][0] == a[0] && a[0] != t[0];
      assert s[..|t|] != t;
      assert s[1..] == a[1..] + t + b;
      assert Replace(s, t, r) == [a[0]] + Replace(s[1..], t, r);
      ReplaceAtFirst(a[1..], t, r, b);
      assert [a[0]] + (a[1..] + r + Replace(b, t, r)) == a + r + Replace(b, t, r);
    }
  }

  // ---------------------------------------------------------------------------
  // trim
  // ---------------------------------------------------------------------------

  /**
   * Kotlin's `Char.isWhitespace()` on the JVM: Java whitespace (tab, line feed, vertical tab,
   * form feed, carriage return, the four information separators) or a Unicode space,
   * line or paragraph separator.
   */
  predicate IsWhitespace(c: char)
  {
    ('\U{0009}' <= c <= '\U{000D}') || ('\U{001C}' <= c <= '\U{0020}')
    || c == '\U{00A0}' || c == '\U{1680}' || ('\U{2000}' <= c <= '\U{200A}')
    || c == '\U{2028}' || c == '\U{2029}' || c == '\U{202F}' || c == '\U{205F}' || c == '\U{3000}'
  }

  /** The first position at or after `i` that is not whitespace, or `|s|`. */
  function SkipLeading(s: string, i: nat): (j: nat)
    requires i <= |s|
    ensures i <= j <= |s|
    ensures forall k :: i <= k < j ==> IsWhitespace(s[k])
    ensures j < |s| ==> !IsWhitespace(s[j])
    decreases |s| - i
  {
    if i < |s| && IsWhitespace(s[i]) then SkipLeading(s, i + 1) else i
  }

  /** The end of `s[..e]` once trailing whitespace is dropped. */
  function SkipTrailing(s: string, e: nat): (j: nat)
    requires e <= |s|
    ensures j <= e
    ensures forall k :: j <= k < e ==> IsWhitespace(s[k])
    ensures j > 0 ==> !IsWhitespace(s[j - 1])
    decreases e
  {
    if e > 0 && IsWhitespace(s[e - 1]) then SkipTrailing(s, e - 1) else e
  }

  /** `s.trim()`: `s` without its leading and trailing whitespace. */
  function Trim(s: string): (r: string)
    ensures |r| <= |s|
    ensures r == "" <==> forall k :: 0 <= k < |s| ==> IsWhitespace(s[k])
    ensures r != "" ==> !IsWhitespace(r[0]) && !IsWhitespace(r[|r| - 1])
  {
    var i := SkipLeading(s, 0);
    var e := SkipTrailing(s, |s|);
    if i < e then s[i..e] else ""
  }

  /** Where `Trim(s)` sits in `s`: everything before `i` and from `e` on is whitespace. */
  lemma TrimBounds(s: string) returns (i: nat, e: nat)
    ensures i <= e <= |s| && Trim(s) == s[i..e]
    ensures forall k :: 0 <= k < i ==> IsWhitespace(s[k])
    ensures forall k :: e <= k < |s| ==> IsWhitespace(s[k])
  {
    i := SkipLeading(s, 0);
    e := SkipTrailing(s, |s|);
    if e <= i {
      e := i;
    }
  }

  // ---------------------------------------------------------------------------
  // lastIndexOf, prefixes and suffixes
  // ---------------------------------------------------------------------------

  /** `s.lastIndexOf(c, from)`: the last position at or before `from` holding `c`, or -1. */
  function LastIndexOf(s: string, c: char, from: int): (k: int)
    ensures k == -1 || (0 <= k < |s| && k <= from && s[k] == c)
    ensures forall j :: k < j <= from && 0 <= j < |s| ==> s[j] != c
    decreases if from < |s| then from + 1 else |s| + 1
  {
    if from < 0 then -1
    else if from >= |s| then LastIndexOf(s, c, |s| - 1)
    else if s[from] == c then from
    else LastIndexOf(s, c, from - 1)
  }

  predicate StartsWith(s: string, p: string) { |p| <= |s| && s[..|p|] == p }

  predicate EndsWith(s: string, p: string) { |p| <= |s| && s[|s| - |p|..] == p }

  /** `s.removePrefix(p)`. */
  function RemovePrefix(s: string, p: string): (r: string)
    ensures StartsWith(s, p) ==> p + r == s
    ensures !StartsWith(s, p) ==> r == s
  {
    if StartsWith(s, p) then s[|p|..] else s
  }

  /** `s.removeSuffix(p)`. */
  function RemoveSuffix(s: string, p: string): (r: string)
    ensures EndsWith(s, p) ==> r + p == s
    ensures !EndsWith(s, p) ==> r == s
  {
    if EndsWith(s, p) then s[..|s| - |p|] else s
  }

  /** `s.trimEnd(*cs)`: drops the trailing characters that belong to `cs`. */
  function TrimEndChars(s: string, cs: set<char>): (r: string)
    ensures |r| <= |s| && r == s[..|r|]
    ensures |r| > 0 ==> r[|r| - 1] !in cs
    ensures forall i :: |r| <= i < |s| ==> s[i] in cs
  {
    if |s| > 0 && s[|s| - 1] in cs then TrimEndChars(s[..|s| - 1], cs) else s
  }

  // ---------------------------------------------------------------------------
  // numbers and booleans
  // ---------------------------------------------------------------------------

  predicate IsDigit(c: char) { '0' <= c <= '9' }

  function DigitValue(c: char): nat requires IsDigit(c) { (c as int) - ('0' as int) }

  function DigitChar(d: nat): (c: char)
    requires d < 10
    ensures IsDigit(c) && DigitValue(c) == d
  {
    (('0' as int) + d) as char
  }

  predicate AllDigits(s: string) { forall i :: 0 <= i < |s| ==> IsDigit(s[i]) }

  /** The value of a non-empty run of decimal digits. */
  function DigitsValue(s: string): nat
    requires AllDigits(s)
  {
    if |s| == 0 then 0 else 10 * DigitsValue(s[..|s| - 1]) + DigitValue(s[|s| - 1])
  }

  /** `n.toString()` for a natural number. */
  function NatToString(n: nat): (s: string)
    ensures |s| > 0 && AllDigits(s)
    ensures DigitsValue(s) == n
  {
    if n < 10 then [DigitChar(n)]
    else
      var s := NatToString(n / 10) + [DigitChar(n % 10)];
      assert s[..|s| - 1] == NatToString(n / 10);
      s
  }

  /** `i.toString()` for an integer: a minus sign for negative values. */
  function IntToString(i: int): (s: string)
    ensures i >= 0 ==> s == NatToString(i)
    ensures i < 0 ==> s == "-" + NatToString(-i)
  {
    if i < 0 then "-" + NatToString(-i) else NatToString(i)
  }

  /**
   * Java's `parseInt`/`parseLong` of a decimal text: an optional sign and at least one
   * ASCII digit, within [lo, hi]; None where Java throws NumberFormatException.
   */
  function ParseDecimal(s: string, lo: int, hi: int): (r: Option<int>)
    ensures r.Some? ==> lo <= r.value <= hi
    ensures r.Some? <==>
      (if |s| > 0 && (s[0] == '-' || s[0] == '+')
       then |s| > 1 && AllDigits(s[1..]) && lo <= Signed(s[0], DigitsValue(s[1..])) <= hi
       else |s| > 0 && AllDigits(s) && lo <= DigitsValue(s) <= hi)
  {
    if |s| > 0 && (s[0] == '-' || s[0] == '+') then
      if |s| > 1 && AllDigits(s[1..]) then
        var v := Signed(s[0], DigitsValue(s[1..]));
        if lo <= v <= hi then Some(v) else None
      else None
    else if |s| > 0 && AllDigits(s) && lo <= DigitsValue(s) <= hi then Some(DigitsValue(s))
    else None
  }

  function Signed(sign: char, magnitude: nat): int
  {
    if sign == '-' then -(magnitude as int) else magnitude
  }

  /** Decimal digits read back give the number they were printed from. */
  lemma ParseNatToString(n: nat, lo: int, hi: int)
    requires lo <= n <= hi
    ensures ParseDecimal(NatToString(n), lo, hi) == Some(n)
  {
    var s := NatToString(n);
    assert IsDigit(s[0]);
  }

  /** Lower-case ASCII letter of `c` (identity elsewhere). */
  function AsciiLower(c: char): char
  {
    if 'A' <= c <= 'Z' then ((c as int) + 32) as char else c
  }

  /**
   * `s.toBoolean()`: true exactly for "true" compared ignoring case. Only ASCII letters
   * fold onto the letters of "true", so ASCII folding decides it.
   */
  predicate IsTrueIgnoringCase(s: string)
  {
    |s| == 4 && AsciiLower(s[0]) == 't' && AsciiLower(s[1]) == 'r'
    && AsciiLower(s[2]) == 'u' && AsciiLower(s[3]) == 'e'
  }

  /** Kotlin's `Char.isUpperCase()` restricted to ASCII letters. */
  predicate IsUpperCase(c: char) { 'A' <= c <= 'Z' }
}
