/** The JavaScript built-ins the components rely on, with the ECMAScript
    semantics that matter for them: index clamping in `slice`, `substring`
    and `substr`, `lastIndexOf` with a start position, `indexOf` on strings
    and arrays, `parseInt`, numeric coercion of strings and `toLowerCase`
    restricted to ASCII. */
module JsBuiltins {
  import opened Optional

  function Min(a: int, b: int): int { if a <= b then a else b }
  function Max(a: int, b: int): int { if a <= b then b else a }

  /** The position `slice` reads from a relative index: negative counts from the end. */
  function RelativeIndex(k: int, len: nat): (r: nat)
    ensures r <= len
  {
    if k < 0 then Max(len + k, 0) else Min(k, len)
  }

  /** `s.slice(start, end)`. */
  function Slice<T>(s: seq<T>, start: int, end: int): (r: seq<T>)
    ensures start <= end ==> |r| <= end - start
    ensures 0 <= start <= end ==> r == s[Min(start, |s|)..Min(end, |s|)]
    ensures 0 <= end <= start ==> r == []
  {
    var from, to := RelativeIndex(start, |s|), RelativeIndex(end, |s|);
    if from < to then s[from..to] else []
  }

  /** `s.substring(start, end)`: both ends clamped to the string, swapped when reversed. */
  function Substring(s: string, start: int, end: int): (r: string)
    ensures 0 <= start <= end <= |s| ==> r == s[start..end]
    ensures 0 <= end <= start <= |s| ==> r == s[end..start]
    ensures start <= 0 && end <= 0 ==> r == ""
  {
    var a, b := Min(Max(start, 0), |s|), Min(Max(end, 0), |s|);
    if a <= b then s[a..b] else s[b..a]
  }

  /** `s.substr(start, length)`: a negative start counts from the end. */
  function Substr(s: string, start: int, length: int): (r: string)
    ensures |r| <= Max(length, 0)
    ensures 0 <= start && start + length <= |s| && 0 <= length ==> r == s[start..start + length]
  {
    var from := if start < 0 then Max(|s| + start, 0) else Min(start, |s|);
    var to := Min(from + Max(length, 0), |s|);
    s[from..to]
  }

  /** `s.lastIndexOf(c, position)` for a one-character `c`: the last occurrence
      at or before `position` (clamped to the string), or -1. Omitting the
      position is passing `|s|`. */
  function LastIndexOf(s: string, c: char, position: int): (r: int)
    ensures -1 <= r < |s|
    ensures 0 <= r ==> s[r] == c && r <= Max(position, 0)
    ensures forall k :: r < k < |s| && k <= Max(position, 0) ==> s[k] != c
  {
    LastIndexAtOrBefore(s, c, Min(Max(position, 0), |s| - 1))
  }

  function LastIndexAtOrBefore(s: string, c: char, k: int): (r: int)
    requires -1 <= k < |s|
    ensures -1 <= r <= k
    ensures 0 <= r ==> s[r] == c
    ensures forall j :: r < j <= k ==> s[j] != c
    decreases k + 1
  {
    if k < 0 then -1 else if s[k] == c then k else LastIndexAtOrBefore(s, c, k - 1)
  }

  /** `needle` occurs in `hay` starting at index `i`. */
  predicate OccursAt(hay: string, needle: string, i: int)
  {
    0 <= i && i + |needle| <= |hay| && hay[i..i + |needle|] == needle
  }

  /** `needle` is a substring of `hay`. */
  ghost predicate Contains(hay: string, needle: string)
  {
    exists i :: OccursAt(hay, needle, i)
  }

  /** `hay.indexOf(needle)` on strings: the first occurrence, or -1. */
  function IndexOf(hay: string, needle: string): (r: int)
    ensures r == -1 || OccursAt(hay, needle, r)
    ensures forall i :: 0 <= i && (r == -1 || i < r) ==> !OccursAt(hay, needle, i)
    ensures r > -1 <==> Contains(hay, needle)
  {
    IndexOfFrom(hay, needle, 0)
  }

  function IndexOfFrom(hay: string, needle: string, from: nat): (r: int)
    ensures r == -1 || (from <= r && OccursAt(hay, needle, r))
    ensures forall i :: from <= i && (r == -1 || i < r) ==> !OccursAt(hay, needle, i)
    decreases |hay| - from
  {
    if from + |needle| > |hay| then -1
    else if hay[from..from + |needle|] == needle then from
    else IndexOfFrom(hay, needle, from + 1)
  }

  /** `items.indexOf(x)` on arrays (strict equality): the first index, or -1. */
  function ArrayIndexOf<T(==)>(items: seq<T>, x: T): (r: int)
    ensures r == -1 || (0 <= r < |items| && items[r] == x)
    ensures forall i :: 0 <= i < |items| && (r == -1 || i < r) ==> items[i] != x
  {
    if items == [] then -1
    else if items[0] == x then 0
    else var k := ArrayIndexOf(items[1..], x); if k == -1 then -1 else k + 1
  }

  /** `toLowerCase` on one character, ASCII letters only. */
  function LowerChar(c: char): char
  {
    if 'A' <= c <= 'Z' then (c as int + 32) as char else c
  }

  /** `s.toLowerCase()`, ASCII letters only. */
  function ToLowerCase(s: string): (r: string)
    ensures |r| == |s|
    ensures forall i :: 0 <= i < |s| ==> r[i] == LowerChar(s[i])
  {
    seq(|s|, i requires 0 <= i < |s| => LowerChar(s[i]))
  }

  predicate IsDigit(c: char) { '0' <= c <= '9' }

  function DigitValue(c: char): nat
    requires IsDigit(c)
  {
    c as int - '0' as int
  }

  function DigitChar(d: nat): (c: char)
    requires d < 10
    ensures IsDigit(c) && DigitValue(c) == d
  {
    ('0' as int + d) as char
  }

  predicate AllDigits(s: string)
  {
    forall i :: 0 <= i < |s| ==> IsDigit(s[i])
  }

  /** The length of the run of decimal digits that starts `s`. */
  function LeadingDigits(s: string): (n: nat)
    ensures n <= |s| && AllDigits(s[..n])
    ensures n < |s| ==> !IsDigit(s[n])
  {
    if s == [] || !IsDigit(s[0]) then 0 else 1 + LeadingDigits(s[1..])
  }

  /** The value of a string of decimal digits. */
  function DigitsValue(d: string): nat
    requires AllDigits(d)
  {
    if d == [] then 0 else 10 * DigitsValue(d[..|d| - 1]) + DigitValue(d[|d| - 1])
  }

  /** The unsigned part `parseInt` reads: `s` without one leading sign. */
  function Unsigned(s: string): string
  {
    if |s| > 0 && (s[0] == '-' || s[0] == '+') then s[1..] else s
  }

  /** `parseInt(s)` in base 10: an optional sign followed by the longest run
      of decimal digits; `None` stands for `NaN` (no digit after the sign). */
  function ParseInt(s: string): (r: Option<int>)
    ensures r.None? <==> LeadingDigits(Unsigned(s)) == 0
  {
    var body := Unsigned(s);
    var n := LeadingDigits(body);
    var magnitude: int := if n == 0 then 0 else DigitsValue(body[..n]);
    if n == 0 then None
    else if |s| > 0 && s[0] == '-' then Some(-magnitude)
    else Some(magnitude)
  }

  /** The decimal numeral of a natural number, without leading zeros. */
  function NatToString(n: nat): (r: string)
    ensures |r| > 0 && AllDigits(r)
    decreases n
  {
    if n < 10 then [DigitChar(n)] else NatToString(n / 10) + [DigitChar(n % 10)]
  }

  /** `String(n)` for an integer `n`. */
  function IntToString(n: int): string
  {
    if n < 0 then "-" + NatToString(-n) else NatToString(n)
  }

  /** `Number(s)` for the strings that are an optional sign and decimal
      digits; `None` (`NaN`) for every other non-empty string. The empty
      string is 0. */
  function StringToNumber(s: string): (r: Option<int>)
    ensures s != "" && r.Some? ==> r == ParseInt(s)
  {
    if s == "" then Some(0)
    else if |Unsigned(s)| > 0 && LeadingDigits(Unsigned(s)) == |Unsigned(s)| then ParseInt(s)
    else None
  }

  // ---- Properties of the numeric conversions ----

  lemma {:induction false} DigitsValueOfNatToString(n: nat)
    ensures DigitsValue(NatToString(n)) == n
    decreases n
  {
    var s := NatToString(n);
    if n >= 10 {
      DigitsValueOfNatToString(n / 10);
      assert s[..|s| - 1] == NatToString(n / 10);
    }
  }

  lemma {:induction false} LeadingDigitsOfDigits(s: string)
    requires AllDigits(s)
    ensures LeadingDigits(s) == |s|
  {
    if s != [] {
      LeadingDigitsOfDigits(s[1..]);
    }
  }

  /** `parseInt` reads back the numeral `String(n)` writes. */
  lemma ParseIntOfIntToString(n: int)
    ensures ParseInt(IntToString(n)) == Some(n)
  {
    var d := NatToString(if n < 0 then -n else n);
    DigitsValueOfNatToString(if n < 0 then -n else n);
    LeadingDigitsOfDigits(d);
    if n < 0 {
      assert ("-" + d)[1..] == d;
    } else {
      assert d[0] != '-' && d[0] != '+';
    }
    assert d[..|d|] == d;
  }

  /** `parseInt` stops at the first non-digit after the digits. */
  lemma {:induction false} LeadingDigitsOfNumeral(d: string, rest: string)
    requires AllDigits(d)
    requires rest == [] || !IsDigit(rest[0])
    ensures LeadingDigits(d + rest) == |d|
  {
    if d == [] {
      assert d + rest == rest;
    } else {
      assert (d + rest)[1..] == d[1..] + rest;
      LeadingDigitsOfNumeral(d[1..], rest);
    }
  }

  /** `parseInt(String(n) + rest)` is `n` when `rest` does not start with a digit. */
  lemma ParseIntOfNumeralPrefix(n: nat, rest: string)
    requires rest == [] || !IsDigit(rest[0])
    ensures ParseInt(NatToString(n) + rest) == Some(n)
  {
    var d := NatToString(n);
    LeadingDigitsOfNumeral(d, rest);
    DigitsValueOfNatToString(n);
    assert (d + rest)[..|d|] == d;
    assert (d + rest)[0] == d[0];
  }

  /** `Number` reads back the numeral `String(n)` writes. */
  lemma StringToNumberOfIntToString(n: int)
    ensures StringToNumber(IntToString(n)) == Some(n)
  {
    ParseIntOfIntToString(n);
    var d := NatToString(if n < 0 then -n else n);
    LeadingDigitsOfDigits(d);
    if n < 0 {
      assert ("-" + d)[1..] == d;
    } else {
      assert d[0] != '-' && d[0] != '+';
    }
  }
}
