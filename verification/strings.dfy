/** String operations of JavaScript and Python that the modelled code relies on,
    written out on `seq<char>`: white space, trimming, searching, splitting,
    joining and the two integer parsers (`parseInt` and Python's `int`). */
module Strings {
  import opened Wrappers

  // ---------------------------------------------------------------------------
  // Character classes
  // ---------------------------------------------------------------------------

  /** White space as JavaScript's `\s` and `String.prototype.trim` see it
      (the WhiteSpace and LineTerminator productions of ECMA-262). */
  predicate IsJsSpace(c: char) {
    || c == ' ' || c == '\t' || c == '\n' || c == '\r'
    || c == '\U{000B}' || c == '\U{000C}' || c == '\U{00A0}' || c == '\U{FEFF}'
    || c == '\U{1680}' || ('\U{2000}' <= c <= '\U{200A}')
    || c == '\U{2028}' || c == '\U{2029}' || c == '\U{202F}' || c == '\U{205F}'
    || c == '\U{3000}'
  }

  /** White space as Python's `str.strip()` and `int()` see it. */
  predicate IsPySpace(c: char) {
    || c == ' ' || c == '\t' || c == '\n' || c == '\r'
    || c == '\U{000B}' || c == '\U{000C}'
    || ('\U{001C}' <= c <= '\U{001F}') || c == '\U{0085}' || c == '\U{00A0}'
    || c == '\U{1680}' || ('\U{2000}' <= c <= '\U{200A}')
    || c == '\U{2028}' || c == '\U{2029}' || c == '\U{202F}' || c == '\U{205F}'
    || c == '\U{3000}'
  }

  predicate IsDigit(c: char) {
    '0' <= c <= '9'
  }

  predicate IsAsciiUpper(c: char) {
    'A' <= c <= 'Z'
  }

  predicate IsAsciiLower(c: char) {
    'a' <= c <= 'z'
  }

  /** The class `[a-zA-Z0-9]`. */
  predicate IsAsciiAlnum(c: char) {
    IsDigit(c) || IsAsciiUpper(c) || IsAsciiLower(c)
  }

  predicate AllDigits(s: string) {
    forall i :: 0 <= i < |s| ==> IsDigit(s[i])
  }

  // ---------------------------------------------------------------------------
  // Decimal numerals
  // ---------------------------------------------------------------------------

  function DigitValue(c: char): nat
    requires IsDigit(c)
  {
    (c as int) - ('0' as int)
  }

  function DigitChar(d: nat): (c: char)
    requires d < 10
    ensures IsDigit(c) && DigitValue(c) == d
  {
    (('0' as int) + d) as char
  }

  /** The value of a string of decimal digits, leading zeros allowed. */
  function DigitsValue(s: string): nat
    requires AllDigits(s)
    decreases |s|
  {
    if |s| == 0 then 0 else 10 * DigitsValue(s[..|s| - 1]) + DigitValue(s[|s| - 1])
  }

  /** The decimal numeral of `n` without leading zeros: Python's `str(n)` and
      JavaScript's `String(n)` for a natural number. */
  function NatToString(n: nat): (s: string)
    ensures |s| > 0 && AllDigits(s)
    ensures s[0] == '0' <==> n == 0
    ensures n < 10 <==> |s| == 1
    decreases n
  {
    if n < 10 then [DigitChar(n)] else NatToString(n / 10) + [DigitChar(n % 10)]
  }

  lemma {:induction false} NatToStringRoundTrip(n: nat)
    ensures DigitsValue(NatToString(n)) == n
    decreases n
  {
    if n >= 10 {
      var s := NatToString(n);
      assert s[..|s| - 1] == NatToString(n / 10);
      NatToStringRoundTrip(n / 10);
    }
  }

  /** JavaScript's `String(i)` for an integer. */
  function IntToString(i: int): string {
    if i < 0 then "-" + NatToString(-i) else NatToString(i)
  }

  /** `String(s).padStart(2, '0')`. */
  function PadStart2(s: string): (r: string)
    ensures |r| == if |s| >= 2 then |s| else 2
    ensures r[|r| - |s|..] == s
    ensures forall i :: 0 <= i < |r| - |s| ==> r[i] == '0'
  {
    if |s| >= 2 then s else if |s| == 1 then "0" + s else "00"
  }

  // ---------------------------------------------------------------------------
  // Trimming
  // ---------------------------------------------------------------------------

  /** The first index at or after `k` whose character is not white space
      (in the sense of `space`), or `|s|`. */
  function SkipFrom(s: string, space: char -> bool, k: nat): (j: nat)
    requires k <= |s|
    ensures k <= j <= |s|
    ensures forall i :: k <= i < j ==> space(s[i])
    ensures j < |s| ==> !space(s[j])
    decreases |s| - k
  {
    if k < |s| && space(s[k]) then SkipFrom(s, space, k + 1) else k
  }

  /** One past the last index before `k` whose character is not white
      space, or 0. */
  function SkipBack(s: string, space: char -> bool, k: nat): (j: nat)
    requires k <= |s|
    ensures j <= k
    ensures forall i :: j <= i < k ==> space(s[i])
    ensures j > 0 ==> !space(s[j - 1])
  {
    if k > 0 && space(s[k - 1]) then SkipBack(s, space, k - 1) else k
  }

  function TrimLeft(s: string, space: char -> bool): (r: string)
    ensures |r| <= |s| && r == s[|s| - |r|..]
    ensures forall i :: 0 <= i < |s| - |r| ==> space(s[i])
    ensures |r| > 0 ==> !space(r[0])
  {
    s[SkipFrom(s, space, 0)..]
  }

  function TrimRight(s: string, space: char -> bool): (r: string)
    ensures |r| <= |s| && r == s[..|r|]
    ensures forall i :: |r| <= i < |s| ==> space(s[i])
    ensures |r| > 0 ==> !space(r[|r| - 1])
  {
    s[..SkipBack(s, space, |s|)]
  }

  /** Removes white space (in the sense of `space`) from both ends. */
  function Trim(s: string, space: char -> bool): (r: string)
    ensures |r| <= |s|
    ensures |r| > 0 ==> !space(r[0]) && !space(r[|r| - 1])
    ensures |r| == 0 <==> forall i :: 0 <= i < |s| ==> space(s[i])
  {
    TrimRight(TrimLeft(s, space), space)
  }

  lemma TrimKeepsTrimmed(s: string, space: char -> bool)
    requires |s| > 0 && !space(s[0]) && !space(s[|s| - 1])
    ensures Trim(s, space) == s
  {
    assert SkipFrom(s, space, 0) == 0;
    assert TrimLeft(s, space) == s;
    assert SkipBack(s, space, |s|) == |s|;
  }

  /** JavaScript's `String.prototype.trim`. */
  function JsTrim(s: string): string {
    Trim(s, IsJsSpace)
  }

  /** Python's `str.strip()` with no argument. */
  function PyStrip(s: string): string {
    Trim(s, IsPySpace)
  }

  // ---------------------------------------------------------------------------
  // Searching
  // ---------------------------------------------------------------------------

  /** `pat` occurs in `s` starting at index `i`. */
  predicate IsAt(s: string, pat: string, i: int) {
    0 <= i && i + |pat| <= |s| && s[i..i + |pat|] == pat
  }

  /** `s.includes(pat)` / `pat in s`. */
  predicate Contains(s: string, pat: string) {
    exists i | 0 <= i <= |s| - |pat| :: IsAt(s, pat, i)
  }

  predicate StartsWith(s: string, pre: string) {
    |pre| <= |s| && s[..|pre|] == pre
  }

  predicate EndsWith(s: string, suf: string) {
    |suf| <= |s| && s[|s| - |suf|..] == suf
  }

  /** The first occurrence of `pat` in `s` at or after `k`. */
  function IndexFrom(s: string, pat: string, k: nat): (r: Option<nat>)
    requires |pat| > 0
    ensures r.Some? ==> k <= r.value && IsAt(s, pat, r.value)
    ensures r.Some? ==> forall i :: k <= i < r.value ==> !IsAt(s, pat, i)
    ensures r.None? ==> forall i :: k <= i ==> !IsAt(s, pat, i)
    decreases |s| - k
  {
    if k + |pat| > |s| then None
    else if s[k..k + |pat|] == pat then Some(k)
    else IndexFrom(s, pat, k + 1)
  }

  /** `s.indexOf(pat)`, with `None` for -1. */
  function IndexOf(s: string, pat: string): (r: Option<nat>)
    requires |pat| > 0
    ensures r.None? <==> !Contains(s, pat)
    ensures r.Some? ==> IsAt(s, pat, r.value) && forall j :: 0 <= j < r.value ==> !IsAt(s, pat, j)
  {
    IndexFrom(s, pat, 0)
  }

  // ---------------------------------------------------------------------------
  // Splitting and joining
  // ---------------------------------------------------------------------------

  /** `parts.join(sep)`. */
  function Join(parts: seq<string>, sep: string): string
    decreases |parts|
  {
    if |parts| == 0 then ""
    else if |parts| == 1 then parts[0]
    else parts[0] + sep + Join(parts[1..], sep)
  }

  lemma PrefixHasNoMatch(s: string, pat: string, i: nat)
    requires |pat| > 0 && i <= |s|
    requires forall j :: 0 <= j < i ==> !IsAt(s, pat, j)
    ensures !Contains(s[..i], pat)
  {
    forall j | IsAt(s[..i], pat, j) ensures false {
      assert s[..i][j..j + |pat|] == s[j..j + |pat|];
      assert IsAt(s, pat, j);
    }
  }

  /** `s.split(sep)` for a non-empty separator; JavaScript and Python agree on it.
      Joining the parts back gives `s`, and no part holds the separator. */
  function Split(s: string, sep: string): (parts: seq<string>)
    requires |sep| > 0
    ensures |parts| >= 1
    ensures Join(parts, sep) == s
    ensures forall i :: 0 <= i < |parts| ==> !Contains(parts[i], sep)
    decreases |s|
  {
    match IndexFrom(s, sep, 0)
    case None => [s]
    case Some(i) =>
      var rest := Split(s[i + |sep|..], sep);
      assert s == s[..i] + sep + s[i + |sep|..];
      PrefixHasNoMatch(s, sep, i);
      assert ([s[..i]] + rest)[1..] == rest;
      [s[..i]] + rest
  }

  /** The part before the first `sep`, i.e. `s.split(sep)[0]`. */
  lemma SplitHead(s: string, sep: string)
    requires |sep| > 0
    ensures IndexOf(s, sep).None? ==> Split(s, sep) == [s]
    ensures IndexOf(s, sep).Some? ==> Split(s, sep)[0] == s[..IndexOf(s, sep).value]
  {
  }

  /** `s.replaceAll(pat, rep)` / SQL's `REPLACE(s, pat, rep)`: every
      occurrence, left to right, without overlaps. */
  function ReplaceAll(s: string, pat: string, rep: string): (r: string)
    requires |pat| > 0
    ensures !Contains(s, pat) ==> r == s
    decreases |s|
  {
    match IndexOf(s, pat)
    case None => s
    case Some(i) => s[..i] + rep + ReplaceAll(s[i + |pat|..], pat, rep)
  }

  /** Replacing is splitting on the pattern and joining with the
      replacement. */
  lemma {:induction false} ReplaceAllIsSplitJoin(s: string, pat: string, rep: string)
    requires |pat| > 0
    ensures ReplaceAll(s, pat, rep) == Join(Split(s, pat), rep)
    decreases |s|
  {
    match IndexOf(s, pat)
    case None =>
    case Some(i) =>
      var rest := s[i + |pat|..];
      ReplaceAllIsSplitJoin(rest, pat, rep);
      var parts := [s[..i]] + Split(rest, pat);
      assert Split(s, pat) == parts;
      assert parts[1..] == Split(rest, pat);
  }

  /** `s.substring(0, 2)` / `s[0:2]`. */
  function Prefix2(s: string): (r: string)
    ensures |r| == (if |s| >= 2 then 2 else |s|) && r == s[..|r|]
  {
    if |s| >= 2 then s[..2] else s
  }

  // ---------------------------------------------------------------------------
  // Character-wise rewriting
  // ---------------------------------------------------------------------------

  /** `s.replace(/\s+/g, '')`. */
  function RemoveSpaces(s: string): (r: string)
    ensures |r| <= |s|
    ensures forall i :: 0 <= i < |r| ==> !IsJsSpace(r[i])
    ensures forall i :: 0 <= i < |s| && !IsJsSpace(s[i]) ==> s[i] in r
    decreases |s|
  {
    if |s| == 0 then ""
    else if IsJsSpace(s[0]) then RemoveSpaces(s[1..])
    else [s[0]] + RemoveSpaces(s[1..])
  }

  function LowerChar(c: char): char {
    if IsAsciiUpper(c) then ((c as int) + 32) as char else c
  }

  function UpperChar(c: char): char {
    if IsAsciiLower(c) then ((c as int) - 32) as char else c
  }

  /** `toLowerCase()` on the ASCII letters. */
  function AsciiLower(s: string): (r: string)
    ensures |r| == |s|
    ensures forall i :: 0 <= i < |s| ==> r[i] == LowerChar(s[i])
  {
    seq(|s|, i requires 0 <= i < |s| => LowerChar(s[i]))
  }

  /** `toUpperCase()` on the ASCII letters. */
  function AsciiUpper(s: string): (r: string)
    ensures |r| == |s|
    ensures forall i :: 0 <= i < |s| ==> r[i] == UpperChar(s[i])
  {
    seq(|s|, i requires 0 <= i < |s| => UpperChar(s[i]))
  }

  /** `s.replace(pat, '')`: the first occurrence of `pat` removed. */
  function RemoveFirst(s: string, pat: string): (r: string)
    ensures !Contains(s, pat) ==> r == s
  {
    if |pat| == 0 then s
    else match IndexOf(s, pat)
      case None => s
      case Some(i) => s[..i] + s[i + |pat|..]
  }

  /** Every `"` removed: `s.replace(/"/g, '')`. */
  function RemoveQuotes(s: string): (r: string)
    ensures forall i :: 0 <= i < |r| ==> r[i] != '"'
    decreases |s|
  {
    if |s| == 0 then ""
    else if s[0] == '"' then RemoveQuotes(s[1..])
    else [s[0]] + RemoveQuotes(s[1..])
  }

  // ---------------------------------------------------------------------------
  // Integer parsing
  // ---------------------------------------------------------------------------

  /** Reads the run of digits at the start of `s` onto `acc`, most
      significant digit first; `None` when the run is empty and no digit
      came before (`seen` is false). */
  function ScanDigits(s: string, acc: nat, seen: bool): (r: Option<nat>)
    ensures r.None? <==> !seen && (|s| == 0 || !IsDigit(s[0]))
    decreases |s|
  {
    if |s| > 0 && IsDigit(s[0]) then ScanDigits(s[1..], acc * 10 + DigitValue(s[0]), true)
    else if seen then Some(acc) else None
  }

  predicate IsHexDigit(c: char) {
    IsDigit(c) || 'a' <= c <= 'f' || 'A' <= c <= 'F'
  }

  function HexValue(c: char): (v: nat)
    requires IsHexDigit(c)
    ensures v < 16
    ensures IsDigit(c) ==> v == DigitValue(c)
  {
    if IsDigit(c) then DigitValue(c)
    else if 'a' <= c <= 'f' then (c as int) - ('a' as int) + 10
    else (c as int) - ('A' as int) + 10
  }

  /** Reads the run of hexadecimal digits at the start of `s` onto `acc`;
      `None` when the run is empty and no digit came before. */
  function ScanHex(s: string, acc: nat, seen: bool): (r: Option<nat>)
    ensures r.None? <==> !seen && (|s| == 0 || !IsHexDigit(s[0]))
    decreases |s|
  {
    if |s| > 0 && IsHexDigit(s[0]) then ScanHex(s[1..], acc * 16 + HexValue(s[0]), true)
    else if seen then Some(acc) else None
  }

  /** `0x` or `0X`: with no radix given, `parseInt` reads what follows in
      base 16. */
  predicate HexPrefixed(s: string) {
    |s| >= 2 && s[0] == '0' && (s[1] == 'x' || s[1] == 'X')
  }

  /** The digits after the sign: hexadecimal after a `0x` prefix, decimal
      otherwise. */
  function UnsignedInt(s: string): Option<nat> {
    if HexPrefixed(s) then ScanHex(s[2..], 0, false) else ScanDigits(s, 0, false)
  }

  /** JavaScript's `parseInt(s)` with no radix: leading white space, an
      optional sign, then as many digits as there are, in base 16 after a
      `0x` or `0X` prefix and in base 10 otherwise; `None` stands for
      `NaN`. */
  function JsParseInt(s: string): Option<int>
    decreases |s|
  {
    if |s| > 0 && IsJsSpace(s[0]) then JsParseInt(s[1..])
    else if |s| > 0 && s[0] == '-' then
      match UnsignedInt(s[1..])
      case Some(v) => var w: int := v; Some(-w)
      case None => None
    else if |s| > 0 && s[0] == '+' then UnsignedInt(s[1..])
    else UnsignedInt(s)
  }

  /** The prefix switches the base, and a prefix with no digit after it is
      `NaN` rather than the 0 in front of it. */
  lemma JsParseIntHex()
    ensures JsParseInt("0x1A") == Some(26)
    ensures JsParseInt("-0X1a") == Some(-26)
    ensures JsParseInt("0x") == None
    ensures JsParseInt("010") == Some(10)
  {
  }

  /** Python's `int(s)` on a string: optional surrounding white space, an
      optional sign, and nothing but digits; `None` stands for `ValueError`. */
  function PyInt(s: string): Option<int> {
    var t := Trim(s, IsPySpace);
    var signed := |t| > 0 && (t[0] == '-' || t[0] == '+');
    var body := if signed then t[1..] else t;
    if |body| == 0 || !AllDigits(body) then None
    else
      var v: int := DigitsValue(body);
      Some(if signed && t[0] == '-' then -v else v)
  }

  function Pow10(k: nat): nat {
    if k == 0 then 1 else 10 * Pow10(k - 1)
  }

  /** A numeral's leading digit weighs ten to the number of digits after it. */
  lemma {:induction false} DigitsValueCons(c: char, t: string)
    requires IsDigit(c) && AllDigits(t)
    ensures DigitsValue([c] + t) == DigitValue(c) * Pow10(|t|) + DigitsValue(t)
    decreases |t|
  {
    var s := [c] + t;
    if |t| == 0 {
      assert s[..|s| - 1] == [];
    } else {
      var t' := t[..|t| - 1];
      assert s[..|s| - 1] == [c] + t';
      assert s[|s| - 1] == t[|t| - 1];
      DigitsValueCons(c, t');
      var p := Pow10(|t'|);
      assert 10 * (DigitValue(c) * p) == DigitValue(c) * (10 * p);
    }
  }

  lemma ShiftDigit(acc: nat, d: nat, p: nat)
    ensures (acc * 10 + d) * p == acc * (10 * p) + d * p
  {
  }

  /** Scanning a run of digits that ends the string or stops at a non-digit
      reads its decimal value. */
  lemma {:induction false} ScanDigitsValue(s: string, rest: string, acc: nat, seen: bool)
    requires AllDigits(s)
    requires |rest| == 0 || !IsDigit(rest[0])
    ensures ScanDigits(s + rest, acc, seen) ==
      if seen || |s| > 0 then Some(acc * Pow10(|s|) + DigitsValue(s)) else None
    decreases |s|
  {
    if |s| > 0 {
      assert (s + rest)[0] == s[0];
      assert (s + rest)[1..] == s[1..] + rest;
      var d := DigitValue(s[0]);
      ScanDigitsValue(s[1..], rest, acc * 10 + d, true);
      DigitsValueCons(s[0], s[1..]);
      assert [s[0]] + s[1..] == s;
      ShiftDigit(acc, d, Pow10(|s| - 1));
    } else {
      assert s + rest == rest;
    }
  }

  /** A string that starts with a digit and has no `0x` prefix is read by
      the decimal scan alone. */
  lemma JsParseIntDigits(s: string)
    requires |s| > 0 && IsDigit(s[0]) && !HexPrefixed(s)
    ensures JsParseInt(s) == ScanDigits(s, 0, false)
  {
    assert !IsJsSpace(s[0]) && s[0] != '-' && s[0] != '+';
  }

  /** A numeral is a `0x` prefix only when it is 0 followed by an `x`. */
  lemma NumeralNotHex(n: nat, rest: string)
    requires |rest| == 0 || (rest[0] != 'x' && rest[0] != 'X')
    ensures !HexPrefixed(NatToString(n) + rest)
  {
    var t := NatToString(n);
    var u := t + rest;
    assert u[0] == t[0];
    if n == 0 && |u| >= 2 {
      assert |t| == 1;
      assert u[1] == rest[0];
    }
  }

  /** `parseInt` reads back a numeral followed by neither a digit nor the
      `x` that would make a leading 0 a hexadecimal prefix. */
  lemma JsParseIntNumeral(n: nat, rest: string)
    requires |rest| == 0 || (!IsDigit(rest[0]) && rest[0] != 'x' && rest[0] != 'X')
    ensures JsParseInt(NatToString(n) + rest) == Some(n)
  {
    var t := NatToString(n);
    assert (t + rest)[0] == t[0];
    NumeralNotHex(n, rest);
    JsParseIntDigits(t + rest);
    ScanDigitsValue(t, rest, 0, false);
    NatToStringRoundTrip(n);
  }

  /** Python's `int` reads back a numeral. */
  lemma PyIntNumeral(n: nat)
    ensures PyInt(NatToString(n)) == Some(n)
  {
    var s := NatToString(n);
    assert IsDigit(s[0]) && IsDigit(s[|s| - 1]);
    TrimKeepsTrimmed(s, IsPySpace);
    NatToStringRoundTrip(n);
  }
}
