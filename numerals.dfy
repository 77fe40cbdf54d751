/**
 * Decimal text of numbers and booleans: the "{n}" formatting of String.Format
 * for Boolean, Int32 and Int64, and Int64.Parse / Boolean.Parse on what the
 * file-name decoder reads back.
 */
module Numerals {
  import opened Wrappers

  const MinInt64: int := -0x8000_0000_0000_0000
  const MaxInt64: int := 0x7FFF_FFFF_FFFF_FFFF

  predicate IsDigit(c: char) { '0' <= c <= '9' }

  predicate AllDigits(s: string) { forall i :: 0 <= i < |s| ==> IsDigit(s[i]) }

  function DigitChar(d: int): (c: char)
    requires 0 <= d < 10
    ensures IsDigit(c)
  {
    ('0' as int + d) as char
  }

  /** Decimal digits of a natural number, no leading zeros. */
  function FormatNat(n: nat): string {
    if n < 10 then [DigitChar(n)] else FormatNat(n / 10) + [DigitChar(n % 10)]
  }

  /** Int32.ToString() / Int64.ToString(): a '-' before the digits of a negative number. */
  function FormatInt(n: int): string {
    if n < 0 then "-" + FormatNat(-n) else FormatNat(n)
  }

  /** Boolean.ToString(). */
  function FormatBool(b: bool): string {
    if b then "True" else "False"
  }

  /** The value of a run of decimal digits, most significant first. */
  function DigitsValue(s: string): nat
    requires AllDigits(s)
  {
    if s == [] then 0 else DigitsValue(s[..|s| - 1]) * 10 + (s[|s| - 1] as int - '0' as int)
  }

  /** The white space Int64.Parse skips: tab to carriage return, and space. */
  predicate IsWhite(c: char) { c == ' ' || '\t' <= c <= '\r' }

  /**
   * What Boolean.Parse trims: every character Char.IsWhiteSpace accepts (the
   * space, line and paragraph separators of Unicode 6.0, the version .NET 4.5
   * uses, tab to carriage return and U+0085) and the null character.
   */
  predicate IsWhiteOrNull(c: char) {
    IsWhite(c) || c == '\0' || c == '\U{0085}' || c == '\U{00A0}' || c == '\U{1680}' || c == '\U{180E}'
    || '\U{2000}' <= c <= '\U{200A}' || c == '\U{2028}' || c == '\U{2029}'
    || c == '\U{202F}' || c == '\U{205F}' || c == '\U{3000}'
  }

  /** The index of the first character at or after i that ws does not accept. */
  function SkipWhite(s: string, i: nat, ws: char -> bool): (k: nat)
    requires i <= |s|
    ensures i <= k <= |s| && (k < |s| ==> !ws(s[k]))
    decreases |s| - i
  {
    if i < |s| && ws(s[i]) then SkipWhite(s, i + 1, ws) else i
  }

  /** The index just past the last character before j that ws does not accept. */
  function SkipWhiteBack(s: string, j: nat, ws: char -> bool): (k: nat)
    requires j <= |s|
    ensures k <= j && (k > 0 ==> !ws(s[k - 1]))
  {
    if j > 0 && ws(s[j - 1]) then SkipWhiteBack(s, j - 1, ws) else j
  }

  function TrimStart(s: string, ws: char -> bool): string {
    s[SkipWhite(s, 0, ws)..]
  }

  function TrimEnd(s: string, ws: char -> bool): string {
    s[..SkipWhiteBack(s, |s|, ws)]
  }

  /** s without the characters ws accepts at either end. */
  function Trim(s: string, ws: char -> bool): string { TrimEnd(TrimStart(s, ws), ws) }

  /**
   * Int64.Parse with NumberStyles.Integer: optional surrounding white space,
   * an optional sign, at least one digit; None where it throws (bad format or
   * overflow).
   */
  function ParseInt64(s: string): (r: Option<int>)
    ensures r.Some? ==> MinInt64 <= r.value <= MaxInt64
  {
    var t := Trim(s, IsWhite);
    var negative := |t| > 0 && t[0] == '-';
    var digits := if |t| > 0 && (t[0] == '-' || t[0] == '+') then t[1..] else t;
    if digits == [] || !AllDigits(digits) then None
    else
      var v: int := if negative then 0 - DigitsValue(digits) as int else DigitsValue(digits) as int;
      if MinInt64 <= v <= MaxInt64 then Some(v) else None
  }

  /** DateTime.MaxValue.Ticks: the last tick of 31 December 9999. */
  const MaxTicks: int := 3_155_378_975_999_999_999

  type Ticks = t: int | 0 <= t <= MaxTicks

  /** new DateTime(Int64.Parse(s)): None where either call throws. */
  function ParseTicks(s: string): (r: Option<Ticks>)
  {
    match ParseInt64(s)
    case None => None
    case Some(v) => if 0 <= v <= MaxTicks then Some(v) else None
  }

  function ToLower(c: char): char {
    if 'A' <= c <= 'Z' then (c as int - 'A' as int + 'a' as int) as char else c
  }

  predicate EqualsIgnoreCase(a: string, b: string) {
    |a| == |b| && forall i :: 0 <= i < |a| ==> ToLower(a[i]) == ToLower(b[i])
  }

  /** Boolean.Parse: "True" or "False" in any case, white space and nulls around it skipped. */
  function ParseBool(s: string): (r: Option<bool>)
  {
    var t := Trim(s, IsWhiteOrNull);
    if EqualsIgnoreCase(t, "True") then Some(true)
    else if EqualsIgnoreCase(t, "False") then Some(false)
    else None
  }

  // ---------------------------------------------------------------- round trips

  /** The decimal text of n is a non-empty run of digits whose value is n. */
  lemma {:induction false} DigitsValueOfFormat(n: nat)
    ensures |FormatNat(n)| >= 1 && AllDigits(FormatNat(n))
    ensures DigitsValue(FormatNat(n)) == n
  {
    if n >= 10 {
      var s := FormatNat(n);
      DigitsValueOfFormat(n / 10);
      assert s[..|s| - 1] == FormatNat(n / 10);
    }
  }

  /** The text of an integer is non-empty and holds only digits and a minus sign. */
  lemma FormatIntChars(n: int)
    ensures var s := FormatInt(n); |s| >= 1 && forall i :: 0 <= i < |s| ==> IsDigit(s[i]) || s[i] == '-'
  {
    DigitsValueOfFormat(if n < 0 then -n else n);
  }

  /** Trimming leaves alone a string that neither starts nor ends with white space. */
  lemma TrimUntouched(s: string, ws: char -> bool)
    requires |s| >= 1 && !ws(s[0]) && !ws(s[|s| - 1])
    ensures Trim(s, ws) == s
  {
    assert SkipWhite(s, 0, ws) == 0;
    assert TrimStart(s, ws) == s;
    assert SkipWhiteBack(s, |s|, ws) == |s|;
  }

  lemma ParseFormatTicks(t: Ticks)
    ensures ParseTicks(FormatNat(t)) == Some(t)
  {
    var s := FormatNat(t);
    DigitsValueOfFormat(t);
    assert IsDigit(s[0]) && IsDigit(s[|s| - 1]);
    TrimUntouched(s, IsWhite);
    assert ParseInt64(s) == Some(t as int);
  }

  lemma ParseFormatBool(b: bool)
    ensures ParseBool(FormatBool(b)) == Some(b)
  {
    TrimUntouched(FormatBool(b), IsWhiteOrNull);
  }
}
