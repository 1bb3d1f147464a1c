/**
 * 32-bit integers as text: `int.Parse(string)` and `int.ToString()`, with
 * the invariant culture's conventions (ASCII digits, `-` and `+` signs).
 */
module Integers {
  import opened Wrappers
  import opened Exceptions
  import opened Strings

  const MinInt32: int := -0x8000_0000
  const MaxInt32: int := 0x7FFF_FFFF

  /** C#'s `int`. */
  type Int32 = x: int | -0x8000_0000 <= x <= 0x7FFF_FFFF

  predicate IsDigit(c: char)
  {
    '0' <= c <= '9'
  }

  predicate AllDigits(s: string)
  {
    forall i :: 0 <= i < |s| ==> IsDigit(s[i])
  }

  /** The value of a string of decimal digits, most significant first. */
  function DigitsValue(s: string): nat
    requires AllDigits(s)
  {
    if s == [] then 0 else DigitsValue(s[..|s| - 1]) * 10 + (s[|s| - 1] as int - '0' as int)
  }

  function DigitChar(d: nat): (c: char)
    requires d < 10
    ensures IsDigit(c) && c as int - '0' as int == d
  {
    ('0' as int + d) as char
  }

  /** A numeral as `ToString` writes its digits: at least one digit, and no leading zero except in "0". */
  predicate IsCanonical(d: string)
  {
    d != [] && AllDigits(d) && (d[0] == '0' ==> d == "0")
  }

  /** The decimal digits of `n`, without leading zeros. */
  function FormatNat(n: nat): (s: string)
    ensures IsCanonical(s)
    ensures DigitsValue(s) == n
  {
    if n < 10 then [DigitChar(n)]
    else
      var s := FormatNat(n / 10) + [DigitChar(n % 10)];
      assert s[..|s| - 1] == FormatNat(n / 10);
      s
  }

  /** `n.ToString()`: a minus sign for negative numbers, then the digits of the magnitude. */
  function FormatInt(n: int): (s: string)
    ensures s != [] && IsTrimmed(s)
    ensures ',' !in s && ':' !in s
  {
    if n < 0 then "-" + FormatNat(-n) else FormatNat(n)
  }

  /**
   * The value of `t` read as an optionally signed decimal numeral with at
   * least one digit, or `None` when `t` is not such a numeral.
   */
  function DecimalValue(t: string): Option<int>
  {
    if t != [] && (t[0] == '+' || t[0] == '-') then
      var d := t[1..];
      if d != [] && AllDigits(d) then
        var magnitude: int := DigitsValue(d);
        Some(if t[0] == '-' then -magnitude else magnitude)
      else None
    else if t != [] && AllDigits(t) then Some(DigitsValue(t))
    else None
  }

  /**
   * `int.Parse(s)`: white space around the numeral is allowed; text that is
   * not a numeral throws `FormatException`, a numeral outside the 32-bit
   * range throws `OverflowException`.
   */
  function ParseInt32(s: string): (r: Result<Int32, Exception>)
    ensures r.Success? || r == Failure(FormatException) || r == Failure(OverflowException)
  {
    match DecimalValue(Trim(s))
    case None => Failure(FormatException)
    case Some(v) => if MinInt32 <= v <= MaxInt32 then Success(v) else Failure(OverflowException)
  }

  /**
   * `ToString` writes a minus sign exactly for negative numbers, then the
   * digits of the magnitude with no leading zero.
   */
  lemma FormatIntCanonical(n: int)
    ensures var s := FormatInt(n);
      s != [] && (s[0] == '-') == (n < 0) &&
      var d := if n < 0 then s[1..] else s;
      IsCanonical(d) && DigitsValue(d) == if n < 0 then -n else n
  {
    if n < 0 {
      assert FormatInt(n)[1..] == FormatNat(-n);
    }
  }

  /** Reading back what `FormatInt` wrote gives the number. */
  lemma DecimalValueOfFormat(n: int)
    ensures DecimalValue(FormatInt(n)) == Some(n)
  {
  }

  /**
   * `int.Parse` reads back every 32-bit number `ToString` writes, with any
   * white space around it, and rejects every other number with an
   * `OverflowException`.
   */
  lemma ParseFormatted(n: int, p: string, q: string)
    requires AllWhiteSpace(p) && AllWhiteSpace(q)
    ensures ParseInt32(p + FormatInt(n) + q) ==
      if MinInt32 <= n <= MaxInt32 then Success(n) else Failure(OverflowException)
  {
    TrimPadded(p, FormatInt(n), q);
    DecimalValueOfFormat(n);
  }

  /** Text that is empty or all white space is not a number. */
  lemma ParseBlank(s: string)
    requires AllWhiteSpace(s)
    ensures ParseInt32(s) == Failure(FormatException)
  {
    TrimPadded(s, "", "");
    assert s + "" + "" == s;
  }

  /** A character other than a digit or a sign inside the trimmed text makes it not a number. */
  lemma ParseForeignChar(s: string, c: char)
    requires c in Trim(s) && !IsDigit(c) && c != '+' && c != '-'
    ensures ParseInt32(s) == Failure(FormatException)
  {
  }
}
