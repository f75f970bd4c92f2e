/** Fixed-width integers and their invariant-culture decimal text. */
module Integers {
  import opened Wrappers
  import opened Errors

  const MinInt32: int := -0x8000_0000
  const MaxInt32: int := 0x7FFF_FFFF
  const MinInt64: int := -0x8000_0000_0000_0000
  const MaxInt64: int := 0x7FFF_FFFF_FFFF_FFFF

  type Int32 = x: int | MinInt32 <= x <= MaxInt32
  type Int64 = x: int | MinInt64 <= x <= MaxInt64
  type Byte = x: int | 0 <= x < 256

  predicate IsDigit(c: char) { '0' <= c <= '9' }

  predicate AllDigits(s: string) { forall i :: 0 <= i < |s| ==> IsDigit(s[i]) }

  function DigitValue(c: char): (d: nat)
    requires IsDigit(c)
    ensures d < 10
  {
    c as int - '0' as int
  }

  function DigitChar(d: nat): (c: char)
    requires d < 10
    ensures IsDigit(c) && DigitValue(c) == d
  {
    ('0' as int + d) as char
  }

  /** The digits of a natural number, most significant first, without leading zeros. */
  function Digits(n: nat): (s: string)
    ensures |s| >= 1 && AllDigits(s)
    ensures |s| > 1 ==> s[0] != '0'
    decreases n
  {
    if n < 10 then [DigitChar(n)] else Digits(n / 10) + [DigitChar(n % 10)]
  }

  /** The number a string of digits denotes, read most significant first. */
  function DigitsValue(s: string): nat
    requires AllDigits(s)
    decreases |s|
  {
    if s == [] then 0 else DigitsValue(s[..|s| - 1]) * 10 + DigitValue(s[|s| - 1])
  }

  lemma {:induction false} DigitsValueOfDigits(n: nat)
    ensures DigitsValue(Digits(n)) == n
  {
    if n >= 10 {
      var s := Digits(n);
      assert s[..|s| - 1] == Digits(n / 10);
      DigitsValueOfDigits(n / 10);
    }
  }

  /** `long.ToString(CultureInfo.InvariantCulture)`: a minus sign for negatives, then the digits. */
  function FormatInteger(n: int): (s: string)
    ensures |s| >= 1
    ensures s[0] == '-' <==> n < 0
    ensures n >= 0 ==> AllDigits(s)
  {
    if n < 0 then "-" + Digits(-n) else Digits(n)
  }

  /** The integer syntax of the invariant parsers, white space aside: an optional sign, then one or more digits. */
  function ParseInteger(s: string): (r: Option<int>)
    ensures r.Some? ==> |s| >= 1
    ensures AllDigits(s) && |s| >= 1 ==> r == Some(DigitsValue(s))
  {
    if |s| >= 2 && (s[0] == '-' || s[0] == '+') && AllDigits(s[1..]) then
      var magnitude: int := DigitsValue(s[1..]);
      Some(if s[0] == '-' then -magnitude else magnitude)
    else if |s| >= 1 && AllDigits(s) then
      Some(DigitsValue(s))
    else
      None
  }

  /** Parsing the invariant text of any integer gives the integer back. */
  lemma ParseFormat(n: int)
    ensures ParseInteger(FormatInteger(n)) == Some(n)
  {
    var s := FormatInteger(n);
    if n < 0 {
      assert s[1..] == Digits(-n);
      DigitsValueOfDigits(-n);
    } else {
      DigitsValueOfDigits(n);
    }
  }

  /** A parse restricted to [lo, hi]: FormatException for bad syntax, OverflowException out of range. */
  function ParseIntegerIn(s: string, lo: int, hi: int): (r: Result<int, Error>)
    ensures r.Ok? ==> lo <= r.value <= hi && ParseInteger(s) == Some(r.value)
    ensures r.Err? ==> r.error in {FormatException, OverflowException}
    ensures r == Err(FormatException) <==> ParseInteger(s).None?
  {
    match ParseInteger(s)
    case None => Err(FormatException)
    case Some(n) => if lo <= n <= hi then Ok(n) else Err(OverflowException)
  }

  /** `long.Parse(s, InvariantCulture)`: a null string raises ArgumentNullException. */
  function LongParse(s: Option<string>): (r: Result<Int64, Error>)
    ensures s.None? ==> r == Err(ArgumentNullException)
    ensures s.Some? && r.Ok? ==> ParseInteger(s.value) == Some(r.value as int)
  {
    match s
    case None => Err(ArgumentNullException)
    case Some(t) =>
      match ParseIntegerIn(t, MinInt64, MaxInt64)
      case Ok(n) => Ok(n as Int64)
      case Err(e) => Err(e)
  }

  /** `Convert.ToInt64(string, InvariantCulture)`: unlike `long.Parse`, a null string converts to 0. */
  function ConvertToInt64(s: Option<string>): (r: Result<Int64, Error>)
    ensures s.None? ==> r == Ok(0)
    ensures s.Some? ==> r == LongParse(s)
  {
    if s.None? then Ok(0) else LongParse(s)
  }

  /** `Convert.ToInt32(string, InvariantCulture)` on a non-null string. */
  function ConvertToInt32(s: string): (r: Result<Int32, Error>)
    ensures r.Ok? ==> ParseInteger(s) == Some(r.value as int)
    ensures ParseInteger(s).Some? && MinInt32 <= ParseInteger(s).value <= MaxInt32 ==> r.Ok?
  {
    match ParseIntegerIn(s, MinInt32, MaxInt32)
    case Ok(n) => Ok(n as Int32)
    case Err(e) => Err(e)
  }

  /** `Convert.ToByte(string, InvariantCulture)` on a non-null string. */
  function ConvertToByte(s: string): (r: Result<Byte, Error>)
    ensures r.Ok? ==> ParseInteger(s) == Some(r.value as int)
    ensures ParseInteger(s).Some? && 0 <= ParseInteger(s).value < 256 ==> r.Ok?
  {
    match ParseIntegerIn(s, 0, 255)
    case Ok(n) => Ok(n as Byte)
    case Err(e) => Err(e)
  }

  /** Every Int64 survives `long.Parse(n.ToString(InvariantCulture))`. */
  lemma LongRoundTrip(n: Int64)
    ensures LongParse(Some(FormatInteger(n))) == Ok(n)
  {
    ParseFormat(n);
  }

  /** The same for the 32-bit and 8-bit conversions. */
  lemma Int32RoundTrip(n: Int32)
    ensures ConvertToInt32(FormatInteger(n)) == Ok(n)
  {
    ParseFormat(n);
  }

  lemma ByteRoundTrip(n: Byte)
    ensures ConvertToByte(FormatInteger(n)) == Ok(n)
  {
    ParseFormat(n);
  }

  /** Negation of an Int64 in C#'s unchecked arithmetic: only MinValue wraps, onto itself. */
  function UncheckedNegate(x: Int64): (r: Int64)
    ensures x != MinInt64 ==> r as int == -(x as int)
    ensures x == MinInt64 ==> r == x
  {
    if x == MinInt64 then x else -x
  }
}
