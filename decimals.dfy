/** System.Decimal as a 96-bit mantissa with a decimal scale, and its invariant-culture text. */
module Decimals {
  import opened Wrappers
  import opened Errors
  import opened Integers

  /** decimal.MaxValue, 2^96 - 1. */
  const MaxMantissa: int := 79228162514264337593543950335
  const MaxScale: nat := 28

  /** The number mantissa / 10^scale; 1.50m and 1.5m are different representations, as in .NET. */
  datatype DecimalRep = DecimalRep(mantissa: int, scale: nat)

  type Decimal = d: DecimalRep | -MaxMantissa <= d.mantissa <= MaxMantissa && d.scale <= MaxScale
    witness DecimalRep(0, 0)

  const Zero: Decimal := DecimalRep(0, 0)
  const MaxValue: Decimal := DecimalRep(MaxMantissa, 0)
  const MinValue: Decimal := DecimalRep(-MaxMantissa, 0)

  function Abs(n: int): nat { if n < 0 then -n else n }

  function Zeros(k: nat): (s: string)
    ensures |s| == k && AllDigits(s)
  {
    seq(k, _ => '0')
  }

  /** The digits of n, padded on the left with zeros to at least `width` characters. */
  function PaddedDigits(n: nat, width: nat): (s: string)
    ensures AllDigits(s) && |s| >= width && |s| >= 1
  {
    var d := Digits(n);
    if |d| < width then Zeros(width - |d|) + d else d
  }

  /** `decimal.ToString(CultureInfo.InvariantCulture)`: a minus sign for negatives, the integral digits (at
      least one), then, when the scale is not zero, a point followed by exactly `scale` digits. */
  function FormatDecimal(d: Decimal): (s: string)
    ensures |s| >= 1
    ensures s[0] == '-' <==> d.mantissa < 0
    ensures d.mantissa >= 0 ==> IsDigit(s[0])
  {
    var body := UnsignedText(Abs(d.mantissa), d.scale);
    if d.mantissa < 0 then "-" + body else body
  }

  /** The unsigned numeral of magnitude / 10^scale, with exactly `scale` digits after the point. */
  function UnsignedText(magnitude: nat, scale: nat): (s: string)
    ensures |s| >= 1 && IsDigit(s[0])
  {
    var digits := PaddedDigits(magnitude, scale + 1);
    var k := |digits| - scale;
    if scale == 0 then digits else digits[..k] + "." + digits[k..]
  }

  /** The part before the first point and, when there is a point, the part after it. */
  function SplitAtPoint(s: string): (r: (string, Option<string>))
    ensures r.1.None? ==> r.0 == s && '.' !in s
    ensures r.1.Some? ==> s == r.0 + "." + r.1.value && '.' !in r.0
    decreases |s|
  {
    if s == [] then ("", None)
    else if s[0] == '.' then ("", Some(s[1..]))
    else
      var rest := SplitAtPoint(s[1..]);
      ([s[0]] + rest.0, rest.1)
  }

  /** An unsigned decimal numeral: digits with at most one point and at least one digit; gives the digits'
      value and the number of digits after the point. */
  function ParseUnsigned(body: string): Option<(nat, nat)> {
    var (integral, fraction) := SplitAtPoint(body);
    match fraction
    case None =>
      if |integral| >= 1 && AllDigits(integral) then Some((DigitsValue(integral), 0)) else None
    case Some(f) =>
      if AllDigits(integral) && AllDigits(f) && |integral| + |f| >= 1
      then Some((DigitsValue(integral + f), |f|))
      else None
  }

  /** `Convert.ToDecimal(string, CultureInfo.InvariantCulture)` on a non-null string: an optional sign and an
      unsigned numeral; FormatException when the syntax is wrong, OverflowException when the value does not fit. */
  function ParseDecimal(s: string): (r: Result<Decimal, Error>)
    ensures r.Err? ==> r.error in {FormatException, OverflowException}
    ensures r.Ok? ==> |s| >= 1
  {
    var negative := |s| >= 1 && s[0] == '-';
    var body := if |s| >= 1 && (s[0] == '-' || s[0] == '+') then s[1..] else s;
    match ParseUnsigned(body)
    case None => Err(FormatException)
    case Some((magnitude, scale)) =>
      if magnitude <= MaxMantissa && scale <= MaxScale then
        var m: int := magnitude;
        Ok(DecimalRep(if negative then -m else m, scale))
      else
        Err(OverflowException)
  }

  /** `Convert.ToDecimal(object)` of a null reference is zero. */
  function ConvertToDecimal(s: Option<string>): (r: Result<Decimal, Error>)
    ensures s.None? ==> r == Ok(Zero)
  {
    match s
    case None => Ok(Zero)
    case Some(t) => ParseDecimal(t)
  }

  lemma {:induction false} ZerosValue(k: nat)
    ensures DigitsValue(Zeros(k)) == 0
  {
    if k > 0 {
      assert Zeros(k)[..k - 1] == Zeros(k - 1);
      ZerosValue(k - 1);
    }
  }

  /** Leading zeros do not change the value of a digit string. */
  lemma {:induction false} LeadingZerosValue(k: nat, s: string)
    requires AllDigits(s)
    ensures DigitsValue(Zeros(k) + s) == DigitsValue(s)
    decreases |s|
  {
    if s == [] {
      assert Zeros(k) + s == Zeros(k);
      ZerosValue(k);
    } else {
      var t := Zeros(k) + s;
      assert t[..|t| - 1] == Zeros(k) + s[..|s| - 1];
      LeadingZerosValue(k, s[..|s| - 1]);
    }
  }

  lemma PaddedDigitsValue(n: nat, width: nat)
    ensures DigitsValue(PaddedDigits(n, width)) == n
  {
    var d := Digits(n);
    DigitsValueOfDigits(n);
    if |d| < width {
      LeadingZerosValue(width - |d|, d);
    }
  }

  /** A point-free string splits into itself; one point splits the string around it. */
  lemma {:induction false} SplitDigits(a: string, b: string)
    requires AllDigits(a)
    ensures SplitAtPoint(a) == (a, None)
    ensures SplitAtPoint(a + "." + b) == (a, Some(b))
    decreases |a|
  {
    if a != [] {
      assert (a + "." + b)[1..] == a[1..] + "." + b;
      SplitDigits(a[1..], b);
      assert [a[0]] + a[1..] == a;
    } else {
      assert a + "." + b == "." + b;
    }
  }

  lemma ParseUnsignedText(magnitude: nat, scale: nat)
    ensures ParseUnsigned(UnsignedText(magnitude, scale)) == Some((magnitude, scale))
  {
    var digits := PaddedDigits(magnitude, scale + 1);
    PaddedDigitsValue(magnitude, scale + 1);
    if scale == 0 {
      SplitDigits(digits, "");
      assert UnsignedText(magnitude, scale) == digits;
    } else {
      var k := |digits| - scale;
      var integral, fraction := digits[..k], digits[k..];
      assert AllDigits(integral) && AllDigits(fraction) by {
        forall i | 0 <= i < |integral| ensures IsDigit(integral[i]) { assert integral[i] == digits[i]; }
        forall i | 0 <= i < |fraction| ensures IsDigit(fraction[i]) { assert fraction[i] == digits[k + i]; }
      }
      SplitDigits(integral, fraction);
      assert integral + fraction == digits;
      assert UnsignedText(magnitude, scale) == integral + "." + fraction;
      assert |fraction| == scale;
    }
  }

  /** Parsing the invariant text of a decimal gives back the same mantissa and scale: in particular
      decimal.MaxValue and decimal.MinValue survive the round trip. */
  lemma ParseFormat(d: Decimal)
    ensures ParseDecimal(FormatDecimal(d)) == Ok(d)
  {
    var body := UnsignedText(Abs(d.mantissa), d.scale);
    ParseUnsignedText(Abs(d.mantissa), d.scale);
    var s := FormatDecimal(d);
    if d.mantissa < 0 {
      assert s[1..] == body;
    } else {
      assert s == body;
    }
  }

  /** The magnitude with its last k digits dropped: a / 10^k, rounded down. */
  function DropDigits(a: nat, k: nat): (r: nat)
    ensures r <= a
    ensures k == 0 ==> r == a
  {
    if k == 0 then a else DropDigits(a / 10, k - 1)
  }

  /** The explicit conversion `(long)d`: the integral part, truncated toward zero; OverflowException when it
      lies outside the Int64 range. */
  function ToInt64(d: Decimal): (r: Result<Int64, Error>)
    ensures r.Ok? ==> Abs(r.value) == DropDigits(Abs(d.mantissa), d.scale)
    ensures r.Ok? ==> (r.value > 0 ==> d.mantissa > 0) && (r.value < 0 ==> d.mantissa < 0)
    ensures r.Err? ==> r.error == OverflowException
    ensures d.scale == 0 && MinInt64 <= d.mantissa <= MaxInt64 ==> r == Ok(d.mantissa)
  {
    var q: int := DropDigits(Abs(d.mantissa), d.scale);
    var t: int := if d.mantissa < 0 then -q else q;
    if MinInt64 <= t <= MaxInt64 then Ok(t) else Err(OverflowException)
  }
}
