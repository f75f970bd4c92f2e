/** System.DateTime as a tick count with a kind, and the signed-tick encoding every adapter stores. */
module DateTimes {
  import opened Wrappers
  import opened Errors
  import opened Integers

  /** DateTime.MaxValue.Ticks: 23:59:59.9999999 on 31 December 9999. */
  const MaxTicks: int := 3155378975999999999

  type Ticks = t: int | 0 <= t <= MaxTicks

  datatype DateTimeKind = Unspecified | Utc | Local

  datatype DateTime = DateTime(ticks: Ticks, kind: DateTimeKind)

  const MinValue: DateTime := DateTime(0, Unspecified)

  /** The host time zone: the offset from UTC, in ticks, in force at a given local tick count. The adapters
      only reach it through `ToUniversalTime`, which depends on the machine's settings. */
  type Zone = Ticks -> int

  function Clamp(t: int): (r: Ticks)
    ensures 0 <= t <= MaxTicks ==> r == t
  {
    if t < 0 then 0 else if t > MaxTicks then MaxTicks else t
  }

  /** `DateTime.ToUniversalTime()`: a UTC value comes back unchanged; a Local or Unspecified value is read as
      local time, shifted by the zone's offset and clamped to the range of DateTime. */
  function ToUniversalTime(d: DateTime, zone: Zone): (r: DateTime)
    ensures r.kind == Utc
    ensures d.kind == Utc ==> r == d
  {
    if d.kind == Utc then d else DateTime(Clamp(d.ticks - zone(d.ticks)), Utc)
  }

  /** What a write stores for a DateTime: `-(value.ToUniversalTime().Ticks)`. The negation cannot overflow,
      because MaxTicks is below 2^63 - 1, and the stored value is never positive. */
  function EncodeTicks(d: DateTime, zone: Zone): (raw: Int64)
    ensures raw <= 0
    ensures raw as int == -(ToUniversalTime(d, zone).ticks as int)
  {
    var t: int := ToUniversalTime(d, zone).ticks;
    -t
  }

  /** `new DateTime(ticks, kind)`: ArgumentOutOfRangeException outside [0, MaxTicks]. */
  function NewDateTime(ticks: int, kind: DateTimeKind): (r: Result<DateTime, Error>)
    ensures r.Ok? <==> 0 <= ticks <= MaxTicks
    ensures r.Ok? ==> r.value.ticks == ticks && r.value.kind == kind
    ensures r.Err? ==> r.error == ArgumentOutOfRangeException
  {
    if 0 <= ticks <= MaxTicks then Ok(DateTime(ticks, kind)) else Err(ArgumentOutOfRangeException)
  }

  /** The read side: a non-negative count is a legacy value, `new DateTime(ticks)` of unspecified kind; a
      negative count is `new DateTime(-ticks, DateTimeKind.Utc)`, the negation being C#'s unchecked one. */
  function DecodeTicks(raw: Int64): (r: Result<DateTime, Error>)
    ensures r.Ok? <==> -MaxTicks <= raw <= MaxTicks
    ensures r.Err? ==> r.error == ArgumentOutOfRangeException
    ensures r.Ok? && raw >= 0 ==> r.value == DateTime(raw, Unspecified)
    ensures r.Ok? && raw < 0 ==> r.value == DateTime(-raw, Utc)
  {
    if raw >= 0 then NewDateTime(raw, Unspecified) else NewDateTime(UncheckedNegate(raw), Utc)
  }

  /** The value a write-then-read gives back: the UTC instant, except that UTC tick 0 is stored as 0, which
      reads as a legacy value of unspecified kind. */
  function StoredInstant(d: DateTime, zone: Zone): DateTime {
    var u := ToUniversalTime(d, zone);
    if u.ticks == 0 then DateTime(0, Unspecified) else u
  }

  lemma DecodeEncode(d: DateTime, zone: Zone)
    ensures DecodeTicks(EncodeTicks(d, zone)) == Ok(StoredInstant(d, zone))
    ensures ToUniversalTime(d, zone).ticks > 0 ==> StoredInstant(d, zone) == ToUniversalTime(d, zone)
  {
  }

  /** The edge case of the encoding: DateTime(0, Utc) comes back with unspecified kind. */
  lemma UtcZeroReadsAsLegacy(zone: Zone)
    ensures EncodeTicks(DateTime(0, Utc), zone) == 0
    ensures DecodeTicks(EncodeTicks(DateTime(0, Utc), zone)) == Ok(MinValue)
    ensures StoredInstant(DateTime(0, Utc), zone) != DateTime(0, Utc)
  {
  }

  /** The text form of the encoding, stored by the adapters whose store has no 64-bit integer. */
  function EncodeTicksText(d: DateTime, zone: Zone): (s: string)
    ensures |s| >= 1
    ensures (s[0] == '-') <==> ToUniversalTime(d, zone).ticks > 0
  {
    FormatInteger(EncodeTicks(d, zone))
  }

  /** `Convert.ToInt64(savedTime, InvariantCulture)` followed by the sign decode. */
  function DecodeTicksText(s: string): (r: Result<DateTime, Error>)
    ensures ParseInteger(s).None? ==> r == Err(FormatException)
    ensures r.Ok? ==> ParseInteger(s).Some? && -MaxTicks <= ParseInteger(s).value <= MaxTicks
    ensures ParseInteger(s).Some? && -MaxTicks <= ParseInteger(s).value <= MaxTicks ==>
      r == DecodeTicks(ParseInteger(s).value)
    ensures ParseInteger(s).Some? && !(MinInt64 <= ParseInteger(s).value <= MaxInt64) ==> r == Err(OverflowException)
  {
    match ConvertToInt64(Some(s))
    case Ok(raw) => DecodeTicks(raw)
    case Err(e) => Err(e)
  }

  /** A DateTime written as text reads back as the same instant as the integer encoding. */
  lemma DecodeEncodeText(d: DateTime, zone: Zone)
    ensures DecodeTicksText(EncodeTicksText(d, zone)) == Ok(StoredInstant(d, zone))
  {
    LongRoundTrip(EncodeTicks(d, zone));
  }
}
