/** The typed values callers hand to the adapters, the primitives the native stores hold, and the
    `System.Convert` helpers the adapters apply between the two. */
module Values {
  import opened Wrappers
  import opened Errors
  import opened Integers
  import opened Strings
  import opened Decimals
  import opened DateTimes
  import opened Guids

  /** System.Single as its IEEE 754 bit pattern; the model does no arithmetic on it. */
  datatype Single = Single(bits: bv32)

  const SingleZero: Single := Single(0)

  /** The type argument T of a generic call, or the type of the overload chosen. */
  datatype ClrType =
    | TDecimal | TBoolean | TInt64 | TString | TInt32 | TSingle | TDateTime | TGuid | TByte
    | TObject                  // T = object
    | TClass(name: string)     // any other class, for instance a caller's own type

  /** `Type.GetTypeCode(typeof(T))`: Guid, object and every other class share TypeCode.Object. */
  datatype TypeCode =
    | DecimalCode | BooleanCode | Int64Code | StringCode | Int32Code | SingleCode | DateTimeCode | ByteCode
    | ObjectCode

  function TypeCodeOf(t: ClrType): (c: TypeCode)
    ensures c == ObjectCode <==> t.TGuid? || t.TObject? || t.TClass?
  {
    match t
    case TDecimal => DecimalCode
    case TBoolean => BooleanCode
    case TInt64 => Int64Code
    case TString => StringCode
    case TInt32 => Int32Code
    case TSingle => SingleCode
    case TDateTime => DateTimeCode
    case TByte => ByteCode
    case _ => ObjectCode
  }

  /** A non-null value of one of the types above. */
  datatype Value =
    | DecimalV(d: Decimal)
    | BooleanV(b: bool)
    | Int64V(l: Int64)
    | StringV(s: string)
    | Int32V(i: Int32)
    | SingleV(f: Single)
    | DateTimeV(dt: DateTime)
    | GuidV(g: Guid)
    | ByteV(u8: Byte)
    | ClassV(cls: string, id: int)

  /** `value.GetType()`. */
  function TypeOf(v: Value): (t: ClrType)
    ensures !t.TObject?
  {
    match v
    case DecimalV(_) => TDecimal
    case BooleanV(_) => TBoolean
    case Int64V(_) => TInt64
    case StringV(_) => TString
    case Int32V(_) => TInt32
    case SingleV(_) => TSingle
    case DateTimeV(_) => TDateTime
    case GuidV(_) => TGuid
    case ByteV(_) => TByte
    case ClassV(c, _) => TClass(c)
  }

  /** What C#'s static typing lets a caller pass as a T (None is null): a value of type T, any value when T
      is object, and null only when T is a reference type. */
  predicate Admits(t: ClrType, v: Option<Value>) {
    match v
    case None => t.TString? || t.TObject? || t.TClass?
    case Some(x) => t.TObject? || TypeOf(x) == t
  }

  /** The types of the typed overloads of ISettings (the double overload is not modelled). */
  predicate IsOverloadType(t: ClrType) {
    t in {TDecimal, TBoolean, TInt64, TString, TInt32, TSingle, TDateTime, TGuid}
  }

  /** A primitive held by a native store. PNull is a null object reference stored under a key. */
  datatype Primitive =
    | PBool(b: bool)
    | PInt(i: Int32)
    | PLong(l: Int64)
    | PFloat(f: Single)
    | PString(s: string)
    | PGuid(g: Guid)
    | PByte(u8: Byte)
    | PNull

  /** What the adapters take from the machine: the time zone behind `ToUniversalTime`, and the invariant
      text of a Single and its parser (floating-point formatting is outside the model). */
  datatype Host = Host(zone: Zone, singleText: Single -> string, parseSingle: string -> Option<Single>)

  /** The host's Single text round-trips; the Single round trips of the string-based stores rest on it.
      Runtimes that write a Single with 7 significant digits do not meet it. */
  ghost predicate SingleTextRoundTrips(host: Host) {
    forall f :: host.parseSingle(host.singleText(f)) == Some(f)
  }

  /** `Convert.ToSingle(string, InvariantCulture)` on a non-null string. */
  function ConvertToSingle(s: string, host: Host): (r: Result<Single, Error>)
    ensures r.Ok? <==> host.parseSingle(s).Some?
  {
    match host.parseSingle(s)
    case Some(f) => Ok(f)
    case None => Err(FormatException)
  }

  /** `Convert.ToString(value)` (and `Convert.ToString(value, InvariantCulture)`, the same text here): null
      gives the empty string, a string itself, a bool "True" or "False", a number its digits. A DateTime's
      culture-dependent text is outside the model: every adapter turns a DateTime into ticks first. */
  function ConvertToString(v: Option<Value>, host: Host): (s: string)
    requires !(v.Some? && v.value.DateTimeV?)
    ensures v.None? ==> s == ""
    ensures v.Some? && v.value.StringV? ==> s == v.value.s
    ensures v.Some? && v.value.DecimalV? ==> s == FormatDecimal(v.value.d)
    ensures v.Some? && v.value.Int64V? ==> s == FormatInteger(v.value.l)
  {
    match v
    case None => ""
    case Some(x) =>
      match x
      case DecimalV(d) => FormatDecimal(d)
      case BooleanV(b) => FormatBoolean(b)
      case Int64V(l) => FormatInteger(l)
      case StringV(s) => s
      case Int32V(i) => FormatInteger(i)
      case SingleV(f) => host.singleText(f)
      case GuidV(g) => FormatGuid(g)
      case ByteV(b) => FormatInteger(b)
      case ClassV(c, _) => c // `object.ToString()` gives the type name
  }

  /** `Convert.ToString(object)` of a boxed primitive read back from a store. */
  function PrimitiveToString(p: Primitive, host: Host): (s: Option<string>)
    ensures p.PString? ==> s == Some(p.s)
    ensures s.None? <==> p.PNull?
  {
    match p
    case PBool(b) => Some(FormatBoolean(b))
    case PInt(i) => Some(FormatInteger(i))
    case PLong(l) => Some(FormatInteger(l))
    case PFloat(f) => Some(host.singleText(f))
    case PString(s) => Some(s)
    case PGuid(g) => Some(FormatGuid(g))
    case PByte(b) => Some(FormatInteger(b))
    case PNull => None
  }

  /** What reading back a stored value gives when the store keeps DateTimes as `-(UTC ticks)`: the UTC
      instant (a UTC tick count of zero comes back as the legacy unspecified-kind value); every other value
      comes back as it was written. */
  function AsStored(v: Value, zone: Zone): (r: Value)
    ensures TypeOf(r) == TypeOf(v)
    ensures !v.DateTimeV? ==> r == v
  {
    match v
    case DateTimeV(dt) => DateTimeV(StoredInstant(dt, zone))
    case _ => v
  }

  /** The value of Guid type hiding behind a `value is Guid` test, if any. */
  predicate IsGuid(v: Option<Value>) {
    v.Some? && v.value.GuidV?
  }

  /** The invariant text of a decimal is never blank, so the adapters' blank checks never swallow it. */
  lemma DecimalTextNotBlank(d: Decimal)
    ensures !IsNullOrWhiteSpace(Some(FormatDecimal(d)))
  {
    var s := FormatDecimal(d);
    assert !IsWhiteSpace(s[0]);
  }

  /** Nor is the invariant text of an integer. */
  lemma IntegerTextNotBlank(n: int)
    ensures !IsNullOrWhiteSpace(Some(FormatInteger(n)))
  {
    var s := FormatInteger(n);
    assert !IsWhiteSpace(s[0]);
  }

  /** Nor is the hyphenated text of a Guid. */
  lemma GuidTextNotBlank(g: Guid)
    ensures !IsNullOrWhiteSpace(Some(FormatGuid(g)))
  {
    FormatAt(g);
    var s := FormatGuid(g);
    assert s[8] == '-';
  }
}
