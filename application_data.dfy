/** WinRT ApplicationData as the UWP and Windows Phone 8.1 adapters see it: LocalSettings and its named
    containers, each holding boxed WinRT values, and the read path both adapters carry verbatim. */
module ApplicationData {
  import opened Wrappers
  import opened Errors
  import opened Integers
  import opened Strings
  import opened Decimals
  import opened DateTimes
  import opened Guids
  import opened Values

  /** The values of one container: each key holds a boxed value (PNull: a null reference). */
  type PropertySet = map<string, Primitive>

  /** Which container a call works on. */
  datatype Scope = LocalSettings | Container(name: string)

  /** The container `GetAppSettings` returns: LocalSettings for a null or white-space name, otherwise the
      named container. */
  function ResolveContainer(fileName: Option<string>): (s: Scope)
    ensures s == LocalSettings <==> IsNullOrWhiteSpace(fileName)
    ensures s.Container? ==> fileName == Some(s.name)
  {
    if IsNullOrWhiteSpace(fileName) then LocalSettings else Container(fileName.value)
  }

  /** The containers after `GetAppSettings`: a named container that does not exist yet is created empty
      (`CreateContainer` with `Always`); nothing else changes. */
  function Opened(cs: map<Scope, PropertySet>, fileName: Option<string>): (r: map<Scope, PropertySet>)
    ensures ResolveContainer(fileName).Container? ==> ResolveContainer(fileName) in r
    ensures forall s :: s in cs ==> s in r && r[s] == cs[s]
    ensures forall s :: s in r && s !in cs ==> s == ResolveContainer(fileName) && r[s] == map[]
  {
    var s := ResolveContainer(fileName);
    if s.Container? && s !in cs then cs[s := map[]] else cs
  }

  /** `Convert.ToString(object)` of a stored entry: "" for null. */
  function ObjectText(p: Primitive, host: Host): (s: string)
    ensures p.PString? ==> s == p.s
    ensures p.PNull? ==> s == ""
  {
    PrimitiveToString(p, host).GetOr("")
  }

  /** The type of the value boxed in a non-null entry. */
  function BoxedType(p: Primitive): ClrType
    requires !p.PNull?
  {
    match p
    case PBool(_) => TBoolean
    case PInt(_) => TInt32
    case PLong(_) => TInt64
    case PFloat(_) => TSingle
    case PString(_) => TString
    case PGuid(_) => TGuid
    case PByte(_) => TByte
  }

  /** The cast `(T)tempValue` of a non-null entry: unboxing needs the exact type, object takes anything. */
  function Unbox(p: Primitive, t: ClrType): (r: Result<Value, Error>)
    requires !p.PNull?
    ensures r.Ok? <==> t.TObject? || BoxedType(p) == t
    ensures r.Ok? ==> TypeOf(r.value) == BoxedType(p)
    ensures r.Err? ==> r.error == InvalidCastException
  {
    if !(t.TObject? || BoxedType(p) == t) then Err(InvalidCastException)
    else match p
      case PBool(b) => Ok(BooleanV(b))
      case PInt(i) => Ok(Int32V(i))
      case PLong(l) => Ok(Int64V(l))
      case PFloat(f) => Ok(SingleV(f))
      case PString(s) => Ok(StringV(s))
      case PGuid(g) => Ok(GuidV(g))
      case PByte(b) => Ok(ByteV(b))
  }

  /** The object a write stores for a value: a decimal as its invariant text and a DateTime as the text of
      `-(UTC ticks)` (both re-dispatched as strings), every other WinRT type boxed as it is. */
  function Box(v: Value, host: Host): (p: Primitive)
    requires !v.ClassV?
    ensures !p.PNull?
    ensures v.DecimalV? ==> p == PString(FormatDecimal(v.d))
    ensures v.DateTimeV? ==> p == PString(EncodeTicksText(v.dt, host.zone))
    ensures v.BooleanV? ==> p == PBool(v.b)
    ensures v.Int64V? ==> p == PLong(v.l)
    ensures v.StringV? ==> p == PString(v.s)
    ensures v.Int32V? ==> p == PInt(v.i)
    ensures v.SingleV? ==> p == PFloat(v.f)
    ensures v.GuidV? ==> p == PGuid(v.g)
    ensures v.ByteV? ==> p == PByte(v.u8)
  {
    match v
    case DecimalV(d) => PString(FormatDecimal(d))
    case DateTimeV(dt) => PString(EncodeTicksText(dt, host.zone))
    case BooleanV(b) => PBool(b)
    case Int64V(l) => PLong(l)
    case StringV(s) => PString(s)
    case Int32V(i) => PInt(i)
    case SingleV(f) => PFloat(f)
    case GuidV(g) => PGuid(g)
    case ByteV(b) => PByte(b)
  }

  /** `GetValueOrDefault` of both adapters. A decimal is read as the text of the entry, or of the default
      when the key is absent, and parsed; a DateTime as the text of the entry, the default when that is
      blank or absent; any other type is the cast entry, or the default when the key is absent or null. */
  function Read(vals: PropertySet, key: string, t: ClrType, dflt: Option<Value>, host: Host): (r: Result<Option<Value>, Error>)
    requires Admits(t, dflt)
    ensures r.Ok? && r.value.Some? ==> Admits(t, r.value)
    ensures t == TDecimal && key in vals ==> (r.Ok? <==> ParseDecimal(ObjectText(vals[key], host)).Ok?)
    ensures t == TDateTime && (key !in vals || IsNullOrWhiteSpace(Some(ObjectText(vals[key], host)))) ==> r == Ok(dflt)
    ensures t == TDateTime && key in vals && !IsNullOrWhiteSpace(Some(ObjectText(vals[key], host))) ==>
      (r.Ok? <==> DecodeTicksText(ObjectText(vals[key], host)).Ok?)
    ensures t != TDecimal && t != TDateTime && (key !in vals || vals[key].PNull?) ==> r == Ok(dflt)
    ensures t != TDecimal && t != TDateTime && key in vals && !vals[key].PNull? ==>
      (r.Ok? <==> t.TObject? || BoxedType(vals[key]) == t) && (r.Err? ==> r.error == InvalidCastException)
  {
    if t == TDecimal then
      var saved := if key in vals then ObjectText(vals[key], host) else FormatDecimal(dflt.value.d);
      ParseDecimal(saved).Map((d: Decimal) => Some(DecimalV(d)))
    else if t == TDateTime then
      var saved := if key in vals then Some(ObjectText(vals[key], host)) else None;
      if IsNullOrWhiteSpace(saved) then Ok(dflt)
      else DecodeTicksText(saved.value).Map((dt: DateTime) => Some(DateTimeV(dt)))
    else if key in vals && !vals[key].PNull? then Unbox(vals[key], t).Map((v: Value) => Some(v))
    else Ok(dflt)
  }

  /** The `settings.Values[key] != value` test compares object references. It is left open, with what
      references guarantee: the same reference holds the same value, and a null reference equals only
      null. */
  predicate ReferenceOracle(stored: Primitive, boxed: Primitive, differs: bool) {
    (!differs ==> stored == boxed) && (stored.PNull? || boxed.PNull? ==> (differs <==> stored != boxed))
  }

  /** The change detection of the write: a new key is set and reported; a present key is overwritten and
      reported only when the references differ. */
  function Put(vals: PropertySet, key: string, boxed: Primitive, differs: bool): (r: (bool, PropertySet))
    requires key in vals ==> ReferenceOracle(vals[key], boxed, differs)
    ensures r.1 == vals[key := boxed]
    ensures key !in vals ==> r.0
    ensures key in vals && vals[key] == boxed && (boxed.PNull? || !differs) ==> !r.0
  {
    if key in vals then (if differs then (true, vals[key := boxed]) else (false, vals))
    else (true, vals[key := boxed])
  }

  /** What either adapter writes for a non-null value reads back, at the value's own type, as that value
      (a DateTime as its UTC instant). */
  lemma BoxThenRead(vals: PropertySet, key: string, t: ClrType, v: Value, dflt: Option<Value>, host: Host)
    requires !v.ClassV? && t == TypeOf(v) && Admits(t, dflt)
    ensures Read(vals[key := Box(v, host)], key, t, dflt, host) == Ok(Some(AsStored(v, host.zone)))
  {
    match v
    case DecimalV(d) => Decimals.ParseFormat(d);
    case DateTimeV(dt) =>
      IntegerTextNotBlank(EncodeTicks(dt, host.zone));
      DecodeEncodeText(dt, host.zone);
    case _ =>
  }

  /** An absent decimal reads as the caller's default exactly, scale included: the default's invariant text
      is parsed back. */
  lemma AbsentDecimalReadsDefault(vals: PropertySet, key: string, d: Decimal, host: Host)
    requires key !in vals
    ensures Read(vals, key, TDecimal, Some(DecimalV(d)), host) == Ok(Some(DecimalV(d)))
  {
    Decimals.ParseFormat(d);
  }

  /** A DateTime read of an absent or blank entry gives the caller's default. */
  lemma BlankDateTimeReadsDefault(vals: PropertySet, key: string, dflt: Option<Value>, host: Host)
    requires Admits(TDateTime, dflt)
    requires key in vals ==> IsNullOrWhiteSpace(Some(ObjectText(vals[key], host)))
    ensures Read(vals, key, TDateTime, dflt, host) == Ok(dflt)
  {
  }

  /** Any other type reads as the default when the key is absent or null, and otherwise as the entry cast to
      the type, which fails on an entry of another type. */
  lemma CastReadsEntry(vals: PropertySet, key: string, t: ClrType, dflt: Option<Value>, host: Host)
    requires t != TDecimal && t != TDateTime && Admits(t, dflt)
    ensures key !in vals || vals[key].PNull? ==> Read(vals, key, t, dflt, host) == Ok(dflt)
    ensures key in vals && !vals[key].PNull? && !t.TObject? && BoxedType(vals[key]) != t ==>
      Read(vals, key, t, dflt, host) == Err(InvalidCastException)
  {
  }
}
