/** Android SharedPreferences as the two Android adapters see them, and the codec those adapters share:
    both files carry the same `GetValueOrDefaultCore` switch and the same `AddOrUpdateValue` switch. */
module AndroidPreferences {
  import opened Wrappers
  import opened Errors
  import opened Integers
  import opened Strings
  import opened Decimals
  import opened DateTimes
  import opened Guids
  import opened Values

  /** One preferences file: each key holds a boxed Java value. */
  type Prefs = map<string, Primitive>

  // The typed getters of SharedPreferences: the default when the key is absent or holds null, the entry
  // when it has the getter's type, and a ClassCastException when it has another.

  function GetString(p: Prefs, key: string, dflt: string): (r: Result<string, Error>)
    ensures key !in p || p[key].PNull? ==> r == Ok(dflt)
    ensures key in p && p[key].PString? ==> r == Ok(p[key].s)
    ensures r.Err? <==> key in p && !p[key].PString? && !p[key].PNull?
    ensures r.Err? ==> r.error == ClassCastException
  {
    if key !in p then Ok(dflt)
    else match p[key]
      case PString(s) => Ok(s)
      case PNull => Ok(dflt)
      case _ => Err(ClassCastException)
  }

  function GetBoolean(p: Prefs, key: string, dflt: bool): (r: Result<bool, Error>)
    ensures key !in p || p[key].PNull? ==> r == Ok(dflt)
    ensures key in p && p[key].PBool? ==> r == Ok(p[key].b)
    ensures r.Err? <==> key in p && !p[key].PBool? && !p[key].PNull?
    ensures r.Err? ==> r.error == ClassCastException
  {
    if key !in p then Ok(dflt)
    else match p[key]
      case PBool(b) => Ok(b)
      case PNull => Ok(dflt)
      case _ => Err(ClassCastException)
  }

  function GetLong(p: Prefs, key: string, dflt: Int64): (r: Result<Int64, Error>)
    ensures key !in p || p[key].PNull? ==> r == Ok(dflt)
    ensures key in p && p[key].PLong? ==> r == Ok(p[key].l)
    ensures r.Err? <==> key in p && !p[key].PLong? && !p[key].PNull?
    ensures r.Err? ==> r.error == ClassCastException
  {
    if key !in p then Ok(dflt)
    else match p[key]
      case PLong(l) => Ok(l)
      case PNull => Ok(dflt)
      case _ => Err(ClassCastException)
  }

  function GetInt(p: Prefs, key: string, dflt: Int32): (r: Result<Int32, Error>)
    ensures key !in p || p[key].PNull? ==> r == Ok(dflt)
    ensures key in p && p[key].PInt? ==> r == Ok(p[key].i)
    ensures r.Err? <==> key in p && !p[key].PInt? && !p[key].PNull?
    ensures r.Err? ==> r.error == ClassCastException
  {
    if key !in p then Ok(dflt)
    else match p[key]
      case PInt(i) => Ok(i)
      case PNull => Ok(dflt)
      case _ => Err(ClassCastException)
  }

  function GetFloat(p: Prefs, key: string, dflt: Single): (r: Result<Single, Error>)
    ensures key !in p || p[key].PNull? ==> r == Ok(dflt)
    ensures key in p && p[key].PFloat? ==> r == Ok(p[key].f)
    ensures r.Err? <==> key in p && !p[key].PFloat? && !p[key].PNull?
    ensures r.Err? ==> r.error == ClassCastException
  {
    if key !in p then Ok(dflt)
    else match p[key]
      case PFloat(f) => Ok(f)
      case PNull => Ok(dflt)
      case _ => Err(ClassCastException)
  }

  /** The entry `AddOrUpdateValueCore` puts for a non-null value passed as a T. Decimals go in as their
      invariant text, DateTimes as the long `-(UTC ticks)`, and a Guid, whatever T is, as its text; any
      other type outside the switch is rejected before the editor is committed. */
  function Encode(t: ClrType, v: Value, host: Host): (r: Result<Primitive, Error>)
    requires Admits(t, Some(v))
    ensures r.Err? <==> TypeCodeOf(t) in {ObjectCode, ByteCode} && !v.GuidV?
    ensures r.Err? ==> r.error == ArgumentException
    ensures t == TDecimal ==> r == Ok(PString(FormatDecimal(v.d)))
    ensures t == TBoolean ==> r == Ok(PBool(v.b))
    ensures t == TInt64 ==> r == Ok(PLong(v.l))
    ensures t == TString ==> r == Ok(PString(v.s))
    ensures t == TInt32 ==> r == Ok(PInt(v.i))
    ensures t == TSingle ==> r == Ok(PFloat(v.f))
    ensures t == TDateTime ==> r == Ok(PLong(EncodeTicks(v.dt, host.zone)))
    ensures v.GuidV? ==> r == Ok(PString(FormatGuid(v.g)))
  {
    match TypeCodeOf(t)
    case DecimalCode => Ok(PString(FormatDecimal(v.d)))
    case BooleanCode => Ok(PBool(v.b))
    case Int64Code => Ok(PLong(v.l))
    case StringCode => Ok(PString(v.s))
    case Int32Code => Ok(PInt(v.i))
    case SingleCode => Ok(PFloat(v.f))
    case DateTimeCode => Ok(PLong(EncodeTicks(v.dt, host.zone)))
    case ByteCode => Err(ArgumentException)
    case ObjectCode => if v.GuidV? then Ok(PString(FormatGuid(v.g))) else Err(ArgumentException)
  }

  /** What a write returns, and the new contents of the file it edits (None: the file is not touched). */
  datatype Written = Written(result: Result<bool, Error>, file: Option<Prefs>)

  /** `AddOrUpdateValueCore`: put the encoded entry and commit, or throw before committing. */
  function Put(p: Prefs, key: string, t: ClrType, v: Value, host: Host): (w: Written)
    requires Admits(t, Some(v))
    ensures w.result.Ok? <==> w.file.Some?
    ensures w.result.Ok? <==> Encode(t, v, host).Ok?
    ensures w.result.Ok? ==> w.result.value && key in w.file.value && w.file.value[key] == Encode(t, v, host).value
    ensures w.result.Ok? ==> w.file.value - {key} == p - {key}
    ensures w.result.Err? ==> w.result.error == ArgumentException
  {
    match Encode(t, v, host)
    case Ok(e) => Written(Ok(true), Some(p[key := e]))
    case Err(x) => Written(Err(x), None)
  }

  /** A blank saved decimal gives the default; any other text is parsed. */
  function DecimalOrDefault(saved: string, dflt: Decimal): (r: Result<Option<Value>, Error>)
    ensures IsNullOrWhiteSpace(Some(saved)) ==> r == Ok(Some(DecimalV(dflt)))
  {
    if IsNullOrWhiteSpace(Some(saved)) then Ok(Some(DecimalV(dflt)))
    else ParseDecimal(saved).Map((d: Decimal) => Some(DecimalV(d)))
  }

  /** The type switch of `GetValueOrDefaultCore` when no migration is due: each type's getter, with the
      caller's default converted to that type as the getter's own default. DateTime decodes the long it
      finds by its sign; a Guid default reads the entry as text; any other type is rejected. */
  function Decode(p: Prefs, key: string, t: ClrType, dflt: Option<Value>, host: Host): (r: Result<Option<Value>, Error>)
    requires Admits(t, dflt)
    ensures r.Ok? && r.value.Some? ==> Admits(t, r.value)
    ensures key !in p && TypeCodeOf(t) in {DecimalCode, BooleanCode, Int64Code, Int32Code, SingleCode, DateTimeCode} ==>
      r == Ok(dflt)
    ensures key !in p && t == TString ==> r == Ok(Some(StringV(ConvertToString(dflt, host))))
    ensures key in p && p[key].PNull? && TypeCodeOf(t) in {BooleanCode, Int64Code, Int32Code, SingleCode} ==> r == Ok(dflt)
    ensures TypeCodeOf(t) in {ObjectCode, ByteCode} && !IsGuid(dflt) ==> r == Err(ArgumentException)
  {
    match TypeCodeOf(t)
    case DecimalCode =>
      (match GetString(p, key, "")
       case Ok(saved) => DecimalOrDefault(saved, dflt.value.d)
       case Err(e) => Err(e))
    case BooleanCode => GetBoolean(p, key, dflt.value.b).Map((b: bool) => Some(BooleanV(b)))
    case Int64Code => GetLong(p, key, dflt.value.l).Map((l: Int64) => Some(Int64V(l)))
    case StringCode => GetString(p, key, ConvertToString(dflt, host)).Map((s: string) => Some(StringV(s)))
    case Int32Code => GetInt(p, key, dflt.value.i).Map((i: Int32) => Some(Int32V(i)))
    case SingleCode => GetFloat(p, key, dflt.value.f).Map((f: Single) => Some(SingleV(f)))
    case DateTimeCode =>
      if key in p then
        (match GetLong(p, key, 0)
         case Ok(raw) => DecodeTicks(raw).Map((dt: DateTime) => Some(DateTimeV(dt)))
         case Err(e) => Err(e))
      else Ok(dflt)
    case _ =>
      if IsGuid(dflt) then GetString(p, key, FormatGuid(Empty)).Map((s: string) => Some(GuidV(TryParseGuid(s))))
      else Err(ArgumentException)
  }

  /** A decimal read that finds an entry of another type: the settings written before version 1.5 kept
      decimals as longs. */
  predicate NeedsMigration(p: Prefs, key: string, t: ClrType) {
    TypeCodeOf(t) == DecimalCode && GetString(p, key, "").Err?
  }

  /** What a read returns, and whether it removed the key from the file it read. */
  datatype ReadOutcome = ReadOutcome(result: Result<Option<Value>, Error>, dropsKey: bool)

  /** The migration branch: the caller's default is cast to long (which may overflow, before anything is
      touched), the old long is read with it as fallback (a ClassCastException here is swallowed and the
      value lost), the key is removed, and the recovered decimal is re-saved through the generic write with
      T = object, which does not accept a decimal: the re-save throws ArgumentException. */
  function Migrate(p: Prefs, key: string, dflt: Decimal): (r: ReadOutcome)
    ensures r.result.Err?
    ensures r.dropsKey <==> ToInt64(dflt).Ok?
    ensures !r.dropsKey ==> r.result == Err(OverflowException)
  {
    match ToInt64(dflt)
    case Err(e) => ReadOutcome(Err(e), false)
    case Ok(fallback) =>
      var saved := match GetLong(p, key, fallback) case Ok(l) => FormatInteger(l) case Err(_) => "";
      match DecimalOrDefault(saved, dflt)
      case Err(e) => ReadOutcome(Err(e), true)
      case Ok(_) => ReadOutcome(Err(ArgumentException), true)
  }

  /** `GetValueOrDefaultCore`. */
  function ReadCore(p: Prefs, key: string, t: ClrType, dflt: Option<Value>, host: Host): (r: ReadOutcome)
    requires Admits(t, dflt)
    ensures r.dropsKey ==> NeedsMigration(p, key, t)
    ensures NeedsMigration(p, key, t) ==> r.result.Err?
    ensures !NeedsMigration(p, key, t) ==> !r.dropsKey && r.result == Decode(p, key, t, dflt, host)
  {
    if NeedsMigration(p, key, t) then Migrate(p, key, dflt.value.d)
    else ReadOutcome(Decode(p, key, t, dflt, host), false)
  }

  /** The re-save of the migration branch is always refused. */
  lemma ResaveRejected(d: Decimal, host: Host)
    ensures Encode(TObject, DecimalV(d), host) == Err(ArgumentException)
  {
  }

  /** The 1.5 migration: once the default fits a long, a decimal read of a key holding a non-string entry
      removes the key and ends in an exception, so the old value is lost; when the default does not fit,
      the read ends in an OverflowException and the key stays. */
  lemma MigrationLosesValue(p: Prefs, key: string, dflt: Decimal, host: Host)
    requires key in p && !p[key].PString? && !p[key].PNull?
    ensures NeedsMigration(p, key, TDecimal)
    ensures ToInt64(dflt).Ok? ==> ReadCore(p, key, TDecimal, Some(DecimalV(dflt)), host).dropsKey
    ensures ReadCore(p, key, TDecimal, Some(DecimalV(dflt)), host).result.Err?
    ensures ToInt64(dflt).Err? ==> ReadCore(p, key, TDecimal, Some(DecimalV(dflt)), host) == ReadOutcome(Err(OverflowException), false)
  {
  }

  /** A long read back as a DateTime is decoded by its sign: non-negative is a legacy tick count of
      unspecified kind, negative is a UTC tick count. */
  lemma TicksDecodedBySign(p: Prefs, key: string, raw: Int64, dflt: Value, host: Host)
    requires key in p && p[key] == PLong(raw) && -MaxTicks <= raw <= MaxTicks && dflt.DateTimeV?
    ensures raw >= 0 ==> ReadCore(p, key, TDateTime, Some(dflt), host) == ReadOutcome(Ok(Some(DateTimeV(DateTime(raw, Unspecified)))), false)
    ensures raw < 0 ==> ReadCore(p, key, TDateTime, Some(dflt), host) == ReadOutcome(Ok(Some(DateTimeV(DateTime(-raw, Utc)))), false)
  {
  }

  /** A Guid read of text that is not a hyphenated Guid gives Guid.Empty, whatever the default. */
  lemma UnparseableGuidReadsEmpty(p: Prefs, key: string, s: string, dflt: Value, host: Host)
    requires key in p && p[key] == PString(s) && !IsHyphenated(s) && dflt.GuidV?
    ensures ReadCore(p, key, TGuid, Some(dflt), host) == ReadOutcome(Ok(Some(GuidV(Empty))), false)
  {
  }

  /** A type outside the switch, with a default that is not a Guid, is rejected by the read and the write. */
  lemma UnsupportedTypeRejected(p: Prefs, key: string, t: ClrType, dflt: Option<Value>, v: Value, host: Host)
    requires TypeCodeOf(t) in {ObjectCode, ByteCode} && Admits(t, dflt) && !IsGuid(dflt)
    requires Admits(t, Some(v)) && !v.GuidV?
    ensures ReadCore(p, key, t, dflt, host) == ReadOutcome(Err(ArgumentException), false)
    ensures Put(p, key, t, v, host) == Written(Err(ArgumentException), None)
  {
  }

  /** A key holding the entry `Encode` gives for a value of one of the supported types reads back, at that
      type, as the value (a DateTime as its UTC instant), whatever the caller's default. */
  lemma EntryReads(q: Prefs, key: string, t: ClrType, v: Value, dflt: Option<Value>, host: Host)
    requires IsOverloadType(t) && Admits(t, Some(v)) && Admits(t, dflt)
    requires key in q && Encode(t, v, host).Ok? && q[key] == Encode(t, v, host).value
    ensures ReadCore(q, key, t, dflt, host) == ReadOutcome(Ok(Some(AsStored(v, host.zone))), false)
  {
    match v
    case DecimalV(d) =>
      assert q[key] == PString(FormatDecimal(d));
      DecimalTextNotBlank(d);
      Decimals.ParseFormat(d);
    case DateTimeV(dt) =>
      assert q[key] == PLong(EncodeTicks(dt, host.zone));
      DecodeEncode(dt, host.zone);
    case GuidV(g) =>
      assert q[key] == PString(FormatGuid(g));
      Guids.ParseFormat(g);
    case _ =>
  }

  /** Writing a value of one of the supported types and reading it back as the same type gives the value
      back (a DateTime as its UTC instant), whatever the caller's default. */
  lemma PutThenRead(p: Prefs, key: string, t: ClrType, v: Value, dflt: Option<Value>, host: Host)
    requires IsOverloadType(t) && Admits(t, Some(v)) && Admits(t, dflt)
    ensures Put(p, key, t, v, host).file.Some?
    ensures ReadCore(Put(p, key, t, v, host).file.value, key, t, dflt, host)
      == ReadOutcome(Ok(Some(AsStored(v, host.zone))), false)
  {
    EntryReads(Put(p, key, t, v, host).file.value, key, t, v, dflt, host);
  }
}
