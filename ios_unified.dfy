/** The iOS adapter of Plugin.Settings.iOSUnified/Settings.cs: generic `GetValueOrDefault<T>` and
    `AddOrUpdateValue<T>` with a type switch over NSUserDefaults. Unlike the typed iOS adapter, a null
    value is written (as the empty string for strings) instead of removing the key, numbers are read with
    `Convert`, which turns a missing string into 0, and a blank DateTime reads as the caller's default. */
module IOSUnified {
  import opened Wrappers
  import opened Errors
  import opened Integers
  import opened Strings
  import opened Decimals
  import opened DateTimes
  import opened Guids
  import opened Values
  import opened UserDefaults

  /** The type switch of `GetValueOrDefault<T>` on a present key. A getter that yields null (a string read
      of an entry that is not a string) gives the caller's default. */
  function Decode(d: Defaults, key: string, t: ClrType, dflt: Option<Value>): (r: Result<Option<Value>, Error>)
    requires Admits(t, dflt)
    ensures r.Ok? && r.value.Some? ==> Admits(t, r.value)
    ensures t in {TDecimal, TInt64} && StringForKey(d, key).None? ==> r.Ok? && r.value.Some?
    ensures t == TString && StringForKey(d, key).None? ==> r == Ok(dflt)
    ensures t in {TBoolean, TInt32, TSingle} ==> r.Ok? && r.value.Some?
    ensures TypeCodeOf(t) in {ObjectCode, ByteCode} && !IsGuid(dflt) ==> r == Err(ArgumentException)
  {
    match TypeCodeOf(t)
    case DecimalCode => ConvertToDecimal(StringForKey(d, key)).Map((x: Decimal) => Some(DecimalV(x)))
    case BooleanCode => Ok(Some(BooleanV(BoolForKey(d, key))))
    case Int64Code => ConvertToInt64(StringForKey(d, key)).Map((l: Int64) => Some(Int64V(l)))
    case StringCode =>
      (match StringForKey(d, key)
       case Some(s) => Ok(Some(StringV(s)))
       case None => Ok(dflt))
    case Int32Code => Ok(Some(Int32V(IntForKey(d, key))))
    case SingleCode => Ok(Some(SingleV(FloatForKey(d, key))))
    case DateTimeCode =>
      var saved := StringForKey(d, key);
      if IsNullOrWhiteSpace(saved) then Ok(dflt)
      else DecodeTicksText(saved.value).Map((dt: DateTime) => Some(DateTimeV(dt)))
    case ByteCode => Err(ArgumentException)
    case ObjectCode =>
      if IsGuid(dflt) then
        var saved := StringForKey(d, key);
        if IsNullOrWhiteSpace(saved) then Ok(Some(GuidV(Empty))) else Ok(Some(GuidV(TryParseGuid(saved.value))))
      else Err(ArgumentException)
  }

  /** `GetValueOrDefault<T>`: the caller's default when the key holds nothing, before any type check. */
  function Read(d: Defaults, key: string, t: ClrType, dflt: Option<Value>): (r: Result<Option<Value>, Error>)
    requires Admits(t, dflt)
    ensures key !in d ==> r == Ok(dflt)
  {
    if key !in d then Ok(dflt) else Decode(d, key, t, dflt)
  }

  /** The type switch of the private `AddOrUpdateValue`: the entry set for a value passed as a T, or the
      exception for a type outside the switch. `Convert.ToString` turns a null string into "". */
  function Encode(t: ClrType, value: Option<Value>, host: Host): (r: Result<Primitive, Error>)
    requires Admits(t, value)
    ensures r.Err? <==> TypeCodeOf(t) in {ObjectCode, ByteCode} && !IsGuid(value)
    ensures r.Err? ==> r.error == ArgumentException
    ensures t == TDecimal ==> r == Ok(PString(FormatDecimal(value.value.d)))
    ensures t == TBoolean ==> r == Ok(PBool(value.value.b))
    ensures t == TInt64 ==> r == Ok(PString(FormatInteger(value.value.l)))
    ensures t == TString && value.Some? ==> r == Ok(PString(value.value.s))
    ensures t == TString && value.None? ==> r == Ok(PString(""))
    ensures t == TInt32 ==> r == Ok(PInt(value.value.i))
    ensures t == TSingle ==> r == Ok(PFloat(value.value.f))
    ensures t == TDateTime ==> r == Ok(PString(EncodeTicksText(value.value.dt, host.zone)))
    ensures IsGuid(value) ==> r == Ok(PString(FormatGuid(value.value.g)))
  {
    match TypeCodeOf(t)
    case DecimalCode => Ok(PString(FormatDecimal(value.value.d)))
    case BooleanCode => Ok(PBool(value.value.b))
    case Int64Code => Ok(PString(FormatInteger(value.value.l)))
    case StringCode => Ok(PString(ConvertToString(value, host)))
    case Int32Code => Ok(PInt(value.value.i))
    case SingleCode => Ok(PFloat(value.value.f))
    case DateTimeCode => Ok(PString(EncodeTicksText(value.value.dt, host.zone)))
    case ByteCode => Err(ArgumentException)
    case ObjectCode => if IsGuid(value) then Ok(PString(FormatGuid(value.value.g))) else Err(ArgumentException)
  }

  class Settings {
    const host: Host
    /** The defaults domains; a suite that is not in the map holds nothing. */
    var suites: map<Suite, Defaults>

    function DefaultsOf(s: Suite): Defaults
      reads this
    {
      if s in suites then suites[s] else map[]
    }

    constructor (host: Host)
      ensures this.host == host && suites == map[]
    {
      this.host := host;
      suites := map[];
    }

    /** `Contains`: whether the resolved defaults hold a value for the key. */
    method Contains(key: string, fileName: Option<string>) returns (b: bool)
      ensures b <==> key in DefaultsOf(ResolveSuite(fileName))
    {
      b := key in DefaultsOf(ResolveSuite(fileName));
    }

    /** `GetValueOrDefault<T>`. */
    method GetValueOrDefault(key: string, dflt: Option<Value>, t: ClrType, fileName: Option<string>)
      returns (r: Result<Option<Value>, Error>)
      requires Admits(t, dflt)
      ensures r == Read(DefaultsOf(ResolveSuite(fileName)), key, t, dflt)
    {
      var d := DefaultsOf(ResolveSuite(fileName));
      if key !in d {
        return Ok(dflt);
      }
      r := Decode(d, key, t, dflt);
    }

    /** `AddOrUpdateValue<T>`: true after the entry is set; a type outside the switch throws and sets
        nothing. */
    method AddOrUpdateValue(key: string, value: Option<Value>, t: ClrType, fileName: Option<string>)
      returns (r: Result<bool, Error>)
      requires Admits(t, value)
      modifies this
      ensures var s := ResolveSuite(fileName);
        match Encode(t, value, host)
        case Ok(e) => r == Ok(true) && suites == old(suites)[s := old(DefaultsOf(s))[key := e]]
        case Err(x) => r == Err(x) && suites == old(suites)
    {
      var e := Encode(t, value, host);
      if e.Err? {
        return Err(e.error);
      }
      var s := ResolveSuite(fileName);
      suites := suites[s := DefaultsOf(s)[key := e.value]];
      r := Ok(true);
    }

    /** `Remove`: only a key that holds a value is removed; nothing else changes. */
    method Remove(key: string, fileName: Option<string>)
      modifies this
      ensures var s := ResolveSuite(fileName);
        suites == if key in old(DefaultsOf(s)) then old(suites)[s := old(DefaultsOf(s)) - {key}] else old(suites)
    {
      var s := ResolveSuite(fileName);
      if key in DefaultsOf(s) {
        suites := suites[s := DefaultsOf(s) - {key}];
      }
    }

    /** `Clear`: every key of the resolved defaults is removed, one at a time; other suites are kept. */
    method Clear(fileName: Option<string>)
      modifies this
      ensures var s := ResolveSuite(fileName);
        suites == if s in old(suites) then old(suites)[s := map[]] else old(suites)
    {
      var s := ResolveSuite(fileName);
      var items := DefaultsOf(s).Keys;
      var remaining := items;
      assert s in suites ==> suites[s] - (items - remaining) == suites[s];
      while remaining != {}
        invariant remaining <= items
        invariant items != {} ==> s in old(suites)
        invariant suites == if s in old(suites) then old(suites)[s := old(suites)[s] - (items - remaining)] else old(suites)
        decreases remaining
      {
        var k :| k in remaining;
        assert DefaultsOf(s) - {k} == old(suites)[s] - (items - (remaining - {k}));
        suites := suites[s := DefaultsOf(s) - {k}];
        remaining := remaining - {k};
      }
    }
  }

  /** The defaults after a write of a value passed as a T. */
  function Written(d: Defaults, key: string, t: ClrType, value: Option<Value>, host: Host): (after: Defaults)
    requires Admits(t, value) && Encode(t, value, host).Ok?
    ensures key in after && after[key] == Encode(t, value, host).value
    ensures after - {key} == d - {key}
  {
    d[key := Encode(t, value, host).value]
  }

  /** A key holding the invariant text of a decimal or a long reads back as that number. */
  lemma NumberTextReads(d: Defaults, key: string, v: Value, dflt: Option<Value>)
    requires v.DecimalV? || v.Int64V?
    requires Admits(TypeOf(v), dflt) && key in d
    requires d[key] == PString(if v.DecimalV? then FormatDecimal(v.d) else FormatInteger(v.l))
    ensures Read(d, key, TypeOf(v), dflt) == Ok(Some(v))
  {
    if v.DecimalV? {
      Decimals.ParseFormat(v.d);
    } else {
      LongRoundTrip(v.l);
    }
  }

  /** A key holding the tick text of a DateTime reads back as its stored instant. */
  lemma TicksTextReads(d: Defaults, key: string, dt: DateTime, dflt: Option<Value>, host: Host)
    requires Admits(TDateTime, dflt) && key in d && d[key] == PString(EncodeTicksText(dt, host.zone))
    ensures Read(d, key, TDateTime, dflt) == Ok(Some(DateTimeV(StoredInstant(dt, host.zone))))
  {
    IntegerTextNotBlank(EncodeTicks(dt, host.zone));
    DecodeEncodeText(dt, host.zone);
  }

  /** A key holding the text of a Guid reads back as that Guid. */
  lemma GuidTextReads(d: Defaults, key: string, g: Guid, dflt: Option<Value>)
    requires Admits(TGuid, dflt) && key in d && d[key] == PString(FormatGuid(g))
    ensures Read(d, key, TGuid, dflt) == Ok(Some(GuidV(g)))
  {
    GuidTextNotBlank(g);
    Guids.ParseFormat(g);
  }

  /** Every type the interface has an overload for reads back what was written (a DateTime as its UTC
      instant); Int64 goes through its invariant text. */
  lemma WriteThenRead(d: Defaults, key: string, t: ClrType, v: Value, dflt: Option<Value>, host: Host)
    requires IsOverloadType(t) && Admits(t, Some(v)) && Admits(t, dflt)
    ensures Encode(t, Some(v), host).Ok?
    ensures Read(Written(d, key, t, Some(v), host), key, t, dflt) == Ok(Some(AsStored(v, host.zone)))
  {
    assert t == TypeOf(v);
    var after := Written(d, key, t, Some(v), host);
    match v
    case DecimalV(x) => NumberTextReads(after, key, v, dflt);
    case Int64V(l) => NumberTextReads(after, key, v, dflt);
    case DateTimeV(dt) => TicksTextReads(after, key, dt, dflt, host);
    case GuidV(g) => GuidTextReads(after, key, g, dflt);
    case _ =>
  }

  /** A null string is written as "" rather than removing the key, so it reads back as "", not as the
      caller's default. */
  lemma NullStringReadsEmpty(d: Defaults, key: string, dflt: Option<Value>, host: Host)
    requires Admits(TString, dflt)
    ensures Encode(TString, None, host) == Ok(PString(""))
    ensures Read(Written(d, key, TString, None, host), key, TString, dflt) == Ok(Some(StringV("")))
  {
  }

  /** A null passed as object is not a Guid: the write is rejected. */
  lemma NullObjectRejected(host: Host)
    ensures Encode(TObject, None, host) == Err(ArgumentException)
  {
  }

  /** A blank stored DateTime reads as the caller's default. */
  lemma BlankDateTimeReadsDefault(d: Defaults, key: string, dflt: Option<Value>)
    requires key in d && d[key].PString? && IsNullOrWhiteSpace(Some(d[key].s)) && Admits(TDateTime, dflt)
    ensures Read(d, key, TDateTime, dflt) == Ok(dflt)
  {
  }

  /** A decimal or long read of an entry that is not a string converts null, which gives 0. */
  lemma NonStringNumberReadsZero(d: Defaults, key: string, dflt: Option<Value>)
    requires key in d && !d[key].PString?
    ensures Admits(TDecimal, dflt) ==> Read(d, key, TDecimal, dflt) == Ok(Some(DecimalV(Decimals.Zero)))
    ensures Admits(TInt64, dflt) ==> Read(d, key, TInt64, dflt) == Ok(Some(Int64V(0)))
  {
  }

  /** A blank or unparseable stored Guid reads as Guid.Empty. */
  lemma BadGuidReadsEmpty(d: Defaults, key: string, dflt: Guid)
    requires key in d && d[key].PString? && !IsHyphenated(d[key].s)
    ensures Read(d, key, TGuid, Some(GuidV(dflt))) == Ok(Some(GuidV(Empty)))
  {
  }

  /** A type outside the switch reads as the default while the key is absent and is rejected once it is
      present; its writes are always rejected. */
  lemma UnsupportedType(d: Defaults, key: string, t: ClrType, dflt: Option<Value>, value: Option<Value>, host: Host)
    requires TypeCodeOf(t) in {ObjectCode, ByteCode} && Admits(t, dflt) && !IsGuid(dflt)
    requires Admits(t, value) && !IsGuid(value)
    ensures Read(d, key, t, dflt) == if key in d then Err(ArgumentException) else Ok(dflt)
    ensures Encode(t, value, host) == Err(ArgumentException)
  {
  }
}
