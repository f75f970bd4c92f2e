/** The iOS adapter of Plugin.Settings.iOS/Settings.cs: typed overloads, each with its own getter
    (`On*Retrieved`) and save handler (`On*Saved`), over NSUserDefaults. Decimals, longs, Guids and
    DateTimes are kept as strings. */
module IOS {
  import opened Wrappers
  import opened Errors
  import opened Integers
  import opened Strings
  import opened Decimals
  import opened DateTimes
  import opened Guids
  import opened Values
  import opened UserDefaults

  /** The `On*Retrieved` getter of an overload type, applied to a present key. */
  function Retrieve(d: Defaults, key: string, t: ClrType): (r: Result<Option<Value>, Error>)
    requires IsOverloadType(t)
    ensures r.Ok? && r.value.Some? ==> TypeOf(r.value.value) == t
    ensures t in {TBoolean, TInt32, TSingle, TGuid} ==> r.Ok? && r.value.Some?
    ensures t == TString ==> r.Ok? && (r.value.None? <==> StringForKey(d, key).None?)
    ensures t in {TDecimal, TInt64} && StringForKey(d, key).None? ==> r == Err(ArgumentNullException)
  {
    match t
    case TDecimal =>
      (match StringForKey(d, key)
       case None => Err(ArgumentNullException)
       case Some(s) => ParseDecimal(s).Map((x: Decimal) => Some(DecimalV(x))))
    case TBoolean => Ok(Some(BooleanV(BoolForKey(d, key))))
    case TInt32 => Ok(Some(Int32V(IntForKey(d, key))))
    case TInt64 => LongParse(StringForKey(d, key)).Map((l: Int64) => Some(Int64V(l)))
    case TSingle => Ok(Some(SingleV(FloatForKey(d, key))))
    case TString =>
      (match StringForKey(d, key)
       case None => Ok(None)
       case Some(s) => Ok(Some(StringV(s))))
    case TDateTime =>
      var saved := StringForKey(d, key);
      if IsNullOrWhiteSpace(saved) then Ok(Some(DateTimeV(DateTimes.MinValue)))
      else DecodeTicksText(saved.value).Map((dt: DateTime) => Some(DateTimeV(dt)))
    case TGuid =>
      var saved := StringForKey(d, key);
      if IsNullOrWhiteSpace(saved) then Ok(Some(GuidV(Empty))) else Ok(Some(GuidV(TryParseGuid(saved.value))))
  }

  /** `GetValueOrDefaultInternal`: the caller's default when the key holds nothing, otherwise the getter,
      whose result (a null string included) is returned as it is. */
  function Read(d: Defaults, key: string, t: ClrType, dflt: Option<Value>): (r: Result<Option<Value>, Error>)
    requires IsOverloadType(t)
    ensures key !in d ==> r == Ok(dflt)
  {
    if key !in d then Ok(dflt) else Retrieve(d, key, t)
  }

  /** The `On*Saved` handler of an overload type: the entry it sets. */
  function Save(t: ClrType, v: Value, host: Host): (e: Primitive)
    requires IsOverloadType(t) && Admits(t, Some(v))
    ensures t == TDecimal ==> e == PString(FormatDecimal(v.d))
    ensures t == TBoolean ==> e == PBool(v.b)
    ensures t == TInt32 ==> e == PInt(v.i)
    ensures t == TInt64 ==> e == PString(FormatInteger(v.l))
    ensures t == TSingle ==> e == PFloat(v.f)
    ensures t == TString ==> e == PString(v.s)
    ensures t == TDateTime ==> e == PString(EncodeTicksText(v.dt, host.zone))
    ensures t == TGuid ==> e == PString(FormatGuid(v.g))
  {
    match t
    case TDecimal => PString(FormatDecimal(v.d))
    case TBoolean => PBool(v.b)
    case TInt32 => PInt(v.i)
    case TInt64 => PString(FormatInteger(v.l))
    case TSingle => PFloat(v.f)
    case TString => PString(v.s)
    case TDateTime => PString(EncodeTicksText(v.dt, host.zone))
    case TGuid => PString(FormatGuid(v.g))
  }

  /** What `AddOrUpdateValue` leaves in the defaults: a null string removes the key (through `Remove`, which
      only acts on a present key), any other value is set by its handler. */
  function Write(d: Defaults, key: string, t: ClrType, value: Option<Value>, host: Host): (after: Defaults)
    requires IsOverloadType(t) && Admits(t, value)
    ensures value.None? ==> key !in after && after == d - {key}
    ensures value.Some? ==> key in after && after[key] == Save(t, value.value, host)
    ensures value.Some? ==> after - {key} == d - {key}
  {
    if value.None? then (if key in d then d - {key} else d)
    else d[key := Save(t, value.value, host)]
  }

  class Settings {
    const host: Host
    /** The defaults domains; a suite that is not in the map holds nothing. */
    var suites: map<Suite, Defaults>

    function DefaultsOf(s: Suite): Defaults
      reads this
    {
      if s in suites then suites[s] else map[]
    }

    constructor (host: Host)
      ensures this.host == host && suites == map[]
    {
      this.host := host;
      suites := map[];
    }

    /** `Contains`: whether the resolved defaults hold a value for the key. */
    method Contains(key: string, fileName: Option<string>) returns (b: bool)
      ensures b <==> key in DefaultsOf(ResolveSuite(fileName))
    {
      b := key in DefaultsOf(ResolveSuite(fileName));
    }

    /** The typed `GetValueOrDefault` overloads. */
    method GetValueOrDefault(key: string, dflt: Option<Value>, t: ClrType, fileName: Option<string>)
      returns (r: Result<Option<Value>, Error>)
      requires IsOverloadType(t) && Admits(t, dflt)
      ensures r == Read(DefaultsOf(ResolveSuite(fileName)), key, t, dflt)
    {
      var d := DefaultsOf(ResolveSuite(fileName));
      if key !in d {
        return Ok(dflt);
      }
      r := Retrieve(d, key, t);
    }

    /** `Remove`: only a key that holds a value is removed; nothing else changes. */
    method Remove(key: string, fileName: Option<string>)
      modifies this
      ensures var s := ResolveSuite(fileName);
        suites == if key in old(DefaultsOf(s)) then old(suites)[s := old(DefaultsOf(s)) - {key}] else old(suites)
    {
      var s := ResolveSuite(fileName);
      if key in DefaultsOf(s) {
        suites := suites[s := DefaultsOf(s) - {key}];
      }
    }

    /** The typed `AddOrUpdateValue` overloads: always true, the value set by its handler, or a null string
        removed. (Failures inside the handler are swallowed; the model's handlers do not fail.) */
    method AddOrUpdateValue(key: string, value: Option<Value>, t: ClrType, fileName: Option<string>) returns (r: bool)
      requires IsOverloadType(t) && Admits(t, value)
      modifies this
      ensures r
      ensures var s := ResolveSuite(fileName);
        suites == if value.None? && key !in old(DefaultsOf(s)) then old(suites)
                  else old(suites)[s := Write(old(DefaultsOf(s)), key, t, value, host)]
    {
      if value.None? {
        Remove(key, fileName);
        return true;
      }
      var s := ResolveSuite(fileName);
      suites := suites[s := DefaultsOf(s)[key := Save(t, value.value, host)]];
      r := true;
    }

    /** `Clear`: every key of the resolved defaults is removed, one at a time; other suites are kept. */
    method Clear(fileName: Option<string>)
      modifies this
      ensures var s := ResolveSuite(fileName);
        suites == if s in old(suites) then old(suites)[s := map[]] else old(suites)
    {
      var s := ResolveSuite(fileName);
      var items := DefaultsOf(s).Keys;
      var remaining := items;
      assert s in suites ==> suites[s] - (items - remaining) == suites[s];
      while remaining != {}
        invariant remaining <= items
        invariant items != {} ==> s in old(suites)
        invariant suites == if s in old(suites) then old(suites)[s := old(suites)[s] - (items - remaining)] else old(suites)
        decreases remaining
      {
        var k :| k in remaining;
        assert DefaultsOf(s) - {k} == old(suites)[s] - (items - (remaining - {k}));
        suites := suites[s := DefaultsOf(s) - {k}];
        remaining := remaining - {k};
      }
    }
  }

  /** Every overload reads back what it wrote (a DateTime as its UTC instant); a long and a decimal go
      through their invariant text and come back exactly. */
  lemma WriteThenRead(d: Defaults, key: string, t: ClrType, v: Value, dflt: Option<Value>, host: Host)
    requires IsOverloadType(t) && Admits(t, Some(v)) && Admits(t, dflt)
    ensures Read(Write(d, key, t, Some(v), host), key, t, dflt) == Ok(Some(AsStored(v, host.zone)))
  {
    match v
    case DecimalV(x) => Decimals.ParseFormat(x);
    case Int64V(l) => LongRoundTrip(l);
    case DateTimeV(dt) =>
      IntegerTextNotBlank(EncodeTicks(dt, host.zone));
      DecodeEncodeText(dt, host.zone);
    case GuidV(g) =>
      GuidTextNotBlank(g);
      Guids.ParseFormat(g);
    case _ =>
  }

  /** A null string write removes the key, so the next read gives the caller's default. */
  lemma NullStringThenRead(d: Defaults, key: string, dflt: Option<Value>, host: Host)
    requires Admits(TString, dflt)
    ensures Read(Write(d, key, TString, None, host), key, TString, dflt) == Ok(dflt)
  {
  }

  /** A blank stored DateTime reads as DateTime.MinValue, not as the caller's default. */
  lemma BlankDateTimeReadsMinValue(d: Defaults, key: string, dflt: Option<Value>)
    requires key in d && d[key].PString? && IsNullOrWhiteSpace(Some(d[key].s))
    ensures Read(d, key, TDateTime, dflt) == Ok(Some(DateTimeV(DateTimes.MinValue)))
  {
  }

  /** A blank or unparseable stored Guid reads as Guid.Empty. */
  lemma BadGuidReadsEmpty(d: Defaults, key: string, dflt: Option<Value>)
    requires key in d && d[key].PString? && !IsHyphenated(d[key].s)
    ensures Read(d, key, TGuid, dflt) == Ok(Some(GuidV(Empty)))
  {
  }

  /** A decimal or long read of an entry that is not a string hands null to the parser, which throws. */
  lemma NonStringNumberThrows(d: Defaults, key: string, t: ClrType, dflt: Option<Value>)
    requires key in d && !d[key].PString? && t in {TDecimal, TInt64}
    ensures Read(d, key, t, dflt) == Err(ArgumentNullException)
  {
  }
}
