/** The Tizen adapter: one flat Preference store of strings, booleans and integers; a file name becomes a
    prefix of the key. */
module Tizen {
  import opened Wrappers
  import opened Errors
  import opened Integers
  import opened Strings
  import opened Decimals
  import opened DateTimes
  import opened Guids
  import opened Values

  /** The application's preferences (double entries are outside the model). */
  type Preferences = map<string, Primitive>

  /** `GetFullPrefKey`: the key itself without a file name, otherwise `fileName + "_" + key`. */
  function FullPrefKey(key: string, fileName: Option<string>): (k: string)
    ensures IsNullOrEmpty(fileName) ==> k == key
    ensures !IsNullOrEmpty(fileName) ==> StartsWith(k, fileName.value + "_") && k[|fileName.value| + 1..] == key
  {
    if IsNullOrEmpty(fileName) then key else fileName.value + "_" + key
  }

  /** `Preference.Get<string>`, `Get<bool>` and `Get<int>` on a present key: the store refuses an entry of
      another type. */
  function StringEntry(p: Primitive): (r: Result<string, Error>)
    ensures r.Ok? <==> p.PString?
    ensures r.Err? ==> r.error == NativeStoreFailure
  {
    if p.PString? then Ok(p.s) else Err(NativeStoreFailure)
  }

  function BoolEntry(p: Primitive): (r: Result<bool, Error>)
    ensures r.Ok? <==> p.PBool?
    ensures r.Err? ==> r.error == NativeStoreFailure
  {
    if p.PBool? then Ok(p.b) else Err(NativeStoreFailure)
  }

  function IntEntry(p: Primitive): (r: Result<Int32, Error>)
    ensures r.Ok? <==> p.PInt?
    ensures r.Err? ==> r.error == NativeStoreFailure
  {
    if p.PInt? then Ok(p.i) else Err(NativeStoreFailure)
  }

  /** `AddOrUpdateValue<T>`, as written: a switch on the type code of T. Decimals, Int64s and Singles are
      stored as text, a null string as "", booleans and Int32s natively. The DateTime and Guid branches
      hand `Preference.Set` its arguments the wrong way round: the value's text becomes the key and the
      preference key becomes the stored string. Any other type raises ArgumentException. */
  function Write(prefs: Preferences, key: string, fileName: Option<string>, t: ClrType, value: Option<Value>, host: Host)
    : (r: Result<Preferences, Error>)
    requires Admits(t, value)
    ensures r.Err? <==> TypeCodeOf(t) in {ObjectCode, ByteCode} && !IsGuid(value)
    ensures r.Err? ==> r.error == ArgumentException
    ensures t == TDecimal ==> r == Ok(prefs[FullPrefKey(key, fileName) := PString(FormatDecimal(value.value.d))])
    ensures t == TBoolean ==> r == Ok(prefs[FullPrefKey(key, fileName) := PBool(value.value.b)])
    ensures t == TInt64 ==> r == Ok(prefs[FullPrefKey(key, fileName) := PString(FormatInteger(value.value.l))])
    ensures t == TString ==> r == Ok(prefs[FullPrefKey(key, fileName) := PString(if value.None? then "" else value.value.s)])
    ensures t == TInt32 ==> r == Ok(prefs[FullPrefKey(key, fileName) := PInt(value.value.i)])
    ensures t == TSingle ==> r == Ok(prefs[FullPrefKey(key, fileName) := PString(host.singleText(value.value.f))])
    ensures t == TDateTime ==> r == Ok(prefs[EncodeTicksText(value.value.dt, host.zone) := PString(FullPrefKey(key, fileName))])
    ensures IsGuid(value) ==> r == Ok(prefs[FormatGuid(value.value.g) := PString(FullPrefKey(key, fileName))])
  {
    var prefKey := FullPrefKey(key, fileName);
    match TypeCodeOf(t)
    case DecimalCode => Ok(prefs[prefKey := PString(ConvertToString(value, host))])
    case BooleanCode => Ok(prefs[prefKey := PBool(value.value.b)])
    case Int64Code => Ok(prefs[prefKey := PString(ConvertToString(value, host))])
    case StringCode => Ok(prefs[prefKey := PString(ConvertToString(value, host))])
    case Int32Code => Ok(prefs[prefKey := PInt(value.value.i)])
    case SingleCode => Ok(prefs[prefKey := PString(ConvertToString(value, host))])
    case DateTimeCode => Ok(prefs[EncodeTicksText(value.value.dt, host.zone) := PString(prefKey)])
    case ByteCode => Err(ArgumentException)
    case ObjectCode =>
      if IsGuid(value) then Ok(prefs[FormatGuid(value.value.g) := PString(prefKey)])
      else Err(ArgumentException)
  }

  /** `GetValueOrDefault<T>`: the default for an absent key; otherwise the entry read through the store's
      typed getter of the branch and converted. A blank DateTime text gives the default; a Guid is read
      when the default is one, blank or unparseable text giving Guid.Empty; any other type raises
      ArgumentException. */
  function Read(prefs: Preferences, key: string, fileName: Option<string>, t: ClrType, dflt: Option<Value>, host: Host)
    : (r: Result<Option<Value>, Error>)
    requires Admits(t, dflt)
    ensures FullPrefKey(key, fileName) !in prefs ==> r == Ok(dflt)
    ensures r.Ok? && r.value.Some? ==> Admits(t, r.value)
    ensures FullPrefKey(key, fileName) in prefs && t == TBoolean ==>
      (r.Ok? <==> prefs[FullPrefKey(key, fileName)].PBool?)
    ensures FullPrefKey(key, fileName) in prefs && t == TInt32 ==>
      (r.Ok? <==> prefs[FullPrefKey(key, fileName)].PInt?)
    ensures FullPrefKey(key, fileName) in prefs && t == TString ==>
      (r.Ok? <==> prefs[FullPrefKey(key, fileName)].PString?)
    ensures FullPrefKey(key, fileName) in prefs && TypeCodeOf(t) in {ObjectCode, ByteCode} && !IsGuid(dflt) ==>
      r == Err(ArgumentException)
  {
    var prefKey := FullPrefKey(key, fileName);
    if prefKey !in prefs then Ok(dflt)
    else
      var p := prefs[prefKey];
      match TypeCodeOf(t)
      case DecimalCode =>
        (match StringEntry(p)
         case Ok(s) => ParseDecimal(s).Map((d: Decimal) => Some(DecimalV(d)))
         case Err(e) => Err(e))
      case BooleanCode => BoolEntry(p).Map((b: bool) => Some(BooleanV(b)))
      case Int64Code =>
        (match StringEntry(p)
         case Ok(s) => ConvertToInt64(Some(s)).Map((l: Int64) => Some(Int64V(l)))
         case Err(e) => Err(e))
      case StringCode => StringEntry(p).Map((s: string) => Some(StringV(s)))
      case Int32Code => IntEntry(p).Map((i: Int32) => Some(Int32V(i)))
      case SingleCode =>
        (match StringEntry(p)
         case Ok(s) => ConvertToSingle(s, host).Map((f: Single) => Some(SingleV(f)))
         case Err(e) => Err(e))
      case DateTimeCode =>
        (match StringEntry(p)
         case Ok(s) =>
           if IsNullOrWhiteSpace(Some(s)) then Ok(dflt)
           else DecodeTicksText(s).Map((dt: DateTime) => Some(DateTimeV(dt)))
         case Err(e) => Err(e))
      case ByteCode => Err(ArgumentException) // the default of a byte T is never a Guid
      case ObjectCode =>
        if IsGuid(dflt) then
          (match StringEntry(p)
           case Ok(s) => Ok(Some(GuidV(if IsNullOrWhiteSpace(Some(s)) then Empty else TryParseGuid(s))))
           case Err(e) => Err(e))
        else Err(ArgumentException)
  }

  /** What `Clear` leaves: nothing without a file name, otherwise every entry whose key does not start with
      `fileName + "_"`. */
  function Cleared(prefs: Preferences, fileName: Option<string>): (r: Preferences)
    ensures forall k :: k in r <==> k in prefs && !IsNullOrEmpty(fileName) && !StartsWith(k, fileName.value + "_")
    ensures forall k :: k in r ==> r[k] == prefs[k]
  {
    if IsNullOrEmpty(fileName) then map[]
    else prefs - (set k | k in prefs && StartsWith(k, fileName.value + "_"))
  }

  /** A preference holding the invariant text of a value stored as text reads back at the value's type. */
  lemma TextEntryReads(prefs: Preferences, key: string, fileName: Option<string>, v: Value,
                          dflt: Option<Value>, host: Host)
    requires v.DecimalV? || v.Int64V? || v.SingleV? || v.StringV?
    requires Admits(TypeOf(v), dflt) && SingleTextRoundTrips(host)
    requires FullPrefKey(key, fileName) in prefs
    requires prefs[FullPrefKey(key, fileName)] == PString(ConvertToString(Some(v), host))
    ensures Read(prefs, key, fileName, TypeOf(v), dflt, host) == Ok(Some(v))
  {
    match v
    case DecimalV(d) => Decimals.ParseFormat(d);
    case Int64V(l) => LongRoundTrip(l);
    case SingleV(f) =>
    case StringV(_) =>
  }

  /** A write followed by a read at the same type and file name gives the value back for every type the
      writes store under the preference key (a null string as "", a Single provided the host's text of it
      parses back). */
  lemma WriteThenRead(prefs: Preferences, key: string, fileName: Option<string>, t: ClrType, value: Option<Value>,
                      dflt: Option<Value>, host: Host)
    requires t in {TDecimal, TBoolean, TInt64, TString, TInt32, TSingle}
    requires Admits(t, value) && Admits(t, dflt)
    requires SingleTextRoundTrips(host)
    ensures Write(prefs, key, fileName, t, value, host).Ok?
    ensures Read(Write(prefs, key, fileName, t, value, host).value, key, fileName, t, dflt, host) ==
      Ok(Some(if value.None? then StringV("") else value.value))
  {
    var prefKey := FullPrefKey(key, fileName);
    var after := Write(prefs, key, fileName, t, value, host).value;
    if value.None? {
      assert after[prefKey] == PString("");
    } else {
      var v := value.value;
      assert t == TypeOf(v);
      if v.BooleanV? {
        assert after[prefKey] == PBool(v.b);
      } else if v.Int32V? {
        assert after[prefKey] == PInt(v.i);
      } else {
        assert after[prefKey] == PString(ConvertToString(value, host));
        TextEntryReads(after, key, fileName, v, dflt, host);
      }
    }
  }

  /** A DateTime written as the code stands is lost: the preference key stays absent and reads as the
      default, while the tick text became a key holding the preference key. */
  lemma DateTimeWriteLost(prefs: Preferences, key: string, fileName: Option<string>, dt: DateTime,
                          dflt: DateTime, host: Host)
    requires FullPrefKey(key, fileName) !in prefs
    requires FullPrefKey(key, fileName) != EncodeTicksText(dt, host.zone)
    ensures Write(prefs, key, fileName, TDateTime, Some(DateTimeV(dt)), host).Ok?
    ensures var after := Write(prefs, key, fileName, TDateTime, Some(DateTimeV(dt)), host).value;
      FullPrefKey(key, fileName) !in after &&
      after[EncodeTicksText(dt, host.zone)] == PString(FullPrefKey(key, fileName)) &&
      Read(after, key, fileName, TDateTime, Some(DateTimeV(dflt)), host) == Ok(Some(DateTimeV(dflt)))
  {
  }

  /** The same holds for a Guid. */
  lemma GuidWriteLost(prefs: Preferences, key: string, fileName: Option<string>, g: Guid, dflt: Guid, host: Host)
    requires FullPrefKey(key, fileName) !in prefs
    requires FullPrefKey(key, fileName) != FormatGuid(g)
    ensures Write(prefs, key, fileName, TGuid, Some(GuidV(g)), host).Ok?
    ensures var after := Write(prefs, key, fileName, TGuid, Some(GuidV(g)), host).value;
      FullPrefKey(key, fileName) !in after &&
      after[FormatGuid(g)] == PString(FullPrefKey(key, fileName)) &&
      Read(after, key, fileName, TGuid, Some(GuidV(dflt)), host) == Ok(Some(GuidV(dflt)))
  {
  }

  /** The evidently intended write: the DateTime and Guid texts stored under the preference key. */
  function IntendedWrite(prefs: Preferences, key: string, fileName: Option<string>, t: ClrType, value: Option<Value>,
                         host: Host): (r: Result<Preferences, Error>)
    requires Admits(t, value)
    ensures r.Err? <==> TypeCodeOf(t) in {ObjectCode, ByteCode} && !IsGuid(value)
  {
    var prefKey := FullPrefKey(key, fileName);
    if t == TDateTime then Ok(prefs[prefKey := PString(EncodeTicksText(value.value.dt, host.zone))])
    else if TypeCodeOf(t) == ObjectCode && IsGuid(value) then Ok(prefs[prefKey := PString(FormatGuid(value.value.g))])
    else Write(prefs, key, fileName, t, value, host)
  }

  /** A preference holding the tick text of a DateTime reads back as its stored instant. */
  lemma TicksEntryReads(prefs: Preferences, key: string, fileName: Option<string>, dt: DateTime,
                        dflt: Option<Value>, host: Host)
    requires Admits(TDateTime, dflt)
    requires FullPrefKey(key, fileName) in prefs
    requires prefs[FullPrefKey(key, fileName)] == PString(EncodeTicksText(dt, host.zone))
    ensures Read(prefs, key, fileName, TDateTime, dflt, host) == Ok(Some(DateTimeV(StoredInstant(dt, host.zone))))
  {
    IntegerTextNotBlank(EncodeTicks(dt, host.zone));
    DecodeEncodeText(dt, host.zone);
  }

  /** A preference holding the text of a Guid reads back as that Guid. */
  lemma GuidEntryReads(prefs: Preferences, key: string, fileName: Option<string>, g: Guid, dflt: Option<Value>,
                       host: Host)
    requires Admits(TGuid, dflt)
    requires FullPrefKey(key, fileName) in prefs && prefs[FullPrefKey(key, fileName)] == PString(FormatGuid(g))
    ensures Read(prefs, key, fileName, TGuid, dflt, host) == Ok(Some(GuidV(g)))
  {
    GuidTextNotBlank(g);
    Guids.ParseFormat(g);
  }

  /** With the intended write, every type of the interface reads back at the same type and file name: a
      DateTime as its UTC instant, a Guid as itself. */
  lemma IntendedWriteThenRead(prefs: Preferences, key: string, fileName: Option<string>, t: ClrType, v: Value,
                              dflt: Option<Value>, host: Host)
    requires IsOverloadType(t) && Admits(t, Some(v)) && Admits(t, dflt)
    requires SingleTextRoundTrips(host)
    ensures IntendedWrite(prefs, key, fileName, t, Some(v), host).Ok?
    ensures Read(IntendedWrite(prefs, key, fileName, t, Some(v), host).value, key, fileName, t, dflt, host) ==
      Ok(Some(AsStored(v, host.zone)))
  {
    assert t == TypeOf(v);
    var prefKey := FullPrefKey(key, fileName);
    match v
    case DateTimeV(dt) =>
      assert IntendedWrite(prefs, key, fileName, t, Some(v), host) ==
        Ok(prefs[prefKey := PString(EncodeTicksText(dt, host.zone))]);
      TicksEntryReads(IntendedWrite(prefs, key, fileName, t, Some(v), host).value, key, fileName, dt, dflt, host);
    case GuidV(g) =>
      assert IntendedWrite(prefs, key, fileName, t, Some(v), host) == Ok(prefs[prefKey := PString(FormatGuid(g))]);
      GuidEntryReads(IntendedWrite(prefs, key, fileName, t, Some(v), host).value, key, fileName, g, dflt, host);
    case _ => WriteThenRead(prefs, key, fileName, t, Some(v), dflt, host);
  }

  /** A present key read as a type outside the switch raises ArgumentException unless the default is a
      Guid; an absent key reads as the default whatever the type. */
  lemma UnsupportedTypeRejected(prefs: Preferences, key: string, fileName: Option<string>, t: ClrType,
                                dflt: Option<Value>, host: Host)
    requires TypeCodeOf(t) in {ObjectCode, ByteCode} && Admits(t, dflt) && !IsGuid(dflt)
    ensures Read(prefs, key, fileName, t, dflt, host) ==
      if FullPrefKey(key, fileName) in prefs then Err(ArgumentException) else Ok(dflt)
  {
  }

  /** Prefixing is not injective: two different (file name, key) pairs can name the same preference. */
  lemma PrefixedKeysCollide(a: string, b: string, c: string)
    requires a != ""
    ensures FullPrefKey(c, Some(a + "_" + b)) == FullPrefKey(b + "_" + c, Some(a))
  {
    assert a + "_" + b != "";
    assert (a + "_" + b) + "_" + c == a + "_" + (b + "_" + c);
  }

  /** Clearing a file removes every key written with that file name, those of any file name that extends
      it after an underscore, and keys written without a file name that happen to carry the prefix; keys
      without the prefix survive. Clearing without a file name removes everything. */
  lemma {:induction false} ClearRemovesFile(prefs: Preferences, f: string, g: string, key: string, other: string)
    requires f != ""
    ensures Cleared(prefs, None) == map[] && Cleared(prefs, Some("")) == map[]
    ensures FullPrefKey(key, Some(f)) !in Cleared(prefs, Some(f))
    ensures FullPrefKey(key, Some(f + "_" + g)) !in Cleared(prefs, Some(f))
    ensures FullPrefKey(f + "_" + key, None) !in Cleared(prefs, Some(f))
    ensures other in prefs && !StartsWith(other, f + "_") ==>
      (other in Cleared(prefs, Some(f)) && Cleared(prefs, Some(f))[other] == prefs[other])
  {
    var k := FullPrefKey(key, Some(f + "_" + g));
    assert k == (f + "_") + (g + "_" + key);
    assert k[..|f + "_"|] == f + "_";
    var d := f + "_" + key;
    assert d == (f + "_") + key;
    assert d[..|f + "_"|] == f + "_";
  }

  /** A blank stored DateTime text reads as the caller's default; a blank or unparseable Guid text reads
      as Guid.Empty. */
  lemma BlankOrBadTextReads(prefs: Preferences, key: string, fileName: Option<string>, s: string,
                            dt: DateTime, g: Guid, host: Host)
    requires FullPrefKey(key, fileName) in prefs && prefs[FullPrefKey(key, fileName)] == PString(s)
    ensures IsNullOrWhiteSpace(Some(s)) ==>
      Read(prefs, key, fileName, TDateTime, Some(DateTimeV(dt)), host) == Ok(Some(DateTimeV(dt)))
    ensures !IsHyphenated(s) ==> Read(prefs, key, fileName, TGuid, Some(GuidV(g)), host) == Ok(Some(GuidV(Empty)))
  {
  }

  class Settings {
    const host: Host
    /** The application's preferences. */
    var prefs: Preferences

    constructor (host: Host)
      ensures this.host == host && prefs == map[]
    {
      this.host := host;
      prefs := map[];
    }

    /** `AddOrUpdateValue<T>`: true once the store is set; the exception of an unsupported type otherwise,
        with nothing set. */
    method AddOrUpdateValue(key: string, value: Option<Value>, t: ClrType, fileName: Option<string>)
      returns (r: Result<bool, Error>)
      requires Admits(t, value)
      modifies this
      ensures match Write(old(prefs), key, fileName, t, value, host)
        case Ok(p) => r == Ok(true) && prefs == p
        case Err(e) => r == Err(e) && prefs == old(prefs)
    {
      var w := Write(prefs, key, fileName, t, value, host);
      if w.Err? {
        return Err(w.error);
      }
      prefs := w.value;
      r := Ok(true);
    }

    /** `GetValueOrDefault<T>`. */
    method GetValueOrDefault(key: string, dflt: Option<Value>, t: ClrType, fileName: Option<string>)
      returns (r: Result<Option<Value>, Error>)
      requires Admits(t, dflt)
      ensures r == Read(prefs, key, fileName, t, dflt, host)
    {
      r := Read(prefs, key, fileName, t, dflt, host);
    }

    /** `Remove`: the prefixed key is removed when present. */
    method Remove(key: string, fileName: Option<string>)
      modifies this
      ensures prefs == old(prefs) - {FullPrefKey(key, fileName)}
    {
      var prefKey := FullPrefKey(key, fileName);
      if prefKey in prefs {
        prefs := prefs - {prefKey};
      }
    }

    /** `Clear`: `RemoveAll` without a file name; otherwise the keys carrying the prefix are collected and
        removed one at a time. */
    method Clear(fileName: Option<string>)
      modifies this
      ensures prefs == Cleared(old(prefs), fileName)
    {
      if IsNullOrEmpty(fileName) {
        prefs := map[];
        return;
      }
      var keys := set k | k in prefs && StartsWith(k, fileName.value + "_");
      var remaining := keys;
      while remaining != {}
        invariant remaining <= keys
        invariant prefs == old(prefs) - (keys - remaining)
        decreases remaining
      {
        var k :| k in remaining;
        prefs := prefs - {k};
        remaining := remaining - {k};
      }
    }

    /** `Contains`: whether the prefixed key is present. */
    method Contains(key: string, fileName: Option<string>) returns (b: bool)
      ensures b <==> FullPrefKey(key, fileName) in prefs
    {
      b := FullPrefKey(key, fileName) in prefs;
    }
  }
}
