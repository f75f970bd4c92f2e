/** The .NET Framework 4.5 adapter: one isolated-storage file per key, holding the value's text. The file
    name argument is accepted and ignored, so every call works on the same store. */
module Net45 {
  import opened Wrappers
  import opened Errors
  import opened Integers
  import opened Strings
  import opened Decimals
  import opened DateTimes
  import opened Guids
  import opened Values

  /** The user store of the application domain: file name (the key) to file contents. Keys are
      compared exactly; the file system's case-insensitive names and its invalid-name errors are
      not modelled. */
  type Store = map<string, string>

  /** The text written for a value: a decimal as its invariant text and a DateTime as the text of
      `-(UTC ticks)`, both re-dispatched as strings; everything else as `Convert.ToString(value)`. */
  function Text(v: Value, host: Host): (s: string)
    ensures v.StringV? ==> s == v.s
    ensures v.DecimalV? ==> s == FormatDecimal(v.d)
    ensures v.DateTimeV? ==> s == EncodeTicksText(v.dt, host.zone)
    ensures v.Int64V? ==> s == FormatInteger(v.l)
    ensures v.Int32V? ==> s == FormatInteger(v.i)
    ensures v.BooleanV? ==> s == FormatBoolean(v.b)
    ensures v.SingleV? ==> s == host.singleText(v.f)
    ensures v.GuidV? ==> s == FormatGuid(v.g)
  {
    match v
    case DecimalV(d) => FormatDecimal(d)
    case DateTimeV(dt) => EncodeTicksText(dt, host.zone)
    case _ => ConvertToString(Some(v), host)
  }

  /** The runtime types the write accepts (double is outside the model); anything else raises
      ArgumentException. */
  predicate Supported(v: Value) {
    !v.ClassV?
  }

  /** `AddOrUpdateValueInternal`: a null value deletes the file and reports a change; a supported value
      replaces the file's contents, and the result says whether the old contents (none when there was no
      file) differ from the new text. */
  function Write(files: Store, key: string, value: Option<Value>, host: Host): (r: Result<(bool, Store), Error>)
    ensures value.None? ==> r == Ok((true, files - {key}))
    ensures value.Some? && !Supported(value.value) ==> r == Err(ArgumentException)
    ensures value.Some? && Supported(value.value) ==>
      r.Ok? && r.value.1 == files[key := Text(value.value, host)] &&
      (r.value.0 <==> key !in files || files[key] != Text(value.value, host))
  {
    match value
    case None => Ok((true, files - {key}))
    case Some(v) =>
      if !Supported(v) then Err(ArgumentException)
      else
        var str := Text(v, host);
        var oldValue := if key in files then Some(files[key]) else None;
        Ok((oldValue != Some(str), files[key := str]))
  }

  /** `GetValueOrDefaultInternal`: the default when there is no file; otherwise the file's text converted
      to the requested type. A text that is not a Guid gives the default; a type outside the list raises
      ArgumentException. */
  function Read(files: Store, key: string, t: ClrType, dflt: Option<Value>, host: Host): (r: Result<Option<Value>, Error>)
    requires Admits(t, dflt)
    ensures key !in files ==> r == Ok(dflt)
    ensures r.Ok? && r.value.Some? ==> Admits(t, r.value)
    ensures key in files && t == TString ==> r == Ok(Some(StringV(files[key])))
    ensures key in files && t == TGuid ==>
      r == Ok(if ParseGuid(files[key]).Some? then Some(GuidV(ParseGuid(files[key]).value)) else dflt)
    ensures key in files && !IsOverloadType(t) && t != TByte ==> r == Err(ArgumentException)
  {
    if key !in files then Ok(dflt)
    else
      var str := files[key];
      if t == TString then Ok(Some(StringV(str)))
      else if t == TDecimal then ParseDecimal(str).Map((d: Decimal) => Some(DecimalV(d)))
      else if t == TSingle then ConvertToSingle(str, host).Map((f: Single) => Some(SingleV(f)))
      else if t == TDateTime then DecodeTicksText(str).Map((dt: DateTime) => Some(DateTimeV(dt)))
      else if t == TGuid then
        match ParseGuid(str)
        case Some(g) => Ok(Some(GuidV(g)))
        case None => Ok(dflt)
      else if t == TBoolean then ParseBoolean(str).Map((b: bool) => Some(BooleanV(b)))
      else if t == TInt32 then ConvertToInt32(str).Map((i: Int32) => Some(Int32V(i)))
      else if t == TInt64 then ConvertToInt64(Some(str)).Map((l: Int64) => Some(Int64V(l)))
      else if t == TByte then ConvertToByte(str).Map((b: Byte) => Some(ByteV(b)))
      else Err(ArgumentException)
  }

  /** A file holding the text of a value reads back, at the value's type, as that value. */
  lemma ReadText(files: Store, key: string, v: Value, dflt: Option<Value>, host: Host)
    requires IsOverloadType(TypeOf(v)) && Admits(TypeOf(v), dflt)
    requires SingleTextRoundTrips(host)
    requires key in files && files[key] == Text(v, host)
    ensures Read(files, key, TypeOf(v), dflt, host) == Ok(Some(AsStored(v, host.zone)))
  {
    match v
    case DecimalV(d) => Decimals.ParseFormat(d);
    case DateTimeV(dt) => DecodeEncodeText(dt, host.zone);
    case GuidV(g) =>
      assert files[key] == FormatGuid(g);
      Guids.ParseFormat(g);
    case BooleanV(b) =>
      assert files[key] == FormatBoolean(b);
      BooleanRoundTrip(b);
    case Int32V(i) =>
      assert files[key] == FormatInteger(i);
      Int32RoundTrip(i);
    case Int64V(l) => LongRoundTrip(l);
    case SingleV(f) =>
      assert files[key] == host.singleText(f);
    case StringV(_) =>
  }

  /** A write followed by a read at the same type gives the value written (a DateTime as its UTC instant,
      a Single provided the host's text of it parses back), or the default after a null removed the file. */
  lemma WriteThenRead(files: Store, key: string, t: ClrType, value: Option<Value>, dflt: Option<Value>, host: Host)
    requires IsOverloadType(t) && Admits(t, value) && Admits(t, dflt)
    requires SingleTextRoundTrips(host)
    ensures Write(files, key, value, host).Ok?
    ensures Read(Write(files, key, value, host).value.1, key, t, dflt, host) ==
      if value.None? then Ok(dflt) else Ok(Some(AsStored(value.value, host.zone)))
  {
    if value.Some? {
      ReadText(Write(files, key, value, host).value.1, key, value.value, dflt, host);
    }
  }

  /** Writing the value the file already holds reports no change; so a second identical write is
      reported as no change. */
  lemma RewriteUnchanged(files: Store, key: string, v: Value, host: Host)
    requires Supported(v)
    ensures Write(files, key, Some(v), host).Ok?
    ensures Write(Write(files, key, Some(v), host).value.1, key, Some(v), host) == Ok((false, Write(files, key, Some(v), host).value.1))
  {
    var after := Write(files, key, Some(v), host).value.1;
    assert after[key := Text(v, host)] == after;
  }

  /** A file whose text is not a Guid reads as the caller's default, not as Guid.Empty. */
  lemma UnparseableGuidReadsDefault(files: Store, key: string, g: Guid, host: Host)
    requires key in files && !IsHyphenated(files[key])
    ensures Read(files, key, TGuid, Some(GuidV(g)), host) == Ok(Some(GuidV(g)))
  {
  }

  /** The ArgumentException of either switch is out of reach of the typed overloads. */
  lemma OverloadsSupported(files: Store, key: string, t: ClrType, value: Option<Value>, dflt: Option<Value>, host: Host)
    requires IsOverloadType(t) && Admits(t, value) && Admits(t, dflt)
    ensures Write(files, key, value, host).Ok?
    ensures Read(files, key, t, dflt, host) != Err(ArgumentException)
  {
    if key in files {
      var str := files[key];
      if t == TDecimal {
        assert ParseDecimal(str) != Err(ArgumentException);
      } else if t == TDateTime {
        match ConvertToInt64(Some(str)) {
          case Ok(raw) => assert DecodeTicks(raw) != Err(ArgumentException);
          case Err(e) => assert e != ArgumentException;
        }
      } else if t == TBoolean {
        assert ParseBoolean(str) != Err(ArgumentException);
      } else if t == TInt32 {
        assert ConvertToInt32(str) != Err(ArgumentException);
      } else if t == TInt64 {
        assert ConvertToInt64(Some(str)) != Err(ArgumentException);
      }
    }
  }

  /** A type outside the read switch raises ArgumentException, but only when the file exists. */
  lemma UnsupportedTypeRejected(files: Store, key: string, t: ClrType, dflt: Option<Value>, host: Host)
    requires !IsOverloadType(t) && t != TByte && Admits(t, dflt)
    ensures Read(files, key, t, dflt, host) == if key in files then Err(ArgumentException) else Ok(dflt)
  {
  }

  class Settings {
    const host: Host
    /** The files of the isolated store. */
    var files: Store

    constructor (host: Host)
      ensures this.host == host && files == map[]
    {
      this.host := host;
      files := map[];
    }

    /** `GetValueOrDefault` for the typed overloads; the file name is ignored. */
    method GetValueOrDefault(key: string, dflt: Option<Value>, t: ClrType, fileName: Option<string>)
      returns (r: Result<Option<Value>, Error>)
      requires IsOverloadType(t) && Admits(t, dflt)
      ensures r == Read(files, key, t, dflt, host)
    {
      r := Read(files, key, t, dflt, host);
    }

    /** `AddOrUpdateValue` for the typed overloads; the file name is ignored. */
    method AddOrUpdateValue(key: string, value: Option<Value>, t: ClrType, fileName: Option<string>)
      returns (changed: bool)
      requires IsOverloadType(t) && Admits(t, value)
      modifies this
      ensures Write(old(files), key, value, host) == Ok((changed, files))
    {
      if value.None? {
        Remove(key, fileName);
        return true;
      }
      var str := Text(value.value, host);
      var oldValue: Option<string> := None;
      if key in files {
        oldValue := Some(files[key]);
      }
      files := files[key := str];
      changed := oldValue != Some(str);
    }

    /** `Remove`: deletes the key's file when it exists. */
    method Remove(key: string, fileName: Option<string>)
      modifies this
      ensures files == old(files) - {key}
    {
      if key in files {
        files := files - {key};
      }
    }

    /** `Clear`: deletes every file of the store, one at a time. */
    method Clear(fileName: Option<string>)
      modifies this
      ensures files == map[]
    {
      var names := files.Keys;
      while names != {}
        invariant files.Keys == names
        decreases names
      {
        var name :| name in names;
        files := files - {name};
        names := names - {name};
      }
    }

    /** `Contains`: whether the key's file exists. */
    method Contains(key: string, fileName: Option<string>) returns (b: bool)
      ensures b <==> key in files
    {
      b := key in files;
    }
  }
}
