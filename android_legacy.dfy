/** The legacy Android adapter of Plugin.Settings.Android/Settings.cs: generic `GetValueOrDefault<T>` and
    `AddOrUpdateValue<T>` over the default shared preferences only. Unlike the newer adapter it rejects
    null defaults and values, reads through the type switch without a presence check, and reaches the
    preferences without checking for an application context (except in the read). */
module AndroidLegacy {
  import opened Wrappers
  import opened Errors
  import opened Integers
  import opened Decimals
  import opened Guids
  import opened Values
  import opened AndroidPreferences

  /** `GetValueOrDefault<T>`: a null default is refused first; without a context the default is returned;
      otherwise the type switch runs whether or not the key is present. */
  function Read(hasContext: bool, p: Prefs, key: string, t: ClrType, dflt: Option<Value>, host: Host): (o: ReadOutcome)
    requires Admits(t, dflt)
    ensures dflt.None? ==> o == ReadOutcome(Err(ArgumentNullException), false)
    ensures dflt.Some? && !hasContext ==> o == ReadOutcome(Ok(dflt), false)
  {
    if dflt.None? then ReadOutcome(Err(ArgumentNullException), false)
    else if !hasContext then ReadOutcome(Ok(dflt), false)
    else ReadCore(p, key, t, dflt, host)
  }

  /** `AddOrUpdateValue<T>`: a null value is refused; the typed put then needs the context. */
  function Write(hasContext: bool, p: Prefs, key: string, t: ClrType, value: Option<Value>, host: Host): (w: Written)
    requires Admits(t, value)
    ensures value.None? ==> w == Written(Err(ArgumentNullException), None)
    ensures value.Some? && !hasContext ==> w == Written(Err(NullPointerException), None)
  {
    if value.None? then Written(Err(ArgumentNullException), None)
    else if !hasContext then Written(Err(NullPointerException), None)
    else Put(p, key, t, value.value, host)
  }

  class Settings {
    /** Whether `Application.Context` is set. */
    const hasContext: bool
    const host: Host
    /** The default shared preferences, the only file this adapter uses. */
    var prefs: Prefs

    constructor (hasContext: bool, host: Host)
      ensures this.hasContext == hasContext && this.host == host && prefs == map[]
    {
      this.hasContext := hasContext;
      this.host := host;
      prefs := map[];
    }

    /** `Contains`: whether the default preferences hold the key. */
    method Contains(key: string) returns (r: Result<bool, Error>)
      ensures hasContext ==> r == Ok(key in prefs)
      ensures !hasContext ==> r == Err(NullPointerException)
    {
      if !hasContext {
        return Err(NullPointerException);
      }
      r := Ok(key in prefs);
    }

    /** `Remove`: the key leaves the default preferences. */
    method Remove(key: string) returns (r: Result<(), Error>)
      modifies this
      ensures hasContext ==> r == Ok(()) && prefs == old(prefs) - {key}
      ensures !hasContext ==> r == Err(NullPointerException) && prefs == old(prefs)
    {
      if !hasContext {
        return Err(NullPointerException);
      }
      prefs := prefs - {key};
      r := Ok(());
    }

    /** `Clear`: the default preferences are emptied. */
    method Clear() returns (r: Result<(), Error>)
      modifies this
      ensures hasContext ==> r == Ok(()) && prefs == map[]
      ensures !hasContext ==> r == Err(NullPointerException) && prefs == old(prefs)
    {
      if !hasContext {
        return Err(NullPointerException);
      }
      prefs := map[];
      r := Ok(());
    }

    /** `AddOrUpdateValue<T>` with the private typed `AddOrUpdateValue`. */
    method AddOrUpdateValue(key: string, value: Option<Value>, t: ClrType) returns (r: Result<bool, Error>)
      requires Admits(t, value)
      modifies this
      ensures var w := Write(hasContext, old(prefs), key, t, value, host);
        r == w.result && prefs == if w.file.Some? then w.file.value else old(prefs)
    {
      if value.None? {
        return Err(ArgumentNullException);
      }
      if !hasContext {
        return Err(NullPointerException);
      }
      var w := Put(prefs, key, t, value.value, host);
      if w.result.Err? {
        return w.result;
      }
      prefs := w.file.value;
      r := Ok(true);
    }

    /** `GetValueOrDefault<T>` with `GetValueOrDefaultCore`, including the 1.5 migration. */
    method GetValueOrDefault(key: string, dflt: Option<Value>, t: ClrType) returns (r: Result<Option<Value>, Error>)
      requires Admits(t, dflt)
      modifies this
      ensures var o := Read(hasContext, old(prefs), key, t, dflt, host);
        r == o.result && prefs == if o.dropsKey then old(prefs) - {key} else old(prefs)
    {
      if dflt.None? {
        return Err(ArgumentNullException);
      }
      if !hasContext {
        return Ok(dflt);
      }
      if !NeedsMigration(prefs, key, t) {
        return Decode(prefs, key, t, dflt, host);
      }
      var d := dflt.value.d;
      var fallback := ToInt64(d);
      if fallback.Err? {
        return Err(fallback.error);
      }
      var saved := "";
      var stored := GetLong(prefs, key, fallback.value);
      if stored.Ok? {
        saved := FormatInteger(stored.value);
      }
      var _ := Remove(key);
      var value := DecimalOrDefault(saved, d);
      if value.Err? {
        return Err(value.error);
      }
      var resaved := AddOrUpdateValue(key, value.value, TObject);
      assert resaved == Err(ArgumentException);
      r := Err(resaved.error);
    }
  }

  /** Without a presence check, an absent key reads as the caller's default for every overload type but
      Guid: each getter falls back to the converted default, a DateTime read checks for the key itself,
      and an absent decimal reads as blank text. */
  lemma AbsentKeyReadsDefault(p: Prefs, key: string, t: ClrType, dflt: Value, host: Host)
    requires key !in p && IsOverloadType(t) && !t.TGuid? && Admits(t, Some(dflt))
    ensures Read(true, p, key, t, Some(dflt), host) == ReadOutcome(Ok(Some(dflt)), false)
  {
  }

  /** An absent Guid key reads as Guid.Empty, not as the caller's default: the getter's fallback is the
      text of Guid.Empty, which is then parsed. */
  lemma AbsentGuidReadsEmpty(p: Prefs, key: string, dflt: Guid, host: Host)
    requires key !in p
    ensures Read(true, p, key, TGuid, Some(GuidV(dflt)), host) == ReadOutcome(Ok(Some(GuidV(Empty))), false)
  {
    Guids.ParseFormat(Empty);
  }

  /** A type outside the switch is rejected on read even when the key is absent. */
  lemma UnsupportedEvenWhenAbsent(p: Prefs, key: string, t: ClrType, dflt: Value, host: Host)
    requires key !in p && TypeCodeOf(t) in {ObjectCode, ByteCode} && Admits(t, Some(dflt)) && !dflt.GuidV?
    ensures Read(true, p, key, t, Some(dflt), host) == ReadOutcome(Err(ArgumentException), false)
  {
    UnsupportedTypeRejected(p, key, t, Some(dflt), dflt, host);
  }

  /** Every supported write returns true, and reading back through the same type gives the value. */
  lemma WriteThenRead(p: Prefs, key: string, t: ClrType, v: Value, dflt: Value, host: Host)
    requires IsOverloadType(t) && Admits(t, Some(v)) && Admits(t, Some(dflt))
    ensures Write(true, p, key, t, Some(v), host).result == Ok(true)
    ensures Read(true, Write(true, p, key, t, Some(v), host).file.value, key, t, Some(dflt), host)
      == ReadOutcome(Ok(Some(AsStored(v, host.zone))), false)
  {
    PutThenRead(p, key, t, v, Some(dflt), host);
  }
}
