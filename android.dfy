/** The Android adapter of Settings.android.cs: one preferences file per file name, the default
    preferences for a blank name, and no effect at all while the application context is missing. */
module Android {
  import opened Wrappers
  import opened Errors
  import opened Integers
  import opened Strings
  import opened Decimals
  import opened Values
  import opened AndroidPreferences

  /** Which preferences file a call works on. */
  datatype Scope = DefaultPreferences | NamedPreferences(name: string)

  /** `GetSharedPreference`: a null or white-space name is the default preferences, any other name its own
      private file. */
  function ResolveScope(fileName: Option<string>): (s: Scope)
    ensures s == DefaultPreferences <==> IsNullOrWhiteSpace(fileName)
    ensures s.NamedPreferences? ==> fileName == Some(s.name)
  {
    if IsNullOrWhiteSpace(fileName) then DefaultPreferences else NamedPreferences(fileName.value)
  }

  /** `GetValueOrDefaultInternal` on the resolved file: the caller's default, untouched, when there is no
      context or the key is absent; otherwise the type switch. */
  function Read(hasContext: bool, p: Prefs, key: string, t: ClrType, dflt: Option<Value>, host: Host): (o: ReadOutcome)
    requires Admits(t, dflt)
    ensures !hasContext || key !in p ==> o == ReadOutcome(Ok(dflt), false)
  {
    if !hasContext || key !in p then ReadOutcome(Ok(dflt), false) else ReadCore(p, key, t, dflt, host)
  }

  /** `AddOrUpdateValueInternal` on the resolved file: false and no change without a context, removal of
      the key for a null value, otherwise the typed put. */
  function Write(hasContext: bool, p: Prefs, key: string, t: ClrType, value: Option<Value>, host: Host): (w: Written)
    requires Admits(t, value)
    ensures !hasContext ==> w == Written(Ok(false), None)
    ensures hasContext && value.None? ==> w == Written(Ok(true), Some(p - {key}))
  {
    if !hasContext then Written(Ok(false), None)
    else if value.None? then Written(Ok(true), Some(p - {key}))
    else Put(p, key, t, value.value, host)
  }

  class Settings {
    /** Whether `Application.Context` is set; it does not change while the adapter is in use. */
    const hasContext: bool
    const host: Host
    /** The preferences files; a file that is not in the map is empty. */
    var files: map<Scope, Prefs>

    function FileOf(s: Scope): Prefs
      reads this
    {
      if s in files then files[s] else map[]
    }

    constructor (hasContext: bool, host: Host)
      ensures this.hasContext == hasContext && this.host == host && files == map[]
    {
      this.hasContext := hasContext;
      this.host := host;
      files := map[];
    }

    /** `Contains`: false without a context, otherwise whether the resolved file holds the key. */
    method Contains(key: string, fileName: Option<string>) returns (b: bool)
      ensures b <==> hasContext && key in FileOf(ResolveScope(fileName))
    {
      if !hasContext {
        return false;
      }
      b := key in FileOf(ResolveScope(fileName));
    }

    /** `Remove`: the key leaves the resolved file; every other file and key is kept. */
    method Remove(key: string, fileName: Option<string>)
      modifies this
      ensures !hasContext ==> files == old(files)
      ensures hasContext ==> files == old(files)[ResolveScope(fileName) := old(FileOf(ResolveScope(fileName))) - {key}]
    {
      if !hasContext {
        return;
      }
      var scope := ResolveScope(fileName);
      files := files[scope := FileOf(scope) - {key}];
    }

    /** `Clear`: the resolved file is emptied; the other files are kept. */
    method Clear(fileName: Option<string>)
      modifies this
      ensures !hasContext ==> files == old(files)
      ensures hasContext ==> files == old(files)[ResolveScope(fileName) := map[]]
    {
      if !hasContext {
        return;
      }
      files := files[ResolveScope(fileName) := map[]];
    }

    /** `AddOrUpdateValueInternal<T>` with `AddOrUpdateValueCore`. */
    method AddOrUpdateValue(key: string, value: Option<Value>, t: ClrType, fileName: Option<string>)
      returns (r: Result<bool, Error>)
      requires Admits(t, value)
      modifies this
      ensures var w := Write(hasContext, old(FileOf(ResolveScope(fileName))), key, t, value, host);
        r == w.result && files == if w.file.Some? then old(files)[ResolveScope(fileName) := w.file.value] else old(files)
    {
      if !hasContext {
        return Ok(false);
      }
      if value.None? {
        Remove(key, fileName);
        return Ok(true);
      }
      var scope := ResolveScope(fileName);
      var w := Put(FileOf(scope), key, t, value.value, host);
      if w.result.Err? {
        return w.result;
      }
      files := files[scope := w.file.value];
      r := Ok(true);
    }

    /** `GetValueOrDefaultInternal<T>` with `GetValueOrDefaultCore`, including the 1.5 migration that
        removes the key it cannot read and then fails to save it again. */
    method GetValueOrDefault(key: string, dflt: Option<Value>, t: ClrType, fileName: Option<string>)
      returns (r: Result<Option<Value>, Error>)
      requires Admits(t, dflt)
      modifies this
      ensures var o := Read(hasContext, old(FileOf(ResolveScope(fileName))), key, t, dflt, host);
        r == o.result
        && files == if o.dropsKey then old(files)[ResolveScope(fileName) := old(FileOf(ResolveScope(fileName))) - {key}]
                    else old(files)
    {
      if !hasContext {
        return Ok(dflt);
      }
      var present := Contains(key, fileName);
      if !present {
        return Ok(dflt);
      }
      var p := FileOf(ResolveScope(fileName));
      if !NeedsMigration(p, key, t) {
        return Decode(p, key, t, dflt, host);
      }
      var d := dflt.value.d;
      var fallback := ToInt64(d);
      if fallback.Err? {
        return Err(fallback.error);
      }
      var saved := "";
      var stored := GetLong(p, key, fallback.value);
      if stored.Ok? {
        saved := FormatInteger(stored.value);
      }
      Remove(key, fileName);
      var value := DecimalOrDefault(saved, d);
      if value.Err? {
        return Err(value.error);
      }
      var resaved := AddOrUpdateValue(key, value.value, TObject, None);
      assert resaved == Err(ArgumentException);
      r := Err(resaved.error);
    }
  }

  /** Reading back what was written, through the same file and type, gives the value (a DateTime as its
      UTC instant) for every type the adapter has an overload for. */
  lemma WriteThenRead(p: Prefs, key: string, t: ClrType, v: Value, dflt: Option<Value>, host: Host)
    requires IsOverloadType(t) && Admits(t, Some(v)) && Admits(t, dflt)
    ensures Write(true, p, key, t, Some(v), host).result == Ok(true)
    ensures Read(true, Write(true, p, key, t, Some(v), host).file.value, key, t, dflt, host)
      == ReadOutcome(Ok(Some(AsStored(v, host.zone))), false)
  {
    PutThenRead(p, key, t, v, dflt, host);
  }

  /** After a null write the key reads as the caller's default. */
  lemma WriteNullThenRead(p: Prefs, key: string, t: ClrType, dflt: Option<Value>, host: Host)
    requires Admits(t, None) && Admits(t, dflt)
    ensures Read(true, Write(true, p, key, t, None, host).file.value, key, t, dflt, host) == ReadOutcome(Ok(dflt), false)
  {
  }

  /** An unsupported type is only rejected by a read when the key is present; an absent key gives the
      default before the type switch is reached. */
  lemma UnsupportedOnlyWhenPresent(p: Prefs, key: string, t: ClrType, dflt: Option<Value>, host: Host)
    requires TypeCodeOf(t) in {ObjectCode, ByteCode} && Admits(t, dflt) && !IsGuid(dflt)
    ensures Read(true, p, key, t, dflt, host).result.Err? <==> key in p
  {
    if key in p {
      var v: Value := ByteV(0);
      if t.TObject? || t.TByte? {
        UnsupportedTypeRejected(p, key, t, dflt, v, host);
      } else {
        UnsupportedTypeRejected(p, key, t, dflt, ClassV(t.name, 0), host);
      }
    }
  }
}
