/** The Windows Phone 8.1 adapter: the public generic API over ApplicationData. Unlike UWP it has no null
    check before writing, so a null value is stored as a null entry, and any type may be asked for. */
module WindowsPhone81 {
  import opened Wrappers
  import opened Errors
  import opened Decimals
  import opened Values
  import opened ApplicationData

  /** A value the native store accepts: null or a WinRT type (a class instance is refused). */
  predicate Storable(value: Option<Value>) {
    value.None? || !value.value.ClassV?
  }

  /** The object stored for a value: a null reference for null. */
  function BoxOrNull(value: Option<Value>, host: Host): (p: Primitive)
    requires Storable(value)
    ensures p.PNull? <==> value.None?
  {
    match value
    case None => PNull
    case Some(v) => Box(v, host)
  }

  /** `InternalAddOrUpdateValue`: a storable value goes through the change detection; a class instance is
      refused by the store, which throws. */
  function Write(vals: PropertySet, key: string, value: Option<Value>, differs: bool, host: Host)
    : (r: Result<(bool, PropertySet), Error>)
    requires Storable(value) && key in vals ==> ReferenceOracle(vals[key], BoxOrNull(value, host), differs)
    ensures r.Err? <==> !Storable(value)
    ensures r.Err? ==> r.error == NativeStoreFailure
    ensures r.Ok? ==> r.value == Put(vals, key, BoxOrNull(value, host), differs)
  {
    if Storable(value) then Ok(Put(vals, key, BoxOrNull(value, host), differs))
    else Err(NativeStoreFailure)
  }

  /** A non-null write read back at the value's own type gives the value (a DateTime as its UTC instant). */
  lemma WriteThenRead(vals: PropertySet, key: string, v: Value, differs: bool, dflt: Option<Value>, host: Host)
    requires !v.ClassV? && Admits(TypeOf(v), dflt)
    requires key in vals ==> ReferenceOracle(vals[key], Box(v, host), differs)
    ensures Write(vals, key, Some(v), differs, host).Ok?
    ensures Read(Write(vals, key, Some(v), differs, host).value.1, key, TypeOf(v), dflt, host) ==
      Ok(Some(AsStored(v, host.zone)))
  {
    BoxThenRead(vals, key, TypeOf(v), v, dflt, host);
  }

  /** Writing null stores a null entry: the key stays present, a decimal read of it then fails to parse
      the empty text, and a read of any other type gives the caller's default. */
  lemma NullWriteThenRead(vals: PropertySet, key: string, differs: bool, t: ClrType, dflt: Option<Value>, host: Host)
    requires key in vals ==> ReferenceOracle(vals[key], PNull, differs)
    requires Admits(t, dflt)
    ensures Write(vals, key, None, differs, host).Ok?
    ensures key in Write(vals, key, None, differs, host).value.1
    ensures Read(Write(vals, key, None, differs, host).value.1, key, t, dflt, host) ==
      if t == TDecimal then Err(FormatException) else Ok(dflt)
  {
    var after := Write(vals, key, None, differs, host).value.1;
    assert after[key] == PNull;
    if t == TDecimal {
      assert ObjectText(after[key], host) == "";
      assert SplitAtPoint("") == ("", None);
    }
  }

  /** Writing null over a null entry reports no change; writing null over a value reports one. */
  lemma NullOverNull(vals: PropertySet, key: string, differs: bool, host: Host)
    requires key in vals
    requires ReferenceOracle(vals[key], PNull, differs)
    ensures Write(vals, key, None, differs, host).Ok?
    ensures Write(vals, key, None, differs, host).value.0 <==> !vals[key].PNull?
  {
  }

  /** A decimal written through `AddOrUpdateValue<object>` is stored as its text, so reading the key as
      object gives that string, not the decimal. */
  lemma DecimalAsObjectReadsText(vals: PropertySet, key: string, d: Decimal, differs: bool, dflt: Option<Value>, host: Host)
    requires key in vals ==> ReferenceOracle(vals[key], Box(DecimalV(d), host), differs)
    requires Admits(TObject, dflt)
    ensures Write(vals, key, Some(DecimalV(d)), differs, host).Ok?
    ensures Read(Write(vals, key, Some(DecimalV(d)), differs, host).value.1, key, TObject, dflt, host) ==
      Ok(Some(StringV(FormatDecimal(d))))
  {
  }

  class Settings {
    const host: Host
    /** The containers of ApplicationData; LocalSettings holds nothing until it is written. */
    var containers: map<Scope, PropertySet>

    function ValuesOf(s: Scope): PropertySet
      reads this
    {
      if s in containers then containers[s] else map[]
    }

    constructor (host: Host)
      ensures this.host == host && containers == map[]
    {
      this.host := host;
      containers := map[];
    }

    /** `GetAppSettings`: resolves the container, creating a missing named one. */
    method GetAppSettings(fileName: Option<string>) returns (s: Scope)
      modifies this
      ensures s == ResolveContainer(fileName)
      ensures containers == Opened(old(containers), fileName)
      ensures ValuesOf(s) == old(ValuesOf(s))
    {
      s := ResolveContainer(fileName);
      if s.Container? && s !in containers {
        containers := containers[s := map[]];
      }
    }

    /** `GetValueOrDefault<T>`, for any T. */
    method GetValueOrDefault(key: string, dflt: Option<Value>, t: ClrType, fileName: Option<string>)
      returns (r: Result<Option<Value>, Error>)
      requires Admits(t, dflt)
      modifies this
      ensures containers == Opened(old(containers), fileName)
      ensures r == Read(old(ValuesOf(ResolveContainer(fileName))), key, t, dflt, host)
    {
      var s := GetAppSettings(fileName);
      r := Read(ValuesOf(s), key, t, dflt, host);
    }

    /** `AddOrUpdateValue<T>`: whether the entry changed, or the store's exception for a class instance. */
    method AddOrUpdateValue(key: string, value: Option<Value>, t: ClrType, fileName: Option<string>, differs: bool)
      returns (r: Result<bool, Error>)
      requires Admits(t, value)
      requires Storable(value) && key in ValuesOf(ResolveContainer(fileName)) ==>
        ReferenceOracle(ValuesOf(ResolveContainer(fileName))[key], BoxOrNull(value, host), differs)
      modifies this
      ensures var s := ResolveContainer(fileName);
        var cs := Opened(old(containers), fileName);
        match Write(old(ValuesOf(s)), key, value, differs, host)
        case Ok(w) => r == Ok(w.0) && containers == cs[s := w.1]
        case Err(e) => r == Err(e) && containers == cs
    {
      var s := GetAppSettings(fileName);
      if !Storable(value) {
        return Err(NativeStoreFailure);
      }
      var boxed := BoxOrNull(value, host);
      var changed := false;
      if key in ValuesOf(s) {
        if differs {
          containers := containers[s := ValuesOf(s)[key := boxed]];
          changed := true;
        }
      } else {
        containers := containers[s := ValuesOf(s)[key := boxed]];
        changed := true;
      }
      r := Ok(changed);
    }

    /** `Remove`: only a key that is present is removed. */
    method Remove(key: string, fileName: Option<string>)
      modifies this
      ensures var s := ResolveContainer(fileName);
        var cs := Opened(old(containers), fileName);
        containers == if key in old(ValuesOf(s)) then cs[s := old(ValuesOf(s)) - {key}] else cs
    {
      var s := GetAppSettings(fileName);
      if key in ValuesOf(s) {
        containers := containers[s := ValuesOf(s) - {key}];
      }
    }

    /** `Clear`: empties the resolved container; other containers keep their values. */
    method Clear(fileName: Option<string>)
      modifies this
      ensures containers == Opened(old(containers), fileName)[ResolveContainer(fileName) := map[]]
    {
      var s := GetAppSettings(fileName);
      containers := containers[s := map[]];
    }

    /** `Contains`: whether the resolved container holds the key (a null entry counts). */
    method Contains(key: string, fileName: Option<string>) returns (b: bool)
      modifies this
      ensures containers == Opened(old(containers), fileName)
      ensures b <==> key in old(ValuesOf(ResolveContainer(fileName)))
    {
      var s := GetAppSettings(fileName);
      b := key in ValuesOf(s);
    }
  }
}
