/** The UWP adapter: typed overloads over the LocalSettings of ApplicationData and its named containers. */
module Uwp {
  import opened Wrappers
  import opened Errors
  import opened Values
  import opened ApplicationData

  /** The container after `AddOrUpdateValueInternal`: a null value removes the key, any other value is
      stored boxed. The flag is the value the method returns. */
  function Write(vals: PropertySet, key: string, value: Option<Value>, differs: bool, host: Host): (r: (bool, PropertySet))
    requires value.Some? ==> !value.value.ClassV?
    requires value.Some? && key in vals ==> ReferenceOracle(vals[key], Box(value.value, host), differs)
    ensures value.None? ==> r.0 && r.1 == vals - {key}
    ensures value.Some? ==> r == Put(vals, key, Box(value.value, host), differs)
  {
    match value
    case None => (true, vals - {key})
    case Some(v) => Put(vals, key, Box(v, host), differs)
  }

  /** A write followed by a read at the same type gives the value written (a DateTime as its UTC instant),
      or the caller's default after a null string removed the key. */
  lemma WriteThenRead(vals: PropertySet, key: string, t: ClrType, value: Option<Value>, differs: bool,
                      dflt: Option<Value>, host: Host)
    requires IsOverloadType(t) && Admits(t, value) && Admits(t, dflt)
    requires value.Some? && key in vals ==> ReferenceOracle(vals[key], Box(value.value, host), differs)
    ensures Read(Write(vals, key, value, differs, host).1, key, t, dflt, host) ==
      if value.None? then Ok(dflt) else Ok(Some(AsStored(value.value, host.zone)))
  {
    if value.Some? {
      BoxThenRead(vals, key, t, value.value, dflt, host);
    }
  }

  /** The result reports a change whenever the key was new or was removed; rewriting a key with the same
      boxed reference reports none and leaves the container as it was. */
  lemma ChangeReported(vals: PropertySet, key: string, value: Option<Value>, differs: bool, host: Host)
    requires value.Some? ==> !value.value.ClassV?
    requires value.Some? && key in vals ==> ReferenceOracle(vals[key], Box(value.value, host), differs)
    ensures key !in vals || value.None? ==> Write(vals, key, value, differs, host).0
    ensures value.Some? && key in vals && !differs ==> Write(vals, key, value, differs, host) == (false, vals)
  {
  }

  class Settings {
    const host: Host
    /** The containers of ApplicationData; LocalSettings holds nothing until it is written. */
    var containers: map<Scope, PropertySet>

    function ValuesOf(s: Scope): PropertySet
      reads this
    {
      if s in containers then containers[s] else map[]
    }

    constructor (host: Host)
      ensures this.host == host && containers == map[]
    {
      this.host := host;
      containers := map[];
    }

    /** `GetAppSettings`: resolves the container, creating a missing named one. */
    method GetAppSettings(fileName: Option<string>) returns (s: Scope)
      modifies this
      ensures s == ResolveContainer(fileName)
      ensures containers == Opened(old(containers), fileName)
      ensures ValuesOf(s) == old(ValuesOf(s))
    {
      s := ResolveContainer(fileName);
      if s.Container? && s !in containers {
        containers := containers[s := map[]];
      }
    }

    /** `GetValueOrDefault` for the typed overloads. */
    method GetValueOrDefault(key: string, dflt: Option<Value>, t: ClrType, fileName: Option<string>)
      returns (r: Result<Option<Value>, Error>)
      requires IsOverloadType(t) && Admits(t, dflt)
      modifies this
      ensures containers == Opened(old(containers), fileName)
      ensures r == Read(old(ValuesOf(ResolveContainer(fileName))), key, t, dflt, host)
    {
      var s := GetAppSettings(fileName);
      r := Read(ValuesOf(s), key, t, dflt, host);
    }

    /** `AddOrUpdateValue` for the typed overloads: a null string is a `Remove` reported as a change;
        any other value goes through the change detection of `AddOrUpdateValueCore`. */
    method AddOrUpdateValue(key: string, value: Option<Value>, t: ClrType, fileName: Option<string>, differs: bool)
      returns (changed: bool)
      requires IsOverloadType(t) && Admits(t, value)
      requires value.Some? && key in ValuesOf(ResolveContainer(fileName)) ==>
        ReferenceOracle(ValuesOf(ResolveContainer(fileName))[key], Box(value.value, host), differs)
      modifies this
      ensures var s := ResolveContainer(fileName);
        var cs := Opened(old(containers), fileName);
        var w := Write(old(ValuesOf(s)), key, value, differs, host);
        changed == w.0 &&
        containers == if value.None? && key !in old(ValuesOf(s)) then cs else cs[s := w.1]
    {
      if value.None? {
        Remove(key, fileName);
        return true;
      }
      var s := GetAppSettings(fileName);
      var boxed := Box(value.value, host);
      changed := false;
      if key in ValuesOf(s) {
        if differs {
          containers := containers[s := ValuesOf(s)[key := boxed]];
          changed := true;
        }
      } else {
        containers := containers[s := ValuesOf(s)[key := boxed]];
        changed := true;
      }
    }

    /** `Remove`: only a key that is present is removed. */
    method Remove(key: string, fileName: Option<string>)
      modifies this
      ensures var s := ResolveContainer(fileName);
        var cs := Opened(old(containers), fileName);
        containers == if key in old(ValuesOf(s)) then cs[s := old(ValuesOf(s)) - {key}] else cs
    {
      var s := GetAppSettings(fileName);
      if key in ValuesOf(s) {
        containers := containers[s := ValuesOf(s) - {key}];
      }
    }

    /** `Clear`: empties the resolved container; other containers keep their values. */
    method Clear(fileName: Option<string>)
      modifies this
      ensures containers == Opened(old(containers), fileName)[ResolveContainer(fileName) := map[]]
    {
      var s := GetAppSettings(fileName);
      containers := containers[s := map[]];
    }

    /** `Contains`: whether the resolved container holds the key. */
    method Contains(key: string, fileName: Option<string>) returns (b: bool)
      modifies this
      ensures containers == Opened(old(containers), fileName)
      ensures b <==> key in old(ValuesOf(ResolveContainer(fileName)))
    {
      var s := GetAppSettings(fileName);
      b := key in ValuesOf(s);
    }
  }
}
