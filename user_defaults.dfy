/** NSUserDefaults as the two iOS adapters see them: a domain per suite, each mapping keys to property-list
    values, with typed getters that fall back to a zero value. */
module UserDefaults {
  import opened Wrappers
  import opened Integers
  import opened Strings
  import opened Values

  /** One defaults domain: each key holds a property-list value. A property list has no null, so
      `defaults[key] == null` holds exactly when the key is absent. */
  type Defaults = d: map<string, Primitive> | forall k :: k in d ==> !d[k].PNull?

  /** Which defaults a call works on. */
  datatype Suite = StandardDefaults | SuiteNamed(name: string)

  /** `GetUserDefaults`: a null or white-space name is the standard defaults, any other name a suite of that
      name. */
  function ResolveSuite(fileName: Option<string>): (s: Suite)
    ensures s == StandardDefaults <==> IsNullOrWhiteSpace(fileName)
    ensures s.SuiteNamed? ==> fileName == Some(s.name)
  {
    if IsNullOrWhiteSpace(fileName) then StandardDefaults else SuiteNamed(fileName.value)
  }

  // The typed getters: the entry when it has the getter's type, otherwise nil, NO, 0 or 0.0.

  function StringForKey(d: Defaults, key: string): (s: Option<string>)
    ensures s.Some? <==> key in d && d[key].PString?
  {
    if key in d && d[key].PString? then Some(d[key].s) else None
  }

  function BoolForKey(d: Defaults, key: string): (b: bool)
    ensures b <==> key in d && d[key] == PBool(true)
  {
    key in d && d[key].PBool? && d[key].b
  }

  function IntForKey(d: Defaults, key: string): (i: Int32)
    ensures key in d && d[key].PInt? ==> i == d[key].i
    ensures !(key in d && d[key].PInt?) ==> i == 0
  {
    if key in d && d[key].PInt? then d[key].i else 0
  }

  function FloatForKey(d: Defaults, key: string): (f: Single)
    ensures key in d && d[key].PFloat? ==> f == d[key].f
    ensures !(key in d && d[key].PFloat?) ==> f == SingleZero
  {
    if key in d && d[key].PFloat? then d[key].f else SingleZero
  }
}
