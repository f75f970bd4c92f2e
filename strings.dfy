/** The `string` helpers of the .NET base library that the adapters lean on. */
module Strings {
  import opened Wrappers
  import opened Errors

  /** `char.IsWhiteSpace`: the Unicode space, line and paragraph separators and the control white space. */
  predicate IsWhiteSpace(c: char) {
    c == ' ' || ('\t' <= c <= '\r') || c == '\U{85}' || c == '\U{A0}' || c == '\U{1680}'
    || ('\U{2000}' <= c <= '\U{200A}') || c == '\U{2028}' || c == '\U{2029}' || c == '\U{202F}'
    || c == '\U{205F}' || c == '\U{3000}'
  }

  /** `string.IsNullOrWhiteSpace`. */
  predicate IsNullOrWhiteSpace(s: Option<string>) {
    s.None? || forall i :: 0 <= i < |s.value| ==> IsWhiteSpace(s.value[i])
  }

  /** `string.IsNullOrEmpty`. */
  predicate IsNullOrEmpty(s: Option<string>) {
    s.None? || s.value == ""
  }

  /** `string.StartsWith` with an ordinal comparison. */
  predicate StartsWith(s: string, prefix: string) {
    |prefix| <= |s| && s[..|prefix|] == prefix
  }

  /** `bool.ToString()` and `Convert.ToString(bool)`. */
  function FormatBoolean(b: bool): (s: string)
    ensures |s| >= 4
  {
    if b then "True" else "False"
  }

  function AsciiLower(c: char): char {
    if 'A' <= c <= 'Z' then (c as int + 32) as char else c
  }

  predicate EqualsIgnoreCase(s: string, t: string) {
    |s| == |t| && forall i :: 0 <= i < |s| ==> AsciiLower(s[i]) == AsciiLower(t[i])
  }

  predicate IsTrimmed(c: char) { IsWhiteSpace(c) || c == '\0' }

  function TrimStart(s: string): (r: string)
    ensures |r| <= |s| && r == s[|s| - |r|..]
    ensures r != [] ==> !IsTrimmed(r[0])
    decreases |s|
  {
    if s != [] && IsTrimmed(s[0]) then TrimStart(s[1..]) else s
  }

  function TrimEnd(s: string): (r: string)
    ensures |r| <= |s| && r == s[..|r|]
    ensures r != [] ==> !IsTrimmed(r[|r| - 1])
    decreases |s|
  {
    if s != [] && IsTrimmed(s[|s| - 1]) then TrimEnd(s[..|s| - 1]) else s
  }

  /** `bool.Parse` (behind `Convert.ToBoolean(string)`): "True" or "False" in any letter case, after trimming
      white space and NUL characters; anything else raises FormatException. */
  function ParseBoolean(s: string): (r: Result<bool, Error>)
    ensures r.Ok? ==> EqualsIgnoreCase(TrimEnd(TrimStart(s)), FormatBoolean(r.value))
    ensures r.Err? ==> r.error == FormatException
  {
    var t := TrimEnd(TrimStart(s));
    if EqualsIgnoreCase(t, "True") then Ok(true)
    else if EqualsIgnoreCase(t, "False") then Ok(false)
    else Err(FormatException)
  }

  /** `Convert.ToBoolean(Convert.ToString(b))` gives `b` back. */
  lemma BooleanRoundTrip(b: bool)
    ensures ParseBoolean(FormatBoolean(b)) == Ok(b)
  {
    var s := FormatBoolean(b);
    assert !IsTrimmed(s[0]) && !IsTrimmed(s[|s| - 1]);
    assert TrimStart(s) == s;
    assert TrimEnd(s) == s;
    assert EqualsIgnoreCase(s, FormatBoolean(b));
    if !b {
      assert AsciiLower(s[1]) != AsciiLower("True"[1]);
    }
  }
}
