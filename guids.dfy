/** System.Guid as 32 hexadecimal digits, and its 8-4-4-4-12 text (RFC 4122, section 3). */
module Guids {
  import opened Wrappers

  type Nibble = x: int | 0 <= x < 16

  /** The 32 digits in the order the text shows them. */
  datatype GuidRep = GuidRep(nibbles: seq<Nibble>)

  const ZeroNibbles: seq<Nibble> := [0, 0, 0, 0, 0, 0, 0, 0, 0, 0, 0, 0, 0, 0, 0, 0, 0, 0, 0, 0, 0, 0, 0, 0, 0, 0, 0, 0, 0, 0, 0, 0]

  type Guid = g: GuidRep | |g.nibbles| == 32 witness GuidRep(ZeroNibbles)

  /** Guid.Empty, all 32 digits zero. */
  const Empty: Guid := GuidRep(ZeroNibbles)

  predicate IsHexChar(c: char) {
    '0' <= c <= '9' || 'a' <= c <= 'f' || 'A' <= c <= 'F'
  }

  function HexValue(c: char): (n: Nibble)
    requires IsHexChar(c)
  {
    if '0' <= c <= '9' then c as int - '0' as int
    else if 'a' <= c <= 'f' then c as int - 'a' as int + 10
    else c as int - 'A' as int + 10
  }

  /** Lower-case hexadecimal digit, as `Guid.ToString()` writes it. */
  function HexChar(n: Nibble): (c: char)
    ensures IsHexChar(c) && HexValue(c) == n
  {
    if n < 10 then ('0' as int + n) as char else ('a' as int + n - 10) as char
  }

  function HexText(ns: seq<Nibble>): (s: string)
    ensures |s| == |ns|
    ensures forall i :: 0 <= i < |ns| ==> s[i] == HexChar(ns[i])
  {
    seq(|ns|, i requires 0 <= i < |ns| => HexChar(ns[i]))
  }

  /** `Guid.ToString()`, the "D" format: groups of 8, 4, 4, 4 and 12 digits joined by hyphens. */
  function FormatGuid(g: Guid): (s: string)
    ensures |s| == 36
  {
    var n := g.nibbles;
    HexText(n[..8]) + "-" + HexText(n[8..12]) + "-" + HexText(n[12..16]) + "-"
      + HexText(n[16..20]) + "-" + HexText(n[20..])
  }

  predicate IsHyphenPosition(i: int) {
    i == 8 || i == 13 || i == 18 || i == 23
  }

  /** Where the j-th digit stands in the 36-character text. */
  function DigitPosition(j: nat): (i: nat)
    requires j < 32
    ensures i < 36 && !IsHyphenPosition(i)
  {
    j + (if j >= 8 then 1 else 0) + (if j >= 12 then 1 else 0) + (if j >= 16 then 1 else 0)
      + (if j >= 20 then 1 else 0)
  }

  predicate IsHyphenated(s: string) {
    |s| == 36 && forall i :: 0 <= i < 36 ==> if IsHyphenPosition(i) then s[i] == '-' else IsHexChar(s[i])
  }

  /** `Guid.TryParse` on the hyphenated form, hexadecimal digits in either case. */
  function ParseGuid(s: string): (r: Option<Guid>)
    ensures r.Some? <==> IsHyphenated(s)
    ensures r.Some? ==> forall j :: 0 <= j < 32 ==> r.value.nibbles[j] == HexValue(s[DigitPosition(j)])
  {
    if IsHyphenated(s) then
      Some(GuidRep(seq(32, j requires 0 <= j < 32 => HexValue(s[DigitPosition(j)]))))
    else
      None
  }

  /** The `out` value of `Guid.TryParse`: the parsed Guid, or Guid.Empty when the parse fails. */
  function TryParseGuid(s: string): (g: Guid)
    ensures !IsHyphenated(s) ==> g == Empty
  {
    ParseGuid(s).GetOr(Empty)
  }

  lemma FormatAt(g: Guid)
    ensures forall i :: 0 <= i < 36 && IsHyphenPosition(i) ==> FormatGuid(g)[i] == '-'
    ensures forall j :: 0 <= j < 32 ==> FormatGuid(g)[DigitPosition(j)] == HexChar(g.nibbles[j])
  {
  }

  /** Parsing the text of any Guid gives the Guid back. */
  lemma ParseFormat(g: Guid)
    ensures ParseGuid(FormatGuid(g)) == Some(g)
  {
    var s := FormatGuid(g);
    FormatAt(g);
    assert IsHyphenated(s) by {
      forall i | 0 <= i < 36 && !IsHyphenPosition(i) ensures IsHexChar(s[i]) {
        var j := if i < 8 then i else if i < 13 then i - 1 else if i < 18 then i - 2
                 else if i < 23 then i - 3 else i - 4;
        assert DigitPosition(j) == i;
      }
    }
    assert ParseGuid(s).value.nibbles == g.nibbles;
  }
}
