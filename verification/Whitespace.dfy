/** Unicode white space in UTF-8 text, as Rust's trimming sees it. */
module Whitespace {

  predicate IsAsciiSpace(c: char) { 9 as char <= c <= 13 as char || c == ' ' }

  predicate IsPairSpace(a: char, b: char) { a == 0xC2 as char && (b == 0x85 as char || b == 0xA0 as char) }

  predicate IsTripleSpace(a: char, b: char, c: char)
  {
    || (a == 0xE1 as char && b == 0x9A as char && c == 0x80 as char)
    || (a == 0xE2 as char && b == 0x80 as char
        && (0x80 as char <= c <= 0x8A as char || c == 0xA8 as char || c == 0xA9 as char || c == 0xAF as char))
    || (a == 0xE2 as char && b == 0x81 as char && c == 0x9F as char)
    || (a == 0xE3 as char && b == 0x80 as char && c == 0x80 as char)
  }

  /** The length of the white space character that starts at `i`; 0 if none does. */
  function SpaceAt(s: string, i: nat): (n: nat)
    requires i < |s|
    ensures i + n <= |s| && n <= 3
  {
    if IsAsciiSpace(s[i]) then 1
    else if i + 1 < |s| && IsPairSpace(s[i], s[i + 1]) then 2
    else if i + 2 < |s| && IsTripleSpace(s[i], s[i + 1], s[i + 2]) then 3
    else 0
  }

  /** The length of the white space character that ends the text; 0 if none does. */
  function SpaceBefore(s: string): (n: nat)
    requires s != []
    ensures n <= |s|
  {
    var k := |s|;
    if IsAsciiSpace(s[k - 1]) then 1
    else if k > 1 && IsPairSpace(s[k - 2], s[k - 1]) then 2
    else if k > 2 && IsTripleSpace(s[k - 3], s[k - 2], s[k - 1]) then 3
    else 0
  }

  function TrimStart(s: string): (r: string)
    ensures |r| <= |s| && (r != [] ==> SpaceAt(r, 0) == 0)
  {
    if s == [] || SpaceAt(s, 0) == 0 then s else TrimStart(s[SpaceAt(s, 0)..])
  }

  function TrimEnd(s: string): (r: string)
    ensures r <= s && (r != [] ==> SpaceBefore(r) == 0)
  {
    if s == [] || SpaceBefore(s) == 0 then s else TrimEnd(s[..|s| - SpaceBefore(s)])
  }

  function Trim(s: string): string { TrimEnd(TrimStart(s)) }
}
