/** Site paths (change_set.rs, static_syntax and static_export share them). A string is the sequence of
    its UTF-8 bytes, one `char` below 256 for each byte. */
module Paths {
  import opened Base

  /** The Unicode tables and the hash, of which nothing is assumed. */
  datatype Text = Text(fold: string -> string, nfc: string -> string, lower: string -> string,
                       sha256: Bytes -> string)

  function TextOf(bytes: Bytes): string { seq(|bytes|, i requires 0 <= i < |bytes| => bytes[i] as char) }

  // ---- Splitting ----

  /** The pieces of `s` between occurrences of `at`; always at least one. */
  function Split(s: string, at: char): (r: seq<string>)
    ensures r != []
    ensures forall piece :: piece in r ==> at !in piece
    ensures Join(r, at) == s
  {
    if at !in s then [s]
    else
      var i := IndexOf(s, at);
      var r := [s[..i]] + Split(s[i + 1..], at);
      assert r[1..] == Split(s[i + 1..], at);
      assert s == s[..i] + [at] + s[i + 1..];
      r
  }

  function IndexOf(s: string, at: char): (i: nat)
    requires at in s
    ensures i < |s| && s[i] == at && forall j :: 0 <= j < i ==> s[j] != at
  {
    if s[0] == at then 0
    else 1 + IndexOf(s[1..], at)
  }

  function Join(pieces: seq<string>, at: char): string
  {
    if pieces == [] then ""
    else if |pieces| == 1 then pieces[0]
    else pieces[0] + [at] + Join(pieces[1..], at)
  }

  lemma SplitHead(piece: string, rest: string, at: char)
    requires at !in piece
    ensures Split(piece + [at] + rest, at) == [piece] + Split(rest, at)
  {
    var s := piece + [at] + rest;
    assert s[|piece|] == at && forall j :: 0 <= j < |piece| ==> s[j] == piece[j];
    var i := IndexOf(s, at);
    assert i == |piece|;
    assert s[..i] == piece && s[i + 1..] == rest;
  }

  lemma {:induction false} SplitJoin(pieces: seq<string>, at: char)
    requires pieces != [] && forall piece :: piece in pieces ==> at !in piece
    ensures Split(Join(pieces, at), at) == pieces
  {
    if |pieces| > 1 {
      SplitHead(pieces[0], Join(pieces[1..], at), at);
      SplitJoin(pieces[1..], at);
    }
  }

  // ---- Valid paths ----

  const MAX_PATH_BYTES := 512
  const MAX_PATH_DEPTH := 16

  /** Some control character starts at `i`: C0, delete, or one of the C1 block, encoded in two bytes. */
  predicate ControlAt(s: string, i: nat)
    requires i < |s|
  {
    || s[i] < 32 as char
    || s[i] == 127 as char
    || (s[i] == 0xC2 as char && i + 1 < |s| && 0x80 as char <= s[i + 1] <= 0x9F as char)
  }

  function LowerByte(c: char): char
  {
    if 'A' <= c <= 'Z' then c + 32 as char else c
  }

  function AsciiLower(s: string): (r: string)
    ensures |r| == |s|
  {
    seq(|s|, i requires 0 <= i < |s| => LowerByte(s[i]))
  }

  predicate WindowsReserved(segment: string)
  {
    var stem := AsciiLower(Split(segment, '.')[0]);
    || stem in {"con", "prn", "aux", "nul"}
    || (|stem| == 4 && (stem[..3] == "com" || stem[..3] == "lpt") && '1' <= stem[3] <= '9')
  }

  predicate EndsWith(s: string, end: string) { |end| <= |s| && s[|s| - |end|..] == end }

  predicate StartsWith(s: string, start: string) { start <= s }

  predicate ReservedPath(t: Text, path: string)
  {
    var segments := Split(t.lower(path), '/');
    var name := segments[|segments| - 1];
    || (exists segment :: segment in segments && segment in {".studio", ".git", ".ssh", ".aws"})
    || StartsWith(name, ".env.")
    || name in {".env", ".envrc", ".netrc", ".npmrc", ".pypirc", "id_rsa", "id_ed25519", "credentials",
         "credentials.json"}
    || EndsWith(name, ".pem")
    || EndsWith(name, ".key")
  }

  predicate ValidSegment(segment: string)
  {
    && segment !in {"", ".", ".."}
    && segment[|segment| - 1] !in {' ', '.'}
    && (forall c :: c in segment ==> c !in "<>:\"|?*")
    && !WindowsReserved(segment)
  }

  predicate SafePath(t: Text, path: string)
  {
    && 0 < |path| <= MAX_PATH_BYTES
    && path[0] != '/'
    && '\\' !in path
    && t.nfc(path) == path
    && (forall i :: 0 <= i < |path| ==> !ControlAt(path, i))
    && |Split(path, '/')| <= MAX_PATH_DEPTH
    && forall segment :: segment in Split(path, '/') ==> ValidSegment(segment)
  }

  predicate ValidPath(t: Text, path: string) { SafePath(t, path) && !ReservedPath(t, path) }

  /** The text after the last dot, which may lie in a directory name. */
  function Extension(path: string): (r: Option<string>)
    ensures r.Some? ==> r.value != "" && '.' !in r.value && EndsWith(path, "." + r.value)
  {
    if '.' !in path then None
    else
      var last := AfterLast(path, '.');
      if last == "" then None else Some(last)
  }

  function AfterLast(s: string, at: char): (r: string)
    requires at in s
    ensures at !in r && EndsWith(s, [at] + r)
  {
    var rest := s[IndexOf(s, at) + 1..];
    if at in rest then
      var r := AfterLast(rest, at);
      assert s[|s| - |r| - 1..] == rest[|rest| - |r| - 1..];
      r
    else
      assert s[IndexOf(s, at)..] == [at] + rest;
      rest
  }
}
