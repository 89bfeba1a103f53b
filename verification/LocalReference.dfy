/** resolve_local_reference and percent_decode in change_set.rs. */
module LocalReference {
  import opened Base
  import opened Paths
  import opened Whitespace
  import opened DotSegments

  // ---- Percent encoding (section 2.1 of RFC 3986) ----

  function HexValue(c: char): Option<nat>
  {
    if '0' <= c <= '9' then Some(c as int - '0' as int)
    else if 'a' <= c <= 'f' then Some(c as int - 'a' as int + 10)
    else if 'A' <= c <= 'F' then Some(c as int - 'A' as int + 10)
    else None
  }

  function HexDigit(n: nat, upper: bool): char
    requires n < 16
  {
    if n < 10 then ('0' as int + n) as char else if upper then ('A' as int + n - 10) as char
       else ('a' as int + n - 10) as char
  }

  predicate IsByte(c: char) { c < 256 as char }

  /** The octets before UTF-8 is checked; nothing if some '%' is not followed by two digits. */
  function Decoded(value: string): Option<string>
  {
    if value == [] then Some([])
    else if value[0] != '%' then Prefixed(value[0], Decoded(value[1..]))
    else if |value| < 3 || HexValue(value[1]) == None || HexValue(value[2]) == None then None
    else Prefixed(OctetOf(value[1], value[2]), Decoded(value[3..]))
  }

  function OctetOf(high: char, low: char): char
    requires HexValue(high).Some? && HexValue(low).Some?
  {
    (16 * HexValue(high).value + HexValue(low).value) as char
  }

  function Prefixed(c: char, rest: Option<string>): Option<string>
  {
    if rest == None then None else Some([c] + rest.value)
  }

  /** Encode every octet except those that are kept as they are. */
  function Encoded(octets: string, keep: char -> bool, upper: bool): string
    requires forall c :: c in octets ==> IsByte(c)
  {
    if octets == [] then ""
    else
      var c := octets[0];
      assert octets[0] in octets && IsByte(c);
      (if keep(c) && c != '%' then [c] else ['%', HexDigit(c as int / 16, upper), HexDigit(c as int % 16, upper)])
      + Encoded(octets[1..], keep, upper)
  }

  lemma OctetOfDigits(c: char, upper: bool)
    requires IsByte(c)
    ensures var high, low := HexDigit(c as int / 16, upper), HexDigit(c as int % 16, upper);
            HexValue(high).Some? && HexValue(low).Some? && OctetOf(high, low) == c
  {
  }

  /** Decoding undoes encoding, for all octets, whatever is kept and in either case of digits. */
  lemma {:induction false} DecodingUndoesEncoding(octets: string, keep: char -> bool, upper: bool)
    requires forall c :: c in octets ==> IsByte(c)
    ensures Decoded(Encoded(octets, keep, upper)) == Some(octets)
    decreases |octets|
  {
    if octets != [] {
      var c := octets[0];
      var rest := Encoded(octets[1..], keep, upper);
      DecodingUndoesEncoding(octets[1..], keep, upper);
      assert octets == [c] + octets[1..];
      if keep(c) && c != '%' {
        assert ([c] + rest)[1..] == rest;
      } else {
        OctetOfDigits(c, upper);
        var code := ['%', HexDigit(c as int / 16, upper), HexDigit(c as int % 16, upper)];
        assert (code + rest)[3..] == rest;
      }
    }
  }

  /** Decoding fails exactly at a percent sign that two digits do not follow. */
  lemma {:induction false} DecodedIffWellFormed(value: string)
    ensures Decoded(value).Some? <==>
              forall i :: 0 <= i < |value| && value[i] == '%' ==>
                i + 2 < |value| && HexValue(value[i + 1]).Some? && HexValue(value[i + 2]).Some?
    decreases |value|
  {
    if value != [] {
      var n := if value[0] == '%' && |value| >= 3 && HexValue(value[1]).Some? && HexValue(value[2]).Some? then 3 else 1;
      DecodedIffWellFormed(value[n..]);
      assert forall i :: 0 <= i < |value| - n ==> value[n..][i] == value[n + i];
      assert n == 3 ==> value[1] != '%' && value[2] != '%';
    }
  }

  method PercentDecode(value: string, isUtf8: string -> bool) returns (r: Result<string, ()>)
    ensures r == match Decoded(value)
                 case None => Err(())
                 case Some(octets) => if isUtf8(octets) then Ok(octets) else Err(())
  {
    hide Decoded;
    var decoded: string := [];
    var index := 0;
    Joins([], Decoded(value));
    assert value[0..] == value;
    while index < |value|
      invariant index <= |value|
      invariant Decoded(value) == Joined(decoded, Decoded(value[index..]))
    {
      DecodeOne(value, index);
      if value[index] == '%' {
        if index + 2 >= |value| || HexValue(value[index + 1]) == None || HexValue(value[index + 2]) == None {
          return Err(());
        }
        Joins(decoded, Prefixed(OctetOf(value[index + 1], value[index + 2]), Decoded(value[index + 3..])));
        decoded := decoded + [OctetOf(value[index + 1], value[index + 2])];
        index := index + 3;
      } else {
        Joins(decoded, Prefixed(value[index], Decoded(value[index + 1..])));
        decoded := decoded + [value[index]];
        index := index + 1;
      }
    }
    DecodeNothing(value, decoded);
    return if isUtf8(decoded) then Ok(decoded) else Err(());
  }

  function Joined(done: string, rest: Option<string>): Option<string>
  {
    if rest == None then None else Some(done + rest.value)
  }

  lemma Joins(done: string, rest: Option<string>)
    ensures Joined("", rest) == rest
    ensures rest.Some? && rest.value != [] ==>
              Joined(done, rest) == Joined(done + [rest.value[0]], Some(rest.value[1..]))
  {
    if rest.Some? {
      assert [] + rest.value == rest.value;
      if rest.value != [] {
        assert done + rest.value == done + [rest.value[0]] + rest.value[1..];
      }
    }
  }

  lemma DecodeOne(value: string, index: nat)
    requires index < |value|
    ensures var rest := value[index..];
            Decoded(rest) ==
              if value[index] != '%' then Prefixed(value[index], Decoded(value[index + 1..]))
              else if index + 2 >= |value| || HexValue(value[index + 1]) == None || HexValue(value[index + 2]) == None
                      then None
              else Prefixed(OctetOf(value[index + 1], value[index + 2]), Decoded(value[index + 3..]))
  {
    assert value[index..][1..] == value[index + 1..];
    if index + 2 < |value| {
      assert value[index..][3..] == value[index + 3..];
    }
  }

  lemma DecodeNothing(value: string, decoded: string)
    ensures Joined(decoded, Decoded(value[|value|..])) == Some(decoded)
  {
    assert value[|value|..] == [] && decoded + [] == decoded;
  }

  // ---- Resolution ----

  const EXTERNAL_SCHEMES := ["http:", "https:", "data:", "mailto:", "tel:", "blob:"]

  predicate IsElsewhere(reference: string)
  {
    || reference == ""
    || reference[0] == '#'
    || StartsWith(reference, "//")
    || exists i :: 0 <= i < |EXTERNAL_SCHEMES| && StartsWith(AsciiLower(reference), EXTERNAL_SCHEMES[i])
  }

  predicate IsForbidden(reference: string)
  {
    || StartsWith(AsciiLower(reference), "javascript:")
    || StartsWith(AsciiLower(reference), "file:")
    || '\\' in reference
  }

  function WithoutSuffix(reference: string): string
  {
    if reference == "" || reference[0] == '?' || reference[0] == '#' then ""
       else [reference[0]] + WithoutSuffix(reference[1..])
  }

  /** The query and the fragment go, and nothing else. */
  lemma {:induction false} SuffixIsCut(reference: string)
    ensures var kept := WithoutSuffix(reference);
            && kept <= reference && '?' !in kept && '#' !in kept
            && (|kept| < |reference| ==> reference[|kept|] == '?' || reference[|kept|] == '#')
    decreases |reference|
  {
    if reference != "" {
      SuffixIsCut(reference[1..]);
      assert reference == [reference[0]] + reference[1..];
    }
  }

  function WithoutRoot(decoded: string): string
  {
    if StartsWith(decoded, "/") then WithoutRoot(decoded[1..]) else decoded
  }

  /** The directory of the referring page, as a stack. */
  function BaseOf(source: string, rooted: bool): seq<string>
  {
    if rooted || '/' !in source then []
    else
      var parts := Split(source, '/');
      parts[..|parts| - 1]
  }

  function PathOf(t: Text, source: string, decoded: string): Result<Option<string>, ()>
  {
    match Walked(Split(WithoutRoot(decoded), '/'), BaseOf(source, StartsWith(decoded, "/")))
    case None => Err(())
    case Some(stack) =>
      var resolved := t.nfc(Join(stack, '/'));
      if resolved == "" then Ok(Some("index.html"))
      else if ValidPath(t, resolved) then Ok(Some(resolved))
      else Err(())
  }

  /** Nothing for a reference that leaves the site, an error for one that must not occur, else a path. */
  function Resolution(t: Text, isUtf8: string -> bool, source: string, raw: string): Result<Option<string>, ()>
  {
    var reference := Trim(raw);
    if IsElsewhere(reference) then Ok(None)
    else if IsForbidden(reference) then Err(())
    else
      match Decoded(WithoutSuffix(reference))
      case None => Err(())
      case Some(decoded) => if isUtf8(decoded) then PathOf(t, source, decoded) else Err(())
  }

  method ResolveLocalReference(t: Text, isUtf8: string -> bool, source: string, raw: string)
    returns (r: Result<Option<string>, ()>)
    ensures r == Resolution(t, isUtf8, source, raw)
    ensures r.Ok? && r.value.Some? ==> r.value.value == "index.html" || ValidPath(t, r.value.value)
  {
    hide Walked, SafePath, ReservedPath, Decoded, IsElsewhere, IsForbidden;
    var reference := Trim(raw);
    if IsElsewhere(reference) {
      return Ok(None);
    }
    if IsForbidden(reference) {
      return Err(());
    }
    var octets := PercentDecode(WithoutSuffix(reference), isUtf8);
    if octets.Err? {
      return Err(());
    }
    var decoded := octets.value;
    var segments := BaseOf(source, StartsWith(decoded, "/"));
    var parts := Split(WithoutRoot(decoded), '/');
    ghost var base := segments;
    assert parts[0..] == parts;
    for i := 0 to |parts|
      invariant Walked(parts, base) == Walked(parts[i..], segments)
    {
      WalkOne(parts, i, segments);
      if Stays(parts[i]) {
      } else if parts[i] == ".." {
        if segments == [] {
          return Err(());
        }
        segments := segments[..|segments| - 1];
      } else {
        segments := segments + [parts[i]];
      }
    }
    WalkNothing(parts, segments);
    var resolved := t.nfc(Join(segments, '/'));
    if resolved == "" {
      return Ok(Some("index.html"));
    }
    return if ValidPath(t, resolved) then Ok(Some(resolved)) else Err(());
  }

  lemma WalkOne(parts: seq<string>, i: nat, stack: seq<string>)
    requires i < |parts|
    ensures Walked(parts[i..], stack) ==
              if Stays(parts[i]) then Walked(parts[i + 1..], stack)
              else if parts[i] == ".." then if stack == [] then None else Walked(parts[i + 1..], stack[..|stack| - 1])
              else Walked(parts[i + 1..], stack + [parts[i]])
  {
    assert parts[i..][1..] == parts[i + 1..];
  }

  lemma WalkNothing(parts: seq<string>, stack: seq<string>)
    ensures Walked(parts[|parts|..], stack) == Some(stack)
  {
  }

  // ---- Resolution against the standard ----

  /** Sections 5.2.2 and 5.2.3 of RFC 3986 for a reference that is only a path, on the page "/" + source. */
  function StandardPath(source: string, decoded: string): string
  {
    if decoded == "" then "/" + source
    else if StartsWith(decoded, "/") then RemoveDots(decoded, "")
    else RemoveDots(Absolute(BaseOf(source, false)) + "/" + decoded, "")
  }

  function SegmentsOf(decoded: string): (r: seq<string>)
    ensures r != []
  {
    Split(if StartsWith(decoded, "/") then decoded[1..] else decoded, '/')
  }

  ghost predicate PlainPage(source: string)
  {
    forall segment :: segment in Split(source, '/') ==> !IsEnding(segment)
  }

  lemma {:induction false} RootIsWalked(decoded: string, stack: seq<string>)
    ensures Walked(Split(WithoutRoot(decoded), '/'), stack) == Walked(Split(decoded, '/'), stack)
    decreases |decoded|
  {
    if StartsWith(decoded, "/") {
      RootIsWalked(decoded[1..], stack);
      RootIsEmpty(decoded);
    }
  }

  lemma RootIsEmpty(decoded: string)
    requires StartsWith(decoded, "/")
    ensures Split(decoded, '/') == [""] + Split(decoded[1..], '/')
  {
    SplitHead("", decoded[1..], '/');
    assert "" + ['/'] + decoded[1..] == decoded;
  }

  lemma SegmentsAreWalked(decoded: string, stack: seq<string>)
    ensures Walked(Split(WithoutRoot(decoded), '/'), stack) == Walked(SegmentsOf(decoded), stack)
  {
    RootIsWalked(decoded, stack);
    if StartsWith(decoded, "/") {
      RootIsEmpty(decoded);
    }
  }

  lemma {:induction false} NamesAreKept(names: seq<string>, segments: seq<string>, output: seq<string>)
    requires forall name :: name in names ==> !IsEnding(name)
    ensures Removed(names + segments, output) == Removed(segments, output + names)
    decreases |names|
  {
    if names == [] {
      assert [] + segments == segments && output + [] == output;
    } else {
      assert names[0] in names && (names + segments)[1..] == names[1..] + segments;
      NamesAreKept(names[1..], segments, output + [names[0]]);
      assert output + [names[0]] + names[1..] == output + names;
    }
  }

  /** The standard's answer, by segments. */
  lemma StandardIsRemoved(source: string, decoded: string)
    requires PlainPage(source) && decoded != ""
    ensures StandardPath(source, decoded) ==
              Absolute(Removed(SegmentsOf(decoded), BaseOf(source, StartsWith(decoded, "/"))))
    ensures Slashless(BaseOf(source, StartsWith(decoded, "/")))
  {
    var segments, base := SegmentsOf(decoded), BaseOf(source, StartsWith(decoded, "/"));
    AbsoluteIsJoin(segments);
    RemovesBySegment(base + segments, []);
    NamesAreKept(base, segments, []);
    assert [] + base == base;
    AbsoluteAppend(base, segments);
    hide RemoveDots, Removed, Absolute, Slashless;
    NothingIsAbsolute();
    if StartsWith(decoded, "/") {
      assert "/" + decoded[1..] == decoded && [] + segments == segments;
    } else {
      assert Absolute(base) + ("/" + decoded) == Absolute(base) + "/" + decoded;
    }
  }

  lemma NothingIsAbsolute()
    ensures Absolute([]) == ""
  {
  }

  /** Where a decoded path leads from a page: refused exactly when some prefix climbs above the root; else
      the path of the standard if and only if no segment is empty and the last is not a dot segment; that
      path with a trailing slash, if and only if none but the last is empty. A reference without a path
      is the page itself in the standard and the page's directory here. */
  lemma ResolutionAgreesIff(source: string, decoded: string)
    requires PlainPage(source)
    ensures var rooted := StartsWith(decoded, "/");
            var walked := Walked(Split(WithoutRoot(decoded), '/'), BaseOf(source, rooted));
            var segments := SegmentsOf(decoded);
            var init, last := segments[..|segments| - 1], segments[|segments| - 1];
            && (walked == None <==> Climbs(segments, |BaseOf(source, rooted)|))
            && (walked.Some? ==>
                  && (StandardPath(source, decoded) == Absolute(walked.value) <==> "" !in init && !IsEnding(last))
                  && (StandardPath(source, decoded) == Absolute(walked.value) + "/" <==>
                        decoded != "" && "" !in init && IsEnding(last)))
  {
    var base := BaseOf(source, StartsWith(decoded, "/"));
    var segments := SegmentsOf(decoded);
    SegmentsAreWalked(decoded, base);
    WalkRefusesClimbing(segments, base);
    var walked := Walked(segments, base);
    if walked.Some? {
      hide Walked, Removed, RemoveDots;
      if decoded == "" {
        assert segments == [""];
        PageIsNotItsDirectory(source);
        assert walked.value == base by {
          EmptyIsWalked(base);
        }
      } else {
        StandardIsRemoved(source, decoded);
        WalkAgreesIff(segments, base);
        WalkIsSlashless(segments, base);
        SamePath(Removed(segments, base), walked.value);
      }
    }
  }

  lemma {:induction false} NoNameIsEmpty(segments: seq<string>, stack: seq<string>)
    requires "" !in stack
    ensures Walked(segments, stack).Some? ==> "" !in Walked(segments, stack).value
    decreases |segments|
  {
    if segments != [] {
      if Stays(segments[0]) {
        NoNameIsEmpty(segments[1..], stack);
      } else if segments[0] != ".." {
        NoNameIsEmpty(segments[1..], stack + [segments[0]]);
      } else if stack != [] {
        NoNameIsEmpty(segments[1..], stack[..|stack| - 1]);
      }
    }
  }

  /** The same for the answer itself, for paths that normalisation leaves as they are: the path without its
      leading slash where the two agree, and "index.html" where the standard says "/". */
  lemma AnswerAgreesIff(t: Text, source: string, decoded: string)
    requires PlainPage(source)
    ensures var base := BaseOf(source, StartsWith(decoded, "/"));
            var walked := Walked(Split(WithoutRoot(decoded), '/'), base);
            var answer := PathOf(t, source, decoded);
            var segments := SegmentsOf(decoded);
            var init, last := segments[..|segments| - 1], segments[|segments| - 1];
            && (Climbs(segments, |base|) ==> answer == Err(()))
            && (walked.Some? && t.nfc(Join(walked.value, '/')) == Join(walked.value, '/') ==>
                  if walked.value == [] then
                    && answer == Ok(Some("index.html"))
                    && (StandardPath(source, decoded) == "/" <==> decoded != "" && "" !in init && IsEnding(last))
                  else
                    && (answer.Ok? <==> ValidPath(t, Join(walked.value, '/')))
                    && (answer.Ok? ==>
                         && answer.value.Some?
                         && ("/" + answer.value.value == StandardPath(source, decoded) <==>
                               "" !in init && !IsEnding(last))))
  {
    hide ValidPath, Climbs;
    ResolutionAgreesIff(source, decoded);
    var base := BaseOf(source, StartsWith(decoded, "/"));
    var walked := Walked(Split(WithoutRoot(decoded), '/'), base);
    assert "" !in base by {
      assert forall segment :: segment in base ==> segment in Split(source, '/');
    }
    NoNameIsEmpty(Split(WithoutRoot(decoded), '/'), base);
    hide Walked, RemoveDots, StandardPath;
    if walked.Some? {
      NothingIsAbsolute();
      if walked.value != [] {
        AbsoluteIsJoin(walked.value);
        JoinIsNotEmpty(walked.value);
      }
    }
  }

  lemma JoinIsNotEmpty(names: seq<string>)
    requires names != [] && "" !in names
    ensures Join(names, '/') != ""
  {
    assert names[0] in names;
  }

  lemma EmptyIsWalked(stack: seq<string>)
    ensures Walked([""], stack) == Some(stack)
  {
  }

  lemma SamePath(a: seq<string>, b: seq<string>)
    requires Slashless(a) && Slashless(b)
    ensures Absolute(a) == Absolute(b) <==> a == b
    ensures Absolute(a) == Absolute(b) + "/" <==> a == b + [""]
  {
    AbsoluteEnd(b, "");
    assert Absolute(b) + "/" + "" == Absolute(b) + "/";
    if Absolute(a) == Absolute(b) {
      AbsoluteIsInjective(a, b);
    }
    if Absolute(a) == Absolute(b) + "/" {
      AbsoluteIsInjective(a, b + [""]);
    }
  }

  lemma PageIsNotItsDirectory(source: string)
    requires PlainPage(source)
    ensures "/" + source != Absolute(BaseOf(source, false))
    ensures "/" + source != Absolute(BaseOf(source, false)) + "/"
  {
    var parts := Split(source, '/');
    var name := parts[|parts| - 1];
    assert name in parts && name != "";
    AbsoluteIsJoin(parts);
    AbsoluteEnd(parts[..|parts| - 1], name);
    assert parts[..|parts| - 1] + [name] == parts;
    assert BaseOf(source, false) == parts[..|parts| - 1];
    assert |"/" + source| == |Absolute(parts[..|parts| - 1])| + 1 + |name|;
  }

  const DETOUR := ["a", "", "..", "b"]

  /** A reference that resolves differently from the standard: to "/b" instead of "/a/b". */
  lemma EmptySegmentsDiffer()
    ensures Walked(Split(WithoutRoot("a//../b"), '/'), BaseOf("index.html", false)) == Some(["b"])
    ensures StandardPath("index.html", "a//../b") == "/a/b"
  {
    DetourIsSplit();
    IndexIsSplit();
    DetourIsWalked();
    DetourIsRemoved();
    hide RemoveDots, Removed, Walked, Split, Absolute;
    StandardIsRemoved("index.html", "a//../b");
  }

  lemma DetourIsSplit()
    ensures Split("a//../b", '/') == DETOUR
  {
    JoinTwo(DETOUR[2..]);
    JoinTwo(DETOUR[1..]);
    JoinTwo(DETOUR);
    assert DETOUR[1..][1..] == DETOUR[2..] && DETOUR[2..][1..] == ["b"];
    assert Join(["b"], '/') == "b";
    assert Join(DETOUR[2..], '/') == "../b";
    assert Join(DETOUR[1..], '/') == "/../b";
    assert Join(DETOUR, '/') == "a//../b";
    SplitJoin(DETOUR, '/');
  }

  lemma IndexIsSplit()
    ensures Split("index.html", '/') == ["index.html"] && BaseOf("index.html", false) == []
  {
    SplitJoin(["index.html"], '/');
  }

  lemma DetourIsWalked()
    ensures Walked(DETOUR, []) == Some(["b"])
  {
    NamesAreWalked(["b"], []);
    assert [] + ["b"] == ["b"];
    assert ["..", "b"][1..] == ["b"] && ["a"][..0] == [];
    assert Walked(["..", "b"], ["a"]) == Walked(["b"], []);
    assert ["", "..", "b"][1..] == ["..", "b"];
    assert Walked(["", "..", "b"], ["a"]) == Walked(["..", "b"], ["a"]);
    assert DETOUR[1..] == ["", "..", "b"] && [] + ["a"] == ["a"];
  }

  lemma DetourIsRemoved()
    ensures Absolute(Removed(DETOUR, [])) == "/a/b"
  {
    RemoveStep(DETOUR, []);
    RemoveStep(["", "..", "b"], ["a"]);
    RemoveStep(["..", "b"], ["a", ""]);
    RemoveStep(["b"], ["a"]);
    assert Removed(DETOUR, []) == ["a", "b"];
    assert ["a", "b"][1..] == ["b"];
  }

  lemma JoinTwo(pieces: seq<string>)
    requires |pieces| > 1
    ensures Join(pieces, '/') == pieces[0] + "/" + Join(pieces[1..], '/')
  {
  }

  lemma RemoveStep(segments: seq<string>, output: seq<string>)
    requires segments != [] && (|segments| > 1 || !IsEnding(segments[0]))
    ensures Removed(segments, output) ==
              Removed(segments[1..], if segments[0] == "." then output else if segments[0] == ".." then Dropped(output)
                else output + [segments[0]])
  {
  }

  // ---- Rooted, encoded paths ----

  predicate IsUnreserved(c: char)
  {
    'a' <= c <= 'z' || 'A' <= c <= 'Z' || '0' <= c <= '9' || c in "-._~/"
  }

  lemma {:induction false} NamesAreWalked(segments: seq<string>, stack: seq<string>)
    requires forall s :: s in segments ==> s !in ["", ".", ".."]
    ensures Walked(segments, stack) == Some(stack + segments)
    decreases |segments|
  {
    if segments == [] {
      assert stack + [] == stack;
    } else {
      assert segments[0] in segments;
      NamesAreWalked(segments[1..], stack + [segments[0]]);
      assert stack + [segments[0]] + segments[1..] == stack + segments;
    }
  }

  predicate IsPlain(c: char) { IsUnreserved(c) || c == '%' }

  lemma {:induction false} EncodedIsPlain(octets: string, upper: bool)
    requires forall c :: c in octets ==> IsByte(c)
    ensures forall c :: c in Encoded(octets, IsUnreserved, upper) ==> IsPlain(c)
    decreases |octets|
  {
    if octets != [] {
      EncodedIsPlain(octets[1..], upper);
      var c := octets[0];
      assert c in octets;
      assert IsPlain(HexDigit(c as int / 16, upper)) && IsPlain(HexDigit(c as int % 16, upper));
    }
  }

  lemma {:induction false} PlainHasNoSuffix(reference: string)
    requires forall c :: c in reference ==> IsPlain(c)
    ensures WithoutSuffix(reference) == reference
    decreases |reference|
  {
    if reference != [] {
      assert reference[0] in reference && reference == [reference[0]] + reference[1..];
      PlainHasNoSuffix(reference[1..]);
    }
  }

  lemma PlainIsTrimmed(reference: string)
    requires reference != [] && forall c :: c in reference ==> IsPlain(c)
    ensures Trim(reference) == reference
  {
    assert IsPlain(reference[0]) && IsPlain(reference[|reference| - 1]);
    assert SpaceAt(reference, 0) == 0;
    assert SpaceBefore(reference) == 0;
  }

  /** A single leading slash is neither another host nor a scheme. */
  lemma RootedIsLocal(reference: string)
    requires reference != [] && reference[0] == '/' && (|reference| > 1 ==> reference[1] != '/')
    requires forall c :: c in reference ==> IsPlain(c)
    ensures !IsElsewhere(reference) && !IsForbidden(reference)
  {
    var lower := AsciiLower(reference);
    PrefixAgrees(reference, "//", 1);
    PrefixAgrees(lower, "javascript:", 0);
    PrefixAgrees(lower, "file:", 0);
    forall i | 0 <= i < |EXTERNAL_SCHEMES|
      ensures !StartsWith(lower, EXTERNAL_SCHEMES[i])
    {
      PrefixAgrees(lower, EXTERNAL_SCHEMES[i], 0);
    }
  }

  lemma EncodedStart(path: string, upper: bool)
    requires path != [] && path[0] != '/' && forall c :: c in path ==> IsByte(c)
    ensures Encoded(path, IsUnreserved, upper) != [] && Encoded(path, IsUnreserved, upper)[0] != '/'
  {
  }

  lemma DecodedRoot(path: string, upper: bool)
    requires forall c :: c in path ==> IsByte(c)
    ensures Decoded("/" + Encoded(path, IsUnreserved, upper)) == Some("/" + path)
  {
    DecodingUndoesEncoding(path, IsUnreserved, upper);
    var rest := Encoded(path, IsUnreserved, upper);
    assert ("/" + rest)[1..] == rest;
  }

  lemma RootedPath(t: Text, source: string, path: string)
    requires ValidPath(t, path)
    ensures PathOf(t, source, "/" + path) == Ok(Some(path))
  {
    var decoded := "/" + path;
    assert decoded[1..] == path;
    PrefixAgrees(path, "/", 0);
    assert WithoutRoot(decoded) == path;
    var segments := Split(path, '/');
    assert forall s :: s in segments ==> ValidSegment(s);
    hide ReservedPath, WindowsReserved;
    NamesAreWalked(segments, []);
    assert [] + segments == segments;
  }

  /** A rooted reference to a valid path, fully encoded, resolves to that path from every source. */
  lemma RootedEncodedPathResolvesToItself(t: Text, isUtf8: string -> bool, source: string, path: string, upper: bool)
    requires ValidPath(t, path) && isUtf8("/" + path) && forall c :: c in path ==> IsByte(c)
    ensures Resolution(t, isUtf8, source, "/" + Encoded(path, IsUnreserved, upper)) == Ok(Some(path))
  {
    var reference := "/" + Encoded(path, IsUnreserved, upper);
    EncodedIsPlain(path, upper);
    PlainIsTrimmed(reference);
    EncodedStart(path, upper);
    RootedIsLocal(reference);
    PlainHasNoSuffix(reference);
    DecodedRoot(path, upper);
    RootedPath(t, source, path);
    hide PathOf, Decoded, IsElsewhere, IsForbidden, WithoutSuffix, Encoded;
  }
}
