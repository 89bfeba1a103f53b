/** Dot segments: the walk of resolve_local_reference in change_set.rs against remove_dot_segments of
    section 5.2.4 of RFC 3986. */
module DotSegments {
  import opened Base
  import opened Paths

  predicate Stays(segment: string) { segment == "" || segment == "." }

  /** Resolve segments against a stack of directory names; nothing when that climbs above the root. */
  function Walked(segments: seq<string>, stack: seq<string>): Option<seq<string>>
    decreases |segments|
  {
    if segments == [] then Some(stack)
    else if Stays(segments[0]) then Walked(segments[1..], stack)
    else if segments[0] == ".." then
      if stack == [] then None else Walked(segments[1..], stack[..|stack| - 1])
    else Walked(segments[1..], stack + [segments[0]])
  }

  /** How deep the segments lead, starting `depth` below the root. */
  function Depth(segments: seq<string>, depth: int): int
    decreases |segments|
  {
    if segments == [] then depth
    else
      Depth(segments[..|segments| - 1], depth)
      + (if Stays(segments[|segments| - 1]) then 0 else if segments[|segments| - 1] == ".." then -1 else 1)
  }

  ghost predicate Climbs(segments: seq<string>, depth: int)
  {
    exists k :: 0 <= k <= |segments| && Depth(segments[..k], depth) < 0
  }

  function Shift(segment: string): int { if Stays(segment) then 0 else if segment == ".." then -1 else 1 }

  lemma {:induction false} DepthFromFront(segments: seq<string>, depth: int)
    requires segments != []
    ensures Depth(segments, depth) == Depth(segments[1..], depth + Shift(segments[0]))
    decreases |segments|
  {
    var n := |segments| - 1;
    if n == 0 {
      assert segments[..0] == [] && segments[1..] == [];
      assert Depth(segments, depth) == depth + Shift(segments[0]);
    } else {
      DepthFromFront(segments[..n], depth);
      assert segments[..n][1..] == segments[1..][..n - 1];
      assert segments[1..][n - 1] == segments[n];
    }
  }

  lemma ClimbsFromFront(segments: seq<string>, depth: nat)
    requires segments != []
    ensures Climbs(segments, depth) <==> Climbs(segments[1..], depth + Shift(segments[0]))
  {
    var rest, shifted := segments[1..], depth + Shift(segments[0]);
    if Climbs(segments, depth) {
      var k :| 0 <= k <= |segments| && Depth(segments[..k], depth) < 0;
      assert k > 0;
      DepthFromFront(segments[..k], depth);
      assert segments[..k][1..] == rest[..k - 1];
    }
    if Climbs(rest, shifted) {
      var k :| 0 <= k <= |rest| && Depth(rest[..k], shifted) < 0;
      DepthFromFront(segments[..k + 1], depth);
      assert segments[..k + 1][1..] == rest[..k];
    }
  }

  /** Resolution is refused exactly when some prefix of the segments climbs above the root. */
  lemma {:induction false} WalkRefusesClimbing(segments: seq<string>, stack: seq<string>)
    ensures Walked(segments, stack) == None <==> Climbs(segments, |stack|)
    decreases |segments|
  {
    if segments == [] {
      assert !Climbs([], |stack|);
    } else {
      ClimbsFromFront(segments, |stack|);
      if Stays(segments[0]) {
        WalkRefusesClimbing(segments[1..], stack);
      } else if segments[0] != ".." {
        WalkRefusesClimbing(segments[1..], stack + [segments[0]]);
      } else if stack != [] {
        WalkRefusesClimbing(segments[1..], stack[..|stack| - 1]);
      } else {
        assert segments[1..][..0] == [];
        assert Depth(segments[1..][..0], -1) < 0;
      }
    }
  }

  // ---- The standard ----

  /** Step E: the first segment of the input, with its slash if it has one. */
  function SegmentEnd(input: string): (n: nat)
    requires input != ""
    ensures 0 < n <= |input|
  {
    if '/' in input[1..] then 1 + IndexOf(input[1..], '/') else |input|
  }

  /** The output without its last segment and that segment's slash. */
  function Popped(output: string): string
  {
    if output == "" then ""
    else if output[|output| - 1] == '/' then output[..|output| - 1]
    else Popped(output[..|output| - 1])
  }

  /** The loop of section 5.2.4, step by step, on the input and the output buffer. */
  function RemoveDots(input: string, output: string): string
    decreases |input|
  {
    if input == "" then output
    else if StartsWith(input, "../") then RemoveDots(input[3..], output)          // A
    else if StartsWith(input, "./") then RemoveDots(input[2..], output)           // A
    else if StartsWith(input, "/./") then RemoveDots(input[2..], output)          // B
    else if input == "/." then RemoveDots("/", output)                            // B
    else if StartsWith(input, "/../") then RemoveDots(input[3..], Popped(output)) // C
    else if input == "/.." then RemoveDots("/", Popped(output))                   // C
    else if input == "." || input == ".." then output                             // D
    else RemoveDots(input[SegmentEnd(input)..], output + input[..SegmentEnd(input)])  // E
  }

  function Absolute(segments: seq<string>): string
  {
    if segments == [] then "" else "/" + segments[0] + Absolute(segments[1..])
  }

  /** The same loop on the segments of an absolute path: an empty segment is kept and popped like any
      other, and a dot segment at the end leaves an empty one. */
  function Removed(segments: seq<string>, output: seq<string>): seq<string>
    decreases |segments|
  {
    if segments == [] then output
    else if segments[0] == "." then
      if |segments| == 1 then output + [""] else Removed(segments[1..], output)
    else if segments[0] == ".." then
      if |segments| == 1 then Dropped(output) + [""] else Removed(segments[1..], Dropped(output))
    else Removed(segments[1..], output + [segments[0]])
  }

  function Dropped(output: seq<string>): seq<string> { if output == [] then [] else output[..|output| - 1] }

  ghost predicate Slashless(segments: seq<string>) { forall segment :: segment in segments ==> '/' !in segment }

  lemma {:induction false} AbsoluteAppend(segments: seq<string>, more: seq<string>)
    ensures Absolute(segments + more) == Absolute(segments) + Absolute(more)
    decreases |segments|
  {
    if segments == [] {
      assert [] + more == more;
    } else {
      AbsoluteAppend(segments[1..], more);
      assert (segments + more)[1..] == segments[1..] + more;
    }
  }

  lemma {:induction false} PoppedSegment(before: string, segment: string)
    requires '/' !in segment
    ensures Popped(before + "/" + segment) == before
    decreases |segment|
  {
    var output := before + "/" + segment;
    if segment == "" {
      assert output == before + "/";
    } else {
      var shorter := segment[..|segment| - 1];
      PoppedSegment(before, shorter);
      assert output[..|output| - 1] == before + "/" + shorter;
    }
  }

  lemma PoppedIsDropped(output: seq<string>)
    requires Slashless(output)
    ensures Popped(Absolute(output)) == Absolute(Dropped(output))
  {
    if output != [] {
      var last := output[|output| - 1];
      assert output == Dropped(output) + [last];
      AbsoluteAppend(Dropped(output), [last]);
      assert Absolute([last]) == "/" + last;
      assert Absolute(output) == Absolute(Dropped(output)) + "/" + last;
      PoppedSegment(Absolute(Dropped(output)), last);
    }
  }

  lemma AbsoluteStart(segments: seq<string>)
    ensures Absolute(segments) == "" || Absolute(segments)[0] == '/'
  {
  }

  lemma PrefixAgrees(s: string, start: string, k: nat)
    requires k < |start|
    ensures StartsWith(s, start) ==> k < |s| && s[k] == start[k]
  {
  }

  /** One round of the loop on an absolute input. */
  lemma RemoveOne(segment: string, rest: string, output: string)
    requires '/' !in segment && (rest == "" || rest[0] == '/')
    ensures var input := "/" + segment + rest;
            RemoveDots(input, output) ==
              if segment == "." then RemoveDots(if rest == "" then "/" else rest, output)
              else if segment == ".." then RemoveDots(if rest == "" then "/" else rest, Popped(output))
              else RemoveDots(rest, output + "/" + segment)
  {
    var input := "/" + segment + rest;
    PrefixAgrees(input, "../", 0);
    PrefixAgrees(input, "./", 0);
    PrefixAgrees(input, "/./", 1);
    PrefixAgrees(input, "/./", 2);
    if segment == "." {
      RemoveHere(rest, output);
    } else if segment == ".." {
      RemoveUp(rest, output);
    } else {
      NotDots(segment, rest);
      FirstSegment(segment, rest);
      assert output + ("/" + segment) == output + "/" + segment;
    }
  }

  lemma RemoveHere(rest: string, output: string)
    requires rest == "" || rest[0] == '/'
    ensures RemoveDots("/." + rest, output) == RemoveDots(if rest == "" then "/" else rest, output)
  {
    var input := "/." + rest;
    PrefixAgrees(input, "../", 0);
    PrefixAgrees(input, "./", 0);
    if rest != "" {
      assert input == "/./" + rest[1..] && input[2..] == rest;
    } else {
      assert input == "/.";
    }
  }

  lemma RemoveUp(rest: string, output: string)
    requires rest == "" || rest[0] == '/'
    ensures RemoveDots("/.." + rest, output) == RemoveDots(if rest == "" then "/" else rest, Popped(output))
  {
    var input := "/.." + rest;
    PrefixAgrees(input, "../", 0);
    PrefixAgrees(input, "./", 0);
    PrefixAgrees(input, "/./", 2);
    if rest != "" {
      assert input == "/../" + rest[1..] && input[3..] == rest;
    } else {
      assert input == "/..";
    }
  }

  lemma NotDots(segment: string, rest: string)
    requires '/' !in segment && (rest == "" || rest[0] == '/') && segment != "." && segment != ".."
    ensures var input := "/" + segment + rest;
            && !StartsWith(input, "/./") && input != "/." && !StartsWith(input, "/../") && input != "/.."
            && !StartsWith(input, "../") && !StartsWith(input, "./") && input != "." && input != ".."
  {
    var input := "/" + segment + rest;
    assert input[0] == '/';
    assert forall k :: 0 <= k < |segment| ==> input[k + 1] == segment[k] && segment[k] != '/';
    assert rest != "" ==> input[|segment| + 1] == '/';
    if |segment| == 1 {
      assert segment == [segment[0]];
    } else if |segment| == 2 {
      assert segment == [segment[0], segment[1]];
    }
    PrefixAgrees(input, "../", 0);
    PrefixAgrees(input, "./", 0);
    PrefixAgrees(input, "/./", 1);
    PrefixAgrees(input, "/./", 2);
    PrefixAgrees(input, "/../", 1);
    PrefixAgrees(input, "/../", 2);
    PrefixAgrees(input, "/../", 3);
  }

  lemma FirstSegment(segment: string, rest: string)
    requires '/' !in segment && (rest == "" || rest[0] == '/')
    ensures var input := "/" + segment + rest;
            SegmentEnd(input) == 1 + |segment| && input[..1 + |segment|] == "/" + segment
              && input[1 + |segment|..] == rest
  {
    var input := "/" + segment + rest;
    assert input[1..] == segment + rest;
    if rest == "" {
      assert input[1..] == segment;
    } else {
      assert (segment + rest)[|segment|] == '/';
      assert forall k :: 0 <= k < |segment| ==> (segment + rest)[k] == segment[k];
    }
  }

  /** On an absolute path the loop of the standard works segment by segment. */
  lemma {:induction false} RemovesBySegment(segments: seq<string>, output: seq<string>)
    requires Slashless(segments) && Slashless(output)
    ensures RemoveDots(Absolute(segments), Absolute(output)) == Absolute(Removed(segments, output))
    decreases |segments|
  {
    if segments != [] {
      var first, rest := segments[0], segments[1..];
      assert first in segments && Slashless(rest);
      AbsoluteStart(rest);
      RemoveOne(first, Absolute(rest), Absolute(output));
      PoppedIsDropped(output);
      var next := if first == "." then output else if first == ".." then Dropped(output) else output + [first];
      assert Slashless(next);
      hide RemoveDots, Slashless;
      if first != "." && first != ".." {
        AbsoluteEnd(output, first);
        RemovesBySegment(rest, next);
      } else if rest == [] {
        AbsoluteEnd(next, "");
        RemoveOne("", "", Absolute(next));
        assert "/" + "" + "" == "/";
      } else {
        assert Absolute(rest) != "";
        RemovesBySegment(rest, next);
      }
    }
  }

  lemma AbsoluteEnd(segments: seq<string>, last: string)
    ensures Absolute(segments + [last]) == Absolute(segments) + "/" + last
  {
    AbsoluteAppend(segments, [last]);
    assert [last][1..] == [];
    assert Absolute([last]) == "/" + last + "" == "/" + last;
    assert Absolute(segments) + ("/" + last) == Absolute(segments) + "/" + last;
  }

  // ---- The walk against the standard ----

  /** What the standard keeps and the walk does not. */
  function Empties(segments: seq<string>): nat
  {
    if segments == [] then 0
    else if |segments| == 1 then if IsEnding(segments[0]) then 1 else 0
    else (if segments[0] == "" then 1 else 0) + Empties(segments[1..])
  }

  predicate IsEnding(segment: string) { segment == "" || segment == "." || segment == ".." }

  /** Every segment the standard keeps beyond those of the walk is an empty one. */
  lemma {:induction false} RemovedIsLonger(segments: seq<string>, stack: seq<string>, output: seq<string>)
    requires Walked(segments, stack).Some? && |stack| <= |output|
    ensures |Removed(segments, output)| == |Walked(segments, stack).value| + |output| - |stack| + Empties(segments)
    decreases |segments|
  {
    if segments == [] {
    } else if segments[0] == "" {
      RemovedIsLonger(segments[1..], stack, output + [""]);
    } else if segments[0] == "." {
      RemovedIsLonger(segments[1..], stack, output);
    } else if segments[0] == ".." {
      RemovedIsLonger(segments[1..], stack[..|stack| - 1], Dropped(output));
    } else {
      RemovedIsLonger(segments[1..], stack + [segments[0]], output + [segments[0]]);
    }
  }

  /** No segment but possibly the last is empty, and then only that one is kept. */
  lemma {:induction false} RemovedIsWalked(segments: seq<string>, stack: seq<string>)
    requires Walked(segments, stack).Some? && segments != [] && "" !in segments[..|segments| - 1]
    ensures Removed(segments, stack) ==
              Walked(segments, stack).value + if IsEnding(segments[|segments| - 1]) then [""] else []
    decreases |segments|
  {
    var first, rest := segments[0], segments[1..];
    var next := if Stays(first) then stack else if first == ".." then stack[..|stack| - 1] else stack + [first];
    assert Walked(segments, stack) == Walked(rest, next);
    if rest == [] {
      assert segments[|segments| - 1] == first;
    } else {
      assert first == segments[..|segments| - 1][0];
      assert rest[..|rest| - 1] == segments[..|segments| - 1][1..];
      RemovedIsWalked(rest, next);
    }
  }

  lemma {:induction false} EmptiesCount(segments: seq<string>)
    requires segments != []
    ensures var init := segments[..|segments| - 1];
            && (Empties(segments) == 0 <==> "" !in init && !IsEnding(segments[|segments| - 1]))
            && (IsEnding(segments[|segments| - 1]) ==> (Empties(segments) == 1 <==> "" !in init))
            && (IsEnding(segments[|segments| - 1]) ==> Empties(segments) >= 1)
    decreases |segments|
  {
    if |segments| > 1 {
      EmptiesCount(segments[1..]);
      assert segments[..|segments| - 1] == [segments[0]] + segments[1..][..|segments| - 2];
    }
  }

  lemma {:induction false} RemovedEnds(segments: seq<string>, output: seq<string>)
    requires segments != []
    ensures var r := Removed(segments, output);
            r != [] && (r[|r| - 1] == "" <==> IsEnding(segments[|segments| - 1]))
    decreases |segments|
  {
    if |segments| > 1 {
      var first := segments[0];
      RemovedEnds(segments[1..], if first == "." then output else if first == ".." then Dropped(output)
        else output + [first]);
    }
  }

  /** When the walk succeeds it agrees with the standard if and only if no segment is empty and the last
      is not a dot segment; up to a trailing slash, if and only if none but the last is empty. */
  lemma WalkAgreesIff(segments: seq<string>, stack: seq<string>)
    requires Walked(segments, stack).Some? && segments != []
    ensures var walked := Walked(segments, stack).value;
            var init, last := segments[..|segments| - 1], segments[|segments| - 1];
            && (Removed(segments, stack) == walked <==> "" !in init && !IsEnding(last))
            && (Removed(segments, stack) == walked + [""] <==> "" !in init && IsEnding(last))
  {
    var walked := Walked(segments, stack).value;
    var init := segments[..|segments| - 1];
    RemovedIsLonger(segments, stack, stack);
    EmptiesCount(segments);
    if "" !in init {
      RemovedIsWalked(segments, stack);
    }
    if Removed(segments, stack) == walked + [""] {
      RemovedEnds(segments, stack);
      assert (walked + [""])[|walked|] == "";
    }
  }

  lemma {:induction false} AbsoluteIsJoin(segments: seq<string>)
    requires segments != []
    ensures Absolute(segments) == "/" + Join(segments, '/')
    decreases |segments|
  {
    if |segments| > 1 {
      AbsoluteIsJoin(segments[1..]);
    } else {
      assert segments[1..] == [];
    }
  }

  lemma AbsoluteIsInjective(a: seq<string>, b: seq<string>)
    requires Slashless(a) && Slashless(b) && Absolute(a) == Absolute(b)
    ensures a == b
  {
    if a != [] && b != [] {
      AbsoluteIsJoin(a);
      AbsoluteIsJoin(b);
      assert Join(a, '/') == Absolute(a)[1..] == Absolute(b)[1..] == Join(b, '/');
      SplitJoin(a, '/');
      SplitJoin(b, '/');
    }
  }

  lemma {:induction false} WalkIsSlashless(segments: seq<string>, stack: seq<string>)
    requires Slashless(segments) && Slashless(stack)
    ensures Walked(segments, stack).Some? ==> Slashless(Walked(segments, stack).value)
    ensures Slashless(Removed(segments, stack))
    decreases |segments|
  {
    if segments != [] {
      var first, rest := segments[0], segments[1..];
      assert first in segments && Slashless(rest);
      WalkIsSlashless(rest, stack);
      WalkIsSlashless(rest, Dropped(stack));
      WalkIsSlashless(rest, stack + [first]);
    }
  }
}
