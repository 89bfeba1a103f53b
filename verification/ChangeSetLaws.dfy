/** What a validated ChangeSet promises: it applies, in any order, to one result; it can be undone; and
    the site grows by no more than the generated bytes. */
module ChangeSetLaws {
  import opened Base
  import opened Paths
  import opened ChangeSet
  import opened ChangeSetApply

  // ---- The meaning of a list of operations, without an order ----

  predicate Touches(op: Operation, path: string)
  {
    if op.Rename? then path == op.from || path == op.to else path == op.path
  }

  ghost predicate Achieved(op: Operation, before: Files, after: Files)
  {
    match op
    case CreateText(path, _, content) => At(after, path) == Some(content)
    case ReplaceText(path, _, _, content) => At(after, path) == Some(content)
    case Rename(from, to, _) => At(after, from) == None && At(after, to) == At(before, from)
    case Delete(path, _) => At(after, path) == None
  }

  ghost predicate Untouched(ops: seq<Operation>, path: string)
  {
    forall op :: op in ops ==> !Touches(op, path)
  }

  /** Every operation took effect on the original files, and nothing else changed. */
  ghost predicate IsEffect(ops: seq<Operation>, before: Files, after: Files)
  {
    && (forall op :: op in ops ==> Achieved(op, before, after))
    && (forall path :: Untouched(ops, path) ==> At(after, path) == At(before, path))
  }

  lemma EffectIsUnique(ops: seq<Operation>, other: seq<Operation>, before: Files, after: Files, also: Files)
    requires forall op :: op in ops <==> op in other
    requires IsEffect(ops, before, after) && IsEffect(other, before, also)
    ensures after == also
  {
    forall path
      ensures At(after, path) == At(also, path)
    {
      if Untouched(ops, path) {
        assert Untouched(other, path);
      } else {
        var op :| op in ops && Touches(op, path);
        assert Achieved(op, before, after) && Achieved(op, before, also);
      }
    }
    SameAt(after, also);
  }

  lemma SameAt(files: Files, other: Files)
    requires forall path :: At(files, path) == At(other, path)
    ensures files == other
  {
    forall path
      ensures path in files <==> path in other
      ensures path in files ==> files[path] == other[path]
    {
      assert At(files, path) == At(other, path);
    }
  }

  // ---- A validated ChangeSet cannot fail to apply ----

  ghost predicate Ready(t: Text, ops: seq<Operation>, accepted: Files)
  {
    CollisionFree(t, accepted) && GraphIsSound(t, ops) && AllFit(t, ops, accepted)
  }

  lemma OthersDoNotTouch(t: Text, ops: seq<Operation>, n: nat, path: string)
    requires OwnedOnce(t, ops) && n < |ops| && Touches(ops[n], path)
    ensures Untouched(ops[..n], path)
  {
    forall op | op in ops[..n]
      ensures !Touches(op, path)
    {
      var i :| 0 <= i < n && ops[i] == op;
      if Touches(op, path) {
        assert Claimed(t, ops[i], t.fold(path)) && Claimed(t, ops[n], t.fold(path));
      }
    }
  }

  lemma ReadyPrefix(t: Text, ops: seq<Operation>, accepted: Files, n: nat)
    requires Ready(t, ops, accepted) && n <= |ops|
    ensures Ready(t, ops[..n], accepted)
  {
    OwnedBefore(t, ops, n);
  }

  lemma StepTakesEffect(t: Text, ops: seq<Operation>, accepted: Files, files: Files)
    requires Ready(t, ops, accepted) && ops != []
    requires IsEffect(ops[..|ops| - 1], accepted, files)
    ensures ApplyOne(ops[|ops| - 1], files).Some?
    ensures IsEffect(ops, accepted, ApplyOne(ops[|ops| - 1], files).value)
    ensures ChangeOf(t, ops[|ops| - 1], files) == ChangeOf(t, ops[|ops| - 1], accepted)
  {
    var n := |ops| - 1;
    var op := ops[n];
    forall path | Touches(op, path)
      ensures At(files, path) == At(accepted, path)
    {
      OthersDoNotTouch(t, ops, n, path);
    }
    assert Fits(t, op, accepted);
    if op.Rename? {
      assert Touches(op, op.from) && Touches(op, op.to) && !MovesOntoItself(t, op);
    } else {
      assert Touches(op, op.path);
    }
    var after := ApplyOne(op, files).value;
    forall x | x in ops
      ensures Achieved(x, accepted, after)
    {
      var i :| 0 <= i <= n && ops[i] == x;
      if i < n {
        assert x in ops[..n] && Achieved(x, accepted, files);
        EarlierSurvives(t, ops, i, accepted, files);
      }
    }
    forall path | Untouched(ops, path)
      ensures At(after, path) == At(accepted, path)
    {
      assert Untouched(ops[..n], path) && !Touches(op, path);
    }
  }

  lemma EarlierSurvives(t: Text, ops: seq<Operation>, i: nat, accepted: Files, files: Files)
    requires OwnedOnce(t, ops) && i < |ops| - 1 && Achieved(ops[i], accepted, files)
    requires ApplyOne(ops[|ops| - 1], files).Some?
    ensures Achieved(ops[i], accepted, ApplyOne(ops[|ops| - 1], files).value)
  {
    var op := ops[|ops| - 1];
    var after := ApplyOne(op, files).value;
    forall path | Touches(ops[i], path)
      ensures At(after, path) == At(files, path)
    {
      if Touches(op, path) {
        assert Claimed(t, ops[i], t.fold(path)) && Claimed(t, op, t.fold(path));
      }
    }
    if ops[i].Rename? {
      assert Touches(ops[i], ops[i].from) && Touches(ops[i], ops[i].to);
    } else {
      assert Touches(ops[i], ops[i].path);
    }
  }

  lemma {:induction false} ApplyTakesEffect(t: Text, ops: seq<Operation>, accepted: Files)
    requires Ready(t, ops, accepted)
    ensures Apply(ops, accepted).Some? && IsEffect(ops, accepted, Apply(ops, accepted).value)
    ensures Changes(t, ops, accepted) == seq(|ops|, i requires 0 <= i < |ops| => ChangeOf(t, ops[i], accepted))
    decreases |ops|
  {
    if ops != [] {
      var n := |ops| - 1;
      ReadyPrefix(t, ops, accepted, n);
      ApplyTakesEffect(t, ops[..n], accepted);
      StepTakesEffect(t, ops, accepted, Apply(ops[..n], accepted).value);
    }
  }

  lemma EffectHasNoCollision(t: Text, ops: seq<Operation>, accepted: Files, after: Files)
    requires Ready(t, ops, accepted) && IsEffect(ops, accepted, after)
    ensures CollisionFree(t, after)
  {
    forall p, q | p in after && q in after && t.fold(p) == t.fold(q)
      ensures p == q
    {
      if !Untouched(ops, p) {
        MadeIsAlone(t, ops, accepted, after, p, q);
      } else if !Untouched(ops, q) {
        MadeIsAlone(t, ops, accepted, after, q, p);
      } else {
        assert At(after, p) == At(accepted, p) && At(after, q) == At(accepted, q);
      }
    }
  }

  /** A path an operation left behind shares its folded form with no other path of the result. */
  lemma MadeIsAlone(t: Text, ops: seq<Operation>, accepted: Files, after: Files, p: string, q: string)
    requires Ready(t, ops, accepted) && IsEffect(ops, accepted, after)
    requires p in after && q in after && t.fold(p) == t.fold(q) && !Untouched(ops, p)
    ensures p == q
  {
    var op :| op in ops && Touches(op, p);
    assert Achieved(op, accepted, after) && Fits(t, op, accepted);
    if Untouched(ops, q) {
      assert At(after, q) == At(accepted, q);
    } else {
      var other :| other in ops && Touches(other, q);
      assert Achieved(other, accepted, after);
      SharedFold(t, ops, op, other, t.fold(p));
    }
    assert !MovesOntoItself(t, op);
  }

  lemma SharedFold(t: Text, ops: seq<Operation>, op: Operation, other: Operation, folded: string)
    requires OwnedOnce(t, ops) && op in ops && other in ops
    requires Claimed(t, op, folded) && Claimed(t, other, folded)
    ensures op == other
  {
    var i :| 0 <= i < |ops| && ops[i] == op;
    var j :| 0 <= j < |ops| && ops[j] == other;
    assert Claimed(t, ops[i], folded) && Claimed(t, ops[j], folded);
  }

  /** Once the path, graph and precondition checks pass, application succeeds, the collision check that
      follows it passes, and the audit records speak of the Accepted files whatever the order. */
  lemma ValidatedCannotFail(t: Text, ops: seq<Operation>, accepted: Files)
    requires Ready(t, ops, accepted)
    ensures Apply(ops, accepted).Some? && IsEffect(ops, accepted, Apply(ops, accepted).value)
    ensures CollisionFree(t, Apply(ops, accepted).value)
    ensures forall i :: 0 <= i < |ops| ==>
              |Changes(t, ops, accepted)| == |ops| && Changes(t, ops, accepted)[i] == ChangeOf(t, ops[i], accepted)
  {
    ApplyTakesEffect(t, ops, accepted);
    EffectHasNoCollision(t, ops, accepted, Apply(ops, accepted).value);
  }

  function SourceOf(op: Operation): string { if op.Rename? then op.from else op.path }

  function TargetOf(op: Operation): string { if op.Rename? then op.to else op.path }

  /** The audit records, one for each operation in its place: the kind, the path it left, and the hashes of what
      was there in the Accepted files and of what is there in the result. */
  lemma ChangesSay(t: Text, ops: seq<Operation>, accepted: Files, i: nat)
    requires Ready(t, ops, accepted) && i < |ops|
    ensures Apply(ops, accepted).Some?
    ensures var after := Apply(ops, accepted).value;
            var op := ops[i];
            && |Changes(t, ops, accepted)| == |ops|
            && var c := Changes(t, ops, accepted)[i];
               && c.path == TargetOf(op)
               && c.from == (if op.Rename? then Some(op.from) else None)
               && c.before == HashAt(t, accepted, SourceOf(op)) && c.after == HashAt(t, after, TargetOf(op))
               && (c.kind == Created <==> SourceOf(op) !in accepted)
               && (c.kind == Deleted <==> TargetOf(op) !in after)
               && (c.kind == Renamed <==> SourceOf(op) != TargetOf(op))
  {
    ValidatedCannotFail(t, ops, accepted);
    var after := Apply(ops, accepted).value;
    assert Achieved(ops[i], accepted, after) && Fits(t, ops[i], accepted);
    assert ops[i] in ops && !MovesOntoItself(t, ops[i]);
    hide Apply, Changes, IsEffect, CollisionFree;
  }

  // ---- Order does not matter ----

  /** All that parse_and_apply_change_set asks of paths, operations, graph and preconditions. */
  ghost predicate Accepts(t: Text, ops: seq<Operation>, accepted: Files)
  {
    Ready(t, ops, accepted) && OperationsAreValid(t, ops)
  }

  lemma {:induction false} RepeatedHasTwoPlaces(ops: seq<Operation>, op: Operation)
    requires multiset(ops)[op] >= 2
    ensures exists i, j :: 0 <= i < j < |ops| && ops[i] == op && ops[j] == op
    decreases |ops|
  {
    var n := |ops| - 1;
    assert ops == ops[..n] + [ops[n]];
    if multiset(ops[..n])[op] >= 2 {
      RepeatedHasTwoPlaces(ops[..n], op);
      var i, j :| 0 <= i < j < n && ops[..n][i] == op && ops[..n][j] == op;
      assert ops[i] == op && ops[j] == op;
    } else {
      assert op in ops[..n];
      var i :| 0 <= i < n && ops[..n][i] == op;
      assert ops[i] == op && ops[n] == op;
    }
  }

  lemma TwoPlacesRepeat(ops: seq<Operation>, i: nat, j: nat)
    requires i < j < |ops| && ops[i] == ops[j]
    ensures multiset(ops)[ops[i]] >= 2
  {
    assert ops == ops[..j] + [ops[j]] + ops[j + 1..];
    assert ops[..j][i] == ops[i] && ops[i] in multiset(ops[..j]);
  }

  lemma RepeatedIsNotOwned(t: Text, ops: seq<Operation>, op: Operation)
    requires multiset(ops)[op] >= 2
    ensures !OwnedOnce(t, ops)
  {
    RepeatedHasTwoPlaces(ops, op);
    var i, j :| 0 <= i < j < |ops| && ops[i] == op && ops[j] == op;
    var folded := t.fold(Claims(op)[0]);
    assert Claimed(t, ops[i], folded) && Claimed(t, ops[j], folded);
  }

  lemma OwnershipIsUnordered(t: Text, ops: seq<Operation>, other: seq<Operation>)
    requires multiset(ops) == multiset(other) && OwnedOnce(t, ops)
    ensures OwnedOnce(t, other)
  {
    forall i, j, folded | 0 <= i < |other| && 0 <= j < |other| && Claimed(t, other[i], folded)
      && Claimed(t, other[j], folded)
      ensures i == j
    {
      assert other[i] in multiset(other) && other[j] in multiset(other);
      SharedFold(t, ops, other[i], other[j], folded);
      if i != j {
        TwoPlacesRepeat(other, if i < j then i else j, if i < j then j else i);
        RepeatedIsNotOwned(t, ops, other[i]);
      }
    }
  }

  function Without(ops: seq<Operation>, k: nat): seq<Operation>
    requires k < |ops|
  {
    ops[..k] + ops[k + 1..]
  }

  lemma {:induction false} TotalWithout(ops: seq<Operation>, k: nat)
    requires k < |ops|
    ensures GeneratedTotal(ops) == GeneratedTotal(Without(ops, k)) + Generated(ops[k])
    decreases |ops|
  {
    var n := |ops| - 1;
    if k == n {
      assert Without(ops, k) == ops[..n];
    } else {
      TotalWithout(ops[..n], k);
      assert Without(ops, k)[..n - 1] == Without(ops[..n], k) && Without(ops, k)[n - 1] == ops[n];
    }
  }

  lemma {:induction false} TotalIsUnordered(ops: seq<Operation>, other: seq<Operation>)
    requires multiset(ops) == multiset(other)
    ensures GeneratedTotal(ops) == GeneratedTotal(other)
    decreases |ops|
  {
    if ops == [] {
      assert |other| == |multiset(other)| == |multiset(ops)| == 0;
    } else {
      var n := |ops| - 1;
      assert ops == ops[..n] + [ops[n]];
      assert ops[n] in multiset(other);
      var k :| 0 <= k < |other| && other[k] == ops[n];
      assert other == other[..k] + [other[k]] + other[k + 1..];
      assert multiset(Without(other, k)) == multiset(other) - multiset{ops[n]};
      TotalIsUnordered(ops[..n], Without(other, k));
      TotalWithout(other, k);
    }
  }

  lemma SameMembers(ops: seq<Operation>, other: seq<Operation>)
    requires multiset(ops) == multiset(other)
    ensures forall op :: op in ops <==> op in other
  {
    forall op
      ensures op in ops <==> op in other
    {
      assert op in ops <==> op in multiset(ops);
    }
  }

  /** Permuting the operations changes neither acceptance nor the resulting files. */
  lemma OrderDoesNotMatter(t: Text, ops: seq<Operation>, other: seq<Operation>, accepted: Files)
    requires multiset(ops) == multiset(other)
    ensures Accepts(t, ops, accepted) <==> Accepts(t, other, accepted)
    ensures Accepts(t, ops, accepted) ==> Apply(ops, accepted).Some? && Apply(ops, accepted) == Apply(other, accepted)
  {
    SameMembers(ops, other);
    TotalIsUnordered(ops, other);
    if OwnedOnce(t, ops) {
      OwnershipIsUnordered(t, ops, other);
    }
    if OwnedOnce(t, other) {
      OwnershipIsUnordered(t, other, ops);
    }
    if Accepts(t, ops, accepted) {
      ValidatedCannotFail(t, ops, accepted);
      ValidatedCannotFail(t, other, accepted);
      EffectIsUnique(ops, other, accepted, Apply(ops, accepted).value, Apply(other, accepted).value);
    }
  }

  // ---- A ChangeSet can be undone ----

  /** The operation that takes back `op`; `media` is the media type claimed for restored content. */
  function Undo(t: Text, op: Operation, accepted: Files, media: string): Operation
  {
    match op
    case CreateText(path, _, content) => Delete(path, t.sha256(content))
    case ReplaceText(path, _, _, content) =>
      ReplaceText(path, t.sha256(content), media, if path in accepted then accepted[path] else [])
    case Rename(from, to, expected) => Rename(to, from, expected)
    case Delete(path, _) => CreateText(path, media, if path in accepted then accepted[path] else [])
  }

  function UndoAll(t: Text, ops: seq<Operation>, accepted: Files, media: string): seq<Operation>
  {
    seq(|ops|, i requires 0 <= i < |ops| => Undo(t, ops[|ops| - 1 - i], accepted, media))
  }

  lemma UndoClaimsTheSame(t: Text, op: Operation, accepted: Files, media: string)
    ensures forall folded :: Claimed(t, Undo(t, op, accepted, media), folded) <==> Claimed(t, op, folded)
    ensures forall path :: Touches(Undo(t, op, accepted, media), path) <==> Touches(op, path)
    ensures MovesOntoItself(t, Undo(t, op, accepted, media)) <==> MovesOntoItself(t, op)
  {
  }

  lemma UndoIsSound(t: Text, ops: seq<Operation>, accepted: Files, media: string)
    requires GraphIsSound(t, ops)
    ensures GraphIsSound(t, UndoAll(t, ops, accepted, media))
  {
    var undo := UndoAll(t, ops, accepted, media);
    var n := |ops| - 1;
    forall i, j, folded | 0 <= i < |ops| && 0 <= j < |ops| && Claimed(t, undo[i], folded) && Claimed(t, undo[j], folded)
      ensures i == j
    {
      UndoClaimsTheSame(t, ops[n - i], accepted, media);
      UndoClaimsTheSame(t, ops[n - j], accepted, media);
      assert Claimed(t, ops[n - i], folded) && Claimed(t, ops[n - j], folded);
    }
    forall op | op in undo
      ensures !MovesOntoItself(t, op)
    {
      var i :| 0 <= i < |ops| && undo[i] == op;
      UndoClaimsTheSame(t, ops[n - i], accepted, media);
      assert ops[n - i] in ops;
    }
  }

  /** Whatever touches a path is the owner of its folded form. */
  lemma TouchedByOwner(t: Text, ops: seq<Operation>, op: Operation, q: string)
    requires OwnedOnce(t, ops) && op in ops && Claimed(t, op, t.fold(q)) && !Untouched(ops, q)
    ensures Touches(op, q)
  {
    var other :| other in ops && Touches(other, q);
    SharedFold(t, ops, op, other, t.fold(q));
  }

  /** No path of the result folds onto a path that an operation removed. */
  lemma RemovedLeavesNoFold(t: Text, ops: seq<Operation>, accepted: Files, after: Files, op: Operation, gone: string)
    requires Ready(t, ops, accepted) && IsEffect(ops, accepted, after) && op in ops
    requires (op.Rename? && gone == op.from) || (op.Delete? && gone == op.path)
    ensures NoneFolds(t, gone, after)
  {
    assert Achieved(op, accepted, after) && Fits(t, op, accepted) && !MovesOntoItself(t, op) && Touches(op, gone);
    forall q | q in after
      ensures t.fold(q) != t.fold(gone)
    {
      assert Untouched(ops, q) ==> At(after, q) == At(accepted, q);
      if t.fold(q) == t.fold(gone) && !Untouched(ops, q) {
        TouchedByOwner(t, ops, op, q);
      }
    }
  }

  lemma UndoFits(t: Text, ops: seq<Operation>, accepted: Files, after: Files, op: Operation, media: string)
    requires Ready(t, ops, accepted) && IsEffect(ops, accepted, after) && op in ops
    ensures Fits(t, Undo(t, op, accepted, media), after)
  {
    assert Achieved(op, accepted, after) && Fits(t, op, accepted);
    if op.Rename? {
      RemovedLeavesNoFold(t, ops, accepted, after, op, op.from);
    } else if op.Delete? {
      RemovedLeavesNoFold(t, ops, accepted, after, op, op.path);
    }
  }

  lemma UndoneMeetsTheOriginal(t: Text, ops: seq<Operation>, accepted: Files, after: Files, op: Operation,
                               media: string)
    requires Ready(t, ops, accepted) && IsEffect(ops, accepted, after) && op in ops
    ensures Achieved(Undo(t, op, accepted, media), after, accepted)
  {
    assert Achieved(op, accepted, after) && Fits(t, op, accepted);
  }

  lemma UndoIsReady(t: Text, ops: seq<Operation>, accepted: Files, after: Files, media: string)
    requires Ready(t, ops, accepted) && IsEffect(ops, accepted, after)
    ensures AllFit(t, UndoAll(t, ops, accepted, media), after)
    ensures IsEffect(UndoAll(t, ops, accepted, media), after, accepted)
  {
    hide Ready, Fits, Achieved, Touches;
    var undo := UndoAll(t, ops, accepted, media);
    forall op | op in undo
      ensures Fits(t, op, after) && Achieved(op, after, accepted)
    {
      var i :| 0 <= i < |ops| && undo[i] == op;
      UndoFits(t, ops, accepted, after, ops[|ops| - 1 - i], media);
      UndoneMeetsTheOriginal(t, ops, accepted, after, ops[|ops| - 1 - i], media);
    }
    forall path | Untouched(undo, path)
      ensures At(after, path) == At(accepted, path)
    {
      UntouchedByUndo(t, ops, accepted, media, path);
    }
  }

  /** The reversed list of inverse operations passes the graph and precondition checks on the result and
      restores the Accepted files. */
  lemma UndoRestores(t: Text, ops: seq<Operation>, accepted: Files, media: string)
    requires Ready(t, ops, accepted)
    ensures Apply(ops, accepted).Some?
    ensures Ready(t, UndoAll(t, ops, accepted, media), Apply(ops, accepted).value)
    ensures Apply(UndoAll(t, ops, accepted, media), Apply(ops, accepted).value) == Some(accepted)
  {
    hide CollisionFree, AllFit, IsEffect, GraphIsSound, Apply;
    ValidatedCannotFail(t, ops, accepted);
    var after := Apply(ops, accepted).value;
    var undo := UndoAll(t, ops, accepted, media);
    UndoIsSound(t, ops, accepted, media);
    UndoIsReady(t, ops, accepted, after, media);
    ValidatedCannotFail(t, undo, after);
    EffectIsUnique(undo, undo, after, Apply(undo, after).value, accepted);
  }

  lemma UntouchedByUndo(t: Text, ops: seq<Operation>, accepted: Files, media: string, path: string)
    requires Untouched(UndoAll(t, ops, accepted, media), path)
    ensures Untouched(ops, path)
  {
    var undo := UndoAll(t, ops, accepted, media);
    forall op | op in ops
      ensures !Touches(op, path)
    {
      var i :| 0 <= i < |ops| && ops[i] == op;
      assert undo[|ops| - 1 - i] in undo;
      UndoClaimsTheSame(t, op, accepted, media);
    }
  }

  // ---- Growth is bounded by the generated bytes ----

  ghost function TotalBytes(files: Files): nat
  {
    if files == map[] then 0
    else
      var path :| path in files;
      |files[path]| + TotalBytes(files - {path})
  }

  /** Any path may be taken out first. */
  lemma {:induction false} TotalTakesOut(files: Files, path: string)
    requires path in files
    ensures TotalBytes(files) == |files[path]| + TotalBytes(files - {path})
    decreases |files|
  {
    var first :| first in files && TotalBytes(files) == |files[first]| + TotalBytes(files - {first});
    if first != path {
      TotalTakesOut(files - {first}, path);
      TotalTakesOut(files - {path}, first);
      assert files - {first} - {path} == files - {path} - {first};
    }
  }

  lemma TotalOfPut(files: Files, path: string, content: Bytes)
    ensures TotalBytes(files[path := content]) == TotalBytes(files - {path}) + |content|
  {
    TotalTakesOut(files[path := content], path);
    assert files[path := content] - {path} == files - {path};
  }

  lemma OneGrowsByGenerated(op: Operation, files: Files)
    requires ApplyOne(op, files).Some?
    ensures TotalBytes(ApplyOne(op, files).value) <= TotalBytes(files) + Generated(op)
  {
    match op
    case CreateText(path, _, content) =>
      assert files - {path} == files;
      TotalOfPut(files, path, content);
    case ReplaceText(path, _, _, content) =>
      TotalTakesOut(files, path);
      TotalOfPut(files, path, content);
    case Rename(from, to, _) =>
      TotalTakesOut(files, from);
      assert files - {from} - {to} == files - {from};
      TotalOfPut(files - {from}, to, files[from]);
    case Delete(path, _) =>
      TotalTakesOut(files, path);
  }

  lemma {:induction false} GrowsByGenerated(ops: seq<Operation>, files: Files)
    requires Apply(ops, files).Some?
    ensures TotalBytes(Apply(ops, files).value) <= TotalBytes(files) + GeneratedTotal(ops)
    decreases |ops|
  {
    if ops != [] {
      var n := |ops| - 1;
      GrowsByGenerated(ops[..n], files);
      OneGrowsByGenerated(ops[n], Apply(ops[..n], files).value);
    }
  }

  /** One ChangeSet grows the site by at most 8 MiB. */
  lemma GrowthIsBounded(t: Text, ops: seq<Operation>, accepted: Files)
    requires Accepts(t, ops, accepted)
    ensures Apply(ops, accepted).Some?
    ensures TotalBytes(Apply(ops, accepted).value) <= TotalBytes(accepted) + MAX_GENERATED_TOTAL_BYTES
  {
    ValidatedCannotFail(t, ops, accepted);
    GrowsByGenerated(ops, accepted);
  }

  lemma RefusalSays(t: Text, ops: seq<Operation>, error: ChangeSetError)
    requires exists i: nat :: RefusedAt(t, ops, i, error)
    ensures error !in {InvalidProtocol, PreconditionFailed, RenameCycle, InvalidSite}
  {
    hide Fault, OperationsAreValid;
    var i: nat :| RefusedAt(t, ops, i, error);
    FaultSays(t, ops[i]);
  }

  // ---- The whole check ----

  const MAX_OPERATIONS := 32

  /** `sound` stands for the checks of the resulting site (entry point, syntax, references, deny list). */
  datatype Rules = Rules(text: Text, sound: Files -> bool)

  /** `files` is what the proposal makes of the Accepted files, and every check lets it pass. */
  ghost predicate Permits(rules: Rules, ops: seq<Operation>, accepted: Files, files: Files)
  {
    && 0 < |ops| <= MAX_OPERATIONS
    && (forall p :: p in accepted ==> ValidPath(rules.text, p))
    && Accepts(rules.text, ops, accepted) && Apply(ops, accepted) == Some(files) && rules.sound(files)
  }

  method ParseAndApply(rules: Rules, ops: seq<Operation>, accepted: Files)
    returns (r: Result<(Files, seq<FileChange>), ChangeSetError>)
    ensures r.Ok? ==> Permits(rules, ops, accepted, r.value.0)
    ensures forall files :: Permits(rules, ops, accepted, files) ==>
              r == Ok((files, Changes(rules.text, ops, accepted)))
    ensures r == Err(InvalidProtocol) <==> ops == []
    ensures |ops| > MAX_OPERATIONS ==> r == Err(LimitExceeded)
    ensures r == Err(PreconditionFailed) ==> !AllFit(rules.text, ops, accepted)
    ensures r == Err(RenameCycle) ==> HasCycle(RenameEdges(rules.text, ops))
    ensures r == Err(InvalidSite) <==>
              && 0 < |ops| <= MAX_OPERATIONS && (forall p :: p in accepted ==> ValidPath(rules.text, p))
              && Accepts(rules.text, ops, accepted)
              && exists files :: Apply(ops, accepted) == Some(files) && !rules.sound(files)
  {
    hide CollisionFree, AllFit, GraphIsSound, OperationsAreValid, ValidPath, Apply, Changes;
    if ops == [] {
      return Err(InvalidProtocol);
    }
    if |ops| > MAX_OPERATIONS {
      return Err(LimitExceeded);
    }
    var paths := ValidateAcceptedPaths(rules.text, accepted);
    if paths.Err? {
      return Err(paths.error);
    }
    var operations := ValidateOperations(rules.text, ops);
    if operations.Err? {
      RefusalSays(rules.text, ops, operations.error);
      return Err(operations.error);
    }
    var graph := ValidateOperationGraph(rules.text, ops);
    if graph.Err? {
      return Err(graph.error);
    }
    var preconditions := ValidatePreconditions(rules.text, ops, accepted);
    if preconditions.Err? {
      return Err(preconditions.error);
    }
    ValidatedCannotFail(rules.text, ops, accepted);
    var applied := ApplyToClone(rules.text, ops, accepted);
    var files := applied.value.0;
    var collisions := ValidateFinalCaseCollisions(rules.text, files);
    if collisions.Err? {
      assert false;
    }
    return if rules.sound(files) then applied else Err(InvalidSite);
  }
}
