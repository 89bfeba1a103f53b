/** Checking a list of operations against the Accepted files and applying it to a clone of them. */
module ChangeSetApply {
  import opened Base
  import opened Paths
  import opened ChangeSet

  datatype ChangeKind = Created | Modified | Renamed | Deleted

  datatype FileChange = FileChange(path: string, kind: ChangeKind, from: Option<string>, before: Option<string>,
      after: Option<string>)

  function At(files: Files, path: string): Option<Bytes>
  {
    if path in files then Some(files[path]) else None
  }

  // ---- Case-folded paths ----

  ghost predicate CollisionFree(t: Text, files: Files)
  {
    forall p, q :: p in files && q in files && t.fold(p) == t.fold(q) ==> p == q
  }

  method ValidateFinalCaseCollisions(t: Text, files: Files) returns (r: Result<(), ChangeSetError>)
    ensures r == (if CollisionFree(t, files) then Ok(()) else Err(OperationConflict))
  {
    var folded: set<string> := {};
    var rest := files.Keys;
    while rest != {}
      invariant rest <= files.Keys
      invariant forall f :: f in folded <==> exists p :: p in files.Keys - rest && t.fold(p) == f
      invariant forall p, q :: p in files.Keys - rest && q in files && t.fold(p) == t.fold(q) && q !in rest ==> p == q
      decreases rest
    {
      var path :| path in rest;
      if t.fold(path) in folded {
        return Err(OperationConflict);
      }
      folded := folded + {t.fold(path)};
      rest := rest - {path};
      assert path in files.Keys - rest;
    }
    return Ok(());
  }

  method ValidateAcceptedPaths(t: Text, files: Files) returns (r: Result<(), ChangeSetError>)
    ensures r.Ok? <==> CollisionFree(t, files) && forall p :: p in files ==> ValidPath(t, p)
    ensures r.Err? ==> r.error in {UnsafePath, ReservedPathError, OperationConflict}
    ensures r == Err(UnsafePath) ==> exists p :: p in files && !SafePath(t, p)
    ensures r == Err(ReservedPathError) ==> exists p :: p in files && SafePath(t, p) && ReservedPath(t, p)
    ensures r == Err(OperationConflict) ==> !CollisionFree(t, files)
  {
    hide SafePath, ReservedPath, CollisionFree;
    var rest := files.Keys;
    while rest != {}
      invariant rest <= files.Keys
      invariant forall p :: p in files.Keys - rest ==> ValidPath(t, p)
      decreases rest
    {
      var path :| path in rest;
      var fault := PathFault(t, path);
      if fault.Some? {
        return Err(fault.value);
      }
      rest := rest - {path};
    }
    r := ValidateFinalCaseCollisions(t, files);
  }

  // ---- Preconditions ----

  ghost predicate NoneFolds(t: Text, path: string, accepted: Files)
  {
    forall p :: p in accepted ==> t.fold(p) != t.fold(path)
  }

  predicate HasHash(t: Text, accepted: Files, path: string, expected: string)
  {
    path in accepted && t.sha256(accepted[path]) == expected
  }

  ghost predicate Fits(t: Text, op: Operation, accepted: Files)
  {
    match op
    case CreateText(path, _, _) => NoneFolds(t, path, accepted)
    case ReplaceText(path, expected, _, _) => HasHash(t, accepted, path, expected)
    case Rename(from, to, expected) => HasHash(t, accepted, from, expected) && NoneFolds(t, to, accepted)
    case Delete(path, expected) => HasHash(t, accepted, path, expected)
  }

  ghost predicate AllFit(t: Text, ops: seq<Operation>, accepted: Files)
  {
    forall op :: op in ops ==> Fits(t, op, accepted)
  }

  method ValidatePreconditions(t: Text, ops: seq<Operation>, accepted: Files) returns (r: Result<(), ChangeSetError>)
    ensures r == (if AllFit(t, ops, accepted) then Ok(()) else Err(PreconditionFailed))
  {
    var folds := set p | p in accepted :: t.fold(p);
    for i := 0 to |ops|
      invariant forall j :: 0 <= j < i ==> Fits(t, ops[j], accepted)
    {
      var op := ops[i];
      var fits := match op
        case CreateText(path, _, _) => t.fold(path) !in folds
        case ReplaceText(path, expected, _, _) => HasHash(t, accepted, path, expected)
        case Rename(from, to, expected) => HasHash(t, accepted, from, expected) && t.fold(to) !in folds
        case Delete(path, expected) => HasHash(t, accepted, path, expected);
      assert fits <==> Fits(t, op, accepted);
      if !fits {
        return Err(PreconditionFailed);
      }
    }
    return Ok(());
  }

  // ---- Application ----

  function ApplyOne(op: Operation, files: Files): Option<Files>
  {
    match op
    case CreateText(path, _, content) => if path in files then None else Some(files[path := content])
    case ReplaceText(path, _, _, content) => if path in files then Some(files[path := content]) else None
    case Rename(from, to, _) =>
      if from !in files || to in (files - {from}) then None else Some((files - {from})[to := files[from]])
    case Delete(path, _) => if path in files then Some(files - {path}) else None
  }

  function Apply(ops: seq<Operation>, files: Files): Option<Files>
  {
    if ops == [] then Some(files)
    else
      var before := Apply(ops[..|ops| - 1], files);
      if before == None then None else ApplyOne(ops[|ops| - 1], before.value)
  }

  function HashAt(t: Text, files: Files, path: string): Option<string>
  {
    if path in files then Some(t.sha256(files[path])) else None
  }

  /** The audit record of one operation, read off the files it was applied to. */
  function ChangeOf(t: Text, op: Operation, before: Files): FileChange
  {
    match op
    case CreateText(path, _, content) => FileChange(path, Created, None, None, Some(t.sha256(content)))
    case ReplaceText(path, _, _, content) =>
           FileChange(path, Modified, None, HashAt(t, before, path), Some(t.sha256(content)))
    case Rename(from, to, _) => FileChange(to, Renamed, Some(from), HashAt(t, before, from), HashAt(t, before, from))
    case Delete(path, _) => FileChange(path, Deleted, None, HashAt(t, before, path), None)
  }

  function Changes(t: Text, ops: seq<Operation>, files: Files): seq<FileChange>
  {
    if ops == [] then []
    else
      var n := |ops| - 1;
      var before := Apply(ops[..n], files);
      Changes(t, ops[..n], files) + (if before == None then [] else [ChangeOf(t, ops[n], before.value)])
  }

  method ApplyToClone(t: Text, ops: seq<Operation>, accepted: Files)
    returns (r: Result<(Files, seq<FileChange>), ChangeSetError>)
    ensures r == (match Apply(ops, accepted)
                  case None => Err(PreconditionFailed)
                  case Some(files) => Ok((files, Changes(t, ops, accepted))))
  {
    var files := accepted;
    var changes: seq<FileChange> := [];
    for i := 0 to |ops|
      invariant Apply(ops[..i], accepted) == Some(files)
      invariant changes == Changes(t, ops[..i], accepted)
    {
      assert ops[..i + 1][..i] == ops[..i];
      var op := ops[i];
      var change := ChangeOf(t, op, files);
      var applied := true;
      match op {
        case CreateText(path, _, content) =>
          applied := path !in files;
          files := files[path := content];
        case ReplaceText(path, _, _, content) =>
          applied := path in files;
          files := files[path := content];
        case Rename(from, to, _) =>
          applied := from in files;
          if applied {
            var bytes := files[from];
            files := files - {from};
            applied := to !in files;
            files := files[to := bytes];
          }
        case Delete(path, _) =>
          applied := path in files;
          files := files - {path};
      }
      if !applied {
        FailureStays(ops, accepted, i + 1);
        return Err(PreconditionFailed);
      }
      changes := changes + [change];
    }
    assert ops[..|ops|] == ops;
    return Ok((files, changes));
  }

  lemma {:induction false} FailureStays(ops: seq<Operation>, accepted: Files, n: nat)
    requires n <= |ops| && Apply(ops[..n], accepted) == None
    ensures Apply(ops, accepted) == None
    decreases |ops|
  {
    if n < |ops| {
      assert ops[..|ops| - 1][..n] == ops[..n];
      FailureStays(ops[..|ops| - 1], accepted, n);
    } else {
      assert ops[..n] == ops;
    }
  }
}
