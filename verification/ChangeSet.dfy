/** The operations of a ChangeSet and the checks on the list itself: single operations, rename cycles
    and ownership of case-folded paths. */
module ChangeSet {
  import opened Base
  import opened Paths

  datatype Operation =
    | CreateText(path: string, mediaType: string, content: Bytes)
    | ReplaceText(path: string, expected: string, mediaType: string, content: Bytes)
    | Rename(from: string, to: string, expected: string)
    | Delete(path: string, expected: string)

  datatype ChangeSetError =
    | LimitExceeded | UnsafePath | ReservedPathError | UnsupportedMediaType | InvalidHash | ReservedPlaceholder
    | OperationConflict | RenameCycle | PreconditionFailed | InvalidProtocol | InvalidSite

  // ---- Single operations ----

  const MAX_GENERATED_FILE_BYTES := 2 * 1024 * 1024
  const MAX_GENERATED_TOTAL_BYTES := 8 * 1024 * 1024
  const REDACTION_PLACEHOLDER := "LP_STUDIO_REDACTED"

  predicate Generates(op: Operation) { op.CreateText? || op.ReplaceText? }

  function TextMediaType(path: string): Option<string>
  {
    var extension := Extension(path);
    if extension == None then None
    else
      var e := AsciiLower(extension.value);
      if e in {"html", "htm"} then Some("text/html")
      else if e == "css" then Some("text/css")
      else if e in {"js", "mjs", "cjs"} then Some("application/javascript")
      else if e in {"json", "map"} then Some("application/json")
      else if e == "webmanifest" then Some("application/manifest+json")
      else if e == "svg" then Some("image/svg+xml")
      else if e == "xml" then Some("application/xml")
      else if e == "txt" then Some("text/plain")
      else if e == "csv" then Some("text/csv")
      else None
  }

  predicate HasPlaceholder(content: Bytes)
  {
    exists i :: 0 <= i <= |content| - |REDACTION_PLACEHOLDER|
      && TextOf(content)[i..][..|REDACTION_PLACEHOLDER|] == REDACTION_PLACEHOLDER
  }

  predicate ValidHash(hash: string)
  {
    |hash| == 64 && forall c :: c in hash ==> '0' <= c <= '9' || 'a' <= c <= 'f'
  }

  function PathFault(t: Text, path: string): Option<ChangeSetError>
  {
    if !SafePath(t, path) then Some(UnsafePath)
    else if ReservedPath(t, path) then Some(ReservedPathError)
    else None
  }

  function TextFault(t: Text, path: string, mediaType: string, content: Bytes): Option<ChangeSetError>
  {
    if PathFault(t, path) != None then PathFault(t, path)
    else if TextMediaType(path) != Some(mediaType) then Some(UnsupportedMediaType)
    else if HasPlaceholder(content) then Some(ReservedPlaceholder)
    else if |content| > MAX_GENERATED_FILE_BYTES then Some(LimitExceeded)
    else None
  }

  predicate KeepsExtension(from: string, to: string)
  {
    Extension(from).Some? && Extension(to).Some? && AsciiLower(Extension(from).value) == AsciiLower(Extension(to).value)
  }

  /** The checks made before an operation draws on the shared size budget. */
  function EarlyFault(t: Text, op: Operation): Option<ChangeSetError>
  {
    match op
    case CreateText(path, mediaType, content) => TextFault(t, path, mediaType, content)
    case ReplaceText(path, expected, mediaType, content) => TextFault(t, path, mediaType, content)
    case Rename(from, to, expected) =>
      if PathFault(t, from) != None then PathFault(t, from)
      else if PathFault(t, to) != None then PathFault(t, to)
      else if !ValidHash(expected) then Some(InvalidHash)
      else if from == to || !KeepsExtension(from, to) then Some(OperationConflict)
      else None
    case Delete(path, expected) =>
      if PathFault(t, path) != None then PathFault(t, path)
      else if !ValidHash(expected) then Some(InvalidHash)
      else None
  }

  /** The first check an operation fails on its own, leaving the shared size budget aside. */
  function Fault(t: Text, op: Operation): Option<ChangeSetError>
  {
    if EarlyFault(t, op) != None then EarlyFault(t, op)
    else if op.ReplaceText? && !ValidHash(op.expected) then Some(InvalidHash)
    else None
  }

  /** What an operation must satisfy on its own. */
  lemma FaultlessIff(t: Text, op: Operation)
    ensures Fault(t, op) == None <==>
              match op
              case CreateText(path, mediaType, content) =>
                && ValidPath(t, path) && TextMediaType(path) == Some(mediaType)
                && !HasPlaceholder(content) && |content| <= 2097152
              case ReplaceText(path, expected, mediaType, content) =>
                && ValidPath(t, path) && TextMediaType(path) == Some(mediaType)
                && !HasPlaceholder(content) && |content| <= 2097152 && ValidHash(expected)
              case Rename(from, to, expected) =>
                && ValidPath(t, from) && ValidPath(t, to) && ValidHash(expected)
                && from != to && KeepsExtension(from, to)
              case Delete(path, expected) => ValidPath(t, path) && ValidHash(expected)
  {
    hide SafePath, ReservedPath, HasPlaceholder, ValidHash;
  }

  /** What the error of an operation that fails on its own says. */
  lemma FaultSays(t: Text, op: Operation)
    ensures match Fault(t, op)
            case None => true
            case Some(UnsafePath) => exists path :: path in Claims(op) && !SafePath(t, path)
            case Some(ReservedPathError) => exists path :: path in Claims(op) && ReservedPath(t, path)
            case Some(UnsupportedMediaType) => Generates(op) && TextMediaType(op.path) != Some(op.mediaType)
            case Some(ReservedPlaceholder) => Generates(op) && HasPlaceholder(op.content)
            case Some(LimitExceeded) => Generates(op) && |op.content| > 2097152
            case Some(InvalidHash) => !op.CreateText? && !ValidHash(op.expected)
            case Some(OperationConflict) => op.Rename? && (op.from == op.to || !KeepsExtension(op.from, op.to))
            case Some(_) => false
  {
    hide SafePath, ReservedPath, HasPlaceholder, ValidHash;
    if op.Rename? {
      assert op.from == Claims(op)[0] && op.to == Claims(op)[1];
    } else {
      assert op.path == Claims(op)[0];
    }
  }

  function Generated(op: Operation): nat { if Generates(op) then |op.content| else 0 }

  function GeneratedTotal(ops: seq<Operation>): nat
  {
    if ops == [] then 0 else GeneratedTotal(ops[..|ops| - 1]) + Generated(ops[|ops| - 1])
  }

  lemma {:induction false} PrefixGeneratesLess(ops: seq<Operation>, n: nat)
    requires n <= |ops|
    ensures GeneratedTotal(ops[..n]) <= GeneratedTotal(ops)
    decreases |ops|
  {
    if n < |ops| {
      PrefixGeneratesLess(ops[..|ops| - 1], n);
      assert ops[..|ops| - 1][..n] == ops[..n];
    } else {
      assert ops[..n] == ops;
    }
  }

  ghost predicate OperationsAreValid(t: Text, ops: seq<Operation>)
  {
    (forall op :: op in ops ==> Fault(t, op) == None) && GeneratedTotal(ops) <= MAX_GENERATED_TOTAL_BYTES
  }

  /** The operation at `i` is the first to be refused, and `error` says why. */
  ghost predicate RefusedAt(t: Text, ops: seq<Operation>, i: nat, error: ChangeSetError)
  {
    && i < |ops| && OperationsAreValid(t, ops[..i])
    && (Fault(t, ops[i]) == Some(error)
        || (GeneratedTotal(ops[..i + 1]) > MAX_GENERATED_TOTAL_BYTES && error == LimitExceeded))
  }

  method ValidateOperations(t: Text, ops: seq<Operation>) returns (r: Result<(), ChangeSetError>)
    ensures r.Ok? <==> OperationsAreValid(t, ops)
    ensures r.Err? ==> exists i :: RefusedAt(t, ops, i, r.error)
  {
    hide EarlyFault, ValidHash;
    var total := 0;
    for i := 0 to |ops|
      invariant total == GeneratedTotal(ops[..i]) && OperationsAreValid(t, ops[..i])
    {
      assert ops[..i + 1][..i] == ops[..i];
      PrefixGeneratesLess(ops, i + 1);
      var early := EarlyFault(t, ops[i]);
      if early.Some? {
        assert RefusedAt(t, ops, i, early.value);
        return Err(early.value);
      }
      total := total + Generated(ops[i]);
      if total > MAX_GENERATED_TOTAL_BYTES {
        assert RefusedAt(t, ops, i, LimitExceeded);
        return Err(LimitExceeded);
      }
      if ops[i].ReplaceText? && !ValidHash(ops[i].expected) {
        assert RefusedAt(t, ops, i, InvalidHash);
        return Err(InvalidHash);
      }
    }
    assert ops[..|ops|] == ops;
    return Ok(());
  }

  // ---- The operation graph ----

  function Claims(op: Operation): seq<string>
  {
    if op.Rename? then [op.from, op.to] else [op.path]
  }

  predicate Claimed(t: Text, op: Operation, folded: string)
  {
    if op.Rename? then folded == t.fold(op.from) || folded == t.fold(op.to) else folded == t.fold(op.path)
  }

  /** No folded path is claimed by two operations. */
  ghost predicate OwnedOnce(t: Text, ops: seq<Operation>)
  {
    forall i, j, folded ::
      0 <= i < |ops| && 0 <= j < |ops| && Claimed(t, ops[i], folded) && Claimed(t, ops[j], folded) ==> i == j
  }

  predicate MovesOntoItself(t: Text, op: Operation)
  {
    op.Rename? && t.fold(op.from) == t.fold(op.to)
  }

  ghost predicate GraphIsSound(t: Text, ops: seq<Operation>)
  {
    OwnedOnce(t, ops) && forall op :: op in ops ==> !MovesOntoItself(t, op)
  }

  type Edges = map<string, string>

  /** Later renames of the same folded source replace earlier ones. */
  function RenameEdges(t: Text, ops: seq<Operation>): Edges
  {
    if ops == [] then map[]
    else
      var before := RenameEdges(t, ops[..|ops| - 1]);
      var op := ops[|ops| - 1];
      if op.Rename? then before[t.fold(op.from) := t.fold(op.to)] else before
  }

  ghost predicate IsCycle(edges: Edges, p: seq<string>)
  {
    && |p| > 1 && p[0] == p[|p| - 1]
    && forall i, j :: 0 <= i && j == i + 1 < |p| ==> p[i] in edges && edges[p[i]] == p[j]
  }

  ghost predicate HasCycle(edges: Edges)
  {
    exists p :: IsCycle(edges, p)
  }

  /** Following the edges never leaves `trap`. */
  ghost predicate Traps(edges: Edges, trap: set<string>)
  {
    forall n :: n in trap ==> n in edges && edges[n] in trap
  }

  lemma CycleTraps(edges: Edges, p: seq<string>)
    requires IsCycle(edges, p)
    ensures Traps(edges, set i | 0 <= i < |p| :: p[i])
  {
    var trap := set i | 0 <= i < |p| :: p[i];
    forall n | n in trap
      ensures n in edges && edges[n] in trap
    {
      var i :| 0 <= i < |p| && p[i] == n;
      var at := if i == |p| - 1 then 0 else i;
      assert p[at] == n && p[at + 1] in trap;
    }
  }

  lemma CyclesMeetTraps(edges: Edges)
    ensures HasCycle(edges) ==> exists start, trap :: start in edges && start in trap && Traps(edges, trap)
  {
    if HasCycle(edges) {
      var p :| IsCycle(edges, p);
      CycleTraps(edges, p);
      var trap := set i | 0 <= i < |p| :: p[i];
      assert p[0] in trap && Traps(edges, trap);
    }
  }

  /** The walk from one start: it revisits a path, or it escapes every trap. */
  method WalkRevisits(edges: Edges, start: string) returns (r: bool)
    ensures r ==> HasCycle(edges)
    ensures !r ==> forall trap :: Traps(edges, trap) ==> start !in trap
  {
    var visited: set<string> := {};
    var cursor := start;
    ghost var trail: seq<string> := [];
    while cursor in edges
      invariant forall i, j :: 0 <= i && j == i + 1 < |trail + [cursor]| ==>
                  trail[i] in edges && edges[trail[i]] == (trail + [cursor])[j]
      invariant visited <= edges.Keys
      invariant forall n :: n in visited <==> n in trail
      invariant forall trap :: Traps(edges, trap) && start in trap ==> cursor in trap
      decreases edges.Keys - visited
    {
      ghost var walked := trail + [cursor];
      if cursor in visited {
        ghost var i :| 0 <= i < |trail| && trail[i] == cursor;
        assert IsCycle(edges, walked[i..]);
        return true;
      }
      visited := visited + {cursor};
      trail := walked;
      cursor := edges[cursor];
    }
    return false;
  }

  /** True exactly when the rename map has a directed cycle. */
  method ContainsRenameCycle(edges: Edges) returns (r: bool)
    ensures r <==> HasCycle(edges)
  {
    var starts := edges.Keys;
    while starts != {}
      invariant starts <= edges.Keys
      invariant forall start, trap :: start in edges.Keys - starts && Traps(edges, trap) ==> start !in trap
      decreases starts
    {
      var start :| start in starts;
      r := WalkRevisits(edges, start);
      if r {
        return;
      }
      starts := starts - {start};
    }
    CyclesMeetTraps(edges);
    return false;
  }

  lemma {:induction false} EdgesAreRenames(t: Text, ops: seq<Operation>, from: string)
    requires from in RenameEdges(t, ops)
    ensures exists i ::
              0 <= i < |ops| && ops[i].Rename? && t.fold(ops[i].from) == from
              && t.fold(ops[i].to) == RenameEdges(t, ops)[from]
    decreases |ops|
  {
    var n := |ops| - 1;
    if !(ops[n].Rename? && t.fold(ops[n].from) == from) {
      EdgesAreRenames(t, ops[..n], from);
      var i :|
        0 <= i < n && ops[..n][i].Rename? && t.fold(ops[..n][i].from) == from
          && t.fold(ops[..n][i].to) == RenameEdges(t, ops[..n])[from];
      assert ops[i] == ops[..n][i];
    }
  }

  lemma {:induction false} RenamesAreEdges(t: Text, ops: seq<Operation>, k: nat)
    requires OwnedOnce(t, ops) && k < |ops| && ops[k].Rename?
    ensures t.fold(ops[k].from) in RenameEdges(t, ops) && RenameEdges(t, ops)[t.fold(ops[k].from)] == t.fold(ops[k].to)
    decreases |ops|
  {
    var n := |ops| - 1;
    OwnedBefore(t, ops, n);
    if k < n {
      assert ops[..n][k] == ops[k];
      RenamesAreEdges(t, ops[..n], k);
      if ops[n].Rename? && t.fold(ops[n].from) == t.fold(ops[k].from) {
        assert Claimed(t, ops[n], t.fold(ops[k].from)) && Claimed(t, ops[k], t.fold(ops[k].from));
      }
    }
  }

  lemma OwnedBefore(t: Text, ops: seq<Operation>, n: nat)
    requires OwnedOnce(t, ops) && n <= |ops|
    ensures OwnedOnce(t, ops[..n])
  {
    forall i, j, folded | 0 <= i < n && 0 <= j < n && Claimed(t, ops[..n][i], folded) && Claimed(t, ops[..n][j], folded)
      ensures i == j
    {
      assert ops[..n][i] == ops[i] && ops[..n][j] == ops[j];
    }
  }

  lemma TargetIsNoSource(t: Text, ops: seq<Operation>, i: nat, j: nat)
    requires OwnedOnce(t, ops) && i < |ops| && j < |ops| && ops[i].Rename? && ops[j].Rename?
    requires t.fold(ops[i].to) == t.fold(ops[j].from)
    ensures i == j
  {
    assert Claimed(t, ops[i], t.fold(ops[i].to)) && Claimed(t, ops[j], t.fold(ops[i].to));
  }

  lemma CycleStep(edges: Edges, p: seq<string>, i: nat)
    requires IsCycle(edges, p) && i + 1 < |p|
    ensures p[i] in edges && edges[p[i]] == p[i + 1]
    ensures p[0] == p[|p| - 1]
  {
    var j := i + 1;
    assert p[i] in edges && edges[p[i]] == p[j];
  }

  lemma CycleNeedsSelfRename(t: Text, ops: seq<Operation>)
    requires OwnedOnce(t, ops) && HasCycle(RenameEdges(t, ops))
    ensures exists op :: op in ops && MovesOntoItself(t, op)
  {
    var edges := RenameEdges(t, ops);
    var p :| IsCycle(edges, p);
    CycleStep(edges, p, 0);
    if |p| > 2 {
      CycleStep(edges, p, 1);
    }
    hide OwnedOnce, IsCycle, HasCycle;
    EdgesAreRenames(t, ops, p[0]);
    EdgesAreRenames(t, ops, p[1]);
    var i :| 0 <= i < |ops| && ops[i].Rename? && t.fold(ops[i].from) == p[0] && t.fold(ops[i].to) == p[1];
    var j :| 0 <= j < |ops| && ops[j].Rename? && t.fold(ops[j].from) == p[1] && t.fold(ops[j].to) == edges[p[1]];
    TargetIsNoSource(t, ops, i, j);
    assert MovesOntoItself(t, ops[i]);
  }

  lemma SelfRenameCycles(t: Text, ops: seq<Operation>, op: Operation)
    requires OwnedOnce(t, ops) && op in ops && MovesOntoItself(t, op)
    ensures HasCycle(RenameEdges(t, ops))
  {
    var k :| 0 <= k < |ops| && ops[k] == op;
    RenamesAreEdges(t, ops, k);
    var n := t.fold(op.from);
    assert IsCycle(RenameEdges(t, ops), [n, n]);
  }

  /** Once every path has one owner, the only possible cycle is a rename onto its own folded path;
      in particular no path is both a rename target and another rename's source. */
  lemma CycleIsSelfRename(t: Text, ops: seq<Operation>)
    requires OwnedOnce(t, ops)
    ensures HasCycle(RenameEdges(t, ops)) <==> exists op :: op in ops && MovesOntoItself(t, op)
    ensures forall i, j :: 0 <= i < |ops| && 0 <= j < |ops| && ops[i].Rename? && ops[j].Rename? && i != j ==>
              t.fold(ops[i].to) != t.fold(ops[j].from)
  {
    if HasCycle(RenameEdges(t, ops)) {
      CycleNeedsSelfRename(t, ops);
    }
    if op :| op in ops && MovesOntoItself(t, op) {
      SelfRenameCycles(t, ops, op);
    }
    forall i, j | 0 <= i < |ops| && 0 <= j < |ops| && ops[i].Rename? && ops[j].Rename? && i != j
      ensures t.fold(ops[i].to) != t.fold(ops[j].from)
    {
      if t.fold(ops[i].to) == t.fold(ops[j].from) {
        TargetIsNoSource(t, ops, i, j);
      }
    }
  }

  /** `owners` maps each folded path claimed by the first `n` operations to its claimant. */
  ghost predicate Owners(t: Text, ops: seq<Operation>, n: nat, owners: map<string, nat>)
    requires n <= |ops|
  {
    && (forall folded :: folded in owners ==> owners[folded] < n && Claimed(t, ops[owners[folded]], folded))
    && (forall k, folded :: 0 <= k < n && Claimed(t, ops[k], folded) ==> folded in owners && owners[folded] == k)
  }

  lemma OwnersMeansOwnedOnce(t: Text, ops: seq<Operation>, owners: map<string, nat>)
    requires Owners(t, ops, |ops|, owners)
    ensures OwnedOnce(t, ops)
  {
    forall i, j, folded | 0 <= i < |ops| && 0 <= j < |ops| && Claimed(t, ops[i], folded) && Claimed(t, ops[j], folded)
      ensures i == j
    {
      assert owners[folded] == i && owners[folded] == j;
    }
  }

  method ClaimAll(t: Text, ops: seq<Operation>, i: nat, owners: map<string, nat>)
    returns (r: Result<map<string, nat>, ()>)
    requires i < |ops| && Owners(t, ops, i, owners)
    ensures r.Ok? ==> Owners(t, ops, i + 1, r.value)
    ensures r.Err? ==> !OwnedOnce(t, ops)
  {
    var claims := Claims(ops[i]);
    var now := owners;
    for c := 0 to |claims|
      invariant forall folded :: folded in owners ==> folded in now && now[folded] == owners[folded]
      invariant forall folded :: folded in now && folded !in owners ==> now[folded] == i && Claimed(t, ops[i], folded)
      invariant forall d :: 0 <= d < c ==> t.fold(claims[d]) in now && now[t.fold(claims[d])] == i
    {
      var folded := t.fold(claims[c]);
      assert Claimed(t, ops[i], folded);
      if folded in now && now[folded] != i {
        assert Claimed(t, ops[now[folded]], folded);
        return Err(());
      }
      now := now[folded := i];
    }
    forall folded | Claimed(t, ops[i], folded)
      ensures folded in now && now[folded] == i
    {
      var d := if ops[i].Rename? && folded == t.fold(ops[i].to) then 1 else 0;
      assert t.fold(claims[d]) == folded;
    }
    return Ok(now);
  }

  method AssignOwners(t: Text, ops: seq<Operation>) returns (r: bool)
    ensures r <==> OwnedOnce(t, ops)
  {
    hide OwnedOnce;
    var owners: map<string, nat> := map[];
    for i := 0 to |ops|
      invariant Owners(t, ops, i, owners)
    {
      var next := ClaimAll(t, ops, i, owners);
      if next.Err? {
        return false;
      }
      owners := next.value;
    }
    OwnersMeansOwnedOnce(t, ops, owners);
    return true;
  }

  method ValidateOperationGraph(t: Text, ops: seq<Operation>) returns (r: Result<(), ChangeSetError>)
    ensures r.Ok? <==> GraphIsSound(t, ops)
    ensures r == Err(RenameCycle) <==> HasCycle(RenameEdges(t, ops))
    ensures r.Err? ==> r.error == RenameCycle || r.error == OperationConflict
  {
    if OwnedOnce(t, ops) {
      CycleIsSelfRename(t, ops);
    }
    hide OwnedOnce, HasCycle;
    var edges: Edges := map[];
    for i := 0 to |ops|
      invariant edges == RenameEdges(t, ops[..i])
    {
      assert ops[..i + 1][..i] == ops[..i];
      if ops[i].Rename? {
        edges := edges[t.fold(ops[i].from) := t.fold(ops[i].to)];
      }
    }
    assert ops[..|ops|] == ops;
    var cyclic := ContainsRenameCycle(edges);
    if cyclic {
      return Err(RenameCycle);
    }
    var owned := AssignOwners(t, ops);
    return if owned then Ok(()) else Err(OperationConflict);
  }
}
