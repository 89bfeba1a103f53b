/** The two walks over tree objects: the exact object set of a snapshot, and the iterative
    flattening of a site tree into its regular files. */
module ObjectGraph {
  import opened Base
  import opened GraphWalk

  const MAX_CONTROL_GRAPH_OBJECTS := 20_000

  datatype Kind = BlobKind | RecordKind | TreeKind | OtherKind

  datatype Entry<+N> = Entry(declared: Kind, oid: N)

  /** What a repository can tell about an oid: the kind it is tagged with, and the entries of a tree. */
  datatype Objects<!N> = Objects(kind: N -> Kind, entries: N -> Option<seq<Entry<N>>>)

  predicate WellTagged<N>(o: Objects<N>, e: Entry<N>)
  {
    e.declared != OtherKind && o.kind(e.oid) == e.declared
  }

  function Oids<N>(es: seq<Entry<N>>): (r: seq<N>)
    ensures |r| == |es| && forall i :: 0 <= i < |es| ==> r[i] == es[i].oid
  {
    seq(|es|, i requires 0 <= i < |es| => es[i].oid)
  }

  /** Trees lead to their entries; blobs and records lead nowhere. */
  function SnapshotEdges<N(!new)>(o: Objects<N>): Edges<N>
  {
    n => if o.kind(n) != TreeKind then Some([])
         else match o.entries(n) case None => None case Some(es) => Some(Oids(es))
  }

  ghost predicate DamagedTree<N(!new)>(o: Objects<N>, n: N)
  {
    o.kind(n) == TreeKind && (o.entries(n).None? || exists e :: e in o.entries(n).value && !WellTagged(o, e))
  }

  ghost function EntryCount<N(!new)>(o: Objects<N>, trees: seq<N>): nat
  {
    if trees == [] then 0
    else EntryCount(o, trees[..|trees| - 1]) +
         (match o.entries(trees[|trees| - 1]) case None => 0 case Some(es) => |es|)
  }

  ghost predicate Distinct<N(!new)>(s: seq<N>)
  {
    forall i, j :: 0 <= i < j < |s| ==> s[i] != s[j]
  }

  /** More reachable objects and tree entries than the bound. */
  ghost predicate TooLarge<N(!new)>(o: Objects<N>, root: N)
  {
    exists objects: set<N>, trees: seq<N> ::
      && Distinct(trees)
      && (forall n :: n in objects ==> Reaches(SnapshotEdges(o), root, n))
      && (forall n :: n in trees ==> o.kind(n) == TreeKind && Reaches(SnapshotEdges(o), root, n))
      && |objects| + 1 + EntryCount(o, trees) > MAX_CONTROL_GRAPH_OBJECTS
  }

  ghost predicate Crowded<N(!new)>(o: Objects<N>, root: N, tree: N, objects: set<N>, pending: seq<N>, seen: set<N>)
    requires o.entries(tree).Some?
  {
    && |seen| + |pending| + |o.entries(tree).value| > MAX_CONTROL_GRAPH_OBJECTS
    && forall n :: n in seen && n !in objects ==> Reaches(SnapshotEdges(o), root, n)
  }

  lemma Grows<N>(a: set<N>, b: set<N>, x: N)
    requires a <= b && |a| <= |b|
    ensures |a| <= |b + {x}|
  {
    if x in b {
      assert b + {x} == b;
    }
  }

  /** The inner loop: the entries of one freshly visited tree. */
  method ScanEntries<N(==,!new)>(o: Objects<N>, ghost root: N, tree: N, objects: set<N>, pending: seq<N>)
    returns (r: Result<(set<N>, seq<N>), ()>)
    requires o.kind(tree) == TreeKind && o.entries(tree).Some? && Reaches(SnapshotEdges(o), root, tree)
    requires |objects| <= MAX_CONTROL_GRAPH_OBJECTS
    ensures r.Ok? ==>
              var (seen, waiting) := r.value;
              && !DamagedTree(o, tree)
              && objects <= seen && |objects| <= |seen| <= MAX_CONTROL_GRAPH_OBJECTS
              && pending <= waiting && |waiting| <= |pending| + |o.entries(tree).value|
              && (forall e :: e in o.entries(tree).value ==> e.oid in seen || e.oid in waiting)
              && (forall n :: n in seen && n !in objects ==>
                   o.kind(n) != TreeKind && Reaches(SnapshotEdges(o), root, n))
              && (forall n :: n in waiting ==>
                   n in pending || (o.kind(n) == TreeKind && Reaches(SnapshotEdges(o), root, n)))
    ensures r.Err? ==>
              || DamagedTree(o, tree)
              || exists seen: set<N> :: Crowded(o, root, tree, objects, pending, seen)
  {
    var es := o.entries(tree).value;
    var seen, waiting := objects, pending;
    for i := 0 to |es|
      invariant objects <= seen && |objects| <= |seen| <= MAX_CONTROL_GRAPH_OBJECTS
      invariant pending <= waiting && |waiting| <= |pending| + i
      invariant forall k :: 0 <= k < i ==> WellTagged(o, es[k]) && (es[k].oid in seen || es[k].oid in waiting)
      invariant forall n :: n in seen && n !in objects ==> o.kind(n) != TreeKind && Reaches(SnapshotEdges(o), root, n)
      invariant forall n :: n in waiting ==>
                  n in pending || (o.kind(n) == TreeKind && Reaches(SnapshotEdges(o), root, n))
    {
      var e := es[i];
      if !WellTagged(o, e) {
        assert e in es;
        return Err(());
      }
      assert SnapshotEdges(o)(tree).value[i] == e.oid;
      ReachesStep(SnapshotEdges(o), root, tree, e.oid);
      if e.declared == TreeKind {
        waiting := waiting + [e.oid];
      } else {
        Grows(objects, seen, e.oid);
        seen := seen + {e.oid};
      }
      if |seen| + |waiting| > MAX_CONTROL_GRAPH_OBJECTS {
        assert Crowded(o, root, tree, objects, pending, seen);
        return Err(());
      }
    }
    return Ok((seen, waiting));
  }

  /** Every entry of every tree of `objects` has been collected or is waiting. */
  ghost predicate Collected<N(!new)>(o: Objects<N>, objects: set<N>, pending: seq<N>)
  {
    forall n :: n in objects && o.kind(n) == TreeKind ==>
      o.entries(n).Some? && forall e :: e in o.entries(n).value ==>
          WellTagged(o, e) && (e.oid in objects || e.oid in pending)
  }

  lemma CollectedAll<N(!new)>(o: Objects<N>, objects: set<N>, root: N)
    requires Collected(o, objects, []) && root in objects
    requires forall n :: n in objects ==> Reaches(SnapshotEdges(o), root, n)
    ensures forall n :: n in objects <==> Reaches(SnapshotEdges(o), root, n)
    ensures forall n :: n in objects ==> !DamagedTree(o, n)
  {
    var edges := SnapshotEdges(o);
    forall n, m | n in objects && edges(n).Some? && m in edges(n).value
      ensures m in objects
    {
      if o.kind(n) == TreeKind {
        var i :| 0 <= i < |edges(n).value| && edges(n).value[i] == m;
        assert o.entries(n).value[i] in o.entries(n).value;
      }
    }
    forall n | n !in objects
      ensures !Reaches(edges, root, n)
    {
      ClosedIsUnreachable(edges, objects, root, n);
    }
  }

  lemma CollectTree<N(!new)>(o: Objects<N>, tree: N, objects: set<N>, pending: seq<N>, seen: set<N>, waiting: seq<N>)
    requires Collected(o, objects, pending + [tree])
    requires !DamagedTree(o, tree) && tree in seen && objects <= seen && pending <= waiting
    requires o.kind(tree) == TreeKind && o.entries(tree).Some?
    requires forall e :: e in o.entries(tree).value ==> e.oid in seen || e.oid in waiting
    requires forall n :: n in seen && n !in objects && n != tree ==> o.kind(n) != TreeKind
    ensures Collected(o, seen, waiting)
  {
    forall n, e | n in seen && o.kind(n) == TreeKind && o.entries(n).Some? && e in o.entries(n).value
      ensures WellTagged(o, e) && (e.oid in seen || e.oid in waiting)
    {
      if n != tree && e.oid in pending {
        var i :| 0 <= i < |pending| && pending[i] == e.oid;
        assert waiting[i] == e.oid;
      }
    }
  }

  lemma ShowTooLarge<N(!new)>(o: Objects<N>, root: N, objects: set<N>, trees: seq<N>)
    requires Distinct(trees)
    requires forall n :: n in objects ==> Reaches(SnapshotEdges(o), root, n)
    requires forall n :: n in trees ==> o.kind(n) == TreeKind && Reaches(SnapshotEdges(o), root, n)
    requires |objects| + 1 + EntryCount(o, trees) > MAX_CONTROL_GRAPH_OBJECTS
    ensures TooLarge(o, root)
  {
  }

  lemma ExpandOne<N(!new)>(o: Objects<N>, trees: seq<N>, tree: N)
    requires Distinct(trees) && tree !in trees && o.entries(tree).Some?
    ensures Distinct(trees + [tree]) && EntryCount(o, trees + [tree]) == EntryCount(o, trees) + |o.entries(tree).value|
  {
    assert (trees + [tree])[..|trees|] == trees;
  }

  method SnapshotObjectSet<N(==,!new)>(o: Objects<N>, root: N) returns (r: Result<set<N>, ()>)
    ensures r.Ok? ==> o.kind(root) == TreeKind
    ensures r.Ok? ==> forall n :: n in r.value <==> Reaches(SnapshotEdges(o), root, n)
    ensures r.Ok? ==> forall n :: n in r.value ==> !DamagedTree(o, n)
    ensures r.Err? ==>
              || o.kind(root) != TreeKind
              || TooLarge(o, root)
              || exists n :: Reaches(SnapshotEdges(o), root, n) && DamagedTree(o, n)
  {
    var objects: set<N> := {};
    var pending := [root];
    ghost var trees: seq<N> := [];
    ReachesSelf(SnapshotEdges(o), root);
    while pending != []
      invariant root in objects || root in pending
      invariant |objects| <= MAX_CONTROL_GRAPH_OBJECTS
      invariant forall n :: n in objects ==> Reaches(SnapshotEdges(o), root, n)
      invariant forall n :: n in pending ==> Reaches(SnapshotEdges(o), root, n)
      invariant if o.kind(root) == TreeKind then forall n :: n in pending ==> o.kind(n) == TreeKind
                else pending == [root] && objects == {}
      invariant Collected(o, objects, pending)
      invariant Distinct(trees)
      invariant forall n :: n in trees ==> n in objects && o.kind(n) == TreeKind
      invariant |pending| <= 1 + EntryCount(o, trees)
      decreases MAX_CONTROL_GRAPH_OBJECTS - |objects|, |pending|
    {
      var tree := pending[|pending| - 1];
      assert pending == pending[..|pending| - 1] + [tree];
      pending := pending[..|pending| - 1];
      if tree in objects {
        continue;
      }
      if |objects| == MAX_CONTROL_GRAPH_OBJECTS {
        ShowTooLarge(o, root, objects + {tree}, trees);
        return Err(());
      }
      if o.kind(tree) != TreeKind {
        return Err(());
      }
      if o.entries(tree).None? {
        assert DamagedTree(o, tree);
        return Err(());
      }
      ExpandOne(o, trees, tree);
      trees := trees + [tree];
      var scan := ScanEntries(o, root, tree, objects + {tree}, pending);
      if scan.Err? {
        if !DamagedTree(o, tree) {
          ghost var seen: set<N> :| Crowded(o, root, tree, objects + {tree}, pending, seen);
          ShowTooLarge(o, root, seen, trees);
        }
        return Err(());
      }
      CollectTree(o, tree, objects, pending, scan.value.0, scan.value.1);
      objects, pending := scan.value.0, scan.value.1;
    }
    CollectedAll(o, objects, root);
    return Ok(objects);
  }

  /** A site tree with its subtrees in place: content addressing makes the object graph a tree of values. */
  datatype Tree = Tree(entries: seq<TreeEntry>)

  datatype TreeEntry = TreeEntry(name: string, node: Node)

  datatype Node = Blob(bytes: Bytes) | Missing | Sub(tree: Tree) | Malformed

  datatype Limits = Limits(maxDepth: nat, maxFiles: nat, maxFileBytes: nat, maxTotalBytes: nat)

  /** The regular files a tree flattens to, each as often as it occurs. */
  function Flatten(t: Tree, prefix: string): multiset<(string, Bytes)>
    decreases t, 1, 0
  {
    FlattenEntries(t, 0, prefix)
  }

  function FlattenEntries(t: Tree, from: nat, prefix: string): multiset<(string, Bytes)>
    requires from <= |t.entries|
    decreases t, 0, |t.entries| - from
  {
    if from == |t.entries| then multiset{}
    else
      var path := Child(prefix, t.entries[from].name);
      (match t.entries[from].node
       case Blob(bytes) => multiset{(path, bytes)}
       case Sub(child) => Flatten(child, path)
       case _ => multiset{})
      + FlattenEntries(t, from + 1, prefix)
  }

  function Child(prefix: string, name: string): string
  {
    if prefix == "" then name else prefix + "/" + name
  }

  /** The quantities the limits bound. */
  datatype Size = Size(files: nat, trees: nat, bytes: nat, sound: bool)

  function Plus(a: Size, b: Size): Size
  {
    Size(a.files + b.files, a.trees + b.trees, a.bytes + b.bytes, a.sound && b.sound)
  }

  function SizeOf(t: Tree, depth: nat, limits: Limits): Size
    decreases t, 1, 0
  {
    Plus(Size(0, 1, 0, depth <= limits.maxDepth), SizeOfEntries(t, 0, depth, limits))
  }

  function SizeOfEntries(t: Tree, from: nat, depth: nat, limits: Limits): Size
    requires from <= |t.entries|
    decreases t, 0, |t.entries| - from
  {
    if from == |t.entries| then Size(0, 0, 0, true)
    else
      Plus(match t.entries[from].node
           case Blob(bytes) => Size(1, 0, |bytes|, |bytes| <= limits.maxFileBytes)
           case Sub(child) => SizeOf(child, depth + 1, limits)
           case Missing => Size(0, 0, 0, false)
           case Malformed => Size(0, 0, 0, false),
           SizeOfEntries(t, from + 1, depth, limits))
  }

  predicate WithinLimits(s: Size, limits: Limits)
  {
    s.sound && s.trees <= MAX_CONTROL_GRAPH_OBJECTS && s.files <= limits.maxFiles && s.bytes <= limits.maxTotalBytes
  }

  datatype Work = Work(tree: Tree, prefix: string, depth: nat)

  ghost function RestFiles(pending: seq<Work>): multiset<(string, Bytes)>
  {
    if pending == [] then multiset{}
    else
      var w := pending[|pending| - 1];
      Flatten(w.tree, w.prefix) + RestFiles(pending[..|pending| - 1])
  }

  ghost function RestSize(pending: seq<Work>, limits: Limits): Size
  {
    if pending == [] then Size(0, 0, 0, true)
    else
      var w := pending[|pending| - 1];
      Plus(SizeOf(w.tree, w.depth, limits), RestSize(pending[..|pending| - 1], limits))
  }

  lemma PushSize(pending: seq<Work>, w: Work, limits: Limits)
    ensures RestSize(pending + [w], limits) == Plus(SizeOf(w.tree, w.depth, limits), RestSize(pending, limits))
  {
    assert (pending + [w])[..|pending|] == pending;
  }

  lemma PushFiles(pending: seq<Work>, w: Work)
    ensures RestFiles(pending + [w]) == Flatten(w.tree, w.prefix) + RestFiles(pending)
  {
    assert (pending + [w])[..|pending|] == pending;
  }

  lemma {:induction false} RestCounts(pending: seq<Work>, limits: Limits)
    ensures |pending| <= RestSize(pending, limits).trees
  {
    if pending != [] {
      RestCounts(pending[..|pending| - 1], limits);
    }
  }

  type Bag = multiset<(string, Bytes)>

  lemma Regroup(read: Bag, waiting: Bag, here: Bag, later: Bag)
    ensures read + waiting + (here + later) == (read + here) + waiting + later
    ensures read + waiting + (here + later) == read + (here + waiting) + later
  {
  }

  datatype Flattened = Flattened(entries: seq<(string, Bytes)>, total: nat, pending: seq<Work>)

  /** All the files there are: read, waiting on the stack, and in the entries of `w` from `i` on. */
  ghost function AllFiles(at: Flattened, w: Work, i: nat): Bag
    requires i <= |w.tree.entries|
  {
    multiset(at.entries) + RestFiles(at.pending) + FlattenEntries(w.tree, i, w.prefix)
  }

  ghost function AllSize(at: Flattened, w: Work, i: nat, limits: Limits): Size
    requires i <= |w.tree.entries|
  {
    Plus(Plus(Size(|at.entries|, 0, at.total, true), RestSize(at.pending, limits)),
        SizeOfEntries(w.tree, i, w.depth, limits))
  }

  function Subtree(w: Work, i: nat): Work
    requires i < |w.tree.entries| && w.tree.entries[i].node.Sub?
  {
    Work(w.tree.entries[i].node.tree, Child(w.prefix, w.tree.entries[i].name), w.depth + 1)
  }

  lemma PushTreeSize(at: Flattened, w: Work, i: nat, limits: Limits)
    requires i < |w.tree.entries| && w.tree.entries[i].node.Sub?
    ensures AllSize(at.(pending := at.pending + [Subtree(w, i)]), w, i + 1, limits) == AllSize(at, w, i, limits)
  {
    PushSize(at.pending, Subtree(w, i), limits);
  }

  lemma PushTreeFiles(at: Flattened, w: Work, i: nat)
    requires i < |w.tree.entries| && w.tree.entries[i].node.Sub?
    ensures AllFiles(at.(pending := at.pending + [Subtree(w, i)]), w, i + 1) == AllFiles(at, w, i)
  {
    var child := Subtree(w, i);
    PushFiles(at.pending, child);
    var later := FlattenEntries(w.tree, i + 1, w.prefix);
    assert FlattenEntries(w.tree, i, w.prefix) == Flatten(child.tree, child.prefix) + later;
    hide *;
    Regroup(multiset(at.entries), RestFiles(at.pending), Flatten(child.tree, child.prefix), later);
    assert AllFiles(at, w, i) ==
             multiset(at.entries) + RestFiles(at.pending) + (Flatten(child.tree, child.prefix) + later);
  }

  lemma ReadFile(at: Flattened, w: Work, i: nat, limits: Limits)
    requires i < |w.tree.entries| && w.tree.entries[i].node.Blob?
    ensures var path, bytes := Child(w.prefix, w.tree.entries[i].name), w.tree.entries[i].node.bytes;
            var now := at.(entries := at.entries + [(path, bytes)], total := at.total + |bytes|);
            && AllFiles(now, w, i + 1) == AllFiles(at, w, i)
            && (|bytes| <= limits.maxFileBytes ==> AllSize(now, w, i + 1, limits) == AllSize(at, w, i, limits))
    ensures var bytes := w.tree.entries[i].node.bytes;
            |at.entries| >= limits.maxFiles || |bytes| > limits.maxFileBytes
              || at.total + |bytes| > limits.maxTotalBytes
            ==> !WithinLimits(AllSize(at, w, i, limits), limits)
  {
    var path, bytes := Child(w.prefix, w.tree.entries[i].name), w.tree.entries[i].node.bytes;
    assert multiset(at.entries + [(path, bytes)]) == multiset(at.entries) + multiset{(path, bytes)};
    Regroup(multiset(at.entries), RestFiles(at.pending), multiset{(path, bytes)},
        FlattenEntries(w.tree, i + 1, w.prefix));
  }

  lemma Unsound(at: Flattened, w: Work, i: nat, limits: Limits)
    requires i < |w.tree.entries| && (w.tree.entries[i].node.Missing? || w.tree.entries[i].node.Malformed?)
    ensures !WithinLimits(AllSize(at, w, i, limits), limits)
  {
  }

  /** The inner loop: the entries of one expanded tree. */
  method ExpandTree(w: Work, limits: Limits, at: Flattened) returns (r: Result<Flattened, ()>)
    ensures r.Err? ==> !WithinLimits(AllSize(at, w, 0, limits), limits)
    ensures r.Ok? ==> AllSize(r.value, w, |w.tree.entries|, limits) == AllSize(at, w, 0, limits)
    ensures r.Ok? ==> AllFiles(r.value, w, |w.tree.entries|) == AllFiles(at, w, 0)
    ensures r.Ok? && |at.entries| <= limits.maxFiles && at.total <= limits.maxTotalBytes ==>
              |r.value.entries| <= limits.maxFiles && r.value.total <= limits.maxTotalBytes
  {
    hide AllSize, AllFiles, RestFiles, RestSize, Flatten, FlattenEntries, SizeOf, SizeOfEntries, WithinLimits;
    var now := at;
    for i := 0 to |w.tree.entries|
      invariant AllSize(now, w, i, limits) == AllSize(at, w, 0, limits)
      invariant AllFiles(now, w, i) == AllFiles(at, w, 0)
      invariant |at.entries| <= limits.maxFiles && at.total <= limits.maxTotalBytes ==>
                  |now.entries| <= limits.maxFiles && now.total <= limits.maxTotalBytes
    {
      var path := Child(w.prefix, w.tree.entries[i].name);
      match w.tree.entries[i].node {
        case Sub(child) =>
          PushTreeSize(now, w, i, limits);
          PushTreeFiles(now, w, i);
          now := now.(pending := now.pending + [Work(child, path, w.depth + 1)]);
        case Blob(bytes) =>
          ReadFile(now, w, i, limits);
          if |now.entries| >= limits.maxFiles || |bytes| > limits.maxFileBytes
             || now.total + |bytes| > limits.maxTotalBytes {
            return Err(());
          }
          now := now.(entries := now.entries + [(path, bytes)], total := now.total + |bytes|);
        case _ =>
          Unsound(now, w, i, limits);
          return Err(());
      }
    }
    return Ok(now);
  }

  /** Everything the walk has to account for: trees expanded so far, files read, and the stack. */
  ghost predicate Accounted(root: Tree, at: Flattened, expanded: nat, limits: Limits)
  {
    && Plus(Size(|at.entries|, expanded, at.total, true), RestSize(at.pending, limits)) == SizeOf(root, 0, limits)
    && multiset(at.entries) + RestFiles(at.pending) == Flatten(root, "")
  }

  lemma Begin(root: Tree, limits: Limits)
    ensures Accounted(root, Flattened([], 0, [Work(root, "", 0)]), 0, limits)
  {
    PushSize([], Work(root, "", 0), limits);
    PushFiles([], Work(root, "", 0));
    assert [] + [Work(root, "", 0)] == [Work(root, "", 0)];
  }

  lemma PopTree(root: Tree, at: Flattened, w: Work, expanded: nat, limits: Limits)
    requires Accounted(root, at.(pending := at.pending + [w]), expanded, limits)
    ensures expanded < SizeOf(root, 0, limits).trees
    ensures w.depth > limits.maxDepth || expanded + 1 > MAX_CONTROL_GRAPH_OBJECTS ==>
              !WithinLimits(SizeOf(root, 0, limits), limits)
    ensures !WithinLimits(AllSize(at, w, 0, limits), limits) ==> !WithinLimits(SizeOf(root, 0, limits), limits)
  {
    PushSize(at.pending, w, limits);
    PopSize(Size(|at.entries|, 0, at.total, true), expanded, w.depth <= limits.maxDepth,
            SizeOfEntries(w.tree, 0, w.depth, limits), RestSize(at.pending, limits), limits);
  }

  lemma PopSize(read: Size, expanded: nat, shallow: bool, inside: Size, rest: Size, limits: Limits)
    ensures var all := Plus(read.(trees := expanded), Plus(Plus(Size(0, 1, 0, shallow), inside), rest));
            && expanded < all.trees
            && (!shallow || expanded + 1 > MAX_CONTROL_GRAPH_OBJECTS ==> !WithinLimits(all, limits))
            && (!WithinLimits(Plus(Plus(read.(trees := 0), rest), inside), limits) ==> !WithinLimits(all, limits))
  {
  }

  lemma Expanded(root: Tree, at: Flattened, w: Work, expanded: nat, now: Flattened, limits: Limits)
    requires Accounted(root, at.(pending := at.pending + [w]), expanded, limits) && w.depth <= limits.maxDepth
    requires AllSize(now, w, |w.tree.entries|, limits) == AllSize(at, w, 0, limits)
    requires AllFiles(now, w, |w.tree.entries|) == AllFiles(at, w, 0)
    ensures Accounted(root, now, expanded + 1, limits)
    ensures expanded + 1 + |now.pending| > MAX_CONTROL_GRAPH_OBJECTS ==> !WithinLimits(SizeOf(root, 0, limits), limits)
  {
    ExpandedFiles(at, w, now);
    PushSize(at.pending, w, limits);
    RestCounts(now.pending, limits);
    hide Flatten, FlattenEntries, RestFiles, AllFiles;
  }

  lemma ExpandedFiles(at: Flattened, w: Work, now: Flattened)
    requires AllFiles(now, w, |w.tree.entries|) == AllFiles(at, w, 0)
    ensures multiset(now.entries) + RestFiles(now.pending) == multiset(at.entries) + RestFiles(at.pending + [w])
  {
    PushFiles(at.pending, w);
    assert multiset(now.entries) + RestFiles(now.pending) + multiset{} ==
             multiset(now.entries) + RestFiles(now.pending);
    Regroup(multiset(at.entries), RestFiles(at.pending), Flatten(w.tree, w.prefix), multiset{});
  }

  /** manifest_digest_at_commit, up to the digest: the explicit stack gives exactly the recursive
      flattening, and fails exactly when the recursive flattening breaks a limit or the manifest builder
      refuses its entries. `builds` is that builder; nothing is assumed of it. */
  method FlattenSite(root: Tree, limits: Limits, builds: Bag -> bool) returns (r: Result<seq<(string, Bytes)>, ()>)
    ensures r.Ok? <==> WithinLimits(SizeOf(root, 0, limits), limits) && builds(Flatten(root, ""))
    ensures r.Ok? ==> multiset(r.value) == Flatten(root, "")
  {
    hide AllSize, AllFiles;
    var at := Flattened([], 0, [Work(root, "", 0)]);
    var expanded: nat := 0;
    Begin(root, limits);
    while at.pending != []
      invariant Accounted(root, at, expanded, limits)
      invariant |at.entries| <= limits.maxFiles && at.total <= limits.maxTotalBytes
      invariant expanded + |at.pending| <= MAX_CONTROL_GRAPH_OBJECTS
      decreases SizeOf(root, 0, limits).trees - expanded
    {
      hide Accounted, SizeOf, WithinLimits;
      var work := at.pending[|at.pending| - 1];
      var rest := at.(pending := at.pending[..|at.pending| - 1]);
      assert at == rest.(pending := rest.pending + [work]);
      PopTree(root, rest, work, expanded, limits);
      if work.depth > limits.maxDepth || expanded + 1 > MAX_CONTROL_GRAPH_OBJECTS {
        return Err(());
      }
      var next := ExpandTree(work, limits, rest);
      if next.Err? {
        return Err(());
      }
      Expanded(root, rest, work, expanded, next.value, limits);
      at := next.value;
      expanded := expanded + 1;
      if expanded + |at.pending| > MAX_CONTROL_GRAPH_OBJECTS {
        return Err(());
      }
    }
    assert multiset(at.entries) + multiset{} == multiset(at.entries);
    return if builds(multiset(at.entries)) then Ok(at.entries) else Err(());
  }
}
