/** The bounded walk of GraphWalk, specialised to the heads of the decision ref: on a chain its three
    answers are determined by the position of the commit and the bound alone. */
module ChainWalk {
  import opened Base
  import opened GraphWalk
  import opened Synapse
  import opened SerialRuns

  const PARENTS: Edges<Commit> := (c: Commit) => Some(c.parents)

  /** What decision_chain_contains_commit answers when it starts at the live head. */
  function WalkAnswer(s: State, c: Commit): Result<bool, ()>
  {
    if c in s.reflog then
      if |s.reflog| - 1 - Depth(c) <= MAX_DECISION_ANCESTRY then Ok(true) else Err(())
    else
      if |s.reflog| <= MAX_DECISION_ANCESTRY then Ok(false) else Err(())
  }

  lemma {:induction false} DistinctFit<N(!new)>(s: seq<N>, bag: set<N>)
    requires forall i, j :: 0 <= i < j < |s| ==> s[i] != s[j]
    requires forall i :: 0 <= i < |s| ==> s[i] in bag
    ensures |s| <= |bag|
    decreases |s|
  {
    if s != [] {
      var last := s[|s| - 1];
      DistinctFit(s[..|s| - 1], bag - {last});
    }
  }

  lemma {:induction false} ElementsFit<N(!new)>(bag: set<N>, s: seq<N>)
    requires forall n :: n in bag ==> n in s
    ensures |bag| <= |s|
    decreases |s|
  {
    if s != [] {
      var last := s[|s| - 1];
      ElementsFit(bag - {last}, s[..|s| - 1]);
    } else {
      assert bag == {};
    }
  }

  /** A path from the live head walks down the reflog. */
  lemma {:induction false} PathIsReflog(s: State, to: Commit, p: seq<Commit>)
    requires ChainOfHeads(s) && s.reflog != [] && PathTo(PARENTS, Head(s), to, p)
    ensures |p| <= |s.reflog|
    ensures forall i :: 0 <= i < |p| ==> p[i] == s.reflog[|s.reflog| - 1 - i]
    decreases |p|
  {
    var n := |p|;
    if n > 1 {
      var q := p[..n - 1];
      assert IsPath(PARENTS, q);
      PathIsReflog(s, q[n - 2], q);
      assert p[n - 2] == q[n - 2] == s.reflog[|s.reflog| - 1 - (n - 2)];
      assert p[n - 1] in PARENTS(p[n - 2]).value;
      var at := |s.reflog| - 1 - (n - 2);
      if at > 0 {
        assert s.reflog[at].parents == [s.reflog[at - 1]];
      }
    }
  }

  lemma ReflogIsPath(s: State, i: nat)
    requires ChainOfHeads(s) && i < |s.reflog|
    ensures Reaches(PARENTS, Head(s), s.reflog[i])
    decreases |s.reflog| - i
  {
    if i == |s.reflog| - 1 {
      ReachesSelf(PARENTS, Head(s));
    } else {
      ReflogIsPath(s, i + 1);
      assert s.reflog[i + 1].parents == [s.reflog[i]];
      ReachesStep(PARENTS, Head(s), s.reflog[i + 1], s.reflog[i]);
    }
  }

  lemma FoundIsExact(s: State, c: Commit, seen: set<Commit>)
    requires ChainOfHeads(s) && s.reflog != []
    requires |seen| <= MAX_DECISION_ANCESTRY && Trail(PARENTS, Head(s), c, seen)
    ensures WalkAnswer(s, c) == Ok(true)
  {
    var p :| PathTo(PARENTS, Head(s), c, p) && forall i :: 0 <= i < |p| - 1 ==> p[i] in seen;
    PathIsReflog(s, c, p);
    var front := p[..|p| - 1];
    forall i, j | 0 <= i < j < |front|
      ensures front[i] != front[j]
    {
      if front[i] == front[j] {
        HeadsAreDistinct(s, |s.reflog| - 1 - i, |s.reflog| - 1 - j);
      }
    }
    DistinctFit(front, seen);
    assert c == s.reflog[|s.reflog| - |p|];
    DepthIsIndex(s, |s.reflog| - |p|);
  }

  lemma AbsentIsExact(s: State, c: Commit, seen: set<Commit>)
    requires ChainOfHeads(s) && s.reflog != [] && !Reaches(PARENTS, Head(s), c)
    requires |seen| <= MAX_DECISION_ANCESTRY && Closure(PARENTS, Head(s), seen)
    ensures WalkAnswer(s, c) == Ok(false)
  {
    forall i | 0 <= i < |s.reflog|
      ensures s.reflog[i] in seen && s.reflog[i] != c
    {
      ReflogIsPath(s, i);
      if s.reflog[i] !in seen {
        ClosedIsUnreachable(PARENTS, seen, Head(s), s.reflog[i]);
      }
    }
    forall i, j | 0 <= i < j < |s.reflog|
      ensures s.reflog[i] != s.reflog[j]
    {
      if s.reflog[i] == s.reflog[j] {
        HeadsAreDistinct(s, i, j);
      }
    }
    DistinctFit(s.reflog, seen);
  }

  /** A path from the head passes every head down to where it ends. */
  lemma PathPasses(s: State, n: Commit, p: seq<Commit>, d: nat)
    requires ChainOfHeads(s) && s.reflog != [] && PathTo(PARENTS, Head(s), n, p) && d < |s.reflog|
    ensures d >= |s.reflog| - |p| ==> s.reflog[d] in p
  {
    PathIsReflog(s, n, p);
    if d >= |s.reflog| - |p| {
      assert p[|s.reflog| - 1 - d] == s.reflog[d];
    }
  }

  lemma GivenUpIsExact(s: State, c: Commit)
    requires ChainOfHeads(s) && s.reflog != [] && GivesUp(PARENTS, Head(s), c)
    ensures WalkAnswer(s, c) == Err(())
  {
    var seen: set<Commit> :| Crowd(PARENTS, Head(s), c, seen);
    var from := if c in s.reflog then Depth(c) + 1 else 0;
    if c in s.reflog {
      var d :| 0 <= d < |s.reflog| && s.reflog[d] == c;
      DepthIsIndex(s, d);
    }
    forall n | n in seen
      ensures n in s.reflog[from..]
    {
      var p :| PathTo(PARENTS, Head(s), n, p) && c !in p;
      PathIsReflog(s, n, p);
      var at := |s.reflog| - |p|;
      assert n == s.reflog[at];
      if c in s.reflog {
        PathPasses(s, n, p, Depth(c));
      }
      assert s.reflog[from..][at - from] == n;
    }
    ElementsFit(seen, s.reflog[from..]);
  }

  /** decision_chain_contains_commit, started at the live head. */
  method ChainContains(ghost s: State, head: Commit, candidate: Commit) returns (r: Result<bool, ()>)
    requires ChainOfHeads(s) && s.reflog != [] && head == Head(s)
    ensures r == WalkAnswer(s, candidate)
  {
    hide WalkAnswer, ChainOfHeads, Trail, Closure, GivesUp, Reaches;
    r := DecisionChainContainsCommit(PARENTS, head, candidate);
    if r == Ok(true) {
      ghost var seen: set<Commit> :| |seen| <= MAX_DECISION_ANCESTRY && Trail(PARENTS, head, candidate, seen);
      FoundIsExact(s, candidate, seen);
    } else if r == Ok(false) {
      ghost var seen: set<Commit> :| |seen| <= MAX_DECISION_ANCESTRY && Closure(PARENTS, head, seen);
      AbsentIsExact(s, candidate, seen);
    } else {
      GivenUpIsExact(s, candidate);
      r := Err(());
    }
  }

  /** decision_ancestry_contains_proposal, started at the live head. */
  method AncestryContains(ghost s: State, head: Commit, proposal: Commit) returns (r: Result<bool, ()>)
    requires ChainOfHeads(s) && s.reflog != [] && head == Head(s)
    ensures r.Ok? ==> r.value == Decided(s, proposal)
    ensures r.Err? ==> |s.reflog| > MAX_DECISION_ANCESTRY
  {
    var mentions := (c: Commit) => Some(Mentions(c, proposal));
    r := DecisionAncestryContains(PARENTS, mentions, head);
    if r.Ok? {
      forall i | 0 <= i < |s.reflog|
        ensures Reaches(PARENTS, head, s.reflog[i])
      {
        ReflogIsPath(s, i);
      }
      forall c | Reaches(PARENTS, head, c)
        ensures c in s.reflog
      {
        var p :| PathTo(PARENTS, head, c, p);
        PathIsReflog(s, c, p);
        assert c == s.reflog[|s.reflog| - |p|];
      }
    } else {
      ghost var seen: set<Commit> :| Swarm(PARENTS, head, seen);
      forall c | c in seen
        ensures c in s.reflog
      {
        var p :| PathTo(PARENTS, head, c, p);
        PathIsReflog(s, c, p);
        assert c == s.reflog[|s.reflog| - |p|];
      }
      ElementsFit(seen, s.reflog);
    }
  }
}
