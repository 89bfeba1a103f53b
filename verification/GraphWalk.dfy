/** The worklist searches of synapse_sidecar.rs over the commit DAG and over tree objects.
    A node's edges are `None` when its object cannot be loaded. */
module GraphWalk {
  import opened Base

  const MAX_DECISION_ANCESTRY := 4096

  type Edges<!N> = N -> Option<seq<N>>

  ghost predicate IsPath<N(!new)>(edges: Edges<N>, p: seq<N>)
  {
    |p| > 0 && forall i :: 0 <= i < |p| - 1 ==> edges(p[i]).Some? && p[i + 1] in edges(p[i]).value
  }

  ghost predicate PathTo<N(!new)>(edges: Edges<N>, from: N, to: N, p: seq<N>)
  {
    IsPath(edges, p) && p[0] == from && p[|p| - 1] == to
  }

  ghost predicate Reaches<N(!new)>(edges: Edges<N>, from: N, to: N)
  {
    exists p :: PathTo(edges, from, to, p)
  }

  /** `to` is reached without passing through `avoid`. */
  ghost predicate ReachesAvoiding<N(!new)>(edges: Edges<N>, from: N, to: N, avoid: N)
  {
    exists p :: PathTo(edges, from, to, p) && avoid !in p
  }

  lemma ReachesSelf<N(!new)>(edges: Edges<N>, n: N)
    ensures Reaches(edges, n, n)
    ensures forall avoid :: avoid != n ==> ReachesAvoiding(edges, n, n, avoid)
  {
    assert PathTo(edges, n, n, [n]);
  }

  lemma ReachesStep<N(!new)>(edges: Edges<N>, from: N, mid: N, to: N)
    requires edges(mid).Some? && to in edges(mid).value
    ensures Reaches(edges, from, mid) ==> Reaches(edges, from, to)
    ensures forall avoid ::
              avoid != to && ReachesAvoiding(edges, from, mid, avoid) ==> ReachesAvoiding(edges, from, to, avoid)
  {
    forall p | PathTo(edges, from, mid, p)
      ensures PathTo(edges, from, to, p + [to])
    {
    }
    if Reaches(edges, from, mid) {
      var p :| PathTo(edges, from, mid, p);
      assert PathTo(edges, from, to, p + [to]);
    }
    forall avoid | avoid != to && ReachesAvoiding(edges, from, mid, avoid)
      ensures ReachesAvoiding(edges, from, to, avoid)
    {
      var p :| PathTo(edges, from, mid, p) && avoid !in p;
      assert PathTo(edges, from, to, p + [to]) && avoid !in p + [to];
    }
  }

  /** A set that holds the start and is closed under readable edges holds everything reachable. */
  lemma {:induction false} ClosedHoldsPath<N(!new)>(edges: Edges<N>, closed: set<N>, p: seq<N>)
    requires IsPath(edges, p) && p[0] in closed
    requires forall n, m :: n in closed && edges(n).Some? && m in edges(n).value ==> m in closed
    ensures p[|p| - 1] in closed
    decreases |p|
  {
    if |p| > 1 {
      assert edges(p[0]).Some? && p[1] in edges(p[0]).value;
      ClosedHoldsPath(edges, closed, p[1..]);
    }
  }

  lemma ClosedIsUnreachable<N(!new)>(edges: Edges<N>, closed: set<N>, head: N, target: N)
    requires head in closed && target !in closed
    requires forall n, m :: n in closed && edges(n).Some? && m in edges(n).value ==> m in closed
    ensures !Reaches(edges, head, target)
  {
    if Reaches(edges, head, target) {
      var p :| PathTo(edges, head, target, p);
      ClosedHoldsPath(edges, closed, p);
    }
  }

  /** Why a bounded walk may give up: an unreadable object, or more distinct ancestors
      in front of `avoid` than the bound allows. */
  ghost predicate GivesUp<N(!new)>(edges: Edges<N>, head: N, avoid: N)
  {
    || (exists n :: ReachesAvoiding(edges, head, n, avoid) && edges(n).None?)
    || (exists seen: set<N> :: Crowd(edges, head, avoid, seen))
  }

  ghost predicate Crowd<N(!new)>(edges: Edges<N>, head: N, avoid: N, seen: set<N>)
  {
    |seen| > MAX_DECISION_ANCESTRY && forall n :: n in seen ==> ReachesAvoiding(edges, head, n, avoid)
  }

  /** A path from `head` to `n` that passes only through `seen` before it gets there. */
  ghost predicate Trail<N(!new)>(edges: Edges<N>, head: N, n: N, seen: set<N>)
  {
    exists p :: PathTo(edges, head, n, p) && forall i :: 0 <= i < |p| - 1 ==> p[i] in seen
  }

  lemma TrailStep<N(!new)>(edges: Edges<N>, head: N, mid: N, n: N, seen: set<N>)
    requires Trail(edges, head, mid, seen) && mid in seen
    requires edges(mid).Some? && n in edges(mid).value
    ensures Trail(edges, head, n, seen)
  {
    var p :| PathTo(edges, head, mid, p) && forall i :: 0 <= i < |p| - 1 ==> p[i] in seen;
    assert PathTo(edges, head, n, p + [n]);
    forall i | 0 <= i < |p + [n]| - 1
      ensures (p + [n])[i] in seen
    {
    }
  }

  lemma TrailGrows<N(!new)>(edges: Edges<N>, head: N, n: N, seen: set<N>, more: set<N>)
    requires Trail(edges, head, n, seen) && seen <= more
    ensures Trail(edges, head, n, more)
  {
    var p :| PathTo(edges, head, n, p) && forall i :: 0 <= i < |p| - 1 ==> p[i] in seen;
    assert forall i :: 0 <= i < |p| - 1 ==> p[i] in more;
  }

  /** `seen` holds everything reachable from `head`, and all of it can be read. */
  ghost predicate Closure<N(!new)>(edges: Edges<N>, head: N, seen: set<N>)
  {
    head in seen && forall n :: n in seen ==> edges(n).Some? && forall m :: m in edges(n).value ==> m in seen
  }

  method DecisionChainContainsCommit<N(==,!new)>(edges: Edges<N>, head: N, candidate: N)
    returns (r: Result<bool, ()>)
    ensures r.Ok? ==> (r.value <==> Reaches(edges, head, candidate))
    ensures r == Ok(true) ==> exists seen :: |seen| <= MAX_DECISION_ANCESTRY && Trail(edges, head, candidate, seen)
    ensures r == Ok(false) ==> exists seen :: |seen| <= MAX_DECISION_ANCESTRY && Closure(edges, head, seen)
    ensures r.Err? ==> GivesUp(edges, head, candidate)
  {
    var pending := [head];
    var visited: set<N> := {};
    ReachesSelf(edges, head);
    assert PathTo(edges, head, head, [head]);
    assert Trail(edges, head, head, visited);
    while pending != []
      invariant |visited| <= MAX_DECISION_ANCESTRY
      invariant head in visited || head in pending
      invariant candidate !in visited
      invariant forall n :: n in visited ==> edges(n).Some? && ReachesAvoiding(edges, head, n, candidate)
      invariant forall n :: n in pending ==> Reaches(edges, head, n) && Trail(edges, head, n, visited)
      invariant forall n :: n in pending && n != candidate ==> ReachesAvoiding(edges, head, n, candidate)
      invariant forall n, m :: n in visited && m in edges(n).value ==> m in visited || m in pending
      decreases MAX_DECISION_ANCESTRY - |visited|, |pending|
    {
      var commit := pending[|pending| - 1];
      ghost var before := pending;
      pending := pending[..|pending| - 1];
      assert forall n :: n in before ==> n == commit || n in pending;
      if commit == candidate {
        return Ok(true);
      }
      if commit in visited {
        continue;
      }
      forall n | n in before
        ensures Trail(edges, head, n, visited + {commit})
      {
        TrailGrows(edges, head, n, visited, visited + {commit});
      }
      visited := visited + {commit};
      if |visited| > MAX_DECISION_ANCESTRY {
        assert Crowd(edges, head, candidate, visited);
        return Err(());
      }
      if edges(commit).None? {
        return Err(());
      }
      forall m | m in edges(commit).value
        ensures Reaches(edges, head, m)
        ensures m != candidate ==> ReachesAvoiding(edges, head, m, candidate)
        ensures Trail(edges, head, m, visited)
      {
        ReachesStep(edges, head, commit, m);
        TrailStep(edges, head, commit, m, visited);
      }
      pending := pending + edges(commit).value;
    }
    ClosedIsUnreachable(edges, visited, head, candidate);
    assert Closure(edges, head, visited);
    return Ok(false);
  }

  /** decision_ancestry_contains_proposal: `mentions(n)` says whether a transition record of
      commit `n` is the Decision feedback on the proposal; `None` when a record cannot be loaded. */
  ghost predicate ReachesMention<N(!new)>(edges: Edges<N>, mentions: N -> Option<bool>, head: N)
  {
    exists n :: Reaches(edges, head, n) && mentions(n) == Some(true)
  }

  ghost predicate Swarm<N(!new)>(edges: Edges<N>, head: N, seen: set<N>)
  {
    |seen| > MAX_DECISION_ANCESTRY && forall n :: n in seen ==> Reaches(edges, head, n)
  }

  method DecisionAncestryContains<N(==,!new)>(edges: Edges<N>, mentions: N -> Option<bool>, head: N)
    returns (r: Result<bool, ()>)
    ensures r.Ok? ==> (r.value <==> ReachesMention(edges, mentions, head))
    ensures r.Err? ==>
              || (exists n :: Reaches(edges, head, n) && (edges(n).None? || mentions(n).None?))
              || (exists seen: set<N> :: Swarm(edges, head, seen))
  {
    var pending := [head];
    var visited: set<N> := {};
    ReachesSelf(edges, head);
    while pending != []
      invariant |visited| <= MAX_DECISION_ANCESTRY
      invariant head in visited || head in pending
      invariant forall n :: n in visited ==> edges(n).Some? && mentions(n) == Some(false) && Reaches(edges, head, n)
      invariant forall n :: n in pending ==> Reaches(edges, head, n)
      invariant forall n, m :: n in visited && m in edges(n).value ==> m in visited || m in pending
      decreases MAX_DECISION_ANCESTRY - |visited|, |pending|
    {
      var commit := pending[|pending| - 1];
      ghost var before := pending;
      pending := pending[..|pending| - 1];
      assert forall n :: n in before ==> n == commit || n in pending;
      if commit in visited {
        continue;
      }
      visited := visited + {commit};
      assert |visited| > MAX_DECISION_ANCESTRY ==> Swarm(edges, head, visited);
      if |visited| > MAX_DECISION_ANCESTRY || edges(commit).None? || mentions(commit).None? {
        return Err(());
      }
      if mentions(commit).value {
        return Ok(true);
      }
      forall m | m in edges(commit).value
        ensures Reaches(edges, head, m)
      {
        ReachesStep(edges, head, commit, m);
      }
      pending := pending + edges(commit).value;
    }
    forall n | mentions(n) == Some(true)
      ensures !Reaches(edges, head, n)
    {
      ClosedIsUnreachable(edges, visited, head, n);
    }
    return Ok(false);
  }
}
