/** Fencing over whole runs of the attempt table. */
module AttemptRuns {
  import opened Base
  import opened AttemptTable

  /** The generation that a call ends: recorded, cancelled, released or removed with its project. */
  function Ends(t: Table, call: Call): Option<nat>
  {
    match call
    case Cancel(project, attempt) =>
      if CancelAnswer(t, project, attempt) == NowCancelled && IsActive(t, project, attempt)
         then Some(t.active[project].generation) else None
    case Complete(project, attempt, generation, _) =>
           if IsActiveGeneration(t, project, attempt, generation) then Some(generation) else None
    case Release(project, attempt, generation) =>
           if IsActiveGeneration(t, project, attempt, generation) then Some(generation) else None
    case RemoveProject(project) => if project in t.active then Some(t.active[project].generation) else None
    case _ => None
  }

  function Run(t: Table, calls: seq<Call>): Table
    decreases |calls|
  {
    if calls == [] then t else Run(Step(t, calls[0]), calls[1..])
  }

  /** The generations a run ends, in order. */
  function Ended(t: Table, calls: seq<Call>): seq<nat>
    decreases |calls|
  {
    if calls == [] then []
    else (if Ends(t, calls[0]).Some? then [Ends(t, calls[0]).value] else []) + Ended(Step(t, calls[0]), calls[1..])
  }

  /** The generations a run issues, in order. */
  function Issued(t: Table, calls: seq<Call>): seq<nat>
    decreases |calls|
  {
    if calls == [] then []
    else
      (if calls[0].Claim? && ClaimAnswer(t, calls[0].project, calls[0].attempt).Ok? then [t.nextGeneration + 1] else [])
      + Issued(Step(t, calls[0]), calls[1..])
  }

  predicate Holds(t: Table, generation: nat)
  {
    exists p :: p in t.active && t.active[p].generation == generation
  }

  /** Issued, but no longer held by any project. */
  predicate Gone(t: Table, generation: nat) { generation <= t.nextGeneration && !Holds(t, generation) }

  lemma EndingIsGone(t: Table, call: Call)
    requires TableOk(t) && Ends(t, call).Some?
    ensures Holds(t, Ends(t, call).value) && 1 <= Ends(t, call).value && Gone(Step(t, call), Ends(t, call).value)
  {
    assert t.active[call.project].generation == Ends(t, call).value;
    hide TerminalStatus, Buried;
  }

  lemma StepKeepsGone(t: Table, call: Call, generation: nat)
    requires TableOk(t) && Gone(t, generation)
    ensures Gone(Step(t, call), generation) && t.nextGeneration <= Step(t, call).nextGeneration
  {
    hide TerminalStatus, Buried, TableOk;
    var u := Step(t, call);
    forall p | p in u.active
      ensures u.active[p].generation != generation
    {
      assert p in t.active ==> t.active[p].generation != generation;
    }
  }

  lemma {:induction false} RunKeepsGone(t: Table, calls: seq<Call>, generation: nat)
    requires TableOk(t) && Gone(t, generation)
    ensures TableOk(Run(t, calls)) && Gone(Run(t, calls), generation) && generation !in Ended(t, calls)
    decreases |calls|
  {
    hide TableOk, Step, Gone;
    if calls != [] {
      StepKeepsTable(t, calls[0]);
      StepKeepsGone(t, calls[0], generation);
      if Ends(t, calls[0]).Some? {
        EndingIsGone(t, calls[0]);
        HeldIsNotGone(t, Ends(t, calls[0]).value);
      }
      RunKeepsGone(Step(t, calls[0]), calls[1..], generation);
    }
  }

  lemma HeldIsNotGone(t: Table, generation: nat)
    requires Holds(t, generation)
    ensures !Gone(t, generation)
  {
  }

  /** Every generation takes effect at most once over a whole run. */
  lemma {:induction false} EndsAtMostOnce(t: Table, calls: seq<Call>)
    requires TableOk(t)
    ensures TableOk(Run(t, calls))
    ensures forall i, j :: 0 <= i < j < |Ended(t, calls)| ==> Ended(t, calls)[i] != Ended(t, calls)[j]
    decreases |calls|
  {
    hide TableOk, Step, Gone, Ends;
    if calls != [] {
      StepKeepsTable(t, calls[0]);
      EndsAtMostOnce(Step(t, calls[0]), calls[1..]);
      if Ends(t, calls[0]).Some? {
        EndingIsGone(t, calls[0]);
        RunKeepsGone(Step(t, calls[0]), calls[1..], Ends(t, calls[0]).value);
      }
    }
  }

  /** Claims issue the numbers 1, 2, 3, ... in turn. */
  lemma {:induction false} GenerationsIncrease(t: Table, calls: seq<Call>)
    ensures Run(t, calls).nextGeneration == t.nextGeneration + |Issued(t, calls)|
    ensures forall k :: 0 <= k < |Issued(t, calls)| ==> Issued(t, calls)[k] == t.nextGeneration + 1 + k
    decreases |calls|
  {
    if calls != [] {
      hide TerminalStatus, Buried;
      NextGenerationOf(t, calls[0]);
      GenerationsIncrease(Step(t, calls[0]), calls[1..]);
      hide Step, ClaimAnswer;
    }
  }

  lemma NextGenerationOf(t: Table, call: Call)
    ensures Step(t, call).nextGeneration
            == t.nextGeneration + if call.Claim? && ClaimAnswer(t, call.project, call.attempt).Ok? then 1 else 0
  {
  }

  /** Once a generation has ended in any way, no later call made under it does anything, whatever happened
      since: tombstones may have been evicted and the same attempt claimed again. */
  lemma EndedIsFenced(t: Table, call: Call, calls: seq<Call>, project: string, attempt: string, status: AttemptStatus)
    requires TableOk(t) && Ends(t, call).Some?
    ensures var g := Ends(t, call).value;
            var u := Run(Step(t, call), calls);
            && CompleteAnswer(u, project, attempt, g) != Recorded
            && !IsActiveGeneration(u, project, attempt, g)
            && Step(u, Complete(project, attempt, g, status)) == u
            && Step(u, Release(project, attempt, g)) == u
  {
    var g := Ends(t, call).value;
    EndingIsGone(t, call);
    StepKeepsTable(t, call);
    RunKeepsGone(Step(t, call), calls, g);
    hide TableOk, Run, TerminalStatus;
    assert IsActiveGeneration(Run(Step(t, call), calls), project, attempt, g) ==> Holds(Run(Step(t, call), calls), g);
  }

  /** A tombstone keeps its status for as long as it exists, unless its project is removed. */
  lemma TombstonesAreFinal(t: Table, call: Call)
    requires TableOk(t)
    ensures forall x, y :: x in t.terminal && y in Step(t, call).terminal && IsFor(y, x.project, x.attempt) ==> x == y
  {
    forall x, y | x in t.terminal && y in Step(t, call).terminal && IsFor(y, x.project, x.attempt)
      ensures x == y
    {
      var i :| 0 <= i < |t.terminal| && t.terminal[i] == x;
      if y in t.terminal {
        var j :| 0 <= j < |t.terminal| && t.terminal[j] == y;
        assert i < j || j < i || i == j;
      } else {
        NewTombstone(t, call, y);
        assert IsFor(t.terminal[i], y.project, y.attempt);
      }
    }
  }

  lemma NewTombstone(t: Table, call: Call, y: Tombstone)
    requires TableOk(t) && y in Step(t, call).terminal && y !in t.terminal
    ensures !HasTombstone(t, y.project, y.attempt)
  {
    hide TerminalStatus;
  }
}
