/** The table of AI attempts as a value: at most one active attempt per project, each under a generation of
    its own; queued attempts; and a bounded list of tombstones. */
module AttemptTable {
  import opened Base

  const MAX_TERMINAL_ATTEMPTS := 512
  const MAX_GENERATION := 0xFFFF_FFFF_FFFF_FFFF

  datatype AttemptStatus = Queued | Running | Cancelled | TimedOut | ProviderFailed | ValidationFailed | ProposalReady

  datatype ClaimError = ProjectBusy | AttemptAlreadyFinished | GenerationExhausted

  datatype CancelResult = NowCancelled | AlreadyCancelled | NotCancellable

  datatype CompleteResult = Recorded | WasCancelled | NotActive

  datatype ActiveAttempt = ActiveAttempt(attempt: string, generation: nat)

  datatype Tombstone = Tombstone(project: string, attempt: string, status: AttemptStatus)

  /** `signalled` holds the generations whose cancellation channel carries true. */
  datatype Table = Table(active: map<string, ActiveAttempt>, queued: set<(string, string)>, terminal: seq<Tombstone>,
                         nextGeneration: nat, signalled: set<nat>)

  const EMPTY_TABLE := Table(map[], {}, [], 0, {})

  predicate IsFor(x: Tombstone, project: string, attempt: string) { x.project == project && x.attempt == attempt }

  /** The latest tombstone of the attempt. */
  function TerminalStatus(terminal: seq<Tombstone>, project: string, attempt: string): Option<AttemptStatus>
  {
    if terminal == [] then None
    else
      var last := terminal[|terminal| - 1];
      if IsFor(last, project, attempt) then Some(last.status)
         else TerminalStatus(terminal[..|terminal| - 1], project, attempt)
  }

  /** The place of the first tombstone of the attempt, or the length of the list. */
  function FirstPlace(terminal: seq<Tombstone>, project: string, attempt: string): (i: nat)
    ensures i <= |terminal|
    ensures i < |terminal| ==> IsFor(terminal[i], project, attempt)
    ensures forall j :: 0 <= j < i ==> !IsFor(terminal[j], project, attempt)
  {
    if terminal == [] || IsFor(terminal[0], project, attempt) then 0
    else 1 + FirstPlace(terminal[1..], project, attempt)
  }

  function Buried(terminal: seq<Tombstone>, project: string, attempt: string, status: AttemptStatus): seq<Tombstone>
  {
    var i := FirstPlace(terminal, project, attempt);
    if i < |terminal| then terminal[i := terminal[i].(status := status)]
    else (if |terminal| == MAX_TERMINAL_ATTEMPTS then terminal[1..]
         else terminal) + [Tombstone(project, attempt, status)]
  }

  function Bury(t: Table, project: string, attempt: string, status: AttemptStatus): Table
  {
    t.(queued := t.queued - {(project, attempt)}, terminal := Buried(t.terminal, project, attempt, status))
  }

  predicate IsActive(t: Table, project: string, attempt: string)
  {
    project in t.active && t.active[project].attempt == attempt
  }

  predicate IsActiveGeneration(t: Table, project: string, attempt: string, generation: nat)
  {
    project in t.active && t.active[project] == ActiveAttempt(attempt, generation)
  }

  // ---- The operations ----

  datatype Call =
    | Queue(project: string, attempt: string)
    | Claim(project: string, attempt: string)
    | Cancel(project: string, attempt: string)
    | Complete(project: string, attempt: string, generation: nat, status: AttemptStatus)
    | Release(project: string, attempt: string, generation: nat)
    | RemoveProject(project: string)
    | RemoveQueuedProject(project: string)

  function ClaimAnswer(t: Table, project: string, attempt: string): Result<nat, ClaimError>
  {
    if TerminalStatus(t.terminal, project, attempt).Some? then Err(AttemptAlreadyFinished)
    else if project in t.active then Err(ProjectBusy)
    else if t.nextGeneration >= MAX_GENERATION then Err(GenerationExhausted)
    else Ok(t.nextGeneration + 1)
  }

  function CancelAnswer(t: Table, project: string, attempt: string): CancelResult
  {
    if TerminalStatus(t.terminal, project, attempt) == Some(Cancelled) then AlreadyCancelled
    else if IsActive(t, project, attempt) || (project, attempt) in t.queued then NowCancelled
    else NotCancellable
  }

  function CompleteAnswer(t: Table, project: string, attempt: string, generation: nat): CompleteResult
  {
    if project !in t.active then
      if TerminalStatus(t.terminal, project, attempt) == Some(Cancelled) then WasCancelled else NotActive
    else if t.active[project] != ActiveAttempt(attempt, generation) then NotActive
    else if generation in t.signalled || TerminalStatus(t.terminal, project, attempt) == Some(Cancelled)
            then WasCancelled
    else Recorded
  }

  function Step(t: Table, call: Call): Table
  {
    match call
    case Queue(project, attempt) =>
      if TerminalStatus(t.terminal, project, attempt).Some? then t else t.(queued := t.queued + {(project, attempt)})
    case Claim(project, attempt) =>
      if ClaimAnswer(t, project, attempt).Err? then t
      else
        t.(nextGeneration := t.nextGeneration + 1, queued := t.queued - {(project, attempt)},
           active := t.active[project := ActiveAttempt(attempt, t.nextGeneration + 1)])
    case Cancel(project, attempt) =>
      if CancelAnswer(t, project, attempt) != NowCancelled then t
      else if IsActive(t, project, attempt) then
        Bury(t.(active := t.active - {project}, signalled := t.signalled + {t.active[project].generation}), project,
            attempt, Cancelled)
      else Bury(t, project, attempt, Cancelled)
    case Complete(project, attempt, generation, status) =>
      if !IsActiveGeneration(t, project, attempt, generation) then t
      else
        Bury(t.(active := t.active - {project}), project, attempt,
             if CompleteAnswer(t, project, attempt, generation) == WasCancelled then Cancelled else status)
    case Release(project, attempt, generation) =>
      if !IsActiveGeneration(t, project, attempt, generation) then t
      else t.(active := t.active - {project}, queued := t.queued + {(project, attempt)})
    case RemoveProject(project) =>
      t.(active := t.active - {project}, queued := WithoutProject(t.queued, project),
          terminal := KeptTombstones(t.terminal, project))
    case RemoveQueuedProject(project) => t.(queued := WithoutProject(t.queued, project))
  }

  function WithoutProject(queued: set<(string, string)>, project: string): set<(string, string)>
  {
    set k | k in queued && k.0 != project
  }

  function KeptTombstones(terminal: seq<Tombstone>, project: string): (r: seq<Tombstone>)
    ensures |r| <= |terminal|
    ensures forall x :: x in r <==> x in terminal && x.project != project
  {
    if terminal == [] then []
    else
      var last := terminal[|terminal| - 1];
      KeptTombstones(terminal[..|terminal| - 1], project) + if last.project != project then [last] else []
  }

  // ---- What every table satisfies ----

  predicate HasTombstone(t: Table, project: string, attempt: string)
  {
    exists i :: 0 <= i < |t.terminal| && IsFor(t.terminal[i], project, attempt)
  }

  predicate DistinctTombstones(terminal: seq<Tombstone>)
  {
    forall i, j :: 0 <= i < j < |terminal| ==> !IsFor(terminal[j], terminal[i].project, terminal[i].attempt)
  }

  /** Tombstones are distinct, bounded, and neither queued nor active; active generations are issued,
      distinct and not cancelled. */
  ghost predicate TableOk(t: Table)
  {
    && DistinctTombstones(t.terminal) && |t.terminal| <= MAX_TERMINAL_ATTEMPTS
    && (forall k :: k in t.queued ==> !HasTombstone(t, k.0, k.1))
    && (forall p :: p in t.active ==> !HasTombstone(t, p, t.active[p].attempt))
    && (forall p :: p in t.active ==>
         1 <= t.active[p].generation <= t.nextGeneration && t.active[p].generation !in t.signalled)
    && (forall p, q :: p in t.active && q in t.active && t.active[p].generation == t.active[q].generation ==> p == q)
    && (forall g :: g in t.signalled ==> g <= t.nextGeneration)
    && t.nextGeneration <= MAX_GENERATION
  }

  lemma {:induction false} StatusMeansTombstone(t: Table, project: string, attempt: string, n: nat)
    requires n <= |t.terminal|
    ensures TerminalStatus(t.terminal[..n], project, attempt).Some? <==>
              exists i :: 0 <= i < n && IsFor(t.terminal[i], project, attempt)
    decreases n
  {
    if n > 0 {
      assert t.terminal[..n][..n - 1] == t.terminal[..n - 1];
      StatusMeansTombstone(t, project, attempt, n - 1);
    }
  }

  lemma HasStatusIffTombstone(t: Table, project: string, attempt: string)
    ensures TerminalStatus(t.terminal, project, attempt).Some? <==> HasTombstone(t, project, attempt)
  {
    assert t.terminal[..|t.terminal|] == t.terminal;
    StatusMeansTombstone(t, project, attempt, |t.terminal|);
  }

  /** Burying an attempt that has no tombstone yet. */
  lemma BuryKeeps(t: Table, project: string, attempt: string, status: AttemptStatus)
    requires TableOk(t) && !HasTombstone(t, project, attempt) && !IsActive(t, project, attempt)
    ensures TableOk(Bury(t, project, attempt, status))
  {
    var after := Bury(t, project, attempt, status);
    forall p, a | HasTombstone(after, p, a) && (p, a) != (project, attempt)
      ensures HasTombstone(t, p, a)
    {
      var i :| 0 <= i < |after.terminal| && IsFor(after.terminal[i], p, a);
      assert i < |after.terminal| - 1;
    }
    forall i, j | 0 <= i < j < |after.terminal|
      ensures !IsFor(after.terminal[j], after.terminal[i].project, after.terminal[i].attempt)
    {
    }
  }

  lemma {:induction false} KeptAreDistinct(terminal: seq<Tombstone>, project: string)
    requires DistinctTombstones(terminal)
    ensures DistinctTombstones(KeptTombstones(terminal, project))
    decreases |terminal|
  {
    if terminal != [] {
      var last := terminal[|terminal| - 1];
      var kept := KeptTombstones(terminal[..|terminal| - 1], project);
      KeptAreDistinct(terminal[..|terminal| - 1], project);
      forall i | 0 <= i < |kept|
        ensures !IsFor(last, kept[i].project, kept[i].attempt)
      {
        assert kept[i] in terminal[..|terminal| - 1];
      }
    }
  }

  lemma EndingKeepsTable(t: Table, project: string, cancelled: bool)
    requires TableOk(t) && project in t.active
    ensures var u :=
              t.(active := t.active - {project}, signalled := t.signalled + if cancelled
                then {t.active[project].generation} else {});
            TableOk(u) && !HasTombstone(u, project, t.active[project].attempt) && project !in u.active
  {
  }

  lemma RemovalKeepsTable(t: Table, project: string)
    requires TableOk(t)
    ensures TableOk(Step(t, RemoveProject(project)))
  {
    KeptAreDistinct(t.terminal, project);
    var u := Step(t, RemoveProject(project));
    forall p, a | HasTombstone(u, p, a)
      ensures HasTombstone(t, p, a)
    {
      var i :| 0 <= i < |u.terminal| && IsFor(u.terminal[i], p, a);
      assert u.terminal[i] in t.terminal;
    }
  }

  lemma StepKeepsTable(t: Table, call: Call)
    requires TableOk(t)
    ensures TableOk(Step(t, call))
  {
    if !call.RemoveProject? && !call.RemoveQueuedProject? {
      HasStatusIffTombstone(t, call.project, call.attempt);
    }
    match call
    case Cancel(project, attempt) =>
      hide TableOk, HasTombstone, TerminalStatus, Buried;
      if IsActive(t, project, attempt) {
        EndingKeepsTable(t, project, true);
        BuryKeeps(t.(active := t.active - {project}, signalled := t.signalled + {t.active[project].generation}),
            project, attempt, Cancelled);
      } else if CancelAnswer(t, project, attempt) == NowCancelled {
        QueuedHasNoTombstone(t, project, attempt);
        BuryKeeps(t, project, attempt, Cancelled);
      }
    case Complete(project, attempt, generation, status) =>
      hide TableOk, HasTombstone, TerminalStatus, Buried;
      if IsActiveGeneration(t, project, attempt, generation) {
        EndingKeepsTable(t, project, false);
        assert t.signalled + {} == t.signalled;
        BuryKeeps(t.(active := t.active - {project}), project, attempt,
                  if CompleteAnswer(t, project, attempt, generation) == WasCancelled then Cancelled else status);
      }
    case Release(project, attempt, generation) =>
      hide TerminalStatus;
      if IsActiveGeneration(t, project, attempt, generation) {
        EndingKeepsTable(t, project, false);
      }
    case RemoveProject(project) => RemovalKeepsTable(t, project);
    case _ =>
  }

  lemma QueuedHasNoTombstone(t: Table, project: string, attempt: string)
    requires TableOk(t) && (project, attempt) in t.queued
    ensures !HasTombstone(t, project, attempt)
  {
  }
}
