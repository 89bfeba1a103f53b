/** ai_attempt.rs: the attempt table as the server keeps it, updated in place. Watch channels are reduced to
    the set of generations whose channel carries true. */
module AiAttempts {
  import opened Base
  import opened AttemptTable

  class Attempts {
    var activeByProject: map<string, ActiveAttempt>
    var queued: set<(string, string)>
    var terminal: seq<Tombstone>
    var nextGeneration: nat
    var signalled: set<nat>

    function Now(): Table
      reads this
    {
      Table(activeByProject, queued, terminal, nextGeneration, signalled)
    }

    ghost predicate Valid()
      reads this
    {
      TableOk(Now())
    }

    constructor ()
      ensures Valid() && Now() == EMPTY_TABLE
    {
      activeByProject, queued, terminal, nextGeneration, signalled := map[], {}, [], 0, {};
    }

    /** Searches from the newest tombstone back. */
    method FindStatus(project: string, attempt: string) returns (r: Option<AttemptStatus>)
      ensures r == TerminalStatus(terminal, project, attempt)
    {
      assert terminal[..|terminal|] == terminal;
      for i := |terminal| downto 0
        invariant TerminalStatus(terminal, project, attempt) == TerminalStatus(terminal[..i], project, attempt)
      {
        assert terminal[..i + 1][..i] == terminal[..i];
        if IsFor(terminal[i], project, attempt) {
          return Some(terminal[i].status);
        }
      }
      return None;
    }

    /** Updates the attempt's tombstone, or adds one and evicts the oldest beyond the bound. */
    method RecordTerminal(project: string, attempt: string, status: AttemptStatus)
      modifies this`queued, this`terminal
      ensures Now() == Bury(old(Now()), project, attempt, status)
    {
      queued := queued - {(project, attempt)};
      for i := 0 to |terminal|
        invariant terminal == old(terminal)
        invariant FirstPlace(terminal, project, attempt) >= i
      {
        if IsFor(terminal[i], project, attempt) {
          terminal := terminal[i := terminal[i].(status := status)];
          return;
        }
      }
      if |terminal| == MAX_TERMINAL_ATTEMPTS {
        terminal := terminal[1..];
      }
      terminal := terminal + [Tombstone(project, attempt, status)];
    }

    method Queue(project: string, attempt: string) returns (r: Result<(), ClaimError>)
      requires Valid()
      modifies this
      ensures Valid() && Now() == Step(old(Now()), Call.Queue(project, attempt))
      ensures r == if TerminalStatus(old(terminal), project, attempt).Some? then Err(AttemptAlreadyFinished) else Ok(())
    {
      hide TableOk, TerminalStatus;
      StepKeepsTable(Now(), Call.Queue(project, attempt));
      var finished := FindStatus(project, attempt);
      if finished.Some? {
        return Err(AttemptAlreadyFinished);
      }
      queued := queued + {(project, attempt)};
      return Ok(());
    }

    method Claim(project: string, attempt: string) returns (r: Result<nat, ClaimError>)
      requires Valid()
      modifies this
      ensures Valid() && Now() == Step(old(Now()), Call.Claim(project, attempt))
      ensures r == ClaimAnswer(old(Now()), project, attempt)
    {
      hide TableOk, TerminalStatus;
      StepKeepsTable(Now(), Call.Claim(project, attempt));
      var finished := FindStatus(project, attempt);
      if finished.Some? {
        return Err(AttemptAlreadyFinished);
      }
      if project in activeByProject {
        return Err(ProjectBusy);
      }
      if nextGeneration >= MAX_GENERATION {
        return Err(GenerationExhausted);
      }
      nextGeneration := nextGeneration + 1;
      queued := queued - {(project, attempt)};
      activeByProject := activeByProject[project := ActiveAttempt(attempt, nextGeneration)];
      return Ok(nextGeneration);
    }

    method Cancel(project: string, attempt: string) returns (r: CancelResult)
      requires Valid()
      modifies this
      ensures Valid() && Now() == Step(old(Now()), Call.Cancel(project, attempt))
      ensures r == CancelAnswer(old(Now()), project, attempt)
      ensures r == NowCancelled && IsActive(old(Now()), project, attempt) ==>
                old(activeByProject)[project].generation in signalled
    {
      hide TableOk, TerminalStatus, Buried;
      StepKeepsTable(Now(), Call.Cancel(project, attempt));
      var status := FindStatus(project, attempt);
      if status == Some(Cancelled) {
        return AlreadyCancelled;
      }
      if project in activeByProject && activeByProject[project].attempt == attempt {
        signalled := signalled + {activeByProject[project].generation};
        activeByProject := activeByProject - {project};
        RecordTerminal(project, attempt, Cancelled);
        return NowCancelled;
      }
      if (project, attempt) in queued {
        queued := queued - {(project, attempt)};
        assert queued - {(project, attempt)} == queued;
        RecordTerminal(project, attempt, Cancelled);
        return NowCancelled;
      }
      return NotCancellable;
    }

    method Complete(project: string, attempt: string, generation: nat, status: AttemptStatus)
      returns (r: CompleteResult)
      requires Valid()
      modifies this
      ensures Valid() && Now() == Step(old(Now()), Call.Complete(project, attempt, generation, status))
      ensures r == CompleteAnswer(old(Now()), project, attempt, generation)
    {
      hide TableOk, TerminalStatus, Buried;
      StepKeepsTable(Now(), Call.Complete(project, attempt, generation, status));
      var finished := FindStatus(project, attempt);
      if project !in activeByProject {
        return if finished == Some(Cancelled) then WasCancelled else NotActive;
      }
      if activeByProject[project].attempt != attempt || activeByProject[project].generation != generation {
        return NotActive;
      }
      var cancelled := generation in signalled || finished == Some(Cancelled);
      activeByProject := activeByProject - {project};
      if cancelled {
        RecordTerminal(project, attempt, Cancelled);
        return WasCancelled;
      }
      RecordTerminal(project, attempt, status);
      return Recorded;
    }

    /** Releases exactly the named generation and queues its attempt again; no tombstone is left. */
    method Release(project: string, attempt: string, generation: nat) returns (released: bool)
      requires Valid()
      modifies this
      ensures Valid() && Now() == Step(old(Now()), Call.Release(project, attempt, generation))
      ensures released == IsActiveGeneration(old(Now()), project, attempt, generation)
    {
      hide TableOk, TerminalStatus;
      StepKeepsTable(Now(), Call.Release(project, attempt, generation));
      released := project in activeByProject && activeByProject[project] == ActiveAttempt(attempt, generation);
      if released {
        activeByProject := activeByProject - {project};
        queued := queued + {(project, attempt)};
      }
    }

    /** What the creator is shown; an active attempt is never shown as cancelled, because cancelling removes it. */
    method Status(project: string, attempt: string) returns (r: Option<AttemptStatus>)
      requires Valid()
      ensures r == (if IsActive(Now(), project, attempt) then Some(Running)
                    else if TerminalStatus(terminal, project, attempt).Some?
                            then TerminalStatus(terminal, project, attempt)
                    else if (project, attempt) in queued then Some(Queued) else None)
    {
      if project in activeByProject && activeByProject[project].attempt == attempt {
        return Some(if activeByProject[project].generation in signalled then Cancelled else Running);
      }
      r := FindStatus(project, attempt);
      if r == None && (project, attempt) in queued {
        r := Some(Queued);
      }
    }

    method RemoveProject(project: string)
      requires Valid()
      modifies this
      ensures Valid() && Now() == Step(old(Now()), Call.RemoveProject(project))
    {
      hide TableOk;
      StepKeepsTable(Now(), Call.RemoveProject(project));
      assert terminal[..|terminal|] == terminal;
      activeByProject := activeByProject - {project};
      queued := WithoutProject(queued, project);
      var kept: seq<Tombstone> := [];
      for i := 0 to |terminal|
        invariant terminal == old(terminal)
        invariant kept == KeptTombstones(terminal[..i], project)
      {
        assert terminal[..i + 1][..i] == terminal[..i];
        if terminal[i].project != project {
          kept := kept + [terminal[i]];
        }
      }
      terminal := kept;
    }

    method RemoveQueuedProject(project: string)
      requires Valid()
      modifies this
      ensures Valid() && Now() == Step(old(Now()), Call.RemoveQueuedProject(project))
    {
      hide TableOk;
      StepKeepsTable(Now(), Call.RemoveQueuedProject(project));
      queued := WithoutProject(queued, project);
    }
  }
}
