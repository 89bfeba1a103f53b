/** What a creator is shown of an attempt, after each operation and over whole runs. */
module AttemptLaws {
  import opened Base
  import opened AttemptTable
  import opened AttemptRuns

  /** Running while it is active, else how it ended, else whether it waits. */
  function Shown(t: Table, project: string, attempt: string): Option<AttemptStatus>
  {
    if IsActive(t, project, attempt) then Some(Running)
    else if TerminalStatus(t.terminal, project, attempt).Some? then TerminalStatus(t.terminal, project, attempt)
    else if (project, attempt) in t.queued then Some(Queued) else None
  }

  lemma {:induction false} StatusIsFound(terminal: seq<Tombstone>, i: nat)
    requires DistinctTombstones(terminal) && i < |terminal|
    ensures TerminalStatus(terminal, terminal[i].project, terminal[i].attempt) == Some(terminal[i].status)
    decreases |terminal|
  {
    var n := |terminal| - 1;
    if i < n {
      assert !IsFor(terminal[n], terminal[i].project, terminal[i].attempt);
      assert terminal[..n][i] == terminal[i];
      StatusIsFound(terminal[..n], i);
    }
  }

  lemma NoTombstoneNoStatus(t: Table, project: string, attempt: string)
    requires TableOk(t) && (IsActive(t, project, attempt) || (project, attempt) in t.queued)
    ensures TerminalStatus(t.terminal, project, attempt) == None
  {
    HasStatusIffTombstone(t, project, attempt);
  }

  /** A new tombstone comes last. */
  lemma BuriedLast(t: Table, project: string, attempt: string, status: AttemptStatus)
    requires |t.terminal| <= MAX_TERMINAL_ATTEMPTS && !HasTombstone(t, project, attempt)
    ensures var terminal := Buried(t.terminal, project, attempt, status);
            && terminal != [] && terminal[|terminal| - 1] == Tombstone(project, attempt, status)
            && terminal[..|terminal| - 1] ==
                 (if |t.terminal| == MAX_TERMINAL_ATTEMPTS then t.terminal[1..] else t.terminal)
  {
  }

  // ---- A tombstone lasts ----

  lemma {:induction false} KeptKeepsPlace(terminal: seq<Tombstone>, project: string, i: nat) returns (j: nat)
    requires i < |terminal| && terminal[i].project != project
    ensures j < |KeptTombstones(terminal, project)| && KeptTombstones(terminal, project)[j] == terminal[i]
    ensures |terminal| - i >= |KeptTombstones(terminal, project)| - j
    decreases |terminal|
  {
    var n := |terminal| - 1;
    var kept := KeptTombstones(terminal[..n], project);
    if i == n {
      j := |kept|;
    } else {
      assert terminal[..n][i] == terminal[i];
      j := KeptKeepsPlace(terminal[..n], project, i);
    }
  }

  /** One call moves a tombstone towards the front by one place at most, and drops none but the first of a
      full list. */
  lemma TombstoneMoves(t: Table, call: Call, i: nat) returns (j: nat)
    requires TableOk(t) && i < |t.terminal| && call != RemoveProject(t.terminal[i].project)
    requires i > 0 || |t.terminal| < MAX_TERMINAL_ATTEMPTS
    ensures j < |Step(t, call).terminal| && Step(t, call).terminal[j] == t.terminal[i]
    ensures MAX_TERMINAL_ATTEMPTS - |Step(t, call).terminal| + j + 1 >= MAX_TERMINAL_ATTEMPTS - |t.terminal| + i
  {
    var u := Step(t, call);
    match call {
      case RemoveProject(project) => j := KeptKeepsPlace(t.terminal, project, i);
      case Complete(project, attempt, generation, status) =>
        j := i;
        if IsActiveGeneration(t, project, attempt, generation) {
          hide TerminalStatus;
          BuriedLast(t, project, attempt,
              if CompleteAnswer(t, project, attempt, generation) == WasCancelled then Cancelled else status);
          j := BuriedPlace(t, u, i);
        }
      case Cancel(project, attempt) =>
        j := i;
        if CancelAnswer(t, project, attempt) == NowCancelled {
          hide TerminalStatus;
          BuriedLast(t, project, attempt, Cancelled);
          j := BuriedPlace(t, u, i);
        }
      case _ => j := i;
    }
  }

  lemma BuriedPlace(t: Table, u: Table, i: nat) returns (j: nat)
    requires i < |t.terminal| <= MAX_TERMINAL_ATTEMPTS && (i > 0 || |t.terminal| < MAX_TERMINAL_ATTEMPTS)
    requires u.terminal != [] && u.terminal[..|u.terminal| - 1] ==
               (if |t.terminal| == MAX_TERMINAL_ATTEMPTS then t.terminal[1..] else t.terminal)
    ensures j < |u.terminal| && u.terminal[j] == t.terminal[i]
    ensures MAX_TERMINAL_ATTEMPTS - |u.terminal| + j + 1 >= MAX_TERMINAL_ATTEMPTS - |t.terminal| + i
  {
    var front := u.terminal[..|u.terminal| - 1];
    j := if |t.terminal| == MAX_TERMINAL_ATTEMPTS then i - 1 else i;
    assert front[j] == t.terminal[i];
  }

  /** An attempt that ended is shown as it ended, whatever is called since, until its project is removed or
      512 further calls have been made. */
  lemma {:induction false} TombstoneLasts(t: Table, calls: seq<Call>, i: nat)
    requires TableOk(t) && i < |t.terminal| && RemoveProject(t.terminal[i].project) !in calls
    requires |calls| <= MAX_TERMINAL_ATTEMPTS - |t.terminal| + i
    ensures var x := t.terminal[i];
            && TableOk(Run(t, calls)) && Shown(Run(t, calls), x.project, x.attempt) == Some(x.status)
            && TerminalStatus(Run(t, calls).terminal, x.project, x.attempt) == Some(x.status)
    decreases |calls|
  {
    hide Step, TerminalStatus;
    var x := t.terminal[i];
    if calls == [] {
      StatusIsFound(t.terminal, i);
      assert HasTombstone(t, x.project, x.attempt);
    } else {
      assert calls[0] in calls;
      StepKeepsTable(t, calls[0]);
      var j := TombstoneMoves(t, calls[0], i);
      TombstoneLasts(Step(t, calls[0]), calls[1..], j);
    }
  }

  // ---- One call ----

  /** complete answers Recorded exactly for the attempt and generation that the project holds. */
  lemma RecordedIffHeld(t: Table, project: string, attempt: string, generation: nat)
    requires TableOk(t)
    ensures CompleteAnswer(t, project, attempt, generation) == Recorded <==>
              project in t.active && t.active[project] == ActiveAttempt(attempt, generation)
  {
    if IsActive(t, project, attempt) {
      NoTombstoneNoStatus(t, project, attempt);
    }
    hide TerminalStatus;
  }

  /** A recorded attempt is shown with exactly the status it was completed with, and cannot be cancelled,
      claimed or queued again; any later calls leave that so, up to eviction and removal. */
  lemma CompletionIsShown(t: Table, project: string, attempt: string, generation: nat, status: AttemptStatus,
                          calls: seq<Call>)
    requires TableOk(t) && CompleteAnswer(t, project, attempt, generation) == Recorded
    requires RemoveProject(project) !in calls && |calls| < MAX_TERMINAL_ATTEMPTS
    ensures var u := Run(t, [Complete(project, attempt, generation, status)] + calls);
            && Shown(u, project, attempt) == Some(status)
            && CancelAnswer(u, project, attempt) == (if status == Cancelled then AlreadyCancelled else NotCancellable)
            && ClaimAnswer(u, project, attempt) == Err(AttemptAlreadyFinished)
  {
    var call := Complete(project, attempt, generation, status);
    NoTombstoneNoStatus(t, project, attempt);
    HasStatusIffTombstone(t, project, attempt);
    BuriedLast(t, project, attempt, status);
    StepKeepsTable(t, call);
    var v := Step(t, call);
    assert v.terminal[|v.terminal| - 1] == Tombstone(project, attempt, status) by {
      hide TerminalStatus, Buried;
    }
    EndedIsShown(v, project, attempt, status, calls);
    RunFrom(t, call, calls);
  }

  lemma EndedIsShown(t: Table, project: string, attempt: string, status: AttemptStatus, calls: seq<Call>)
    requires TableOk(t) && t.terminal != [] && t.terminal[|t.terminal| - 1] == Tombstone(project, attempt, status)
    requires RemoveProject(project) !in calls && |calls| < MAX_TERMINAL_ATTEMPTS
    ensures var u := Run(t, calls);
            && Shown(u, project, attempt) == Some(status)
            && TerminalStatus(u.terminal, project, attempt) == Some(status)
            && !IsActive(u, project, attempt) && (project, attempt) !in u.queued
            && CancelAnswer(u, project, attempt) == (if status == Cancelled then AlreadyCancelled else NotCancellable)
            && ClaimAnswer(u, project, attempt) == Err(AttemptAlreadyFinished)
  {
    hide Run, Buried;
    TombstoneLasts(t, calls, |t.terminal| - 1);
    var u := Run(t, calls);
    HasStatusIffTombstone(u, project, attempt);
    hide TerminalStatus;
  }

  lemma RunFrom(t: Table, call: Call, calls: seq<Call>)
    ensures Run(t, [call] + calls) == Run(Step(t, call), calls)
    ensures calls == [] ==> Run(t, [call]) == Step(t, call)
  {
    assert calls == [] ==> [call] + calls == [call];
    hide Step;
    assert ([call] + calls)[0] == call && ([call] + calls)[1..] == calls;
  }

  /** cancel ends exactly an attempt that is running or waiting, and from then on it is shown as cancelled, up
      to eviction and removal; a running one is fenced off at once, and its generation is signalled. */
  lemma CancellationIsShown(t: Table, project: string, attempt: string, calls: seq<Call>)
    requires TableOk(t) && (IsActive(t, project, attempt) || (project, attempt) in t.queued)
    requires RemoveProject(project) !in calls && |calls| < MAX_TERMINAL_ATTEMPTS
    ensures CancelAnswer(t, project, attempt) == NowCancelled
    ensures var u := Run(t, [Cancel(project, attempt)] + calls);
            && Shown(u, project, attempt) == Some(Cancelled)
            && CancelAnswer(u, project, attempt) == AlreadyCancelled
            && ClaimAnswer(u, project, attempt) == Err(AttemptAlreadyFinished)
    ensures var u := Run(t, [Cancel(project, attempt)]);
            IsActive(t, project, attempt) ==>
              && project !in u.active && t.active[project].generation in u.signalled
              && CompleteAnswer(u, project, attempt, t.active[project].generation) == WasCancelled
  {
    var call := Cancel(project, attempt);
    NoTombstoneNoStatus(t, project, attempt);
    HasStatusIffTombstone(t, project, attempt);
    BuriedLast(t, project, attempt, Cancelled);
    StepKeepsTable(t, call);
    var v := Step(t, call);
    assert v.terminal[|v.terminal| - 1] == Tombstone(project, attempt, Cancelled) by {
      hide TerminalStatus, Buried;
    }
    EndedIsShown(v, project, attempt, Cancelled, calls);
    EndedIsShown(v, project, attempt, Cancelled, []);
    RunFrom(t, call, calls);
    RunFrom(t, call, []);
    assert [call] + [] == [call];
    hide TerminalStatus, Buried, TableOk;
  }

  /** Any other attempt cannot be cancelled, and nothing happens. */
  lemma OthersAreNotCancelled(t: Table, project: string, attempt: string)
    requires TableOk(t) && !IsActive(t, project, attempt) && (project, attempt) !in t.queued
    ensures CancelAnswer(t, project, attempt) ==
              if Shown(t, project, attempt) == Some(Cancelled) then AlreadyCancelled else NotCancellable
    ensures Run(t, [Cancel(project, attempt)]) == t
  {
    RunFrom(t, Cancel(project, attempt), []);
    hide TerminalStatus;
  }

  /** claim starts exactly an unfinished attempt of an idle project, under the next generation. */
  lemma ClaimIsShown(t: Table, project: string, attempt: string)
    requires TableOk(t)
    ensures var u := Run(t, [Claim(project, attempt)]);
            if HasTombstone(t, project, attempt) then
              ClaimAnswer(t, project, attempt) == Err(AttemptAlreadyFinished) && u == t
            else if project in t.active then ClaimAnswer(t, project, attempt) == Err(ProjectBusy) && u == t
            else if t.nextGeneration >= MAX_GENERATION then
              ClaimAnswer(t, project, attempt) == Err(GenerationExhausted) && u == t
            else
              && ClaimAnswer(t, project, attempt) == Ok(u.nextGeneration) && u.nextGeneration == t.nextGeneration + 1
              && u.active == t.active[project := ActiveAttempt(attempt, u.nextGeneration)]
              && Shown(u, project, attempt) == Some(Running) && (project, attempt) !in u.queued
              && u.nextGeneration !in u.signalled && u.terminal == t.terminal
  {
    RunFrom(t, Claim(project, attempt), []);
    HasStatusIffTombstone(t, project, attempt);
    hide TerminalStatus, HasTombstone;
  }

  /** release puts exactly the held attempt back into the queue, without a tombstone, so that it can be claimed
      again; under any other generation it does nothing. */
  lemma ReleaseIsShown(t: Table, project: string, attempt: string, generation: nat)
    requires TableOk(t)
    ensures var u := Run(t, [Release(project, attempt, generation)]);
            if project in t.active && t.active[project] == ActiveAttempt(attempt, generation) then
              && Shown(u, project, attempt) == Some(Queued) && !HasTombstone(u, project, attempt)
              && u.active == t.active - {project} && u.terminal == t.terminal
              && (t.nextGeneration < MAX_GENERATION ==> ClaimAnswer(u, project, attempt) == Ok(t.nextGeneration + 1))
            else u == t
  {
    RunFrom(t, Release(project, attempt, generation), []);
    HasStatusIffTombstone(t, project, attempt);
    hide TerminalStatus;
  }

  /** queue makes exactly an unfinished attempt wait. */
  lemma QueueIsShown(t: Table, project: string, attempt: string)
    requires TableOk(t)
    ensures var u := Run(t, [Queue(project, attempt)]);
            if HasTombstone(t, project, attempt) then u == t
            else
              && Shown(u, project, attempt) == Some(if IsActive(t, project, attempt) then Running else Queued)
              && u.active == t.active && u.terminal == t.terminal
  {
    RunFrom(t, Queue(project, attempt), []);
    HasStatusIffTombstone(t, project, attempt);
    hide TerminalStatus, HasTombstone;
  }

  /** A completion that is not recorded changes nothing. */
  lemma OthersAreNotCompleted(t: Table, project: string, attempt: string, generation: nat, status: AttemptStatus)
    requires TableOk(t) && CompleteAnswer(t, project, attempt, generation) != Recorded
    ensures Run(t, [Complete(project, attempt, generation, status)]) == t
    ensures CompleteAnswer(t, project, attempt, generation) == WasCancelled <==>
              project !in t.active && TerminalStatus(t.terminal, project, attempt) == Some(Cancelled)
  {
    RunFrom(t, Complete(project, attempt, generation, status), []);
    RecordedIffHeld(t, project, attempt, generation);
    hide TerminalStatus, TableOk;
  }

  // ---- Other attempts ----

  lemma {:induction false} StatusOfLast(front: seq<Tombstone>, x: Tombstone, project: string, attempt: string)
    ensures TerminalStatus(front + [x], project, attempt) ==
              if IsFor(x, project, attempt) then Some(x.status) else TerminalStatus(front, project, attempt)
  {
    assert (front + [x])[..|front|] == front;
  }

  lemma {:induction false} StatusWithoutFirst(terminal: seq<Tombstone>, project: string, attempt: string)
    requires terminal != [] && !IsFor(terminal[0], project, attempt)
    ensures TerminalStatus(terminal[1..], project, attempt) == TerminalStatus(terminal, project, attempt)
    decreases |terminal|
  {
    var n := |terminal| - 1;
    if n > 0 {
      StatusWithoutFirst(terminal[..n], project, attempt);
      assert terminal[1..][..n - 1] == terminal[..n][1..];
    }
  }

  lemma BuriedIsOther(t: Table, project: string, attempt: string, status: AttemptStatus, other: string, id: string)
    requires |t.terminal| <= MAX_TERMINAL_ATTEMPTS && !HasTombstone(t, project, attempt)
    requires (other, id) != (project, attempt)
    requires |t.terminal| == MAX_TERMINAL_ATTEMPTS ==> !IsFor(t.terminal[0], other, id)
    ensures TerminalStatus(Buried(t.terminal, project, attempt, status), other, id) ==
              TerminalStatus(t.terminal, other, id)
  {
    BuriedLast(t, project, attempt, status);
    var terminal := Buried(t.terminal, project, attempt, status);
    var front := terminal[..|terminal| - 1];
    assert terminal == front + [Tombstone(project, attempt, status)];
    StatusOfLast(front, Tombstone(project, attempt, status), other, id);
    if |t.terminal| == MAX_TERMINAL_ATTEMPTS {
      StatusWithoutFirst(t.terminal, other, id);
    }
    hide TerminalStatus, Buried;
  }

  lemma OthersOutliveCompletion(t: Table, call: Call, other: string, id: string)
    requires TableOk(t) && call.Complete? && (other, id) != (call.project, call.attempt)
    requires |t.terminal| == MAX_TERMINAL_ATTEMPTS ==> !IsFor(t.terminal[0], other, id)
    ensures Shown(Step(t, call), other, id) == Shown(t, other, id)
  {
    hide TerminalStatus, Buried;
    if IsActiveGeneration(t, call.project, call.attempt, call.generation) {
      var kept := if CompleteAnswer(t, call.project, call.attempt, call.generation) == WasCancelled
                  then Cancelled else call.status;
      BuriedIsOther(t, call.project, call.attempt, kept, other, id);
    }
  }

  /** A call about one attempt leaves what is shown of every other one, but for the oldest tombstone of a full
      list. */
  lemma OthersAreLeft(t: Table, call: Call, other: string, id: string)
    requires TableOk(t) && !call.RemoveProject? && !call.RemoveQueuedProject?
    requires (other, id) != (call.project, call.attempt)
    requires |t.terminal| == MAX_TERMINAL_ATTEMPTS ==> !IsFor(t.terminal[0], other, id)
    ensures Shown(Run(t, [call]), other, id) == Shown(t, other, id)
  {
    hide TerminalStatus, Buried;
    RunFrom(t, call, []);
    match call {
      case Complete(project, attempt, generation, status) => OthersOutliveCompletion(t, call, other, id);
      case Cancel(project, attempt) =>
        if CancelAnswer(t, project, attempt) == NowCancelled {
          BuriedIsOther(t, project, attempt, Cancelled, other, id);
        }
      case _ => hide TableOk;
    }
  }

  lemma {:induction false} StatusOfKept(terminal: seq<Tombstone>, project: string, other: string, id: string)
    ensures TerminalStatus(KeptTombstones(terminal, project), other, id) ==
              if other == project then None else TerminalStatus(terminal, other, id)
    decreases |terminal|
  {
    hide TerminalStatus, KeptTombstones;
    if terminal == [] {
      NothingIsKept(project, other, id);
    } else {
      var n := |terminal| - 1;
      var front, last := terminal[..n], terminal[n];
      StatusOfKept(front, project, other, id);
      assert terminal == front + [last];
      KeptUnfolds(front, last, project);
      StatusOfLast(front, last, other, id);
      if last.project != project {
        StatusOfLast(KeptTombstones(front, project), last, other, id);
      }
    }
  }

  lemma NothingIsKept(project: string, other: string, id: string)
    ensures KeptTombstones([], project) == [] && TerminalStatus([], other, id) == None
  {
  }

  lemma KeptUnfolds(front: seq<Tombstone>, last: Tombstone, project: string)
    ensures KeptTombstones(front + [last], project) ==
              if last.project != project then KeptTombstones(front, project) + [last]
              else KeptTombstones(front, project)
  {
    assert (front + [last])[..|front|] == front;
    assert KeptTombstones(front, project) + [] == KeptTombstones(front, project);
  }

  /** Removing a project forgets all its attempts and no others; removing its queue, those that wait. */
  lemma ProjectIsForgotten(t: Table, project: string, other: string, id: string)
    ensures Shown(Run(t, [RemoveProject(project)]), other, id) == if other == project then None else Shown(t, other, id)
    ensures Shown(Run(t, [RemoveQueuedProject(project)]), other, id) ==
              if other == project && !IsActive(t, other, id) && TerminalStatus(t.terminal, other, id) == None then None
              else Shown(t, other, id)
  {
    RunFrom(t, RemoveProject(project), []);
    RunFrom(t, RemoveQueuedProject(project), []);
    StatusOfKept(t.terminal, project, other, id);
    hide TerminalStatus, KeptTombstones;
  }
}
