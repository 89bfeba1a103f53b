/** What a serialised call of the sidecar leaves alone, whatever fails: every state on its way differs from
    the first in one review and, at most, in one more head. */
module SidecarFrames {
  import opened Base
  import opened Synapse
  import opened SerialRuns
  import opened SidecarSpec
  import opened SidecarFaults

  /** Only the state of review `b` differs. */
  predicate Marks(s: State, b: Binding, t: State)
  {
    && b in s.journal && b in t.journal && t.reflog == s.reflog && t.proposals == s.proposals
    && t.journal == s.journal[b := s.journal[b].(state := t.journal[b].state)]
    && (s.journal[b].intent == None && s.reflog != [] && Head(s) == b.expected ==>
         t.journal[b].state == s.journal[b].state)
  }

  /** Besides, the candidate of its intent may have become the live head. */
  predicate Alters(s: State, b: Binding, t: State)
  {
    || Marks(s, b, t)
    || (&& b in s.journal && b in t.journal && s.journal[b].intent.Some? && t.proposals == s.proposals
        && s.reflog != [] && Head(s) == b.expected && t.reflog == s.reflog + [s.journal[b].intent.value.candidate]
        && t.journal == s.journal[b := s.journal[b].(state := t.journal[b].state)])
  }

  lemma MarksRefl(s: State, b: Binding)
    requires b in s.journal
    ensures Marks(s, b, s)
  {
    assert s.journal == s.journal[b := s.journal[b]];
  }

  lemma MarksThenAlters(s: State, b: Binding, t: State, u: State)
    requires Marks(s, b, t) && Alters(t, b, u)
    ensures Alters(s, b, u)
  {
    assert u.journal == s.journal[b := s.journal[b].(state := u.journal[b].state)];
  }

  lemma AltersThenMarks(s: State, b: Binding, t: State, u: State)
    requires Alters(s, b, t) && Marks(t, b, u) && s.journal[b].intent.Some?
    ensures Alters(s, b, u)
  {
    assert u.journal == s.journal[b := s.journal[b].(state := u.journal[b].state)];
  }

  lemma ObservationMarks(s: State, b: Binding, unreadable: bool, t: State)
    requires b in s.journal && t in ObserveRun(s, b, unreadable).states
    ensures Marks(s, b, t)
  {
    MarksRefl(s, b);
    ReconcileMarks(s, b);
    hide ReconcileRun;
    if !unreadable && s.reflog != [] && Head(s) == b.expected {
      LiveIsLeft(s, b);
    }
  }

  /** At an unmoved head an observation writes nothing. */
  lemma LiveIsLeft(s: State, b: Binding)
    requires b in s.journal && s.reflog != [] && Head(s) == b.expected
    ensures ReconcileRun(s, b).states == [s]
  {
  }

  lemma JudgementMarks(s: State, b: Binding, made: Result<(), SidecarError>, second: bool, resuming: bool, t: State)
    requires b in s.journal && s.journal[b].intent.Some? && t in JudgeRun(s, b, made, second, resuming).states
    ensures Marks(s, b, t)
  {
    hide ObserveRun;
    var after := ObserveRun(s, b, second);
    forall u | u in after.states
      ensures Marks(s, b, u)
    {
      ObservationMarks(s, b, second, u);
    }
    if t !in after.states {
      var s2 := Last(after);
      assert s2 in after.states;
      TailMarks(s2, b, made.error, after.answer, resuming, t);
    }
  }

  lemma TailMarks(s: State, b: Binding, failure: SidecarError, seen: Result<ReviewOutcome, SidecarError>,
                  resuming: bool, t: State)
    requires b in s.journal && s.journal[b].intent.Some? && t in TailRun(s, b, failure, seen, resuming).states
    ensures Marks(s, b, t)
  {
    MarksRefl(s, b);
  }

  lemma PublicationAlters(s: State, b: Binding, attempt: Attempt, second: bool, resuming: bool, t: State)
    requires b in s.journal && s.journal[b].intent.Some?
    requires t in PublishUnder(s, b, s.journal[b].intent.value, attempt, second, resuming).states
    ensures Alters(s, b, t)
  {
    hide JudgeRun;
    var made := AttemptRun(s, b, s.journal[b].intent.value, attempt);
    MarksRefl(s, b);
    forall u | u in made.states
      ensures Alters(s, b, u) && b in u.journal && u.journal[b].intent.Some?
    {
      if u != s {
        assert u.journal == u.journal[b := u.journal[b]];
      }
    }
    if t !in made.states {
      var mid := Last(made);
      assert mid in made.states;
      JudgementMarks(mid, b, made.answer, second, resuming, t);
      AltersThenMarks(s, b, mid, t);
    }
  }

  lemma SettlementAlters(s: State, b: Binding, first: bool, attempt: Attempt, second: bool, resuming: bool, t: State)
    requires b in s.journal && s.journal[b].intent.Some?
    requires t in SettleUnder(s, b, s.journal[b].intent.value, first, attempt, second, resuming).states
    ensures Alters(s, b, t)
  {
    hide ObserveRun, PublishUnder;
    var seen := ObserveRun(s, b, first);
    forall u | u in seen.states
      ensures Marks(s, b, u)
    {
      ObservationMarks(s, b, first, u);
    }
    if t !in seen.states {
      var mid := Last(seen);
      assert mid in seen.states;
      PublicationAlters(mid, b, attempt, second, resuming, t);
      MarksThenAlters(s, b, mid, t);
    }
  }

  lemma CutIsInside<R>(run: Run<R>, t: State, answer: Result<R, SidecarError>)
    requires Cut(run, t, answer)
    ensures t in run.states
  {
  }

  lemma ResumptionAlters(s: State, b: Binding, t: State, answer: Result<ReviewOutcome, SidecarError>)
    requires Resumes(s, b, t, answer)
    ensures if b in s.journal then Alters(s, b, t) else t == s
  {
    hide SettleUnder, ObserveRun, Cut;
    var first: bool, attempt, second: bool :| Cut(ResumeUnder(s, b, first, attempt, second), t, answer);
    CutIsInside(ResumeUnder(s, b, first, attempt, second), t, answer);
    if b !in s.journal {
      UnknownReviewStays(s, b, first);
    } else if s.journal[b].intent == None {
      ObservationMarks(s, b, first, t);
    } else {
      SettlementAlters(s, b, first, attempt, second, true, t);
    }
  }

  lemma UnknownReviewStays(s: State, b: Binding, unreadable: bool)
    requires b !in s.journal
    ensures ObserveRun(s, b, unreadable).states == [s]
  {
  }

  function Registration(s: State, b: Binding, i: Intent): State
    requires b in s.journal
  {
    s.(journal := s.journal[b := s.journal[b].(intent := Some(i))])
  }

  /** A decision registers its own intent, unless there is one that says the same, and then touches only
      its own review. */
  lemma DecisionAlters(s: State, b: Binding, disposition: Disposition, rationale: Option<Rationale>, key: Bytes,
                       at: nat, t: State, answer: Result<ReviewOutcome, SidecarError>)
    requires Decides(s, b, disposition, rationale, key, at, t, answer)
    ensures || t == s
            || (b in s.journal && s.journal[b].intent.Some? && Alters(s, b, t))
            || (b in s.journal && s.journal[b].intent == None && s.reflog != [] && Head(s) == b.expected
                && Alters(Registration(s, b, MakeIntent(b, key, disposition, at)), b, t))
  {
    hide SettleUnder, Cut;
    var first: bool, attempt, second: bool :|
      Cut(DecideUnder(s, b, disposition, rationale, key, at, first, attempt, second), t, answer);
    CutIsInside(DecideUnder(s, b, disposition, rationale, key, at, first, attempt, second), t, answer);
    if ValidKey(key) && ValidPrivateRationale(rationale) && b in s.journal
       && IntentRun(s, b, disposition, key, at).answer.Ok? {
      var registered := IntentRun(s, b, disposition, key, at);
      var mid := Last(registered);
      MarksRefl(mid, b);
      if t !in registered.states {
        SettlementAlters(mid, b, first, attempt, second, false, t);
      }
    }
  }

  // ---- decide never reports a pending review ----

  lemma ExtendedHasMoved(s: State, b: Binding, i: Intent)
    requires i.candidate.parents == [b.expected]
    ensures Head(Extended(s, i)) != b.expected
  {
  }

  lemma DecisionIsNeverPending(s: State, b: Binding, disposition: Disposition, rationale: Option<Rationale>, key: Bytes,
                               at: nat, t: State, answer: Result<ReviewOutcome, SidecarError>)
    requires Decides(s, b, disposition, rationale, key, at, t, answer)
    requires b in s.journal && (s.journal[b].intent.Some? ==> IntentFits(b, s.journal[b].intent.value))
    ensures answer != Ok(NotCommitted(PendingReview))
  {
    hide SettleUnder;
    if answer == Ok(NotCommitted(PendingReview)) {
      var first: bool, attempt, second: bool :|
        Cut(DecideUnder(s, b, disposition, rationale, key, at, first, attempt, second), t, answer);
      var registered := IntentRun(s, b, disposition, key, at);
      SettlementIsNeverPending(Last(registered), b, registered.answer.value, first, attempt, second);
    }
  }

  lemma SettlementIsNeverPending(s: State, b: Binding, i: Intent, first: bool, attempt: Attempt, second: bool)
    requires b in s.journal && i.candidate.parents == [b.expected]
    ensures SettleUnder(s, b, i, first, attempt, second, false).answer != Ok(NotCommitted(PendingReview))
  {
    hide ObserveRun;
    var seen := ObserveRun(s, b, first);
    if GoesOn(seen.answer, false) {
      assert Last(seen) in seen.states;
      ObservationMarks(s, b, first, Last(seen));
      var made := AttemptRun(Last(seen), b, i, attempt);
      if made.answer.Ok? {
        assert Last(made) == Extended(Last(seen), i);
        ExtendedHasMoved(Last(seen), b, i);
        MovedIsNotPending(Last(made), b, second);
      } else {
        var after := ObserveRun(Last(made), b, second);
        assert Last(after) in after.states;
        ObservationMarks(Last(made), b, second, Last(after));
      }
    }
  }

  lemma MovedIsNotPending(s: State, b: Binding, unreadable: bool)
    requires s.reflog != [] && Head(s) != b.expected
    ensures ObserveRun(s, b, unreadable).answer != Ok(NotCommitted(PendingReview))
  {
  }

  // ---- Intents ----

  /** No new intents. */
  ghost predicate SameIntents(s: State, t: State)
  {
    forall x :: x in t.journal && t.journal[x].intent.Some? ==>
        x in s.journal && s.journal[x].intent == t.journal[x].intent
  }

  lemma SameIntentsRefl(s: State)
    ensures SameIntents(s, s)
  {
  }

  lemma SameIntentsTrans(s: State, t: State, u: State)
    requires SameIntents(s, t) && SameIntents(t, u)
    ensures SameIntents(s, u)
  {
  }

  /** No new intents but possibly `i`, for review `b`. */
  ghost predicate IntentsBut(s: State, t: State, b: Binding, i: Intent)
  {
    forall x :: x in t.journal && t.journal[x].intent.Some? ==>
      (x in s.journal && s.journal[x].intent == t.journal[x].intent) || (x == b && t.journal[x].intent == Some(i))
  }

  lemma AltersKeepIntents(s: State, b: Binding, t: State)
    requires Alters(s, b, t)
    ensures SameIntents(s, t)
  {
  }

  lemma ResumptionKeepsIntents(s: State, b: Binding, t: State, answer: Result<ReviewOutcome, SidecarError>)
    requires Resumes(s, b, t, answer)
    ensures SameIntents(s, t)
  {
    hide Alters, Resumes;
    ResumptionAlters(s, b, t, answer);
    if b in s.journal {
      AltersKeepIntents(s, b, t);
    }
  }

  lemma DecisionIntents(s: State, b: Binding, disposition: Disposition, rationale: Option<Rationale>, key: Bytes,
                        at: nat, t: State, answer: Result<ReviewOutcome, SidecarError>)
    requires Decides(s, b, disposition, rationale, key, at, t, answer)
    ensures IntentsBut(s, t, b, MakeIntent(b, key, disposition, at))
  {
    hide Alters, Decides;
    DecisionAlters(s, b, disposition, rationale, key, at, t, answer);
    if t == s {
    } else if s.journal[b].intent.Some? {
      AltersKeepIntents(s, b, t);
    } else {
      AltersKeepIntents(Registration(s, b, MakeIntent(b, key, disposition, at)), b, t);
    }
  }

  lemma BeginKeepsIntents(s: State, input: ProposalInput, at: nat, t: State,
                          answer: Result<ProposalReceipt, SidecarError>)
    requires Cut(BeginRun(s, input, at), t, answer)
    ensures SameIntents(s, t)
  {
    hide Cut, ProposeRun;
    CutIsInside(BeginRun(s, input, at), t, answer);
    if ValidOperationKey(input.operation) {
      var boot := BootstrapRun(s, input.accepted, at);
      var booted := Last(boot);
      if t !in boot.states {
        ProposeKeepsIntents(booted, input, at, t);
      }
    }
  }

  lemma ProposeKeepsIntents(s: State, input: ProposalInput, at: nat, t: State)
    requires s.reflog != [] && t in ProposeRun(s, input, at).states
    ensures SameIntents(s, t)
  {
    hide Open;
  }

  /** begin_proposal adds no ref but its own. */
  lemma BeginAddsOneRef(s: State, input: ProposalInput, at: nat, t: State,
                        answer: Result<ProposalReceipt, SidecarError>)
    requires Cut(BeginRun(s, input, at), t, answer)
    ensures forall k :: k in t.proposals ==> k in s.proposals || k == input.operation
  {
    hide Cut, ProposeRun;
    CutIsInside(BeginRun(s, input, at), t, answer);
    if ValidOperationKey(input.operation) {
      var boot := BootstrapRun(s, input.accepted, at);
      if t !in boot.states {
        ProposeAddsOneRef(Last(boot), input, at, t);
      }
    }
  }

  lemma ProposeAddsOneRef(s: State, input: ProposalInput, at: nat, t: State)
    requires s.reflog != [] && t in ProposeRun(s, input, at).states
    ensures forall k :: k in t.proposals ==> k in s.proposals || k == input.operation
  {
    hide Open;
  }

  /** Resuming a denied review writes nothing, whatever fails. */
  lemma DeniedIsLeft(s: State, b: Binding, t: State, answer: Result<ReviewOutcome, SidecarError>)
    requires b in s.journal && s.journal[b].state == TerminalDenial && Resumes(s, b, t, answer)
    ensures t == s
  {
    hide Cut, SettleUnder;
    var first: bool, attempt, second: bool :| Cut(ResumeUnder(s, b, first, attempt, second), t, answer);
    CutIsInside(ResumeUnder(s, b, first, attempt, second), t, answer);
    DeniedIsObserved(s, b, first);
    if s.journal[b].intent.Some? {
      DeniedGoesNowhere(s, b, first, attempt, second);
    }
  }

  lemma DeniedIsObserved(s: State, b: Binding, unreadable: bool)
    requires b in s.journal && s.journal[b].state == TerminalDenial
    ensures ObserveRun(s, b, unreadable).states == [s] && !GoesOn(ObserveRun(s, b, unreadable).answer, true)
  {
  }

  lemma DeniedGoesNowhere(s: State, b: Binding, first: bool, attempt: Attempt, second: bool)
    requires b in s.journal && s.journal[b].state == TerminalDenial && s.journal[b].intent.Some?
    ensures SettleUnder(s, b, s.journal[b].intent.value, first, attempt, second, true).states == [s]
  {
    DeniedIsObserved(s, b, first);
    hide ObserveRun, PublishUnder;
  }
}
