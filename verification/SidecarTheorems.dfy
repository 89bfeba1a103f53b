/** What the calls of the sidecar achieve: resumption converges, replies are stable, repetition is harmless. */
module SidecarTheorems {
  import opened Base
  import opened GraphWalk
  import opened Synapse
  import opened SerialRuns
  import opened SidecarSpec

  ghost predicate Healthy(s: State) { Inv(s) && SerialInv(s) }

  lemma WriteIsHealthy(s: State, w: Write)
    requires Healthy(s) && Enabled(s, w) && SerialEnabled(s, w)
    ensures Healthy(Perform(s, w)) && Evolves(s, Perform(s, w))
  {
    WriteKeepsInv(s, w);
    SerialWriteKeepsInv(s, w);
  }

  predicate WithinBound(s: State, c: Commit) { |s.reflog| - 1 - Depth(c) <= MAX_DECISION_ANCESTRY }

  ghost predicate Decision(s: State, b: Binding)
  {
    b in s.journal && s.journal[b].state == DecisionCommitted && CandidateIsPublished(s, b)
  }

  /** Once committed, a review answers with one receipt for ever; only its distance from the head matters. */
  lemma CommittedAnswer(s: State, b: Binding)
    requires Inv(s) && Decision(s, b)
    ensures var i := s.journal[b].intent.value;
            var reply :=
              Stay(s, if WithinBound(s, i.candidate) then Ok(Committed(ReceiptOf(b, i))) else Err(Integrity));
            ReconcileRun(s, b) == reply && ResumeRun(s, b) == reply
  {
    PublishedMeansMoved(s, b);
    hide Inv;
  }

  lemma DecisionStays(s: State, t: State, b: Binding)
    requires Inv(s) && Evolves(s, t) && Decision(s, b)
    ensures Decision(t, b) && t.journal[b].intent == s.journal[b].intent
  {
    ReviewStays(s, t, b);
  }

  /** Every later reconcile or resume, after any writes of any callers, returns the same receipt and
      writes nothing, exactly as long as the candidate is within the bound of the live head. */
  lemma LaterRepliesAgree(s: State, run: seq<Write>, t: State, b: Binding)
    requires Inv(s) && Decision(s, b) && IsRun(s, run, t)
    ensures var i := s.journal[b].intent.value;
            && (WithinBound(t, i.candidate) <==> ReconcileRun(t, b) == Stay(t, Ok(Committed(ReceiptOf(b, i)))))
            && (WithinBound(t, i.candidate) <==> ResumeRun(t, b) == Stay(t, Ok(Committed(ReceiptOf(b, i)))))
  {
    RunsKeepInv(s, run, t);
    DecisionStays(s, t, b);
    CommittedAnswer(t, b);
  }

  lemma PublishedReconciles(s: State, b: Binding)
    requires Inv(s) && b in s.journal && CandidateIsPublished(s, b)
    requires WithinBound(s, s.journal[b].intent.value.candidate)
    ensures ReconcileRun(s, b) == Settle(s, b, DecisionCommitted, Committed(ReceiptOf(b, s.journal[b].intent.value)))
  {
    PublishedMeansMoved(s, b);
    hide Inv, Settle;
  }

  lemma MarkingIsHealthy(s: State, b: Binding)
    requires Healthy(s) && b in s.journal && CandidateIsPublished(s, b)
    ensures Healthy(Marked(s, b, DecisionCommitted)) && Evolves(s, Marked(s, b, DecisionCommitted))
            && Decision(Marked(s, b, DecisionCommitted), b)
    ensures s.journal[b].state == DecisionCommitted ==> Marked(s, b, DecisionCommitted) == s
    ensures s.journal[b].state != TerminalDenial
  {
    hide Inv, SerialInv, Evolves;
    DeniedIsUnpublished(s, b);
    if s.journal[b].state == DecisionCommitted {
      assert s.journal[b := s.journal[b].(state := DecisionCommitted)] == s.journal;
      EvolvesRefl(s);
    } else {
      WriteIsHealthy(s, MoveReview(b, DecisionCommitted));
    }
  }

  /** A published candidate is recorded as committed by one observation. */
  lemma PublishedIsCommitted(s: State, b: Binding)
    requires Healthy(s) && b in s.journal && CandidateIsPublished(s, b)
    requires WithinBound(s, s.journal[b].intent.value.candidate)
    ensures var run := ReconcileRun(s, b);
            && run.answer == Ok(Committed(ReceiptOf(b, s.journal[b].intent.value)))
            && run.states ==
                 (if s.journal[b].state == DecisionCommitted then [s] else [s, Marked(s, b, DecisionCommitted)])
            && Last(run) == Marked(s, b, DecisionCommitted)
    ensures Healthy(Marked(s, b, DecisionCommitted)) && Evolves(s, Marked(s, b, DecisionCommitted))
            && Decision(Marked(s, b, DecisionCommitted), b)
  {
    MarkingIsHealthy(s, b);
    PublishedReconciles(s, b);
    hide Inv, SerialInv, ReconcileRun, Evolves;
  }

  lemma DeniedIsUnpublished(s: State, b: Binding)
    requires SerialInv(s) && b in s.journal && CandidateIsPublished(s, b)
    ensures s.journal[b].state != TerminalDenial
  {
  }

  /** Publishing the intent of a live review. */
  lemma PublicationIsHealthy(s: State, b: Binding)
    requires Healthy(s) && b in s.journal && s.journal[b].intent.Some? && s.journal[b].state != TerminalDenial
    requires s.reflog != [] && Head(s) == b.expected
    ensures var i := s.journal[b].intent.value;
            var t := s.(reflog := s.reflog + [i.candidate]);
            && PublishRun(s, b, i) == Run([s, t], Ok(()))
            && Healthy(t) && Evolves(s, t) && CandidateIsPublished(t, b) && WithinBound(t, i.candidate)
  {
    SoundReview(s, b);
    WriteIsHealthy(s, PublishCandidate(b));
    var t := Perform(s, PublishCandidate(b));
    assert t.reflog[|s.reflog|] == s.journal[b].intent.value.candidate;
    DepthIsIndex(t, |s.reflog|);
  }

  /** The shape of a resumption, by how far the interrupted decision had come. */
  lemma ResumeShape(s: State, b: Binding)
    requires Healthy(s) && b in s.journal && s.journal[b].intent.Some? && s.journal[b].state != TerminalDenial
    requires CandidateIsPublished(s, b) ==> WithinBound(s, s.journal[b].intent.value.candidate)
    ensures var i := s.journal[b].intent.value;
            var run := ResumeRun(s, b);
            && run.answer == Ok(Committed(ReceiptOf(b, i)))
            && run.states == ResumeStates(s, b)
            && Last(run) == Resumed(s, b)
    ensures Healthy(Resumed(s, b)) && Decision(Resumed(s, b), b) && Evolves(s, Resumed(s, b))
  {
    hide Inv, SerialInv, ReconcileRun, Evolves, PublishRun;
    UndeniedIsLiveOrPublished(s, b);
    if CandidateIsPublished(s, b) {
      PublishedIsCommitted(s, b);
    } else {
      UnpublishedIsUncommitted(s, b);
      PublicationIsHealthy(s, b);
      var t := s.(reflog := s.reflog + [s.journal[b].intent.value.candidate]);
      PublishedIsCommitted(t, b);
      EvolvesTrans(s, t, Marked(t, b, DecisionCommitted));
      LiveResumes(s, b);
    }
  }

  lemma LiveResumes(s: State, b: Binding)
    requires b in s.journal && s.journal[b].intent.Some? && !IsTerminal(s.journal[b].state)
    requires s.reflog != [] && Head(s) == b.expected
    requires var t := s.(reflog := s.reflog + [s.journal[b].intent.value.candidate]);
             ReconcileRun(t, b) ==
                 Run([t, Marked(t, b, DecisionCommitted)], Ok(Committed(ReceiptOf(b, s.journal[b].intent.value))))
    ensures var t := s.(reflog := s.reflog + [s.journal[b].intent.value.candidate]);
            ResumeRun(s, b) ==
                Run([s, t, Marked(t, b, DecisionCommitted)], Ok(Committed(ReceiptOf(b, s.journal[b].intent.value))))
  {
    var t := s.(reflog := s.reflog + [s.journal[b].intent.value.candidate]);
    assert ReconcileRun(s, b) == Stay(s, Ok(NotCommitted(s.journal[b].state)));
    hide ReconcileRun;
    assert PublishRun(s, b, s.journal[b].intent.value) == Run([s, t], Ok(()));
    assert [s, t] + [Marked(t, b, DecisionCommitted)] == [s, t, Marked(t, b, DecisionCommitted)];
  }

  function ResumeStates(s: State, b: Binding): seq<State>
    requires b in s.journal && s.journal[b].intent.Some?
  {
    var c := s.journal[b].intent.value.candidate;
    var t := s.(reflog := s.reflog + [c]);
    if s.journal[b].state == DecisionCommitted then [s]
    else if c in s.reflog then [s, Marked(s, b, DecisionCommitted)]
    else [s, t, Marked(t, b, DecisionCommitted)]
  }

  /** From every undenied review with a durable intent, one resume commits exactly that intent in at
      most two writes; the next resume or reconcile repeats the receipt and writes nothing. */
  lemma ResumeConverges(s: State, b: Binding)
    requires Healthy(s) && b in s.journal && s.journal[b].intent.Some? && s.journal[b].state != TerminalDenial
    requires CandidateIsPublished(s, b) ==> WithinBound(s, s.journal[b].intent.value.candidate)
    ensures var i := s.journal[b].intent.value;
            var t := Resumed(s, b);
            var reply := Ok(Committed(ReceiptOf(b, i)));
            && ResumeRun(s, b) == Run(ResumeStates(s, b), reply) && Last(ResumeRun(s, b)) == t
            && Healthy(t) && Decision(t, b) && t.journal[b].intent == Some(i)
            && ResumeRun(t, b) == Stay(t, reply) && ReconcileRun(t, b) == Stay(t, reply)
  {
    ResumeShape(s, b);
    CommittedAnswer(Resumed(s, b), b);
    ResumedIsNear(s, b);
    hide Inv, SerialInv, ReconcileRun, ResumeRun, Evolves;
  }

  lemma ResumedIsNear(s: State, b: Binding)
    requires Healthy(s) && b in s.journal && s.journal[b].intent.Some? && s.journal[b].state != TerminalDenial
    requires CandidateIsPublished(s, b) ==> WithinBound(s, s.journal[b].intent.value.candidate)
    ensures WithinBound(Resumed(s, b), s.journal[b].intent.value.candidate)
  {
    UndeniedIsLiveOrPublished(s, b);
    if !CandidateIsPublished(s, b) {
      PublicationIsHealthy(s, b);
    }
  }

  lemma UnpublishedIsUncommitted(s: State, b: Binding)
    requires Inv(s) && b in s.journal && !CandidateIsPublished(s, b)
    ensures s.journal[b].state != DecisionCommitted
  {
    SoundReview(s, b);
  }

  /** The state resumption aims at: the candidate in the chain and the review committed. */
  function Resumed(s: State, b: Binding): State
    requires b in s.journal && s.journal[b].intent.Some?
  {
    var c := s.journal[b].intent.value.candidate;
    State(if c in s.reflog then s.reflog else s.reflog + [c], s.proposals,
          s.journal[b := s.journal[b].(state := DecisionCommitted)])
  }

  /** Repeating a decision that was committed: same disposition and key repeat the reply, anything else
      is refused, and nothing is written. */
  lemma DecisionReplay(s: State, b: Binding, disposition: Disposition, rationale: Option<Rationale>, key: Bytes,
                       at: nat)
    requires Inv(s) && Decision(s, b) && WithinBound(s, s.journal[b].intent.value.candidate)
    requires ValidKey(key) && ValidPrivateRationale(rationale)
    ensures var i := s.journal[b].intent.value;
            DecideRun(s, b, disposition, rationale, key, at) ==
              Stay(s, if disposition != DispositionOf(i) then Err(IdempotencyConflict)
                      else if key != i.key then Err(DecisionIntentExists)
                      else Ok(Committed(ReceiptOf(b, i))))
  {
    CommittedAnswer(s, b);
    hide Inv, ReconcileRun;
  }

  /** Deciding a live review: the answer is the requested disposition, and the state is the intent's
      registration followed by its resumption. */
  lemma DecideCommits(s: State, b: Binding, disposition: Disposition, rationale: Option<Rationale>, key: Bytes, at: nat)
    requires Healthy(s) && b in s.journal && s.journal[b] == Review(PendingReview, None)
    requires ValidKey(key) && ValidPrivateRationale(rationale)
    ensures var i := MakeIntent(b, key, disposition, at);
            var registered := s.(journal := s.journal[b := Review(PendingReview, Some(i))]);
            var run := DecideRun(s, b, disposition, rationale, key, at);
            && run.answer == Ok(Committed(ReceiptOf(b, i))) && DispositionOf(i) == disposition
            && run.states == [s, registered, registered.(reflog := s.reflog + [i.candidate]), Resumed(registered, b)]
            && (forall n :: 0 <= n < 4 ==> Healthy(run.states[n]))
  {
    hide Inv, SerialInv, ReconcileRun, DecideRun, Evolves;
    var i := MakeIntent(b, key, disposition, at);
    UndeniedIsLiveOrPublished(s, b);
    WriteIsHealthy(s, RegisterIntent(b, i));
    var registered := s.(journal := s.journal[b := Review(PendingReview, Some(i))]);
    RegistrationIsUnpublished(s, b, i);
    PublicationIsHealthy(registered, b);
    var t := registered.(reflog := s.reflog + [i.candidate]);
    PublishedIsCommitted(t, b);
    DecideSteps(s, b, disposition, rationale, key, at);
  }

  lemma DecideSteps(s: State, b: Binding, disposition: Disposition, rationale: Option<Rationale>, key: Bytes, at: nat)
    requires b in s.journal && s.journal[b] == Review(PendingReview, None)
    requires ValidKey(key) && ValidPrivateRationale(rationale)
    requires s.reflog != [] && Head(s) == b.expected
    requires var i := MakeIntent(b, key, disposition, at);
             var registered := s.(journal := s.journal[b := Review(PendingReview, Some(i))]);
             var t := registered.(reflog := s.reflog + [i.candidate]);
             ReconcileRun(t, b) == Run([t, Marked(t, b, DecisionCommitted)], Ok(Committed(ReceiptOf(b, i))))
    ensures var i := MakeIntent(b, key, disposition, at);
            var registered := s.(journal := s.journal[b := Review(PendingReview, Some(i))]);
            var t := registered.(reflog := s.reflog + [i.candidate]);
            DecideRun(s, b, disposition, rationale, key, at)
            == Run([s, registered, t, Marked(t, b, DecisionCommitted)], Ok(Committed(ReceiptOf(b, i))))
  {
    var i := MakeIntent(b, key, disposition, at);
    var registered := s.(journal := s.journal[b := Review(PendingReview, Some(i))]);
    var t := registered.(reflog := s.reflog + [i.candidate]);
    assert ReconcileRun(registered, b) == Stay(registered, Ok(NotCommitted(PendingReview)));
    hide ReconcileRun;
    assert SettleIntentRun(registered, b, i).states == [registered, t, Marked(t, b, DecisionCommitted)];
  }

  /** What an accepted proposal leaves behind for its operation key. */
  predicate HoldsProposal(s: State, input: ProposalInput, receipt: ProposalReceipt)
  {
    && s.reflog != [] && Head(s).site == input.accepted && input.operation in s.proposals
    && s.proposals[input.operation].parents == [Head(s)] && s.proposals[input.operation].site == input.proposed
    && ContextOf(s.proposals[input.operation]) == Some(input.context)
    && receipt ==
         ProposalReceipt(Binding(input.operation, s.proposals[input.operation], Head(s)), input.accepted,
             input.proposed, input.context)
    && receipt.review in s.journal
  }

  lemma ProposingHolds(s: State, input: ProposalInput, at: nat)
    requires s.reflog != [] && ProposeRun(s, input, at).answer.Ok?
    ensures var run := ProposeRun(s, input, at);
            run.states != [] && HoldsProposal(Last(run), input, run.answer.value)
  {
    hide Open;
  }

  lemma HeldIsReplayed(s: State, input: ProposalInput, receipt: ProposalReceipt, at: nat)
    requires HoldsProposal(s, input, receipt) && ValidOperationKey(input.operation)
    ensures BeginRun(s, input, at) == Stay(s, Ok(receipt))
  {
    assert ReplayRun(s, input) == Stay(s, Ok(receipt));
  }

  /** begin_proposal again with the same key and bytes, after any writes of other callers that leave the
      decision head where it is: the same receipt, and nothing is written. */
  lemma ProposalReplay(s: State, input: ProposalInput, at: nat, t: State, later: nat)
    requires BeginRun(s, input, at).answer.Ok?
    requires BeginRun(s, input, at).states != [] && Evolves(Last(BeginRun(s, input, at)), t)
             && t.reflog == Last(BeginRun(s, input, at)).reflog
    ensures BeginRun(t, input, later) == Stay(t, BeginRun(s, input, at).answer)
  {
    var booted := Last(BootstrapRun(s, input.accepted, at));
    ProposingHolds(booted, input, at);
    ProposeStarts(booted, input, at);
    hide ProposeRun, HoldsProposal;
    var u := Last(BeginRun(s, input, at));
    assert u == Last(ProposeRun(booted, input, at));
    HeldStays(u, t, input, BeginRun(s, input, at).answer.value);
    HeldIsReplayed(t, input, BeginRun(s, input, at).answer.value, later);
  }

  lemma HeldStays(s: State, t: State, input: ProposalInput, receipt: ProposalReceipt)
    requires HoldsProposal(s, input, receipt) && Evolves(s, t) && t.reflog == s.reflog
    ensures HoldsProposal(t, input, receipt)
  {
  }
}
