/** Where the serialised calls of the sidecar end, read off the refs and the journal alone, for every fault
    they may meet. */
module SidecarOutcomes {
  import opened Base
  import opened Synapse
  import opened SerialRuns
  import opened SidecarSpec
  import opened SidecarFaults
  import opened SidecarTheorems
  import opened ResumeFaults

  /** What an intent and the receipt of its decision say. */
  lemma IntentSays(b: Binding, key: Bytes, disposition: Disposition, at: nat)
    ensures var i := MakeIntent(b, key, disposition, at);
            && i.key == key && i.expected == b.expected && i.candidate.parents == [b.expected]
            && i.candidate.site == (if disposition == AdoptedUnchanged then b.proposalHead.site else b.expected.site)
            && i.candidate.transitions == [DecisionFeedback(b, b.proposalHead, disposition, at)]
            && i.candidate.authoredAt == at
    ensures var receipt := ReceiptOf(b, MakeIntent(b, key, disposition, at));
            && receipt.disposition == disposition && (receipt.selectsProposal <==> disposition == AdoptedUnchanged)
            && receipt.reviewed == if disposition == AdoptedUnchanged then b.proposalHead.site else b.expected.site
  {
  }

  // ---- Observations ----

  /** An observation that reads the refs: an unmoved head leaves everything as it is; a moved one commits the
      review whose candidate is in the chain, and denies one whose candidate is not. */
  lemma ObservationEnds(s: State, b: Binding)
    requires Inv(s) && b in s.journal && |s.reflog| <= 4096
    ensures var run := ReconcileRun(s, b);
            var t := Last(run);
            var state := s.journal[b].state;
            && s.reflog != [] && t.reflog == s.reflog && t.proposals == s.proposals
            && b in t.journal && t.journal == s.journal[b := s.journal[b].(state := t.journal[b].state)]
            && (Head(s) == b.expected ==> t.journal[b].state == state && run.answer == Ok(NotCommitted(state)))
            && (Head(s) != b.expected && CandidateIsPublished(s, b) && state != TerminalDenial ==>
                  && t.journal[b].state == DecisionCommitted
                  && run.answer == Ok(Committed(ReceiptOf(b, s.journal[b].intent.value))))
            && (Head(s) != b.expected && CandidateIsPublished(s, b) && state == TerminalDenial ==>
                  t.journal[b].state == state && run.answer == Err(Integrity))
            && (Head(s) != b.expected && !CandidateIsPublished(s, b) ==>
                  t.journal[b].state == TerminalDenial && run.answer == Ok(NotCommitted(TerminalDenial)))
  {
    KnownHeads(s, b);
    hide Inv, ReconcileRun, CandidateIsPublished;
    assert s.journal == s.journal[b := s.journal[b]];
    if Head(s) == b.expected {
      UnmovedObservationEnds(s, b);
    } else {
      MovedObservationEnds(s, b);
    }
  }

  lemma UnmovedObservationEnds(s: State, b: Binding)
    requires b in s.journal && s.reflog != [] && Head(s) == b.expected && s.journal[b].state != DecisionCommitted
    ensures ReconcileRun(s, b) == Stay(s, Ok(NotCommitted(s.journal[b].state)))
  {
  }

  lemma MovedObservationEnds(s: State, b: Binding)
    requires b in s.journal && s.reflog != [] && Head(s) != b.expected && |s.reflog| <= 4096
    requires CandidateIsPublished(s, b) ==> WithinBound(s, s.journal[b].intent.value.candidate)
    requires s.journal[b].state == DecisionCommitted ==> CandidateIsPublished(s, b)
    ensures var run := ReconcileRun(s, b);
            var to := if CandidateIsPublished(s, b) then DecisionCommitted else TerminalDenial;
            if s.journal[b].state == TerminalDenial && to == DecisionCommitted then run == Stay(s, Err(Integrity))
            else
              && Last(run) == s.(journal := s.journal[b := s.journal[b].(state := to)])
              && run.answer == Ok(if CandidateIsPublished(s, b) then Committed(ReceiptOf(b, s.journal[b].intent.value))
                                  else NotCommitted(TerminalDenial))
  {
    assert s.journal == s.journal[b := s.journal[b]];
  }

  lemma KnownHeads(s: State, b: Binding)
    requires Inv(s) && b in s.journal
    ensures s.reflog != []
    ensures CandidateIsPublished(s, b) ==> Head(s) != b.expected
    ensures s.journal[b].state == DecisionCommitted ==> CandidateIsPublished(s, b)
    ensures CandidateIsPublished(s, b) && |s.reflog| <= 4096 ==> WithinBound(s, s.journal[b].intent.value.candidate)
  {
    SoundReview(s, b);
    if CandidateIsPublished(s, b) {
      PublishedMeansMoved(s, b);
    }
  }

  /** An observation that cannot read the refs: a review without an intent is left alone with an error; an
      undecided one is marked as unknown, a terminal one left as it is. */
  lemma BlindObservationEnds(s: State, b: Binding)
    requires b in s.journal
    ensures var run := ObserveRun(s, b, true);
            var t := Last(run);
            var state := s.journal[b].state;
            && t.reflog == s.reflog && t.proposals == s.proposals
            && t.journal == s.journal[b := s.journal[b].(state := t.journal[b].state)]
            && (s.journal[b].intent == None || state == DecisionCommitted ==>
                  t.journal[b].state == state && run.answer == Err(Storage))
            && (s.journal[b].intent.Some? && state == TerminalDenial ==>
                  t.journal[b].state == state && run.answer == Ok(NotCommitted(TerminalDenial)))
            && (s.journal[b].intent.Some? && !IsTerminal(state) ==>
                  t.journal[b].state == OutcomeUnknown && run.answer == Ok(NotCommitted(OutcomeUnknown)))
  {
    assert s.journal == s.journal[b := s.journal[b]];
  }

  // ---- Decisions and resumptions with an intent in place ----

  /** An undecided review on the live head, whatever fails in a call of decide. The decision is published if
      and only if the first observation can read the refs, the review is not already unknown, and the
      attempt gets to its compare-and-set. What is then recorded and answered: */
  lemma DecisionEnds(s: State, b: Binding, first: bool, attempt: Attempt, second: bool)
    requires Healthy(s) && b in s.journal && s.journal[b].intent.Some? && |s.reflog| < 4096
    requires s.reflog != [] && Head(s) == b.expected && !IsTerminal(s.journal[b].state)
    ensures var i := s.journal[b].intent.value;
            var run := SettleUnder(s, b, i, first, attempt, second, false);
            var t := Last(run);
            var state := s.journal[b].state;
            var attempted := !first && state != OutcomeUnknown;
            && t.proposals == s.proposals
            && t.reflog == (if attempted && attempt.Made? then s.reflog + [i.candidate] else s.reflog)
            && b in t.journal && t.journal == s.journal[b := Review(t.journal[b].state, Some(i))]
            && (!attempted || second ==>
                  t.journal[b].state == OutcomeUnknown && run.answer == Ok(NotCommitted(OutcomeUnknown)))
            && (attempted && !second && attempt.Made? ==>
                  t.journal[b].state == DecisionCommitted && run.answer == Ok(Committed(ReceiptOf(b, i))))
            && (attempted && !second && attempt.NotMade? && (state == RetryableFailure || attempt.error == Storage) ==>
                  t.journal[b].state == RetryableFailure && run.answer == Ok(NotCommitted(RetryableFailure)))
            && (attempted && !second && attempt.NotMade? && state == PendingReview && attempt.error != Storage ==>
                  t.journal[b].state == TerminalDenial && run.answer == Ok(NotCommitted(TerminalDenial)))
  {
    hide Healthy, ObserveRun, PublishUnder;
    var i := s.journal[b].intent.value;
    UnmovedObservation(s, b, first);
    var seen := ObserveRun(s, b, first);
    if GoesOn(seen.answer, false) {
      AttemptEndsAs(s, b, attempt);
      var made := AttemptRun(s, b, i, attempt);
      JudgementEnds(Last(made), b, made.answer, second, false);
      LastThen(made, JudgeRun(Last(made), b, made.answer, second, false));
      assert PublishUnder(s, b, i, attempt, second, false) ==
               Then(made, JudgeRun(Last(made), b, made.answer, second, false)) by {
        PublishUnfolds(s, b, i, attempt, second, false);
      }
      LastThen(seen, PublishUnder(s, b, i, attempt, second, false));
    }
  }

  lemma PublishUnfolds(s: State, b: Binding, i: Intent, attempt: Attempt, second: bool, resuming: bool)
    ensures var made := AttemptRun(s, b, i, attempt);
            PublishUnder(s, b, i, attempt, second, resuming) ==
              Then(made, JudgeRun(Last(made), b, made.answer, second, resuming))
  {
  }

  lemma UnmovedObservation(s: State, b: Binding, unreadable: bool)
    requires b in s.journal && s.journal[b].intent.Some?
    requires s.reflog != [] && Head(s) == b.expected && !IsTerminal(s.journal[b].state)
    ensures var run := ObserveRun(s, b, unreadable);
            && run.answer == Ok(NotCommitted(if unreadable then OutcomeUnknown else s.journal[b].state))
            && Last(run) == s.(journal := s.journal[b := s.journal[b].(state := run.answer.value.state)])
            && (!unreadable ==> Last(run) == s)
  {
    if unreadable {
      BlindObservationEnds(s, b);
      hide ObserveRun;
    } else {
      UnmovedObservationEnds(s, b);
      hide ReconcileRun;
      assert s.journal == s.journal[b := s.journal[b]];
    }
  }

  /** The attempt publishes if and only if it gets to its compare-and-set on an unmoved head. */
  lemma AttemptEndsAs(s: State, b: Binding, attempt: Attempt)
    requires Healthy(s) && b in s.journal && s.journal[b].intent.Some? && s.journal[b].state != TerminalDenial
    ensures var i := s.journal[b].intent.value;
            var run := AttemptRun(s, b, i, attempt);
            var t := Last(run);
            var moves := attempt.Made? && Head(s) == b.expected;
            && s.reflog != [] && t.proposals == s.proposals && t.journal == s.journal
            && t.reflog == (if moves then s.reflog + [i.candidate] else s.reflog)
            && run.answer == (match attempt
                              case NotMade(error) => Err(error)
                              case Made(lost) =>
                                if Head(s) != b.expected then Err(StaleBase)
                                else if lost.Some? then Err(lost.value) else Ok(()))
            && (CandidateIsPublished(t, b) <==> Head(t) != b.expected) && Healthy(t)
  {
    hide Healthy, CandidateIsPublished;
    UndeniedIsOneOf(s, b);
    if attempt.Made? && Head(s) == b.expected {
      PublicationIsHealthy(s, b);
      var t := s.(reflog := s.reflog + [s.journal[b].intent.value.candidate]);
      UndeniedIsOneOf(t, b);
    }
  }

  /** The observation after the attempt, and what is made of it. */
  lemma JudgementEnds(s: State, b: Binding, made: Result<(), SidecarError>, second: bool, resuming: bool)
    requires Healthy(s) && b in s.journal && s.journal[b].intent.Some? && !IsTerminal(s.journal[b].state)
    requires |s.reflog| <= 4096 && (made.Ok? ==> CandidateIsPublished(s, b))
    ensures var run := JudgeRun(s, b, made, second, resuming);
            var t := Last(run);
            var state := s.journal[b].state;
            var seen := if second then OutcomeUnknown else state;
            var i := s.journal[b].intent.value;
            && s.reflog != [] && t.reflog == s.reflog && t.proposals == s.proposals
            && b in t.journal && t.journal == s.journal[b := Review(t.journal[b].state, Some(i))]
            && (!second && Head(s) != b.expected ==>
                  t.journal[b].state == DecisionCommitted && run.answer == Ok(Committed(ReceiptOf(b, i))))
            && (second || Head(s) == b.expected ==>
                  && run.answer == Ok(NotCommitted(t.journal[b].state))
                  && t.journal[b].state ==
                       if made.Ok? then seen
                       else if seen == PendingReview then
                         if made.error == Storage then RetryableFailure else TerminalDenial
                       else if resuming && made.error != Storage then TerminalDenial
                       else seen)
  {
    hide Healthy, ObserveRun;
    UndeniedIsOneOf(s, b);
    var after := ObserveRun(s, b, second);
    SecondObservation(s, b, second);
    if made.Err? {
      LastThen(after, TailRun(Last(after), b, made.error, after.answer, resuming));
    }
  }

  lemma SecondObservation(s: State, b: Binding, second: bool)
    requires Healthy(s) && b in s.journal && s.journal[b].intent.Some? && !IsTerminal(s.journal[b].state)
    requires |s.reflog| <= 4096
    ensures var run := ObserveRun(s, b, second);
            var t := Last(run);
            var seen := if second then OutcomeUnknown else s.journal[b].state;
            && s.reflog != [] && t.reflog == s.reflog && t.proposals == s.proposals
            && b in t.journal && t.journal == s.journal[b := Review(t.journal[b].state, s.journal[b].intent)]
            && (!second && Head(s) != b.expected ==>
                  && t.journal[b].state == DecisionCommitted
                  && run.answer == Ok(Committed(ReceiptOf(b, s.journal[b].intent.value))))
            && (second || Head(s) == b.expected ==> t.journal[b].state == seen && run.answer == Ok(NotCommitted(seen)))
  {
    UndeniedIsOneOf(s, b);
    hide ReconcileRun, Inv, SerialInv;
    if second {
      BlindObservationEnds(s, b);
    } else {
      ObservationEnds(s, b);
    }
  }

  /** The same for a resumption, of a review on the live head or with its candidate published. It goes on
      where decide stops: after an observation that could not read the refs, and from an unknown outcome. */
  lemma ResumptionEnds(s: State, b: Binding, first: bool, attempt: Attempt, second: bool)
    requires Healthy(s) && b in s.journal && s.journal[b].intent.Some? && |s.reflog| < 4096
    requires !IsTerminal(s.journal[b].state)
    ensures s.reflog != []
    ensures var i := s.journal[b].intent.value;
            var run := ResumeUnder(s, b, first, attempt, second);
            var t := Last(run);
            var seen := if first || second then OutcomeUnknown else s.journal[b].state;
            var moves := Head(s) == b.expected && attempt.Made?;
            var failure := if attempt.NotMade? then Some(attempt.error)
                           else if Head(s) != b.expected then Some(StaleBase) else attempt.lost;
            && t.proposals == s.proposals && t.reflog == (if moves then s.reflog + [i.candidate] else s.reflog)
            && b in t.journal && t.journal == s.journal[b := Review(t.journal[b].state, Some(i))]
            && (if (Head(s) != b.expected && !(first && second)) || (moves && !second)
                then t.journal[b].state == DecisionCommitted && run.answer == Ok(Committed(ReceiptOf(b, i)))
                else
                  && run.answer == Ok(NotCommitted(t.journal[b].state))
                  && t.journal[b].state ==
                       if failure == None then seen
                       else if failure.value != Storage then TerminalDenial
                       else if seen == PendingReview then RetryableFailure else seen)
  {
    hide Healthy, ObserveRun, PublishUnder;
    var i := s.journal[b].intent.value;
    UndeniedIsOneOf(s, b);
    SecondObservation(s, b, first);
    var seen := ObserveRun(s, b, first);
    var s1 := Last(seen);
    if GoesOn(seen.answer, true) {
      ObservedIsHealthy(s, b, first);
      AttemptEndsAs(s1, b, attempt);
      var made := AttemptRun(s1, b, i, attempt);
      JudgementEnds(Last(made), b, made.answer, second, true);
      GoneOn(s, b, first, attempt, second);
      hide AttemptRun, JudgeRun, ResumeUnder, CandidateIsPublished;
    }
  }

  lemma GoneOn(s: State, b: Binding, first: bool, attempt: Attempt, second: bool)
    requires b in s.journal && s.journal[b].intent.Some? && GoesOn(ObserveRun(s, b, first).answer, true)
    ensures var i := s.journal[b].intent.value;
            var made := AttemptRun(Last(ObserveRun(s, b, first)), b, i, attempt);
            var judged := JudgeRun(Last(made), b, made.answer, second, true);
            var run := ResumeUnder(s, b, first, attempt, second);
            run.states != [] && Last(run) == Last(judged) && run.answer == judged.answer
  {
    hide ObserveRun, AttemptRun, JudgeRun;
    var i := s.journal[b].intent.value;
    var seen := ObserveRun(s, b, first);
    var made := AttemptRun(Last(seen), b, i, attempt);
    LastThen(made, JudgeRun(Last(made), b, made.answer, second, true));
    LastThen(seen, PublishUnder(Last(seen), b, i, attempt, second, true));
  }

  lemma ObservedIsHealthy(s: State, b: Binding, unreadable: bool)
    requires Healthy(s)
    ensures Healthy(Last(ObserveRun(s, b, unreadable)))
  {
    hide Healthy;
    ObservationIsHealthy(s, b, unreadable);
  }

  // ---- Repeating a decision that did not get through ----

  /** Without faults a decision is that of SidecarSpec, state by state. */
  lemma NoFaultIsDecide(s: State, b: Binding, disposition: Disposition, rationale: Option<Rationale>, key: Bytes,
                        at: nat)
    ensures DecideUnder(s, b, disposition, rationale, key, at, false, Made(None), false) ==
              DecideRun(s, b, disposition, rationale, key, at)
  {
    if b in s.journal {
      NoFaultSettles(Last(IntentRun(s, b, disposition, key, at)), b, MakeIntent(b, key, disposition, at));
      if s.journal[b].intent.Some? {
        NoFaultSettles(s, b, s.journal[b].intent.value);
      }
    }
    hide SettleUnder, SettleIntentRun;
  }

  lemma NoFaultSettles(s: State, b: Binding, i: Intent)
    ensures SettleUnder(s, b, i, false, Made(None), false, false) == SettleIntentRun(s, b, i)
  {
    PendingMeansUntouched(s, b);
    hide ReconcileRun;
  }

  /** The intent is in place, or will be: the rest is what becomes of it. */
  lemma IntentThenSettles(s: State, b: Binding, disposition: Disposition, rationale: Option<Rationale>, key: Bytes,
                          at: nat, i: Intent, first: bool, attempt: Attempt, second: bool)
    requires ValidKey(key) && ValidPrivateRationale(rationale) && b in s.journal
    requires if s.journal[b].intent == None
             then s.reflog != [] && Head(s) == b.expected && i == MakeIntent(b, key, disposition, at)
             else s.journal[b].intent == Some(i) && DispositionOf(i) == disposition && i.key == key
    ensures var run := DecideUnder(s, b, disposition, rationale, key, at, first, attempt, second);
            var settled :=
              SettleUnder(s.(journal := s.journal[b := Review(s.journal[b].state, Some(i))]), b, i, first, attempt,
                  second, false);
            run.states != [] && Last(run) == Last(settled) && run.answer == settled.answer
  {
    hide SettleUnder;
    var s1 := s.(journal := s.journal[b := Review(s.journal[b].state, Some(i))]);
    if s.journal[b].intent.Some? {
      assert s.journal[b := s.journal[b]] == s.journal;
    }
    LastThen(IntentRun(s, b, disposition, key, at), SettleUnder(s1, b, i, first, attempt, second, false));
  }

  /** A decision whose publication failed in storage leaves the review open to a retry: it answers and records
      just that, and nothing is published. The same decision again, undisturbed, commits the very intent that
      was registered at first, also after a restart and without the same rationale. */
  lemma RetryCommits(s: State, b: Binding, disposition: Disposition, rationale: Option<Rationale>, key: Bytes,
                     at: nat, again: Option<Rationale>, later: nat)
    requires Healthy(s) && b in s.journal && s.journal[b] == Review(PendingReview, None) && |s.reflog| < 4096
    requires ValidKey(key) && ValidPrivateRationale(rationale) && ValidPrivateRationale(again)
    ensures var i := MakeIntent(b, key, disposition, at);
            var failed := DecideUnder(s, b, disposition, rationale, key, at, false, NotMade(Storage), false);
            var t := s.(journal := s.journal[b := Review(RetryableFailure, Some(i))]);
            var retried := DecideRun(t, b, disposition, again, key, later);
            && Last(failed) == t && failed.answer == Ok(NotCommitted(RetryableFailure))
            && retried.states != []
            && Last(retried) ==
                 State(s.reflog + [i.candidate], s.proposals, s.journal[b := Review(DecisionCommitted, Some(i))])
            && retried.answer == Ok(Committed(ReceiptOf(b, i)))
  {
    hide Healthy, DecideUnder, SettleUnder, DecideRun;
    var i := MakeIntent(b, key, disposition, at);
    var s1 := s.(journal := s.journal[b := Review(PendingReview, Some(i))]);
    var t := s.(journal := s.journal[b := Review(RetryableFailure, Some(i))]);
    FreshIsLive(s, b, key, disposition, at);
    IntentThenSettles(s, b, disposition, rationale, key, at, i, false, NotMade(Storage), false);
    DecisionEnds(s1, b, false, NotMade(Storage), false);
    RetryableIsHealthy(s1, b);
    assert s1.(journal := s1.journal[b := Review(RetryableFailure, Some(i))]) == t;
    NoFaultIsDecide(t, b, disposition, again, key, later);
    IntentThenSettles(t, b, disposition, again, key, later, i, false, Made(None), false);
    assert t.(journal := t.journal[b := Review(RetryableFailure, Some(i))]) == t;
    DecisionEnds(t, b, false, Made(None), false);
  }

  lemma FreshIsLive(s: State, b: Binding, key: Bytes, disposition: Disposition, at: nat)
    requires Healthy(s) && b in s.journal && s.journal[b] == Review(PendingReview, None)
    ensures s.reflog != [] && Head(s) == b.expected
    ensures Healthy(s.(journal := s.journal[b := Review(PendingReview, Some(MakeIntent(b, key, disposition, at)))]))
  {
    UndeniedIsOneOf(s, b);
    hide Inv, SerialInv;
    WriteIsHealthy(s, RegisterIntent(b, MakeIntent(b, key, disposition, at)));
  }

  lemma RetryableIsHealthy(s: State, b: Binding)
    requires Healthy(s) && b in s.journal && s.journal[b].state == PendingReview
    ensures Healthy(s.(journal := s.journal[b := s.journal[b].(state := RetryableFailure)]))
  {
    RetryIsHealthy(s, b);
  }

  lemma UnknownIsHealthy(s: State, b: Binding)
    requires Healthy(s) && b in s.journal && s.journal[b].state == PendingReview
    ensures Healthy(s.(journal := s.journal[b := s.journal[b].(state := OutcomeUnknown)]))
  {
    hide Inv, SerialInv;
    WriteIsHealthy(s, MoveReview(b, OutcomeUnknown));
  }

  /** A decision that could not read the refs is left unknown and unpublished; deciding again changes nothing,
      whereas one undisturbed resumption commits it. */
  lemma UnknownWaitsForResume(s: State, b: Binding, disposition: Disposition, rationale: Option<Rationale>, key: Bytes,
                              at: nat, attempt: Attempt, second: bool, again: Option<Rationale>, later: nat)
    requires Healthy(s) && b in s.journal && s.journal[b] == Review(PendingReview, None) && |s.reflog| < 4096
    requires ValidKey(key) && ValidPrivateRationale(rationale) && ValidPrivateRationale(again)
    ensures var i := MakeIntent(b, key, disposition, at);
            var failed := DecideUnder(s, b, disposition, rationale, key, at, true, attempt, second);
            var t := s.(journal := s.journal[b := Review(OutcomeUnknown, Some(i))]);
            var resumed := ResumeRun(t, b);
            && Last(failed) == t && failed.answer == Ok(NotCommitted(OutcomeUnknown))
            && Last(DecideRun(t, b, disposition, again, key, later)) == t
            && DecideRun(t, b, disposition, again, key, later).answer == Ok(NotCommitted(OutcomeUnknown))
            && Last(resumed) ==
                 State(s.reflog + [i.candidate], s.proposals, s.journal[b := Review(DecisionCommitted, Some(i))])
            && resumed.answer == Ok(Committed(ReceiptOf(b, i)))
  {
    hide Healthy, DecideUnder, SettleUnder, DecideRun, ResumeUnder, ResumeRun;
    var i := MakeIntent(b, key, disposition, at);
    var s1 := s.(journal := s.journal[b := Review(PendingReview, Some(i))]);
    var t := s.(journal := s.journal[b := Review(OutcomeUnknown, Some(i))]);
    FreshIsLive(s, b, key, disposition, at);
    IntentThenSettles(s, b, disposition, rationale, key, at, i, true, attempt, second);
    DecisionEnds(s1, b, true, attempt, second);
    UnknownIsHealthy(s1, b);
    assert s1.(journal := s1.journal[b := Review(OutcomeUnknown, Some(i))]) == t;
    NoFaultIsDecide(t, b, disposition, again, key, later);
    IntentThenSettles(t, b, disposition, again, key, later, i, false, Made(None), false);
    assert t.(journal := t.journal[b := Review(OutcomeUnknown, Some(i))]) == t;
    DecisionEnds(t, b, false, Made(None), false);
    NoFaultIsResume(t, b);
    ResumptionEnds(t, b, false, Made(None), false);
  }

  // ---- Every call of decide and of resume ----

  /** What decide leaves and answers once the intent `i` is the one to go by. */
  ghost predicate SettledAs(s: State, b: Binding, i: Intent, t: State, answer: Result<ReviewOutcome, SidecarError>)
    requires b in s.journal && s.reflog != []
  {
    var published := i.candidate in s.reflog;
    var undecided := s.journal[b].state == PendingReview || s.journal[b].state == RetryableFailure;
    && t.proposals == s.proposals
    && if published || (Head(s) == b.expected && undecided)
       then t.reflog == (if published then s.reflog else s.reflog + [i.candidate])
         && t.journal == s.journal[b := Review(DecisionCommitted, Some(i))]
         && answer == Ok(Committed(ReceiptOf(b, i)))
       else
         var state := if Head(s) == b.expected then s.journal[b].state else TerminalDenial;
         t.reflog == s.reflog && t.journal == s.journal[b := Review(state, Some(i))]
         && answer == Ok(NotCommitted(state))
  }

  /** decide: bad arguments, an unknown review, another stored intent and a head that has moved before the
      intent was stored are refused without a write; otherwise what is published is committed, what is
      undecided on the live head is published and committed, what waits for a resumption goes on waiting, and
      what another head has overtaken is denied. */
  lemma DecideSays(s: State, b: Binding, disposition: Disposition, rationale: Option<Rationale>, key: Bytes, at: nat)
    requires Healthy(s) && |s.reflog| < 4096
    ensures b in s.journal ==> s.reflog != []
    ensures var run := DecideRun(s, b, disposition, rationale, key, at);
            && run.states != []
            && var t := Last(run);
               if key == [] || |key| > 4096 || !ValidPrivateRationale(rationale) then
                 t == s && run.answer == Err(InvalidArgument)
               else if b !in s.journal then t == s && run.answer == Err(ReviewNotFound)
               else if s.journal[b].intent.Some? then
                 var i := s.journal[b].intent.value;
                 if DispositionOf(i) != disposition then t == s && run.answer == Err(IdempotencyConflict)
                 else if i.key != key then t == s && run.answer == Err(DecisionIntentExists)
                 else SettledAs(s, b, i, t, run.answer)
               else if Head(s) != b.expected then t == s && run.answer == Err(StaleBase)
               else SettledAs(s, b, MakeIntent(b, key, disposition, at), t, run.answer)
  {
    hide SettleUnder, DecideUnder, DecideRun, Inv, SerialInv, SettledAs;
    if b in s.journal {
      KnownHeads(s, b);
    }
    DecisionIsRefused(s, b, disposition, rationale, key, at);
    if b in s.journal {
      if ValidKey(key) && ValidPrivateRationale(rationale) {
        NoFaultIsDecide(s, b, disposition, rationale, key, at);
        if s.journal[b].intent.Some? {
          var i := s.journal[b].intent.value;
          if DispositionOf(i) == disposition && i.key == key {
            IntentThenSettles(s, b, disposition, rationale, key, at, i, false, Made(None), false);
            assert s.journal[b := Review(s.journal[b].state, Some(i))] == s.journal;
            SettlingSays(s, b);
          }
        } else if Head(s) == b.expected {
          var i := MakeIntent(b, key, disposition, at);
          IntentThenSettles(s, b, disposition, rationale, key, at, i, false, Made(None), false);
          NewIntentIsHealthy(s, b, key, disposition, at);
          SettlingSays(s.(journal := s.journal[b := Review(s.journal[b].state, Some(i))]), b);
          AlreadyRegistered(s, b, i);
        }
      }
    }
  }

  lemma DecisionIsRefused(s: State, b: Binding, disposition: Disposition, rationale: Option<Rationale>, key: Bytes,
                          at: nat)
    requires b in s.journal ==> s.reflog != []
    ensures var run := DecideRun(s, b, disposition, rationale, key, at);
            run.states != [] &&
            if !ValidKey(key) || !ValidPrivateRationale(rationale) then run == Stay(s, Err(InvalidArgument))
            else if b !in s.journal then run == Stay(s, Err(ReviewNotFound))
            else match s.journal[b].intent
                 case Some(i) =>
                   (DispositionOf(i) != disposition ==> run == Stay(s, Err(IdempotencyConflict)))
                   && (DispositionOf(i) == disposition && i.key != key ==> run == Stay(s, Err(DecisionIntentExists)))
                 case None => Head(s) != b.expected ==> run == Stay(s, Err(StaleBase))
  {
    hide SettleIntentRun;
  }

  lemma AlreadyRegistered(s: State, b: Binding, i: Intent)
    requires b in s.journal && s.reflog != []
    ensures var s1 := s.(journal := s.journal[b := Review(s.journal[b].state, Some(i))]);
            forall t, answer :: SettledAs(s1, b, i, t, answer) == SettledAs(s, b, i, t, answer)
  {
  }

  lemma NewIntentIsHealthy(s: State, b: Binding, key: Bytes, disposition: Disposition, at: nat)
    requires Healthy(s) && b in s.journal && s.journal[b].intent == None && s.reflog != [] && Head(s) == b.expected
    ensures var i := MakeIntent(b, key, disposition, at);
            Healthy(s.(journal := s.journal[b := Review(s.journal[b].state, Some(i))]))
  {
    hide Inv, SerialInv;
    WriteIsHealthy(s, RegisterIntent(b, MakeIntent(b, key, disposition, at)));
  }

  lemma SettlingSays(s: State, b: Binding)
    requires Healthy(s) && b in s.journal && s.journal[b].intent.Some? && |s.reflog| < 4096
    ensures s.reflog != []
    ensures var i := s.journal[b].intent.value;
            var run := SettleUnder(s, b, i, false, Made(None), false, false);
            SettledAs(s, b, i, Last(run), run.answer)
  {
    hide ReconcileRun, PublishUnder, Inv, SerialInv;
    KnownHeads(s, b);
    if Head(s) == b.expected && !IsTerminal(s.journal[b].state) {
      DecisionEnds(s, b, false, Made(None), false);
      hide SettleUnder;
    } else {
      ObservationEnds(s, b);
      if CandidateIsPublished(s, b) {
        DeniedIsUnpublished(s, b);
      }
    }
  }

  /** resume: an unknown review is refused; one without an intent is observed only; a stored intent whose
      review is not denied is carried out, whatever interrupted it. */
  lemma ResumeSays(s: State, b: Binding)
    requires Healthy(s) && |s.reflog| < 4096
    ensures b in s.journal ==> s.reflog != []
    ensures var run := ResumeRun(s, b);
            && run.states != []
            && var t := Last(run);
               if b !in s.journal then t == s && run.answer == Err(ReviewNotFound)
               else
                 var review := s.journal[b];
                 && t.proposals == s.proposals
                 && if review.intent == None || review.state == TerminalDenial then
                      var state := if Head(s) == b.expected then review.state else TerminalDenial;
                      t.reflog == s.reflog && t.journal == s.journal[b := Review(state, review.intent)]
                      && run.answer == Ok(NotCommitted(state))
                    else
                      var i := review.intent.value;
                      t.reflog == (if Head(s) == b.expected then s.reflog + [i.candidate] else s.reflog)
                      && t.journal == s.journal[b := Review(DecisionCommitted, Some(i))]
                      && run.answer == Ok(Committed(ReceiptOf(b, i)))
  {
    hide ReconcileRun, PublishAndReconcileRun, ResumeUnder, Inv, SerialInv;
    if b in s.journal {
      KnownHeads(s, b);
      ObservationEnds(s, b);
      if CandidateIsPublished(s, b) {
        DeniedIsUnpublished(s, b);
      }
      if s.journal[b].intent.Some? && s.journal[b].state != TerminalDenial {
        UndeniedIsOneOf(s, b);
        if !IsTerminal(s.journal[b].state) {
          NoFaultIsResume(s, b);
          ResumptionEnds(s, b, false, Made(None), false);
        }
      }
    } else {
      UnknownReview(s, b);
    }
  }

  lemma UnknownReview(s: State, b: Binding)
    requires b !in s.journal
    ensures ReconcileRun(s, b) == Stay(s, Err(ReviewNotFound))
  {
  }

  // ---- Proposing ----

  /** begin_proposal on an empty repository: the first head holds the accepted files and has no parent, the
      proposal is its child with the proposed files and the context, and one pending review binds the two. */
  lemma FirstProposalEnds(s: State, input: ProposalInput, at: nat)
    requires Inv(s) && s.reflog == [] && ValidOperationKey(input.operation)
    ensures var run := BeginRun(s, input, at);
            var t := Last(run);
            && |run.states| == 4 && |t.reflog| == 1 && input.operation in t.proposals
            && var base, head := t.reflog[0], t.proposals[input.operation];
               var b := Binding(input.operation, head, base);
               && base == Commit([], input.accepted, [], at)
               && head == Commit([base], input.proposed, [Activity(input.operation, input.context)], at)
               && t.proposals == map[input.operation := head] && t.journal == map[b := Review(PendingReview, None)]
               && run.answer == Ok(ProposalReceipt(b, input.accepted, input.proposed, input.context))
  {
    EmptyStoreIsEmpty(s);
    NothingIsReviewed(s);
    hide Inv;
  }

  lemma NothingIsReviewed(s: State)
    requires Inv(s) && s.reflog == []
    ensures s.journal == map[]
  {
    EmptyStoreIsEmpty(s);
    forall b | b in s.journal
      ensures false
    {
      SoundReview(s, b);
    }
  }

  /** With a head in place the bootstrap has nothing to do. */
  lemma BegunIsProposed(s: State, input: ProposalInput, at: nat)
    requires s.reflog != [] && ValidOperationKey(input.operation)
    ensures BeginRun(s, input, at) == ProposeRun(s, input, at)
  {
    ProposeStarts(s, input, at);
    hide ProposeRun;
    assert [s] + ProposeRun(s, input, at).states[1..] == ProposeRun(s, input, at).states;
  }

  /** A proposal is published in two writes. */
  lemma OpeningEnds(s: State, input: ProposalInput, at: nat)
    requires s.reflog != []
    ensures var head := Commit([Head(s)], input.proposed, [Activity(input.operation, input.context)], at);
            var b := Binding(input.operation, head, Head(s));
            var proposed := s.(proposals := s.proposals[input.operation := head]);
            b !in s.journal ==>
              OpenRun(s, input, at) ==
                Run([s, proposed, proposed.(journal := s.journal[b := Review(PendingReview, None)])],
                    Ok(ProposalReceipt(b, input.accepted, input.proposed, input.context)))
  {
  }

  /** begin_proposal with a new key: on the live files and beside no open proposal it is published, first the
      ref and then a pending review; every refusal has its own reason and writes nothing. */
  lemma NewProposalEnds(s: State, input: ProposalInput, at: nat)
    requires Inv(s) && s.reflog != [] && input.operation !in s.proposals
    ensures var run := BeginRun(s, input, at);
            var t := Last(run);
            var key := input.operation;
            if !ValidOperationKey(key) then t == s && run.answer == Err(InvalidArgument)
            else if Head(s).site != input.accepted then t == s && run.answer == Err(StaleBase)
            else if exists k :: k in s.proposals && Open(s, k) then t == s && run.answer == Err(ActiveReview)
            else
              var head := Commit([Head(s)], input.proposed, [Activity(key, input.context)], at);
              var b := Binding(key, head, Head(s));
              && run.states == [s, s.(proposals := s.proposals[key := head]), t] && b !in s.journal
              && t == State(s.reflog, s.proposals[key := head], s.journal[b := Review(PendingReview, None)])
              && run.answer == Ok(ProposalReceipt(b, input.accepted, input.proposed, input.context))
  {
    assert ReviewsAreSound(s);
    hide Inv, Open;
    if ValidOperationKey(input.operation) {
      BegunIsProposed(s, input, at);
      hide BeginRun;
      var key := input.operation;
      var b := Binding(key, Commit([Head(s)], input.proposed, [Activity(key, input.context)], at), Head(s));
      if b in s.journal {
        SoundReview(s, b);
      }
      OpeningEnds(s, input, at);
      hide OpenRun;
    }
  }

  /** begin_proposal with a key that is taken: stale on another base, a conflict with other bytes, and
      otherwise the same proposal again, whose review is completed if it is missing. */
  lemma TakenProposalEnds(s: State, input: ProposalInput, at: nat)
    requires Inv(s) && s.reflog != [] && input.operation in s.proposals && ValidOperationKey(input.operation)
    ensures var run := BeginRun(s, input, at);
            var t := Last(run);
            var head := s.proposals[input.operation];
            var b := Binding(input.operation, head, Head(s));
            if Head(s).site != input.accepted || head.parents != [Head(s)] then t == s && run.answer == Err(StaleBase)
            else if head.site != input.proposed || head.transitions != [Activity(input.operation, input.context)]
            then t == s && run.answer == Err(IdempotencyConflict)
            else
              && t == s.(journal := if b in s.journal then s.journal else s.journal[b := Review(PendingReview, None)])
              && run.answer == Ok(ProposalReceipt(b, input.accepted, input.proposed, input.context))
  {
    assert IsProposalCommit(input.operation, s.proposals[input.operation]);
    BegunIsProposed(s, input, at);
    hide Inv, Open, BeginRun;
  }

  /** inspect_proposal reads back what the review binds. */
  lemma InspectionSays(s: State, b: Binding)
    requires Inv(s)
    ensures b !in s.journal ==> InspectAnswer(s, b) == Err(ReviewNotFound)
    ensures b in s.journal ==> |b.proposalHead.transitions| == 1 && b.proposalHead.transitions[0].Activity?
    ensures b in s.journal && |s.reflog| <= 4096 ==>
              InspectAnswer(s, b) ==
                Ok(ProposalReceipt(b, b.expected.site, b.proposalHead.site, b.proposalHead.transitions[0].context))
  {
    if b in s.journal {
      SoundReview(s, b);
      assert IsProposalCommit(b.operation, s.proposals[b.operation]);
      assert s.proposals[b.operation].parents[0] in s.reflog;
    }
    hide Inv;
  }
}
