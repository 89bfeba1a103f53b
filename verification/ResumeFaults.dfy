/** Serialised calls whose storage, journal or Core fails on the way: a resumption is the one call that
    can deny a published decision, and exactly when it does. */
module ResumeFaults {
  import opened Base
  import opened Synapse
  import opened SerialRuns
  import opened SidecarSpec
  import opened SidecarFaults
  import opened SidecarTheorems

  /** Without faults a resumption is that of SidecarSpec, state by state. */
  lemma NoFaultIsResume(s: State, b: Binding)
    ensures ResumeUnder(s, b, false, Made(None), false) == ResumeRun(s, b)
  {
    PendingMeansUntouched(s, b);
    hide ReconcileRun;
  }

  /** Nothing denied is published, after each write of the run, but for its last when `bad`. */
  ghost predicate HealthyBut<R>(run: Run<R>, bad: bool)
  {
    forall n :: 0 <= n < |run.states| ==> (Healthy(run.states[n]) <==> !(bad && n == |run.states| - 1))
  }

  lemma HealthyThen<A, B>(first: Run<A>, next: Run<B>, bad: bool)
    requires first.states != [] && Starts(next, Last(first)) && HealthyBut(first, false) && HealthyBut(next, bad)
    ensures HealthyBut(Then(first, next), bad)
  {
    hide Healthy;
    var both := Then(first, next);
    forall n | 0 <= n < |both.states|
      ensures Healthy(both.states[n]) <==> !(bad && n == |both.states| - 1)
    {
      if n >= |first.states| {
        assert both.states[n] == next.states[n - |first.states| + 1];
      }
    }
  }

  lemma ReconcileIsHealthy(s: State, b: Binding)
    requires Healthy(s)
    ensures HealthyBut(ReconcileRun(s, b), false)
  {
    hide Inv, SerialInv;
    var run := ReconcileRun(s, b);
    if |run.states| > 1 {
      if run.answer.value.Committed? {
        MarkingIsHealthy(s, b);
      } else {
        WriteIsHealthy(s, MoveReview(b, TerminalDenial));
      }
    }
  }

  lemma MarkUnknownIsHealthy(s: State, b: Binding)
    requires Healthy(s)
    ensures HealthyBut(MarkUnknownRun(s, b), false)
  {
    hide Inv, SerialInv;
    if |MarkUnknownRun(s, b).states| > 1 {
      WriteIsHealthy(s, MoveReview(b, OutcomeUnknown));
    }
  }

  lemma ObservationIsHealthy(s: State, b: Binding, unreadable: bool)
    requires Healthy(s)
    ensures HealthyBut(ObserveRun(s, b, unreadable), false)
  {
    if unreadable {
      MarkUnknownIsHealthy(s, b);
    } else {
      ReconcileIsHealthy(s, b);
    }
  }

  /** An undecided observation leaves the review in the state it reports, refs and intents untouched. */
  lemma UndecidedObservation(s: State, b: Binding, unreadable: bool)
    requires GoesOn(ObserveRun(s, b, unreadable).answer, true)
    ensures var run := ObserveRun(s, b, unreadable);
            var state := run.answer.value.state;
            && b in s.journal && !IsTerminal(s.journal[b].state) && Last(run) == Marked(s, b, state)
            && (state == OutcomeUnknown || Last(run) == s)
            && (unreadable ==> state == OutcomeUnknown)
            && (!unreadable ==> s.reflog != [] && Head(s) == b.expected)
  {
    PendingMeansUntouched(s, b);
    if b in s.journal && s.journal[b].state == ObserveRun(s, b, unreadable).answer.value.state {
      assert s.journal[b := s.journal[b]] == s.journal;
    }
  }

  /** With the candidate published, an observation stays undecided exactly when it cannot read the refs. */
  lemma PublishedAnswers(s: State, b: Binding, unreadable: bool)
    requires Healthy(s) && b in s.journal && CandidateIsPublished(s, b)
    ensures GoesOn(ObserveRun(s, b, unreadable).answer, true) <==> unreadable && !IsTerminal(s.journal[b].state)
  {
    hide Inv, SerialInv, ReconcileRun;
    PublishedMeansMoved(s, b);
    PendingMeansUntouched(s, b);
  }

  /** Denying breaks the invariant exactly when the candidate has been published. */
  lemma DenialIsHealthy(s: State, b: Binding)
    requires Healthy(s) && b in s.journal && !IsTerminal(s.journal[b].state)
    ensures Healthy(Marked(s, b, TerminalDenial)) <==> !CandidateIsPublished(s, b)
  {
    hide Inv;
    var t := Marked(s, b, TerminalDenial);
    if CandidateIsPublished(s, b) {
      assert t.journal[b].state == TerminalDenial && CandidateIsPublished(t, b);
    } else {
      hide SerialInv;
      WriteIsHealthy(s, MoveReview(b, TerminalDenial));
    }
  }

  lemma RetryIsHealthy(s: State, b: Binding)
    requires Healthy(s) && b in s.journal && s.journal[b].state == PendingReview
    ensures Healthy(Marked(s, b, RetryableFailure))
  {
    hide Inv, SerialInv;
    WriteIsHealthy(s, MoveReview(b, RetryableFailure));
  }

  /** What follows the publication attempt. */
  lemma JudgementKeepsHealthIff(s: State, b: Binding, made: Result<(), SidecarError>, second: bool)
    requires Healthy(s) && b in s.journal && s.journal[b].intent.Some? && !IsTerminal(s.journal[b].state)
    ensures HealthyBut(JudgeRun(s, b, made, second, true),
                       second && CandidateIsPublished(s, b) && made.Err? && made.error != Storage)
  {
    hide Healthy, ObserveRun, CandidateIsPublished;
    var after := ObserveRun(s, b, second);
    var bad := second && CandidateIsPublished(s, b) && made.Err? && made.error != Storage;
    ObservationIsHealthy(s, b, second);
    if CandidateIsPublished(s, b) {
      PublishedAnswers(s, b, second);
    }
    if made.Err? {
      var s2 := Last(after);
      var tail := TailRun(s2, b, made.error, after.answer, true);
      assert HealthyBut(after, false) && Healthy(s2);
      if GoesOn(after.answer, true) {
        UndecidedObservation(s, b, second);
        SamePublication(s, s2, b);
        DenialIsHealthy(s2, b);
        if after.answer.value.state == PendingReview {
          RetryIsHealthy(s2, b);
        }
      }
      assert HealthyBut(tail, bad);
      HealthyThen(after, tail, bad);
    }
  }

  lemma SamePublication(s: State, t: State, b: Binding)
    requires b in s.journal && b in t.journal && t.reflog == s.reflog && t.journal[b].intent == s.journal[b].intent
    ensures CandidateIsPublished(t, b) == CandidateIsPublished(s, b)
  {
  }

  /** The attempt before the judgement: it may publish although its reply is lost. */
  predicate DeniesUnseen(published: bool, attempt: Attempt, second: bool)
  {
    second && match attempt
              case NotMade(error) => published && error != Storage
              case Made(lost) => published || (lost.Some? && lost.value != Storage)
  }

  lemma PublicationKeepsHealthIff(s: State, b: Binding, attempt: Attempt, second: bool)
    requires Healthy(s) && b in s.journal && s.journal[b].intent.Some? && !IsTerminal(s.journal[b].state)
    ensures HealthyBut(PublishUnder(s, b, s.journal[b].intent.value, attempt, second, true),
                       DeniesUnseen(CandidateIsPublished(s, b), attempt, second))
  {
    hide Healthy, JudgeRun;
    var i := s.journal[b].intent.value;
    var made := AttemptRun(s, b, i, attempt);
    UndeniedIsOneOf(s, b);
    if !CandidateIsPublished(s, b) {
      PublicationIsHealthy(s, b);
    }
    JudgementKeepsHealthIff(Last(made), b, made.answer, second);
    HealthyThen(made, JudgeRun(Last(made), b, made.answer, second, true),
                DeniesUnseen(CandidateIsPublished(s, b), attempt, second));
  }

  lemma UndeniedIsOneOf(s: State, b: Binding)
    requires Healthy(s) && b in s.journal && s.journal[b].state != TerminalDenial
    ensures s.reflog != [] && (Head(s) == b.expected) != CandidateIsPublished(s, b)
  {
    UndeniedIsLiveOrPublished(s, b);
  }

  /** The guard that is missing: the second observation cannot read the refs while the decision is
      published, be it before a first observation that cannot read them either, or by this very attempt
      whose reply is lost; and the error of the attempt is taken for a refusal. */
  predicate PublishedUnseen(s: State, b: Binding, first: bool, attempt: Attempt, second: bool)
  {
    && b in s.journal && s.journal[b].intent.Some? && !IsTerminal(s.journal[b].state)
    && (CandidateIsPublished(s, b) ==> first)
    && DeniesUnseen(CandidateIsPublished(s, b), attempt, second)
  }

  /** Whatever fails during a serialised resumption, "denied excludes published" holds after each of its
      writes, if and only if it is not the case that the decision is published unseen; then, and only
      then, the last write denies a published decision. */
  lemma ResumeKeepsHealthIff(s: State, b: Binding, first: bool, attempt: Attempt, second: bool)
    requires Healthy(s)
    ensures HealthyBut(ResumeUnder(s, b, first, attempt, second), PublishedUnseen(s, b, first, attempt, second))
  {
    hide Healthy, ObserveRun, PublishUnder, CandidateIsPublished, DeniesUnseen;
    ObservationIsHealthy(s, b, first);
    if b in s.journal && s.journal[b].intent.Some? {
      var seen := ObserveRun(s, b, first);
      if CandidateIsPublished(s, b) {
        PublishedAnswers(s, b, first);
      } else if !IsTerminal(s.journal[b].state) {
        LiveGoesOn(s, b, first);
      }
      if GoesOn(seen.answer, true) {
        var s1 := Last(seen);
        UndecidedObservation(s, b, first);
        SamePublication(s, s1, b);
        PublicationKeepsHealthIff(s1, b, attempt, second);
        HealthyThen(seen, PublishUnder(s1, b, s.journal[b].intent.value, attempt, second, true),
                    PublishedUnseen(s, b, first, attempt, second));
      }
    }
  }

  lemma LiveGoesOn(s: State, b: Binding, unreadable: bool)
    requires Healthy(s) && b in s.journal && s.journal[b].intent.Some?
    requires !IsTerminal(s.journal[b].state) && !CandidateIsPublished(s, b)
    ensures GoesOn(ObserveRun(s, b, unreadable).answer, true)
  {
    hide Healthy, CandidateIsPublished;
    UndeniedIsOneOf(s, b);
    if !unreadable {
      LiveIsPending(s, b);
      hide ReconcileRun;
      assert ObserveRun(s, b, unreadable) == ReconcileRun(s, b);
    }
  }

  lemma LiveIsPending(s: State, b: Binding)
    requires b in s.journal && !IsTerminal(s.journal[b].state) && s.reflog != [] && Head(s) == b.expected
    ensures ReconcileRun(s, b) == Stay(s, Ok(NotCommitted(s.journal[b].state)))
  {
  }

  /** So whenever a serialised resumption breaks the invariant, it ran to the denial of a decision that
      was published unseen. */
  lemma OnlyUnseenIsDenied(s: State, b: Binding, t: State, answer: Result<ReviewOutcome, SidecarError>)
    requires Healthy(s) && Resumes(s, b, t, answer) && !Healthy(t)
    ensures exists first: bool, attempt, second: bool ::
              PublishedUnseen(s, b, first, attempt, second) && t == Last(ResumeUnder(s, b, first, attempt, second))
  {
    hide Healthy, ResumeUnder, PublishedUnseen;
    var first: bool, attempt, second: bool :| Cut(ResumeUnder(s, b, first, attempt, second), t, answer);
    ResumeKeepsHealthIff(s, b, first, attempt, second);
    var run := ResumeUnder(s, b, first, attempt, second);
    var n :| 0 <= n < |run.states| && run.states[n] == t;
  }

  /** decide only denies what it has just seen unpublished, so it keeps the invariant under all faults. */
  lemma DecideKeepsHealth(s: State, b: Binding, disposition: Disposition, rationale: Option<Rationale>, key: Bytes,
                          at: nat, first: bool, attempt: Attempt, second: bool)
    requires Healthy(s)
    ensures HealthyBut(DecideUnder(s, b, disposition, rationale, key, at, first, attempt, second), false)
  {
    hide Healthy, SettleUnder;
    if ValidKey(key) && ValidPrivateRationale(rationale) && b in s.journal {
      var registered := IntentRun(s, b, disposition, key, at);
      if registered.answer.Ok? {
        var i := registered.answer.value;
        RegistrationIsHealthy(s, b, disposition, key, at);
        SettlementKeepsHealth(Last(registered), b, first, attempt, second);
        HealthyThen(registered, SettleUnder(Last(registered), b, i, first, attempt, second, false), false);
      }
    }
  }

  lemma RegistrationIsHealthy(s: State, b: Binding, disposition: Disposition, key: Bytes, at: nat)
    requires Healthy(s) && b in s.journal && IntentRun(s, b, disposition, key, at).answer.Ok?
    ensures var run := IntentRun(s, b, disposition, key, at);
            && HealthyBut(run, false) && Starts(run, s) && b in Last(run).journal
            && Last(run).journal[b].intent == Some(run.answer.value)
  {
    hide Inv, SerialInv;
    if s.journal[b].intent == None {
      WriteIsHealthy(s, RegisterIntent(b, MakeIntent(b, key, disposition, at)));
    }
  }

  lemma SettlementKeepsHealth(s: State, b: Binding, first: bool, attempt: Attempt, second: bool)
    requires Healthy(s) && b in s.journal && s.journal[b].intent.Some?
    ensures HealthyBut(SettleUnder(s, b, s.journal[b].intent.value, first, attempt, second, false), false)
  {
    hide Healthy, ObserveRun, JudgeRun;
    var seen := ObserveRun(s, b, first);
    var i := s.journal[b].intent.value;
    ObservationIsHealthy(s, b, first);
    if GoesOn(seen.answer, false) {
      UndecidedObservation(s, b, first);
      UndeniedIsOneOf(s, b);
      assert Last(seen) == s;
      var made := AttemptRun(s, b, i, attempt);
      PublicationIsHealthy(s, b);
      DecisionIsJudged(Last(made), b, made.answer, second);
      HealthyThen(made, JudgeRun(Last(made), b, made.answer, second, false), false);
      HealthyThen(seen, PublishUnder(s, b, i, attempt, second, false), false);
    }
  }

  lemma DecisionIsJudged(s: State, b: Binding, made: Result<(), SidecarError>, second: bool)
    requires Healthy(s) && b in s.journal && s.journal[b].intent.Some?
    ensures HealthyBut(JudgeRun(s, b, made, second, false), false)
  {
    hide Healthy, ObserveRun, CandidateIsPublished;
    var after := ObserveRun(s, b, second);
    ObservationIsHealthy(s, b, second);
    if made.Err? {
      var s2 := Last(after);
      if GoesOn(after.answer, false) {
        UndecidedObservation(s, b, second);
        if CandidateIsPublished(s, b) {
          PublishedAnswers(s, b, second);
        }
        DenialIsHealthy(s, b);
        if after.answer.value.state == PendingReview {
          RetryIsHealthy(s, b);
        }
      }
      HealthyThen(after, TailRun(s2, b, made.error, after.answer, false), false);
    }
  }

  /** What a decision published unseen comes to: it stays published, and the review ends denied. */
  lemma UnseenIsDenied(s: State, b: Binding, first: bool, attempt: Attempt, second: bool)
    requires Healthy(s) && PublishedUnseen(s, b, first, attempt, second)
    ensures var t := Last(ResumeUnder(s, b, first, attempt, second));
            && b in t.journal && t.journal[b] == s.journal[b].(state := TerminalDenial)
            && t.reflog == if CandidateIsPublished(s, b) then s.reflog
               else s.reflog + [s.journal[b].intent.value.candidate]
  {
    hide Healthy, ObserveRun, CandidateIsPublished, JudgeRun;
    var i := s.journal[b].intent.value;
    if CandidateIsPublished(s, b) {
      PublishedAnswers(s, b, first);
    } else {
      LiveGoesOn(s, b, first);
    }
    UndeniedIsOneOf(s, b);
    UndecidedObservation(s, b, first);
    var seen := ObserveRun(s, b, first);
    var made := AttemptRun(Last(seen), b, i, attempt);
    UnseenIsJudged(Last(made), b, made.answer);
    LastThen(made, JudgeRun(Last(made), b, made.answer, second, true));
    LastThen(seen, PublishUnder(Last(seen), b, i, attempt, second, true));
  }

  lemma UnseenIsJudged(s: State, b: Binding, made: Result<(), SidecarError>)
    requires b in s.journal && s.journal[b].intent.Some? && !IsTerminal(s.journal[b].state)
    requires made.Err? && made.error != Storage
    ensures var t := Last(JudgeRun(s, b, made, true, true));
            b in t.journal && t.journal[b] == s.journal[b].(state := TerminalDenial) && t.reflog == s.reflog
  {
    hide ReconcileRun;
    var after := ObserveRun(s, b, true);
    LastThen(after, TailRun(Last(after), b, made.error, after.answer, true));
  }

  lemma LastThen<A, B>(first: Run<A>, next: Run<B>)
    requires first.states != [] && Starts(next, Last(first))
    ensures Then(first, next).states != [] && Last(Then(first, next)) == Last(next)
  {
  }

  // A reachable state that shows it: a Decision published just before a crash.

  const BASE := BaseCommit(map[], 0)
  const PROPOSAL := ProposalCommit("a", BASE, map[], "", 1)
  const REVIEW := Binding("a", PROPOSAL, BASE)
  const INTENT := MakeIntent(REVIEW, [1], AdoptedUnchanged, 1)
  const STAGES: seq<State> := [
    EMPTY,
    State([BASE], map[], map[]),
    State([BASE], map["a" := PROPOSAL], map[]),
    State([BASE], map["a" := PROPOSAL], map[REVIEW := Review(PendingReview, None)]),
    State([BASE], map["a" := PROPOSAL], map[REVIEW := Review(PendingReview, Some(INTENT))]),
    State([BASE, INTENT.candidate], map["a" := PROPOSAL], map[REVIEW := Review(PendingReview, Some(INTENT))])]
  const WRITES: seq<Write> := [
    InitializeDecisionRef(BASE), CreateProposalRef("a", PROPOSAL), CreateReview(REVIEW),
    RegisterIntent(REVIEW, INTENT), PublishCandidate(REVIEW)]

  predicate Steps(n: nat)
    requires n < 5
  {
    Enabled(STAGES[n], WRITES[n]) && SerialEnabled(STAGES[n], WRITES[n])
      && Perform(STAGES[n], WRITES[n]) == STAGES[n + 1]
  }

  lemma StepsUpToReview()
    ensures Steps(0) && Steps(1) && Steps(2)
  {
    assert BASE in STAGES[1].reflog;
  }

  lemma StepsToPublication()
    ensures Steps(3) && Steps(4)
  {
  }

  lemma {:induction false} StagesAreReached(n: nat, m: nat)
    requires n <= m <= 5
    requires forall k :: n <= k < m ==> Steps(k)
    ensures IsSerialRun(STAGES[n], WRITES[n..m], STAGES[m])
    decreases m - n
  {
    if n < m {
      StagesAreReached(n + 1, m);
      assert Steps(n);
      assert WRITES[n..m][1..] == WRITES[n + 1..m];
      hide Enabled, SerialEnabled, Perform;
    }
  }

  /** Two ways there: from the state just after a publication, an attempt that finds the head moved, or,
      one write earlier, an attempt that publishes and loses its reply. */
  lemma ResumeCanDenyAPublishedDecision()
    ensures IsSerialRun(EMPTY, WRITES, STAGES[5]) && PublishedUnseen(STAGES[5], REVIEW, true, Made(None), true)
    ensures IsSerialRun(EMPTY, WRITES[..4], STAGES[4])
            && PublishedUnseen(STAGES[4], REVIEW, false, Made(Some(Integrity)), true)
    ensures EndsDenied(ResumeUnder(STAGES[5], REVIEW, true, Made(None), true))
    ensures EndsDenied(ResumeUnder(STAGES[4], REVIEW, false, Made(Some(Integrity)), true))
  {
    StagesAreHealthy();
    hide *;
    DeniedAfterPublication();
    DeniedWithPublication();
  }

  /** The review denied and its decision live. */
  predicate EndsDenied(run: Run<ReviewOutcome>)
  {
    run.states != [] && Last(run).reflog != [] && Head(Last(run)) == INTENT.candidate
    && REVIEW in Last(run).journal && Last(run).journal[REVIEW].state == TerminalDenial
  }

  lemma UnpublishedAtFour()
    ensures !CandidateIsPublished(STAGES[4], REVIEW)
  {
    assert STAGES[4].reflog == [BASE] && BASE.parents == [] && INTENT.candidate.parents == [BASE];
  }

  lemma StagesAreHealthy()
    ensures IsSerialRun(EMPTY, WRITES, STAGES[5]) && Healthy(STAGES[5])
    ensures IsSerialRun(EMPTY, WRITES[..4], STAGES[4]) && Healthy(STAGES[4])
  {
    StepsUpToReview();
    StepsToPublication();
    StagesAreReached(0, 5);
    StagesAreReached(0, 4);
    assert WRITES[0..5] == WRITES && WRITES[0..4] == WRITES[..4];
    SerialRunsKeepInv(EMPTY, WRITES, STAGES[5]);
    SerialRunsKeepInv(EMPTY, WRITES[..4], STAGES[4]);
  }

  lemma DeniedAfterPublication()
    requires Healthy(STAGES[5])
    ensures PublishedUnseen(STAGES[5], REVIEW, true, Made(None), true)
    ensures EndsDenied(ResumeUnder(STAGES[5], REVIEW, true, Made(None), true))
  {
    hide Healthy, ResumeUnder;
    assert STAGES[5].reflog[1] == INTENT.candidate;
    UnseenIsDenied(STAGES[5], REVIEW, true, Made(None), true);
  }

  lemma DeniedWithPublication()
    requires Healthy(STAGES[4])
    ensures PublishedUnseen(STAGES[4], REVIEW, false, Made(Some(Integrity)), true)
    ensures EndsDenied(ResumeUnder(STAGES[4], REVIEW, false, Made(Some(Integrity)), true))
  {
    hide Healthy, ResumeUnder;
    UnpublishedAtFour();
    UnseenIsDenied(STAGES[4], REVIEW, false, Made(Some(Integrity)), true);
  }
}
