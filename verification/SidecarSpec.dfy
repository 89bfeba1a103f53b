/** What one serialised, fault-free call of the sidecar does, as the sequence of durable states it
    leaves behind (one per durable write) and its answer. A power loss cuts the sequence short. */
module SidecarSpec {
  import opened Base
  import opened Synapse
  import opened SerialRuns
  import opened ChainWalk
  import opened Paths

  datatype SidecarError =
    | InvalidArgument | StaleBase | ActiveReview | IdempotencyConflict | DecisionIntentExists
    | ReviewNotFound | TerminalState | Integrity | Storage
    | PowerLoss  // not an error of the program: the process stopped here

  datatype DecisionReceipt = DecisionReceipt(disposition: Disposition, reviewed: Files, selectsProposal: bool)

  datatype ReviewOutcome = NotCommitted(state: ReviewState) | Committed(receipt: DecisionReceipt)

  datatype ProposalReceipt = ProposalReceipt(review: Binding, base: Files, proposed: Files, context: string)

  datatype Run<+R> = Run(states: seq<State>, answer: Result<R, SidecarError>)

  function Stay<R>(s: State, answer: Result<R, SidecarError>): Run<R> { Run([s], answer) }

  ghost predicate Starts<R>(run: Run<R>, s: State) { run.states != [] && run.states[0] == s }

  function Last<R>(run: Run<R>): State
    requires run.states != []
  {
    run.states[|run.states| - 1]
  }

  /** `fuse` durable writes happen before the power goes. */
  ghost predicate Performed<R>(run: Run<R>, fuse: nat, left: nat, now: State, answer: Result<R, SidecarError>)
  {
    run.states != [] &&
    if fuse < |run.states| - 1 then now == run.states[fuse] && left == 0 && answer == Err(PowerLoss)
    else now == Last(run) && left == fuse - (|run.states| - 1) && answer == run.answer
  }

  function DispositionOf(i: Intent): Disposition
  {
    match i.feedback
    case DecisionFeedback(_, _, disposition, _) => disposition
    case Activity(_, _) => Deferred  // no intent holds an activity
  }

  function ReceiptOf(b: Binding, i: Intent): DecisionReceipt
  {
    if DispositionOf(i) == AdoptedUnchanged then DecisionReceipt(AdoptedUnchanged, b.proposalHead.site, true)
    else DecisionReceipt(DispositionOf(i), b.expected.site, false)
  }

  predicate RulesOut(observed: ReviewState, target: ReviewState)
  {
    || IsTerminal(observed)
    || (observed == OutcomeUnknown && !IsTerminal(target))
    || (observed == RetryableFailure && target == RetryableFailure)
  }

  function Marked(s: State, b: Binding, to: ReviewState): State
    requires b in s.journal
  {
    s.(journal := s.journal[b := s.journal[b].(state := to)])
  }

  /** Move the review, unless it is there already or its state rules the move out. */
  function MoveRun(s: State, b: Binding, to: ReviewState): Run<ReviewState>
    requires b in s.journal
  {
    var state := s.journal[b].state;
    if state == to || RulesOut(state, to) then Stay(s, Ok(state)) else Run([s, Marked(s, b, to)], Ok(to))
  }

  /** Move the review to a terminal state unless it is there already; the other terminal state is an error. */
  function Settle<R>(s: State, b: Binding, to: ReviewState, outcome: R): (run: Run<R>)
    requires b in s.journal
    ensures Starts(run, s)
  {
    var state := s.journal[b].state;
    if state == to then Stay(s, Ok(outcome))
    else if IsTerminal(state) then Stay(s, Err(Integrity))
    else Run([s, Marked(s, b, to)], Ok(outcome))
  }

  /** Reconciliation reads the live head and never publishes: untouched head, published, or denied. */
  function ReconcileRun(s: State, b: Binding): (run: Run<ReviewOutcome>)
    ensures Starts(run, s)
  {
    if b !in s.journal then Stay(s, Err(ReviewNotFound))
    else
      var review := s.journal[b];
      if s.reflog != [] && Head(s) == b.expected then
        Stay(s, if review.state == DecisionCommitted then Err(Integrity) else Ok(NotCommitted(review.state)))
      else if review.intent == None then Settle(s, b, TerminalDenial, NotCommitted(TerminalDenial))
      else
        match WalkAnswer(s, review.intent.value.candidate)
        case Err(_) => Stay(s, Err(Integrity))
        case Ok(false) => Settle(s, b, TerminalDenial, NotCommitted(TerminalDenial))
        case Ok(true) => Settle(s, b, DecisionCommitted, Committed(ReceiptOf(b, review.intent.value)))
  }

  /** Continue a run with what `next` does from where it ended. */
  function Then<A, B>(first: Run<A>, next: Run<B>): Run<B>
  {
    Run(first.states + if next.states == [] then [] else next.states[1..], next.answer)
  }

  lemma PerformedThen<A, B>(first: Run<A>, next: Run<B>, fuse: nat, mid: nat, left: nat, now: State,
                            answer: Result<B, SidecarError>)
    requires first.states != [] && Starts(next, Last(first))
    requires |first.states| - 1 <= fuse && mid == fuse - (|first.states| - 1)
    requires Performed(next, mid, left, now, answer)
    ensures Performed(Then(first, next), fuse, left, now, answer)
  {
  }

  lemma LostInFirst<A, B>(first: Run<A>, next: Run<B>, fuse: nat, left: nat, now: State,
                          answer: Result<A, SidecarError>)
    requires Performed(first, fuse, left, now, answer) && fuse < |first.states| - 1
    ensures Performed(Then(first, next), fuse, left, now, Err(PowerLoss)) && answer == Err(PowerLoss)
  {
  }

  /** An undecided answer means the head is where the review expects it, and nothing was written. */
  lemma PendingMeansUntouched(s: State, b: Binding)
    ensures var run := ReconcileRun(s, b);
            && (run.answer.Ok? && run.answer.value.NotCommitted? && run.answer.value.state != TerminalDenial ==>
                  && run.states == [s] && b in s.journal && run.answer.value.state == s.journal[b].state
                  && s.reflog != [] && Head(s) == b.expected)
  {
  }

  /** The journal's answer to a registration: one intent per review, exact repetition returns it. */
  function RegisterRun(s: State, b: Binding, i: Intent): Run<Intent>
    requires b in s.journal
  {
    match s.journal[b].intent
    case None => Run([s, s.(journal := s.journal[b := s.journal[b].(intent := Some(i))])], Ok(i))
    case Some(e) =>
      Stay(s, if e.key != i.key then Err(DecisionIntentExists) else if e != i then Err(IdempotencyConflict) else Ok(e))
  }

  /** The intent a decision goes by: the stored one if it says the same, a new one if the base is live. */
  function IntentRun(s: State, b: Binding, disposition: Disposition, key: Bytes, at: nat): Run<Intent>
    requires b in s.journal
  {
    match s.journal[b].intent
    case Some(e) =>
      Stay(s, if DispositionOf(e) != disposition then Err(IdempotencyConflict)
              else if e.key != key then Err(DecisionIntentExists) else Ok(e))
    case None =>
      if s.reflog == [] || Head(s) != b.expected then Stay(s, Err(StaleBase))
      else RegisterRun(s, b, MakeIntent(b, key, disposition, at))
  }

  function Extended(s: State, i: Intent): State { s.(reflog := s.reflog + [i.candidate]) }

  function PublishRun(s: State, b: Binding, i: Intent): Run<()>
  {
    if s.reflog == [] || Head(s) != b.expected then Stay(s, Err(StaleBase))
    else Run([s, Extended(s, i)], Ok(()))
  }

  function PublishAndReconcileRun(s: State, b: Binding, i: Intent): Run<ReviewOutcome>
  {
    Then(PublishRun(s, b, i), ReconcileRun(Last(PublishRun(s, b, i)), b))
  }

  /** With an intent in place: observe first, publish only what is still undecided, observe again. */
  function SettleIntentRun(s: State, b: Binding, i: Intent): (run: Run<ReviewOutcome>)
    ensures Starts(run, s)
  {
    var seen := ReconcileRun(s, b);
    match seen.answer
    case Ok(NotCommitted(PendingReview)) => PublishAndReconcileRun(s, b, i)
    case Ok(NotCommitted(RetryableFailure)) => PublishAndReconcileRun(s, b, i)
    case _ => seen
  }

  /** The private rationale reaches the sidecar only to be validated; it never enters durable state. */
  type Rationale = string

  const MAX_IDEMPOTENCY_KEY_BYTES := 4_096
  const MAX_PRIVATE_RATIONALE_BYTES := 2_000

  predicate ValidKey(key: Bytes) { key != [] && |key| <= MAX_IDEMPOTENCY_KEY_BYTES }

  predicate ValidPrivateRationale(r: Option<Rationale>)
  {
    r.Some? ==>
      && 0 < |r.value| <= MAX_PRIVATE_RATIONALE_BYTES
      && forall i :: 0 <= i < |r.value| ==> !ControlAt(r.value, i)
  }

  function DecideRun(s: State, b: Binding, disposition: Disposition, rationale: Option<Rationale>, key: Bytes,
                     at: nat): Run<ReviewOutcome>
  {
    if !ValidKey(key) || !ValidPrivateRationale(rationale) then Stay(s, Err(InvalidArgument))
    else if b !in s.journal then Stay(s, Err(ReviewNotFound))
    else
      var registered := IntentRun(s, b, disposition, key, at);
      match registered.answer
      case Err(error) => Stay(s, Err(error))
      case Ok(i) => Then(registered, SettleIntentRun(Last(registered), b, i))
  }

  function ResumeRun(s: State, b: Binding): Run<ReviewOutcome>
  {
    var seen := ReconcileRun(s, b);
    match seen.answer
    case Ok(NotCommitted(state)) =>
      if IsTerminal(state) || b !in s.journal || s.journal[b].intent == None then seen
      else PublishAndReconcileRun(s, b, s.journal[b].intent.value)
    case _ => seen
  }

  /** A resumption is its first observation, or goes on from where that left everything alone. */
  lemma ResumeGoesOn(s: State, b: Binding, fuse: nat, left: nat, now: State, seen: Result<ReviewOutcome, SidecarError>)
    requires Performed(ReconcileRun(s, b), fuse, left, now, seen)
    ensures if seen.Err? || seen.value.Committed? || seen.value.state == TerminalDenial
            then Performed(ResumeRun(s, b), fuse, left, now, seen)
            else
              && now == s && left == fuse && b in s.journal && seen.value.state == s.journal[b].state
              && s.reflog != [] && Head(s) == b.expected && !IsTerminal(s.journal[b].state)
              && (s.journal[b].intent == None ==> Performed(ResumeRun(s, b), fuse, left, now, seen))
              && (s.journal[b].intent.Some? ==>
                    ResumeRun(s, b) == PublishAndReconcileRun(s, b, s.journal[b].intent.value))
  {
    PendingMeansUntouched(s, b);
    PendingIsUndecided(s, b);
    hide ReconcileRun, PublishAndReconcileRun;
  }

  lemma PendingIsUndecided(s: State, b: Binding)
    ensures ReconcileRun(s, b).answer.Ok? && ReconcileRun(s, b).answer.value.NotCommitted? ==>
              ReconcileRun(s, b).answer.value.state != DecisionCommitted
  {
  }

  // ---- Proposals ----

  /** `context` is the review context in its canonical form. */
  datatype ProposalInput = ProposalInput(operation: OperationKey, accepted: Files, proposed: Files, context: string)

  const MAX_OPERATION_KEY_BYTES := 128

  predicate IsKeyStart(c: char) { 'a' <= c <= 'z' || '0' <= c <= '9' }

  predicate ValidOperationKey(k: OperationKey)
  {
    0 < |k| <= MAX_OPERATION_KEY_BYTES && IsKeyStart(k[0]) && forall c :: c in k ==> IsKeyStart(c) || c in "-_."
  }

  function ContextOf(head: Commit): Option<string>
  {
    if |head.transitions| == 1 && head.transitions[0].Activity? then Some(head.transitions[0].context) else None
  }

  function BootstrapRun(s: State, accepted: Files, at: nat): Run<()>
  {
    if s.reflog == [] then Run([s, s.(reflog := [BaseCommit(accepted, at)])], Ok(())) else Stay(s, Ok(()))
  }

  function ReviewRun(s: State, input: ProposalInput, b: Binding): Run<ProposalReceipt>
  {
    var receipt := ProposalReceipt(b, input.accepted, input.proposed, input.context);
    if b in s.journal then Stay(s, Ok(receipt))
    else Run([s, s.(journal := s.journal[b := Review(PendingReview, None)])], Ok(receipt))
  }

  /** The same operation key again: accepted only on the same base with the same bytes. */
  function ReplayRun(s: State, input: ProposalInput): Run<ProposalReceipt>
    requires s.reflog != [] && input.operation in s.proposals
  {
    var head := s.proposals[input.operation];
    if head.parents != [Head(s)] then Stay(s, Err(StaleBase))
    else if Head(s).site != input.accepted || head.site != input.proposed || ContextOf(head) != Some(input.context) then
      Stay(s, Err(IdempotencyConflict))
    else ReviewRun(s, input, Binding(input.operation, head, Head(s)))
  }

  function OpenRun(s: State, input: ProposalInput, at: nat): Run<ProposalReceipt>
    requires s.reflog != []
  {
    var head := ProposalCommit(input.operation, Head(s), input.proposed, input.context, at);
    var proposed := s.(proposals := s.proposals[input.operation := head]);
    Then(Run([s, proposed], Ok(())), ReviewRun(proposed, input, Binding(input.operation, head, Head(s))))
  }

  function ProposeRun(s: State, input: ProposalInput, at: nat): Run<ProposalReceipt>
    requires s.reflog != []
  {
    if Head(s).site != input.accepted then Stay(s, Err(StaleBase))
    else if input.operation in s.proposals then ReplayRun(s, input)
    else if exists k :: k in s.proposals && Open(s, k) then Stay(s, Err(ActiveReview))
    else OpenRun(s, input, at)
  }

  function BeginRun(s: State, input: ProposalInput, at: nat): Run<ProposalReceipt>
  {
    if !ValidOperationKey(input.operation) then Stay(s, Err(InvalidArgument))
    else
      var boot := BootstrapRun(s, input.accepted, at);
      Then(boot, ProposeRun(Last(boot), input, at))
  }

  function InspectAnswer(s: State, b: Binding): Result<ProposalReceipt, SidecarError>
  {
    if b !in s.journal then Err(ReviewNotFound)
    else if WalkAnswer(s, b.expected) != Ok(true) || ContextOf(b.proposalHead) == None then Err(Integrity)
    else Ok(ProposalReceipt(b, b.expected.site, b.proposalHead.site, ContextOf(b.proposalHead).value))
  }

  lemma ProposeStarts(s: State, input: ProposalInput, at: nat)
    requires s.reflog != []
    ensures Starts(ProposeRun(s, input, at), s)
  {
  }

  /** What an outcome promises about the state it was read from, in every interleaving; `serial` says
      that no other caller runs meanwhile. */
  ghost predicate Truthful(t: State, b: Binding, outcome: ReviewOutcome, serial: bool)
  {
    && b in t.journal
    && match outcome
       case Committed(receipt) =>
         && t.journal[b].state == DecisionCommitted && CandidateIsPublished(t, b)
         && IntentFits(b, t.journal[b].intent.value) && receipt == ReceiptOf(b, t.journal[b].intent.value)
       case NotCommitted(state) =>
         && state != DecisionCommitted
         && (state == TerminalDenial ==> t.journal[b].state == TerminalDenial)
         && (serial ==> t.journal[b].state == state)
         && (serial && (state == PendingReview || state == RetryableFailure) ==>
              t.reflog != [] && Head(t) == b.expected)
  }
}
