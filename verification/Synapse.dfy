/** The durable state behind synapse_sidecar.rs: the decision ref with its reflog, the proposal refs
    and the review journal; the six atomic writes that change it; and what every run of them keeps.

    Objects are content addressed, so an object is modelled by its content: equal oids are equal
    values, objects never change, and parents are acyclic because a value cannot contain itself. */
module Synapse {
  import opened Base

  type OperationKey = string

  datatype Disposition = AdoptedUnchanged | Rejected | Deferred

  datatype Record =
    | Activity(operation: OperationKey, context: string)
    | DecisionFeedback(review: Binding, proposal: Commit, disposition: Disposition, recordedAt: nat)

  datatype Commit = Commit(parents: seq<Commit>, site: Files, transitions: seq<Record>, authoredAt: nat)

  /** The journal holds one review per binding; the binding stands for its opaque review id. */
  datatype Binding = Binding(operation: OperationKey, proposalHead: Commit, expected: Commit)

  datatype ReviewState = PendingReview | RetryableFailure | OutcomeUnknown | DecisionCommitted | TerminalDenial

  datatype Intent = Intent(key: Bytes, candidate: Commit, feedback: Record, expected: Commit)

  datatype Review = Review(state: ReviewState, intent: Option<Intent>)

  /** `reflog` lists the heads of the decision ref, oldest first; the last one is live. */
  datatype State = State(reflog: seq<Commit>, proposals: map<OperationKey, Commit>, journal: map<Binding, Review>)

  const EMPTY := State([], map[], map[])

  function Head(s: State): Commit
    requires s.reflog != []
  {
    s.reflog[|s.reflog| - 1]
  }

  function BaseCommit(site: Files, at: nat): Commit { Commit([], site, [], at) }

  function ProposalCommit(operation: OperationKey, base: Commit, site: Files, context: string, at: nat): Commit
  {
    Commit([base], site, [Activity(operation, context)], at)
  }

  function MakeIntent(b: Binding, key: Bytes, disposition: Disposition, at: nat): Intent
  {
    var feedback := DecisionFeedback(b, b.proposalHead, disposition, at);
    var site := if disposition == AdoptedUnchanged then b.proposalHead.site else b.expected.site;
    Intent(key, Commit([b.expected], site, [feedback], at), feedback, b.expected)
  }

  predicate IsTerminal(state: ReviewState) { state == DecisionCommitted || state == TerminalDenial }

  function Rank(state: ReviewState): nat
  {
    match state
    case PendingReview => 0
    case RetryableFailure => 1
    case OutcomeUnknown => 2
    case DecisionCommitted => 3
    case TerminalDenial => 3
  }

  // ---- The atomic writes ----

  datatype Write =
    | InitializeDecisionRef(base: Commit)
    | CreateProposalRef(operation: OperationKey, head: Commit)
    | CreateReview(binding: Binding)
    | RegisterIntent(binding: Binding, intent: Intent)
    | PublishCandidate(binding: Binding)
    | MoveReview(binding: Binding, to: ReviewState)

  predicate BindingIsLive(s: State, b: Binding)
  {
    b.operation in s.proposals && s.proposals[b.operation] == b.proposalHead && b.proposalHead.parents == [b.expected]
  }

  predicate IsProposalCommit(operation: OperationKey, head: Commit)
  {
    |head.parents| == 1 && |head.transitions| == 1 && head.transitions[0].Activity?
      && head.transitions[0].operation == operation
  }

  predicate IntentFits(b: Binding, i: Intent)
  {
    i.feedback.DecisionFeedback? && i == MakeIntent(b, i.key, i.feedback.disposition, i.feedback.recordedAt)
  }

  /** What the libraries check (compare-and-set, one review per binding, one intent per review) and
      what the callers in synapse_sidecar.rs establish before they write. */
  predicate Enabled(s: State, w: Write)
  {
    match w
    case InitializeDecisionRef(base) => s.reflog == [] && base.parents == [] && base.transitions == []
    case CreateProposalRef(operation, head) =>
      operation !in s.proposals && IsProposalCommit(operation, head) && head.parents[0] in s.reflog
    case CreateReview(b) => b !in s.journal && BindingIsLive(s, b)
    case RegisterIntent(b, i) => b in s.journal && s.journal[b].intent == None && IntentFits(b, i)
    case PublishCandidate(b) =>
      b in s.journal && s.journal[b].intent.Some? && s.reflog != [] && Head(s) == b.expected && BindingIsLive(s, b)
    case MoveReview(b, to) =>
      && b in s.journal && Rank(s.journal[b].state) < Rank(to)
      && (to == DecisionCommitted ==> s.journal[b].intent.Some? && s.journal[b].intent.value.candidate in s.reflog)
  }

  function Perform(s: State, w: Write): State
    requires Enabled(s, w)
  {
    match w
    case InitializeDecisionRef(base) => s.(reflog := [base])
    case CreateProposalRef(operation, head) => s.(proposals := s.proposals[operation := head])
    case CreateReview(b) => s.(journal := s.journal[b := Review(PendingReview, None)])
    case RegisterIntent(b, i) => s.(journal := s.journal[b := s.journal[b].(intent := Some(i))])
    case PublishCandidate(b) => s.(reflog := s.reflog + [s.journal[b].intent.value.candidate])
    case MoveReview(b, to) => s.(journal := s.journal[b := s.journal[b].(state := to)])
  }

  /** A run is any sequence of writes, by any number of callers, each enabled when it happens. */
  ghost predicate IsRun(s: State, run: seq<Write>, t: State)
    decreases |run|
  {
    if run == [] then s == t
    else Enabled(s, run[0]) && IsRun(Perform(s, run[0]), run[1..], t)
  }

  // ---- The invariant of all runs ----

  ghost predicate ChainOfHeads(s: State)
  {
    && (s.reflog != [] ==> s.reflog[0].parents == [] && s.reflog[0].transitions == [])
    && forall i, j :: 0 <= i && j == i + 1 < |s.reflog| ==> s.reflog[j].parents == [s.reflog[i]]
  }

  /** The review whose Decision a commit records. */
  function DecisionOn(c: Commit): Option<Binding>
  {
    if |c.transitions| == 1 && c.transitions[0].DecisionFeedback? then Some(c.transitions[0].review) else None
  }

  /** `c` is the candidate of the intent registered for the review whose Decision it records. */
  ghost predicate HasIntent(s: State, c: Commit)
  {
    DecisionOn(c).Some? && DecisionOn(c).value in s.journal && s.journal[DecisionOn(c).value].intent.Some?
    && s.journal[DecisionOn(c).value].intent.value.candidate == c
  }

  ghost predicate HeadsHaveIntents(s: State)
  {
    forall i :: 0 < i < |s.reflog| ==> HasIntent(s, s.reflog[i])
  }

  ghost predicate ProposalsAreSound(s: State)
  {
    forall k :: k in s.proposals ==> IsProposalCommit(k, s.proposals[k]) && s.proposals[k].parents[0] in s.reflog
  }

  ghost predicate ReviewIsSound(s: State, b: Binding)
    requires b in s.journal
  {
    && BindingIsLive(s, b)
    && (s.journal[b].intent.Some? ==> IntentFits(b, s.journal[b].intent.value))
    && (s.journal[b].state == DecisionCommitted ==> CandidateIsPublished(s, b))
  }

  ghost predicate ReviewsAreSound(s: State)
  {
    forall b :: b in s.journal ==> ReviewIsSound(s, b)
  }

  predicate CandidateIsPublished(s: State, b: Binding)
    requires b in s.journal
  {
    s.journal[b].intent.Some? && s.journal[b].intent.value.candidate in s.reflog
  }

  ghost predicate Inv(s: State)
  {
    ChainOfHeads(s) && ProposalsAreSound(s) && ReviewsAreSound(s) && HeadsHaveIntents(s)
  }

  // ---- How the state may move ----

  ghost predicate ReviewAdvances(r: Review, q: Review)
  {
    && Rank(r.state) <= Rank(q.state)
    && (IsTerminal(r.state) ==> q.state == r.state)
    && (r.intent.Some? ==> q.intent == r.intent)
  }

  ghost predicate Evolves(s: State, t: State)
  {
    && s.reflog <= t.reflog
    && (forall k :: k in s.proposals ==> k in t.proposals && t.proposals[k] == s.proposals[k])
    && (forall b :: b in s.journal ==> b in t.journal && ReviewAdvances(s.journal[b], t.journal[b]))
  }

  lemma EvolvesRefl(s: State)
    ensures Evolves(s, s)
  {
  }

  lemma EvolvesTrans(s: State, t: State, u: State)
    requires Evolves(s, t) && Evolves(t, u)
    ensures Evolves(s, u)
  {
    forall b | b in s.journal
      ensures b in u.journal && ReviewAdvances(s.journal[b], u.journal[b])
    {
      assert ReviewAdvances(s.journal[b], t.journal[b]) && ReviewAdvances(t.journal[b], u.journal[b]);
    }
  }

  lemma HeadsStay(s: State, t: State, c: Commit)
    requires s.reflog <= t.reflog && c in s.reflog
    ensures c in t.reflog
  {
    var i :| 0 <= i < |s.reflog| && s.reflog[i] == c;
    assert t.reflog[i] == c;
  }

  lemma WriteEvolves(s: State, w: Write)
    requires Enabled(s, w)
    ensures Evolves(s, Perform(s, w))
  {
  }

  /** What evolution alone keeps. */
  lemma EvolutionKeeps(s: State, t: State)
    requires Inv(s) && Evolves(s, t)
    ensures forall i :: 0 < i < |s.reflog| ==> HasIntent(t, t.reflog[i])
    ensures forall k :: k in s.proposals ==> t.proposals[k].parents[0] in t.reflog
    ensures forall b :: b in s.journal && s.journal[b] == t.journal[b] ==> ReviewIsSound(t, b)
    ensures forall b :: b in s.journal && CandidateIsPublished(s, b) ==> CandidateIsPublished(t, b)
  {
    HeadsKeepIntents(s, t);
    hide ReviewIsSound, HasIntent, CandidateIsPublished, ReviewAdvances, IsProposalCommit;
    forall k | k in s.proposals
      ensures t.proposals[k].parents[0] in t.reflog
    {
      HeadsStay(s, t, s.proposals[k].parents[0]);
    }
    forall b | b in s.journal
      ensures CandidateIsPublished(s, b) ==> CandidateIsPublished(t, b)
      ensures s.journal[b] == t.journal[b] ==> ReviewIsSound(t, b)
    {
      ReviewKeeps(s, t, b);
    }
  }

  lemma HeadsKeepIntents(s: State, t: State)
    requires HeadsHaveIntents(s) && Evolves(s, t)
    ensures forall i :: 0 < i < |s.reflog| ==> HasIntent(t, t.reflog[i])
  {
    forall i | 0 < i < |s.reflog|
      ensures HasIntent(t, t.reflog[i])
    {
      assert HasIntent(s, s.reflog[i]) && t.reflog[i] == s.reflog[i];
    }
  }

  lemma ReviewKeeps(s: State, t: State, b: Binding)
    requires Evolves(s, t) && b in s.journal && ReviewIsSound(s, b)
    ensures CandidateIsPublished(s, b) ==> CandidateIsPublished(t, b)
    ensures s.journal[b] == t.journal[b] ==> ReviewIsSound(t, b)
  {
    if CandidateIsPublished(s, b) {
      HeadsStay(s, t, s.journal[b].intent.value.candidate);
    }
  }

  /** A journal write touches one review only. */
  lemma ReviewWriteKeepsInv(s: State, b: Binding, r: Review)
    requires Inv(s)
    requires b in s.journal ==> ReviewAdvances(s.journal[b], r)
    requires ReviewIsSound(s.(journal := s.journal[b := r]), b)
    ensures Inv(s.(journal := s.journal[b := r]))
  {
    hide HasIntent, ReviewIsSound, IsProposalCommit;
    var t := s.(journal := s.journal[b := r]);
    EvolutionKeeps(s, t);
  }

  lemma PublishExtendsChain(s: State, b: Binding)
    requires ChainOfHeads(s) && Enabled(s, PublishCandidate(b)) && ReviewIsSound(s, b)
    ensures ChainOfHeads(Perform(s, PublishCandidate(b)))
    ensures HasIntent(Perform(s, PublishCandidate(b)), s.journal[b].intent.value.candidate)
  {
  }

  lemma PublishKeepsInv(s: State, b: Binding)
    requires Inv(s) && Enabled(s, PublishCandidate(b))
    ensures Inv(Perform(s, PublishCandidate(b)))
  {
    var t := Perform(s, PublishCandidate(b));
    assert ReviewIsSound(s, b);
    hide IsProposalCommit, ReviewIsSound, HasIntent, IntentFits, ChainOfHeads;
    PublishExtendsChain(s, b);
    EvolutionKeeps(s, t);
  }

  lemma WriteKeepsInv(s: State, w: Write)
    requires Inv(s) && Enabled(s, w)
    ensures Inv(Perform(s, w)) && Evolves(s, Perform(s, w))
  {
    hide ReviewsAreSound, HeadsHaveIntents;
    WriteEvolves(s, w);
    match w
    case InitializeDecisionRef(base) => InitializeKeepsInv(s, base);
    case CreateProposalRef(k, head) => ProposeKeepsInv(s, k, head);
    case PublishCandidate(b) => PublishKeepsInv(s, b);
    case CreateReview(b) => ReviewWriteKeepsInv(s, b, Review(PendingReview, None));
    case RegisterIntent(b, i) =>
      SoundReview(s, b);
      ReviewWriteKeepsInv(s, b, s.journal[b].(intent := Some(i)));
    case MoveReview(b, to) =>
      SoundReview(s, b);
      ReviewWriteKeepsInv(s, b, s.journal[b].(state := to));
  }

  lemma SoundReview(s: State, b: Binding)
    requires ReviewsAreSound(s) && b in s.journal
    ensures ReviewIsSound(s, b)
  {
  }

  lemma InitializeKeepsInv(s: State, base: Commit)
    requires Inv(s) && Enabled(s, InitializeDecisionRef(base))
    ensures Inv(s.(reflog := [base]))
  {
    EvolutionKeeps(s, s.(reflog := [base]));
  }

  lemma ProposeKeepsInv(s: State, k: OperationKey, head: Commit)
    requires Inv(s) && Enabled(s, CreateProposalRef(k, head))
    ensures Inv(s.(proposals := s.proposals[k := head]))
  {
    hide HasIntent, ReviewIsSound;
    EvolutionKeeps(s, s.(proposals := s.proposals[k := head]));
  }

  /** Over every run: the invariant holds, heads are only appended, refs and intents never change,
      and review states only rise. */
  lemma {:induction false} RunsKeepInv(s: State, run: seq<Write>, t: State)
    requires Inv(s) && IsRun(s, run, t)
    ensures Inv(t) && Evolves(s, t)
    decreases |run|
  {
    if run != [] {
      var mid := Perform(s, run[0]);
      WriteKeepsInv(s, run[0]);
      RunsKeepInv(mid, run[1..], t);
      EvolvesTrans(s, mid, t);
    }
  }

  function Depth(c: Commit): nat
  {
    if c.parents == [] then 0 else 1 + Depth(c.parents[0])
  }

  lemma {:induction false} DepthIsIndex(s: State, i: nat)
    requires ChainOfHeads(s) && i < |s.reflog|
    ensures Depth(s.reflog[i]) == i
  {
    if i > 0 {
      DepthIsIndex(s, i - 1);
    }
  }

  lemma HeadsAreDistinct(s: State, i: nat, j: nat)
    requires ChainOfHeads(s) && i < |s.reflog| && j < |s.reflog| && s.reflog[i] == s.reflog[j]
    ensures i == j
  {
    DepthIsIndex(s, i);
    DepthIsIndex(s, j);
  }

  /** Publish at most once, over every run of any number of callers from the empty store: the heads
      form a single-parent chain without repetition, each head after the first is the candidate of the
      intent of exactly one review, and a review contributes at most one head, namely that candidate. */
  lemma PublishAtMostOnce(run: seq<Write>, s: State)
    requires IsRun(EMPTY, run, s)
    ensures ChainOfHeads(s) && HeadsHaveIntents(s)
    ensures forall i, j :: 0 <= i < j < |s.reflog| ==> s.reflog[i] != s.reflog[j]
    ensures forall b :: b in s.journal && s.journal[b].intent.Some? ==>
              DecisionOn(s.journal[b].intent.value.candidate) == Some(b)
    ensures forall i, j :: 0 < i < j < |s.reflog| ==> DecisionOn(s.reflog[i]) != DecisionOn(s.reflog[j])
  {
    RunsKeepInv(EMPTY, run, s);
    forall i, j | 0 <= i < j < |s.reflog|
      ensures s.reflog[i] != s.reflog[j]
      ensures 0 < i ==> DecisionOn(s.reflog[i]) != DecisionOn(s.reflog[j])
    {
      if s.reflog[i] == s.reflog[j] {
        HeadsAreDistinct(s, i, j);
      }
      if 0 < i {
        assert HasIntent(s, s.reflog[i]) && HasIntent(s, s.reflog[j]);
      }
    }
    forall b | b in s.journal && s.journal[b].intent.Some?
      ensures DecisionOn(s.journal[b].intent.value.candidate) == Some(b)
    {
      assert ReviewIsSound(s, b);
    }
  }

  lemma LeftHeadStaysLeft(s: State, t: State, left: Commit)
    requires s.reflog <= t.reflog && ChainOfHeads(t)
    requires left in s.reflog && left != Head(s)
    ensures Head(t) != left
  {
    var i :| 0 <= i < |s.reflog| && s.reflog[i] == left;
    assert t.reflog[i] == left;
    if Head(t) == left {
      HeadsAreDistinct(t, i, |t.reflog| - 1);
    }
  }

  /** No ABA on the decision ref: once a head has been left it never returns. */
  lemma HeadNeverReturns(s: State, run: seq<Write>, t: State, left: Commit)
    requires Inv(s) && IsRun(s, run, t) && left in s.reflog && left != Head(s)
    ensures t.reflog != [] && Head(t) != left
  {
    RunsKeepInv(s, run, t);
    LeftHeadStaysLeft(s, t, left);
  }
}
