/** Runs whose callers hold the Store lock: one open proposal at a time, and denial excludes publication. */
module SerialRuns {
  import opened Base
  import opened Synapse

  predicate Mentions(c: Commit, proposal: Commit)
  {
    exists i :: 0 <= i < |c.transitions| && c.transitions[i].DecisionFeedback? && c.transitions[i].proposal == proposal
  }

  /** The proposal has a Decision in the ancestry of the live head. */
  predicate Decided(s: State, proposal: Commit)
  {
    exists i :: 0 <= i < |s.reflog| && Mentions(s.reflog[i], proposal)
  }

  /** The proposal under `k` was denied under its exact binding. */
  predicate Denied(s: State, k: OperationKey)
    requires k in s.proposals && |s.proposals[k].parents| == 1
  {
    var b := Binding(k, s.proposals[k], s.proposals[k].parents[0]);
    b in s.journal && s.journal[b].state == TerminalDenial
  }

  predicate Open(s: State, k: OperationKey)
  {
    k in s.proposals && |s.proposals[k].parents| == 1 && !Decided(s, s.proposals[k]) && !Denied(s, k)
  }

  /** What callers that hold the Store lock establish in addition: no proposal is opened beside an
      open one, no denied review is published, no published review is denied. */
  predicate SerialEnabled(s: State, w: Write)
    requires Enabled(s, w)
  {
    match w
    case CreateProposalRef(operation, head) =>
           (forall k :: k in s.proposals ==> !Open(s, k)) && head.parents[0] == Head(s)
    case PublishCandidate(b) => s.journal[b].state != TerminalDenial
    case MoveReview(b, to) => to == TerminalDenial ==> !CandidateIsPublished(s, b)
    case _ => true
  }

  ghost predicate SerialInv(s: State)
  {
    && (forall k, l :: k in s.proposals && l in s.proposals && Open(s, k) && Open(s, l) ==> k == l)
    && (forall k :: k in s.proposals && Open(s, k) ==> s.reflog != [] && s.proposals[k].parents == [Head(s)])
    && (forall b :: b in s.journal && s.journal[b].state == TerminalDenial ==> !CandidateIsPublished(s, b))
  }

  ghost predicate IsSerialRun(s: State, run: seq<Write>, t: State)
    decreases |run|
  {
    if run == [] then s == t
    else Enabled(s, run[0]) && SerialEnabled(s, run[0]) && IsSerialRun(Perform(s, run[0]), run[1..], t)
  }

  lemma HeadsCarryOneReview(s: State, i: nat)
    requires Inv(s) && 0 < i < |s.reflog|
    ensures HasIntent(s, s.reflog[i])
    ensures var b := DecisionOn(s.reflog[i]).value;
            && ReviewIsSound(s, b) && s.reflog[i].parents == [b.expected]
            && s.reflog[i].transitions[0].proposal == b.proposalHead
  {
    assert HasIntent(s, s.reflog[i]);
    assert ReviewIsSound(s, DecisionOn(s.reflog[i]).value);
  }

  lemma OneReviewPerProposal(s: State, b: Binding, x: Binding)
    requires ProposalsAreSound(s) && BindingIsLive(s, b) && BindingIsLive(s, x) && b.proposalHead == x.proposalHead
    ensures b == x
  {
  }

  lemma FirstHeadDecidesNothing(s: State, i: nat, proposal: Commit)
    requires ChainOfHeads(s) && i < |s.reflog| && Mentions(s.reflog[i], proposal)
    ensures i > 0
    ensures |s.reflog[i].transitions| == 1 && s.reflog[i].transitions[0].DecisionFeedback? ==>
              s.reflog[i].transitions[0].proposal == proposal
  {
  }

  /** A proposal decided in the ancestry was decided by the review bound to it. */
  lemma DecidedMeansPublished(s: State, b: Binding)
    requires Inv(s) && b in s.journal && Decided(s, b.proposalHead)
    ensures CandidateIsPublished(s, b)
  {
    hide HeadsHaveIntents, ReviewsAreSound, ProposalsAreSound, ChainOfHeads, Mentions;
    SoundReview(s, b);
    var i :| 0 <= i < |s.reflog| && Mentions(s.reflog[i], b.proposalHead);
    FirstHeadDecidesNothing(s, i, b.proposalHead);
    HeadsCarryOneReview(s, i);
    OneReviewPerProposal(s, b, DecisionOn(s.reflog[i]).value);
  }

  lemma ChildOfHeadIsNew(s: State, c: Commit)
    requires ChainOfHeads(s) && s.reflog != [] && c.parents == [Head(s)]
    ensures c !in s.reflog
  {
    if c in s.reflog {
      var i :| 0 <= i < |s.reflog| && s.reflog[i] == c;
      if i > 0 {
        assert s.reflog[i].parents == [s.reflog[i - 1]];
        HeadsAreDistinct(s, i - 1, |s.reflog| - 1);
      }
    }
  }

  lemma CandidateIsNew(s: State, b: Binding)
    requires Inv(s) && Enabled(s, PublishCandidate(b))
    ensures !CandidateIsPublished(s, b)
  {
    SoundReview(s, b);
    hide Inv, ReviewsAreSound, ProposalsAreSound, HeadsHaveIntents;
    ChildOfHeadIsNew(s, s.journal[b].intent.value.candidate);
  }

  lemma DecidedStays(s: State, t: State, proposal: Commit)
    requires s.reflog <= t.reflog && Decided(s, proposal)
    ensures Decided(t, proposal)
  {
    var i :| 0 <= i < |s.reflog| && Mentions(s.reflog[i], proposal);
    assert Mentions(t.reflog[i], proposal);
  }

  lemma OpenStays(s: State, t: State, k: OperationKey)
    requires s.proposals == t.proposals && s.reflog <= t.reflog && k in s.proposals && Open(t, k)
    requires forall b :: b in s.journal && s.journal[b].state == TerminalDenial ==>
               b in t.journal && t.journal[b].state == TerminalDenial
    ensures Open(s, k)
  {
    if Decided(s, s.proposals[k]) {
      DecidedStays(s, t, s.proposals[k]);
    }
  }

  lemma PublicationClosesTheProposal(s: State, b: Binding)
    requires Inv(s) && SerialInv(s) && Enabled(s, PublishCandidate(b)) && SerialEnabled(s, PublishCandidate(b))
    ensures SerialInv(Perform(s, PublishCandidate(b)))
    ensures forall k :: k in s.proposals ==> !Open(Perform(s, PublishCandidate(b)), k)
  {
    var t := Perform(s, PublishCandidate(b));
    var c := s.journal[b].intent.value.candidate;
    assert ReviewIsSound(s, b);
    CandidateIsNew(s, b);
    if Decided(s, b.proposalHead) {
      DecidedMeansPublished(s, b);
    }
    assert Open(s, b.operation);
    assert Mentions(c, b.proposalHead) by {
      assert c.transitions[0].proposal == b.proposalHead;
    }
    assert t.reflog[|s.reflog|] == c;
    forall k | k in s.proposals
      ensures !Open(t, k)
    {
      if Open(t, k) {
        OpenStays(s, t, k);
      }
    }
    forall x | x in t.journal && t.journal[x].state == TerminalDenial
      ensures !CandidateIsPublished(t, x)
    {
      assert ReviewIsSound(s, x);
    }
  }

  lemma RegistrationIsUnpublished(s: State, b: Binding, i: Intent)
    requires Inv(s) && Enabled(s, RegisterIntent(b, i))
    ensures i.candidate !in s.reflog
  {
    if i.candidate in s.reflog {
      var n :| 0 <= n < |s.reflog| && s.reflog[n] == i.candidate;
      HeadsCarryOneReview(s, n);
    }
  }

  lemma InitializeKeepsSerialInv(s: State, base: Commit)
    requires Inv(s) && Enabled(s, InitializeDecisionRef(base))
    ensures SerialInv(s.(reflog := [base]))
  {
    EmptyStoreIsEmpty(s);
  }

  lemma EmptyStoreIsEmpty(s: State)
    requires Inv(s) && s.reflog == []
    ensures forall k :: k !in s.proposals
    ensures forall b :: b !in s.journal
  {
    forall b
      ensures b !in s.journal
    {
      if b in s.journal {
        SoundReview(s, b);
      }
    }
  }

  lemma ProposeKeepsSerialInv(s: State, k: OperationKey, head: Commit)
    requires SerialInv(s)
    requires Enabled(s, CreateProposalRef(k, head)) && SerialEnabled(s, CreateProposalRef(k, head))
    ensures SerialInv(s.(proposals := s.proposals[k := head]))
  {
    var t := s.(proposals := s.proposals[k := head]);
    forall l | l in t.proposals && Open(t, l)
      ensures l == k
    {
      if l != k {
        assert Open(s, l);
      }
    }
    HeadIsNonempty(s, head.parents[0]);
  }

  lemma HeadIsNonempty(s: State, c: Commit)
    requires c in s.reflog
    ensures s.reflog != []
  {
  }

  lemma JournalWriteKeepsSerialInv(s: State, b: Binding, r: Review)
    requires SerialInv(s)
    requires b in s.journal ==> ReviewAdvances(s.journal[b], r)
    requires r.state == TerminalDenial && r.intent.Some? ==> r.intent.value.candidate !in s.reflog
    ensures SerialInv(s.(journal := s.journal[b := r]))
  {
    var t := s.(journal := s.journal[b := r]);
    forall k | k in s.proposals && Open(t, k)
      ensures Open(s, k)
    {
      OpenStays(s, t, k);
    }
    hide Open;
  }

  lemma SerialWriteKeepsInv(s: State, w: Write)
    requires Inv(s) && SerialInv(s) && Enabled(s, w) && SerialEnabled(s, w)
    ensures SerialInv(Perform(s, w))
  {
    hide Inv, SerialInv;
    match w
    case PublishCandidate(b) => PublicationClosesTheProposal(s, b);
    case InitializeDecisionRef(base) => InitializeKeepsSerialInv(s, base);
    case CreateProposalRef(k, head) => ProposeKeepsSerialInv(s, k, head);
    case CreateReview(b) => JournalWriteKeepsSerialInv(s, b, Review(PendingReview, None));
    case RegisterIntent(b, i) =>
      RegistrationIsUnpublished(s, b, i);
      JournalWriteKeepsSerialInv(s, b, s.journal[b].(intent := Some(i)));
    case MoveReview(b, to) =>
      JournalWriteKeepsSerialInv(s, b, s.journal[b].(state := to));
  }

  lemma {:induction false} SerialRunsKeepInv(s: State, run: seq<Write>, t: State)
    requires Inv(s) && SerialInv(s) && IsSerialRun(s, run, t)
    ensures Inv(t) && SerialInv(t) && Evolves(s, t)
    decreases |run|
  {
    if run != [] {
      WriteKeepsInv(s, run[0]);
      SerialWriteKeepsInv(s, run[0]);
      SerialRunsKeepInv(Perform(s, run[0]), run[1..], t);
      EvolvesTrans(s, Perform(s, run[0]), t);
    }
  }

  /** An undenied review is either live at the head or has had its candidate published. */
  lemma UndeniedIsLiveOrPublished(s: State, b: Binding)
    requires Inv(s) && SerialInv(s) && b in s.journal && s.journal[b].state != TerminalDenial
    ensures s.reflog != []
    ensures (Head(s) == b.expected) != CandidateIsPublished(s, b)
  {
    assert ReviewIsSound(s, b);
    assert s.proposals[b.operation].parents[0] in s.reflog;
    if Open(s, b.operation) {
      if CandidateIsPublished(s, b) {
        PublishedMeansDecided(s, b);
      }
    } else {
      DecidedMeansPublished(s, b);
      PublishedMeansMoved(s, b);
    }
  }

  lemma PublishedMeansDecided(s: State, b: Binding)
    requires Inv(s) && b in s.journal && CandidateIsPublished(s, b)
    ensures Decided(s, b.proposalHead)
  {
    assert ReviewIsSound(s, b);
    var i :| 0 <= i < |s.reflog| && s.reflog[i] == s.journal[b].intent.value.candidate;
    assert s.reflog[i].transitions[0].proposal == b.proposalHead;
    assert Mentions(s.reflog[i], b.proposalHead);
  }

  lemma PublishedMeansMoved(s: State, b: Binding)
    requires Inv(s) && b in s.journal && CandidateIsPublished(s, b)
    ensures s.reflog != [] && Head(s) != b.expected
  {
    if s.reflog != [] && Head(s) == b.expected {
      assert ReviewIsSound(s, b);
      assert Enabled(s, PublishCandidate(b));
      CandidateIsNew(s, b);
    }
  }

  /** Over every serialised run from the empty store: at most one proposal is open and it is based on
      the live head; a denied review is never published; a committed review is, once; every other
      review is live at the head. */
  lemma SingleOpenProposal(run: seq<Write>, s: State)
    requires IsSerialRun(EMPTY, run, s)
    ensures forall k, l :: k in s.proposals && l in s.proposals && Open(s, k) && Open(s, l) ==> k == l
    ensures forall k :: k in s.proposals && Open(s, k) ==> s.reflog != [] && s.proposals[k].parents == [Head(s)]
    ensures forall b :: b in s.journal && s.journal[b].state == TerminalDenial ==> !CandidateIsPublished(s, b)
    ensures forall b :: b in s.journal && s.journal[b].state == DecisionCommitted ==> CandidateIsPublished(s, b)
    ensures forall b :: b in s.journal && !IsTerminal(s.journal[b].state) ==>
              s.reflog != [] && (Head(s) == b.expected) != CandidateIsPublished(s, b)
  {
    SerialRunsKeepInv(EMPTY, run, s);
    forall b | b in s.journal && s.journal[b].state != TerminalDenial
      ensures s.reflog != [] && (Head(s) == b.expected) != CandidateIsPublished(s, b)
      ensures s.journal[b].state == DecisionCommitted ==> CandidateIsPublished(s, b)
    {
      UndeniedIsLiveOrPublished(s, b);
      assert ReviewIsSound(s, b);
    }
  }

  /** What a caller relies on across other callers' writes. */
  lemma ReviewStays(s: State, t: State, b: Binding)
    requires Inv(s) && Evolves(s, t) && b in s.journal
    ensures b in t.journal && ReviewAdvances(s.journal[b], t.journal[b])
    ensures CandidateIsPublished(s, b) ==> CandidateIsPublished(t, b)
    ensures s.reflog != [] && t.reflog != []
  {
    EvolutionKeeps(s, t);
    SoundReview(s, b);
  }

  lemma WriteIsSafe(origin: State, s: State, w: Write, serial: bool)
    requires Inv(s) && Evolves(origin, s) && Enabled(s, w)
    requires serial ==> SerialInv(s) && SerialEnabled(s, w)
    ensures Inv(Perform(s, w)) && Evolves(origin, Perform(s, w))
    ensures serial ==> SerialInv(Perform(s, w))
  {
    WriteKeepsInv(s, w);
    if serial {
      SerialWriteKeepsInv(s, w);
    }
    hide Inv, SerialInv;
    EvolvesTrans(origin, s, Perform(s, w));
  }
}
