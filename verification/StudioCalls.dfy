/** The calls the Studio makes into the sidecar perform exactly the writes its disk owes. */
module StudioCalls {
  import opened Base
  import opened GraphWalk
  import opened Synapse
  import opened SerialRuns
  import opened ChainWalk
  import opened SidecarSpec
  import opened SidecarTheorems
  import opened StudioDisk
  import opened StudioInvariant
  import opened StudioSteps
  import opened StudioLaws
  import opened CrashRefinement

  const MAX_PERSISTED_PROPOSALS := 128

  predicate Bounded(d: Disk) { |d.entries| <= MAX_PERSISTED_PROPOSALS }

  /** The head a proposal is based on carries the files the lineage has at that point. */
  lemma {:induction false} SiteOfHead(d: Disk, i: nat)
    requires Coherent(d) && i < |d.sidecar.reflog| && i <= |d.entries|
    requires forall j :: 0 <= j < i ==> d.entries[j].decision.Some?
    ensures d.sidecar.reflog[i].site == Before(d.first, d.entries, i).files
    decreases i
  {
    hide LineageOk, AcceptedOk, EntryOk, Inv, SerialInv;
    if i > 0 {
      SiteOfHead(d, i - 1);
      assert EntryOk(d.sidecar, i - 1, d.entries[i - 1]);
      SiteAfterDecision(d.sidecar, i - 1, d.entries[i - 1]);
    }
  }

  lemma SiteAfterDecision(s: State, i: nat, e: Entry)
    requires Healthy(s) && EntryOk(s, i, e) && e.decision.Some?
    ensures i + 1 < |s.reflog|
    ensures s.reflog[i + 1].site == if Adopts(e) then e.meta.files else s.reflog[i].site
  {
    SoundReview(s, e.binding.value);
    hide Inv, SerialInv;
  }

  lemma EntryAt(d: Disk, i: nat)
    requires Coherent(d) && i < |d.entries|
    ensures EntryOk(d.sidecar, i, d.entries[i]) && Healthy(d.sidecar)
    ensures d.entries[i].meta.base == Before(d.first, d.entries, i)
  {
    assert MetaOk(d.rules, d.entries[i].meta, Before(d.first, d.entries, i));
  }

  lemma HeadIsAccepted(d: Disk)
    requires Coherent(d) && d.entries != [] && Final(d).decision == None && |d.sidecar.reflog| >= |d.entries|
    ensures d.sidecar.reflog[|d.entries| - 1].site == d.accepted.files
    ensures d.accepted == Final(d).meta.base
  {
    hide Coherent, Inv, SerialInv, EntryOk, Before;
    AcceptedIsBase(d);
    EarlierAreDecided(d);
    EntryAt(d, |d.entries| - 1);
    SiteOfHead(d, |d.entries| - 1);
  }

  lemma EarlierAreDecided(d: Disk)
    requires Coherent(d)
    ensures forall j :: 0 <= j < |d.entries| && d.entries[j].completion.Some? ==>
              d.entries[j].decision.Some? && d.entries[j].binding.Some?
    ensures forall j :: 0 <= j < |d.entries| - 1 ==> d.entries[j].completion.Some?
  {
    hide Healthy, RefsOk, LineageOk, AcceptedOk;
    forall j | 0 <= j < |d.entries| && d.entries[j].completion.Some?
      ensures d.entries[j].decision.Some? && d.entries[j].binding.Some?
    {
      assert EntryOk(d.sidecar, j, d.entries[j]);
    }
  }

  // ---- Proposing ----

  function InputOf(m: Meta, accepted: Files): ProposalInput { ProposalInput(m.id, accepted, m.files, m.context) }

  lemma ProposeFollows(d: Disk)
    requires Coherent(d) && d.entries != [] && Final(d).binding == None && d.sidecar.reflog != []
    ensures var m := Final(d).meta;
            var run := ProposeRun(d.sidecar, InputOf(m, d.accepted.files), m.recordedAt);
            var b := BindingFor(m, Head(d.sidecar));
            && Follows(d, run.states)
            && run.answer == Ok(ProposalReceipt(b, d.accepted.files, m.files, m.context))
            && NextWrite(d.(sidecar := Last(run))) ==
                 Some(SetFinal(d, Final(d).(binding := Some(b))).(sidecar := Last(run)))
  {
    hide Coherent, AcceptedOk, LineageOk, EntriesOk, RefsOk, Inv, SerialInv, Evolves, Lineage, Before, Trails, Open;
    FinalOk(d);
    HeadIsAccepted(d);
    var s, m := d.sidecar, Final(d).meta;
    var input := InputOf(m, d.accepted.files);
    var b := BindingFor(m, Head(s));
    if m.id in s.proposals {
      assert ProposeRun(s, input, m.recordedAt) == ReviewRun(s, input, b);
    } else {
      RefKeeps(d);
      assert ProposeRun(s, input, m.recordedAt) == OpenRun(s, input, m.recordedAt);
      var proposed := s.(proposals := s.proposals[m.id := HeadFor(m, Head(s))]);
      var reviewed := proposed.(journal := s.journal[b := Review(PendingReview, None)]);
      assert OpenRun(s, input, m.recordedAt).states == [s, proposed, reviewed];
      assert NextWrite(d.(sidecar := s)) == Some(d.(sidecar := proposed));
      assert NextWrite(d.(sidecar := proposed)) == Some(d.(sidecar := reviewed));
    }
  }

  lemma BeginFollows(d: Disk)
    requires Coherent(d) && d.entries != [] && Final(d).binding == None
    ensures var m := Final(d).meta;
            var run := BeginRun(d.sidecar, InputOf(m, d.accepted.files), m.recordedAt);
            && Follows(d, run.states) && Last(run).reflog != []
            && var b := BindingFor(m, Head(Last(run)));
               && run.answer == Ok(ProposalReceipt(b, d.accepted.files, m.files, m.context))
               && NextWrite(d.(sidecar := Last(run))) ==
                    Some(SetFinal(d, Final(d).(binding := Some(b))).(sidecar := Last(run)))
  {
    hide Coherent, Inv, SerialInv, Evolves, ProposeRun, MetaOk;
    var s, m := d.sidecar, Final(d).meta;
    var input := InputOf(m, d.accepted.files);
    KeyIsValid(d);
    if s.reflog != [] {
      ProposeFollows(d);
      ProposeStays(s, input, m.recordedAt);
      assert BeginRun(s, input, m.recordedAt).states == ProposeRun(s, input, m.recordedAt).states;
    } else {
      var booted := BindNext(d);
      BootstrapKeeps(d);
      ProposeFollows(booted);
      ProposeStays(booted.sidecar, input, m.recordedAt);
      var run := ProposeRun(booted.sidecar, input, m.recordedAt);
      assert BeginRun(s, input, m.recordedAt).states == [s] + run.states;
      FollowsOneMore(d, run.states);
    }
  }

  lemma KeyIsValid(d: Disk)
    requires Coherent(d) && d.entries != []
    ensures ValidOperationKey(Final(d).meta.id)
  {
    assert MetaOk(d.rules, Final(d).meta, Before(d.first, d.entries, |d.entries| - 1));
  }

  lemma ProposeStays(s: State, input: ProposalInput, at: nat)
    requires s.reflog != []
    ensures Starts(ProposeRun(s, input, at), s) && Last(ProposeRun(s, input, at)).reflog == s.reflog
  {
  }

  lemma FollowsOneMore(d: Disk, states: seq<State>)
    requires states != [] && NextWrite(d) == Some(d.(sidecar := states[0])) && Follows(d.(sidecar := states[0]), states)
    ensures Follows(d, [d.sidecar] + states)
  {
    var more := [d.sidecar] + states;
    forall j, k | 0 <= j && k == j + 1 < |more|
      ensures NextWrite(d.(sidecar := more[j])) == Some(d.(sidecar := more[k]))
    {
      if j > 0 {
        assert more[j] == states[j - 1] && more[k] == states[j];
        assert NextWrite(d.(sidecar := states[0]).(sidecar := states[j - 1])) ==
                 Some(d.(sidecar := states[0]).(sidecar := states[j]));
      }
    }
  }

  // ---- Observing and resuming ----

  lemma BoundedWalk(d: Disk, c: Commit)
    requires Coherent(d) && Bounded(d) && c in d.sidecar.reflog
    ensures WithinBound(d.sidecar, c) && WalkAnswer(d.sidecar, c) == Ok(true)
    ensures |d.sidecar.reflog| <= MAX_DECISION_ANCESTRY
  {
    hide EntriesOk, LineageOk, AcceptedOk, SerialInv;
    var i :| 0 <= i < |d.sidecar.reflog| && d.sidecar.reflog[i] == c;
    DepthIsIndex(d.sidecar, i);
  }

  lemma InspectAgrees(d: Disk, i: nat)
    requires Coherent(d) && Bounded(d) && i < |d.entries| && d.entries[i].binding.Some?
    ensures var m := d.entries[i].meta;
            var b := d.entries[i].binding.value;
            InspectAnswer(d.sidecar, b) == Ok(ProposalReceipt(b, m.base.files, m.files, m.context))
  {
    hide Coherent, LineageOk, AcceptedOk, Inv, SerialInv, WalkAnswer, MetaOk;
    EntryAt(d, i);
    EarlierAreDecided(d);
    BoundedWalk(d, d.sidecar.reflog[i]);
    SiteOfHead(d, i);
  }

  function ReceiptAt(d: Disk, b: Binding): DecisionReceipt
    requires HasDecisionIntent(d, b)
  {
    ReceiptOf(b, d.sidecar.journal[b].intent.value)
  }

  /** The decision on the latest proposal is committed in the repository. */
  predicate CommittedFinal(d: Disk, b: Binding)
  {
    && d.entries != [] && Final(d).binding == Some(b)
    && HasDecisionIntent(d, b) && CandidateIsPublished(d.sidecar, b) && d.sidecar.journal[b].state == DecisionCommitted
  }

  /** The decision on a review can still be carried through, or has been. */
  predicate Stands(d: Disk, b: Binding)
  {
    HasDecisionIntent(d, b) && d.sidecar.journal[b].state != TerminalDenial
  }

  /** The latest proposal waits, for its decision or for its removal. */
  predicate Waits(d: Disk) { Awaiting(d) || DeniedFinal(d) }

  function OutcomeOf(d: Disk): ReviewState
    requires Waits(d)
  {
    d.sidecar.journal[Final(d).binding.value].state
  }

  /** Resuming any bound proposal, whatever failures have made of its review: nothing to do while it waits
      for its decision or for its removal, otherwise exactly the owed writes up to the commitment of its
      intent. */
  lemma ResumeFollows(d: Disk, i: nat)
    requires Coherent(d) && Bounded(d) && i < |d.entries| && d.entries[i].binding.Some?
    ensures var b := d.entries[i].binding.value;
            var run := ResumeRun(d.sidecar, b);
            && b in d.sidecar.journal
            && (d.entries[i].decision.Some? ==> Stands(d, b) && run.states == [d.sidecar])
            && (i < |d.entries| - 1 ==> d.entries[i].completion.Some?)
            && (if Stands(d, b)
                then run.answer == Ok(Committed(ReceiptAt(d, b))) && Follows(d, run.states)
                     && Last(run) == Resumed(d.sidecar, b)
                else run == Stay(d.sidecar, Ok(NotCommitted(d.sidecar.journal[b].state))))
  {
    hide Coherent, LineageOk, AcceptedOk, Inv, SerialInv, MetaOk, ReconcileRun;
    EntryAt(d, i);
    EarlierAreDecided(d);
    var s, b := d.sidecar, d.entries[i].binding.value;
    if !Stands(d, b) {
      if HasDecisionIntent(d, b) {
        DeniedIsLive(d, i);
      }
      UntouchedReconciles(s, b);
    } else {
      if CandidateIsPublished(s, b) {
        BoundedWalk(d, s.journal[b].intent.value.candidate);
      }
      ResumeConverges(s, b);
      hide ResumeRun;
      if i == |d.entries| - 1 && s.journal[b].state != DecisionCommitted {
        FollowsResumption(d, b);
      } else {
        assert s.journal[b].state == DecisionCommitted;
      }
    }
  }

  lemma UntouchedReconciles(s: State, b: Binding)
    requires b in s.journal && s.reflog != [] && Head(s) == b.expected && s.journal[b].state != DecisionCommitted
    ensures ReconcileRun(s, b) == Stay(s, Ok(NotCommitted(s.journal[b].state)))
  {
  }

  /** A denied proposal is the last one, on the live head. */
  lemma DeniedIsLive(d: Disk, i: nat)
    requires Coherent(d) && i < |d.entries| && d.entries[i].binding.Some?
    requires d.entries[i].binding.value in d.sidecar.journal
    requires d.sidecar.journal[d.entries[i].binding.value].state == TerminalDenial
    ensures d.sidecar.reflog != [] && Head(d.sidecar) == d.entries[i].binding.value.expected
  {
    hide Coherent, Inv, SerialInv;
    EntryAt(d, i);
  }

  lemma FollowsResumption(d: Disk, b: Binding)
    requires d.entries != [] && Final(d).binding == Some(b) && HasDecisionIntent(d, b)
             && !IsTerminal(d.sidecar.journal[b].state)
    ensures Follows(d, ResumeStates(d.sidecar, b))
  {
    var s, c := d.sidecar, d.sidecar.journal[b].intent.value.candidate;
    var t := s.(reflog := s.reflog + [c]);
    if c in s.reflog {
      assert NextWrite(d.(sidecar := s)) == Some(d.(sidecar := Marked(s, b, DecisionCommitted)));
    } else {
      assert c == t.reflog[|s.reflog|];
      assert NextWrite(d.(sidecar := s)) == Some(d.(sidecar := t));
      assert NextWrite(d.(sidecar := t)) == Some(d.(sidecar := Marked(t, b, DecisionCommitted)));
    }
  }

  // ---- Deciding ----

  /** A permitted decision first registers its intent and then performs the owed writes. */
  lemma DecideFollows(d: Disk, disposition: Disposition, rationale: Option<Rationale>, key: Bytes)
    requires Coherent(d) && Bounded(d) && MayRegister(d, disposition) && ValidKey(key)
             && ValidPrivateRationale(rationale)
    ensures var b := Final(d).binding.value;
            var run := DecideRun(d.sidecar, b, disposition, rationale, key, Final(d).meta.recordedAt);
            var r := Registered(d, disposition, key);
            && |run.states| > 1 && run.states[0] == d.sidecar && Follows(r, run.states[1..])
            && HasDecisionIntent(r, b) && run.answer == Ok(Committed(ReceiptAt(r, b)))
            && Last(run) == Resumed(r.sidecar, b)
            && ReceiptAt(r, b).disposition == disposition
            && ReceiptAt(r, b).reviewed ==
                 (if disposition == AdoptedUnchanged then Final(d).meta.files else d.accepted.files)
  {
    hide Coherent, AcceptedOk, LineageOk, EntriesOk, RefsOk, Inv, SerialInv, MetaOk, Evolves, Lineage, Before, Trails;
    hide DecideRun;
    FinalOk(d);
    HeadIsAccepted(d);
    var b := Final(d).binding.value;
    var r := Registered(d, disposition, key);
    DecideCommits(d.sidecar, b, disposition, rationale, key, Final(d).meta.recordedAt);
    RegistrationIsUnpublished(d.sidecar, b, r.sidecar.journal[b].intent.value);
    FollowsResumption(r, b);
    var run := DecideRun(d.sidecar, b, disposition, rationale, key, Final(d).meta.recordedAt);
    var c := r.sidecar.journal[b].intent.value.candidate;
    assert c == (r.sidecar.reflog + [c])[|r.sidecar.reflog|];
    assert run.states[1..] == ResumeStates(r.sidecar, b);
  }
}
