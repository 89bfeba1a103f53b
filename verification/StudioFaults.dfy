/** Calls into the sidecar that fail: whatever they leave behind, the project's disk has moved along one
    of the runs of StudioLaws, as long as no published decision was denied. */
module StudioFaults {
  import opened Base
  import opened ChangeSetLaws
  import opened Synapse
  import opened SerialRuns
  import opened SidecarSpec
  import opened SidecarFaults
  import opened SidecarFrames
  import opened SidecarTheorems
  import opened StudioDisk
  import opened StudioInvariant
  import opened StudioSteps
  import opened StudioLaws
  import opened StudioCalls

  predicate RegistersNothing(run: seq<StudioWrite>)
  {
    forall w :: w in run ==> !w.RegisterDecision?
  }

  /** Some run of single writes leads from `d` to `t` without registering a decision. */
  ghost predicate Reaches(d: Disk, t: Disk)
  {
    exists run :: IsStudioRun(d, run, t) && RegistersNothing(run)
  }

  lemma ReachesRefl(d: Disk)
    ensures Reaches(d, d)
  {
    assert IsStudioRun(d, [], d);
  }

  lemma {:induction false} RunThenRun(d: Disk, run: seq<StudioWrite>, mid: Disk, more: seq<StudioWrite>, t: Disk)
    requires IsStudioRun(d, run, mid) && IsStudioRun(mid, more, t)
    ensures IsStudioRun(d, run + more, t)
    decreases |run|
  {
    if run == [] {
      assert run + more == more;
    } else {
      RunThenRun(StudioDoes(d, run[0]), run[1..], mid, more, t);
      assert (run + more)[0] == run[0] && (run + more)[1..] == run[1..] + more;
    }
  }

  lemma ReachesTrans(d: Disk, mid: Disk, t: Disk)
    requires Reaches(d, mid) && Reaches(mid, t)
    ensures Reaches(d, t)
  {
    hide IsStudioRun;
    var run :| IsStudioRun(d, run, mid) && RegistersNothing(run);
    var more :| IsStudioRun(mid, more, t) && RegistersNothing(more);
    RunThenRun(d, run, mid, more, t);
  }

  lemma WriteIsRun(d: Disk, w: StudioWrite)
    requires StudioMay(d, w)
    ensures IsStudioRun(d, [w], StudioDoes(d, w))
  {
    hide StudioMay, StudioDoes;
    assert IsStudioRun(StudioDoes(d, w), [], StudioDoes(d, w));
    assert [w][1..] == [];
  }

  lemma WriteReaches(d: Disk, w: StudioWrite)
    requires StudioMay(d, w) && !w.RegisterDecision?
    ensures Reaches(d, StudioDoes(d, w))
  {
    hide StudioMay, StudioDoes, IsStudioRun;
    WriteIsRun(d, w);
  }

  lemma OwedReaches(d: Disk)
    requires NextWrite(d).Some?
    ensures Reaches(d, NextWrite(d).value)
  {
    WriteReaches(d, OwedWrite);
  }

  lemma {:induction false} AlongReaches(d: Disk, k: nat)
    requires k < |Redo(d)|
    ensures Reaches(d, Redo(d)[k])
    decreases k
  {
    hide NextWrite, Reaches;
    ReachesRefl(d);
    if k > 0 {
      EachWriteSettles(d);
      var next := NextWrite(d).value;
      OwedReaches(d);
      AlongReaches(next, k - 1);
      assert Redo(d)[k] == Redo(next)[k - 1];
      ReachesTrans(d, next, Redo(next)[k - 1]);
    }
  }

  lemma ReachesKeeps(d: Disk, t: Disk)
    requires Coherent(d) && Reaches(d, t)
    ensures Coherent(t) && t.first == d.first
  {
    hide Coherent, IsStudioRun;
    var run :| IsStudioRun(d, run, t);
    RunsStayCoherent(d, run, t);
  }

  /** Some run since the import leads here. */
  ghost predicate Reachable(d: Disk)
  {
    exists run :: IsStudioRun(Imported(d.rules, d.first), run, d)
  }

  lemma ImportedIsReachable(rules: Rules, first: Site)
    ensures Reachable(Imported(rules, first)) && Coherent(Imported(rules, first))
  {
    ImportedIsCoherent(rules, first);
    hide Coherent;
    assert IsStudioRun(Imported(rules, first), [], Imported(rules, first));
  }

  lemma StillReachable(d: Disk, w: StudioWrite)
    requires Reachable(d) && Coherent(d) && StudioMay(d, w) && StudioDoes(d, w).rules == d.rules
    ensures Reachable(StudioDoes(d, w)) && Coherent(StudioDoes(d, w))
  {
    hide Coherent, IsStudioRun, StudioMay, StudioDoes;
    StudioWriteKeeps(d, w);
    WriteIsRun(d, w);
    var run :| IsStudioRun(Imported(d.rules, d.first), run, d);
    RunThenRun(Imported(d.rules, d.first), run, d, [w], StudioDoes(d, w));
  }

  // ---- Proposing ----

  lemma BeginReaches(d: Disk, t: State, answer: Result<ProposalReceipt, SidecarError>)
    requires Coherent(d) && d.entries != [] && Final(d).binding == None
    requires Cut(BeginRun(d.sidecar, InputOf(Final(d).meta, d.accepted.files), Final(d).meta.recordedAt), t, answer)
    ensures Reaches(d, d.(sidecar := t))
    ensures answer.Ok? ==>
              NextWrite(d.(sidecar := t)) ==
                  Some(SetFinal(d.(sidecar := t), Final(d).(binding := Some(answer.value.review))))
  {
    hide Coherent, BeginRun, Reaches, NextWrite;
    BeginFollows(d);
    var run := BeginRun(d.sidecar, InputOf(Final(d).meta, d.accepted.files), Final(d).meta.recordedAt);
    CutIsInside(run, t, answer);
    var k :| 0 <= k < |run.states| && run.states[k] == t;
    FollowsIsAlong(d, run.states, k, k);
    AlongReaches(d, k);
  }

  // ---- Deciding and resuming ----

  /** The state a call leaves, as the writes of a run: publication first, then the move of the review. */
  lemma AlterReaches(d: Disk, t: State)
    requires Coherent(d) && d.entries != [] && Final(d).binding.Some?
    requires Alters(d.sidecar, Final(d).binding.value, t) && Evolves(d.sidecar, t) && Healthy(t)
    ensures Reaches(d, d.(sidecar := t))
  {
    hide Coherent, Healthy, Reaches, Evolves;
    var s, b := d.sidecar, Final(d).binding.value;
    if Marks(s, b, t) {
      MarkReaches(d, t);
    } else {
      var c := s.journal[b].intent.value.candidate;
      var u := s.(reflog := s.reflog + [c]);
      DeniedIsLasting(s, b, t);
      assert t.reflog[|s.reflog|] == c;
      if c in s.reflog {
        PublishedHasMoved(d);
      }
      assert NextWrite(d) == Some(d.(sidecar := u));
      OwedReaches(d);
      ReachesKeeps(d, d.(sidecar := u));
      assert Marks(u, b, t) by {
        assert u.journal == s.journal;
      }
      PublishedEvolves(s, b, t, u);
      MarkReaches(d.(sidecar := u), t);
      ReachesTrans(d, d.(sidecar := u), d.(sidecar := u).(sidecar := t));
    }
  }

  lemma DeniedIsLasting(s: State, b: Binding, t: State)
    requires Healthy(t) && Evolves(s, t) && b in s.journal && b in t.journal && CandidateIsPublished(t, b)
    ensures s.journal[b].state != TerminalDenial && t.journal[b].state != TerminalDenial
  {
    assert ReviewAdvances(s.journal[b], t.journal[b]);
  }

  lemma PublishedHasMoved(d: Disk)
    requires Coherent(d) && d.entries != [] && Final(d).binding.Some?
    requires Final(d).binding.value in d.sidecar.journal && CandidateIsPublished(d.sidecar, Final(d).binding.value)
    ensures d.sidecar.reflog != [] && Head(d.sidecar) != Final(d).binding.value.expected
  {
    hide SerialInv, EntriesOk, RefsOk, LineageOk, AcceptedOk;
    PublishedMeansMoved(d.sidecar, Final(d).binding.value);
  }

  lemma PublishedEvolves(s: State, b: Binding, t: State, u: State)
    requires Evolves(s, t) && b in s.journal && u == s.(reflog := u.reflog) && u.reflog == t.reflog
    ensures Evolves(u, t)
  {
  }

  /** The move of a review between two sound states. */
  lemma MoveIsSound(s: State, b: Binding, t: State)
    requires Marks(s, b, t) && Evolves(s, t) && Healthy(t) && t.journal[b].state != s.journal[b].state
    ensures Rank(s.journal[b].state) < Rank(t.journal[b].state) && !IsTerminal(s.journal[b].state)
    ensures t.journal[b].state == DecisionCommitted ==> CandidateIsPublished(s, b)
    ensures t.journal[b].state == TerminalDenial ==> !CandidateIsPublished(s, b)
  {
    assert ReviewAdvances(s.journal[b], t.journal[b]);
    SoundReview(t, b);
  }

  lemma WithoutIntentIsLive(d: Disk)
    requires Coherent(d) && d.entries != [] && Final(d).binding.Some?
    requires Final(d).binding.value in d.sidecar.journal && d.sidecar.journal[Final(d).binding.value].intent == None
    ensures d.sidecar.reflog != [] && Head(d.sidecar) == Final(d).binding.value.expected
  {
    hide Coherent, AcceptedOk, LineageOk, EntriesOk, RefsOk, Inv, SerialInv;
    FinalOk(d);
  }

  lemma MarkReaches(d: Disk, t: State)
    requires Coherent(d) && d.entries != [] && Final(d).binding.Some?
    requires Marks(d.sidecar, Final(d).binding.value, t) && Evolves(d.sidecar, t) && Healthy(t)
    ensures Reaches(d, d.(sidecar := t))
  {
    hide Coherent, Reaches, AcceptedOk, LineageOk, EntriesOk, RefsOk, Inv, SerialInv, Evolves;
    var s, b := d.sidecar, Final(d).binding.value;
    var to := t.journal[b].state;
    if to == s.journal[b].state {
      assert s.journal[b := s.journal[b]] == s.journal;
      assert t == s;
      ReachesRefl(d);
    } else {
      assert t == Marked(s, b, to);
      MoveIsSound(s, b, t);
      if s.journal[b].intent == None {
        WithoutIntentIsLive(d);
      }
      if to == DecisionCommitted {
        OwedReaches(d);
      } else {
        WriteReaches(d, MoveFinal(to));
      }
    }
  }

  lemma ResumeReaches(d: Disk, i: nat, t: State, answer: Result<ReviewOutcome, SidecarError>)
    requires Coherent(d) && i < |d.entries| && d.entries[i].binding.Some?
    requires Resumes(d.sidecar, d.entries[i].binding.value, t, answer) && Evolves(d.sidecar, t) && Healthy(t)
    ensures Reaches(d, d.(sidecar := t))
    ensures i < |d.entries| - 1 ==> t == d.sidecar
  {
    hide Coherent, Reaches, Healthy, Evolves, Resumes, Alters;
    var b := d.entries[i].binding.value;
    BoundIsKnownHere(d, i);
    ResumptionAlters(d.sidecar, b, t, answer);
    if i == |d.entries| - 1 {
      AlterReaches(d, t);
    } else {
      CompletedIsLeft(d, i, t);
      ReachesRefl(d);
    }
  }

  lemma BoundIsKnownHere(d: Disk, i: nat)
    requires Coherent(d) && i < |d.entries| && d.entries[i].binding.Some?
    ensures d.entries[i].binding.value in d.sidecar.journal
  {
    hide Coherent, Inv, SerialInv;
    EntryAt(d, i);
  }

  /** A completed proposal is out of reach of every call. */
  lemma CompletedIsLeft(d: Disk, i: nat, t: State)
    requires Coherent(d) && i < |d.entries| - 1 && d.entries[i].binding.Some?
    requires Alters(d.sidecar, d.entries[i].binding.value, t) && Evolves(d.sidecar, t)
    ensures t == d.sidecar
  {
    hide Coherent, Inv, SerialInv, Alters, Evolves;
    EntryAt(d, i);
    EarlierAreDecided(d);
    CommittedIsLeft(d.sidecar, d.entries[i].binding.value, t);
  }

  lemma CommittedIsLeft(s: State, b: Binding, t: State)
    requires Inv(s) && b in s.journal && Alters(s, b, t) && Evolves(s, t) && s.journal[b].state == DecisionCommitted
    ensures t == s
  {
    hide Inv, Evolves;
    ReviewStays(s, t, b);
    CommittedHasMoved(s, b);
    assert s.journal[b := s.journal[b]] == s.journal;
  }

  lemma CommittedHasMoved(s: State, b: Binding)
    requires Inv(s) && b in s.journal && s.journal[b].state == DecisionCommitted
    ensures s.reflog != [] && Head(s) != b.expected
  {
    SoundReview(s, b);
    hide Inv;
    PublishedMeansMoved(s, b);
  }

  lemma DecideReaches(d: Disk, disposition: Disposition, rationale: Option<Rationale>, key: Bytes, t: State,
                      answer: Result<ReviewOutcome, SidecarError>)
    requires Coherent(d) && d.entries != [] && Final(d).binding.Some?
    requires disposition == AdoptedUnchanged ==> !Final(d).meta.blocked
    requires Decides(d.sidecar, Final(d).binding.value, disposition, rationale, key, Final(d).meta.recordedAt, t,
               answer)
    requires Evolves(d.sidecar, t) && Healthy(t)
    ensures || Reaches(d, d.(sidecar := t))
            || (Awaiting(d) && Coherent(Registered(d, disposition, key))
                && Reaches(Registered(d, disposition, key), d.(sidecar := t)))
  {
    hide Coherent, Reaches, Healthy, Evolves, Decides, Alters;
    var s, b := d.sidecar, Final(d).binding.value;
    DecisionAlters(s, b, disposition, rationale, key, Final(d).meta.recordedAt, t, answer);
    if t == s {
      ReachesRefl(d);
    } else if s.journal[b].intent.Some? {
      AlterReaches(d, t);
    } else {
      var i := MakeIntent(b, key, disposition, Final(d).meta.recordedAt);
      var r := Registered(d, disposition, key);
      AwaitingIsPending(d);
      assert r.sidecar == Registration(s, b, i);
      RegisterKeeps(d, disposition, key);
      RegistrationEvolves(s, b, i, t);
      AlterReaches(r, t);
      assert r.(sidecar := t) == d.(sidecar := t);
    }
  }

  lemma AwaitingIsPending(d: Disk)
    requires Coherent(d) && Awaiting(d)
    ensures d.sidecar.journal[Final(d).binding.value] == Review(PendingReview, None)
  {
    hide Coherent, AcceptedOk, LineageOk, EntriesOk, RefsOk, Inv, SerialInv;
    FinalOk(d);
  }

  lemma RegistrationEvolves(s: State, b: Binding, i: Intent, t: State)
    requires b in s.journal && Evolves(s, t) && Alters(Registration(s, b, i), b, t)
    ensures Evolves(Registration(s, b, i), t)
  {
    assert ReviewAdvances(s.journal[b], t.journal[b]);
  }
}
