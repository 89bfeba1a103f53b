/** lib.rs: the Studio's half of the decision protocol for one project. Disk and memory are fields; the
    sidecar and the approval table are objects of their own. Requests run one at a time under the Store
    lock. Every durable write may be the last before a power loss. `sidecar.reliable` says that nothing
    else goes wrong from now on; without it any call into the sidecar or the storage may fail, before or
    after its write, and the process lives on. */
module Studio {
  import opened Base
  import opened ChangeSetLaws
  import opened Synapse
  import opened SerialRuns
  import opened SidecarSpec
  import opened SidecarFaults
  import opened SidecarFrames
  import opened Sidecar
  import opened StudioDisk
  import opened StudioInvariant
  import opened StudioLaws
  import opened CrashRefinement
  import opened StudioCalls
  import opened StudioFaults
  import opened StudioLedger
  import opened Approvals
  import opened ApprovalRuns
  import opened StudioMemory
  import opened StudioShown

  class Studio {
    const rules: Rules
    const first: Site
    const project: string
    const sidecar: SynapseSidecar
    const approvals: ApprovalTable
    // on disk
    var entries: seq<Entry>
    var pointer: Site
    var retained: map<Revision, Files>
    // in memory
    var accepted: Site
    var proposal: Option<Active>
    var history: seq<HistoryRecord>
    ghost var orderly: bool  // no proposal was ever put on top of an unfinished one
    ghost var gone: bool     // the record of the active proposal went in a removal that then failed

    /** A freshly imported project. */
    constructor (rules: Rules, first: Site, project: string, sidecar: SynapseSidecar, approvals: ApprovalTable)
      requires sidecar.Valid() && sidecar.serial && sidecar.Now() == EMPTY
      requires approvals.Valid() && approvals.grants == map[] && approvals.issued == [] && approvals.used == []
      ensures Live() && Disk() == Imported(rules, first) && orderly && !gone
      ensures this.sidecar == sidecar && this.approvals == approvals && this.project == project
    {
      this.rules, this.first, this.project, this.sidecar, this.approvals := rules, first, project, sidecar, approvals;
      entries, pointer, retained := [], first, map[first.revision := first.files];
      accepted, proposal, history := first, None, [];
      orderly, gone := true, false;
      new;
      hide Coherent, WorldReachable, Ledger, Quiet, Inv, SerialInv, HistoryOf, IntentsAreApproved, Sound, WorldOk;
      assert AsWorld() == Begin(project, rules, first);
      BeginIsReachable(project, rules, first);
      ReachableIsOk(Begin(project, rules, first));
      ImportedIsLedger(rules, first);
    }

    function Disk(): Disk
      reads this, sidecar
    {
      StudioDisk.Disk(rules, first, entries, pointer, retained, sidecar.Now())
    }

    function InMemory(): Memory
      reads this
    {
      Memory(accepted, proposal, history)
    }

    /** Disk and approvals, as the run machine of ApprovalRuns sees them between requests. */
    ghost function AsWorld(): World
      reads this, sidecar, approvals
    {
      World(project, Disk(), approvals.grants, None, approvals.issued, approvals.used)
    }

    /** The two things that failures of a living process can spoil: see README, "Where the code falls short". */
    ghost predicate Intact()
      reads this`orderly, sidecar`sound
    {
      orderly && sidecar.sound
    }

    /** Nothing was spoilt and nothing fails any more: what the requests do is exact. */
    ghost predicate Exact()
      reads this`orderly
    {
      orderly && sidecar.reliable
    }

    /** The disk is coherent, however it came to be, and nothing fails any more: recovery is exact. */
    ghost predicate Whole()
      reads this, sidecar
    {
      sidecar.reliable && Coherent(Disk())
    }

    /** What holds at any moment, also after the process died: the records add up and every registered
        intent was approved; while nothing was spoilt, disk and approvals are some that a run since the
        import reaches. */
    ghost predicate Durable()
      reads this, sidecar, approvals
    {
      && sidecar.Valid() && sidecar.serial && approvals.Valid()
      && Ledger(Disk()) && Bounded(Disk()) && IntentsAreApproved(sidecar.journal, approvals.used)
      && (Intact() ==> WorldReachable(AsWorld()) && Coherent(Disk()))
    }

    predicate HasRecord(id: OperationKey)
      reads this`entries
    {
      exists i :: 0 <= i < |entries| && entries[i].meta.id == id
    }

    /** Approvals to adopt are only outstanding for proposals without a blocking check. */
    ghost predicate GrantsAreUnblocked()
      reads this`entries, approvals`grants
    {
      forall t :: t in approvals.grants ==> GrantIsUnblocked(project, entries, approvals.grants[t].binding)
    }

    predicate IsOnDisk()
      reads this`entries, this`proposal
    {
      && proposal.Some? && entries != [] && entries[|entries| - 1].meta == proposal.value.meta
      && entries[|entries| - 1].binding == Some(proposal.value.review)
    }

    /** The active proposal is the latest one on disk, unless its record went with a failed removal; it is
        shown as denied only if its review is. */
    ghost predicate ActiveIsFinal()
      reads this`entries, this`proposal, this`gone, sidecar`journal, approvals`grants
    {
      && (gone ==> proposal.Some? && proposal.value.outcome == TerminalDenial && !HasRecord(proposal.value.meta.id))
      && (!gone ==> GrantsAreUnblocked() && (proposal.Some? ==> IsOnDisk()))
      && (proposal.Some? && proposal.value.outcome == TerminalDenial ==>
            proposal.value.review in sidecar.journal
            && sidecar.journal[proposal.value.review].state == TerminalDenial)
    }

    /** What holds in a running process, also in the middle of a request. */
    ghost predicate Steady()
      reads this, sidecar, approvals
    {
      && Durable() && ActiveIsFinal()
      && (proposal == None ==> Quiet(Disk()))
      && (Exact() ==> Mirrors(Disk(), InMemory()))
    }

    /** What holds between requests: a proposal shown as pending does wait for its decision. */
    ghost predicate Live()
      reads this, sidecar, approvals
    {
      Steady() && (Exact() && proposal.Some? && proposal.value.outcome == PendingReview ==> Awaiting(Disk()))
    }

    /** At any moment, whatever failed before: every registered intent has a grant of its own, nothing adopted
        was blocked, and Accepted is the fold of what was adopted or one adoption behind; while nothing was
        spoilt, a run of acts since the import leads to this very state. */
    lemma IntentsWereGranted()
      requires Durable()
      ensures forall b :: IsRegistered(AsWorld(), b) ==> exists i :: IsGrantedBy(AsWorld(), b, i)
      ensures forall b, c, i :: IsRegistered(AsWorld(), b) && IsRegistered(AsWorld(), c) ==>
                IsGrantedBy(AsWorld(), b, i) && IsGrantedBy(AsWorld(), c, i) ==> b == c
      ensures forall e :: e in entries && Adopts(e) ==> !e.meta.blocked
      ensures || Some(pointer.files) == Folded(first.files, entries, |entries|)
              || (entries != [] && Some(pointer.files) == Folded(first.files, entries, |entries| - 1))
      ensures Intact() ==> exists run :: IsWorldRun(Begin(project, rules, first), run, AsWorld())
    {
      GrantsAreOwn(AsWorld());
      LedgerIsAFold(Disk());
    }

    // ---- Storage ----

    /** Immutable once written, like all records; writing the same bytes again changes nothing. */
    method PersistBinding(i: nat, b: Binding) returns (ok: bool)
      requires i < |entries|
      modifies this`entries, sidecar`fuse
      ensures || entries == old(entries)
              || (old(entries)[i].binding == None
                  && entries == old(entries)[i := old(entries)[i].(binding := Some(b))])
      ensures ok ==> entries[i].binding == Some(b)
      ensures sidecar.reliable ==>
                && (!ok ==> entries == old(entries))
                && ok == if old(entries)[i].binding.Some? then old(entries)[i].binding == Some(b)
                   else old(sidecar.fuse) > 0
      ensures sidecar.fuse == old(sidecar.fuse) - if entries == old(entries) then 0 else 1
    {
      var failed := sidecar.Fault();
      if failed {
        return false;
      }
      if entries[i].binding.Some? {
        return entries[i].binding.value == b;
      }
      if sidecar.fuse == 0 {
        return false;
      }
      entries := entries[i := entries[i].(binding := Some(b))];
      sidecar.fuse := sidecar.fuse - 1;
      failed := sidecar.Fault();
      return !failed;
    }

    method PersistDecision(i: nat, decision: DecisionMeta) returns (ok: bool)
      requires i < |entries|
      modifies this`entries, sidecar`fuse
      ensures || entries == old(entries)
              || (old(entries)[i].decision == None
                 && entries == old(entries)[i := old(entries)[i].(decision := Some(decision))])
      ensures ok ==> entries[i].decision == Some(decision)
      ensures sidecar.reliable ==>
                && (!ok ==> entries == old(entries))
                && ok == if old(entries)[i].decision.Some? then old(entries)[i].decision == Some(decision)
                   else old(sidecar.fuse) > 0
      ensures sidecar.fuse == old(sidecar.fuse) - if entries == old(entries) then 0 else 1
    {
      var failed := sidecar.Fault();
      if failed {
        return false;
      }
      if entries[i].decision.Some? {
        return entries[i].decision.value == decision;
      }
      if sidecar.fuse == 0 {
        return false;
      }
      entries := entries[i := entries[i].(decision := Some(decision))];
      sidecar.fuse := sidecar.fuse - 1;
      failed := sidecar.Fault();
      return !failed;
    }

    method PersistCompletion(i: nat, completion: Completion) returns (ok: bool)
      requires i < |entries|
      modifies this`entries, sidecar`fuse
      ensures || entries == old(entries)
              || (old(entries)[i].completion == None
                 && entries == old(entries)[i := old(entries)[i].(completion := Some(completion))])
      ensures ok ==> entries[i].completion == Some(completion)
      ensures sidecar.reliable ==>
                && (!ok ==> entries == old(entries))
                && ok == if old(entries)[i].completion.Some? then old(entries)[i].completion == Some(completion)
                   else old(sidecar.fuse) > 0
      ensures sidecar.fuse == old(sidecar.fuse) - if entries == old(entries) then 0 else 1
    {
      var failed := sidecar.Fault();
      if failed {
        return false;
      }
      if entries[i].completion.Some? {
        return entries[i].completion.value == completion;
      }
      if sidecar.fuse == 0 {
        return false;
      }
      entries := entries[i := entries[i].(completion := Some(completion))];
      sidecar.fuse := sidecar.fuse - 1;
      failed := sidecar.Fault();
      return !failed;
    }

    /** The revision is retained and the Accepted pointer moved in one step. */
    method CommitRevision(site: Site) returns (ok: bool)
      modifies this`pointer, this`retained, sidecar`fuse
      ensures || (pointer == old(pointer) && retained == old(retained) && !ok && sidecar.fuse == old(sidecar.fuse))
              || (pointer == site && retained == old(retained)[site.revision := site.files]
                 && sidecar.fuse == old(sidecar.fuse) - 1)
      ensures sidecar.reliable ==> ok == (old(sidecar.fuse) > 0) && (!ok ==> sidecar.fuse == old(sidecar.fuse))
    {
      var failed := sidecar.Fault();
      if failed || sidecar.fuse == 0 {
        return false;
      }
      pointer, retained := site, retained[site.revision := site.files];
      sidecar.fuse := sidecar.fuse - 1;
      failed := sidecar.Fault();
      return !failed;
    }

    // ---- Showing a proposal ----

    method Show(active: Option<Active>)
      requires Durable() && !gone && GrantsAreUnblocked()
      requires ActiveIsTrue(active, Disk()) && (active == None ==> Quiet(Disk()))
      requires Exact() ==>
                 && Mirrors(Disk(), Memory(accepted, active, history))
                 && (active.Some? && active.value.outcome == PendingReview ==> Awaiting(Disk()))
      modifies this`proposal
      ensures Live() && proposal == active
    {
      hide Coherent, WorldReachable, Ledger, Inv, SerialInv, Mirrors, HistoryOf, Sound, IntentsAreApproved, Quiet;
      hide Awaiting, GrantsAreUnblocked;
      proposal := active;
    }

    // ---- Completing a decision ----

    predicate ReviewIsHistory(b: Binding)
      reads this
    {
      exists k :: 0 <= k < |history| && history[k].review == b
    }

    /** First the decision metadata. */
    method RecordMetadata(receipt: DecisionReceipt) returns (ok: bool)
      requires Steady() && proposal.Some? && !gone
      requires CommittedFinal(Disk(), proposal.value.review) && receipt == ReceiptAt(Disk(), proposal.value.review)
      modifies this`entries, sidecar`fuse
      ensures Steady() && sidecar.Now() == old(sidecar.Now()) && CommittedFinal(Disk(), proposal.value.review)
      ensures ok ==> Final(Disk()).decision == Some(DecisionFor(proposal.value.meta, proposal.value.review, receipt))
      ensures Exact() ==> Along(old(Disk()), old(sidecar.fuse), Disk(), sidecar.fuse)
      ensures Exact() && !ok ==> sidecar.fuse == 0 && NextWrite(Disk()).Some?
    {
      hide Coherent, WorldReachable, Ledger, NextWrite, Along, Inv, SerialInv, Redo, HistoryOf, MayBeAdopted;
      hide IntentsAreApproved, Sound;
      var p, last := proposal.value, |entries| - 1;
      var decision := DecisionFor(p.meta, p.review, receipt);
      ghost var d0, f0, w0 := Disk(), sidecar.fuse, AsWorld();
      NoWrite(d0, f0);
      if Intact() {
        OwesDecision(d0, p.review);
      }
      if d0.entries[last].decision.Some? {
        DecisionIsOnRecord(d0, p.review);
      } else {
        DecisionKeepsLedger(d0, p.review);
      }
      ok := PersistDecision(last, decision);
      HistoryStays(d0.entries, entries, last);
      MetasStay(d0.entries, entries);
      if entries != d0.entries {
        assert Disk() == SetFinal(d0, Final(d0).(decision := Some(decision)));
        if Intact() {
          OwedInWorld(w0, Disk());
        }
        if Exact() {
          OneWrite(d0, f0);
        }
      } else {
        assert Disk() == d0;
      }
    }

    /** Then, for an adoption, the Accepted revision. */
    method RecordAccepted(decision: DecisionMeta) returns (ok: bool)
      requires Steady() && proposal.Some? && !gone && pointer == accepted
      requires CommittedFinal(Disk(), proposal.value.review) && Final(Disk()).decision == Some(decision)
      modifies this`pointer, this`retained, this`accepted, sidecar`fuse
      ensures Steady() && sidecar.Now() == old(sidecar.Now()) && CommittedFinal(Disk(), proposal.value.review)
      ensures ok ==> pointer == accepted
      ensures ok && decision.receipt.disposition == AdoptedUnchanged ==> pointer.revision == proposal.value.meta.planned
      ensures Exact() ==> Along(old(Disk()), old(sidecar.fuse), Disk(), sidecar.fuse)
      ensures Exact() && !ok ==> sidecar.fuse == 0 && NextWrite(Disk()).Some?
    {
      hide Coherent, WorldReachable, Ledger, NextWrite, Along, Inv, SerialInv, Redo, HistoryOf, MayBeAdopted;
      hide IntentsAreApproved, Sound, GrantsAreUnblocked;
      var p := proposal.value;
      ghost var d0, f0, w0 := Disk(), sidecar.fuse, AsWorld();
      NoWrite(d0, f0);
      ok := true;
      if decision.receipt.disposition == AdoptedUnchanged && accepted.revision != p.meta.planned {
        ghost var d1 :=
          d0.(accepted := Site(p.meta.planned, p.meta.files),
              retained := d0.retained[p.meta.planned := p.meta.files]);
        CommitKeepsLedger(d0);
        if Intact() {
          CommitIsOwed(d0, p.review);
        }
        ok := CommitRevision(Site(p.meta.planned, p.meta.files));
        if pointer == d0.accepted && retained == d0.retained {
          assert Disk() == d0;
        } else {
          assert Disk() == d1;
          if Intact() {
            OwedInWorld(w0, d1);
          }
          if Exact() {
            OneWrite(d0, f0);
          }
        }
        if ok {
          accepted := Site(p.meta.planned, p.meta.files);
        }
      }
    }

    /** Last the completion record. */
    method WriteCompletion(decision: DecisionMeta) returns (ok: bool)
      requires Steady() && proposal.Some? && !gone
      requires CommittedFinal(Disk(), proposal.value.review) && Final(Disk()).decision == Some(decision)
      requires decision.receipt.disposition == AdoptedUnchanged ==> pointer.revision == proposal.value.meta.planned
      modifies this`entries, sidecar`fuse
      ensures |entries| == |old(entries)| > 0 && (ok ==> entries[|entries| - 1].completion.Some?)
      ensures var last := |old(entries)| - 1;
              var completed :=
                old(entries)[last].(completion := Some(CompletionFor(old(proposal.value.review), decision)));
              entries == old(entries) || entries == old(entries)[last := completed]
      ensures Durable() && ActiveIsFinal()
      ensures Exact() ==> Along(old(Disk()), old(sidecar.fuse), Disk(), sidecar.fuse)
      ensures Exact() && !ok ==> entries == old(entries) && sidecar.fuse == 0 && NextWrite(Disk()).Some?
    {
      hide Coherent, WorldReachable, Ledger, NextWrite, Along, Inv, SerialInv, Redo, HistoryOf, MayBeAdopted;
      hide IntentsAreApproved, Sound, Mirrors, Quiet;
      var p, last := proposal.value, |entries| - 1;
      var completion := CompletionFor(p.review, decision);
      ghost var d0, f0, w0 := Disk(), sidecar.fuse, AsWorld();
      NoWrite(d0, f0);
      if Exact() {
        ActiveIsUnfinished(d0, InMemory());
      }
      if d0.entries[last].completion == None {
        CompletionKeepsLedger(d0, completion);
        CompletionIsOwed(d0, p.review);
      }
      ok := PersistCompletion(last, completion);
      MetasStay(d0.entries, entries);
      if entries != d0.entries {
        assert Disk() == SetFinal(d0, Final(d0).(completion := Some(completion)));
        if Intact() {
          OwedInWorld(w0, Disk());
        }
        if Exact() {
          OneWrite(d0, f0);
        }
      } else {
        assert Disk() == d0;
      }
    }

    /** Only with its completion on record does the proposal become history; `once` if it might be there. */
    method RecordCompletion(decision: DecisionMeta, once: bool) returns (ok: bool)
      requires Steady() && proposal.Some? && !gone
      requires CommittedFinal(Disk(), proposal.value.review) && Final(Disk()).decision == Some(decision)
      requires decision.receipt.disposition == AdoptedUnchanged ==> pointer.revision == proposal.value.meta.planned
      modifies this`entries, this`proposal, this`history, sidecar`fuse
      ensures Steady() && sidecar.Now() == old(sidecar.Now())
      ensures if ok then proposal == None else proposal == old(proposal) && history == old(history)
      ensures ok ==>
                history == if once && old(ReviewIsHistory(proposal.value.review)) then old(history)
                           else old(history) + [RecordOf(old(proposal).value.meta, decision)]
      ensures Exact() ==> Along(old(Disk()), old(sidecar.fuse), Disk(), sidecar.fuse)
      ensures Exact() ==>
                if ok then NextWrite(Disk()) == None else sidecar.fuse == 0 && NextWrite(Disk()).Some?
    {
      hide Coherent, WorldReachable, Ledger, NextWrite, Along, Inv, SerialInv, Redo, HistoryOf, MayBeAdopted;
      hide IntentsAreApproved, Sound, Mirrors, Quiet, CommittedFinal, GrantsAreUnblocked, HasRecord;
      var p := proposal.value;
      ghost var d0, m0 := Disk(), InMemory();
      if Exact() {
        ActiveIsUnfinished(d0, m0);
      }
      ok := WriteCompletion(decision);
      if entries == d0.entries {
        assert Disk() == d0;
      } else {
        assert Disk() == SetFinal(d0, Final(d0).(completion := Some(CompletionFor(p.review, decision))));
      }
      if ok {
        CompletedIsQuiet(Disk());
        if Exact() {
          CompletionShows(d0, m0, Disk(), p.review, decision);
          ActiveIsNotHistory(d0, m0);
        }
        if !once || !ReviewIsHistory(p.review) {
          history := history + [RecordOf(p.meta, decision)];
        }
        proposal := None;
      }
    }

    /** The tail shared by create_decision and finalize_reconciled_decision. */
    method RecordDecision(receipt: DecisionReceipt, once: bool) returns (ok: bool)
      requires Steady() && proposal.Some? && !gone && pointer == accepted
      requires CommittedFinal(Disk(), proposal.value.review) && receipt == ReceiptAt(Disk(), proposal.value.review)
      modifies this`entries, this`pointer, this`retained, this`accepted, this`proposal, this`history, sidecar`fuse
      ensures Steady() && sidecar.Now() == old(sidecar.Now())
      ensures if ok then proposal == None else proposal == old(proposal) && history == old(history)
      ensures var p := old(proposal).value;
              ok ==>
                history == if once && old(ReviewIsHistory(proposal.value.review)) then old(history)
                           else old(history) + [RecordOf(p.meta, DecisionFor(p.meta, p.review, receipt))]
      ensures Exact() ==> Along(old(Disk()), old(sidecar.fuse), Disk(), sidecar.fuse)
      ensures Exact() ==>
                if ok then NextWrite(Disk()) == None else sidecar.fuse == 0 && NextWrite(Disk()).Some?
    {
      hide Coherent, WorldReachable, Ledger, NextWrite, Along, Inv, SerialInv, Redo, HistoryOf, MayBeAdopted, Mirrors;
      hide IntentsAreApproved, Sound, CommittedFinal;
      var decision := DecisionFor(proposal.value.meta, proposal.value.review, receipt);
      ghost var d0, f0 := Disk(), sidecar.fuse;
      ok := RecordMetadata(receipt);
      ghost var d1, f1 := Disk(), sidecar.fuse;
      if !ok {
        return;
      }
      ok := RecordAccepted(decision);
      if Exact() {
        AlongTrans(d0, f0, d1, f1, Disk(), sidecar.fuse);
      }
      ghost var d2, f2 := Disk(), sidecar.fuse;
      if !ok {
        return;
      }
      ok := RecordCompletion(decision, once);
      if Exact() {
        AlongTrans(d0, f0, d2, f2, Disk(), sidecar.fuse);
      }
    }

    // ---- Reconciliation ----

    predicate KnownReview(b: Binding)
      reads this
    {
      (proposal.Some? && proposal.value.review == b) || ReviewIsHistory(b)
    }

    /** A failure leaves the shown outcome as it was. */
    method FinalizeReconciledDecision(receipt: DecisionReceipt) returns (r: Result<(), StudioError>)
      requires Steady() && proposal.Some? && !gone && pointer == accepted
      requires CommittedFinal(Disk(), proposal.value.review) && receipt == ReceiptAt(Disk(), proposal.value.review)
      modifies this`entries, this`pointer, this`retained, this`accepted, this`proposal, this`history, sidecar`fuse
      ensures r.Err? ==> r.error in {StaleProposal, ReceiptMismatch, StorageFailed}
      ensures var m := old(proposal).value.meta;
              var adopted := receipt.disposition == AdoptedUnchanged;
              && (r.Ok? ==> receipt.reviewed == if adopted then m.files else m.base.files)
              && (r.Ok? ==>
                    if old(ReviewIsHistory(proposal.value.review)) then history == old(history)
                    else |history| == |old(history)| + 1 && history[..|old(history)|] == old(history)
                         && history[|old(history)|].review == old(proposal).value.review
                         && history[|old(history)|].receipt == receipt)
              && (r == Err(StaleProposal) <==>
                    old(accepted) != m.base && !(adopted && old(accepted) == Site(m.planned, m.files)))
      ensures Steady() && if r.Ok? then proposal == None else proposal == old(proposal) && history == old(history)
      ensures Exact() ==> Along(old(Disk()), old(sidecar.fuse), Disk(), sidecar.fuse)
      ensures Exact() ==>
                if r.Ok? then NextWrite(Disk()) == None else sidecar.fuse == 0 && NextWrite(Disk()).Some?
    {
      hide Coherent, WorldReachable, Ledger, NextWrite, Along, Inv, SerialInv, Redo, HistoryOf, MayBeAdopted;
      hide IntentsAreApproved, Sound, Mirrors, Quiet, CommittedFinal;
      var m := proposal.value.meta;
      var adopted := receipt.disposition == AdoptedUnchanged;
      if Exact() {
        FinalIsCurrent(Disk(), proposal.value.review);
      }
      if accepted != m.base && !(adopted && accepted == Site(m.planned, m.files)) {
        return Err(StaleProposal);
      }
      if receipt.reviewed != (if adopted then m.files else m.base.files) {
        return Err(ReceiptMismatch);
      }
      var ok := RecordDecision(receipt, true);
      return if ok then Ok(()) else Err(StorageFailed);
    }

    method ShowOutcome(failed: bool, outcome: ReviewState)
      requires Steady() && proposal.Some?
      requires gone ==> outcome == TerminalDenial
      requires outcome == TerminalDenial ==>
                 proposal.value.review in sidecar.journal
                   && sidecar.journal[proposal.value.review].state == TerminalDenial
      modifies this`proposal
      ensures Steady() && proposal == Some(old(proposal).value.(failed := failed, outcome := outcome))
    {
      hide Coherent, WorldReachable, Ledger, Inv, SerialInv, HistoryOf, MayBeAdopted, IntentsAreApproved, Sound, Quiet;
      proposal := Some(proposal.value.(failed := failed, outcome := outcome));
    }

    /** The call of resume on the latest proposal, and what it leaves whatever fails. */
    method ResumeActive(b: Binding) returns (outcome: Result<ReviewOutcome, SidecarError>)
      requires Live() && proposal.Some? && proposal.value.review == b
      modifies sidecar
      ensures Steady() && sidecar.fuse <= old(sidecar.fuse)
      ensures outcome.Ok? && outcome.value.Committed? ==>
                CommittedFinal(Disk(), b) && outcome.value.receipt == ReceiptAt(Disk(), b)
      ensures outcome.Ok? && outcome.value.NotCommitted? ==>
                b in sidecar.journal && sidecar.journal[b].state == outcome.value.state
      ensures gone && outcome.Ok? ==> outcome.value == NotCommitted(TerminalDenial)
      ensures Exact() ==> Along(old(Disk()), old(sidecar.fuse), Disk(), sidecar.fuse)
      ensures Exact() && outcome.Err? ==> sidecar.fuse == 0 && NextWrite(Disk()).Some?
      ensures Exact() && (outcome.Err? || outcome.value.Committed?) ==> proposal.value.outcome != PendingReview
      ensures Exact() && outcome.Ok? && outcome.value.NotCommitted? ==>
                NextWrite(Disk()) == None && (outcome.value.state == PendingReview ==> Awaiting(Disk()))
    {
      hide Coherent, WorldReachable, Ledger, NextWrite, Along, Inv, SerialInv, Redo, HistoryOf, MayBeAdopted, Mirrors;
      hide IntentsAreApproved, Sound, Quiet, CommittedFinal, Truthful, Evolves, ResumeRun, Resumes, ResumesIn;
      ghost var d0, f0, w0 := Disk(), sidecar.fuse, AsWorld();
      outcome := sidecar.Resume(b);
      ghost var d1 := Disk();
      assert d1 == d0.(sidecar := d1.sidecar);
      ResumeKeepsBooks(d0, b, d1.sidecar, outcome, approvals.used);
      if gone {
        DeniedIsLeft(d0.sidecar, b, d1.sidecar, outcome);
      } else if Intact() {
        ResumeReaches(d0, |entries| - 1, d1.sidecar, outcome);
        ReachesInWorld(w0, d1);
      }
      if outcome.Ok? {
        AnswerIsTrue(d1, b, outcome.value, sidecar.serial);
        AnswerIsState(d1.sidecar, b, outcome.value);
      }
      DenialLasts(d0.sidecar, d1.sidecar);
      if Exact() {
        ActiveHasRecord(d0, InMemory());
        ResumedOnDisk(d0, b, f0, sidecar.fuse, d1.sidecar, outcome);
        MirrorsStay(d0, d1.sidecar, InMemory());
      }
    }

    method ReconcileActive(b: Binding) returns (r: Result<(), StudioError>)
      requires Live() && proposal.Some? && proposal.value.review == b && pointer == accepted
      modifies this`entries, this`pointer, this`retained, this`accepted, this`proposal, this`history, sidecar
      ensures Live()
      ensures r.Err? ==> r.error != NotFound
      ensures r.Ok? && proposal.Some? ==>
                b in sidecar.journal
                && proposal == Some(old(proposal).value.(outcome := sidecar.journal[b].state,
                                                         failed := sidecar.journal[b].state == TerminalDenial))
      ensures Exact() ==> Along(old(Disk()), old(sidecar.fuse), Disk(), sidecar.fuse)
      ensures Exact() ==>
                if r.Ok? then NextWrite(Disk()) == None else sidecar.fuse == 0 && NextWrite(Disk()).Some?
    {
      hide Coherent, WorldReachable, Ledger, NextWrite, Along, Inv, SerialInv, Redo, HistoryOf, MayBeAdopted, Mirrors;
      hide IntentsAreApproved, Sound, Quiet, CommittedFinal, Awaiting;
      ghost var d0, f0 := Disk(), sidecar.fuse;
      var outcome := ResumeActive(b);
      ghost var d1, f1 := Disk(), sidecar.fuse;
      match outcome {
        case Err(error) =>
          return Err(SidecarFailed(error));
        case Ok(Committed(receipt)) =>
          r := FinalizeReconciledDecision(receipt);
          if Exact() {
            AlongTrans(d0, f0, d1, f1, Disk(), sidecar.fuse);
          }
        case Ok(NotCommitted(state)) =>
          ShowOutcome(state == TerminalDenial, state);
          return Ok(());
      }
    }

    /** Resumes whatever a failed request left unfinished and carries it through; a review that failures
        have left retryable or unknown is settled like any other. */
    method ReconcileReview(b: Binding) returns (r: Result<(), StudioError>)
      requires Live()
      modifies this, sidecar
      ensures Live() && approvals.grants == old(approvals.grants) && orderly == old(orderly) && gone == old(gone)
      ensures Exact() ==> Along(old(Disk()), old(sidecar.fuse), Disk(), sidecar.fuse)
      ensures r == Err(NotFound) <==>
                !(if old(proposal).Some? then old(proposal).value.review == b else old(ReviewIsHistory(b)))
      ensures r == Err(NotFound) ==> Disk() == old(Disk()) && InMemory() == old(InMemory())
      ensures r.Ok? && proposal.Some? ==>
                && old(proposal).Some? && b in sidecar.journal
                && proposal == Some(old(proposal).value.(outcome := sidecar.journal[b].state,
                                                         failed := sidecar.journal[b].state == TerminalDenial))
      ensures Exact() && r.Ok? ==> NextWrite(Disk()) == None && InMemory() == Projection(Disk())
      ensures Exact() && r.Err? && r.error != NotFound ==> sidecar.fuse == 0 && NextWrite(Disk()).Some?
      ensures Exact() && r.Err? && r.error != NotFound ==> old(sidecar.fuse) + 1 < |Redo(old(Disk()))|
    {
      hide Coherent, WorldReachable, Ledger, NextWrite, Along, Inv, SerialInv, Redo, HistoryOf, MayBeAdopted, Mirrors;
      hide IntentsAreApproved, Sound, Quiet, Awaiting, Projection;
      ghost var d0, f0 := Disk(), sidecar.fuse;
      NoWrite(d0, f0);
      if !KnownReview(b) {
        return Err(NotFound);
      }
      if proposal == None {
        if Exact() {
          IdleOwesNothing(d0, InMemory());
          MirrorsIsProjection(d0, InMemory());
        }
        return Ok(());
      }
      if proposal.value.review != b {
        return Err(NotFound);
      }
      if pointer != accepted {
        r := Err(InvalidPersistedState);
        assert !Exact() by {
          if Exact() {
            MemoryAgrees(d0, InMemory());
          }
        }
        return;
      }
      OpenRuntimeSidecar();
      r := ReconcileActive(b);
      if Exact() {
        if r.Ok? {
          MirrorsIsProjection(Disk(), InMemory());
        } else if |Redo(d0)| <= f0 + 1 {
          EnoughIsSettled(d0, f0, Disk(), sidecar.fuse);
        }
      }
    }

    // ---- Approvals and decisions ----

    /** The eight fields an approval is bound to. */
    function RequestedBinding(request: DecisionRequest): ApprovalBinding
      reads this
    {
      ApprovalBinding(request.session, project, request.review, request.proposal,
                      if proposal.Some? then proposal.value.meta.files else map[], request.expected,
                      request.disposition, request.intent)
    }

    /** The pending proposal on the current revision, and for an adoption one that nothing blocks. */
    predicate MayApprove(request: DecisionRequest)
      reads this
    {
      && ValidIntent(request.intent) && KnownReview(request.review) && pointer == accepted && proposal.Some?
      && !proposal.value.failed && proposal.value.outcome == PendingReview && proposal.value.meta.id == request.proposal
      && proposal.value.meta.base.revision == request.expected && accepted.revision == request.expected
      && (request.disposition == AdoptedUnchanged ==> !proposal.value.meta.blocked)
    }

    /** What must hold for the sidecar to be asked for a decision. */
    predicate MayDecide(request: DecisionRequest, now: int, later: int)
      reads this, approvals
    {
      && ValidIntent(request.intent) && ValidHumanText(request.rationale) && KnownReview(request.review)
      && 0 < |request.token| <= 128 && request.token in approvals.grants
      && approvals.grants[request.token].binding == RequestedBinding(request)
      && now <= approvals.grants[request.token].expiresAt && later <= approvals.grants[request.token].expiresAt
      && pointer == accepted && accepted.revision == request.expected && proposal.Some?
      && !proposal.value.failed && proposal.value.outcome == PendingReview
      && proposal.value.meta.id == request.proposal && proposal.value.review == request.review
    }

    method SweepApprovals(now: int)
      requires Live()
      modifies approvals`grants
      ensures Live() && approvals.grants == Unexpired(old(approvals.grants), now)
    {
      hide Coherent, WorldReachable, Ledger, Inv, SerialInv, HistoryOf, Mirrors, Sound, IntentsAreApproved, Quiet;
      hide MayBeAdopted;
      ghost var w0 := AsWorld();
      approvals.SweepExpired(now);
      if Intact() {
        ActIsReachable(w0, Sweep(now));
      }
    }

    method IssueApproval(request: DecisionRequest, token: Token, expiresAt: int)
      requires Live() && MayApprove(request)
      requires forall i :: 0 <= i < |approvals.issued| ==> approvals.issued[i].token != token
      modifies approvals
      ensures Live() && approvals.used == old(approvals.used)
      ensures approvals.issued == old(approvals.issued) + [Issuance(token, Grant(RequestedBinding(request), expiresAt))]
      ensures approvals.grants == old(approvals.grants)[token := Grant(RequestedBinding(request), expiresAt)]
    {
      hide Coherent, WorldReachable, Ledger, Inv, SerialInv, HistoryOf, Mirrors, Sound, IntentsAreApproved, Quiet;
      ghost var w0, m := AsWorld(), proposal.value.meta;
      assert !m.blocked ==> MayBeAdopted(entries, m.id) by {
        assert entries[|entries| - 1].meta == m;
      }
      hide MayBeAdopted;
      if Intact() {
        ActIsReachable(w0, Issue(token, RequestedBinding(request), expiresAt));
      }
      approvals.Issue(token, RequestedBinding(request), expiresAt);
    }

    /** An approval to adopt is only issued for a proposal that no check blocks. `token` is random. */
    method CreateApproval(request: DecisionRequest, token: Token, now: int) returns (r: Result<int, StudioError>)
      requires Live() && forall i :: 0 <= i < |approvals.issued| ==> approvals.issued[i].token != token
      modifies approvals
      ensures Live()
      ensures r.Ok? <==>
                && ValidIntent(request.intent) && KnownReview(request.review) && pointer == accepted && proposal.Some?
                && !proposal.value.failed && proposal.value.outcome == PendingReview
                && proposal.value.meta.id == request.proposal && proposal.value.meta.base.revision == request.expected
                && accepted.revision == request.expected
                && (request.disposition == AdoptedUnchanged ==> !proposal.value.meta.blocked)
                && |Unexpired(old(approvals.grants), now)| < MAX_PENDING_APPROVALS
      ensures r.Ok? ==> MayApprove(request)
      ensures r.Err? ==>
                r.error == if !ValidIntent(request.intent) then InvalidRequest
                           else if |Unexpired(old(approvals.grants), now)| >= MAX_PENDING_APPROVALS then AtCapacityError
                           else if !KnownReview(request.review) then NotFound
                           else if pointer != accepted then InvalidPersistedState
                           else if proposal == None then ReviewTerminal
                           else if proposal.value.failed || proposal.value.outcome != PendingReview
                                   || proposal.value.meta.id != request.proposal
                                   || accepted.revision != request.expected
                                   || proposal.value.meta.base.revision != request.expected
                                then ApprovalBindingMismatch
                           else BlockedByValidation
      ensures r.Ok? ==>
                && approvals.issued ==
                     old(approvals.issued) + [Issuance(token, Grant(RequestedBinding(request), r.value))]
                && approvals.grants ==
                     Unexpired(old(approvals.grants), now)[token := Grant(RequestedBinding(request), r.value)]
      ensures r.Ok? ==>
                r.value == now + APPROVAL_TTL_SECONDS && proposal.Some? && proposal.value.outcome == PendingReview
      ensures r.Ok? ==>
                var g := approvals.grants[token].binding;
                && g.session == request.session && g.project == project && g.review == request.review
                && g.proposal == request.proposal && g.digest == proposal.value.meta.files
                && g.expected == request.expected && g.disposition == request.disposition && g.intent == request.intent
      ensures r.Err? ==> approvals.issued == old(approvals.issued)
      ensures approvals.used == old(approvals.used)
    {
      hide Coherent, WorldReachable, Ledger, Inv, SerialInv, HistoryOf, Mirrors, Sound, IntentsAreApproved, Quiet;
      if !ValidIntent(request.intent) {
        return Err(InvalidRequest);
      }
      SweepApprovals(now);
      if |approvals.grants| >= MAX_PENDING_APPROVALS {
        return Err(AtCapacityError);
      }
      if !KnownReview(request.review) {
        return Err(NotFound);
      }
      if pointer != accepted {
        return Err(InvalidPersistedState);
      }
      if proposal == None {
        return Err(if ReviewIsHistory(request.review) then ReviewTerminal else NotFound);
      }
      var p := proposal.value;
      if p.failed || p.outcome != PendingReview || p.meta.id != request.proposal
         || p.meta.base.revision != request.expected || accepted.revision != request.expected {
        return Err(ApprovalBindingMismatch);
      }
      if request.disposition == AdoptedUnchanged && p.meta.blocked {
        return Err(BlockedByValidation);
      }
      IssueApproval(request, token, now + APPROVAL_TTL_SECONDS);
      return Ok(now + APPROVAL_TTL_SECONDS);
    }

    /** The receipt must say what was asked for. */
    method CompleteApproved(request: DecisionRequest, receipt: DecisionReceipt) returns (r: Result<(), StudioError>)
      requires Steady() && proposal.Some? && !gone && pointer == accepted
      requires CommittedFinal(Disk(), proposal.value.review) && receipt == ReceiptAt(Disk(), proposal.value.review)
      modifies this`entries, this`pointer, this`retained, this`accepted, this`proposal, this`history, sidecar`fuse
      ensures Steady() && if r.Ok? then proposal == None else MarkedUnknown(old(proposal), proposal)
      ensures r.Ok? ==>
                && |history| == |old(history)| + 1 && history[..|old(history)|] == old(history)
                && IsDecided(old(proposal).value, request, history[|old(history)|])
      ensures r.Ok? ==> receipt.disposition == request.disposition
      ensures Exact() ==> Along(old(Disk()), old(sidecar.fuse), Disk(), sidecar.fuse)
      ensures Exact() && r.Ok? ==> NextWrite(Disk()) == None
      ensures r.Err? ==> r.error == ReconciliationRequired
      ensures Exact() && receipt.disposition == request.disposition && r.Err? ==> sidecar.fuse == 0
    {
      hide Coherent, WorldReachable, Ledger, NextWrite, Along, Inv, SerialInv, Redo, HistoryOf, MayBeAdopted, Mirrors;
      hide IntentsAreApproved, Sound, Quiet, CommittedFinal, GrantsAreUnblocked, HasRecord;
      var m := proposal.value.meta;
      NoWrite(Disk(), sidecar.fuse);
      if Exact() {
        FinalIsCurrent(Disk(), proposal.value.review);
      }
      if receipt.disposition != request.disposition
         || receipt.reviewed != (if request.disposition == AdoptedUnchanged then m.files else accepted.files) {
        ShowOutcome(proposal.value.failed, OutcomeUnknown);
        return Err(ReconciliationRequired);
      }
      var ok := RecordDecision(receipt, false);
      if !ok {
        ShowOutcome(proposal.value.failed, OutcomeUnknown);
        return Err(ReconciliationRequired);
      }
      return Ok(());
    }

    /** The approval just consumed is for this request. */
    ghost predicate IsPermitted(request: DecisionRequest)
      reads this, sidecar, approvals
    {
      && approvals.used != [] && Covers(approvals.used[|approvals.used| - 1], request)
      && (Intact() ==> WorldReachable(AsWorld().(permission := Some(approvals.used[|approvals.used| - 1]))))
    }

    /** The call of decide, and what it leaves whatever fails. */
    method AskForDecision(request: DecisionRequest) returns (outcome: Result<ReviewOutcome, SidecarError>)
      requires Live() && proposal.Some? && !gone && proposal.value.review == request.review
      requires sidecar.recordedAt == proposal.value.meta.recordedAt && ValidKey(request.intent)
      requires IsPermitted(request)
      requires request.disposition == AdoptedUnchanged ==> !proposal.value.meta.blocked
      requires Exact() ==> MayRegister(Disk(), request.disposition)
      modifies sidecar
      ensures Steady() && sidecar.fuse <= old(sidecar.fuse)
      ensures !ValidPrivateRationale(request.rationale) ==> outcome == Err(InvalidArgument) && Disk() == old(Disk())
      ensures outcome.Ok? && outcome.value.Committed? ==>
                CommittedFinal(Disk(), request.review) && outcome.value.receipt == ReceiptAt(Disk(), request.review)
      ensures outcome.Ok? && outcome.value.NotCommitted? ==>
                && outcome.value.state != PendingReview
                && request.review in sidecar.journal
                && sidecar.journal[request.review].state == outcome.value.state
      ensures Exact() ==>
                Disk() == old(Disk()) || Underway(old(Disk()), request, old(sidecar.fuse), Disk(), sidecar.fuse)
      ensures Exact() && outcome.Err? ==> sidecar.fuse == 0 || !ValidPrivateRationale(request.rationale)
      ensures Exact() && outcome.Ok? ==>
                && Underway(old(Disk()), request, old(sidecar.fuse), Disk(), sidecar.fuse)
                && outcome.value.Committed? && outcome.value.receipt.disposition == request.disposition
    {
      hide Coherent, WorldReachable, Ledger, NextWrite, Along, Inv, SerialInv, Redo, HistoryOf, MayBeAdopted, Mirrors;
      hide IntentsAreApproved, Sound, Quiet, CommittedFinal, Truthful, Evolves, DecideRun, Decides, Underway, DecidesIn;
      ghost var d0, f0, w0 := Disk(), sidecar.fuse, AsWorld();
      outcome := sidecar.Decide(request.review, request.disposition, request.rationale, request.intent);
      ghost var d1 := Disk();
      assert d1 == d0.(sidecar := d1.sidecar);
      DecideKeepsBooks(d0, request, sidecar.recordedAt, d1.sidecar, outcome, approvals.used);
      if Intact() {
        DecideReaches(d0, request.disposition, request.rationale, request.intent, d1.sidecar, outcome);
        DecidesInWorld(w0.(permission := Some(approvals.used[|approvals.used| - 1])), d1);
      }
      DecisionIsAnswered(d0, request, sidecar.recordedAt, d1.sidecar, outcome);
      if outcome.Ok? {
        AnswerIsTrue(d1, request.review, outcome.value, sidecar.serial);
      }
      DenialLasts(d0.sidecar, d1.sidecar);
      if Exact() {
        DecidedOnDisk(d0, request, f0, sidecar.fuse, d1.sidecar, outcome, InMemory());
      }
    }

    /** After the approval has been consumed. A failed request leaves the proposal in place, shown with an
        outcome other than pending, so that it has to be reconciled before it can be decided again. */
    method DecideApproved(request: DecisionRequest) returns (r: Result<(), StudioError>)
      requires Live() && proposal.Some? && !gone && proposal.value.review == request.review && pointer == accepted
      requires sidecar.recordedAt == proposal.value.meta.recordedAt && ValidKey(request.intent)
      requires IsPermitted(request)
      requires request.disposition == AdoptedUnchanged ==> !proposal.value.meta.blocked
      requires Exact() ==> MayRegister(Disk(), request.disposition)
      modifies this`entries, this`pointer, this`retained, this`accepted, this`proposal, this`history, sidecar
      ensures Live() && if r.Ok? then proposal == None else MustReconcile(old(proposal), proposal, r.error)
      ensures r.Ok? ==>
                && |history| == |old(history)| + 1 && history[..|old(history)|] == old(history)
                && IsDecided(old(proposal).value, request, history[|old(history)|])
      ensures r.Err? && r.error.NotCommittedYet? ==>
                request.review in sidecar.journal && sidecar.journal[request.review].state == r.error.state
      ensures Exact() ==>
                Disk() == old(Disk()) || Underway(old(Disk()), request, old(sidecar.fuse), Disk(), sidecar.fuse)
      ensures Exact() && r.Ok? ==>
                && MayRegister(old(Disk()), request.disposition)
                && Disk() == AfterDecision(old(Disk()), request.disposition, request.intent)
                && InMemory() == Projection(Disk())
      ensures Exact() && r.Err? ==> sidecar.fuse == 0 || !ValidPrivateRationale(request.rationale)
      ensures !ValidPrivateRationale(request.rationale) ==> r == Err(ReconciliationRequired) && Disk() == old(Disk())
    {
      hide Coherent, WorldReachable, Ledger, NextWrite, Along, Inv, SerialInv, Redo, HistoryOf, MayBeAdopted, Mirrors;
      hide IntentsAreApproved, Sound, Quiet, CommittedFinal, AfterDecision, Underway, Awaiting, Projection;
      ghost var d0, f0 := Disk(), sidecar.fuse;
      var outcome := AskForDecision(request);
      ghost var d1, f1 := Disk(), sidecar.fuse;
      match outcome {
        case Err(error) =>
          ShowOutcome(proposal.value.failed, OutcomeUnknown);
          return Err(ReconciliationRequired);
        case Ok(NotCommitted(state)) =>
          ShowOutcome(proposal.value.failed || state == TerminalDenial, state);
          return Err(NotCommittedYet(state));
        case Ok(Committed(receipt)) =>
          r := CompleteApproved(request, receipt);
          if Exact() {
            UnderwayTrans(d0, request, f0, d1, f1, Disk(), sidecar.fuse);
            if r.Ok? {
              SettledMeansDecided(d0, request, f0, Disk(), sidecar.fuse);
              MirrorsIsProjection(Disk(), InMemory());
            }
          }
      }
    }

    /** The checks before the approval is consumed, in the order of the request handler. */
    method ValidateDecision(request: DecisionRequest, now: int) returns (r: Result<(), StudioError>)
      requires Live()
      modifies approvals`grants
      ensures Live()
      ensures r.Ok? <==>
                && ValidIntent(request.intent) && ValidHumanText(request.rationale) && KnownReview(request.review)
                && 0 < |request.token| <= 128 && request.token in old(approvals.grants)
                && old(approvals.grants)[request.token].binding == RequestedBinding(request)
                && now <= old(approvals.grants)[request.token].expiresAt
                && pointer == accepted && accepted.revision == request.expected && proposal.Some?
                && !proposal.value.failed && proposal.value.outcome == PendingReview
                && proposal.value.meta.id == request.proposal && proposal.value.review == request.review
      ensures r.Ok? ==>
                var g := old(approvals.grants)[request.token].binding;
                && g.session == request.session && g.project == project && g.review == request.review
                && g.proposal == request.proposal && g.digest == proposal.value.meta.files
                && g.expected == request.expected && g.disposition == request.disposition && g.intent == request.intent
      ensures !ValidIntent(request.intent) || !ValidHumanText(request.rationale) <==> r == Err(InvalidRequest)
      ensures r != Err(InvalidRequest) && !KnownReview(request.review) ==> r == Err(NotFound)
      ensures r == Err(ReviewTerminal) ==> proposal == None && ReviewIsHistory(request.review)
      ensures r == Err(RevisionMismatch) ==> accepted.revision != request.expected
      ensures r == Err(DecisionBindingMismatch) ==>
                && proposal.Some?
                && (proposal.value.failed || proposal.value.outcome != PendingReview
                    || proposal.value.meta.id != request.proposal || proposal.value.review != request.review)
      ensures r == Err(InvalidPersistedState) ==> pointer != accepted
      ensures r.Err? && r.error.ApprovalRefused? && 0 < |request.token| <= 128
              && request.token in old(approvals.grants) ==>
                || old(approvals.grants)[request.token].binding != RequestedBinding(request)
                || old(approvals.grants)[request.token].expiresAt < now
      ensures r.Err? ==>
                r.error.ApprovalRefused? || r.error in {InvalidRequest, NotFound, ReviewTerminal, RevisionMismatch,
                  DecisionBindingMismatch, InvalidPersistedState}
      ensures r == Err(ApprovalRefused(Expired)) ==>
                && request.token in old(approvals.grants) && old(approvals.grants)[request.token].expiresAt < now
                && approvals.grants == old(approvals.grants) - {request.token}
      ensures r != Err(ApprovalRefused(Expired)) ==> approvals.grants == old(approvals.grants)
    {
      hide Coherent, WorldReachable, Ledger, Inv, SerialInv, HistoryOf, Mirrors, Sound, IntentsAreApproved, Quiet;
      hide MayBeAdopted;
      if !ValidIntent(request.intent) || !ValidHumanText(request.rationale) {
        return Err(InvalidRequest);
      }
      if !KnownReview(request.review) {
        return Err(NotFound);
      }
      if request.token == "" || |request.token| > 128 || request.token !in approvals.grants {
        return Err(ApprovalRefused(InvalidOrConsumed));
      }
      if proposal == None {
        return Err(if ReviewIsHistory(request.review) then ReviewTerminal else NotFound);
      }
      var p := proposal.value;
      ghost var w0 := AsWorld();
      var valid := approvals.Validate(request.token, RequestedBinding(request), now);
      if valid.Err? {
        if Intact() && valid.error == Expired {
          ActIsReachable(w0, Expire(request.token, now));
        }
        return Err(ApprovalRefused(valid.error));
      }
      if accepted.revision != request.expected {
        return Err(RevisionMismatch);
      }
      if p.failed || p.outcome != PendingReview || p.meta.id != request.proposal || p.review != request.review {
        return Err(DecisionBindingMismatch);
      }
      return if pointer != accepted then Err(InvalidPersistedState) else Ok(());
    }

    /** The sidecar of a request is configured with the timestamp of its proposal. */
    method OpenRuntimeSidecar()
      requires Live() && proposal.Some?
      modifies sidecar`recordedAt
      ensures Live() && Disk() == old(Disk()) && sidecar.recordedAt == old(proposal.value.meta.recordedAt)
    {
      hide Coherent, WorldReachable, Ledger, Inv, SerialInv, HistoryOf, Mirrors, Sound, Awaiting, MayBeAdopted;
      hide IntentsAreApproved, Quiet;
      sidecar.recordedAt := proposal.value.meta.recordedAt;
    }

    /** The approval is consumed just before the sidecar is asked. */
    method TakeApproval(request: DecisionRequest, later: int) returns (r: Result<(), StudioError>)
      requires Live() && proposal.Some? && pointer == accepted && proposal.value.outcome == PendingReview
      requires proposal.value.meta.id == request.proposal && proposal.value.review == request.review
      requires 0 < |request.token| <= 128 && request.token in approvals.grants
      requires approvals.grants[request.token].binding == RequestedBinding(request)
      modifies approvals
      ensures Live() && !gone && Disk() == old(Disk()) && approvals.issued == old(approvals.issued)
      ensures r.Err? ==> !r.error.NotCommittedYet?
      ensures r.Ok? <==> later <= old(approvals.grants)[request.token].expiresAt
      ensures r.Err? ==> approvals.used == old(approvals.used)
      ensures r.Ok? ==>
                && approvals.used ==
                     old(approvals.used) + [Use(request.token, RequestedBinding(request), later, |approvals.issued|)]
                && (request.disposition == AdoptedUnchanged ==> !old(proposal.value.meta.blocked))
                && (Exact() ==> MayRegister(Disk(), request.disposition))
                && IsPermitted(request)
    {
      hide Coherent, WorldReachable, Ledger, Inv, SerialInv, HistoryOf, Mirrors, Sound, Awaiting, MayBeAdopted;
      hide IntentsAreApproved;
      hide Quiet;
      if request.disposition == AdoptedUnchanged {
        LedgerNames(Disk());
        assert GrantIsUnblocked(project, entries, approvals.grants[request.token].binding);
        UnblockedIsFinal(Disk(), request.proposal);
      }
      ghost var used, w0 := approvals.used, AsWorld();
      var consumed := approvals.Consume(request.token, RequestedBinding(request), later);
      if Intact() && consumed == Err(Expired) {
        ActIsReachable(w0, Expire(request.token, later));
      } else if Intact() && consumed.Ok? {
        ActIsReachable(w0, Consume(request.token, later));
        ActIsReachable(Acted(w0, Consume(request.token, later)), GiveUp);
      }
      if consumed.Err? {
        return Err(ApprovalRefused(consumed.error));
      }
      MoreUses(sidecar.journal, used, approvals.used[|used|]);
      return Ok(());
    }

    /** Every call of decide consumes an approval with the same binding first. What the call and the rest
        of the request then write is the intent's registration followed by writes the disk owes; success
        means none is left, and nothing is written without an approval. A rationale that only the sidecar
        refuses costs the approval, writes nothing and leaves the proposal shown as unknown. */
    method CreateDecision(request: DecisionRequest, now: int, later: int) returns (r: Result<(), StudioError>)
      requires Live()
      modifies this, sidecar, approvals
      ensures Live() && approvals.issued == old(approvals.issued) && orderly == old(orderly) && gone == old(gone)
      ensures approvals.used == old(approvals.used)
              || approvals.used ==
                   old(approvals.used) + [Use(request.token, old(RequestedBinding(request)), later, |approvals.issued|)]
      ensures |approvals.used| > |old(approvals.used)| <==> old(MayDecide(request, now, later))
      ensures !old(MayDecide(request, now, later)) ==> r.Err? && Disk() == old(Disk()) && proposal == old(proposal)
      ensures old(MayDecide(request, now, later)) && r.Err? ==> MustReconcile(old(proposal), proposal, r.error)
      ensures old(MayDecide(request, now, later)) && !ValidPrivateRationale(request.rationale) ==>
                && r == Err(ReconciliationRequired) && Disk() == old(Disk())
                && proposal == Some(old(proposal).value.(outcome := OutcomeUnknown))
      ensures r.Err? && r.error.NotCommittedYet? ==>
                request.review in sidecar.journal && sidecar.journal[request.review].state == r.error.state
      ensures r.Ok? ==> proposal == None && old(proposal).Some?
      ensures r.Ok? ==>
                && |history| == |old(history)| + 1 && history[..|old(history)|] == old(history)
                && IsDecided(old(proposal).value, request, history[|old(history)|])
      ensures Exact() && r.Ok? ==> InMemory() == Projection(Disk())
      ensures Exact() && r.Err? && old(MayDecide(request, now, later)) ==>
                sidecar.fuse == 0 || !ValidPrivateRationale(request.rationale)
      ensures Exact() ==>
                || Disk() == old(Disk())
                || (|approvals.used| > |old(approvals.used)|
                   && Underway(old(Disk()), request, old(sidecar.fuse), Disk(), sidecar.fuse))
      ensures Exact() && r.Ok? ==>
                && MayRegister(old(Disk()), request.disposition) && |approvals.used| > |old(approvals.used)|
                && Disk() == AfterDecision(old(Disk()), request.disposition, request.intent)
    {
      hide Coherent, WorldReachable, Ledger, NextWrite, Along, Inv, SerialInv, Redo, HistoryOf, Mirrors, Sound;
      hide Underway, AfterDecision, Awaiting, MayBeAdopted, IntentsAreApproved, Quiet, ValidIntent, Durable, Steady;
      hide Projection;
      var valid := ValidateDecision(request, now);
      if valid.Err? {
        return Err(valid.error);
      }
      OpenRuntimeSidecar();
      var taken := TakeApproval(request, later);
      if taken.Err? {
        return Err(taken.error);
      }
      IntentIsKey(request.intent);
      r := DecideApproved(request);
    }

    lemma ApprovedMayBeDecided(request: DecisionRequest, token: Token, now: int, rationale: Option<Rationale>)
      requires MayApprove(request) && request.review == proposal.value.review && 0 < |token| <= 128
      requires token in approvals.grants
      requires approvals.grants[token] == Grant(RequestedBinding(request), now + APPROVAL_TTL_SECONDS)
      requires ValidHumanText(rationale)
      ensures MayDecide(request.(token := token, rationale := rationale), now, now)
    {
      hide ValidHumanText, ValidIntent;
    }

    /** Two lines of rationale under an approval that was just granted: the text check of the request lets
        them pass, the sidecar's does not, and the approval is spent on nothing. */
    method DecideInTwoLines(request: DecisionRequest, token: Token, now: int)
      returns (approved: Result<int, StudioError>, decided: Result<(), StudioError>)
      requires Live() && 0 < |token| <= 128 && forall i :: 0 <= i < |approvals.issued| ==>
                 approvals.issued[i].token != token
      requires proposal.Some? && request.review == proposal.value.review
      modifies this, sidecar, approvals
      ensures Live() && orderly == old(orderly) && gone == old(gone)
      ensures approved.Ok? ==> old(MayApprove(request))
      ensures approved.Ok? ==>
                && decided == Err(ReconciliationRequired) && |approvals.used| == |old(approvals.used)| + 1
                && Disk() == old(Disk()) && proposal == Some(old(proposal).value.(outcome := OutcomeUnknown))
    {
      hide Live, RequestedBinding, Sound, MayDecide, ValidHumanText, ValidPrivateRationale, Underway;
      decided := Err(NotFound);
      approved := CreateApproval(request, token, now);
      if approved.Ok? {
        TwoLinesAreHumanText();
        ApprovedMayBeDecided(request, token, now, Some(TWO_LINES));
        decided := CreateDecision(request.(token := token, rationale := Some(TWO_LINES)), now, now);
      }
    }

    /** Reconciling a proposal that waits for its decision writes nothing and shows it as pending. */
    method ReconcileWaiting(b: Binding) returns (r: Result<(), StudioError>)
      requires Live() && Exact() && Awaiting(Disk()) && proposal.Some? && proposal.value.review == b
      modifies this, sidecar
      ensures Live() && Exact() && r.Ok? && Disk() == old(Disk()) && approvals.grants == old(approvals.grants)
      ensures pointer == accepted == old(accepted)
      ensures proposal == Some(old(proposal).value.(outcome := PendingReview, failed := false))
    {
      hide Coherent, Ledger, Quiet, WorldReachable, IntentsAreApproved, GrantsAreUnblocked, Sound, HistoryOf;
      hide NextWrite, Along, Redo, Mirrors, Awaiting, Projection;
      ghost var d0, m0, f0 := Disk(), InMemory(), sidecar.fuse;
      WaitingIsReconciled(d0, m0);
      hide Durable, Steady, Live, HasRecord, ActiveIsFinal;
      r := ReconcileReview(b);
      NothingOwedNothingWritten(d0, f0, Disk(), sidecar.fuse);
    }

    /** Such a proposal is not lost: it is still pending in the journal, so one reconciliation, which has nothing
        to write, shows it as it was, and it may be approved again. */
    method ReconcileAfterTwoLines(request: DecisionRequest, token: Token, now: int)
      returns (approved: Result<int, StudioError>, decided: Result<(), StudioError>,
               reconciled: Result<(), StudioError>)
      requires Live() && Exact() && 0 < |token| <= 128
      requires forall i :: 0 <= i < |approvals.issued| ==> approvals.issued[i].token != token
      requires proposal.Some? && request.review == proposal.value.review
      modifies this, sidecar, approvals
      ensures Live() && Exact()
      ensures approved.Ok? ==>
                && decided == Err(ReconciliationRequired) && reconciled.Ok?
                && Disk() == old(Disk()) && proposal == old(proposal) && MayApprove(request)
    {
      hide Coherent, RequestedBinding, Durable, ActiveIsFinal, Mirrors, Awaiting, ValidIntent, Quiet;
      ghost var d0, p0 := Disk(), proposal.value;
      approved, decided := DecideInTwoLines(request, token, now);
      reconciled := Err(NotFound);
      if approved.Ok? {
        reconciled := ReconcileWaiting(request.review);
      }
    }

    // ---- Removing a denied proposal ----

    /** Storage moves the record out of the inventory and then cleans up behind it; a failure may come on
        either side of that move. */
    method DeleteFinal() returns (ok: bool)
      requires Durable() && DeniedFinal(Disk())
      modifies this`entries, sidecar`fuse
      ensures Durable() && (Disk() != old(Disk()) ==> Quiet(Disk()))
      ensures Disk() == Removed(old(Disk())) || (Disk() == old(Disk()) && !ok)
      ensures sidecar.reliable ==> ok == (old(sidecar.fuse) > 0) && (!ok ==> Disk() == old(Disk()))
    {
      hide Coherent, WorldReachable, Ledger, Inv, SerialInv, IntentsAreApproved, Sound, Quiet;
      var failed := sidecar.Fault();
      if failed || sidecar.fuse == 0 {
        return false;
      }
      ghost var d0, w0 := Disk(), AsWorld();
      RemoveKeepsLedger(d0);
      if Intact() {
        WriteReaches(d0, RemoveDenied);
        ReachesInWorld(w0, Removed(d0));
      }
      entries := entries[..|entries| - 1];
      sidecar.fuse := sidecar.fuse - 1;
      assert Disk() == Removed(d0);
      failed := sidecar.Fault();
      return !failed;
    }

    /** The record goes, the evidence in the repository and the journal stays; approvals for the proposal go
        with it. If the removal fails after its record has gone, the process goes on showing the proposal,
        and every further attempt fails, until a restart. */
    method RemoveFailedProposal(id: OperationKey, review: Binding, confirmation: OperationKey)
      returns (r: Result<(), StudioError>)
      requires Live()
      modifies this`entries, this`proposal, this`gone, sidecar`fuse, approvals`grants
      ensures Live() && Disk().sidecar == old(Disk()).sidecar
      ensures r.Err? ==> proposal == old(proposal) && approvals.grants == old(approvals.grants)
      ensures r.Err? ==> Disk() == old(Disk()) || (DeniedFinal(old(Disk())) && Disk() == Removed(old(Disk())))
      ensures gone <==> old(gone) || (r.Err? && Disk() != old(Disk()))
      ensures old(gone) ==> r.Err? && Disk() == old(Disk())
      ensures Exact() && r.Err? ==> Disk() == old(Disk())
      ensures r == Err(CleanupMismatch) <==>
                !(&& confirmation == id && old(proposal).Some? && old(proposal).value.meta.id == id
                  && old(proposal).value.review == review && old(proposal).value.outcome == TerminalDenial)
      ensures r.Err? ==> r.error in {CleanupMismatch, StorageFailed}
      ensures sidecar.reliable && !old(gone) && r == Err(StorageFailed) ==> old(sidecar.fuse) == 0
      ensures r.Ok? ==>
                && old(proposal).Some? && old(proposal).value.outcome == TerminalDenial && proposal == None
                && old(proposal).value.meta.id == id == confirmation && old(proposal).value.review == review
                && DeniedFinal(old(Disk())) && Disk() == Removed(old(Disk()))
                && approvals.grants == Revoked(old(approvals.grants), project, id)
    {
      hide Coherent, WorldReachable, Ledger, Inv, SerialInv, HistoryOf, MayBeAdopted, IntentsAreApproved, Sound, Quiet;
      hide Mirrors, Awaiting, Redo, NextWrite;
      if confirmation != id {
        return Err(CleanupMismatch);
      }
      if proposal == None || proposal.value.meta.id != id || proposal.value.review != review
         || proposal.value.outcome != TerminalDenial {
        return Err(CleanupMismatch);
      }
      if !HasRecord(id) {
        return Err(StorageFailed);
      }
      ghost var d0, m0 := Disk(), InMemory();
      var ok := DeleteFinal();
      if Disk() != d0 {
        RemovedHasNoRecord(d0);
      }
      if !ok {
        gone := Disk() != d0;
        return Err(StorageFailed);
      }
      if Exact() {
        RemovalShows(d0, m0);
      }
      DropProposal(d0, id);
      return Ok(());
    }

    /** The memory of a proposal whose record has just gone. */
    method DropProposal(ghost d0: Disk, id: OperationKey)
      requires Durable() && !gone && proposal.Some? && Quiet(Disk())
      requires d0.entries != [] && Disk() == Removed(d0) && Final(d0).meta.id == id
      requires forall t :: t in approvals.grants ==>
                 GrantIsUnblocked(project, d0.entries, approvals.grants[t].binding)
      requires Exact() ==> Mirrors(Disk(), InMemory().(proposal := None))
      modifies this`proposal, approvals`grants
      ensures Live() && proposal == None && approvals.grants == Revoked(old(approvals.grants), project, id)
    {
      hide Coherent, WorldReachable, Ledger, Inv, SerialInv, HistoryOf, MayBeAdopted, IntentsAreApproved, Sound, Quiet;
      hide Mirrors, GrantIsUnblocked;
      ghost var w0 := AsWorld();
      proposal := None;
      approvals.Revoke(project, id);
      if Intact() {
        ActIsReachable(w0, Revoke(id));
      }
      forall t | t in approvals.grants
        ensures GrantIsUnblocked(project, entries, approvals.grants[t].binding)
      {
        OthersMayBeAdopted(d0, project, approvals.grants[t].binding);
      }
    }

    // ---- Proposals ----

    /** Publishes the proposal of an unbound entry to the repository. */
    method PublishEntry(i: nat) returns (r: Result<Binding, StudioError>)
      requires Durable() && i < |entries| && entries[i].binding == None && accepted == pointer
               && sidecar.recordedAt == entries[i].meta.recordedAt
      modifies sidecar
      ensures Durable() && (Quiet(old(Disk())) ==> Quiet(Disk())) && SameIntents(old(sidecar.Now()), sidecar.Now())
      ensures forall k :: k in sidecar.proposals ==> k in old(sidecar.proposals) || k == entries[i].meta.id
      ensures r.Err? ==> !r.error.ChangeSetRefused?
      ensures r.Ok? ==>
                && r.value in sidecar.journal && r.value.operation == entries[i].meta.id
                && (accepted == entries[i].meta.base ==> BoundAsRecorded(entries[i].(binding := Some(r.value))))
      ensures sidecar.sound == old(sidecar.sound)
      ensures old(Coherent(Disk())) ==> i == |entries| - 1
      ensures old(Coherent(Disk())) && r.Ok? ==>
                NextWrite(Disk()) == Some(SetFinal(Disk(), Final(Disk()).(binding := Some(r.value))))
      ensures old(Whole()) ==> Whole() && Along(old(Disk()), old(sidecar.fuse), Disk(), sidecar.fuse)
      ensures old(Whole()) && r.Err? ==> sidecar.fuse == 0 && NextWrite(Disk()).Some?
    {
      hide Coherent, WorldReachable, Ledger, NextWrite, Along, Inv, SerialInv, Redo, BeginRun, Evolves, Cut;
      hide IntentsAreApproved, Sound, Quiet, SameIntents, IsReviewOf, BoundAsRecorded;
      var m := entries[i].meta;
      ghost var d0, f0, w0 := Disk(), sidecar.fuse, AsWorld();
      var input := ProposalInput(m.id, accepted.files, m.files, m.context);
      var receipt := sidecar.BeginProposal(input);
      ghost var d1, f1 := Disk(), sidecar.fuse;
      assert d1 == d0.(sidecar := d1.sidecar);
      BeginKeepsIntents(d0.sidecar, input, m.recordedAt, d1.sidecar, receipt);
      BeginAddsOneRef(d0.sidecar, input, m.recordedAt, d1.sidecar, receipt);
      BeginKeepsBooks(d0, input, m.recordedAt, d1.sidecar, receipt, approvals.used);
      if Coherent(d0) {
        UnboundIsLatest(d0, i);
        BeginReaches(d0, d1.sidecar, receipt);
      }
      if Intact() {
        ReachesInWorld(w0, d1);
      }
      if old(Whole()) {
        HistoryIsShort(d0);
        BegunOnDisk(d0, f0, f1, d1.sidecar, receipt);
      }
      if receipt.Err? {
        return Err(SidecarFailed(receipt.error));
      }
      var b := receipt.value.review;
      if receipt.value != ProposalReceipt(b, accepted.files, m.files, m.context) {
        return Err(ReceiptMismatch);
      }
      if accepted == m.base {
        BoundByReview(entries[i].(binding := Some(b)), b);
      }
      return Ok(b);
    }

    /** Publishes it and records the binding. */
    method BindProposal(i: nat) returns (r: Result<Binding, StudioError>)
      requires Durable() && i < |entries| && entries[i].binding == None && accepted == pointer
               && sidecar.recordedAt == entries[i].meta.recordedAt
      modifies this`entries, sidecar
      ensures |entries| == |old(entries)| && accepted == pointer && SameIntents(old(sidecar.Now()), sidecar.Now())
      ensures forall k :: k in sidecar.proposals ==> k in old(sidecar.proposals) || k == entries[i].meta.id
      ensures entries == old(entries) || entries == old(entries)[i := old(entries)[i].(binding := entries[i].binding)]
      ensures Durable() && (Quiet(old(Disk())) ==> Quiet(Disk()))
      ensures r.Err? ==> !r.error.ChangeSetRefused?
      ensures r.Ok? ==> entries[i].binding == Some(r.value)
      ensures r.Ok? && accepted == entries[i].meta.base ==> BoundAsRecorded(entries[i])
      ensures old(Whole()) ==> Whole() && Along(old(Disk()), old(sidecar.fuse), Disk(), sidecar.fuse)
      ensures old(Whole()) ==> if r.Ok? then Awaiting(Disk()) else sidecar.fuse == 0 && NextWrite(Disk()).Some?
    {
      hide Coherent, WorldReachable, Ledger, NextWrite, Along, Inv, SerialInv, Redo, Awaiting;
      hide IntentsAreApproved, Sound, Quiet, SameIntents, BoundAsRecorded;
      ghost var d0, f0 := Disk(), sidecar.fuse;
      r := PublishEntry(i);
      if r.Err? {
        return;
      }
      ghost var d1, f1, w1 := Disk(), sidecar.fuse, AsWorld();
      BindKeepsLedger(d1, i, r.value);
      BindKeepsQuiet(d1, i, r.value);
      var ok := PersistBinding(i, r.value);
      if entries == d1.entries {
        assert Disk() == d1;
      } else {
        assert Disk() == d1.(entries := d1.entries[i := d1.entries[i].(binding := Some(r.value))]);
        if Intact() {
          OwedInWorld(w1, Disk());
        }
        if old(Whole()) {
          JustBoundAwaits(d1, r.value);
          OneWrite(d1, f1);
          AlongTrans(d0, f0, d1, f1, Disk(), sidecar.fuse);
        }
      }
      if !ok {
        return Err(StorageFailed);
      }
    }

    /** The part of create_proposal that holds the Store lock; the identifiers are random. A failure while
        the process lives leaves the proposal on disk and out of memory, so that a further one may be put on
        top of it; `orderly` is lost exactly with the shape of records that a restart accepts. */
    method CreateProposal(request: ProposalRequest) returns (r: Result<(), StudioError>)
      requires Live() && ValidOperationKey(request.id)
      requires request.planned !in retained && request.id !in sidecar.proposals
               && IsNew(entries, request.id, request.planned)
      modifies this, sidecar
      ensures Durable() && (r.Ok? || Disk() == old(Disk()) || !Exact() ==> Live())
      ensures gone == old(gone) && retained == old(retained)
      ensures forall k :: k in sidecar.proposals ==> k in old(sidecar.proposals) || k == request.id
      ensures Disk() == old(Disk()) || IsOnTop(old(entries), entries, request.id, request.planned)
      ensures old(proposal).Some? ==> r.Err? && Disk() == old(Disk())
      ensures (orderly ==> old(orderly)) && (old(Exact()) ==> Exact())
      ensures old(Intact()) ==> (orderly <==> Tidy(entries))
      ensures r.Err? ==> proposal == old(proposal)
      ensures old(pointer != accepted) ==> r == Err(InvalidPersistedState)
      ensures old(pointer == accepted && proposal.Some?) ==> r == Err(SingleProposalLimit)
      ensures old(pointer == accepted && proposal == None) ==>
                ((r.Err? && r.error.ChangeSetRefused?) <==>
                   forall files :: !Permits(rules, request.ops, old(accepted).files, files))
      ensures r.Ok? ==>
                && old(proposal) == None && proposal.Some?
                && IsOnTop(old(entries), entries, request.id, request.planned)
                && proposal.value.meta ==
                     Meta(request.id, old(accepted), request.planned, proposal.value.meta.files, request.ops,
                                               request.context, request.recordedAt, request.blocked)
                && Permits(rules, request.ops, old(accepted).files, proposal.value.meta.files)
      ensures r.Ok? ==>
                && proposal == Some(Active(proposal.value.meta, proposal.value.review, false, PendingReview))
                && IsOnDisk() && accepted == pointer == old(accepted) && history == old(history)
      ensures r.Ok? ==>
                forall q: DecisionRequest ::
                  (&& ValidIntent(q.intent) && q.review == proposal.value.review && q.proposal == request.id
                   && q.expected == accepted.revision && (q.disposition == AdoptedUnchanged ==> !request.blocked))
                  ==> MayApprove(q)
      ensures Exact() && r.Ok? ==> InMemory() == Projection(Disk())
      ensures Exact() && r.Ok? ==> Disk() == Settled(Prepared(old(Disk()), proposal.value.meta))
      ensures Exact() && r.Err? ==>
                || (Disk() == old(Disk()) && Refusable(old(Disk()), old(InMemory()), old(sidecar.fuse), request.ops))
                || (sidecar.fuse == 0 && ProposalUnderway(old(Disk()), old(sidecar.fuse), Disk()))
    {
      hide Coherent, WorldReachable, Ledger, NextWrite, Along, Inv, SerialInv, Redo, HistoryOf, Sound, Mirrors;
      hide MayBeAdopted, Permits, Prepared, Fresh, Idle, Settled, ProposalUnderway, IntentsAreApproved, Quiet;
      hide Projection;
      assert Disk().rules == rules && Disk().accepted == pointer;
      if Intact() {
        CoherentIsTidy(Disk());
      }
      if pointer != accepted {
        return Err(InvalidPersistedState);
      }
      if proposal.Some? {
        return Err(SingleProposalLimit);
      }
      var applied := ParseAndApply(rules, request.ops, accepted.files);
      if applied.Err? {
        return Err(ChangeSetRefused(applied.error));
      }
      var failed := sidecar.Fault();
      if failed || |entries| >= MAX_PERSISTED_PROPOSALS || sidecar.fuse == 0 {
        return Err(StorageFailed);
      }
      var m := Meta(request.id, accepted, request.planned, applied.value.0, request.ops, request.context,
                    request.recordedAt, request.blocked);
      r := PrepareAndBind(m);
    }

    method PrepareAndBind(m: Meta) returns (r: Result<(), StudioError>)
      requires Live() && proposal == None && pointer == accepted && |entries| < MAX_PERSISTED_PROPOSALS
               && sidecar.fuse > 0
      requires m.base == accepted && ValidOperationKey(m.id) && Permits(rules, m.ops, accepted.files, m.files)
      requires m.planned !in retained && m.id !in sidecar.proposals && IsNew(entries, m.id, m.planned)
      modifies this`entries, this`proposal, this`orderly, sidecar
      ensures Durable() && (r.Ok? || !Exact() ==> Live())
      ensures r.Ok? ==>
                && proposal.Some? && proposal == Some(Active(m, proposal.value.review, false, PendingReview))
                && IsOnDisk() && accepted == pointer == old(accepted) && history == old(history)
      ensures r.Err? ==> !r.error.ChangeSetRefused?
      ensures Exact() && r.Ok? ==> InMemory() == Projection(Disk())
      ensures forall k :: k in sidecar.proposals ==> k in old(sidecar.proposals) || k == m.id
      ensures IsOnTop(old(entries), entries, m.id, m.planned) && (r.Err? ==> proposal == old(proposal))
      ensures (orderly ==> old(orderly)) && (old(Exact()) ==> Exact())
      ensures old(Intact()) ==> (orderly <==> Tidy(entries))
      ensures Exact() && r.Ok? ==> Disk() == Settled(Prepared(old(Disk()), m))
      ensures Exact() && r.Err? ==>
                sidecar.fuse == 0 && ProposalUnderway(old(Disk()), old(sidecar.fuse), Disk())
    {
      hide Coherent, WorldReachable, Ledger, NextWrite, Along, Inv, SerialInv, Redo, HistoryOf, Sound, Mirrors;
      hide MayBeAdopted, Permits, Prepared, Fresh, Idle, Settled, Awaiting, IntentsAreApproved, Quiet, HasRecord;
      hide Tidy, IsOnTop, IsNew, Projection, BoundAsRecorded, SameIntents;
      ghost var d0, kept := Disk(), InMemory();
      PreparedIsFresh(d0, m, kept);
      Prepare(m);
      ghost var d1, f1, before := Disk(), sidecar.fuse, entries;
      BindingStaysOnTop(d0.entries, m, entries);
      var failed := sidecar.Fault();
      if failed {
        return Err(StorageFailed);
      }
      var bound := BindProposal(|entries| - 1);
      BindingStaysOnTop(d0.entries, m, entries);
      MetasStay(before, entries);
      if bound.Err? {
        return Err(bound.error);
      }
      if Exact() {
        NewProposalShows(d0, m, kept, d1, f1, Disk(), sidecar.fuse, bound.value);
      }
      Show(Some(Active(m, bound.value, false, PendingReview)));
      return Ok(());
    }

    /** The proposal's files and metadata are staged and appear in one step. */
    method Prepare(m: Meta)
      requires Live() && proposal == None && |entries| < MAX_PERSISTED_PROPOSALS && sidecar.fuse > 0
      requires Fresh(Disk(), m)
      requires Exact() ==> Idle(Disk())
      modifies this`entries, this`orderly, sidecar`fuse, sidecar`recordedAt
      ensures Durable() && GrantsAreUnblocked() && Quiet(Disk())
      ensures Disk() == Prepared(old(Disk()), m) && entries == old(entries) + [Entry(m, None, None, None)]
      ensures sidecar.fuse == old(sidecar.fuse) - 1 && sidecar.recordedAt == m.recordedAt
      ensures (orderly ==> old(orderly)) && (old(Exact()) ==> Exact())
      ensures old(Intact()) ==> (orderly <==> Tidy(entries))
    {
      hide Coherent, WorldReachable, Ledger, NextWrite, Redo, HistoryOf, Sound, Mirrors, MayBeAdopted, Fresh, Idle;
      hide Awaiting, IntentsAreApproved, Quiet, Inv, SerialInv, Tidy;
      ghost var d0, w0, before := Disk(), AsWorld(), entries;
      PrepareKeepsLedger(d0, m);
      if Intact() {
        CoherentIsTidy(d0);
        TopIsUnfinished(d0, m);
      }
      orderly := orderly && Idle(d0);
      if Intact() {
        WriteReaches(d0, PrepareProposal(m));
        ReachesInWorld(w0, Prepared(d0, m));
      }
      entries := entries + [Entry(m, None, None, None)];
      sidecar.fuse := sidecar.fuse - 1;
      sidecar.recordedAt := m.recordedAt;
      assert Disk() == Prepared(d0, m) by {
        PreparedShape(d0, m);
      }
      MetasStay(before, entries);
    }

    // ---- Recovery ----

    /** One proposal: bind it if it is not bound, check its immutable facts against the repository, resume
        its review, and bring its decision metadata up to date. */
    method RecoverEntry(i: nat, logical: Site) returns (r: Result<Found, StudioError>)
      requires Durable() && i < |entries| && accepted == pointer
      requires logical == Before(first, entries, i)
      modifies this`entries, sidecar
      ensures Durable() && OnlyBrings(old(entries), entries, i) && accepted == pointer
      ensures SameIntents(old(sidecar.Now()), sidecar.Now())
      ensures r.Ok? ==> FoundHere(Disk(), i, r.value) && BoundAsRecorded(entries[i])
      ensures r.Ok? ==> DecidedAsRecorded(entries[i].(completion := None))
      ensures old(Whole()) ==> Whole() && Along(old(Disk()), old(sidecar.fuse), Disk(), sidecar.fuse)
      ensures old(Whole()) && i < |entries| - 1 ==>
                Disk() == old(Disk()) && sidecar.fuse == old(sidecar.fuse) && r.Ok?
      ensures old(Whole()) && r.Err? ==> sidecar.fuse == 0 && NextWrite(Disk()).Some?
      ensures old(Whole()) && r.Ok? ==> FoundOnDisk(Disk(), i, r.value)
    {
      hide Coherent, WorldReachable, Ledger, NextWrite, Along, Inv, SerialInv, Redo, Before, FoundOnDisk, FoundHere;
      hide IntentsAreApproved, Sound, Quiet, Awaiting, DecidedAsRecorded, BoundAsRecorded;
      ghost var d0, f0 := Disk(), sidecar.fuse;
      if old(Whole()) {
        EntryAt(d0, i);
        EarlierAreDecided(d0);
      }
      NoWrite(d0, f0);
      if entries[i].meta.base != logical {
        return Err(InvalidPersistedState);
      }
      sidecar.recordedAt := entries[i].meta.recordedAt;
      if entries[i].binding == None {
        if old(Whole()) {
          UnboundIsUndecided(d0);
        }
        if accepted != entries[i].meta.base {
          return Err(InvalidPersistedState);
        }
        var bound := BindProposal(i);
        if bound.Err? {
          return Err(bound.error);
        }
      }
      ghost var d1, f1 := Disk(), sidecar.fuse;
      r := RecoverBound(i);
      if old(Whole()) {
        AlongTrans(d0, f0, d1, f1, Disk(), sidecar.fuse);
      }
    }

    method RecoverBound(i: nat) returns (r: Result<Found, StudioError>)
      requires Durable() && i < |entries| && entries[i].binding.Some? && accepted == pointer
      modifies this`entries, sidecar
      ensures Durable() && OnlyBrings(old(entries), entries, i) && accepted == pointer
      ensures SameIntents(old(sidecar.Now()), sidecar.Now())
      ensures r.Ok? ==> FoundHere(Disk(), i, r.value) && BoundAsRecorded(entries[i])
      ensures r.Ok? ==> DecidedAsRecorded(entries[i].(completion := None))
      ensures old(Whole()) ==> Whole() && Along(old(Disk()), old(sidecar.fuse), Disk(), sidecar.fuse)
      ensures old(Whole()) && i < |entries| - 1 ==>
                Disk() == old(Disk()) && sidecar.fuse == old(sidecar.fuse) && r.Ok?
      ensures old(Whole()) && r.Err? ==> sidecar.fuse == 0 && NextWrite(Disk()).Some?
      ensures old(Whole()) && r.Ok? ==> FoundOnDisk(Disk(), i, r.value)
    {
      hide Coherent, WorldReachable, Ledger, NextWrite, Along, Inv, SerialInv, Redo, Before, ResumeRun, Truthful;
      hide Evolves, FoundOnDisk, FoundHere, IntentsAreApproved, Sound, Quiet, Awaiting, CommittedFinal;
      hide DecidedAsRecorded;
      var m, b := entries[i].meta, entries[i].binding.value;
      ghost var d0, f0 := Disk(), sidecar.fuse;
      if old(Whole()) {
        InspectAgrees(d0, i);
      }
      NoWrite(d0, f0);
      var inspected := sidecar.InspectProposal(b);
      if inspected.Err? {
        return Err(SidecarFailed(inspected.error));
      }
      if inspected.value != ProposalReceipt(b, m.base.files, m.files, m.context) {
        return Err(InvalidPersistedState);
      }
      var outcome := ResumeEntry(i, b);
      ghost var d1, f1 := Disk(), sidecar.fuse;
      match outcome {
        case Err(error) =>
          return Err(SidecarFailed(error));
        case Ok(Committed(receipt)) =>
          r := RecoverDecision(i, b, receipt);
          if old(Whole()) {
            AlongTrans(d0, f0, d1, f1, Disk(), sidecar.fuse);
          }
        case Ok(NotCommitted(state)) =>
          r := RecoverWaiting(i, b, state);
          if r.Ok? {
            UndecidedIsRecorded(entries[i].(completion := None));
          }
      }
    }

    method ResumeEntry(i: nat, b: Binding) returns (outcome: Result<ReviewOutcome, SidecarError>)
      requires Durable() && i < |entries| && entries[i].binding == Some(b)
      modifies sidecar
      ensures Durable() && SameIntents(old(sidecar.Now()), sidecar.Now())
      ensures outcome.Ok? && outcome.value.Committed? ==>
                CommittedAt(Disk(), b) && outcome.value.receipt == ReceiptAt(Disk(), b)
      ensures outcome.Ok? && outcome.value.NotCommitted? ==>
                b in sidecar.journal && sidecar.journal[b].state == outcome.value.state
      ensures old(Whole()) ==> Whole() && Along(old(Disk()), old(sidecar.fuse), Disk(), sidecar.fuse)
      ensures old(Whole()) && i < |entries| - 1 ==>
                Disk() == old(Disk()) && sidecar.fuse == old(sidecar.fuse) && outcome.Ok? && outcome.value.Committed?
      ensures old(Whole()) && outcome.Err? ==> sidecar.fuse == 0 && NextWrite(Disk()).Some?
      ensures old(Whole()) && outcome.Ok? && outcome.value.NotCommitted? ==>
                && i == |entries| - 1 && Disk() == old(Disk()) && NextWrite(Disk()) == None
                && Waits(Disk()) && outcome.value.state == OutcomeOf(Disk()) && entries[i].decision == None
    {
      hide Coherent, WorldReachable, Ledger, NextWrite, Along, Inv, SerialInv, Redo, ResumeRun, Resumes, Truthful;
      hide Evolves, IntentsAreApproved, Sound, Quiet, Awaiting, CommittedFinal, SameIntents;
      ghost var d0, f0, w0 := Disk(), sidecar.fuse, AsWorld();
      outcome := sidecar.Resume(b);
      ghost var d1 := Disk();
      assert d1 == d0.(sidecar := d1.sidecar);
      ResumptionKeepsIntents(d0.sidecar, b, d1.sidecar, outcome);
      ResumeKeepsBooks(d0, b, d1.sidecar, outcome, approvals.used);
      if Intact() {
        ResumeReaches(d0, i, d1.sidecar, outcome);
        ReachesInWorld(w0, d1);
      }
      if outcome.Ok? {
        AnswerIsRecorded(d1, b, outcome.value, sidecar.serial);
      }
      if old(Whole()) {
        ResumedAt(d0, i, f0, sidecar.fuse, d1.sidecar, outcome);
      }
    }

    /** Only the latest proposal may wait, and its ChangeSet must still produce its files. */
    method RecoverWaiting(i: nat, b: Binding, state: ReviewState) returns (r: Result<Found, StudioError>)
      requires Durable() && i < |entries| && entries[i].binding == Some(b) && accepted == pointer
      requires b in sidecar.journal && sidecar.journal[b].state == state
      ensures r.Ok? ==> r.value == Waiting(b, state) && entries[i].decision == None && FoundHere(Disk(), i, r.value)
      ensures Whole() && i == |entries| - 1 && entries[i].decision == None && Waits(Disk())
              && state == OutcomeOf(Disk()) ==>
                r.Ok? && FoundOnDisk(Disk(), i, r.value)
    {
      hide Coherent, WorldReachable, Ledger, Inv, SerialInv, IntentsAreApproved, Sound;
      var m := entries[i].meta;
      if Whole() && i == |entries| - 1 && entries[i].decision == None {
        UnboundIsUndecided(Disk());
        LatestIsPermitted(Disk());
      }
      hide Permits;
      if entries[i].decision.Some? || i + 1 != |entries| || accepted != m.base {
        return Err(InvalidPersistedState);
      }
      var applied := ParseAndApply(rules, m.ops, accepted.files);
      if applied.Err? || applied.value.0 != m.files {
        return Err(InvalidPersistedState);
      }
      return Ok(Waiting(b, state));
    }

    /** The decision on record must be the journal's; a missing one is written. */
    method RecoverDecision(i: nat, b: Binding, receipt: DecisionReceipt) returns (r: Result<Found, StudioError>)
      requires Durable() && i < |entries| && entries[i].binding == Some(b)
      requires CommittedAt(Disk(), b) && receipt == ReceiptAt(Disk(), b)
      modifies this`entries, sidecar`fuse
      ensures Durable() && OnlyBrings(old(entries), entries, i)
      ensures r.Ok? ==> r.value.OnRecord? && FoundHere(Disk(), i, r.value)
      ensures entries[i].binding == Some(b)
      ensures r.Ok? ==> DecidedAsRecorded(entries[i].(completion := None))
      ensures old(Whole()) ==> Whole() && Along(old(Disk()), old(sidecar.fuse), Disk(), sidecar.fuse)
      ensures old(Whole()) && i < |entries| - 1 ==>
                Disk() == old(Disk()) && sidecar.fuse == old(sidecar.fuse) && r.Ok?
      ensures old(Whole()) && r.Err? ==> sidecar.fuse == 0 && NextWrite(Disk()).Some?
      ensures old(Whole()) && r.Ok? ==> FoundOnDisk(Disk(), i, r.value)
    {
      hide Coherent, WorldReachable, Ledger, NextWrite, Along, Inv, SerialInv, Redo, Before, IntentsAreApproved, Sound;
      var m := entries[i].meta;
      var decision := DecisionFor(m, b, receipt);
      ghost var d0, f0, w0 := Disk(), sidecar.fuse, AsWorld();
      NoWrite(d0, f0);
      if entries[i].decision == None {
        CommittedIsLatest(d0, i);
        DecisionKeepsLedger(d0, b);
        if Coherent(d0) {
          OwesDecision(d0, b);
          FinalIsCurrent(d0, b);
        }
      }
      if old(Whole()) {
        EarlierAreDecided(d0);
        if entries[i].decision.Some? {
          RecordAgrees(d0, i);
        }
      }
      if receipt.reviewed != (if receipt.disposition == AdoptedUnchanged then m.files else m.base.files) {
        return Err(InvalidPersistedState);
      }
      if entries[i].decision.Some? && entries[i].decision.value != decision {
        return Err(InvalidPersistedState);
      }
      var ok := PersistDecision(i, decision);
      if entries == d0.entries {
        assert Disk() == d0;
      } else {
        assert Disk() == SetFinal(d0, Final(d0).(decision := Some(decision)));
        if Intact() {
          OwedInWorld(w0, Disk());
        }
        if old(Whole()) {
          OneWrite(d0, f0);
        }
      }
      return if ok then Ok(OnRecord(decision)) else Err(StorageFailed);
    }

    /** All proposals in their order; `history` grows with the decisions found. */
    method RecoverEntries() returns (r: Result<Lineages, StudioError>)
      requires Durable() && accepted == pointer && history == [] && entries != []
      modifies this`entries, this`history, sidecar
      ensures Durable() && entries != [] && accepted == pointer
      ensures SameIntents(old(sidecar.Now()), sidecar.Now()) && SameMetas(old(entries), entries)
      ensures |entries| == |old(entries)|
      ensures r.Ok? ==> forall j :: 0 <= j < |entries| - 1 ==> entries[j].decision.Some?
      ensures r.Ok? ==> AllRecorded(entries, |entries|)
      ensures r.Ok? ==> RecoveredUpTo(Disk(), |entries|, r.value, history) && ActiveIsTrue(r.value.active, Disk())
      ensures r.Ok? && r.value.active.Some? ==>
                && r.value.active.value.review in sidecar.journal
                && r.value.active.value.outcome == sidecar.journal[r.value.active.value.review].state
                && (r.value.active.value.failed <==> r.value.active.value.outcome == TerminalDenial)
      ensures old(Whole()) ==> Whole() && Along(old(Disk()), old(sidecar.fuse), Disk(), sidecar.fuse)
      ensures old(Whole()) && r.Err? ==> sidecar.fuse == 0 && NextWrite(Disk()).Some?
      ensures old(Whole()) && r.Ok? ==> RecoveredLast(Disk(), r.value.active)
    {
      hide Coherent, WorldReachable, Ledger, NextWrite, Along, Inv, SerialInv, Redo, Before, FoundOnDisk, FoundHere;
      hide RecoveredUpTo, IntentsAreApproved, Sound, RecoveredLast, ActiveIsTrue, SameIntents, SameMetas;
      hide AllRecorded, BoundAsRecorded, DecidedAsRecorded;
      ghost var d0, f0, n0 := Disk(), sidecar.fuse, |entries|;
      var found := Lineages(entries[0].meta.base, None, None);
      NoWrite(d0, f0);
      NothingIsRecovered(d0);
      SameIntentsRefl(d0.sidecar);
      SameMetasRefl(d0.entries);
      NothingRecorded(d0.entries, retained);
      for i := 0 to |entries|
        invariant Durable() && accepted == pointer && |entries| == n0
        invariant SameIntents(d0.sidecar, sidecar.Now()) && SameMetas(d0.entries, entries)
        invariant forall j :: 0 <= j < i && j < n0 - 1 ==> entries[j].decision.Some?
        invariant AllRecorded(entries, i)
        invariant RecoveredUpTo(Disk(), i, found, history) && ActiveIsTrue(found.active, Disk())
        invariant found.active.Some? ==>
                    && found.active.value.review in sidecar.journal
                    && found.active.value.outcome == sidecar.journal[found.active.value.review].state
                    && (found.active.value.failed <==> found.active.value.outcome == TerminalDenial)
        invariant old(Whole()) ==> Whole() && Along(d0, f0, Disk(), sidecar.fuse)
        invariant old(Whole()) && i < |entries| ==> Disk() == d0 && sidecar.fuse == f0
        invariant old(Whole()) && i == |entries| ==> RecoveredLast(Disk(), found.active)
      {
        ghost var d1 := Disk();
        RecoveredLogical(d1, i, found, history);
        var entry := RecoverEntry(i, found.logical);
        ghost var d2 := Disk();
        SameIntentsTrans(d0.sidecar, d1.sidecar, d2.sidecar);
        BringsNoMeta(d0.entries, d1.entries, d2.entries, i);
        if entry.Err? {
          return Err(entry.error);
        }
        RecoveredStays(d1, d2, i, found, history);
        if old(Whole()) && i == |entries| - 1 {
          FoundIsLast(d2, entry.value);
        }
        match entry.value {
          case Waiting(b, state) =>
            RecoveredWaiting(d2, i, found, history, b, state);
            UndecidedIsRecorded(entries[i]);
            OneMoreRecorded(d1.entries, entries, i);
            found := found.(active := Some(Active(entries[i].meta, b, state == TerminalDenial, state)));
          case OnRecord(decision) =>
            FoundIsRecorded(d2, i, decision);
            var expected := CompletionFor(entries[i].binding.value, decision);
            if entries[i].completion.Some? && entries[i].completion.value != expected {
              assert !old(Whole()) by {
                if old(Whole()) {
                  RecordAgrees(d2, i);
                }
              }
              return Err(InvalidPersistedState);
            }
            DecisionIsRecorded(entries[i], decision);
            OneMoreRecorded(d1.entries, entries, i);
            RecoveredDecision(d2, i, found, history, decision);
            history := history + [RecordOf(entries[i].meta, decision)];
            found := Advance(found, entries[i].meta, decision);
        }
      }
      return Ok(found);
    }

    /** Accepted may be one adoption behind. */
    method RecoverAccepted(found: Lineages) returns (r: Result<(), StudioError>)
      requires Durable() && accepted == pointer && entries != []
      requires RecoveredUpTo(Disk(), |entries|, found, history)
      modifies this`pointer, this`retained, this`accepted, sidecar`fuse
      ensures Durable() && (r.Ok? ==> accepted == pointer == Lineage(Disk()))
      ensures old(Whole()) ==> Whole() && Along(old(Disk()), old(sidecar.fuse), Disk(), sidecar.fuse)
      ensures old(Whole()) && r.Err? ==> sidecar.fuse == 0 && NextWrite(Disk()).Some?
    {
      hide Coherent, WorldReachable, Ledger, NextWrite, Along, Inv, SerialInv, Redo, Before, RecoveredUpTo;
      hide IntentsAreApproved;
      hide Lineage, Sound;
      ghost var d0, f0, w0 := Disk(), sidecar.fuse, AsWorld();
      NoWrite(d0, f0);
      RecoveredLineage(d0, found, history);
      if accepted != found.logical {
        if found.adopt == None || accepted != found.adopt.value.0 || found.logical != found.adopt.value.1 {
          return Err(InvalidPersistedState);
        }
        ghost var d1 :=
          d0.(accepted := found.logical,
              retained := d0.retained[found.logical.revision := found.logical.files]);
        CommitKeepsLedger(d0);
        SameLineage(d0, d1);
        if Coherent(d0) {
          RecordIsCommitted(d0);
          CommitIsOwed(d0, Final(d0).binding.value);
        }
        var ok := CommitRevision(found.logical);
        if pointer == d0.accepted && retained == d0.retained {
          assert Disk() == d0;
        } else {
          assert Disk() == d1;
          if Intact() {
            OwedInWorld(w0, d1);
          }
          if old(Whole()) {
            OneWrite(d0, f0);
          }
        }
        if !ok {
          return Err(StorageFailed);
        }
        accepted := found.logical;
      }
      return Ok(());
    }

    /** Every decision must result in a retained revision; missing completions are written. */
    method RecoverCompletions() returns (r: Result<(), StudioError>)
      requires Durable() && entries != [] && pointer == Lineage(Disk())
      modifies this`entries, sidecar`fuse
      ensures Durable() && SameRecords(old(entries), entries)
      ensures r.Ok? ==> AllKept(entries, |entries|, retained)
      ensures old(AllRecorded(entries, |entries|)) ==> AllRecorded(entries, |entries|)
      ensures old(Whole() && ReadyToComplete(Disk())) ==>
                Whole() && Along(old(Disk()), old(sidecar.fuse), Disk(), sidecar.fuse)
      ensures old(Whole() && ReadyToComplete(Disk())) && r.Err? ==> sidecar.fuse == 0 && NextWrite(Disk()).Some?
      ensures old(Whole() && ReadyToComplete(Disk())) && r.Ok? ==> NextWrite(Disk()) == None && ReadyToComplete(Disk())
    {
      hide Coherent, WorldReachable, Ledger, NextWrite, Along, Inv, SerialInv, Redo, Before, ReadyToComplete, Lineage;
      hide IntentsAreApproved, Sound, AllRecorded, AllKept;
      NothingRecorded(entries, retained);
      ghost var d0, f0, e0 := Disk(), sidecar.fuse, entries;
      NoWrite(d0, f0);
      for i := 0 to |entries|
        invariant Durable() && SameRecords(e0, entries) && pointer == Lineage(Disk())
        invariant old(Whole() && ReadyToComplete(Disk())) ==>
                    Whole() && Along(d0, f0, Disk(), sidecar.fuse) && ReadyToComplete(Disk())
        invariant AllKept(entries, i, retained)
        invariant old(AllRecorded(entries, |entries|)) ==> AllRecorded(entries, |entries|)
      {
        if entries[i].decision.Some? {
          var decision := entries[i].decision.value;
          ghost var d1, f1, w1 := Disk(), sidecar.fuse, AsWorld();
          if old(Whole() && ReadyToComplete(Disk())) {
            CompletionIsDue(d1, i);
          }
          if entries[i].binding == None || decision.resulting !in retained
             || retained[decision.resulting] != decision.receipt.reviewed {
            return Err(InvalidPersistedState);
          }
          var completion := CompletionFor(entries[i].binding.value, decision);
          if d1.entries[i].completion == None {
            UncompletedIsLatest(d1, i);
            CompletionIsAhead(d1, completion);
            CompletionIsOwed(d1, Final(d1).binding.value);
          }
          var ok := PersistCompletion(i, completion);
          CompletionIsRecorded(d1.entries, entries, i, completion, retained);
          if entries == d1.entries {
            assert Disk() == d1;
          } else {
            assert Disk() == SetFinal(d1, Final(d1).(completion := Some(completion)));
            if Intact() {
              OwedInWorld(w1, Disk());
            }
            if old(Whole() && ReadyToComplete(Disk())) {
              OneWrite(d1, f1);
              AlongTrans(d0, f0, d1, f1, Disk(), sidecar.fuse);
              StillReady(d1, Disk());
            }
          }
          if !ok {
            return Err(StorageFailed);
          }
        } else {
          UndecidedIsKept(entries, i, retained);
        }
      }
      KeptIsCompleted(entries, retained);
      if old(Whole() && ReadyToComplete(Disk())) {
        NothingLeft(Disk());
      }
      return Ok(());
    }

    /** A restart. What it does depends on the disk alone: a coherent one, however a crash or a failure left
        it and its journal, gets exactly the writes it owes, and recovery ends with nothing owed and with the
        memory a restart shows. A disk with two unfinished proposals is refused. */
    method Recover() returns (r: Result<(), StudioError>)
      requires Durable()
      modifies this, sidecar, approvals
      ensures Durable() && (r.Ok? ==> Live()) && orderly == old(orderly) && !gone
      ensures SameMetas(old(entries), entries)
      ensures approvals.issued == old(approvals.issued) && approvals.used == old(approvals.used)
              && approvals.grants == map[]
      ensures r.Ok? ==> Tidy(old(entries)) && Tidy(entries) && accepted == pointer
      ensures r.Ok? ==> forall j :: 0 <= j < |entries| ==>
                && BoundAsRecorded(entries[j]) && DecidedAsRecorded(entries[j])
                && (entries[j].decision.Some? ==> ResultIsKept(entries[j], retained))
      ensures r.Ok? && proposal.Some? ==>
                && IsOnDisk() && proposal.value.review in sidecar.journal
                && proposal.value.outcome == sidecar.journal[proposal.value.review].state
                && (proposal.value.failed <==> proposal.value.outcome == TerminalDenial)
      ensures r.Err? ==> r.error == InvalidPersistedState
      ensures old(Whole()) ==> Whole() && Along(old(Disk()), old(sidecar.fuse), Disk(), sidecar.fuse)
      ensures old(Whole()) ==>
                if r.Ok? then Disk() == Settled(old(Disk())) && InMemory() == Projection(Disk())
                else sidecar.fuse == 0 && NextWrite(Disk()).Some?
    {
      hide Coherent, WorldReachable, Ledger, NextWrite, Along, Inv, SerialInv, Redo, Before, RecoveredUpTo;
      hide ReadyToComplete, Lineage, Mirrors, Projection, Settled, HistoryOf, Sound, IntentsAreApproved, Quiet;
      hide RecoveredLast, Awaiting, SameIntents, SameMetas, BoundAsRecorded, DecidedAsRecorded, ResultIsKept;
      SameMetasRefl(entries);
      Forget();
      ghost var d0, f0 := Disk(), sidecar.fuse;
      if entries == [] {
        NothingIsQuiet(d0);
        if old(Whole()) {
          EmptyIsSettled(d0, f0);
        }
        return Ok(());
      }
      var found := RecoverEntries();
      if found.Err? {
        return Err(InvalidPersistedState);
      }
      ghost var d1, f1 := Disk(), sidecar.fuse;
      RecoveredWasTidy(d0, d1);
      var settled := RecoverRecords(found.value);
      RecordsKeepMetas(d0.entries, d1.entries, entries);
      if old(Whole()) {
        AlongTrans(d0, f0, d1, f1, Disk(), sidecar.fuse);
        SettledFromInside(d0, f0, d1, f1);
      }
      if settled.Err? {
        return Err(InvalidPersistedState);
      }
      return Ok(());
    }

    /** After the loop: Accepted, the completions, and the proposal that waits. */
    method RecoverRecords(found: Lineages) returns (r: Result<(), StudioError>)
      requires Durable() && accepted == pointer && proposal == None && !gone && approvals.grants == map[]
      requires entries != [] && RecoveredUpTo(Disk(), |entries|, found, history) && ActiveIsTrue(found.active, Disk())
      requires Exact() ==> RecoveredLast(Disk(), found.active)
      modifies this`entries, this`pointer, this`retained, this`accepted, this`proposal, sidecar`fuse
      ensures Durable() && SameRecords(old(entries), entries) && sidecar.Now() == old(sidecar.Now())
      ensures r.Ok? ==> Live() && proposal == found.active && accepted == pointer
      ensures r.Ok? ==> AllKept(entries, |entries|, retained)
      ensures old(AllRecorded(entries, |entries|)) ==> AllRecorded(entries, |entries|)
      ensures old(Whole() && RecoveredLast(Disk(), found.active)) ==>
                Whole() && Along(old(Disk()), old(sidecar.fuse), Disk(), sidecar.fuse)
      ensures old(Whole() && RecoveredLast(Disk(), found.active)) ==>
                if r.Ok? then Disk() == Settled(old(Disk())) && InMemory() == Projection(Disk())
                else sidecar.fuse == 0 && NextWrite(Disk()).Some?
    {
      hide Coherent, WorldReachable, Ledger, NextWrite, Along, Inv, SerialInv, Redo, Before, RecoveredUpTo;
      hide ReadyToComplete, Lineage, Mirrors, Projection, Settled, HistoryOf, Sound, IntentsAreApproved, Quiet;
      hide RecoveredLast, Awaiting, AllRecorded;
      ghost var d0, f0 := Disk(), sidecar.fuse;
      r := RecoverAccepted(found);
      if r.Err? {
        return;
      }
      ghost var d1, f1 := Disk(), sidecar.fuse;
      if old(RecoveredLast(Disk(), found.active)) {
        RecoveredIsReady(d0, d1, found.active);
      }
      r := RecoverCompletions();
      if old(Whole() && RecoveredLast(Disk(), found.active)) {
        AlongTrans(d0, f0, d1, f1, Disk(), sidecar.fuse);
      }
      if r.Err? {
        return;
      }
      KeptIsCompleted(entries, retained);
      hide AllKept;
      RecoveryIsSteady(d0, Disk(), found, history);
      if old(Whole() && RecoveredLast(Disk(), found.active)) {
        RecoveryShows(d0, f0, d0, Disk(), sidecar.fuse, found, history);
      }
      Show(found.active);
    }

    /** A restart after a new proposal came on disk, followed by any number of its writes, and undisturbed from
        then on: the project is recovered if and only if the proposal was not put on top of an unfinished one. */
    method RecoverPrepared(ghost d: Disk, ghost m: Meta, ghost k: nat) returns (r: Result<(), StudioError>)
      requires Durable() && Coherent(d) && Fresh(d, m)
      requires k < |Redo(Prepared(d, m))| && Disk() == Redo(Prepared(d, m))[k]
      requires sidecar.reliable && |Redo(Disk())| <= sidecar.fuse + 1
      modifies this, sidecar, approvals
      ensures Durable() && (r.Ok? <==> Idle(d))
      ensures if r.Ok? then Live() && Disk() == Settled(Prepared(d, m)) else r.error == InvalidPersistedState
    {
      hide Durable, Live, Coherent, Fresh, NextWrite, Redo, Idle, Settled, Projection;
      ghost var d0, f0 := Disk(), sidecar.fuse;
      StackIsWhole(d, m, k);
      r := Recover();
      if Idle(d) {
        EnoughIsSettled(d0, f0, Disk(), sidecar.fuse);
        SettledFromInside(Prepared(d, m), k, d0, 0);
      }
    }

    /** Two requests: where the first fails with its proposal on disk and the second one is put on top, the
        next restart refuses the project. */
    method StackProposals(one: ProposalRequest, two: ProposalRequest)
      returns (first: Result<(), StudioError>, second: Result<(), StudioError>, restart: Result<(), StudioError>)
      requires Live() && !sidecar.reliable && ValidOperationKey(one.id) && ValidOperationKey(two.id)
      requires one.id != two.id && one.planned != two.planned
      requires forall request :: request in [one, two] ==>
                 && request.planned !in retained && request.id !in sidecar.proposals
                 && IsNew(entries, request.id, request.planned)
      modifies this, sidecar, approvals
      ensures Durable()
      ensures |entries| == |old(entries)| + 2 ==> first.Err? && restart == Err(InvalidPersistedState)
    {
      hide Live, Durable, Coherent, Permits;
      first := CreateProposal(one);
      second := CreateProposal(two);
      restart := Recover();
    }

    /** After a removal that failed when its record had gone already: removing again fails, a new proposal is
        refused, and only a restart forgets the removed one. */
    method RestartAfterRemoval(id: OperationKey, review: Binding, request: ProposalRequest)
      returns (again: Result<(), StudioError>, created: Result<(), StudioError>, restart: Result<(), StudioError>)
      requires Live() && gone && ValidOperationKey(request.id)
      requires request.planned !in retained && request.id !in sidecar.proposals
               && IsNew(entries, request.id, request.planned)
      modifies this, sidecar, approvals
      ensures Durable() && again.Err? && created.Err?
      ensures restart.Ok? ==>
                Live() && !gone && (proposal.Some? ==> proposal.value.meta.id != old(proposal).value.meta.id)
    {
      hide Durable, Coherent, Permits, Mirrors, Quiet, Awaiting, Ledger, GrantsAreUnblocked;
      assert !HasRecord(proposal.value.meta.id);
      again := RemoveFailedProposal(id, review, id);
      created := CreateProposal(request);
      restart := Recover();
    }

    /** The memory of a new process; approvals are not persisted. */
    method Forget()
      requires Durable()
      modifies this`accepted, this`proposal, this`history, this`gone, approvals
      ensures Durable() && Disk() == old(Disk()) && accepted == pointer && proposal == None && history == [] && !gone
      ensures approvals.issued == old(approvals.issued) && approvals.used == old(approvals.used)
              && approvals.grants == map[]
    {
      hide Coherent, WorldReachable, Ledger, Inv, SerialInv, Sound, IntentsAreApproved;
      ghost var w0 := AsWorld();
      if Intact() {
        ActIsReachable(w0, Restart);
      }
      approvals.Forget();
      accepted, proposal, history, gone := pointer, None, [], false;
      assert AsWorld() == w0.(grants := map[], permission := None);
    }
  }
}
