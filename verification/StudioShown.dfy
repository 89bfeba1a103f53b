/** What memory shows of a disk, and what a decision leaves on it, field by field. */
module StudioShown {
  import opened Base
  import opened Synapse
  import opened SerialRuns
  import opened StudioDisk
  import opened StudioInvariant
  import opened StudioSteps
  import opened StudioLaws
  import opened CrashRefinement
  import opened StudioCalls
  import opened StudioMemory

  /** A record of the history speaks of its proposal and of nothing else. */
  predicate IsRecordOf(h: HistoryRecord, e: Entry)
  {
    && e.binding.Some? && e.decision.Some?
    && h.id == e.meta.id && h.review == e.binding.value && h.base == e.meta.base && h.files == e.meta.files
    && h.receipt == e.decision.value.receipt
    && (h.receipt.selectsProposal <==> h.receipt.disposition == AdoptedUnchanged)
    && if h.receipt.disposition == AdoptedUnchanged
       then h.resulting == e.meta.planned && h.receipt.reviewed == e.meta.files
       else h.resulting == e.meta.base.revision && h.receipt.reviewed == e.meta.base.files
  }

  lemma RecordIsOfEntry(d: Disk, i: nat)
    requires Coherent(d) && i < |d.entries| && d.entries[i].decision.Some?
    ensures IsRecordOf(RecordOf(d.entries[i].meta, d.entries[i].decision.value), d.entries[i])
  {
    hide Coherent;
    RecordAgrees(d, i);
  }

  lemma {:induction false} HistorySays(d: Disk, n: nat)
    requires Coherent(d) && n <= |d.entries| && forall i :: 0 <= i < n ==> d.entries[i].decision.Some?
    ensures |HistoryOf(d.entries, n)| == n
    ensures forall k :: 0 <= k < n ==> IsRecordOf(HistoryOf(d.entries, n)[k], d.entries[k])
    decreases n
  {
    hide Coherent, IsRecordOf;
    if n > 0 {
      HistorySays(d, n - 1);
      RecordIsOfEntry(d, n - 1);
    }
  }

  /** Memory after a restart: the Accepted revision; one record for every completed proposal, in order; and the
      latest proposal while it is bound and not completed, with the state the journal gives its review. */
  lemma ProjectionSays(d: Disk)
    requires Coherent(d)
    ensures var m := Projection(d);
            var n := |d.entries|;
            var open := n > 0 && Final(d).completion == None;
            && m.accepted == d.accepted
            && |m.history| == (if open then n - 1 else n)
            && (forall k :: 0 <= k < |m.history| ==> IsRecordOf(m.history[k], d.entries[k]))
            && (m.proposal.Some? <==> open && Final(d).binding.Some?)
            && (m.proposal.Some? ==>
                  var p := m.proposal.value;
                  && p.meta == Final(d).meta && Some(p.review) == Final(d).binding && p.review in d.sidecar.journal
                  && p.outcome == d.sidecar.journal[p.review].state && (p.failed <==> p.outcome == TerminalDenial))
  {
    hide Coherent, IsRecordOf, HistoryOf;
    EarlierAreDecided(d);
    HistorySays(d, if d.entries == [] || Final(d).completion.Some? then |d.entries| else |d.entries| - 1);
    if d.entries != [] && Final(d).binding.Some? {
      FinalIsReviewed(d);
    }
  }

  lemma FinalIsReviewed(d: Disk)
    requires Coherent(d) && d.entries != [] && Final(d).binding.Some?
    ensures Final(d).binding.value in d.sidecar.journal
  {
    hide Coherent, Inv, SerialInv;
    EntryAt(d, |d.entries| - 1);
  }

  lemma NewProposalIsShown(d: Disk)
    requires Coherent(d) && Awaiting(d)
    ensures Final(d).binding.value in d.sidecar.journal
    ensures d.sidecar.journal[Final(d).binding.value].state == PendingReview
  {
    hide Coherent, AcceptedOk, LineageOk, EntriesOk, RefsOk, Inv, SerialInv;
    FinalOk(d);
  }

  lemma NothingOwedNothingWritten(d: Disk, fuse: nat, t: Disk, left: nat)
    requires Along(d, fuse, t, left) && Redo(d) == [d]
    ensures t == d
  {
  }

  /** A proposal that waits for its decision is owed nothing, and reconciled memory shows it as pending. */
  lemma WaitingIsReconciled(d: Disk, m: Memory)
    requires Awaiting(d) && Coherent(d) && Mirrors(d, m) && m.proposal.Some?
    ensures Redo(d) == [d] && m.accepted == d.accepted
    ensures Projection(d) == m.(proposal := Some(m.proposal.value.(outcome := PendingReview, failed := false)))
  {
    hide Coherent, HistoryOf;
    AwaitingOwesNothing(d);
    NewProposalIsShown(d);
    FinalIsOpen(d);
  }

  lemma FinalIsOpen(d: Disk)
    requires Coherent(d) && Awaiting(d)
    ensures Final(d).completion == None
  {
    hide Coherent, AcceptedOk, LineageOk, EntriesOk, RefsOk, Inv, SerialInv, MetaOk, Lineage, Before, Trails;
    FinalOk(d);
  }

  /** Memory that mirrors the disk and shows its proposal as the journal has it is what a restart shows. */
  lemma MirrorsIsProjection(d: Disk, m: Memory)
    requires Mirrors(d, m)
    requires m.proposal.Some? ==>
               && m.proposal.value.review in d.sidecar.journal
               && m.proposal.value.outcome == d.sidecar.journal[m.proposal.value.review].state
               && (m.proposal.value.failed <==> m.proposal.value.outcome == TerminalDenial)
    ensures m == Projection(d)
  {
    hide HistoryOf;
  }

  /** A new proposal, bound and waiting: memory shows it as a restart would, and nothing is owed. */
  lemma NewProposalShows(d: Disk, m: Meta, memory: Memory, start: Disk, fuse: nat, t: Disk, left: nat, b: Binding)
    requires Mirrors(d, memory) && memory.proposal == None && Idle(d) && Awaiting(t) && Coherent(t)
    requires |t.entries| == |d.entries| + 1 && t.entries[..|d.entries|] == d.entries && t.accepted == d.accepted
    requires Final(t).meta == m && Final(t).binding == Some(b) && Along(start, fuse, t, left)
    ensures var after := memory.(proposal := Some(Active(m, b, false, PendingReview)));
            Mirrors(t, after) && after == Projection(t)
    ensures t == Settled(start)
  {
    hide Coherent, HistoryOf, Along, Redo, Projection;
    NewProposalMirrors(d, m, memory, t, b);
    AwaitingIsSettled(start, fuse, t, left);
    NewProposalIsShown(t);
    MirrorsIsProjection(t, memory.(proposal := Some(Active(m, b, false, PendingReview))));
  }

  /** What a decision leaves: one commit on top of the expected head, with the proposed files if it adopts and
      the Accepted ones otherwise; its review committed; the decision and its completion on record; and
      Accepted and the retained revisions moved by an adoption only. */
  lemma DecisionSays(d: Disk, disposition: Disposition, key: Bytes)
    requires Coherent(d) && MayRegister(d, disposition)
    ensures var t := AfterDecision(d, disposition, key);
            var m, b := Final(d).meta, Final(d).binding.value;
            var adopts := disposition == AdoptedUnchanged;
            var s, u := d.sidecar, t.sidecar;
            && |t.entries| == |d.entries| && t.entries[..|d.entries| - 1] == d.entries[..|d.entries| - 1]
            && Final(t).meta == m && Final(t).binding == Some(b) && Final(t).decision.Some? && Final(t).completion.Some?
            && (var r := Final(t).decision.value;
                && r.review == b && r.base == m.base && r.resulting == (if adopts then m.planned else m.base.revision)
                && r.receipt.disposition == disposition && (r.receipt.selectsProposal <==> adopts)
                && r.receipt.reviewed == (if adopts then m.files else m.base.files)
                && Final(t).completion.value.review == b && Final(t).completion.value.resulting == r.resulting
                && Final(t).completion.value.receipt == r.receipt)
            && t.accepted == (if adopts then Site(m.planned, m.files) else d.accepted)
            && t.retained == (if adopts then d.retained[m.planned := m.files] else d.retained)
            && u.proposals == s.proposals && |u.reflog| == |s.reflog| + 1 && u.reflog[..|s.reflog|] == s.reflog
            && Head(u).parents == [b.expected] && Head(u).site == (if adopts then m.files else d.accepted.files)
            && b in s.journal && b in u.journal && u.journal[b].state == DecisionCommitted
            && u.journal[b].intent.Some? && u.journal[b].intent.value.key == key
            && u.journal[b].intent.value.candidate == Head(u)
            && (forall x :: x in u.journal <==> x in s.journal)
            && (forall x :: x in s.journal && x != b ==> u.journal[x] == s.journal[x])
  {
    hide Coherent, AcceptedOk, LineageOk, EntriesOk, RefsOk, Inv, SerialInv, MetaOk, Lineage, Before, Trails;
    FinalOk(d);
    AwaitingFacts(d, disposition, key);
    HeadIsAccepted(d);
    AcceptedIsBase(d);
    FinalIsBound(d);
  }

  lemma FinalIsBound(d: Disk)
    requires Coherent(d) && Awaiting(d)
    ensures |d.sidecar.reflog| == |d.entries| && Final(d).decision == None
    ensures Final(d).binding.value == BindingFor(Final(d).meta, d.sidecar.reflog[|d.entries| - 1])
  {
    hide Coherent, AcceptedOk, LineageOk, EntriesOk, RefsOk, Inv, SerialInv, MetaOk, Lineage, Before, Trails;
    FinalOk(d);
  }
}
