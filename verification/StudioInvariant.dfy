/** What holds of the durable state of a project after every single write. */
module StudioInvariant {
  import opened Base
  import opened ChangeSetLaws
  import opened Synapse
  import opened SerialRuns
  import opened SidecarSpec
  import opened SidecarTheorems
  import opened StudioDisk

  // ---- The lineage ----

  predicate Adopts(e: Entry) { e.decision.Some? && e.decision.value.receipt.disposition == AdoptedUnchanged }

  /** What the decisions recorded for the first `i` proposals make of the imported site. */
  function Before(first: Site, entries: seq<Entry>, i: nat): Site
    requires i <= |entries|
  {
    if i == 0 then first
    else if Adopts(entries[i - 1]) then Site(entries[i - 1].meta.planned, entries[i - 1].meta.files)
    else Before(first, entries, i - 1)
  }

  function Lineage(d: Disk): Site { Before(d.first, d.entries, |d.entries|) }

  ghost predicate MetaOk(rules: Rules, m: Meta, base: Site)
  {
    m.base == base && m.planned != base.revision && Permits(rules, m.ops, base.files, m.files)
      && ValidOperationKey(m.id)
  }

  ghost predicate LineageOk(d: Disk)
  {
    forall i :: 0 <= i < |d.entries| ==> MetaOk(d.rules, d.entries[i].meta, Before(d.first, d.entries, i))
  }

  /** Accepted trails the recorded decisions by at most the last one, and only until that completes. */
  predicate Trails(d: Disk)
  {
    d.entries != [] && Adopts(Final(d)) && Final(d).completion == None
      && d.accepted == Before(d.first, d.entries, |d.entries| - 1)
  }

  ghost predicate AcceptedOk(d: Disk)
  {
    && (d.accepted == Lineage(d) || Trails(d))
    && d.accepted.revision in d.retained && d.retained[d.accepted.revision] == d.accepted.files
    && (forall i :: 0 <= i < |d.entries| ==> IsRetained(d, Before(d.first, d.entries, i)))
    && (forall i :: 0 <= i < |d.entries| ==> IsAhead(d, i))
  }

  /** The planned revision of a proposal does not exist before it is committed. */
  predicate IsAhead(d: Disk, i: nat)
    requires i < |d.entries|
  {
    d.entries[i].completion == None && (i == |d.entries| - 1 ==> d.accepted.revision != d.entries[i].meta.planned) ==>
      d.entries[i].meta.planned !in d.retained
  }

  predicate IsRetained(d: Disk, site: Site)
  {
    site.revision in d.retained && d.retained[site.revision] == site.files
  }

  // ---- The entries and the repository ----

  function HeadFor(m: Meta, base: Commit): Commit { ProposalCommit(m.id, base, m.files, m.context, m.recordedAt) }

  function BindingFor(m: Meta, base: Commit): Binding { Binding(m.id, HeadFor(m, base), base) }

  /** Not bound yet: the repository has seen some of begin_proposal's writes, in order. */
  predicate UnboundOk(s: State, i: nat, e: Entry)
  {
    && e.decision == None && e.completion == None
    && if s.reflog == [] then i == 0 && e.meta.id !in s.proposals
       else
         && |s.reflog| == i + 1
         && (e.meta.id in s.proposals ==> s.proposals[e.meta.id] == HeadFor(e.meta, s.reflog[i]))
         && var b := BindingFor(e.meta, s.reflog[i]);
            b in s.journal ==> e.meta.id in s.proposals && s.journal[b] == Review(PendingReview, None)
  }

  /** Undecided, whatever has become of its review: pending, to be retried, unknown or denied. */
  predicate UndecidedOk(s: State, i: nat, e: Entry, review: Review)
  {
    && e.decision == None && e.completion == None && |s.reflog| == i + 1
    && (review.intent == None ==> review.state == PendingReview)
  }

  predicate DecidedOk(s: State, i: nat, e: Entry, b: Binding, intent: Intent, state: ReviewState)
  {
    && i + 1 < |s.reflog| && s.reflog[i + 1] == intent.candidate
    && state != TerminalDenial
    && (e.decision.Some? ==>
         state == DecisionCommitted && e.decision.value == DecisionFor(e.meta, b, ReceiptOf(b, intent)))
    && (e.completion.Some? ==> e.decision.Some? && e.completion.value == CompletionFor(b, e.decision.value))
  }

  predicate BoundOk(s: State, i: nat, e: Entry, b: Binding)
  {
    && i < |s.reflog| && b == BindingFor(e.meta, s.reflog[i]) && b in s.journal
    && (s.journal[b].intent.Some? && DispositionOf(s.journal[b].intent.value) == AdoptedUnchanged ==> !e.meta.blocked)
    && if s.journal[b].intent.Some? && s.journal[b].intent.value.candidate in s.reflog
       then DecidedOk(s, i, e, b, s.journal[b].intent.value, s.journal[b].state)
       else UndecidedOk(s, i, e, s.journal[b])
  }

  predicate EntryOk(s: State, i: nat, e: Entry)
  {
    if e.binding == None then UnboundOk(s, i, e) else BoundOk(s, i, e, e.binding.value)
  }

  ghost predicate EntriesOk(d: Disk)
  {
    && (forall i :: 0 <= i < |d.entries| ==> EntryOk(d.sidecar, i, d.entries[i]))
    && Tidy(d.entries) && NamesOk(d.entries)
  }

  /** Only the latest proposal is unfinished. */
  predicate Tidy(entries: seq<Entry>)
  {
    forall i :: 0 <= i < |entries| - 1 ==> entries[i].completion.Some?
  }

  /** Identifiers and planned revisions do not repeat. */
  ghost predicate NamesOk(entries: seq<Entry>)
  {
    forall i, j :: 0 <= i < j < |entries| ==>
      entries[i].meta.id != entries[j].meta.id && entries[i].meta.planned != entries[j].meta.planned
  }

  ghost predicate Known(d: Disk, k: OperationKey)
  {
    exists i :: 0 <= i < |d.entries| && d.entries[i].meta.id == k
  }

  /** The proposal was denied; its record may have been removed since, its ref never is. */
  predicate IsDenied(s: State, k: OperationKey)
  {
    k in s.proposals && |s.proposals[k].parents| == 1 && Denied(s, k)
  }

  ghost predicate RefsOk(d: Disk)
  {
    && (forall k :: k in d.sidecar.proposals ==> Known(d, k) || IsDenied(d.sidecar, k))
    && |d.sidecar.reflog| <= |d.entries| + 1
    && (d.sidecar.reflog != [] ==> d.sidecar.reflog[0].site == d.first.files)
  }

  ghost predicate Coherent(d: Disk)
  {
    Healthy(d.sidecar) && EntriesOk(d) && RefsOk(d) && LineageOk(d) && AcceptedOk(d)
  }

  lemma ImportedIsCoherent(rules: Rules, first: Site)
    ensures Coherent(Imported(rules, first))
  {
  }

  // ---- Frames ----

  lemma CompletedStays(s: State, t: State, i: nat, e: Entry)
    requires e.completion.Some? && EntryOk(s, i, e) && Evolves(s, t)
    ensures EntryOk(t, i, e)
  {
    var b := e.binding.value;
    assert DecidedOk(s, i, e, b, s.journal[b].intent.value, s.journal[b].state);
    assert t.reflog[i] == s.reflog[i] && t.reflog[i + 1] == s.reflog[i + 1];
    assert ReviewAdvances(s.journal[b], t.journal[b]);
  }

  lemma OthersStay(d: Disk, t: State)
    requires EntriesOk(d) && Evolves(d.sidecar, t) && d.entries != []
    requires EntryOk(t, |d.entries| - 1, Final(d))
    ensures EntriesOk(d.(sidecar := t))
  {
    hide EntryOk, Evolves;
    forall i | 0 <= i < |d.entries| - 1
      ensures EntryOk(t, i, d.entries[i])
    {
      CompletedStays(d.sidecar, t, i, d.entries[i]);
    }
  }

  /** A write to the repository or the journal concerns the final entry only. */
  lemma SidecarWriteKeeps(d: Disk, t: State)
    requires Coherent(d) && Healthy(t) && Evolves(d.sidecar, t) && d.entries != []
    requires EntryOk(t, |d.entries| - 1, Final(d)) && RefsOk(d.(sidecar := t))
    ensures Coherent(d.(sidecar := t))
  {
    hide Healthy, EntryOk, EntriesOk, Evolves, RefsOk, AcceptedOk, LineageOk;
    OthersStay(d, t);
    AcceptedIgnoresSidecar(d, t);
  }

  lemma AcceptedIgnoresSidecar(d: Disk, t: State)
    requires AcceptedOk(d) && LineageOk(d)
    ensures AcceptedOk(d.(sidecar := t)) && LineageOk(d.(sidecar := t))
  {
    hide Before, MetaOk;
    var x := d.(sidecar := t);
    assert x.first == d.first && x.entries == d.entries;
    assert forall i :: 0 <= i < |d.entries| ==> (IsAhead(x, i) <==> IsAhead(d, i));
    assert forall i :: 0 <= i < |d.entries| ==>
             (IsRetained(x, Before(d.first, d.entries, i)) <==> IsRetained(d, Before(d.first, d.entries, i)));
  }

  lemma {:induction false} BeforeStays(first: Site, entries: seq<Entry>, other: seq<Entry>, i: nat)
    requires i <= |entries| && i <= |other| && entries[..i] == other[..i]
    ensures Before(first, entries, i) == Before(first, other, i)
    decreases i
  {
    if i > 0 {
      assert entries[i - 1] == entries[..i][i - 1] == other[i - 1];
      assert entries[..i - 1] == entries[..i][..i - 1] == other[..i - 1];
      BeforeStays(first, entries, other, i - 1);
    }
  }

  /** Recording a fact about the final proposal leaves the earlier ones alone. */
  lemma RecordKeeps(d: Disk, e: Entry)
    requires Coherent(d) && d.entries != [] && e.meta == Final(d).meta
    requires EntryOk(d.sidecar, |d.entries| - 1, e)
    requires e.completion == Final(d).completion || e.completion.Some?
    requires Adopts(e) == Adopts(Final(d)) || (Adopts(e) && e.completion == None)
    requires Adopts(e) && Adopts(Final(d)) && e.completion.Some? ==> d.accepted == Lineage(d)
    ensures Coherent(SetFinal(d, e))
  {
    hide Healthy, EntryOk, EntriesOk, RefsOk, AcceptedOk, LineageOk, Adopts;
    RecordKeepsEntries(d, e);
    RecordKeepsRefs(d, e);
    RecordKeepsLineage(d, e);
    RecordKeepsAccepted(d, e);
  }

  lemma RecordKeepsEntries(d: Disk, e: Entry)
    requires EntriesOk(d) && d.entries != [] && e.meta == Final(d).meta
    requires EntryOk(d.sidecar, |d.entries| - 1, e)
    ensures EntriesOk(SetFinal(d, e))
  {
    hide EntryOk;
  }

  lemma RecordKeepsLineage(d: Disk, e: Entry)
    requires LineageOk(d) && d.entries != [] && e.meta == Final(d).meta
    ensures LineageOk(SetFinal(d, e))
    ensures forall i :: 0 <= i < |d.entries| ==>
              Before(d.first, SetFinal(d, e).entries, i) == Before(d.first, d.entries, i)
  {
    hide Before, MetaOk;
    var x := SetFinal(d, e);
    forall i | 0 <= i < |d.entries|
      ensures Before(d.first, x.entries, i) == Before(d.first, d.entries, i)
      ensures MetaOk(d.rules, x.entries[i].meta, Before(d.first, x.entries, i))
    {
      assert d.entries[..i] == x.entries[..i];
      BeforeStays(d.first, d.entries, x.entries, i);
      assert MetaOk(d.rules, d.entries[i].meta, Before(d.first, d.entries, i));
    }
  }

  lemma RecordKeepsRefs(d: Disk, e: Entry)
    requires RefsOk(d) && d.entries != [] && e.meta == Final(d).meta
    ensures RefsOk(SetFinal(d, e))
  {
    forall k | k in d.sidecar.proposals
      ensures Known(SetFinal(d, e), k) || IsDenied(d.sidecar, k)
    {
      if Known(d, k) {
        var i :| 0 <= i < |d.entries| && d.entries[i].meta.id == k;
        assert SetFinal(d, e).entries[i].meta.id == k;
      }
    }
  }

  lemma RecordKeepsAccepted(d: Disk, e: Entry)
    requires AcceptedOk(d) && d.entries != [] && e.meta == Final(d).meta
    requires e.completion == Final(d).completion || e.completion.Some?
    requires forall i :: 0 <= i < |d.entries| ==>
               Before(d.first, SetFinal(d, e).entries, i) == Before(d.first, d.entries, i)
    requires Adopts(e) == Adopts(Final(d)) || (Adopts(e) && e.completion == None)
    requires Adopts(e) && Adopts(Final(d)) && e.completion.Some? ==> d.accepted == Lineage(d)
    ensures AcceptedOk(SetFinal(d, e))
  {
    var n := |d.entries|;
    var x := SetFinal(d, e);
    assert Final(x) == e;
    assert Lineage(x) == if Adopts(e) then Site(e.meta.planned, e.meta.files) else Before(d.first, d.entries, n - 1);
    assert Lineage(d) == if Adopts(Final(d)) then Site(e.meta.planned, e.meta.files)
           else Before(d.first, d.entries, n - 1);
    hide Before, Lineage, Adopts;
    forall i | 0 <= i < n
      ensures IsRetained(x, Before(x.first, x.entries, i))
      ensures IsAhead(x, i)
    {
      assert IsRetained(d, Before(d.first, d.entries, i)) && IsAhead(d, i);
    }
  }
}
