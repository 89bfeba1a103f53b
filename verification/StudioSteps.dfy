/** Every durable write the Studio makes keeps its state coherent. */
module StudioSteps {
  import opened Base
  import opened Synapse
  import opened SerialRuns
  import opened SidecarSpec
  import opened SidecarTheorems
  import opened StudioDisk
  import opened StudioInvariant

  lemma FinalOk(d: Disk)
    requires Coherent(d) && d.entries != []
    ensures EntryOk(d.sidecar, |d.entries| - 1, Final(d)) && Healthy(d.sidecar)
    ensures RefsOk(d) && EntriesOk(d) && AcceptedOk(d) && LineageOk(d)
  {
  }

  lemma RefsFrame(d: Disk, t: State)
    requires RefsOk(d) && d.sidecar.reflog <= t.reflog && |t.reflog| <= |d.entries| + 1 && d.entries != []
    requires d.sidecar.reflog != [] && forall k :: k in t.proposals ==>
               k in d.sidecar.proposals || k == Final(d).meta.id
    requires Evolves(d.sidecar, t)
    ensures RefsOk(d.(sidecar := t))
  {
    var x := d.(sidecar := t);
    forall k | k in t.proposals
      ensures Known(x, k) || IsDenied(t, k)
    {
      if k !in d.sidecar.proposals {
        assert x.entries[|d.entries| - 1].meta.id == k;
      } else if Known(d, k) {
        var i :| 0 <= i < |d.entries| && d.entries[i].meta.id == k;
        assert x.entries[i].meta.id == k;
      } else {
        DenialStays(d.sidecar, t, k);
      }
    }
  }

  lemma DenialStays(s: State, t: State, k: OperationKey)
    requires IsDenied(s, k) && Evolves(s, t)
    ensures IsDenied(t, k)
  {
    var b := Binding(k, s.proposals[k], s.proposals[k].parents[0]);
    assert ReviewAdvances(s.journal[b], t.journal[b]);
  }

  // ---- Binding a proposal ----

  lemma UnboundSeesFirst(d: Disk)
    requires AcceptedOk(d) && |d.entries| == 1 && Final(d).decision == None
    ensures d.accepted.files == d.first.files
  {
    assert Lineage(d) == Before(d.first, d.entries, 0);
  }

  lemma BootstrapKeeps(d: Disk)
    requires Coherent(d) && d.entries != [] && Final(d).binding == None && d.sidecar.reflog == []
    ensures Coherent(BindNext(d)) && Evolves(d.sidecar, BindNext(d).sidecar)
  {
    hide Coherent, AcceptedOk, LineageOk, EntriesOk, RefsOk, Inv, SerialInv, MetaOk, Evolves, Lineage, Before, Trails;
    FinalOk(d);
    UnboundSeesFirst(d);
    EmptyStoreIsEmpty(d.sidecar);
    var base := BaseCommit(d.accepted.files, Final(d).meta.recordedAt);
    WriteIsHealthy(d.sidecar, InitializeDecisionRef(base));
    BootstrapRefs(d, base);
    SidecarWriteKeeps(d, d.sidecar.(reflog := [base]));
  }

  lemma BootstrapRefs(d: Disk, base: Commit)
    requires RefsOk(d) && d.sidecar.reflog == [] && base.site == d.first.files && d.entries != []
    requires forall k :: k !in d.sidecar.proposals
    ensures RefsOk(d.(sidecar := d.sidecar.(reflog := [base])))
  {
  }

  ghost predicate IsCompleted(d: Disk, k: OperationKey)
  {
    exists j :: 0 <= j < |d.entries| && d.entries[j].meta.id == k && d.entries[j].completion.Some?
  }

  /** All earlier proposals are decided or denied, so none is open. */
  lemma NothingOpen(d: Disk)
    requires Coherent(d) && forall k :: k in d.sidecar.proposals ==> IsCompleted(d, k) || IsDenied(d.sidecar, k)
    ensures forall k :: k in d.sidecar.proposals ==> !Open(d.sidecar, k)
  {
    forall k | k in d.sidecar.proposals
      ensures !Open(d.sidecar, k)
    {
      if IsCompleted(d, k) {
        var j :| 0 <= j < |d.entries| && d.entries[j].meta.id == k && d.entries[j].completion.Some?;
        assert EntryOk(d.sidecar, j, d.entries[j]);
        CompletedIsClosed(d.sidecar, j, d.entries[j]);
      }
    }
  }

  lemma CompletedIsClosed(s: State, j: nat, e: Entry)
    requires Healthy(s) && EntryOk(s, j, e) && e.completion.Some?
    ensures !Open(s, e.meta.id)
  {
    var b := e.binding.value;
    SoundReview(s, b);
    hide Inv, SerialInv;
    PublishedMeansDecided(s, b);
  }

  lemma EarlierRefsComplete(d: Disk)
    requires RefsOk(d) && EntriesOk(d) && d.entries != []
    requires Final(d).meta.id !in d.sidecar.proposals || Final(d).completion.Some?
    ensures forall k :: k in d.sidecar.proposals ==> IsCompleted(d, k) || IsDenied(d.sidecar, k)
  {
    hide EntryOk;
    forall k | k in d.sidecar.proposals
      ensures IsCompleted(d, k) || IsDenied(d.sidecar, k)
    {
      assert Known(d, k) || IsDenied(d.sidecar, k);
    }
  }

  lemma RefKeeps(d: Disk)
    requires Coherent(d) && d.entries != [] && Final(d).binding == None
    requires d.sidecar.reflog != [] && Final(d).meta.id !in d.sidecar.proposals
    ensures Coherent(BindNext(d)) && Evolves(d.sidecar, BindNext(d).sidecar)
    ensures forall k :: k in d.sidecar.proposals ==> !Open(d.sidecar, k)
  {
    FinalOk(d);
    EarlierRefsComplete(d);
    NothingOpen(d);
    hide AcceptedOk, LineageOk, EntriesOk, RefsOk, Inv, SerialInv, MetaOk, Evolves, Open;
    var s, m := d.sidecar, Final(d).meta;
    var head := ProposalCommit(m.id, Head(s), m.files, m.context, m.recordedAt);
    WriteIsHealthy(s, CreateProposalRef(m.id, head));
    var t := s.(proposals := s.proposals[m.id := head]);
    RefsFrame(d, t);
    assert EntryOk(t, |d.entries| - 1, Final(d));
    SidecarWriteKeeps(d, t);
  }

  lemma ReviewKeeps(d: Disk)
    requires Coherent(d) && d.entries != [] && Final(d).binding == None
    requires d.sidecar.reflog != [] && Final(d).meta.id in d.sidecar.proposals
    requires BindingFor(Final(d).meta, Head(d.sidecar)) !in d.sidecar.journal
    ensures Coherent(BindNext(d)) && Evolves(d.sidecar, BindNext(d).sidecar)
  {
    hide Coherent, AcceptedOk, LineageOk, EntriesOk, RefsOk, Inv, SerialInv, MetaOk, Evolves, Lineage, Before, Trails;
    FinalOk(d);
    var s := d.sidecar;
    var b := BindingFor(Final(d).meta, Head(s));
    WriteIsHealthy(s, CreateReview(b));
    var t := s.(journal := s.journal[b := Review(PendingReview, None)]);
    RefsFrame(d, t);
    SidecarWriteKeeps(d, t);
  }

  lemma BindKeeps(d: Disk)
    requires Coherent(d) && d.entries != [] && Final(d).binding == None
    requires d.sidecar.reflog != [] && Final(d).meta.id in d.sidecar.proposals
    requires BindingFor(Final(d).meta, Head(d.sidecar)) in d.sidecar.journal
    ensures Coherent(BindNext(d)) && BindNext(d).sidecar == d.sidecar
    ensures Final(BindNext(d)).binding == Some(BindingFor(Final(d).meta, Head(d.sidecar)))
  {
    hide Coherent, AcceptedOk, LineageOk, EntriesOk, RefsOk, Inv, SerialInv, MetaOk, Evolves, Lineage, Before, Trails;
    FinalOk(d);
    var b := BindingFor(Final(d).meta, Head(d.sidecar));
    RecordKeeps(d, Final(d).(binding := Some(b)));
  }

  lemma BindNextKeeps(d: Disk)
    requires Coherent(d) && d.entries != [] && Final(d).binding == None
    ensures Coherent(BindNext(d)) && Evolves(d.sidecar, BindNext(d).sidecar)
  {
    FinalOk(d);
    hide Coherent, Inv, SerialInv, Evolves, BindNext;
    EvolvesRefl(d.sidecar);
    if d.sidecar.reflog == [] {
      BootstrapKeeps(d);
    } else if Final(d).meta.id !in d.sidecar.proposals {
      RefKeeps(d);
    } else if BindingFor(Final(d).meta, Head(d.sidecar)) !in d.sidecar.journal {
      ReviewKeeps(d);
    } else {
      BindKeeps(d);
    }
  }

  // ---- Carrying a decision through ----

  lemma PublishKeeps(d: Disk)
    requires Coherent(d) && d.entries != [] && Final(d).binding.Some?
    requires var s, b := d.sidecar, Final(d).binding.value;
             b in s.journal && s.journal[b].intent.Some? && s.journal[b].intent.value.candidate !in s.reflog
             && s.journal[b].state != TerminalDenial
    ensures var s, b := d.sidecar, Final(d).binding.value;
            var t := s.(reflog := s.reflog + [s.journal[b].intent.value.candidate]);
            Coherent(d.(sidecar := t)) && Evolves(s, t)
  {
    hide Coherent, AcceptedOk, LineageOk, EntriesOk, RefsOk, Inv, SerialInv, MetaOk, Evolves, Lineage, Before, Trails;
    FinalOk(d);
    var s, b := d.sidecar, Final(d).binding.value;
    PublicationIsHealthy(s, b);
    var t := s.(reflog := s.reflog + [s.journal[b].intent.value.candidate]);
    RefsFrame(d, t);
    assert t.reflog[|s.reflog|] == s.journal[b].intent.value.candidate;
    SidecarWriteKeeps(d, t);
  }

  lemma MarkKeeps(d: Disk)
    requires Coherent(d) && d.entries != [] && Final(d).binding.Some?
    requires var s, b := d.sidecar, Final(d).binding.value;
             b in s.journal && s.journal[b].intent.Some? && s.journal[b].intent.value.candidate in s.reflog
    ensures var t := Marked(d.sidecar, Final(d).binding.value, DecisionCommitted);
            Coherent(d.(sidecar := t)) && Evolves(d.sidecar, t)
  {
    hide Coherent, AcceptedOk, LineageOk, EntriesOk, RefsOk, Inv, SerialInv, MetaOk, Evolves, Lineage, Before, Trails;
    FinalOk(d);
    var s, b := d.sidecar, Final(d).binding.value;
    MarkingIsHealthy(s, b);
    var t := Marked(s, b, DecisionCommitted);
    RefsFrame(d, t);
    SidecarWriteKeeps(d, t);
  }

  lemma DecisionKeeps(d: Disk)
    requires Coherent(d) && d.entries != [] && Final(d).binding.Some? && Final(d).decision == None
    requires var s, b := d.sidecar, Final(d).binding.value;
             && b in s.journal && s.journal[b].intent.Some? && s.journal[b].intent.value.candidate in s.reflog
             && s.journal[b].state == DecisionCommitted
    ensures var b := Final(d).binding.value;
            Coherent(SetFinal(d,
                Final(d).(decision := Some(DecisionFor(Final(d).meta, b,
                    ReceiptOf(b, d.sidecar.journal[b].intent.value))))))
  {
    hide Coherent, AcceptedOk, LineageOk, EntriesOk, RefsOk, Inv, SerialInv, MetaOk, Evolves, Lineage, Before, Trails;
    FinalOk(d);
    var b := Final(d).binding.value;
    RecordKeeps(d,
        Final(d).(decision := Some(DecisionFor(Final(d).meta, b, ReceiptOf(b, d.sidecar.journal[b].intent.value)))));
  }

  lemma CommitRevisionKeeps(d: Disk)
    requires Coherent(d) && d.entries != [] && Adopts(Final(d)) && d.accepted.revision != Final(d).meta.planned
    ensures var m := Final(d).meta;
            Coherent(d.(accepted := Site(m.planned, m.files), retained := d.retained[m.planned := m.files]))
  {
    hide Healthy, EntryOk, MetaOk;
    var m := Final(d).meta;
    var x := d.(accepted := Site(m.planned, m.files), retained := d.retained[m.planned := m.files]);
    assert AcceptedOk(x) by {
      CommitRevisionAccepts(d);
    }
    hide AcceptedOk;
    assert RefsOk(x) by {
      SameNamesSameRefs(d, x);
    }
  }

  lemma SameNamesSameRefs(d: Disk, x: Disk)
    requires RefsOk(d) && x.sidecar == d.sidecar && x.entries == d.entries && x.first == d.first
    ensures RefsOk(x)
  {
    forall k | k in x.sidecar.proposals
      ensures Known(x, k) || IsDenied(x.sidecar, k)
    {
      if Known(d, k) {
        var i :| 0 <= i < |d.entries| && d.entries[i].meta.id == k;
        assert x.entries[i].meta.id == k;
      }
    }
  }

  lemma CommitRevisionAccepts(d: Disk)
    requires NamesOk(d.entries)
    requires AcceptedOk(d) && d.entries != [] && Adopts(Final(d)) && d.accepted.revision != Final(d).meta.planned
    ensures var m := Final(d).meta;
            AcceptedOk(d.(accepted := Site(m.planned, m.files), retained := d.retained[m.planned := m.files]))
  {
    var m := Final(d).meta;
    var x := d.(accepted := Site(m.planned, m.files), retained := d.retained[m.planned := m.files]);
    assert Lineage(x) == Site(m.planned, m.files);
    hide Before, Lineage;
    forall i | 0 <= i < |d.entries|
      ensures IsRetained(x, Before(x.first, x.entries, i))
      ensures IsAhead(x, i)
    {
      assert IsRetained(d, Before(d.first, d.entries, i)) && IsAhead(d, i) && IsAhead(d, |d.entries| - 1);
    }
  }

  lemma CompletionKeeps(d: Disk)
    requires Coherent(d) && d.entries != [] && Final(d).decision.Some? && Final(d).binding.Some?
    requires Adopts(Final(d)) ==> d.accepted.revision == Final(d).meta.planned
    requires Final(d).completion == None
    ensures Coherent(SetFinal(d,
              Final(d).(completion := Some(CompletionFor(Final(d).binding.value, Final(d).decision.value)))))
  {
    hide Coherent, AcceptedOk, LineageOk, EntriesOk, RefsOk, Inv, SerialInv, MetaOk, Evolves, Lineage, Before, Trails;
    FinalOk(d);
    NotTrailing(d);
    RecordKeeps(d, Final(d).(completion := Some(CompletionFor(Final(d).binding.value, Final(d).decision.value))));
  }

  lemma NotTrailing(d: Disk)
    requires AcceptedOk(d) && LineageOk(d) && d.entries != []
    requires Adopts(Final(d)) ==> d.accepted.revision == Final(d).meta.planned
    ensures d.accepted == Lineage(d)
  {
    hide Before, Lineage;
    assert MetaOk(d.rules, Final(d).meta, Before(d.first, d.entries, |d.entries| - 1));
  }

  lemma SettleNextKeeps(d: Disk)
    requires Coherent(d) && d.entries != [] && Final(d).binding.Some? && SettleNext(d).Some?
    ensures Coherent(SettleNext(d).value) && Evolves(d.sidecar, SettleNext(d).value.sidecar)
  {
    hide Coherent, AcceptedOk, LineageOk, EntriesOk, RefsOk, Inv, SerialInv, MetaOk, Evolves, Lineage, Before, Trails;
    EvolvesRefl(d.sidecar);
    var e, s, b := Final(d), d.sidecar, Final(d).binding.value;
    if s.journal[b].intent.value.candidate !in s.reflog {
      PublishKeeps(d);
    } else if s.journal[b].state != DecisionCommitted {
      MarkKeeps(d);
    } else if e.decision == None {
      DecisionKeeps(d);
    } else if Adopts(e) && d.accepted.revision != e.meta.planned {
      CommitRevisionKeeps(d);
    } else {
      CompletionKeeps(d);
    }
  }

  /** Every owed write keeps the state coherent, and so does stopping anywhere on the way. */
  lemma NextWriteKeeps(d: Disk)
    requires Coherent(d) && NextWrite(d).Some?
    ensures Coherent(NextWrite(d).value) && Evolves(d.sidecar, NextWrite(d).value.sidecar)
  {
    hide Coherent, Evolves, BindNext, SettleNext;
    if Final(d).binding == None {
      BindNextKeeps(d);
    } else {
      SettleNextKeeps(d);
    }
  }

  lemma {:induction false} RedoKeeps(d: Disk, k: nat)
    requires Coherent(d) && k < |Redo(d)|
    ensures Coherent(Redo(d)[k]) && Evolves(d.sidecar, Redo(d)[k].sidecar)
    decreases k
  {
    hide Coherent, Evolves, NextWrite;
    EvolvesRefl(d.sidecar);
    if k > 0 {
      var next := NextWrite(d).value;
      NextWriteKeeps(d);
      RedoKeeps(next, k - 1);
      EvolvesTrans(d.sidecar, next.sidecar, Redo(next)[k - 1].sidecar);
    }
  }
}
