/** What a project's records promise in any case: also when calls fail half-way while the process lives on,
    and even if a published decision was denied. */
module StudioLedger {
  import opened Base
  import opened ChangeSetLaws
  import opened Synapse
  import opened SidecarSpec
  import opened SidecarFrames
  import opened StudioDisk
  import opened StudioInvariant
  import opened StudioSteps
  import opened StudioLaws
  import opened CrashRefinement
  import opened StudioCalls

  ghost predicate IntentFree(s: State, k: OperationKey)
  {
    forall b :: b in s.journal && b.operation == k ==> s.journal[b].intent == None
  }

  /** A decision to adopt was only ever registered for a proposal that no check blocks. */
  ghost predicate AdoptionsAreUnblocked(s: State, m: Meta)
  {
    forall b :: b in s.journal && b.operation == m.id && s.journal[b].intent.Some? ==>
      (DispositionOf(s.journal[b].intent.value) == AdoptedUnchanged ==> !m.blocked)
  }

  /** A recorded decision is that of a committed review. */
  predicate DecisionIsCommitted(s: State, e: Entry)
    requires e.decision.Some?
  {
    && e.binding.Some? && e.binding.value in s.journal
    && var b := e.binding.value;
       && s.journal[b].state == DecisionCommitted && s.journal[b].intent.Some?
       && e.decision.value == DecisionFor(e.meta, b, ReceiptOf(b, s.journal[b].intent.value))
  }

  ghost predicate RecordOk(s: State, e: Entry)
  {
    && (e.binding.Some? ==> e.binding.value in s.journal && e.binding.value.operation == e.meta.id)
    && (e.decision.Some? ==> DecisionIsCommitted(s, e))
    && (e.completion.Some? ==> e.decision.Some?)
    && AdoptionsAreUnblocked(s, e.meta)
  }

  /** Only the latest proposal can still be decided. */
  ghost predicate IsOver(s: State, e: Entry)
  {
    e.completion.Some? || (e.decision == None && IntentFree(s, e.meta.id))
  }

  ghost predicate RecordsOk(d: Disk)
  {
    && (forall i :: 0 <= i < |d.entries| ==> RecordOk(d.sidecar, d.entries[i]))
    && (forall i :: 0 <= i < |d.entries| - 1 ==> IsOver(d.sidecar, d.entries[i]))
    && NamesOk(d.entries)
  }

  ghost predicate Ledger(d: Disk)
  {
    RecordsOk(d) && LineageOk(d) && AcceptedOk(d)
  }

  predicate SameMetas(entries: seq<Entry>, other: seq<Entry>)
  {
    |entries| == |other| && forall i :: 0 <= i < |entries| ==> other[i].meta == entries[i].meta
  }

  lemma SameMetasRefl(entries: seq<Entry>)
    ensures SameMetas(entries, entries)
  {
  }

  /** A further proposal may be put on top. */
  ghost predicate Quiet(d: Disk)
  {
    d.entries == [] || IsOver(d.sidecar, Final(d))
  }

  lemma CompletedIsQuiet(d: Disk)
    requires d.entries != [] && Final(d).completion.Some?
    ensures Quiet(d)
  {
  }

  lemma NothingIsQuiet(d: Disk)
    requires d.entries == []
    ensures Quiet(d)
  {
  }

  lemma ImportedIsLedger(rules: Rules, first: Site)
    ensures Ledger(Imported(rules, first)) && Quiet(Imported(rules, first))
  {
  }

  // ---- What it means ----

  /** Accepted is the fold of the adopted ChangeSets, or of all but the last one, which then is on record
      without its completion; and nothing adopted was blocked. */
  lemma LedgerIsAFold(d: Disk)
    requires Ledger(d)
    ensures || Some(d.accepted.files) == Folded(d.first.files, d.entries, |d.entries|)
            || (&& d.entries != [] && Adopts(Final(d)) && Final(d).completion == None
                && Some(d.accepted.files) == Folded(d.first.files, d.entries, |d.entries| - 1))
    ensures forall e :: e in d.entries && Adopts(e) ==> !e.meta.blocked
  {
    hide Folded, Before, LineageOk;
    FoldIsLineage(d, |d.entries|);
    if Trails(d) {
      FoldIsLineage(d, |d.entries| - 1);
    }
    forall e | e in d.entries && Adopts(e)
      ensures !e.meta.blocked
    {
      var i :| 0 <= i < |d.entries| && d.entries[i] == e;
      assert RecordOk(d.sidecar, e);
    }
  }

  // ---- What keeps it ----

  lemma RecordStays(s: State, t: State, e: Entry)
    requires RecordOk(s, e) && Evolves(s, t) && (SameIntents(s, t) || IntentFree(t, e.meta.id))
    ensures RecordOk(t, e)
  {
    if e.binding.Some? {
      assert ReviewAdvances(s.journal[e.binding.value], t.journal[e.binding.value]);
    }
  }

  lemma OverStays(s: State, t: State, e: Entry)
    requires IsOver(s, e) && SameIntents(s, t)
    ensures IsOver(t, e)
  {
  }

  /** Calls that register no intent. */
  lemma RideKeeps(d: Disk, t: State)
    requires Ledger(d) && Evolves(d.sidecar, t) && SameIntents(d.sidecar, t)
    ensures Ledger(d.(sidecar := t)) && (Quiet(d) ==> Quiet(d.(sidecar := t)))
  {
    hide RecordOk, IsOver, LineageOk, AcceptedOk, Evolves, SameIntents;
    AcceptedIgnoresSidecar(d, t);
    forall i | 0 <= i < |d.entries|
      ensures RecordOk(t, d.entries[i])
      ensures IsOver(d.sidecar, d.entries[i]) ==> IsOver(t, d.entries[i])
    {
      RecordStays(d.sidecar, t, d.entries[i]);
      if IsOver(d.sidecar, d.entries[i]) {
        OverStays(d.sidecar, t, d.entries[i]);
      }
    }
  }

  /** A call of decide on the latest proposal. */
  lemma DecideRides(d: Disk, t: State, b: Binding, i: Intent)
    requires Ledger(d) && Evolves(d.sidecar, t) && IntentsBut(d.sidecar, t, b, i)
    requires d.entries != [] && Final(d).binding == Some(b)
    requires DispositionOf(i) == AdoptedUnchanged ==> !Final(d).meta.blocked
    ensures Ledger(d.(sidecar := t))
  {
    hide LineageOk, AcceptedOk, Evolves;
    AcceptedIgnoresSidecar(d, t);
    forall k | 0 <= k < |d.entries|
      ensures RecordOk(t, d.entries[k])
      ensures k < |d.entries| - 1 ==> IsOver(t, d.entries[k])
    {
      assert RecordOk(d.sidecar, d.entries[k]) && RecordOk(d.sidecar, Final(d));
      OtherIntents(d.sidecar, t, b, i, d.entries[k]);
    }
  }

  lemma OtherIntents(s: State, t: State, b: Binding, i: Intent, e: Entry)
    requires RecordOk(s, e) && Evolves(s, t) && IntentsBut(s, t, b, i)
    requires b.operation == e.meta.id && DispositionOf(i) == AdoptedUnchanged ==> !e.meta.blocked
    ensures RecordOk(t, e)
    ensures IsOver(s, e) && b.operation != e.meta.id ==> IsOver(t, e)
  {
    if e.binding.Some? {
      assert ReviewAdvances(s.journal[e.binding.value], t.journal[e.binding.value]);
    }
  }

  lemma NewIsIntentFree(s: State, k: OperationKey)
    requires Inv(s) && k !in s.proposals
    ensures IntentFree(s, k)
  {
    forall b | b in s.journal
      ensures b.operation != k
    {
      SoundReview(s, b);
    }
  }

  lemma PrepareKeepsLedger(d: Disk, m: Meta)
    requires Ledger(d) && Quiet(d) && Fresh(d, m) && Inv(d.sidecar)
    ensures Ledger(Prepared(d, m)) && Quiet(Prepared(d, m))
  {
    hide LineageOk, AcceptedOk, Inv, MetaOk;
    NewIsIntentFree(d.sidecar, m.id);
    PreparedAccepted(d, m);
    hide IntentFree, DecisionIsCommitted;
    var x := Prepared(d, m);
    assert RecordOk(d.sidecar, Entry(m, None, None, None)) by {
      FreeIsUnblocked(d.sidecar, m);
    }
    hide RecordOk, Fresh;
    forall i | 0 <= i < |x.entries| - 1
      ensures IsOver(x.sidecar, x.entries[i])
    {
      assert x.entries[i] == d.entries[i];
      assert i == |d.entries| - 1 ==> d.entries[i] == Final(d);
    }
    assert NamesOk(x.entries) by {
      FreshNames(d, m);
    }
  }

  lemma FreeIsUnblocked(s: State, m: Meta)
    requires IntentFree(s, m.id)
    ensures AdoptionsAreUnblocked(s, m)
  {
  }

  lemma FreshNames(d: Disk, m: Meta)
    requires NamesOk(d.entries) && Fresh(d, m)
    ensures NamesOk(d.entries + [Entry(m, None, None, None)])
  {
    hide MetaOk;
  }

  /** Recording the binding, the decision or the completion of one entry. */
  lemma RecordKeepsLedger(d: Disk, i: nat, e: Entry)
    requires Ledger(d) && i < |d.entries| && e.meta == d.entries[i].meta
    requires RecordOk(d.sidecar, e) && (e.completion == d.entries[i].completion || e.completion.Some?)
    requires i == |d.entries| - 1 || (e.decision == d.entries[i].decision && IsOver(d.sidecar, e))
    requires i == |d.entries| - 1 ==>
               && (Adopts(e) == Adopts(Final(d)) || (Adopts(e) && e.completion == None))
               && (Adopts(e) && Adopts(Final(d)) && e.completion.Some? ==> d.accepted == Lineage(d))
    ensures Ledger(d.(entries := d.entries[i := e]))
  {
    hide RecordOk, IsOver, LineageOk, AcceptedOk, Adopts, Lineage;
    var x := d.(entries := d.entries[i := e]);
    if i == |d.entries| - 1 {
      assert x == SetFinal(d, e);
      RecordKeepsLineage(d, e);
      RecordKeepsAccepted(d, e);
    } else {
      MiddleKeepsLineage(d, i, e);
    }
  }

  lemma {:induction false} SameDecisionsSameBefore(first: Site, entries: seq<Entry>, other: seq<Entry>, n: nat)
    requires n <= |entries| == |other|
    requires forall k :: 0 <= k < n ==> entries[k].meta == other[k].meta && entries[k].decision == other[k].decision
    ensures Before(first, entries, n) == Before(first, other, n)
    decreases n
  {
    if n > 0 {
      SameDecisionsSameBefore(first, entries, other, n - 1);
    }
  }

  lemma MiddleKeepsLineage(d: Disk, i: nat, e: Entry)
    requires LineageOk(d) && AcceptedOk(d) && i < |d.entries| - 1
    requires e.meta == d.entries[i].meta && e.decision == d.entries[i].decision
    requires e.completion == d.entries[i].completion || e.completion.Some?
    ensures LineageOk(d.(entries := d.entries[i := e])) && AcceptedOk(d.(entries := d.entries[i := e]))
  {
    hide MetaOk, Before;
    var x := d.(entries := d.entries[i := e]);
    assert Final(x) == Final(d);
    forall k | 0 <= k <= |d.entries|
      ensures Before(d.first, x.entries, k) == Before(d.first, d.entries, k)
    {
      SameDecisionsSameBefore(d.first, d.entries, x.entries, k);
    }
    forall k | 0 <= k < |d.entries|
      ensures MetaOk(d.rules, x.entries[k].meta, Before(d.first, x.entries, k))
      ensures IsRetained(x, Before(d.first, x.entries, k)) && IsAhead(x, k)
    {
      assert MetaOk(d.rules, d.entries[k].meta, Before(d.first, d.entries, k));
      assert IsRetained(d, Before(d.first, d.entries, k)) && IsAhead(d, k);
    }
  }

  lemma BindKeepsLedger(d: Disk, i: nat, b: Binding)
    requires Ledger(d) && i < |d.entries| && d.entries[i].binding == None
    requires b in d.sidecar.journal && b.operation == d.entries[i].meta.id
    ensures Ledger(d.(entries := d.entries[i := d.entries[i].(binding := Some(b))]))
  {
    hide LineageOk, AcceptedOk, Lineage, NamesOk;
    assert RecordOk(d.sidecar, d.entries[i]);
    RecordKeepsLedger(d, i, d.entries[i].(binding := Some(b)));
  }

  lemma BindKeepsQuiet(d: Disk, i: nat, b: Binding)
    requires i < |d.entries|
    ensures Quiet(d) ==> Quiet(d.(entries := d.entries[i := d.entries[i].(binding := Some(b))]))
  {
  }

  lemma DecisionKeepsLedger(d: Disk, b: Binding)
    requires Ledger(d) && CommittedFinal(d, b) && Final(d).decision == None
    ensures Ledger(SetFinal(d, Final(d).(decision := Some(DecisionFor(Final(d).meta, b, ReceiptAt(d, b))))))
  {
    hide LineageOk, AcceptedOk, Lineage, NamesOk;
    assert RecordOk(d.sidecar, Final(d));
    RecordKeepsLedger(d, |d.entries| - 1, Final(d).(decision := Some(DecisionFor(Final(d).meta, b, ReceiptAt(d, b)))));
  }

  /** Only the latest proposal can have an intent without a recorded decision. */
  lemma CommittedIsLatest(d: Disk, i: nat)
    requires Ledger(d) && i < |d.entries| && d.entries[i].binding.Some? && d.entries[i].decision == None
    requires HasDecisionIntent(d, d.entries[i].binding.value)
    ensures i == |d.entries| - 1
  {
    assert RecordOk(d.sidecar, d.entries[i]);
    assert i < |d.entries| - 1 ==> IsOver(d.sidecar, d.entries[i]);
  }

  lemma DecisionIsOnRecord(d: Disk, b: Binding)
    requires Ledger(d) && CommittedFinal(d, b) && Final(d).decision.Some?
    ensures Final(d).decision == Some(DecisionFor(Final(d).meta, b, ReceiptAt(d, b)))
  {
    assert RecordOk(d.sidecar, Final(d));
  }

  lemma CommitKeepsLedger(d: Disk)
    requires Ledger(d) && d.entries != [] && Adopts(Final(d)) && d.accepted.revision != Final(d).meta.planned
    ensures var m := Final(d).meta;
            Ledger(d.(accepted := Site(m.planned, m.files), retained := d.retained[m.planned := m.files]))
  {
    hide RecordOk, IsOver, AcceptedOk;
    CommitRevisionAccepts(d);
  }

  lemma CompletionKeepsLedger(d: Disk, completion: Completion)
    requires Ledger(d) && d.entries != [] && Final(d).decision.Some?
    requires Adopts(Final(d)) ==> d.accepted.revision == Final(d).meta.planned
    ensures Ledger(SetFinal(d, Final(d).(completion := Some(completion))))
    ensures Quiet(SetFinal(d, Final(d).(completion := Some(completion))))
  {
    hide LineageOk, AcceptedOk, Lineage, NamesOk;
    assert RecordOk(d.sidecar, Final(d));
    NotTrailing(d);
    RecordKeepsLedger(d, |d.entries| - 1, Final(d).(completion := Some(completion)));
  }

  lemma RemoveKeepsLedger(d: Disk)
    requires Ledger(d) && DeniedFinal(d)
    ensures Ledger(Removed(d)) && Quiet(Removed(d))
  {
    hide LineageOk, AcceptedOk;
    assert RecordOk(d.sidecar, Final(d));
    RemoveKeepsLineage(d);
    hide RecordOk, IsOver;
  }

  /** No call but decide registers an intent, so where every earlier proposal has a decision in the end, every
      earlier proposal had its completion in the beginning. */
  lemma RecoveredWasTidy(d: Disk, t: Disk)
    requires Ledger(d) && Ledger(t) && SameIntents(d.sidecar, t.sidecar) && SameMetas(d.entries, t.entries)
    requires forall j :: 0 <= j < |t.entries| - 1 ==> t.entries[j].decision.Some?
    ensures Tidy(d.entries) && Tidy(t.entries)
  {
    hide LineageOk, AcceptedOk, NamesOk;
    forall j | 0 <= j < |d.entries| - 1
      ensures d.entries[j].completion.Some? && t.entries[j].completion.Some?
    {
      assert IsOver(d.sidecar, d.entries[j]) && IsOver(t.sidecar, t.entries[j]) && RecordOk(t.sidecar, t.entries[j]);
    }
  }
}
