/** Interrupted and uninterrupted decisions end in the same place. */
module CrashRefinement {
  import opened Base
  import opened Synapse
  import opened SerialRuns
  import opened SidecarSpec
  import opened SidecarTheorems
  import opened StudioDisk
  import opened StudioInvariant
  import opened StudioSteps
  import opened StudioLaws

  /** The disks of one decision, write by write. */
  function DecisionAhead(d: Disk, disposition: Disposition, key: Bytes): seq<Disk>
    requires Awaiting(d)
  {
    [d] + Redo(Registered(d, disposition, key))
  }

  /** A process that dies and restarts `|cuts|` times, the i-th recovery after `cuts[i]` writes. */
  ghost predicate Restarted(d: Disk, cuts: seq<nat>, t: Disk)
    decreases |cuts|
  {
    if cuts == [] then d == t
    else cuts[0] < |Redo(d)| && Restarted(Redo(d)[cuts[0]], cuts[1..], t)
  }

  lemma {:induction false} RestartsSettleAlike(d: Disk, cuts: seq<nat>, t: Disk)
    requires Coherent(d) && Restarted(d, cuts, t)
    ensures Coherent(t) && Settled(t) == Settled(d)
    decreases |cuts|
  {
    hide Coherent;
    if cuts != [] {
      RedoKeeps(d, cuts[0]);
      SettledFromInside(d, cuts[0], Redo(d)[cuts[0]], 0);
      RestartsSettleAlike(Redo(d)[cuts[0]], cuts[1..], t);
    }
  }

  predicate HasDecisionIntent(d: Disk, b: Binding) { b in d.sidecar.journal && d.sidecar.journal[b].intent.Some? }

  /** Crash refinement: let the power go after any number of writes of a decision, and again during any
      number of recoveries. Undisturbed recovery then ends in the state before the decision or in that
      of the uninterrupted decision; in the latter exactly when the intent had been registered. */
  lemma CrashRefinement(d: Disk, disposition: Disposition, key: Bytes, k: nat, cuts: seq<nat>, t: Disk)
    requires Coherent(d) && MayRegister(d, disposition)
    requires k < |DecisionAhead(d, disposition, key)| && Restarted(DecisionAhead(d, disposition, key)[k], cuts, t)
    ensures var b := Final(d).binding.value;
            var ahead := DecisionAhead(d, disposition, key);
            && Coherent(t)
            && Settled(t) == (if HasDecisionIntent(ahead[k], b) then ahead[|ahead| - 1] else d)
            && (HasDecisionIntent(ahead[k], b) <==> k > 0)
            && Redo(Settled(t)) == [Settled(t)]
  {
    hide Coherent, Evolves, Registered;
    var b := Final(d).binding.value;
    var r := Registered(d, disposition, key);
    var ahead := DecisionAhead(d, disposition, key);
    if k > 0 {
      RegisterKeeps(d, disposition, key);
      RedoKeeps(r, k - 1);
      SettledFromInside(r, k - 1, Redo(r)[k - 1], 0);
      IntentOnTheWay(d, disposition, key, k - 1);
      assert ahead[k] == Redo(r)[k - 1];
    } else {
      AwaitingOwesNothing(d);
    }
    RestartsSettleAlike(ahead[k], cuts, t);
    SettledIsFinal(t);
  }

  lemma AwaitingOwesNothing(d: Disk)
    requires Awaiting(d) || DeniedFinal(d)
    ensures NextWrite(d) == None && Redo(d) == [d]
    ensures Awaiting(d) ==> !HasDecisionIntent(d, Final(d).binding.value)
  {
  }

  lemma IntentOnTheWay(d: Disk, disposition: Disposition, key: Bytes, k: nat)
    requires Coherent(d) && MayRegister(d, disposition) && k < |Redo(Registered(d, disposition, key))|
    ensures HasDecisionIntent(Redo(Registered(d, disposition, key))[k], Final(d).binding.value)
  {
    hide Coherent, Inv;
    RegisterKeeps(d, disposition, key);
    var r := Registered(d, disposition, key);
    assert HasDecisionIntent(r, Final(d).binding.value);
    RedoKeeps(r, k);
    assert ReviewAdvances(r.sidecar.journal[Final(d).binding.value],
             Redo(r)[k].sidecar.journal[Final(d).binding.value]);
  }

  // ---- What one decision does to the disk ----

  /** The disk after a decision: the review committed with the intent's commit on top, the decision and
      its completion recorded, and Accepted moved exactly by an adoption. */
  function AfterDecision(d: Disk, disposition: Disposition, key: Bytes): Disk
    requires Awaiting(d)
  {
    var e := Final(d);
    var b := e.binding.value;
    var s := Registered(d, disposition, key).sidecar;
    var receipt := if disposition == AdoptedUnchanged then DecisionReceipt(disposition, b.proposalHead.site, true)
                   else DecisionReceipt(disposition, b.expected.site, false);
    var decision := DecisionFor(e.meta, b, receipt);
    var decided :=
      SetFinal(d,
          Entry(e.meta, e.binding, Some(decision), Some(CompletionFor(b, decision)))).(sidecar := Resumed(s, b));
    if disposition == AdoptedUnchanged then
      decided.(accepted := Site(e.meta.planned, e.meta.files), retained := d.retained[e.meta.planned := e.meta.files])
    else decided
  }

  lemma SettledStep(d: Disk)
    requires NextWrite(d).Some?
    ensures Settled(d) == Settled(NextWrite(d).value)
  {
    EachWriteSettles(d);
  }

  lemma DecisionOutcome(d: Disk, disposition: Disposition, key: Bytes)
    requires Coherent(d) && MayRegister(d, disposition)
    ensures Settled(Registered(d, disposition, key)) == AfterDecision(d, disposition, key)
  {
    hide Coherent;
    var r := Registered(d, disposition, key);
    var b := Final(d).binding.value;
    AwaitingFacts(d, disposition, key);
    var published :=
      r.(sidecar := r.sidecar.(reflog := r.sidecar.reflog + [r.sidecar.journal[b].intent.value.candidate]));
    assert NextWrite(r) == Some(published);
    SettledStep(r);
    var marked := r.(sidecar := Resumed(r.sidecar, b));
    assert r.sidecar.journal[b].intent.value.candidate == published.sidecar.reflog[|r.sidecar.reflog|];
    assert NextWrite(published) == Some(marked);
    SettledStep(published);
    RecordsSettle(marked, disposition);
    assert SetFinal(marked, Final(AfterDecision(d, disposition, key))) ==
             AfterDecision(d, disposition, key).(accepted := d.accepted, retained := d.retained);
  }

  lemma AwaitingFacts(d: Disk, disposition: Disposition, key: Bytes)
    requires Coherent(d) && MayRegister(d, disposition)
    ensures var i := MakeIntent(Final(d).binding.value, key, disposition, Final(d).meta.recordedAt);
            && i.candidate !in d.sidecar.reflog
            && Final(d).decision == None && Final(d).completion == None
            && d.accepted.revision != Final(d).meta.planned
    ensures d.sidecar.journal[Final(d).binding.value].state == PendingReview
  {
    hide Coherent, AcceptedOk, LineageOk, EntriesOk, RefsOk, Inv, SerialInv, MetaOk, Lineage, Before, Trails;
    FinalOk(d);
    RegistrationIsUnpublished(d.sidecar, Final(d).binding.value,
        MakeIntent(Final(d).binding.value, key, disposition, Final(d).meta.recordedAt));
    AcceptedIsBase(d);
  }

  lemma AcceptedIsBase(d: Disk)
    requires Coherent(d) && d.entries != [] && Final(d).decision == None
    ensures d.accepted == Final(d).meta.base && d.accepted.revision != Final(d).meta.planned
  {
    hide Healthy, EntriesOk, RefsOk;
    assert MetaOk(d.rules, Final(d).meta, Before(d.first, d.entries, |d.entries| - 1));
  }

  /** The Studio's own writes, once the review is committed. */
  lemma RecordsSettle(d: Disk, disposition: Disposition)
    requires d.entries != [] && Final(d).binding.Some? && Final(d).decision == None && Final(d).completion == None
    requires d.accepted.revision != Final(d).meta.planned
    requires var b := Final(d).binding.value;
             && b in d.sidecar.journal && d.sidecar.journal[b].state == DecisionCommitted
                && CandidateIsPublished(d.sidecar, b)
             && DispositionOf(d.sidecar.journal[b].intent.value) == disposition
    ensures var b := Final(d).binding.value;
            var m := Final(d).meta;
            var decision := DecisionFor(m, b, ReceiptOf(b, d.sidecar.journal[b].intent.value));
            var recorded := SetFinal(d, Entry(m, Some(b), Some(decision), Some(CompletionFor(b, decision))));
            Settled(d) == if disposition == AdoptedUnchanged
                          then recorded.(accepted := Site(m.planned, m.files),
                                 retained := d.retained[m.planned := m.files])
                          else recorded
  {
    var b, m := Final(d).binding.value, Final(d).meta;
    var decision := DecisionFor(m, b, ReceiptOf(b, d.sidecar.journal[b].intent.value));
    var decided := SetFinal(d, Entry(m, Some(b), Some(decision), None));
    assert NextWrite(d) == Some(decided);
    SettledStep(d);
    var moved := if disposition == AdoptedUnchanged
                 then decided.(accepted := Site(m.planned, m.files), retained := d.retained[m.planned := m.files])
                 else decided;
    if disposition == AdoptedUnchanged {
      assert NextWrite(decided) == Some(moved);
      SettledStep(decided);
    }
    var recorded := SetFinal(moved, Entry(m, Some(b), Some(decision), Some(CompletionFor(b, decision))));
    assert NextWrite(moved) == Some(recorded);
    SettledStep(moved);
    assert NextWrite(recorded) == None;
  }
}
