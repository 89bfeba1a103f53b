/** The durable state of one project and the order of its writes.

    Besides the repository and the review journal the Studio keeps, for every proposal, immutable
    metadata, the binding to its review, the decision metadata and the completion record; and the pointer
    to the Accepted revision beside the retained revisions. */
module StudioDisk {
  import opened Base
  import opened ChangeSet
  import opened ChangeSetLaws
  import opened Synapse
  import opened SidecarSpec

  type Revision = string

  datatype Site = Site(revision: Revision, files: Files)

  /** `blocked` tells whether some check of the proposal blocks adoption. */
  datatype Meta = Meta(id: OperationKey, base: Site, planned: Revision, files: Files, ops: seq<Operation>,
                       context: string, recordedAt: nat, blocked: bool)

  datatype DecisionMeta = DecisionMeta(review: Binding, base: Site, resulting: Revision, receipt: DecisionReceipt)

  datatype Completion = Completion(review: Binding, resulting: Revision, receipt: DecisionReceipt)

  datatype Entry = Entry(meta: Meta, binding: Option<Binding>, decision: Option<DecisionMeta>,
      completion: Option<Completion>)

  /** `entries` is in the order of `recordedAt`; `first` is the imported revision. */
  datatype Disk = Disk(rules: Rules, first: Site, entries: seq<Entry>, accepted: Site, retained: map<Revision, Files>,
      sidecar: State)

  function Imported(rules: Rules,
                    first: Site): Disk { Disk(rules, first, [], first, map[first.revision := first.files], EMPTY) }

  function ResultingRevision(m: Meta, receipt: DecisionReceipt): Revision
  {
    if receipt.disposition == AdoptedUnchanged then m.planned else m.base.revision
  }

  function DecisionFor(m: Meta, b: Binding, receipt: DecisionReceipt): DecisionMeta
  {
    DecisionMeta(b, m.base, ResultingRevision(m, receipt), receipt)
  }

  function CompletionFor(b: Binding, decision: DecisionMeta): Completion
  {
    Completion(b, decision.resulting, decision.receipt)
  }

  function Final(d: Disk): Entry
    requires d.entries != []
  {
    d.entries[|d.entries| - 1]
  }

  function SetFinal(d: Disk, e: Entry): Disk
    requires d.entries != []
  {
    d.(entries := d.entries[|d.entries| - 1 := e])
  }

  // ---- The next write ----

  function BindNext(d: Disk): Disk
    requires d.entries != [] && Final(d).binding == None
  {
    var m, s := Final(d).meta, d.sidecar;
    if s.reflog == [] then d.(sidecar := s.(reflog := [BaseCommit(d.accepted.files, m.recordedAt)]))
    else if m.id !in s.proposals then
      d.(sidecar := s.(proposals := s.proposals[m.id := ProposalCommit(m.id, Head(s), m.files, m.context,
          m.recordedAt)]))
    else
      var b := Binding(m.id, s.proposals[m.id], Head(s));
      if b !in s.journal then d.(sidecar := s.(journal := s.journal[b := Review(PendingReview, None)]))
      else SetFinal(d, Final(d).(binding := Some(b)))
  }

  function SettleNext(d: Disk): Option<Disk>
    requires d.entries != [] && Final(d).binding.Some?
  {
    var e, s := Final(d), d.sidecar;
    var b := e.binding.value;
    if b !in s.journal || s.journal[b].intent == None || s.journal[b].state == TerminalDenial then None
    else
      var i := s.journal[b].intent.value;
      if i.candidate !in s.reflog then Some(d.(sidecar := s.(reflog := s.reflog + [i.candidate])))
      else if s.journal[b].state != DecisionCommitted then Some(d.(sidecar := Marked(s, b, DecisionCommitted)))
      else if e.decision == None then Some(SetFinal(d, e.(decision := Some(DecisionFor(e.meta, b, ReceiptOf(b, i))))))
      else if e.decision.value.receipt.disposition == AdoptedUnchanged && d.accepted.revision != e.meta.planned then
        Some(d.(accepted := Site(e.meta.planned, e.meta.files), retained := d.retained[e.meta.planned := e.meta.files]))
      else if e.completion == None then Some(SetFinal(d, e.(completion := Some(CompletionFor(b, e.decision.value)))))
      else None
  }

  /** The write that the disk still owes, if any: an unbound proposal is bound, a registered decision is
      carried through. A bound proposal without an intent waits for a human, a denied one for its removal. */
  function NextWrite(d: Disk): Option<Disk>
  {
    if d.entries == [] then None
    else if Final(d).binding == None then Some(BindNext(d))
    else SettleNext(d)
  }

  function Owed(d: Disk): nat
  {
    if d.entries == [] then 0
    else
      var e, s := Final(d), d.sidecar;
      if e.binding == None then
        if s.reflog == [] then 12
        else if e.meta.id !in s.proposals then 11
        else if Binding(e.meta.id, s.proposals[e.meta.id], Head(s)) !in s.journal then 10
        else 9
      else
        var b := e.binding.value;
        if b !in s.journal || s.journal[b].intent == None || s.journal[b].state == TerminalDenial then 0
        else if s.journal[b].intent.value.candidate !in s.reflog then 6
        else if s.journal[b].state != DecisionCommitted then 5
        else if e.decision == None then 4
        else if e.decision.value.receipt.disposition == AdoptedUnchanged && d.accepted.revision != e.meta.planned then 3
        else if e.completion == None then 2
        else 0
  }

  lemma EachWriteSettles(d: Disk)
    requires NextWrite(d).Some?
    ensures Owed(NextWrite(d).value) < Owed(d)
  {
  }

  /** The disks that lie ahead: `d` itself and one for every write still owed. */
  function Redo(d: Disk): (r: seq<Disk>)
    ensures r != [] && r[0] == d
    decreases Owed(d)
  {
    match NextWrite(d)
    case None => [d]
    case Some(next) =>
      EachWriteSettles(d);
      [d] + Redo(next)
  }

  function Settled(d: Disk): Disk { Redo(d)[|Redo(d)| - 1] }

  /** From `start` with `fuse` writes left, `d` with `left` writes left lies on the way. */
  ghost predicate Along(start: Disk, fuse: nat, d: Disk, left: nat)
  {
    left <= fuse && fuse - left < |Redo(start)| && Redo(start)[fuse - left] == d
  }

  lemma {:induction false} RedoFromInside(d: Disk, k: nat)
    requires k < |Redo(d)|
    ensures Redo(Redo(d)[k]) == Redo(d)[k..]
    decreases k
  {
    if k > 0 {
      EachWriteSettles(d);
      RedoFromInside(NextWrite(d).value, k - 1);
      assert Redo(d)[k..] == Redo(d)[1..][k - 1..];
    }
  }

  /** Wherever on the way the power goes, going on ends in the same disk. */
  lemma SettledFromInside(start: Disk, fuse: nat, d: Disk, left: nat)
    requires Along(start, fuse, d, left)
    ensures Settled(d) == Settled(start) && |Redo(d)| == |Redo(start)| - (fuse - left)
  {
    RedoFromInside(start, fuse - left);
  }

  lemma SettledIsFinal(d: Disk)
    ensures NextWrite(Settled(d)) == None && Redo(Settled(d)) == [Settled(d)]
  {
    RedoFromInside(d, |Redo(d)| - 1);
  }

  lemma AlongStep(start: Disk, fuse: nat, d: Disk, left: nat)
    requires Along(start, fuse, d, left) && NextWrite(d).Some? && left > 0
    ensures Along(start, fuse, NextWrite(d).value, left - 1)
  {
    RedoFromInside(start, fuse - left);
    EachWriteSettles(d);
    assert Redo(start)[fuse - left + 1] == Redo(d)[1];
  }

  lemma AlongTrans(start: Disk, fuse: nat, mid: Disk, half: nat, d: Disk, left: nat)
    requires Along(start, fuse, mid, half) && Along(mid, half, d, left)
    ensures Along(start, fuse, d, left)
  {
    RedoFromInside(start, fuse - half);
  }

  /** A sidecar call whose states are exactly the owed writes. */
  ghost predicate Follows(d: Disk, states: seq<State>)
  {
    && states != [] && states[0] == d.sidecar
    && forall j, k :: 0 <= j && k == j + 1 < |states| ==>
         NextWrite(d.(sidecar := states[j])) == Some(d.(sidecar := states[k]))
  }

  lemma {:induction false} FollowsIsAlong(d: Disk, states: seq<State>, fuse: nat, k: nat)
    requires Follows(d, states) && k < |states| && k <= fuse
    ensures Along(d, fuse, d.(sidecar := states[k]), fuse - k)
  {
    if k > 0 {
      FollowsIsAlong(d, states, fuse, k - 1);
      assert NextWrite(d.(sidecar := states[k - 1])) == Some(d.(sidecar := states[k]));
      AlongStep(d, fuse, d.(sidecar := states[k - 1]), fuse - (k - 1));
    }
  }

  lemma PerformedIsAlong<R>(d: Disk, run: Run<R>, fuse: nat, left: nat, now: State, answer: Result<R, SidecarError>)
    requires Follows(d, run.states) && Performed(run, fuse, left, now, answer)
    ensures Along(d, fuse, d.(sidecar := now), left)
    ensures (answer == run.answer && now == Last(run))
            || (answer == Err(PowerLoss) && left == 0 && NextWrite(d.(sidecar := now)).Some?)
  {
    if fuse < |run.states| - 1 {
      assert NextWrite(d.(sidecar := run.states[fuse])) == Some(d.(sidecar := run.states[fuse + 1]));
    }
    FollowsIsAlong(d, run.states, fuse, if fuse < |run.states| - 1 then fuse else |run.states| - 1);
  }
}
