/** What the decisions of a project amount to, across interruptions and restarts. */
module StudioLaws {
  import opened Base
  import opened ChangeSetApply
  import opened ChangeSetLaws
  import opened Synapse
  import opened SerialRuns
  import opened SidecarSpec
  import opened SidecarTheorems
  import opened StudioDisk
  import opened StudioInvariant
  import opened StudioSteps

  // ---- The two writes that humans and providers start ----

  predicate Idle(d: Disk) { d.entries == [] || Final(d).completion.Some? }

  /** A proposal made on the Accepted files, with identifiers that were never used. */
  ghost predicate Fresh(d: Disk, m: Meta)
  {
    && MetaOk(d.rules, m, d.accepted) && m.planned !in d.retained && m.id !in d.sidecar.proposals
    && forall i :: 0 <= i < |d.entries| ==> d.entries[i].meta.id != m.id && d.entries[i].meta.planned != m.planned
  }

  function Prepared(d: Disk, m: Meta): Disk { d.(entries := d.entries + [Entry(m, None, None, None)]) }

  /** A bound proposal waits for its decision. */
  predicate Awaiting(d: Disk)
  {
    && d.entries != [] && Final(d).binding.Some? && Final(d).binding.value in d.sidecar.journal
    && d.sidecar.journal[Final(d).binding.value].intent == None
  }

  /** A denied proposal stays on disk until it is removed. */
  predicate DeniedFinal(d: Disk)
  {
    && d.entries != [] && Final(d).binding.Some? && Final(d).binding.value in d.sidecar.journal
    && d.sidecar.journal[Final(d).binding.value].state == TerminalDenial
  }

  predicate MayRegister(d: Disk, disposition: Disposition)
  {
    Awaiting(d) && (disposition == AdoptedUnchanged ==> !Final(d).meta.blocked)
  }

  function Registered(d: Disk, disposition: Disposition, key: Bytes): Disk
    requires Awaiting(d)
  {
    var b := Final(d).binding.value;
    var i := MakeIntent(b, key, disposition, Final(d).meta.recordedAt);
    d.(sidecar := d.sidecar.(journal := d.sidecar.journal[b := Review(PendingReview, Some(i))]))
  }

  lemma PrepareKeeps(d: Disk, m: Meta)
    requires Coherent(d) && Idle(d) && Fresh(d, m)
    ensures Coherent(Prepared(d, m))
  {
    hide EntriesOk, LineageOk, AcceptedOk, Healthy, Idle, Fresh;
    PreparedEntries(d, m);
    PreparedAccepted(d, m);
    var x := Prepared(d, m);
    forall k | k in x.sidecar.proposals
      ensures Known(x, k) || IsDenied(x.sidecar, k)
    {
      if Known(d, k) {
        var i :| 0 <= i < |d.entries| && d.entries[i].meta.id == k;
        assert x.entries[i].meta.id == k;
      }
    }
  }

  lemma TopIsUnfinished(d: Disk, m: Meta)
    requires Tidy(d.entries)
    ensures Tidy(Prepared(d, m).entries) <==> Idle(d)
  {
    assert d.entries != [] ==> Prepared(d, m).entries[|d.entries| - 1] == Final(d);
  }

  /** The state stays coherent if and only if the new proposal does not go on top of an unfinished one. */
  lemma PrepareKeepsIff(d: Disk, m: Meta)
    requires Coherent(d) && Fresh(d, m)
    ensures Coherent(Prepared(d, m)) <==> Idle(d)
  {
    if Idle(d) {
      PrepareKeeps(d, m);
    } else {
      hide Healthy, RefsOk, LineageOk, AcceptedOk, EntryOk, Fresh;
      TopIsUnfinished(d, m);
    }
  }

  lemma PreparedEntries(d: Disk, m: Meta)
    requires Coherent(d) && Idle(d) && Fresh(d, m)
    ensures EntriesOk(Prepared(d, m))
  {
    hide AcceptedOk, LineageOk, Healthy, MetaOk, EntryOk;
    var n := |d.entries|;
    PreparedUnbound(d, m);
    assert EntryOk(d.sidecar, n, Entry(m, None, None, None));
  }

  lemma PreparedUnbound(d: Disk, m: Meta)
    requires Coherent(d) && Idle(d) && Fresh(d, m)
    ensures EntryOk(d.sidecar, |d.entries|, Entry(m, None, None, None))
  {
    hide AcceptedOk, LineageOk, SerialInv, MetaOk, Inv, ReviewIsSound;
    var n := |d.entries|;
    assert d.entries != [] ==> EntryOk(d.sidecar, n - 1, Final(d));
    hide EntriesOk, RefsOk, Known;
    if d.sidecar.reflog != [] {
      var b := BindingFor(m, d.sidecar.reflog[n]);
      if b in d.sidecar.journal {
        BoundIsKnown(d.sidecar, b);
      }
    }
  }

  lemma BoundIsKnown(s: State, b: Binding)
    requires Inv(s) && b in s.journal
    ensures b.operation in s.proposals
  {
    SoundReview(s, b);
  }

  lemma PreparedAccepted(d: Disk, m: Meta)
    requires LineageOk(d) && AcceptedOk(d) && Fresh(d, m)
    requires Idle(d) || Final(d).decision == None
    ensures LineageOk(Prepared(d, m)) && AcceptedOk(Prepared(d, m))
  {
    hide Permits, Before;
    var x := Prepared(d, m);
    var n := |d.entries|;
    assert d.accepted == Lineage(d) == Before(d.first, d.entries, n);
    assert Lineage(x) == Before(d.first, x.entries, n) by {
      UndecidedKeepsLineage(x);
    }
    hide Lineage;
    forall i | 0 <= i <= n
      ensures Before(d.first, x.entries, i) == Before(d.first, d.entries, i)
      ensures IsRetained(x, Before(d.first, x.entries, i))
      ensures IsAhead(x, i)
    {
      assert x.entries[..i] == d.entries[..i];
      BeforeStays(d.first, d.entries, x.entries, i);
      if i < n {
        assert IsRetained(d, Before(d.first, d.entries, i)) && IsAhead(d, i);
        if i == n - 1 && d.entries[i].completion == None {
          assert d.accepted.revision != d.entries[i].meta.planned by {
            UndecidedKeepsLineage(d);
            assert MetaOk(d.rules, d.entries[i].meta, Before(d.first, d.entries, i));
          }
        }
      }
    }
  }

  lemma UndecidedKeepsLineage(d: Disk)
    requires d.entries != [] && !Adopts(Final(d))
    ensures Lineage(d) == Before(d.first, d.entries, |d.entries| - 1)
  {
  }

  lemma RegisterKeeps(d: Disk, disposition: Disposition, key: Bytes)
    requires Coherent(d) && MayRegister(d, disposition)
    ensures Coherent(Registered(d, disposition, key)) && Evolves(d.sidecar, Registered(d, disposition, key).sidecar)
  {
    hide Coherent, AcceptedOk, LineageOk, EntriesOk, RefsOk, Inv, SerialInv, MetaOk, Evolves, Lineage, Before, Trails;
    FinalOk(d);
    var s, b := d.sidecar, Final(d).binding.value;
    var i := MakeIntent(b, key, disposition, Final(d).meta.recordedAt);
    WriteIsHealthy(s, RegisterIntent(b, i));
    RegistrationIsUnpublished(s, b, i);
    var t := Registered(d, disposition, key).sidecar;
    RefsFrame(d, t);
    SidecarWriteKeeps(d, t);
  }

  // ---- Whole runs ----

  datatype StudioWrite =
    | PrepareProposal(meta: Meta)
    | RegisterDecision(disposition: Disposition, key: Bytes)
    | OwedWrite
    | MoveFinal(to: ReviewState)  // a failed call leaves the review retryable, unknown or denied
    | RemoveDenied

  /** A review only leaves its course once its decision has an intent, and is never denied after that
      intent has been published. */
  predicate MayMove(d: Disk, to: ReviewState)
  {
    && d.entries != [] && Final(d).binding.Some? && to != DecisionCommitted
    && var s, b := d.sidecar, Final(d).binding.value;
       && b in s.journal && s.journal[b].intent.Some? && Rank(s.journal[b].state) < Rank(to)
       && (to == TerminalDenial ==> !CandidateIsPublished(s, b))
  }

  function Moved(d: Disk, to: ReviewState): Disk
    requires MayMove(d, to)
  {
    d.(sidecar := Marked(d.sidecar, Final(d).binding.value, to))
  }

  /** The record goes; the proposal ref and the denied review stay as evidence. */
  function Removed(d: Disk): Disk
    requires d.entries != []
  {
    d.(entries := d.entries[..|d.entries| - 1])
  }

  ghost predicate StudioMay(d: Disk, w: StudioWrite)
  {
    match w
    case PrepareProposal(m) => Idle(d) && Fresh(d, m)
    case RegisterDecision(disposition, _) => MayRegister(d, disposition)
    case OwedWrite => NextWrite(d).Some?
    case MoveFinal(to) => MayMove(d, to)
    case RemoveDenied => DeniedFinal(d)
  }

  ghost function StudioDoes(d: Disk, w: StudioWrite): Disk
    requires StudioMay(d, w)
  {
    match w
    case PrepareProposal(m) => Prepared(d, m)
    case RegisterDecision(disposition, key) => Registered(d, disposition, key)
    case OwedWrite => NextWrite(d).value
    case MoveFinal(to) => Moved(d, to)
    case RemoveDenied => Removed(d)
  }

  /** Any sequence of single writes, so any interleaving of requests, failures, power losses and restarts. */
  ghost predicate IsStudioRun(d: Disk, run: seq<StudioWrite>, t: Disk)
    decreases |run|
  {
    if run == [] then d == t
    else StudioMay(d, run[0]) && IsStudioRun(StudioDoes(d, run[0]), run[1..], t)
  }

  lemma StudioWriteKeeps(d: Disk, w: StudioWrite)
    requires Coherent(d) && StudioMay(d, w)
    ensures Coherent(StudioDoes(d, w)) && StudioDoes(d, w).first == d.first
  {
    hide Coherent, NextWrite, Registered, MayRegister, Idle, Fresh, MayMove, DeniedFinal;
    match w
    case PrepareProposal(m) => PrepareKeeps(d, m);
    case RegisterDecision(disposition, key) => RegisterKeepsAll(d, disposition, key);
    case OwedWrite =>
      NextWriteKeeps(d);
      ImportIsKept(d);
    case MoveFinal(to) => MoveKeeps(d, to);
    case RemoveDenied => RemoveKeeps(d);
  }

  lemma MoveKeeps(d: Disk, to: ReviewState)
    requires Coherent(d) && MayMove(d, to)
    ensures Coherent(Moved(d, to)) && Moved(d, to).first == d.first
  {
    hide Coherent, AcceptedOk, LineageOk, EntriesOk, RefsOk, Inv, SerialInv, MetaOk, Evolves, Lineage, Before, Trails;
    FinalOk(d);
    var b := Final(d).binding.value;
    WriteIsHealthy(d.sidecar, MoveReview(b, to));
    var t := Marked(d.sidecar, b, to);
    RefsFrame(d, t);
    SidecarWriteKeeps(d, t);
  }

  lemma RemoveKeeps(d: Disk)
    requires Coherent(d) && DeniedFinal(d)
    ensures Coherent(Removed(d)) && Removed(d).first == d.first
  {
    hide AcceptedOk, LineageOk, EntriesOk, RefsOk, Inv, SerialInv;
    DeniedIsUndecided(d);
    RemoveKeepsEntries(d);
    RemoveKeepsRefs(d);
    RemoveKeepsLineage(d);
  }

  lemma DeniedIsUndecided(d: Disk)
    requires Coherent(d) && DeniedFinal(d)
    ensures Final(d).decision == None && Final(d).completion == None && |d.sidecar.reflog| == |d.entries|
    ensures IsDenied(d.sidecar, Final(d).meta.id)
  {
    hide Coherent, AcceptedOk, LineageOk, EntriesOk, RefsOk, SerialInv;
    FinalOk(d);
    SoundReview(d.sidecar, Final(d).binding.value);
  }

  lemma RemoveKeepsEntries(d: Disk)
    requires EntriesOk(d) && d.entries != []
    ensures EntriesOk(Removed(d))
  {
    hide EntryOk;
  }

  lemma RemoveKeepsRefs(d: Disk)
    requires RefsOk(d) && d.entries != [] && IsDenied(d.sidecar, Final(d).meta.id) && |d.sidecar.reflog| <= |d.entries|
    ensures RefsOk(Removed(d))
  {
    hide IsDenied;
    var x := Removed(d);
    forall k | k in x.sidecar.proposals
      ensures Known(x, k) || IsDenied(x.sidecar, k)
    {
      if Known(d, k) {
        var i :| 0 <= i < |d.entries| && d.entries[i].meta.id == k;
        assert i < |x.entries| ==> x.entries[i].meta.id == k;
      }
    }
  }

  lemma RemoveKeepsLineage(d: Disk)
    requires LineageOk(d) && AcceptedOk(d) && d.entries != [] && Final(d).decision == None
    ensures LineageOk(Removed(d)) && AcceptedOk(Removed(d))
  {
    hide MetaOk, Before;
    var x := Removed(d);
    var n := |x.entries|;
    UndecidedKeepsLineage(d);
    forall i | 0 <= i <= n
      ensures Before(d.first, x.entries, i) == Before(d.first, d.entries, i)
      ensures i < n ==> IsRetained(x, Before(x.first, x.entries, i)) && IsAhead(x, i)
    {
      assert x.entries[..i] == d.entries[..i];
      BeforeStays(d.first, d.entries, x.entries, i);
      if i < n {
        assert IsRetained(d, Before(d.first, d.entries, i)) && IsAhead(d, i);
      }
    }
  }

  lemma RegisterKeepsAll(d: Disk, disposition: Disposition, key: Bytes)
    requires Coherent(d) && MayRegister(d, disposition)
    ensures Coherent(Registered(d, disposition, key)) && Registered(d, disposition, key).first == d.first
  {
    hide Coherent;
    RegisterKeeps(d, disposition, key);
  }

  lemma ImportIsKept(d: Disk)
    requires NextWrite(d).Some?
    ensures NextWrite(d).value.first == d.first
  {
  }

  lemma {:induction false} RunsStayCoherent(d: Disk, run: seq<StudioWrite>, t: Disk)
    requires Coherent(d) && IsStudioRun(d, run, t)
    ensures Coherent(t) && t.first == d.first
    decreases |run|
  {
    hide Coherent, StudioDoes, StudioMay;
    if run != [] {
      StudioWriteKeeps(d, run[0]);
      RunsStayCoherent(StudioDoes(d, run[0]), run[1..], t);
    }
  }

  // ---- Accepted is a fold ----

  /** The left fold of the adopted ChangeSets over the imported files. */
  function Folded(files: Files, entries: seq<Entry>, n: nat): Option<Files>
    requires n <= |entries|
  {
    if n == 0 then Some(files)
    else
      var before := Folded(files, entries, n - 1);
      if before.Some? && Adopts(entries[n - 1]) then Apply(entries[n - 1].meta.ops, before.value) else before
  }

  lemma {:induction false} FoldIsLineage(d: Disk, n: nat)
    requires LineageOk(d) && n <= |d.entries|
    ensures Folded(d.first.files, d.entries, n) == Some(Before(d.first, d.entries, n).files)
    decreases n
  {
    hide Apply, Accepts, ValidOperationKey;
    if n > 0 {
      FoldIsLineage(d, n - 1);
      assert MetaOk(d.rules, d.entries[n - 1].meta, Before(d.first, d.entries, n - 1));
    }
  }

  /** Whatever happened since the import, denials and removals included: Accepted is the fold of all
      adopted ChangeSets, or of all but the last one while that write is still owed; nothing adopted was
      blocked. */
  lemma AcceptedIsAFold(rules: Rules, first: Site, run: seq<StudioWrite>, d: Disk)
    requires IsStudioRun(Imported(rules, first), run, d)
    ensures Some(d.accepted.files) == Folded(first.files, d.entries, |d.entries|)
            || (NextWrite(d).Some? && Some(d.accepted.files) == Folded(first.files, d.entries, |d.entries| - 1))
    ensures forall e :: e in d.entries && Adopts(e) ==> !e.meta.blocked
  {
    hide Coherent, IsStudioRun, NextWrite, Folded;
    ImportedIsCoherent(rules, first);
    RunsStayCoherent(Imported(rules, first), run, d);
    CoherentIsFolded(d);
    forall e | e in d.entries && Adopts(e)
      ensures !e.meta.blocked
    {
      var i :| 0 <= i < |d.entries| && d.entries[i] == e;
      AdoptedIsUnblocked(d, i);
    }
  }

  /** A decision that was just registered may still end denied. */
  lemma RegisteredMayBeDenied(d: Disk, disposition: Disposition, key: Bytes)
    requires Coherent(d) && MayRegister(d, disposition)
    ensures StudioMay(Registered(d, disposition, key), MoveFinal(TerminalDenial))
  {
    hide Coherent, AcceptedOk, LineageOk, EntriesOk, RefsOk, Inv, SerialInv, MetaOk, Lineage, Before, Trails;
    FinalOk(d);
    var b := Final(d).binding.value;
    RegistrationIsUnpublished(d.sidecar, b, MakeIntent(b, key, disposition, Final(d).meta.recordedAt));
  }

  /** A denied proposal can be removed, and then a further one may follow. */
  lemma DeniedMayBeRemoved(d: Disk)
    requires Coherent(d) && MayMove(d, TerminalDenial)
    ensures StudioMay(Moved(d, TerminalDenial), RemoveDenied) && Idle(Removed(Moved(d, TerminalDenial)))
  {
    hide Healthy, RefsOk, LineageOk, AcceptedOk, EntryOk;
    var n := |d.entries|;
    assert n > 1 ==> d.entries[n - 2].completion.Some?;
  }

  /** A denied proposal contributes nothing, before and after its removal. */
  lemma DeniedContributesNothing(d: Disk)
    requires Coherent(d) && DeniedFinal(d)
    ensures var n := |d.entries|;
            && Folded(d.first.files, d.entries, n) == Folded(d.first.files, d.entries, n - 1) == Some(d.accepted.files)
            && Folded(d.first.files, Removed(d).entries, n - 1) == Some(Removed(d).accepted.files)
  {
    hide Healthy, EntriesOk, RefsOk, LineageOk, Before;
    var n := |d.entries|;
    DeniedIsUndecided(d);
    RemoveKeeps(d);
    FoldIsLineage(d, n);
    FoldIsLineage(d, n - 1);
    UndecidedKeepsLineage(d);
    FoldIsLineage(Removed(d), n - 1);
    assert Removed(d).entries[..n - 1] == d.entries[..n - 1];
    BeforeStays(d.first, Removed(d).entries, d.entries, n - 1);
  }

  lemma CoherentIsFolded(d: Disk)
    requires Coherent(d)
    ensures Some(d.accepted.files) == Folded(d.first.files, d.entries, |d.entries|)
            || (NextWrite(d).Some? && Some(d.accepted.files) == Folded(d.first.files, d.entries, |d.entries| - 1))
  {
    hide Healthy, EntriesOk, RefsOk, LineageOk, NextWrite, Folded, Before;
    FoldIsLineage(d, |d.entries|);
    if Trails(d) {
      FoldIsLineage(d, |d.entries| - 1);
      TrailingOwes(d);
    }
  }

  lemma AdoptedIsUnblocked(d: Disk, i: nat)
    requires Coherent(d) && i < |d.entries| && Adopts(d.entries[i])
    ensures !d.entries[i].meta.blocked
  {
    hide Healthy, RefsOk, LineageOk, AcceptedOk;
    assert EntryOk(d.sidecar, i, d.entries[i]);
  }

  lemma TrailingOwes(d: Disk)
    requires Coherent(d) && Trails(d)
    ensures NextWrite(d).Some?
  {
    hide Coherent, AcceptedOk, LineageOk, EntriesOk, RefsOk, Inv, SerialInv, MetaOk, Lineage, Before;
    FinalOk(d);
  }
}
