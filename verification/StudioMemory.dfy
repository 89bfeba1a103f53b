/** The process memory that mirrors a project's disk, and what its requests owe the disk. */
module StudioMemory {
  import opened Base
  import opened GraphWalk
  import opened ChangeSet
  import opened ChangeSetLaws
  import opened Synapse
  import opened SerialRuns
  import opened Paths
  import opened SidecarSpec
  import opened SidecarFaults
  import opened SidecarFrames
  import opened Sidecar
  import opened SidecarTheorems
  import opened StudioDisk
  import opened StudioInvariant
  import opened StudioSteps
  import opened StudioLaws
  import opened CrashRefinement
  import opened StudioCalls
  import opened StudioLedger
  import opened Approvals

  datatype StudioError =
    | InvalidRequest | NotFound | ReviewTerminal | SingleProposalLimit | AtCapacityError
    | ChangeSetRefused(reason: ChangeSetError)
    | ApprovalRefused(cause: ApprovalError) | ApprovalBindingMismatch | BlockedByValidation
    | RevisionMismatch | DecisionBindingMismatch | StaleProposal | ReceiptMismatch
    | NotCommittedYet(state: ReviewState) | ReconciliationRequired | CleanupMismatch
    | InvalidPersistedState | SidecarFailed(error: SidecarError) | StorageFailed

  datatype Active = Active(meta: Meta, review: Binding, failed: bool, outcome: ReviewState)

  datatype HistoryRecord = HistoryRecord(id: OperationKey, review: Binding, base: Site, resulting: Revision,
      files: Files, receipt: DecisionReceipt)

  function RecordOf(m: Meta, decision: DecisionMeta): HistoryRecord
  {
    HistoryRecord(m.id, decision.review, m.base, decision.resulting, m.files, decision.receipt)
  }

  /** The records of the first `n` proposals that have a decision. */
  function HistoryOf(entries: seq<Entry>, n: nat): seq<HistoryRecord>
    requires n <= |entries|
  {
    if n == 0 then []
    else
      var e := entries[n - 1];
      HistoryOf(entries, n - 1) + if e.decision.Some? then [RecordOf(e.meta, e.decision.value)] else []
  }

  datatype Memory = Memory(accepted: Site, proposal: Option<Active>, history: seq<HistoryRecord>)

  /** The memory of a process that serves this disk; the outcome shown for an undecided proposal may
      have been downgraded by a failed request. */
  predicate Mirrors(d: Disk, m: Memory)
  {
    && m.accepted == d.accepted
    && m.history == HistoryOf(d.entries, if Idle(d) then |d.entries| else |d.entries| - 1)
    && if Idle(d) then m.proposal == None
       else
         && Final(d).binding.Some? && m.proposal.Some?
         && m.proposal.value.meta == Final(d).meta && m.proposal.value.review == Final(d).binding.value
  }

  /** An undecided proposal is shown with the state of its review. */
  function Waiter(d: Disk): Active
    requires d.entries != [] && Final(d).binding.Some?
  {
    var b := Final(d).binding.value;
    var state := if b in d.sidecar.journal then d.sidecar.journal[b].state else PendingReview;
    Active(Final(d).meta, b, state == TerminalDenial, state)
  }

  /** What a restart shows. */
  function Projection(d: Disk): Memory
  {
    Memory(d.accepted,
           if Idle(d) || Final(d).binding == None then None
           else Some(Waiter(d)),
           HistoryOf(d.entries, if Idle(d) then |d.entries| else |d.entries| - 1))
  }

  datatype DecisionRequest = DecisionRequest(session: string, review: Binding, proposal: OperationKey,
      expected: Revision,
                                             disposition: Disposition, intent: Bytes, token: Token,
                                                 rationale: Option<Rationale>)

  const MAX_RATIONALE_BYTES := 2_000

  /** The text check of the request: line breaks and tabs are fine here, unlike in the sidecar. */
  predicate ValidHumanText(r: Option<Rationale>)
  {
    r.Some? ==>
      && 0 < |r.value| <= MAX_RATIONALE_BYTES
      && forall i :: 0 <= i < |r.value| && ControlAt(r.value, i) ==> IsLineBreakOrTab(r.value[i])
  }

  predicate IsLineBreakOrTab(c: char) { c == '\n' || c == '\r' || c == '\t' }

  /** The two checks differ exactly on line breaks and tabs. */
  lemma OnlyLineBreaksDiffer(r: Option<Rationale>)
    requires ValidHumanText(r)
    ensures ValidPrivateRationale(r) <==> r == None || forall c :: c in r.value ==> !IsLineBreakOrTab(c)
  {
    if r.Some? {
      forall c | c in r.value && IsLineBreakOrTab(c)
        ensures !ValidPrivateRationale(r)
      {
        var i :| 0 <= i < |r.value| && r.value[i] == c;
        assert ControlAt(r.value, i);
      }
    }
  }

  const TWO_LINES := "a\nb"

  lemma TwoLinesAreHumanText()
    ensures ValidHumanText(Some(TWO_LINES)) && !ValidPrivateRationale(Some(TWO_LINES))
  {
    assert TWO_LINES[1] == '\n';
    OnlyLineBreaksDiffer(Some(TWO_LINES));
  }

  const MAX_INTENT_BYTES := 128

  predicate IsIntentChar(c: char)
  {
    'a' <= c <= 'z' || 'A' <= c <= 'Z' || '0' <= c <= '9' || c in "-_.:"
  }

  predicate ValidIntent(intent: Bytes)
  {
    0 < |intent| <= MAX_INTENT_BYTES && forall b :: b in intent ==> IsIntentChar(b as char)
  }

  // ---- Progress along the owed writes ----

  /** Staying coherent and bounded on the way. */
  lemma AlongKeeps(start: Disk, fuse: nat, d: Disk, left: nat)
    requires Coherent(start) && Bounded(start) && Along(start, fuse, d, left)
    ensures Coherent(d) && Bounded(d) && d.first == start.first && d.rules == start.rules
    ensures |d.entries| == |start.entries|
    ensures d.entries != [] ==> d.entries[..|d.entries| - 1] == start.entries[..|d.entries| - 1]
  {
    hide Coherent;
    RedoKeeps(start, fuse - left);
    RedoKeepsShape(start, fuse - left);
  }

  lemma NextKeepsShape(d: Disk)
    requires NextWrite(d).Some?
    ensures var t := NextWrite(d).value;
            && |t.entries| == |d.entries| && t.first == d.first && t.rules == d.rules && d.entries != []
            && Final(t).meta == Final(d).meta && t.entries[..|d.entries| - 1] == d.entries[..|d.entries| - 1]
  {
  }

  lemma {:induction false} RedoKeepsShape(d: Disk, k: nat)
    requires k < |Redo(d)|
    ensures var t := Redo(d)[k];
            && |t.entries| == |d.entries| && t.first == d.first && t.rules == d.rules
            && (d.entries != [] ==>
                 Final(t).meta == Final(d).meta && t.entries[..|d.entries| - 1] == d.entries[..|d.entries| - 1])
    decreases k
  {
    hide NextWrite;
    if k > 0 {
      EachWriteSettles(d);
      NextKeepsShape(d);
      RedoKeepsShape(NextWrite(d).value, k - 1);
    }
  }

  // ---- The Studio's own owed writes ----

  lemma OwesDecision(d: Disk, b: Binding)
    requires Coherent(d) && CommittedFinal(d, b)
    ensures var decision := DecisionFor(Final(d).meta, b, ReceiptAt(d, b));
            if Final(d).decision == None
            then NextWrite(d) == Some(SetFinal(d, Final(d).(decision := Some(decision)))) && Final(d).completion == None
            else Final(d).decision == Some(decision)
  {
    hide Coherent, AcceptedOk, LineageOk, EntriesOk, RefsOk, Inv, SerialInv, MetaOk;
    FinalOk(d);
  }

  lemma OwesTheRest(d: Disk, b: Binding)
    requires CommittedFinal(d, b) && Final(d).decision.Some? && Final(d).completion == None
    ensures var m := Final(d).meta;
            NextWrite(d) ==
              if Adopts(Final(d)) && d.accepted.revision != m.planned
              then Some(d.(accepted := Site(m.planned, m.files), retained := d.retained[m.planned := m.files]))
              else Some(SetFinal(d, Final(d).(completion := Some(CompletionFor(b, Final(d).decision.value)))))
  {
  }

  lemma CommitIsOwed(d: Disk, b: Binding)
    requires Coherent(d) && CommittedFinal(d, b) && Adopts(Final(d)) && d.accepted.revision != Final(d).meta.planned
    ensures var m := Final(d).meta;
            NextWrite(d) == Some(d.(accepted := Site(m.planned, m.files), retained := d.retained[m.planned := m.files]))
  {
    hide Coherent;
    if Final(d).completion.Some? {
      CompletedIsCurrent(d);
    }
    OwesTheRest(d, b);
  }

  lemma CompletionIsOwed(d: Disk, b: Binding)
    requires CommittedFinal(d, b) && Final(d).decision.Some? && Final(d).completion == None
    requires Adopts(Final(d)) ==> d.accepted.revision == Final(d).meta.planned
    ensures NextWrite(d) == Some(SetFinal(d, Final(d).(completion := Some(CompletionFor(b, Final(d).decision.value)))))
  {
  }

  lemma OwesNothing(d: Disk, b: Binding)
    requires CommittedFinal(d, b) && Final(d).decision.Some? && Final(d).completion.Some?
    requires Adopts(Final(d)) ==> d.accepted.revision == Final(d).meta.planned
    ensures NextWrite(d) == None
  {
  }

  /** The completion turns the active proposal into history. */
  lemma CompletionShows(d: Disk, m: Memory, t: Disk, b: Binding, decision: DecisionMeta)
    requires Mirrors(d, m) && m.proposal.Some? && CommittedFinal(d, b) && Final(d).decision == Some(decision)
    requires Adopts(Final(d)) ==> d.accepted.revision == Final(d).meta.planned
    requires t == SetFinal(d, Final(d).(completion := Some(CompletionFor(b, decision))))
    ensures Mirrors(t, Memory(m.accepted, None, m.history + [RecordOf(Final(d).meta, decision)]))
    ensures NextWrite(t) == None
  {
    hide HistoryOf;
    HistoryStays(d.entries, t.entries, |d.entries| - 1);
    HistoryEnds(t.entries);
    OwesNothing(t, b);
  }

  ghost predicate IsOf(entries: seq<Entry>, n: nat, b: Binding)
    requires n <= |entries|
  {
    exists j :: 0 <= j < n && b.operation == entries[j].meta.id
  }

  lemma {:induction false} HistoryIsOfEntries(d: Disk, n: nat)
    requires Ledger(d) && n <= |d.entries|
    ensures forall k :: 0 <= k < |HistoryOf(d.entries, n)| ==> IsOf(d.entries, n, HistoryOf(d.entries, n)[k].review)
    decreases n
  {
    hide LineageOk, AcceptedOk;
    if n > 0 {
      HistoryIsOfEntries(d, n - 1);
      var e, earlier := d.entries[n - 1], HistoryOf(d.entries, n - 1);
      assert RecordOk(d.sidecar, e);
      forall k | 0 <= k < |HistoryOf(d.entries, n)|
        ensures IsOf(d.entries, n, HistoryOf(d.entries, n)[k].review)
      {
        if k < |earlier| {
          assert IsOf(d.entries, n - 1, earlier[k].review);
        } else {
          assert HistoryOf(d.entries, n)[k] == RecordOf(e.meta, e.decision.value);
        }
      }
    }
  }

  lemma ActiveIsNotHistory(d: Disk, m: Memory)
    requires Ledger(d) && Mirrors(d, m) && m.proposal.Some?
    ensures forall k :: 0 <= k < |m.history| ==> m.history[k].review != m.proposal.value.review
  {
    hide LineageOk, AcceptedOk, HistoryOf;
    HistoryIsOfEntries(d, |d.entries| - 1);
    assert RecordOk(d.sidecar, Final(d));
    forall k | 0 <= k < |m.history|
      ensures m.history[k].review != m.proposal.value.review
    {
      assert IsOf(d.entries, |d.entries| - 1, m.history[k].review);
    }
  }

  lemma ActiveHasRecord(d: Disk, m: Memory)
    requires Mirrors(d, m) && m.proposal.Some?
    ensures d.entries != [] && Final(d).meta == m.proposal.value.meta
    ensures Final(d).binding == Some(m.proposal.value.review)
  {
  }

  lemma ActiveIsUnfinished(d: Disk, m: Memory)
    requires Mirrors(d, m) && m.proposal.Some?
    ensures d.entries != [] && Final(d).completion == None
  {
  }

  lemma {:induction false} HistoryStays(entries: seq<Entry>, other: seq<Entry>, n: nat)
    requires n <= |entries| && n <= |other| && entries[..n] == other[..n]
    ensures HistoryOf(entries, n) == HistoryOf(other, n)
    decreases n
  {
    if n > 0 {
      assert entries[n - 1] == entries[..n][n - 1] == other[n - 1];
      assert entries[..n - 1] == entries[..n][..n - 1] == other[..n - 1];
      HistoryStays(entries, other, n - 1);
    }
  }

  lemma HistoryEnds(entries: seq<Entry>)
    requires entries != [] && entries[|entries| - 1].decision.Some?
    ensures var e := entries[|entries| - 1];
            HistoryOf(entries, |entries|) == HistoryOf(entries, |entries| - 1) + [RecordOf(e.meta, e.decision.value)]
  {
  }

  lemma FinalIsCurrent(d: Disk, b: Binding)
    requires Coherent(d) && CommittedFinal(d, b)
    ensures var m := Final(d).meta;
            var receipt := ReceiptAt(d, b);
            var adopted := receipt.disposition == AdoptedUnchanged;
            && (d.accepted == m.base || (adopted && d.accepted == Site(m.planned, m.files)))
            && receipt.reviewed == (if adopted then m.files else m.base.files)
  {
    hide Coherent, Inv, SerialInv, EntriesOk, RefsOk, LineageOk, Before, Lineage, EntryOk;
    FinalOk(d);
    EntryAt(d, |d.entries| - 1);
    EarlierAreDecided(d);
    DecisionAgrees(d, b);
    SiteOfHead(d, |d.entries| - 1);
    assert d.accepted == Lineage(d) || Trails(d);
    LineageUnfolds(d);
  }

  lemma LineageUnfolds(d: Disk)
    requires d.entries != []
    ensures Lineage(d) == if Adopts(Final(d)) then Site(Final(d).meta.planned, Final(d).meta.files)
            else Before(d.first, d.entries, |d.entries| - 1)
  {
  }

  lemma DecisionAgrees(d: Disk, b: Binding)
    requires d.entries != [] && EntryOk(d.sidecar, |d.entries| - 1, Final(d)) && CommittedFinal(d, b)
    ensures Adopts(Final(d)) ==> ReceiptAt(d, b).disposition == AdoptedUnchanged
    ensures |d.entries| - 1 < |d.sidecar.reflog| && b == BindingFor(Final(d).meta, d.sidecar.reflog[|d.entries| - 1])
    ensures HasDecisionIntent(d, b)
  {
  }

  lemma IdleOwesNothing(d: Disk, m: Memory)
    requires Coherent(d) && Mirrors(d, m) && m.proposal == None
    ensures NextWrite(d) == None
  {
    hide Coherent, Healthy, EntriesOk, RefsOk, LineageOk, AcceptedOk, Before;
    if d.entries != [] {
      CompletedOwesNothing(d);
    }
  }

  lemma CompletedOwesNothing(d: Disk)
    requires Coherent(d) && d.entries != [] && Final(d).completion.Some?
    ensures NextWrite(d) == None
  {
    hide Coherent, Inv, SerialInv, EntriesOk, RefsOk, LineageOk, AcceptedOk, Before;
    FinalOk(d);
    CompletedIsCurrent(d);
  }

  lemma CompletedIsCurrent(d: Disk)
    requires Coherent(d) && d.entries != [] && Final(d).completion.Some?
    ensures Adopts(Final(d)) ==> d.accepted.revision == Final(d).meta.planned
  {
    hide Healthy, EntriesOk, RefsOk, LineageOk;
    LineageUnfolds(d);
  }

  lemma MemoryAgrees(d: Disk, m: Memory)
    requires Mirrors(d, m)
    ensures d.accepted == m.accepted
  {
  }

  /** Where a resumption leaves the disk. */
  lemma ResumedOnDisk(d: Disk, b: Binding, fuse: nat, left: nat, now: State,
                      answer: Result<ReviewOutcome, SidecarError>)
    requires Coherent(d) && Bounded(d) && d.entries != [] && Final(d).binding == Some(b)
    requires Performed(ResumeRun(d.sidecar, b), fuse, left, now, answer)
    ensures var t := d.(sidecar := now);
            && Along(d, fuse, t, left) && Coherent(t) && Bounded(t)
            && (answer.Err? ==> Stands(d, b) && left == 0 && NextWrite(t).Some?)
            && (answer.Ok? && answer.value.Committed? ==>
                  Stands(d, b) && CommittedFinal(t, b) && answer.value.receipt == ReceiptAt(t, b))
            && (answer.Ok? && answer.value.NotCommitted? ==>
                  t == d && Waits(d) && NextWrite(d) == None && answer.value.state == OutcomeOf(d))
  {
    hide Coherent, Along, NextWrite, Inv, SerialInv, Redo, ResumeRun, Follows;
    ResumeFollows(d, |d.entries| - 1);
    var run := ResumeRun(d.sidecar, b);
    if Stands(d, b) {
      PerformedIsAlong(d, run, fuse, left, now, answer);
      ResumedIsCommitted(d, b);
    } else {
      assert now == d.sidecar && answer == run.answer;
      NoWrite(d, fuse);
      BoundWaits(d, b);
      AwaitingOwesNothing(d);
    }
    AlongKeeps(d, fuse, d.(sidecar := now), left);
  }

  lemma MirrorsStay(d: Disk, t: State, m: Memory)
    requires Mirrors(d, m)
    ensures Mirrors(d.(sidecar := t), m)
  {
  }

  lemma BoundWaits(d: Disk, b: Binding)
    requires Coherent(d) && d.entries != [] && Final(d).binding == Some(b) && !Stands(d, b)
    ensures Waits(d)
  {
    hide Coherent, Inv, SerialInv;
    FinalOk(d);
  }

  lemma ResumedIsCommitted(d: Disk, b: Binding)
    requires d.entries != [] && Final(d).binding == Some(b) && HasDecisionIntent(d, b)
    ensures var t := d.(sidecar := Resumed(d.sidecar, b));
            CommittedFinal(t, b) && ReceiptAt(t, b) == ReceiptAt(d, b)
  {
    var c := d.sidecar.journal[b].intent.value.candidate;
    if c !in d.sidecar.reflog {
      assert (d.sidecar.reflog + [c])[|d.sidecar.reflog|] == c;
    }
  }

  lemma NoWrite(d: Disk, fuse: nat)
    ensures Along(d, fuse, d, fuse)
  {
  }

  lemma OneWrite(d: Disk, fuse: nat)
    requires Coherent(d) && Bounded(d) && fuse > 0 && NextWrite(d).Some?
    ensures Along(d, fuse, NextWrite(d).value, fuse - 1)
    ensures Coherent(NextWrite(d).value) && Bounded(NextWrite(d).value)
  {
    hide Coherent, NextWrite;
    NoWrite(d, fuse);
    AlongStep(d, fuse, d, fuse);
    NextWriteKeeps(d);
    NextKeepsShape(d);
  }

  lemma MetasStay(entries: seq<Entry>, other: seq<Entry>)
    requires |entries| <= |other| && forall i :: 0 <= i < |entries| ==> other[i].meta == entries[i].meta
    ensures forall id :: MayBeAdopted(entries, id) ==> MayBeAdopted(other, id)
  {
    forall id | MayBeAdopted(entries, id)
      ensures MayBeAdopted(other, id)
    {
      var i :| 0 <= i < |entries| && entries[i].meta.id == id && !entries[i].meta.blocked;
      assert other[i].meta == entries[i].meta;
    }
  }

  predicate MayBeAdopted(entries: seq<Entry>, id: OperationKey)
  {
    exists i :: 0 <= i < |entries| && entries[i].meta.id == id && !entries[i].meta.blocked
  }

  /** A proposal that may be adopted by its identifier is the active one. */
  lemma UnblockedIsFinal(d: Disk, id: OperationKey)
    requires NamesOk(d.entries) && MayBeAdopted(d.entries, id) && d.entries != [] && Final(d).meta.id == id
    ensures !Final(d).meta.blocked
  {
    var i :| 0 <= i < |d.entries| && d.entries[i].meta.id == id && !d.entries[i].meta.blocked;
    assert i == |d.entries| - 1;
  }

  /** The intent is registered and some of the writes owed since have been made. */
  ghost predicate Underway(d: Disk, request: DecisionRequest, fuse: nat, t: Disk, left: nat)
  {
    fuse > 0 && MayRegister(d, request.disposition)
      && Along(Registered(d, request.disposition, request.intent), fuse - 1, t, left)
  }

  lemma UnderwayTrans(d: Disk, request: DecisionRequest, fuse: nat, mid: Disk, half: nat, t: Disk, left: nat)
    requires Underway(d, request, fuse, mid, half) && Along(mid, half, t, left)
    ensures Underway(d, request, fuse, t, left)
  {
    hide Along, Registered;
    AlongTrans(Registered(d, request.disposition, request.intent), fuse - 1, mid, half, t, left);
  }

  lemma PerformedTail<R>(run: Run<R>, fuse: nat, left: nat, now: State, answer: Result<R, SidecarError>)
    requires |run.states| > 1 && Performed(run, fuse, left, now, answer)
    ensures fuse == 0 ==> now == run.states[0] && left == 0 && answer == Err(PowerLoss)
    ensures fuse > 0 ==> Performed(Run(run.states[1..], run.answer), fuse - 1, left, now, answer)
  {
  }

  /** Where a call of decide leaves the disk. */
  lemma DecidedOnDisk(d: Disk, request: DecisionRequest, fuse: nat, left: nat, now: State,
                      answer: Result<ReviewOutcome, SidecarError>, m: Memory)
    requires Coherent(d) && Bounded(d) && MayRegister(d, request.disposition) && ValidKey(request.intent)
             && Mirrors(d, m)
    requires Final(d).binding == Some(request.review)
    requires Performed(DecideRun(d.sidecar, request.review, request.disposition, request.rationale, request.intent,
               Final(d).meta.recordedAt),
                       fuse, left, now, answer)
    ensures var t := d.(sidecar := now);
            && Coherent(t) && Bounded(t) && Mirrors(t, m)
            && (t == d || Underway(d, request, fuse, t, left))
            && (!ValidPrivateRationale(request.rationale) ==> t == d && answer.Err?)
            && (ValidPrivateRationale(request.rationale) && answer.Err? ==> left == 0)
            && (answer.Ok? ==>
                  && Underway(d, request, fuse, t, left)
                  && answer.value.Committed? && CommittedFinal(t, request.review)
                     && answer.value.receipt == ReceiptAt(t, request.review)
                  && answer.value.receipt.disposition == request.disposition)
  {
    hide Coherent, Along, NextWrite, Inv, SerialInv, Redo, DecideRun, Follows, Registered;
    var b := request.review;
    var r := Registered(d, request.disposition, request.intent);
    if !ValidPrivateRationale(request.rationale) {
      InvalidRationaleStays(d.sidecar, b, request.disposition, request.rationale, request.intent,
          Final(d).meta.recordedAt);
      assert d.(sidecar := now) == d;
      return;
    }
    DecideFollows(d, request.disposition, request.rationale, request.intent);
    var run :=
      DecideRun(d.sidecar, b, request.disposition, request.rationale, request.intent, Final(d).meta.recordedAt);
    PerformedTail(run, fuse, left, now, answer);
    RegisterKeeps(d, request.disposition, request.intent);
    RegisteredShape(d, request.disposition, request.intent);
    assert r.(sidecar := now) == d.(sidecar := now);
    if fuse > 0 {
      PerformedIsAlong(r, Run(run.states[1..], run.answer), fuse - 1, left, now, answer);
      AlongKeeps(r, fuse - 1, r.(sidecar := now), left);
      ResumedIsCommitted(r, b);
    }
  }

  lemma RegisteredShape(d: Disk, disposition: Disposition, key: Bytes)
    requires Awaiting(d)
    ensures Registered(d, disposition, key) == d.(sidecar := Registered(d, disposition, key).sidecar)
    ensures HasDecisionIntent(Registered(d, disposition, key), Final(d).binding.value)
  {
  }

  lemma InvalidRationaleStays(s: State, b: Binding, disposition: Disposition, rationale: Option<Rationale>, key: Bytes,
                              at: nat)
    requires !ValidPrivateRationale(rationale)
    ensures DecideRun(s, b, disposition, rationale, key, at) == Stay(s, Err(InvalidArgument))
  {
  }

  lemma SettledMeansDecided(d: Disk, request: DecisionRequest, fuse: nat, t: Disk, left: nat)
    requires Coherent(d) && Underway(d, request, fuse, t, left) && NextWrite(t) == None
    ensures t == AfterDecision(d, request.disposition, request.intent)
  {
    hide Coherent, Registered, AfterDecision, NextWrite;
    var r := Registered(d, request.disposition, request.intent);
    SettledFromInside(r, fuse - 1, t, left);
    assert Redo(t) == [t];
    DecisionOutcome(d, request.disposition, request.intent);
  }

  // ---- Calls into the sidecar, whatever fails ----

  lemma ResumeKeepsBooks(d: Disk, b: Binding, t: State, answer: Result<ReviewOutcome, SidecarError>, used: seq<Use>)
    requires Ledger(d) && IntentsAreApproved(d.sidecar.journal, used)
    requires Resumes(d.sidecar, b, t, answer) && Evolves(d.sidecar, t)
    ensures Ledger(d.(sidecar := t)) && IntentsAreApproved(t.journal, used)
    ensures Quiet(d) ==> Quiet(d.(sidecar := t))
  {
    hide *;
    ResumptionKeepsIntents(d.sidecar, b, t, answer);
    RideKeeps(d, t);
    ApprovalsStay(d.sidecar, t, used);
  }

  lemma BeginKeepsBooks(d: Disk, input: ProposalInput, at: nat, t: State, answer: Result<ProposalReceipt, SidecarError>,
                        used: seq<Use>)
    requires Ledger(d) && IntentsAreApproved(d.sidecar.journal, used)
    requires Cut(BeginRun(d.sidecar, input, at), t, answer) && Evolves(d.sidecar, t)
    ensures Ledger(d.(sidecar := t)) && IntentsAreApproved(t.journal, used)
    ensures Quiet(d) ==> Quiet(d.(sidecar := t))
  {
    hide *;
    BeginKeepsIntents(d.sidecar, input, at, t, answer);
    RideKeeps(d, t);
    ApprovalsStay(d.sidecar, t, used);
  }

  /** The approval consumed for a request covers the intent it registers. */
  predicate Covers(u: Use, request: DecisionRequest)
  {
    u.binding.review == request.review && u.binding.intent == request.intent
      && u.binding.disposition == request.disposition
  }

  lemma DecideKeepsBooks(d: Disk, request: DecisionRequest, at: nat, t: State,
                         answer: Result<ReviewOutcome, SidecarError>, used: seq<Use>)
    requires Ledger(d) && IntentsAreApproved(d.sidecar.journal, used)
    requires used != [] && Covers(used[|used| - 1], request)
    requires d.entries != [] && Final(d).binding == Some(request.review)
    requires request.disposition == AdoptedUnchanged ==> !Final(d).meta.blocked
    requires Decides(d.sidecar, request.review, request.disposition, request.rationale, request.intent, at, t, answer)
    requires Evolves(d.sidecar, t)
    ensures Ledger(d.(sidecar := t)) && IntentsAreApproved(t.journal, used)
  {
    hide Ledger, IntentsAreApproved, Decides, Evolves, IntentsBut;
    var i := MakeIntent(request.review, request.intent, request.disposition, at);
    DecisionIntents(d.sidecar, request.review, request.disposition, request.rationale, request.intent, at, t, answer);
    DecideRides(d, t, request.review, i);
    assert UseFor(used[|used| - 1], request.review, i);
    ApprovalCovers(d.sidecar, t, used, request.review, i);
  }

  lemma AnswerIsTrue(d: Disk, b: Binding, answer: ReviewOutcome, serial: bool)
    requires Truthful(d.sidecar, b, answer, serial)
    ensures answer.Committed? && d.entries != [] && Final(d).binding == Some(b) ==>
              CommittedFinal(d, b) && answer.receipt == ReceiptAt(d, b)
    ensures answer.NotCommitted? && serial ==> b in d.sidecar.journal && d.sidecar.journal[b].state == answer.state
  {
  }

  lemma AnswerIsState(s: State, b: Binding, answer: ReviewOutcome)
    requires Truthful(s, b, answer, true)
    ensures b in s.journal
    ensures s.journal[b].state == if answer.Committed? then DecisionCommitted else answer.state
  {
  }

  lemma DenialLasts(s: State, t: State)
    requires Evolves(s, t)
    ensures forall b :: b in s.journal && s.journal[b].state == TerminalDenial ==>
              b in t.journal && t.journal[b].state == TerminalDenial
  {
    forall b | b in s.journal && s.journal[b].state == TerminalDenial
      ensures b in t.journal && t.journal[b].state == TerminalDenial
    {
      assert ReviewAdvances(s.journal[b], t.journal[b]);
    }
  }

  lemma DecisionIsAnswered(d: Disk, request: DecisionRequest, at: nat, t: State,
                           answer: Result<ReviewOutcome, SidecarError>)
    requires Ledger(d) && Inv(d.sidecar) && d.entries != [] && Final(d).binding == Some(request.review)
    requires Decides(d.sidecar, request.review, request.disposition, request.rationale, request.intent, at, t, answer)
    ensures answer != Ok(NotCommitted(PendingReview))
  {
    hide Decides, LineageOk, AcceptedOk, Inv;
    assert RecordOk(d.sidecar, Final(d));
    IntentFitsReview(d.sidecar, request.review);
    DecisionIsNeverPending(d.sidecar, request.review, request.disposition, request.rationale, request.intent, at, t,
        answer);
  }

  lemma IntentFitsReview(s: State, b: Binding)
    requires Inv(s) && b in s.journal
    ensures s.journal[b].intent.Some? ==> IntentFits(b, s.journal[b].intent.value)
  {
    SoundReview(s, b);
  }

  lemma LedgerNames(d: Disk)
    requires Ledger(d)
    ensures NamesOk(d.entries)
  {
  }

  /** The record of this proposal, decided as requested. */
  predicate IsDecided(p: Active, request: DecisionRequest, h: HistoryRecord)
  {
    var adopts := request.disposition == AdoptedUnchanged;
    && h.id == p.meta.id && h.review == p.review && h.base == p.meta.base && h.files == p.meta.files
    && h.receipt.disposition == request.disposition
    && h.resulting == (if adopts then p.meta.planned else p.meta.base.revision)
    && (adopts ==> h.receipt.reviewed == p.meta.files)
  }

  /** The proposal of a failed request: the same, shown as unknown. */
  predicate MarkedUnknown(p: Option<Active>, q: Option<Active>)
  {
    p.Some? && q == Some(p.value.(outcome := OutcomeUnknown))
  }

  /** What the memory shows after a failed decision: the same proposal with the outcome the answer names. */
  predicate MustReconcile(p: Option<Active>, q: Option<Active>, error: StudioError)
  {
    match error
    case NotCommittedYet(state) =>
      && p.Some? && state != PendingReview
      && q == Some(p.value.(failed := p.value.failed || state == TerminalDenial, outcome := state))
    case _ => error == ReconciliationRequired && MarkedUnknown(p, q)
  }

  /** A grant to adopt in this project names a recorded proposal that no check blocks. */
  predicate GrantIsUnblocked(project: string, entries: seq<Entry>, binding: ApprovalBinding)
  {
    binding.project == project && binding.disposition == AdoptedUnchanged ==> MayBeAdopted(entries, binding.proposal)
  }

  lemma OthersMayBeAdopted(d: Disk, project: string, binding: ApprovalBinding)
    requires d.entries != [] && GrantIsUnblocked(project, d.entries, binding)
    requires binding.project != project || binding.proposal != Final(d).meta.id
    ensures GrantIsUnblocked(project, Removed(d).entries, binding)
  {
    if binding.project == project && binding.disposition == AdoptedUnchanged {
      var i :| 0 <= i < |d.entries| && d.entries[i].meta.id == binding.proposal && !d.entries[i].meta.blocked;
      assert Removed(d).entries[i] == d.entries[i];
    }
  }

  lemma IntentIsKey(intent: Bytes)
    requires ValidIntent(intent)
    ensures ValidKey(intent)
  {
  }

  lemma RemovedHasNoRecord(d: Disk)
    requires Ledger(d) && d.entries != []
    ensures forall i :: 0 <= i < |Removed(d).entries| ==> Removed(d).entries[i].meta.id != Final(d).meta.id
  {
    hide LineageOk, AcceptedOk;
  }

  /** Without its denied proposal the project is idle again. */
  lemma RemovalShows(d: Disk, m: Memory)
    requires Coherent(d) && DeniedFinal(d) && Mirrors(d, m)
    ensures Mirrors(Removed(d), m.(proposal := None))
  {
    hide Coherent, HistoryOf;
    DeniedIsUndecided(d);
    EarlierAreDecided(d);
    HistoryStays(d.entries, Removed(d).entries, |d.entries| - 1);
  }

  // ---- Binding and recovering ----

  datatype ProposalRequest = ProposalRequest(id: OperationKey, planned: Revision, ops: seq<Operation>, context: string,
                                             recordedAt: nat, blocked: bool)

  /** What recovery finds for one proposal: it waits for a decision, or its decision is on record. */
  datatype Found = Waiting(review: Binding, state: ReviewState) | OnRecord(decision: DecisionMeta)

  /** Where begin_proposal leaves the disk. */
  lemma BegunOnDisk(d: Disk, fuse: nat, left: nat, now: State, answer: Result<ProposalReceipt, SidecarError>)
    requires Coherent(d) && Bounded(d) && d.entries != [] && Final(d).binding == None
    requires Performed(BeginRun(d.sidecar, InputOf(Final(d).meta, d.accepted.files), Final(d).meta.recordedAt), fuse,
               left, now, answer)
    ensures var t := d.(sidecar := now);
            var m := Final(d).meta;
            && Along(d, fuse, t, left) && Coherent(t) && Bounded(t)
            && (answer.Err? ==> left == 0 && NextWrite(t).Some?)
            && (answer.Ok? ==>
                  && answer.value == ProposalReceipt(answer.value.review, d.accepted.files, m.files, m.context)
                  && NextWrite(t) == Some(SetFinal(t, Final(t).(binding := Some(answer.value.review)))))
  {
    hide Coherent, Along, NextWrite, Inv, SerialInv, Redo, BeginRun, Follows;
    BeginFollows(d);
    PerformedIsAlong(d, BeginRun(d.sidecar, InputOf(Final(d).meta, d.accepted.files), Final(d).meta.recordedAt), fuse,
        left, now, answer);
    AlongKeeps(d, fuse, d.(sidecar := now), left);
  }

  /** A proposal that has just been bound waits for its decision. */
  lemma JustBoundAwaits(d: Disk, b: Binding)
    requires Coherent(d) && d.entries != [] && Final(d).binding == None
    requires NextWrite(d) == Some(SetFinal(d, Final(d).(binding := Some(b))))
    ensures Awaiting(SetFinal(d, Final(d).(binding := Some(b))))
  {
    hide Coherent, Inv, SerialInv, EntriesOk, RefsOk, LineageOk, AcceptedOk;
    FinalOk(d);
    assert Final(BindNext(d)).binding == Some(b);
  }

  lemma UnboundIsUndecided(d: Disk)
    requires Coherent(d) && d.entries != [] && Final(d).decision == None
    ensures d.accepted == Final(d).meta.base
    ensures Final(d).binding == None ==> Final(d).completion == None
  {
    hide Coherent, Inv, SerialInv, EntriesOk, RefsOk, LineageOk, AcceptedOk;
    FinalOk(d);
    AcceptedIsBase(d);
  }

  /** What the disk says about a decision agrees with the journal. */
  lemma RecordAgrees(d: Disk, i: nat)
    requires Coherent(d) && i < |d.entries| && d.entries[i].decision.Some?
    ensures d.entries[i].binding.Some?
    ensures var m := d.entries[i].meta;
            var b := d.entries[i].binding.value;
            && HasDecisionIntent(d, b) && d.entries[i].decision.value == DecisionFor(m, b, ReceiptAt(d, b))
            && ReceiptAt(d, b).reviewed ==
                 (if ReceiptAt(d, b).disposition == AdoptedUnchanged then m.files else m.base.files)
            && (d.entries[i].completion.Some? ==>
                 d.entries[i].completion.value == CompletionFor(b, d.entries[i].decision.value))
  {
    hide Coherent, LineageOk, AcceptedOk, RefsOk, EntriesOk, Inv, SerialInv, MetaOk, Before;
    EntryAt(d, i);
    EarlierAreDecided(d);
    SiteOfHead(d, i);
  }

  lemma LatestIsPermitted(d: Disk)
    requires Coherent(d) && d.entries != [] && Final(d).decision == None
    ensures Permits(d.rules, Final(d).meta.ops, d.accepted.files, Final(d).meta.files)
  {
    hide Healthy, EntriesOk, RefsOk, AcceptedOk, Permits;
    AcceptedIsBase(d);
    assert MetaOk(d.rules, Final(d).meta, Before(d.first, d.entries, |d.entries| - 1));
  }

  /** Every recorded decision results in a retained revision with the reviewed files. */
  lemma ResultIsRetained(d: Disk, i: nat)
    requires Coherent(d) && d.accepted == Lineage(d) && i < |d.entries| && d.entries[i].decision.Some?
    ensures var decision := d.entries[i].decision.value;
            IsRetained(d, Site(decision.resulting, decision.receipt.reviewed))
  {
    hide Coherent, LineageOk, RefsOk, EntriesOk, Inv, SerialInv, MetaOk, EntryOk, Before, Adopts;
    FinalOk(d);
    RecordAgrees(d, i);
    EntryAt(d, i);
    ResultFollows(d.first, d.entries, i);
    if i + 1 < |d.entries| {
      assert IsRetained(d, Before(d.first, d.entries, i + 1));
    }
  }

  lemma ResultFollows(first: Site, entries: seq<Entry>, i: nat)
    requires i < |entries| && entries[i].decision.Some? && entries[i].meta.base == Before(first, entries, i)
    requires var receipt := entries[i].decision.value.receipt;
             && entries[i].decision.value.resulting == ResultingRevision(entries[i].meta, receipt)
             && receipt.reviewed ==
                  (if receipt.disposition == AdoptedUnchanged then entries[i].meta.files
                    else entries[i].meta.base.files)
    ensures Before(first, entries, i + 1) ==
              Site(entries[i].decision.value.resulting, entries[i].decision.value.receipt.reviewed)
  {
  }

  lemma {:induction false} HistoryIgnoresCompletion(entries: seq<Entry>, other: seq<Entry>, n: nat)
    requires n <= |entries| == |other|
    requires forall i :: 0 <= i < n ==> entries[i].meta == other[i].meta && entries[i].decision == other[i].decision
    ensures HistoryOf(entries, n) == HistoryOf(other, n)
  {
    if n > 0 {
      HistoryIgnoresCompletion(entries, other, n - 1);
    }
  }

  lemma HistoryIsShort(d: Disk)
    requires Coherent(d) && Bounded(d)
    ensures |d.sidecar.reflog| <= MAX_DECISION_ANCESTRY
  {
    hide Healthy, EntriesOk, LineageOk, AcceptedOk;
  }

  /** What was found for proposal `i` is what the disk now says. */
  predicate FoundOnDisk(d: Disk, i: nat, found: Found)
  {
    i < |d.entries| && d.entries[i].binding.Some? &&
    match found
    case Waiting(b, state) =>
      && i == |d.entries| - 1 && d.entries[i].decision == None && Waits(d)
      && state == OutcomeOf(d) && Final(d).binding == Some(b)
    case OnRecord(decision) =>
      && d.entries[i].decision == Some(decision)
      && (i < |d.entries| - 1 ==> d.entries[i].completion.Some?)
      && (i == |d.entries| - 1 ==> CommittedFinal(d, d.entries[i].binding.value))
  }

  /** Recovering entry `i` adds its binding or its decision and nothing else. */
  predicate OnlyBrings(entries: seq<Entry>, other: seq<Entry>, i: nat)
  {
    && i < |entries| == |other| && other[..i] == entries[..i] && other[i + 1..] == entries[i + 1..]
    && other[i].meta == entries[i].meta && other[i].completion == entries[i].completion
  }

  /** Bound to a review of exactly the recorded files and context. */
  predicate BoundAsRecorded(e: Entry)
  {
    && e.binding.Some? && e.binding.value.expected.site == e.meta.base.files
    && e.binding.value.proposalHead.site == e.meta.files
    && ContextOf(e.binding.value.proposalHead) == Some(e.meta.context)
  }

  /** The decision is about that review and selects the right files; so does the completion, if there is one. */
  predicate DecidedAsRecorded(e: Entry)
  {
    e.decision.Some? && e.binding.Some? ==>
      var decision := e.decision.value;
      var adopts := decision.receipt.disposition == AdoptedUnchanged;
      && decision.review == e.binding.value && decision.base == e.meta.base
      && decision.resulting == (if adopts then e.meta.planned else e.meta.base.revision)
      && decision.receipt.reviewed == (if adopts then e.meta.files else e.meta.base.files)
      && (e.completion.Some? ==>
            && e.completion.value.review == decision.review && e.completion.value.resulting == decision.resulting
            && e.completion.value.receipt == decision.receipt)
  }

  /** The revision a decision results in is retained with the reviewed files. */
  predicate ResultIsKept(e: Entry, retained: map<Revision, Files>)
    requires e.decision.Some?
  {
    e.decision.value.resulting in retained
      && retained[e.decision.value.resulting] == e.decision.value.receipt.reviewed
  }

  predicate AllRecorded(entries: seq<Entry>, n: nat)
    requires n <= |entries|
  {
    forall j :: 0 <= j < n ==> BoundAsRecorded(entries[j]) && DecidedAsRecorded(entries[j])
  }

  predicate AllKept(entries: seq<Entry>, n: nat, retained: map<Revision, Files>)
    requires n <= |entries|
  {
    forall j :: 0 <= j < n && entries[j].decision.Some? ==>
      entries[j].completion.Some? && ResultIsKept(entries[j], retained)
  }

  lemma NothingRecorded(entries: seq<Entry>, retained: map<Revision, Files>)
    ensures AllRecorded(entries, 0) && AllKept(entries, 0, retained)
  {
  }

  /** The next entry is as recorded, too. */
  lemma OneMoreRecorded(entries: seq<Entry>, other: seq<Entry>, i: nat)
    requires OnlyBrings(entries, other, i) && AllRecorded(entries, i)
    requires BoundAsRecorded(other[i]) && DecidedAsRecorded(other[i])
    ensures AllRecorded(other, i + 1)
  {
    hide BoundAsRecorded, DecidedAsRecorded;
    forall j | 0 <= j < i
      ensures other[j] == entries[j]
    {
      assert other[j] == other[..i][j] == entries[..i][j];
    }
  }

  /** Writing a completion that is due. */
  lemma CompletionIsRecorded(entries: seq<Entry>, other: seq<Entry>, i: nat, completion: Completion,
                             retained: map<Revision, Files>)
    requires i < |entries| && entries[i].decision.Some? && entries[i].binding.Some?
    requires completion == CompletionFor(entries[i].binding.value, entries[i].decision.value)
    requires other == entries || other == entries[i := entries[i].(completion := Some(completion))]
    requires AllKept(entries, i, retained)
    ensures AllRecorded(entries, |entries|) ==> AllRecorded(other, |other|)
    ensures other[i].completion.Some? && ResultIsKept(entries[i], retained) ==> AllKept(other, i + 1, retained)
  {
  }

  lemma UndecidedIsKept(entries: seq<Entry>, i: nat, retained: map<Revision, Files>)
    requires i < |entries| && entries[i].decision == None && AllKept(entries, i, retained)
    ensures AllKept(entries, i + 1, retained)
  {
  }

  lemma BoundByReview(e: Entry, b: Binding)
    requires e.binding == Some(b)
    requires IsReviewOf(b, ProposalInput(e.meta.id, e.meta.base.files, e.meta.files, e.meta.context))
    ensures BoundAsRecorded(e)
  {
  }

  lemma UnboundIsLatest(d: Disk, i: nat)
    requires Coherent(d) && i < |d.entries| && d.entries[i].binding == None
    ensures i == |d.entries| - 1
  {
    hide Coherent;
    EarlierAreDecided(d);
  }

  lemma UndecidedIsRecorded(e: Entry)
    requires e.decision == None
    ensures DecidedAsRecorded(e)
  {
  }

  lemma DecisionIsRecorded(e: Entry, decision: DecisionMeta)
    requires e.decision == Some(decision) && e.binding.Some? && DecidedAsRecorded(e.(completion := None))
    requires e.completion.Some? ==> e.completion.value == CompletionFor(e.binding.value, decision)
    ensures DecidedAsRecorded(e)
  {
  }

  lemma KeptIsCompleted(entries: seq<Entry>, retained: map<Revision, Files>)
    requires AllKept(entries, |entries|, retained)
    ensures forall j :: 0 <= j < |entries| && entries[j].decision.Some? ==> entries[j].completion.Some?
  {
  }

  lemma BringsNoMeta(start: seq<Entry>, entries: seq<Entry>, other: seq<Entry>, i: nat)
    requires SameMetas(start, entries) && OnlyBrings(entries, other, i)
    ensures SameMetas(start, other)
    ensures forall j :: 0 <= j < i ==> other[j] == entries[j]
  {
    forall j | 0 <= j < |entries|
      ensures other[j].meta == entries[j].meta
      ensures j < i ==> other[j] == entries[j]
    {
      if j < i {
        assert other[j] == other[..i][j] == entries[..i][j];
      } else if j > i {
        assert other[j] == other[i + 1..][j - i - 1] == entries[i + 1..][j - i - 1];
      }
    }
  }

  /** What was found for proposal `i` is on its record, whatever the repository says. */
  predicate FoundHere(d: Disk, i: nat, found: Found)
  {
    i < |d.entries| && d.entries[i].binding.Some? &&
    match found
    case Waiting(b, state) =>
      && i == |d.entries| - 1 && d.entries[i].decision == None && d.entries[i].binding == Some(b)
      && b in d.sidecar.journal && d.sidecar.journal[b].state == state
    case OnRecord(decision) => d.entries[i].decision == Some(decision)
  }

  /** The decision on review `b` is committed in the repository. */
  predicate CommittedAt(d: Disk, b: Binding)
  {
    HasDecisionIntent(d, b) && CandidateIsPublished(d.sidecar, b) && d.sidecar.journal[b].state == DecisionCommitted
  }

  lemma AnswerIsRecorded(d: Disk, b: Binding, answer: ReviewOutcome, serial: bool)
    requires Truthful(d.sidecar, b, answer, serial)
    ensures answer.Committed? ==> CommittedAt(d, b) && answer.receipt == ReceiptAt(d, b)
    ensures answer.NotCommitted? && serial ==> b in d.sidecar.journal && d.sidecar.journal[b].state == answer.state
  {
  }

  /** Resuming any of the proposals of a coherent disk. */
  lemma ResumedAt(d: Disk, i: nat, fuse: nat, left: nat, now: State, answer: Result<ReviewOutcome, SidecarError>)
    requires Coherent(d) && Bounded(d) && i < |d.entries| && d.entries[i].binding.Some?
    requires Performed(ResumeRun(d.sidecar, d.entries[i].binding.value), fuse, left, now, answer)
    ensures var t := d.(sidecar := now);
            var b := d.entries[i].binding.value;
            && Along(d, fuse, t, left) && Coherent(t) && Bounded(t)
            && (i < |d.entries| - 1 ==>
                 t == d && left == fuse && answer.Ok? && answer.value.Committed? && d.entries[i].decision.Some?
                   && d.entries[i].completion.Some?)
            && (answer.Err? ==> left == 0 && NextWrite(t).Some?)
            && (answer.Ok? && answer.value.Committed? ==>
                  && HasDecisionIntent(t, b) && answer.value.receipt == ReceiptAt(t, b)
                  && (i == |d.entries| - 1 ==> CommittedFinal(t, b)))
            && (answer.Ok? && answer.value.NotCommitted? ==>
                  && i == |d.entries| - 1 && t == d && Waits(d) && NextWrite(d) == None
                  && answer.value.state == OutcomeOf(d) && d.entries[i].decision == None)
  {
    hide Coherent, Along, NextWrite, Inv, SerialInv, Redo, ResumeRun, Follows, CommittedFinal;
    var b := d.entries[i].binding.value;
    ResumeFollows(d, i);
    if i == |d.entries| - 1 {
      ResumedOnDisk(d, b, fuse, left, now, answer);
    } else {
      RecordAt(d, i);
      NoWrite(d, fuse);
      assert d.(sidecar := now) == d;
    }
  }

  lemma RecordAt(d: Disk, i: nat)
    requires Coherent(d) && i < |d.entries| - 1
    ensures d.entries[i].completion.Some? && d.entries[i].decision.Some? && d.entries[i].binding.Some?
  {
    hide Coherent;
    EarlierAreDecided(d);
  }

  lemma PreparedShape(d: Disk, m: Meta)
    ensures Prepared(d, m) == d.(entries := d.entries + [Entry(m, None, None, None)])
  {
  }

  lemma PreparedIsFresh(d: Disk, m: Meta, memory: Memory)
    requires Ledger(d) && m.base == d.accepted
    requires ValidOperationKey(m.id) && Permits(d.rules, m.ops, d.accepted.files, m.files)
    requires m.planned !in d.retained && m.id !in d.sidecar.proposals && IsNew(d.entries, m.id, m.planned)
    ensures Fresh(d, m)
    ensures Mirrors(d, memory) && memory.proposal == None ==> Idle(d)
  {
    hide Permits;
  }

  /** No recorded proposal has either name. */
  predicate IsNew(entries: seq<Entry>, id: OperationKey, planned: Revision)
  {
    forall i :: 0 <= i < |entries| ==> entries[i].meta.id != id && entries[i].meta.planned != planned
  }

  /** One proposal more, under these names and undecided. */
  predicate IsOnTop(entries: seq<Entry>, other: seq<Entry>, id: OperationKey, planned: Revision)
  {
    && |other| == |entries| + 1 && other[..|entries|] == entries
    && other[|entries|].meta.id == id && other[|entries|].meta.planned == planned
    && other[|entries|].decision == None && other[|entries|].completion == None
  }

  lemma BindingStaysOnTop(entries: seq<Entry>, m: Meta, other: seq<Entry>)
    requires |other| == |entries| + 1 && other[..|entries|] == entries
    requires other[|entries|] == Entry(m, other[|entries|].binding, None, None)
    ensures IsOnTop(entries, other, m.id, m.planned)
    ensures Tidy(other) <==> Tidy(entries + [Entry(m, None, None, None)])
  {
    var top := entries + [Entry(m, None, None, None)];
    assert forall i :: 0 <= i < |entries| ==> other[i] == other[..|entries|][i] == top[i];
  }

  lemma CoherentIsTidy(d: Disk)
    requires Coherent(d)
    ensures Tidy(d.entries)
  {
    hide Healthy, RefsOk, LineageOk, AcceptedOk;
  }

  /** Whether a disk on the way from a new proposal is coherent depends on what the proposal is on top of. */
  lemma StackIsWhole(d: Disk, m: Meta, k: nat)
    requires Coherent(d) && Fresh(d, m) && k < |Redo(Prepared(d, m))|
    ensures Idle(d) ==> Coherent(Redo(Prepared(d, m))[k])
    ensures Tidy(Redo(Prepared(d, m))[k].entries) <==> Idle(d)
  {
    hide Coherent, Fresh;
    var x := Prepared(d, m);
    EarlierAreDecided(d);
    TopIsUnfinished(d, m);
    RedoKeepsShape(x, k);
    var t := Redo(x)[k];
    hide Redo;
    assert forall i :: 0 <= i < |d.entries| ==> t.entries[i] == t.entries[..|x.entries| - 1][i] == x.entries[i];
    if Idle(d) {
      PrepareKeeps(d, m);
      RedoKeeps(x, k);
    }
  }

  /** With enough writes left, only a settled disk is left behind. */
  lemma EnoughIsSettled(start: Disk, fuse: nat, d: Disk, left: nat)
    requires Along(start, fuse, d, left) && |Redo(start)| <= fuse + 1
    ensures left == 0 ==> NextWrite(d) == None
  {
    hide NextWrite;
    if left == 0 {
      SettledIsFinal(start);
    }
  }

  /** The new proposal is the only change to what memory shows. */
  lemma NewProposalMirrors(d: Disk, m: Meta, memory: Memory, t: Disk, b: Binding)
    requires Mirrors(d, memory) && memory.proposal == None && Idle(d) && Awaiting(t) && Coherent(t)
    requires |t.entries| == |d.entries| + 1 && t.entries[..|d.entries|] == d.entries && t.accepted == d.accepted
    requires Final(t).meta == m && Final(t).binding == Some(b)
    ensures Mirrors(t, memory.(proposal := Some(Active(m, b, false, PendingReview))))
  {
    hide Coherent, Inv, SerialInv, HistoryOf, EntriesOk, RefsOk, LineageOk, AcceptedOk;
    HistoryStays(d.entries, t.entries, |d.entries|);
    FinalOk(t);
  }

  /** The reasons to refuse a proposal before anything is written. */
  ghost predicate Refusable(d: Disk, m: Memory, fuse: nat, ops: seq<Operation>)
  {
    || d.accepted != m.accepted || m.proposal.Some? || |d.entries| >= MAX_PERSISTED_PROPOSALS || fuse == 0
    || forall files :: !Permits(d.rules, ops, m.accepted.files, files)
  }

  /** A new proposal is on disk and some of the writes it owes have been made. */
  ghost predicate ProposalUnderway(d: Disk, fuse: nat, t: Disk)
  {
    fuse > 0 && exists m :: Fresh(d, m) && Along(Prepared(d, m), fuse - 1, t, 0)
  }

  lemma AwaitingIsSettled(start: Disk, fuse: nat, d: Disk, left: nat)
    requires Along(start, fuse, d, left) && Awaiting(d)
    ensures d == Settled(start) && NextWrite(d) == None
  {
    hide Along, Redo;
    AwaitingOwesNothing(d);
    SettledFromInside(start, fuse, d, left);
  }

  // ---- The loops of recovery ----

  /** The lineage so far, the latest adoption (from, to), and the proposal that waits. */
  datatype Lineages = Lineages(logical: Site, adopt: Option<(Site, Site)>, active: Option<Active>)

  function Advance(found: Lineages, m: Meta, decision: DecisionMeta): Lineages
  {
    if decision.receipt.disposition == AdoptedUnchanged then
      found.(logical := Site(decision.resulting, m.files), adopt := Some((m.base, Site(decision.resulting, m.files))))
    else found
  }

  /** The waiting proposal that was found is the latest one, and shown as denied only if its review is. */
  predicate ActiveIsTrue(active: Option<Active>, d: Disk)
  {
    active.Some? ==>
      && d.entries != [] && Final(d).meta == active.value.meta && Final(d).binding == Some(active.value.review)
      && (active.value.outcome == TerminalDenial ==>
            active.value.review in d.sidecar.journal && d.sidecar.journal[active.value.review].state == TerminalDenial)
  }

  /** What the first `i` entries say, whatever the repository says. */
  predicate RecoveredUpTo(d: Disk, i: nat, found: Lineages, history: seq<HistoryRecord>)
  {
    && i <= |d.entries| && history == HistoryOf(d.entries, i) && found.logical == Before(d.first, d.entries, i)
    && (i > 0 && Adopts(d.entries[i - 1]) ==>
          found.adopt ==
              Some((d.entries[i - 1].meta.base, Site(d.entries[i - 1].meta.planned, d.entries[i - 1].meta.files))))
    && (i < |d.entries| ==> found.active == None)
    && (i == |d.entries| > 0 ==> Final(d).binding.Some? && (Final(d).decision.Some? <==> found.active == None))
  }

  /** The latest entry is decided and committed, or is shown as it waits. */
  predicate RecoveredLast(d: Disk, active: Option<Active>)
  {
    && d.entries != [] && Final(d).binding.Some?
    && if Final(d).decision.Some? then active == None && CommittedFinal(d, Final(d).binding.value)
       else Waits(d) && active == Some(Waiter(d))
  }

  lemma NothingIsRecovered(d: Disk)
    requires Ledger(d) && d.entries != []
    ensures RecoveredUpTo(d, 0, Lineages(d.entries[0].meta.base, None, None), [])
    ensures ActiveIsTrue(None, d)
  {
    assert MetaOk(d.rules, d.entries[0].meta, Before(d.first, d.entries, 0));
  }

  lemma RecoveredLogical(d: Disk, i: nat, found: Lineages, history: seq<HistoryRecord>)
    requires RecoveredUpTo(d, i, found, history)
    ensures found.logical == Before(d.first, d.entries, i)
  {
  }

  /** Recovering entry `i` does not touch the earlier ones. */
  lemma RecoveredStays(d: Disk, t: Disk, i: nat, found: Lineages, history: seq<HistoryRecord>)
    requires OnlyBrings(d.entries, t.entries, i) && t.first == d.first
    requires RecoveredUpTo(d, i, found, history)
    ensures RecoveredUpTo(t, i, found, history) && found.active == None && ActiveIsTrue(None, t)
  {
    hide Before, HistoryOf;
    BeforeStays(d.first, d.entries, t.entries, i);
    HistoryStays(d.entries, t.entries, i);
    assert i > 0 ==> t.entries[i - 1] == t.entries[..i][i - 1] == d.entries[i - 1];
  }

  lemma FoundIsRecorded(d: Disk, i: nat, decision: DecisionMeta)
    requires FoundHere(d, i, OnRecord(decision))
    ensures i < |d.entries| && d.entries[i].binding.Some? && d.entries[i].decision == Some(decision)
  {
  }

  lemma RecoveredDecision(d: Disk, i: nat, found: Lineages, history: seq<HistoryRecord>, decision: DecisionMeta)
    requires Ledger(d) && i < |d.entries| && RecoveredUpTo(d, i, found, history) && FoundHere(d, i, OnRecord(decision))
    ensures RecoveredUpTo(d, i + 1, Advance(found, d.entries[i].meta, decision),
              history + [RecordOf(d.entries[i].meta, decision)])
    ensures Advance(found, d.entries[i].meta, decision).active == None && ActiveIsTrue(None, d)
  {
    hide LineageOk, AcceptedOk;
    assert RecordOk(d.sidecar, d.entries[i]);
  }

  lemma RecoveredWaiting(d: Disk, i: nat, found: Lineages, history: seq<HistoryRecord>, b: Binding, state: ReviewState)
    requires RecoveredUpTo(d, i, found, history) && FoundHere(d, i, Waiting(b, state))
    ensures i == |d.entries| - 1
    ensures var active := Some(Active(d.entries[i].meta, b, state == TerminalDenial, state));
            RecoveredUpTo(d, i + 1, found.(active := active), history) && ActiveIsTrue(active, d)
    ensures b in d.sidecar.journal && d.sidecar.journal[b].state == state && d.entries[i].decision == None
  {
  }

  /** What is found for the latest proposal is what memory will show. */
  lemma FoundIsLast(d: Disk, entry: Found)
    requires d.entries != [] && FoundOnDisk(d, |d.entries| - 1, entry)
    ensures entry.OnRecord? ==> RecoveredLast(d, None)
    ensures entry.Waiting? ==>
              RecoveredLast(d, Some(Active(Final(d).meta, entry.review, entry.state == TerminalDenial, entry.state)))
  {
  }

  /** Accepted falls behind by one adoption at most. */
  lemma RecoveredLineage(d: Disk, found: Lineages, history: seq<HistoryRecord>)
    requires Ledger(d) && d.entries != [] && RecoveredUpTo(d, |d.entries|, found, history)
    ensures found.logical == Lineage(d)
    ensures d.accepted != found.logical ==>
              && found.adopt == Some((d.accepted, found.logical)) && Adopts(Final(d)) && Final(d).completion == None
              && found.logical == Site(Final(d).meta.planned, Final(d).meta.files)
              && d.accepted.revision != Final(d).meta.planned
  {
    hide RecordsOk, Before, HistoryOf, Permits;
    LineageUnfolds(d);
    assert MetaOk(d.rules, Final(d).meta, Before(d.first, d.entries, |d.entries| - 1));
  }

  lemma SameLineage(d: Disk, t: Disk)
    requires t.entries == d.entries && t.first == d.first
    ensures Lineage(t) == Lineage(d)
  {
  }

  lemma RecordIsCommitted(d: Disk)
    requires Ledger(d) && Inv(d.sidecar) && d.entries != [] && Final(d).decision.Some?
    ensures Final(d).binding.Some? && CommittedFinal(d, Final(d).binding.value)
  {
    hide LineageOk, AcceptedOk;
    assert RecordOk(d.sidecar, Final(d));
    SoundReview(d.sidecar, Final(d).binding.value);
  }

  /** Only completions are missing now. */
  predicate ReadyToComplete(d: Disk)
  {
    && d.entries != [] && d.accepted == Lineage(d) && Final(d).binding.Some?
    && if Final(d).decision.Some? then CommittedFinal(d, Final(d).binding.value) else Waits(d)
  }

  lemma RecoveredIsReady(d: Disk, t: Disk, active: Option<Active>)
    requires RecoveredLast(d, active) && t.entries == d.entries && t.sidecar == d.sidecar && t.accepted == Lineage(t)
    ensures ReadyToComplete(t)
  {
  }

  lemma UncompletedIsLatest(d: Disk, i: nat)
    requires Ledger(d) && Inv(d.sidecar) && i < |d.entries| && d.entries[i].decision.Some?
             && d.entries[i].completion == None
    ensures i == |d.entries| - 1 && Final(d).binding.Some? && CommittedFinal(d, Final(d).binding.value)
  {
    hide LineageOk, AcceptedOk, Inv;
    assert i < |d.entries| - 1 ==> IsOver(d.sidecar, d.entries[i]);
    RecordIsCommitted(d);
  }

  lemma CompletionIsAhead(d: Disk, completion: Completion)
    requires Ledger(d) && d.entries != [] && Final(d).decision.Some? && d.accepted == Lineage(d)
    ensures Adopts(Final(d)) ==> d.accepted.revision == Final(d).meta.planned
    ensures var t := SetFinal(d, Final(d).(completion := Some(completion))); Ledger(t) && t.accepted == Lineage(t)
  {
    hide Ledger, Before;
    LineageUnfolds(d);
    CompletionKeepsLedger(d, completion);
    var t := SetFinal(d, Final(d).(completion := Some(completion)));
    LineageUnfolds(t);
    BeforeStays(d.first, d.entries, t.entries, |d.entries| - 1);
  }

  predicate SameRecords(entries: seq<Entry>, other: seq<Entry>)
  {
    |entries| == |other| && forall i :: 0 <= i < |entries| ==>
      other[i].meta == entries[i].meta && other[i].binding == entries[i].binding
        && other[i].decision == entries[i].decision
  }

  lemma RecordsKeepMetas(start: seq<Entry>, entries: seq<Entry>, other: seq<Entry>)
    requires SameMetas(start, entries) && SameRecords(entries, other)
    ensures SameMetas(start, other)
  {
  }

  lemma CompletionIsDue(d: Disk, i: nat)
    requires Coherent(d) && ReadyToComplete(d) && i < |d.entries| && d.entries[i].decision.Some?
    ensures var decision := d.entries[i].decision.value;
            && d.entries[i].binding.Some?
            && decision.resulting in d.retained && d.retained[decision.resulting] == decision.receipt.reviewed
            && if d.entries[i].completion == None
               then i == |d.entries| - 1
                    && NextWrite(d) ==
                         Some(SetFinal(d,
                             Final(d).(completion := Some(CompletionFor(d.entries[i].binding.value, decision)))))
               else d.entries[i].completion.value == CompletionFor(d.entries[i].binding.value, decision)
  {
    hide Coherent, NextWrite, Before, Inv, SerialInv;
    ResultIsRetained(d, i);
    RecordAgrees(d, i);
    if i < |d.entries| - 1 {
      RecordAt(d, i);
    } else if d.entries[i].completion == None {
      LineageUnfolds(d);
      OwesTheRest(d, d.entries[i].binding.value);
    }
  }

  lemma StillReady(d: Disk, t: Disk)
    requires ReadyToComplete(d) && Final(d).decision.Some? && t.entries != []
    requires t == SetFinal(d, Final(d).(completion := Final(t).completion))
    ensures ReadyToComplete(t)
  {
    hide Before;
    LineageUnfolds(d);
    LineageUnfolds(t);
    BeforeStays(d.first, d.entries, t.entries, |d.entries| - 1);
  }

  lemma NothingLeft(d: Disk)
    requires Coherent(d) && ReadyToComplete(d) && (Final(d).decision.Some? ==> Final(d).completion.Some?)
    ensures NextWrite(d) == None
  {
    hide Coherent, NextWrite, Lineage;
    if Final(d).decision.Some? {
      CompletedOwesNothing(d);
    } else {
      AwaitingOwesNothing(d);
    }
  }

  lemma EmptyIsSettled(d: Disk, fuse: nat)
    requires d.entries == []
    ensures NextWrite(d) == None && Settled(d) == d && Along(d, fuse, d, fuse)
    ensures Projection(d) == Memory(d.accepted, None, []) && Mirrors(d, Projection(d))
  {
  }

  /** What recovery shows is steady: the waiting proposal, or nothing on top of which a new one may go. */
  lemma RecoveryIsSteady(mid: Disk, d: Disk, found: Lineages, history: seq<HistoryRecord>)
    requires mid.entries != [] && RecoveredUpTo(mid, |mid.entries|, found, history) && ActiveIsTrue(found.active, mid)
    requires SameRecords(mid.entries, d.entries) && d.sidecar == mid.sidecar
    requires forall j :: 0 <= j < |d.entries| && d.entries[j].decision.Some? ==> d.entries[j].completion.Some?
    ensures ActiveIsTrue(found.active, d) && (found.active == None ==> Quiet(d))
  {
    hide Before, HistoryOf;
  }

  lemma RecoveryShows(start: Disk, fuse: nat, mid: Disk, d: Disk, left: nat, found: Lineages,
                      history: seq<HistoryRecord>)
    requires Coherent(d) && Along(start, fuse, d, left) && NextWrite(d) == None && ReadyToComplete(d)
    requires RecoveredUpTo(mid, |mid.entries|, found, history) && RecoveredLast(mid, found.active)
    requires SameRecords(mid.entries, d.entries) && d.sidecar == mid.sidecar
    ensures d == Settled(start)
    ensures Memory(d.accepted, found.active, history) == Projection(d) && Mirrors(d, Projection(d))
    ensures found.active.Some? && found.active.value.outcome == PendingReview ==> Awaiting(d)
  {
    hide Coherent, Along, Redo, Lineage, Before, NextWrite;
    SettledFromInside(start, fuse, d, left);
    assert Redo(d) == [d] by {
      NothingAhead(d);
    }
    HistoryIgnoresCompletion(mid.entries, d.entries, |d.entries|);
    DecidedIsComplete(d);
  }

  lemma NothingAhead(d: Disk)
    requires NextWrite(d) == None
    ensures Redo(d) == [d]
  {
  }

  lemma DecidedIsComplete(d: Disk)
    requires Coherent(d) && ReadyToComplete(d) && NextWrite(d) == None
    ensures Final(d).decision.Some? <==> Idle(d)
    ensures Final(d).decision == None ==> HistoryOf(d.entries, |d.entries|) == HistoryOf(d.entries, |d.entries| - 1)
  {
    hide Coherent, Inv, SerialInv, Lineage, Before;
    FinalOk(d);
    EarlierAreDecided(d);
  }
}
