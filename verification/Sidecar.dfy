/** synapse_sidecar.rs: the facade over one repository and its review journal.

    The first half of the class states what the storage libraries provide; the second half is the
    protocol. Every access may be preceded by other callers' writes unless `serial` (the Store lock is
    held), may fail unless `reliable`, and every durable write may be the last one before a power loss.
    A serialised call that meets faults still performs one of the runs of SidecarFaults. */
module Sidecar {
  import opened Base
  import opened GraphWalk
  import opened Synapse
  import opened SerialRuns
  import opened ChainWalk
  import opened SidecarSpec
  import opened SidecarFaults

  datatype JournalMove = Moved | StateConflict(actual: ReviewState) | MoveFailed(error: SidecarError)

  datatype Publication = Published | RefConflict | Refused(error: SidecarError)

  lemma PublicationIsEnabled(s: State, b: Binding)
    requires Inv(s) && b in s.journal && s.journal[b].intent.Some? && s.reflog != [] && Head(s) == b.expected
    ensures Enabled(s, PublishCandidate(b)) && !CandidateIsPublished(s, b)
    ensures CandidateIsPublished(Perform(s, PublishCandidate(b)), b)
  {
    SoundReview(s, b);
    CandidateIsNew(s, b);
  }

  /** The review binds exactly these bytes to each other. */
  predicate IsReviewOf(b: Binding, input: ProposalInput)
  {
    && b.operation == input.operation && b.proposalHead.parents == [b.expected]
    && b.expected.site == input.accepted && b.proposalHead.site == input.proposed
    && ContextOf(b.proposalHead) == Some(input.context)
  }

  class SynapseSidecar {
    var reflog: seq<Commit>
    var proposals: map<OperationKey, Commit>
    var journal: map<Binding, Review>
    var fuse: nat             // durable writes left before the power goes
    ghost var published: nat  // how often this caller moved the decision ref
    var recordedAt: nat       // server-owned configuration: the proposal's own timestamp
    const serial: bool        // no other caller runs meanwhile
    const reliable: bool      // nothing fails
    ghost var sound: bool     // under the lock: nothing denied has been published
    ghost var faults: Faults  // what has failed so far

    /** An empty repository with an empty journal. */
    constructor (serial: bool, reliable: bool, fuse: nat)
      ensures Valid() && Now() == EMPTY && this.fuse == fuse && sound
      ensures this.serial == serial && this.reliable == reliable
    {
      this.serial, this.reliable, this.fuse := serial, reliable, fuse;
      reflog, proposals, journal, published, recordedAt := [], map[], map[], 0, 0;
      sound, faults := true, Faults(0, 0, []);
    }

    ghost predicate Guarded()
      reads this`sound
    {
      serial && sound
    }

    function Now(): State
      reads this
    {
      State(reflog, proposals, journal)
    }

    ghost predicate Valid()
      reads this
    {
      Inv(Now()) && (Guarded() ==> SerialInv(Now())) && (reliable ==> sound)
    }

    /** The trouble met since then. */
    ghost function Since(before: Faults): Trouble
      reads this`faults, this`fuse
    {
      Trouble(before, faults, fuse == 0)
    }

    // ---- The libraries ----

    /** Other callers' writes: any number, in any order. */
    method Interfere()
      requires Valid()
      modifies this`reflog, this`proposals, this`journal
      ensures Valid() && Evolves(old(Now()), Now())
      ensures serial ==> Now() == old(Now())
    {
    }

    method Fault() returns (failed: bool)
      ensures reliable ==> !failed
    {
      if reliable {
        failed := false;
      } else {
        failed := *;
      }
    }

    /** A call of the journal, the object store or the receipt query. */
    method StoreFault() returns (failed: bool)
      modifies this`faults
      ensures reliable ==> !failed
      ensures faults == if failed then old(faults).(store := old(faults).store + 1) else old(faults)
    {
      failed := Fault();
      if failed {
        faults := faults.(store := faults.store + 1);
      }
    }

    /** A read of the refs. */
    method RefsFault() returns (failed: bool)
      modifies this`faults
      ensures reliable ==> !failed
      ensures faults == if failed then old(faults).(refs := old(faults).refs + 1) else old(faults)
    {
      failed := Fault();
      if failed {
        faults := faults.(refs := faults.refs + 1);
      }
    }

    /** A call of the Core. */
    method CoreFault() returns (error: Option<SidecarError>)
      modifies this`faults
      ensures reliable ==> error == None
      ensures error.Some? ==> error.value in {StaleBase, ActiveReview, Integrity, Storage}
      ensures faults == if error.Some? then old(faults).(core := old(faults).core + [error.value]) else old(faults)
    {
      error := None;
      var failed := Fault();
      if failed {
        var refusal :| refusal in {StaleBase, ActiveReview, Integrity, Storage};
        error := Some(refusal);
        faults := faults.(core := faults.core + [refusal]);
      }
    }

    /** The way to the Core and back, where only storage can fail. */
    method CallFault() returns (failed: bool)
      modifies this`faults
      ensures reliable ==> !failed
      ensures faults == if failed then old(faults).(core := old(faults).core + [Storage]) else old(faults)
    {
      failed := Fault();
      if failed {
        faults := faults.(core := faults.core + [Storage]);
      }
    }

    method GetReview(b: Binding) returns (r: Result<ReviewState, SidecarError>)
      requires Valid()
      modifies this`reflog, this`proposals, this`journal, this`faults
      ensures Valid() && Evolves(old(Now()), Now()) && Grows(old(faults), faults)
      ensures serial ==> Now() == old(Now())
      ensures r.Ok? ==> b in journal && r.value == journal[b].state
      ensures faults == if r == Err(Storage) then old(faults).(store := old(faults).store + 1) else old(faults)
      ensures r.Err? ==> (r.error == ReviewNotFound && b !in journal) || (r.error == Storage && !reliable)
    {
      Interfere();
      var failed := StoreFault();
      if failed {
        return Err(Storage);
      }
      if b !in journal {
        return Err(ReviewNotFound);
      }
      return Ok(journal[b].state);
    }

    method GetDecisionIntent(b: Binding) returns (r: Result<Option<Intent>, SidecarError>)
      requires Valid() && b in journal
      modifies this`reflog, this`proposals, this`journal, this`faults
      ensures Valid() && Evolves(old(Now()), Now()) && Grows(old(faults), faults)
      ensures serial ==> Now() == old(Now())
      ensures r.Ok? ==> b in journal && r.value == journal[b].intent
      ensures faults == if r.Err? then old(faults).(store := old(faults).store + 1) else old(faults)
      ensures r.Err? ==> r.error == Storage && !reliable
    {
      Interfere();
      var failed := StoreFault();
      if failed {
        return Err(Storage);
      }
      return Ok(journal[b].intent);
    }

    method GetProposalRef(k: OperationKey) returns (r: Result<Option<Commit>, SidecarError>)
      requires Valid()
      modifies this`reflog, this`proposals, this`journal, this`faults
      ensures Valid() && Evolves(old(Now()), Now()) && Grows(old(faults), faults)
      ensures serial ==> Now() == old(Now())
      ensures r.Ok? ==> r.value == if k in proposals then Some(proposals[k]) else None
      ensures faults == if r.Err? then old(faults).(refs := old(faults).refs + 1) else old(faults)
      ensures r.Err? ==> r.error == Storage && !reliable
    {
      Interfere();
      var failed := RefsFault();
      if failed {
        return Err(Storage);
      }
      return Ok(if k in proposals then Some(proposals[k]) else None);
    }

    method GetDecisionRef() returns (r: Result<Option<Commit>, SidecarError>)
      requires Valid()
      modifies this`reflog, this`proposals, this`journal, this`faults
      ensures Valid() && Evolves(old(Now()), Now()) && Grows(old(faults), faults)
      ensures serial ==> Now() == old(Now())
      ensures r.Ok? ==> r.value == if reflog == [] then None else Some(Head(Now()))
      ensures faults == if r.Err? then old(faults).(refs := old(faults).refs + 1) else old(faults)
      ensures r.Err? ==> r.error == Storage && !reliable
    {
      Interfere();
      var failed := RefsFault();
      if failed {
        return Err(Storage);
      }
      return Ok(if reflog == [] then None else Some(reflog[|reflog| - 1]));
    }

    /** Compare-and-set on a review's state cell. */
    method TransitionReviewState(b: Binding, observed: ReviewState, target: ReviewState) returns (r: JournalMove)
      requires Valid() && b in journal && Rank(observed) < Rank(target)
      requires target == DecisionCommitted ==> CandidateIsPublished(Now(), b)
      requires target == TerminalDenial && Guarded() ==> !CandidateIsPublished(Now(), b)
      modifies this`reflog, this`proposals, this`journal, this`faults, this`fuse
      ensures faults.refs == old(faults).refs && faults.core == old(faults).core
      ensures Valid() && Evolves(old(Now()), Now()) && Grows(old(faults), faults) && fuse <= old(fuse)
      ensures r == Moved ==> journal[b].state == target
      ensures r.StateConflict? ==> r.actual == journal[b].state && !(serial && old(journal)[b].state == observed)
      ensures r.MoveFailed? ==> r.error == PowerLoss || (r.error == Storage && !reliable)
      ensures r.MoveFailed? ==>
                (r.error == PowerLoss && fuse == 0) || (r.error == Storage && faults.store > old(faults).store)
      ensures serial ==> Now() == old(Now()) || (!r.StateConflict? && Now() == Marked(old(Now()), b, target))
      ensures serial && reliable ==>
                if old(journal)[b].state != observed then r.StateConflict? && Now() == old(Now()) && fuse == old(fuse)
                else if old(fuse) == 0 then r == MoveFailed(PowerLoss) && Now() == old(Now()) && fuse == 0
                else r == Moved && Now() == Marked(old(Now()), b, target) && fuse == old(fuse) - 1
    {
      hide Inv, SerialInv, Evolves;
      Interfere();
      ReviewStays(old(Now()), Now(), b);
      var failed := StoreFault();
      if failed {
        return MoveFailed(Storage);
      }
      if journal[b].state != observed {
        return StateConflict(journal[b].state);
      }
      if fuse == 0 {
        return MoveFailed(PowerLoss);
      }
      WriteIsSafe(old(Now()), Now(), MoveReview(b, target), Guarded());
      journal := journal[b := journal[b].(state := target)];
      fuse := fuse - 1;
      failed := StoreFault();
      return if failed then MoveFailed(Storage) else Moved;
    }

    /** The one way the decision ref moves: compare-and-set from the expected head to the candidate,
        provided the proposal ref is live. The Core may also refuse. */
    method PublishHumanDecision(b: Binding, i: Intent) returns (r: Publication)
      requires Valid() && b in journal && journal[b].intent == Some(i)
      requires Guarded() && journal[b].state == TerminalDenial ==> Head(Now()) != b.expected
      modifies this`reflog, this`proposals, this`journal, this`faults, this`fuse, this`published
      ensures Valid() && Evolves(old(Now()), Now()) && Grows(old(faults), faults) && fuse <= old(fuse)
      ensures r == Published ==> CandidateIsPublished(Now(), b)
      ensures r.Refused? ==> r.error == PowerLoss || !reliable
      ensures faults == if r.Refused? && r.error != PowerLoss then old(faults).(core := old(faults).core + [r.error])
                        else old(faults)
      ensures r == Refused(PowerLoss) ==> fuse == 0 && (serial ==> Now() == old(Now()))
      ensures published == old(published) || published == old(published) + 1
      ensures old(CandidateIsPublished(Now(), b)) ==>
                published == old(published) && r != Published && (serial ==> Now() == old(Now()) && fuse == old(fuse))
      ensures serial ==> match r
                         case RefConflict => Now() == old(Now()) && Head(Now()) != b.expected
                         case Published => Head(old(Now())) == b.expected && Now() == Extended(old(Now()), i)
                         case Refused(_) =>
                                Now() == old(Now())
                                  || (Head(old(Now())) == b.expected && Now() == Extended(old(Now()), i))
      ensures serial && reliable ==>
                if Head(old(Now())) != b.expected then r == RefConflict && Now() == old(Now()) && fuse == old(fuse)
                else if old(fuse) == 0 then r == Refused(PowerLoss) && Now() == old(Now()) && fuse == 0
                else r == Published && Now() == Extended(old(Now()), i) && fuse == old(fuse) - 1
    {
      hide Inv, SerialInv, Evolves;
      Interfere();
      ReviewStays(old(Now()), Now(), b);
      var refusal := CoreFault();
      if refusal.Some? {
        return Refused(refusal.value);
      }
      if reflog[|reflog| - 1] != b.expected {
        return RefConflict;
      }
      if fuse == 0 {
        return Refused(PowerLoss);
      }
      PublicationIsEnabled(Now(), b);
      WriteIsSafe(old(Now()), Now(), PublishCandidate(b), Guarded());
      reflog := reflog + [i.candidate];
      fuse := fuse - 1;
      published := published + 1;
      refusal := CoreFault();
      if refusal.Some? {
        return Refused(refusal.value);  // the reply is lost, in whatever shape
      }
      return Published;
    }

    // ---- The protocol ----

    /** At most three compare-and-set attempts; gives up the move once the observed state rules it out. */
    method TransitionState(b: Binding, initial: ReviewState, target: ReviewState)
      returns (r: Result<ReviewState, SidecarError>)
      requires Valid() && b in journal && target != PendingReview
      requires IsTerminal(initial) || serial ==> journal[b].state == initial
      requires target == DecisionCommitted ==> CandidateIsPublished(Now(), b)
      requires target == TerminalDenial && Guarded() ==> !CandidateIsPublished(Now(), b)
      modifies this`reflog, this`proposals, this`journal, this`faults, this`fuse
      ensures faults.refs == old(faults).refs && faults.core == old(faults).core
      ensures Valid() && Evolves(old(Now()), Now()) && Grows(old(faults), faults) && fuse <= old(fuse)
      ensures r.Ok? ==> r.value == target || RulesOut(r.value, target)
      ensures r.Ok? && IsTerminal(r.value) ==> b in journal && journal[b].state == r.value
      ensures serial ==> Ends(MoveRun(old(Now()), b, target), b, Since(old(faults)), Now(), r)
      ensures serial && reliable ==> Performed(MoveRun(old(Now()), b, target), old(fuse), fuse, Now(), r)
    {
      hide Inv, SerialInv, Evolves;
      EvolvesRefl(Now());
      var observed := initial;
      for attempt := 0 to 3
        invariant Valid() && b in journal && Evolves(old(Now()), Now()) && fuse <= old(fuse)
        invariant IsTerminal(observed) || serial ==> journal[b].state == observed
        invariant target == DecisionCommitted ==> CandidateIsPublished(Now(), b)
        invariant target == TerminalDenial && Guarded() ==> !CandidateIsPublished(Now(), b)
        invariant serial ==> attempt == 0 && Now() == old(Now()) && observed == initial && fuse == old(fuse)
        invariant Grows(old(faults), faults)
        invariant faults.refs == old(faults).refs && faults.core == old(faults).core
      {
        if observed == target || RulesOut(observed, target) {
          return Ok(observed);
        }
        label before:
        var move := TransitionReviewState(b, observed, target);
        EvolvesTrans(old(Now()), old@before(Now()), Now());
        ReviewStays(old@before(Now()), Now(), b);
        match move {
          case Moved => return Ok(target);
          case StateConflict(actual) => observed := actual;
          case MoveFailed(error) => return Err(error);
        }
      }
      return Err(Storage);
    }

    method TransitionTerminal(b: Binding, state: ReviewState) returns (r: Result<(), SidecarError>)
      requires Valid() && b in journal
      requires IsTerminal(state) || serial ==> journal[b].state == state
      requires Guarded() ==> !CandidateIsPublished(Now(), b)
      modifies this`reflog, this`proposals, this`journal, this`faults, this`fuse
      ensures faults.refs == old(faults).refs && faults.core == old(faults).core
      ensures Valid() && Evolves(old(Now()), Now()) && Grows(old(faults), faults) && fuse <= old(fuse)
      ensures r.Ok? ==> b in journal && journal[b].state == TerminalDenial
      ensures serial ==> Ends(Settle(old(Now()), b, TerminalDenial, ()), b, Since(old(faults)), Now(), r)
      ensures serial && reliable ==>
                Performed(Settle(old(Now()), b, TerminalDenial, ()), old(fuse), fuse, Now(), r)
    {
      hide Inv, SerialInv, Evolves;
      var moved := TransitionState(b, state, TerminalDenial);
      return match moved
        case Err(error) => Err(error)
        case Ok(now) => if now == TerminalDenial then Ok(()) else Err(Integrity);
    }

    method TransitionCommitted(b: Binding, state: ReviewState) returns (r: Result<(), SidecarError>)
      requires Valid() && b in journal
      requires IsTerminal(state) || serial ==> journal[b].state == state
      requires CandidateIsPublished(Now(), b)
      modifies this`reflog, this`proposals, this`journal, this`faults, this`fuse
      ensures Valid() && Evolves(old(Now()), Now()) && Grows(old(faults), faults) && fuse <= old(fuse)
      ensures r.Ok? ==> b in journal && journal[b].state == DecisionCommitted
      ensures serial ==> Ends(Settle(old(Now()), b, DecisionCommitted, ()), b, Since(old(faults)), Now(), r)
      ensures serial && reliable ==>
                Performed(Settle(old(Now()), b, DecisionCommitted, ()), old(fuse), fuse, Now(), r)
    {
      hide Inv, SerialInv, Evolves;
      var moved := TransitionState(b, state, DecisionCommitted);
      return match moved
        case Err(error) => Err(error)
        case Ok(now) => if now == DecisionCommitted then Ok(()) else Err(Integrity);
    }

    /** Reached only when a ref could not be read. */
    method MarkOutcomeUnknown(b: Binding, state: ReviewState, hasIntent: bool)
      returns (r: Result<ReviewOutcome, SidecarError>)
      requires Valid() && b in journal && !reliable && (serial ==> hasIntent == journal[b].intent.Some?)
      requires IsTerminal(state) || serial ==> journal[b].state == state
      modifies this`reflog, this`proposals, this`journal, this`faults, this`fuse
      ensures Valid() && Evolves(old(Now()), Now()) && Grows(old(faults), faults) && fuse <= old(fuse)
      ensures serial ==> Ends(MarkUnknownRun(old(Now()), b), b, Since(old(faults)), Now(), r)
      ensures r.Ok? ==> Truthful(Now(), b, r.value, serial)
    {
      hide Inv, SerialInv, Evolves;
      EvolvesRefl(Now());
      if !hasIntent {
        return Err(Storage);
      }
      var moved := TransitionState(b, state, OutcomeUnknown);
      ReviewStays(old(Now()), Now(), b);
      return match moved
        case Err(error) => Err(error)
        case Ok(OutcomeUnknown) => Ok(NotCommitted(OutcomeUnknown))
        case Ok(DecisionCommitted) => Err(Storage)
        case Ok(TerminalDenial) => Ok(NotCommitted(TerminalDenial))
        case Ok(_) => Err(Integrity);
    }

    /** Re-validates a candidate found in the ancestry through the publishing runtime of the Core.
        The runtime cannot publish it again, whatever other callers do meanwhile. */
    method ValidateCommittedCandidate(b: Binding, i: Intent) returns (r: Result<(), SidecarError>)
      requires Valid() && b in journal && journal[b].intent == Some(i) && CandidateIsPublished(Now(), b)
      modifies this`reflog, this`proposals, this`journal, this`faults, this`fuse, this`published
      ensures Valid() && Evolves(old(Now()), Now()) && Grows(old(faults), faults) && fuse <= old(fuse)
      ensures published == old(published)
      ensures serial ==> Now() == old(Now()) && fuse == old(fuse)
      ensures serial && WalkAnswer(Now(), i.candidate) == Ok(true) && r.Err? ==>
                Excused(b, Since(old(faults)), Now(), r.error)
      ensures serial && reliable ==> r == if WalkAnswer(Now(), i.candidate) == Ok(true) then Ok(()) else Err(Integrity)
    {
      hide Inv, SerialInv, Evolves;
      PublishedMeansMoved(Now(), b);
      var publication := PublishHumanDecision(b, i);
      label attempted:
      match publication {
        case Published => assert false;
        case RefConflict =>
        case Refused(error) => return Err(if error == PowerLoss then PowerLoss else Integrity);
      }
      var current := GetDecisionRef();
      EvolvesTrans(old(Now()), old@attempted(Now()), Now());
      if current.Err? {
        return Err(current.error);
      }
      ReviewStays(old(Now()), Now(), b);
      ChainFromInv(Now());
      var found := ChainContains(Now(), current.value.value, i.candidate);
      return if found == Ok(true) then Ok(()) else Err(Integrity);
    }

    /** What every reconciliation guarantees whatever other callers and the storage do, and what it
        does exactly when it runs alone and nothing fails. */
    method ReconcileParsed(b: Binding) returns (r: Result<ReviewOutcome, SidecarError>)
      requires Valid()
      modifies this`reflog, this`proposals, this`journal, this`faults, this`fuse, this`published
      ensures serial && reliable ==> Performed(ReconcileRun(old(Now()), b), old(fuse), fuse, Now(), r)
      ensures serial ==> Observes(old(Now()), b, Since(old(faults)), Now(), r)
      ensures r.Ok? ==> Truthful(Now(), b, r.value, serial)
      ensures published == old(published) && fuse <= old(fuse)
      ensures Valid() && Evolves(old(Now()), Now()) && Grows(old(faults), faults)
    {
      hide Inv, SerialInv, Evolves, ReconcileRun, Truthful;
      EvolvesRefl(Now());
      var fault := StoreFault();
      if fault {
        if serial {
          ErrorObserves(Now(), b, Since(old(faults)), Storage);
        }
        return Err(Storage);
      }
      r := ReconcileParsedInner(b);
      ghost var inner := Since(old(faults));
      fault := StoreFault();
      if serial {
        ObservesMore(old(Now()), b, inner, Since(old(faults)), Now(), r);
      }
      if fault {
        if serial {
          ReplyOfObservationIsLost(old(Now()), b, Since(old(faults)), Now(), r, Storage);
        }
        return Err(Storage);
      }
    }

    method ReconcileParsedInner(b: Binding) returns (r: Result<ReviewOutcome, SidecarError>)
      requires Valid()
      modifies this`reflog, this`proposals, this`journal, this`faults, this`fuse, this`published
      ensures serial && reliable ==> Performed(ReconcileRun(old(Now()), b), old(fuse), fuse, Now(), r)
      ensures serial ==> Observes(old(Now()), b, Since(old(faults)), Now(), r)
      ensures r.Ok? ==> Truthful(Now(), b, r.value, serial)
      ensures published == old(published) && fuse <= old(fuse)
      ensures Valid() && Evolves(old(Now()), Now()) && Grows(old(faults), faults)
    {
      hide Inv, SerialInv, Evolves;
      EvolvesRefl(Now());
      var review := GetReview(b);
      label got:
      if review.Err? {
        if serial {
          ErrorObserves(Now(), b, Since(old(faults)), review.error);
        }
        return Err(review.error);
      }
      var stored := GetDecisionIntent(b);
      label read:
      EvolvesTrans(old(Now()), old@got(Now()), Now());
      ReviewStays(old@got(Now()), Now(), b);
      if stored.Err? {
        if serial {
          ErrorObserves(Now(), b, Since(old(faults)), stored.error);
        }
        return Err(stored.error);
      }
      hide ReconcileRun, Performed, Ends, Observes;
      var proposal := GetProposalRef(b.operation);
      label looked:
      EvolvesTrans(old(Now()), old@read(Now()), Now());
      ReviewStays(old@read(Now()), Now(), b);
      if proposal.Err? {
        r := MarkOutcomeUnknown(b, review.value, stored.value.Some?);
        EvolvesTrans(old(Now()), old@looked(Now()), Now());
        if serial {
          EndsMore(MarkUnknownRun(old(Now()), b), b, Since(old@looked(faults)), Since(old(faults)), Now(), r);
          UnreadableObserves(old(Now()), b, Since(old(faults)), Now(), r);
        }
        return;
      }
      var decision := GetDecisionRef();
      label ready:
      EvolvesTrans(old(Now()), old@looked(Now()), Now());
      ReviewStays(old@looked(Now()), Now(), b);
      if decision.Err? {
        r := MarkOutcomeUnknown(b, review.value, stored.value.Some?);
        EvolvesTrans(old(Now()), old@ready(Now()), Now());
        if serial {
          EndsMore(MarkUnknownRun(old(Now()), b), b, Since(old@ready(faults)), Since(old(faults)), Now(), r);
          UnreadableObserves(old(Now()), b, Since(old(faults)), Now(), r);
        }
        return;
      }
      // Refs only change through the writes above, so the bound proposal is still in place.
      BindingStays(old@looked(Now()), b);
      if proposal.value != Some(b.proposalHead) {
        assert false;
      }
      r := Conclude(b, review.value, stored.value, decision.value.value);
      EvolvesTrans(old(Now()), old@ready(Now()), Now());
      if serial {
        EndsMore(ReconcileRun(old(Now()), b), b, Since(old@ready(faults)), Since(old(faults)), Now(), r);
        ReadableObserves(old(Now()), b, Since(old(faults)), Now(), r);
      }
    }

    /** The branches on the live head, the observed state and the observed intent. */
    method Conclude(b: Binding, state: ReviewState, stored: Option<Intent>, current: Commit)
      returns (r: Result<ReviewOutcome, SidecarError>)
      requires b in journal && reflog != [] && current == Head(Now())
      requires IsTerminal(state) || serial ==> journal[b].state == state
      requires stored.Some? || serial ==> journal[b].intent == stored
      requires Valid()
      modifies this`reflog, this`proposals, this`journal, this`faults, this`fuse, this`published
      ensures serial && reliable ==> Performed(ReconcileRun(old(Now()), b), old(fuse), fuse, Now(), r)
      ensures serial ==> Ends(ReconcileRun(old(Now()), b), b, Since(old(faults)), Now(), r)
      ensures r.Ok? ==> Truthful(Now(), b, r.value, serial)
      ensures published == old(published) && fuse <= old(fuse)
      ensures Valid() && Evolves(old(Now()), Now()) && Grows(old(faults), faults)
    {
      hide Inv, SerialInv, Evolves;
      EvolvesRefl(Now());
      if current == b.expected {
        return if state == DecisionCommitted then Err(Integrity) else Ok(NotCommitted(state));
      }
      var published := Ok(false);
      if stored.Some? {
        IntentStays(Now(), b);
        if stored.value.expected != b.expected {
          assert false;
        }
        ChainFromInv(Now());
        published := ChainContains(Now(), current, stored.value.candidate);
      }
      match published {
        case Err(_) => return Err(Integrity);
        case Ok(false) => r := Deny(b, state);
        case Ok(true) => r := Commit(b, state, stored.value);
      }
    }

    method Deny(b: Binding, state: ReviewState) returns (r: Result<ReviewOutcome, SidecarError>)
      requires b in journal
      requires IsTerminal(state) || serial ==> journal[b].state == state
      requires Guarded() ==> !CandidateIsPublished(Now(), b)
      requires Valid()
      modifies this`reflog, this`proposals, this`journal, this`faults, this`fuse
      ensures serial && reliable ==>
                Performed(Settle(old(Now()), b, TerminalDenial, NotCommitted(TerminalDenial)),
                          old(fuse), fuse, Now(), r)
      ensures serial ==>
                Ends(Settle(old(Now()), b, TerminalDenial, NotCommitted(TerminalDenial)), b, Since(old(faults)),
                     Now(), r)
      ensures r.Ok? ==> r.value == NotCommitted(TerminalDenial) && Truthful(Now(), b, r.value, serial)
      ensures fuse <= old(fuse)
      ensures faults.refs == old(faults).refs && faults.core == old(faults).core
      ensures Valid() && Evolves(old(Now()), Now()) && Grows(old(faults), faults)
    {
      hide Inv, SerialInv, Evolves;
      var denied := TransitionTerminal(b, state);
      return if denied.Err? then Err(denied.error) else Ok(NotCommitted(TerminalDenial));
    }

    method Commit(b: Binding, state: ReviewState, i: Intent) returns (r: Result<ReviewOutcome, SidecarError>)
      requires b in journal && journal[b].intent == Some(i) && CandidateIsPublished(Now(), b)
      requires IsTerminal(state) || serial ==> journal[b].state == state
      requires IntentFits(b, i)
      requires serial ==> WalkAnswer(Now(), i.candidate) == Ok(true)
      requires Valid()
      modifies this`reflog, this`proposals, this`journal, this`faults, this`fuse, this`published
      ensures serial && reliable ==>
                Performed(Settle(old(Now()), b, DecisionCommitted, Committed(ReceiptOf(b, i))),
                          old(fuse), fuse, Now(), r)
      ensures serial ==>
                Ends(Settle(old(Now()), b, DecisionCommitted, Committed(ReceiptOf(b, i))), b, Since(old(faults)),
                     Now(), r)
      ensures r.Ok? ==> Truthful(Now(), b, r.value, serial)
      ensures published == old(published) && fuse <= old(fuse)
      ensures Valid() && Evolves(old(Now()), Now()) && Grows(old(faults), faults)
    {
      hide Inv, SerialInv, Evolves, WalkAnswer;
      var validated := ValidateCommittedCandidate(b, i);
      label validation:
      if validated.Err? {
        return Err(validated.error);
      }
      ReviewStays(old(Now()), Now(), b);
      var committed := TransitionCommitted(b, state);
      EvolvesTrans(old(Now()), old@validation(Now()), Now());
      ReviewStays(old@validation(Now()), Now(), b);
      return if committed.Err? then Err(committed.error) else Ok(Committed(ReceiptOf(b, i)));
    }

    // ---- Deciding ----

    /** The journal keeps one intent per review; registering it again exactly returns it. */
    method RegisterDecisionIntent(b: Binding, i: Intent) returns (r: Result<Intent, SidecarError>)
      requires b in journal && IntentFits(b, i)
      requires Valid()
      modifies this`reflog, this`proposals, this`journal, this`faults, this`fuse
      ensures serial && reliable ==> Performed(RegisterRun(old(Now()), b, i), old(fuse), fuse, Now(), r)
      ensures serial ==> Ends(RegisterRun(old(Now()), b, i), b, Since(old(faults)), Now(), r)
      ensures r.Ok? ==> b in journal && journal[b].intent == Some(i) && r.value == i
      ensures fuse <= old(fuse)
      ensures Valid() && Evolves(old(Now()), Now()) && Grows(old(faults), faults)
    {
      hide Inv, SerialInv, Evolves;
      Interfere();
      ReviewStays(old(Now()), Now(), b);
      var failed := StoreFault();
      if failed {
        return Err(Storage);
      }
      if journal[b].intent.Some? {
        var stored := journal[b].intent.value;
        return if stored.key != i.key then Err(DecisionIntentExists) else if stored != i then Err(IdempotencyConflict)
               else Ok(stored);
      }
      if fuse == 0 {
        return Err(PowerLoss);
      }
      WriteIsSafe(old(Now()), Now(), RegisterIntent(b, i), Guarded());
      journal := journal[b := journal[b].(intent := Some(i))];
      fuse := fuse - 1;
      failed := StoreFault();
      return if failed then Err(Storage) else Ok(i);
    }

    method ValidateLiveBinding(b: Binding) returns (r: Result<(), SidecarError>)
      requires b in journal
      requires Valid()
      modifies this`reflog, this`proposals, this`journal, this`faults
      ensures r.Err? ==> r.error == StaleBase || (r.error == Storage && !reliable)
      ensures r.Err? ==>
                (r.error == StaleBase && faults == old(faults)
                 && (serial ==> reflog != [] && Head(Now()) != b.expected))
                || (r.error == Storage && faults.refs > old(faults).refs)
      ensures r.Ok? ==> faults == old(faults)
      ensures r.Ok? ==> reflog != [] && Head(Now()) == b.expected
      ensures serial ==> Now() == old(Now()) && (reliable ==> (r.Ok? <==> Head(Now()) == b.expected))
      ensures Valid() && Evolves(old(Now()), Now()) && Grows(old(faults), faults)
    {
      hide Inv, SerialInv, Evolves;
      var proposal := GetProposalRef(b.operation);
      label looked:
      ReviewStays(old(Now()), Now(), b);
      if proposal.Err? {
        return Err(proposal.error);
      }
      var decision := GetDecisionRef();
      EvolvesTrans(old(Now()), old@looked(Now()), Now());
      ReviewStays(old(Now()), Now(), b);
      if decision.Err? {
        return Err(decision.error);
      }
      BindingStays(old@looked(Now()), b);
      if proposal.value != Some(b.proposalHead) {
        assert false;
      }
      return if decision.value != Some(b.expected) then Err(StaleBase) else Ok(());
    }

    method CreateDecisionIntent(b: Binding, disposition: Disposition, key: Bytes)
      returns (r: Result<Intent, SidecarError>)
      requires b in journal
      requires Valid()
      modifies this`reflog, this`proposals, this`journal, this`faults, this`fuse
      ensures serial && reliable && old(journal)[b].intent == None ==>
                Performed(IntentRun(old(Now()), b, disposition, key, recordedAt), old(fuse), fuse, Now(), r)
      ensures old(journal)[b].intent == None && serial ==>
                || Ends(IntentRun(old(Now()), b, disposition, key, recordedAt), b, Since(old(faults)), Now(), r)
                || UnreadBase(b, old(Now()), Since(old(faults)), Now(), r)
      ensures r.Ok? ==> b in journal && journal[b].intent == Some(r.value) && DispositionOf(r.value) == disposition
      ensures fuse <= old(fuse)
      ensures Valid() && Evolves(old(Now()), Now()) && Grows(old(faults), faults)
    {
      hide Inv, SerialInv, Evolves;
      var live := ValidateLiveBinding(b);
      label validated:
      ReviewStays(old(Now()), Now(), b);
      if live.Err? {
        return Err(live.error);
      }
      var fault := StoreFault();  // the feedback and candidate objects are written here
      if fault {
        return Err(Storage);
      }
      r := RegisterDecisionIntent(b, MakeIntent(b, key, disposition, recordedAt));
      EvolvesTrans(old(Now()), old@validated(Now()), Now());
      fault := StoreFault();
      if fault {
        return Err(Storage);
      }
    }

    method PublishRecoveredDecision(b: Binding, i: Intent, disposition: Disposition)
      returns (r: Result<(), SidecarError>)
      requires b in journal && journal[b].intent == Some(i) && DispositionOf(i) == disposition
      requires Guarded() ==> journal[b].state != TerminalDenial
      requires Valid()
      modifies this`reflog, this`proposals, this`journal, this`faults, this`fuse, this`published
      ensures serial && reliable ==> Performed(PublishRun(old(Now()), b, i), old(fuse), fuse, Now(), r)
      ensures serial ==> Attempts(old(Now()), b, i, Since(old(faults)), Now(), r)
      ensures r.Ok? ==> b in journal && CandidateIsPublished(Now(), b)
      ensures r == Err(PowerLoss) ==> fuse == 0
      ensures old(published) <= published <= old(published) + 1 && fuse <= old(fuse)
      ensures Valid() && Evolves(old(Now()), Now()) && Grows(old(faults), faults)
    {
      hide Inv, SerialInv, Evolves, Attempts, IsMet, Said;
      IntentStays(Now(), b);
      if i.expected != b.expected {
        assert false;
      }
      var live := ValidateLiveBinding(b);
      label validated:
      ReviewStays(old(Now()), Now(), b);
      if live.Err? {
        if serial {
          if live.error == StaleBase {
            ReplyArrives(old(Now()), b, i, Since(old(faults)));
          } else {
            NotMadeIsMet(Since(old(faults)), live.error);
            ReplyIsLost(old(Now()), b, i, Since(old(faults)), Now(), live.error);
          }
        }
        return Err(live.error);
      }
      var publication := PublishHumanDecision(b, i);
      EvolvesTrans(old(Now()), old@validated(Now()), Now());
      match publication {
        case RefConflict =>
          return Err(ActiveReview);
        case Refused(error) =>
          if serial {
            if error == PowerLoss {
              NotMadeIsMet(Since(old(faults)), error);
            } else {
              LastIsSaid(Since(old(faults)));
            }
            ReplyIsLost(old(Now()), b, i, Since(old(faults)), Now(), error);
          }
          return Err(error);
        case Published =>
          var fault := CallFault();
          if serial {
            ReplyArrives(old(Now()), b, i, Since(old(faults)));
            if fault {
              LastIsSaid(Since(old(faults)));
              ReplyIsLost(old(Now()), b, i, Since(old(faults)), Now(), Storage);
            }
          }
          return if fault then Err(Storage) else Ok(());
      }
    }

    method CallSynapse(b: Binding, i: Intent, disposition: Disposition) returns (r: Result<(), SidecarError>)
      requires b in journal && journal[b].intent == Some(i) && DispositionOf(i) == disposition
      requires Guarded() ==> journal[b].state != TerminalDenial
      requires Valid()
      modifies this`reflog, this`proposals, this`journal, this`faults, this`fuse, this`published
      ensures serial && reliable ==> Performed(PublishRun(old(Now()), b, i), old(fuse), fuse, Now(), r)
      ensures serial ==> Attempts(old(Now()), b, i, Since(old(faults)), Now(), r)
      ensures r.Ok? ==> b in journal && CandidateIsPublished(Now(), b)
      ensures r == Err(PowerLoss) ==> fuse == 0
      ensures old(published) <= published <= old(published) + 1 && fuse <= old(fuse)
      ensures Valid() && Evolves(old(Now()), Now()) && Grows(old(faults), faults)
    {
      hide Inv, SerialInv, Evolves, PublishRun, Attempts;
      EvolvesRefl(Now());
      var fault := CallFault();
      if fault {
        LastIsSaid(Since(old(faults)));
        ReplyIsLost(Now(), b, i, Since(old(faults)), Now(), Storage);
        return Err(Storage);
      }
      r := PublishRecoveredDecision(b, i, disposition);
      ghost var inner := Since(old(faults));
      fault := CallFault();
      if serial {
        AttemptsMore(old(Now()), b, i, inner, Since(old(faults)), Now(), r);
      }
      if fault {
        if serial {
          AttemptEnds(old(Now()), b, i, Since(old(faults)), Now(), r);
          LastIsSaid(Since(old(faults)));
          ReplyIsLost(old(Now()), b, i, Since(old(faults)), Now(), Storage);
        }
        return Err(Storage);
      }
    }

    method TransitionRetryable(b: Binding) returns (r: Result<ReviewOutcome, SidecarError>)
      requires b in journal && (serial ==> reflog != [] && Head(Now()) == b.expected)
      requires Valid()
      modifies this`reflog, this`proposals, this`journal, this`faults, this`fuse, this`published
      ensures serial && old(journal)[b].state == PendingReview ==>
                Ends(FailedRun(old(Now()), b, Storage), b, Since(old(faults)), Now(), r)
      ensures r.Ok? ==> Truthful(Now(), b, r.value, serial) && r.value != NotCommitted(PendingReview)
      ensures serial && r.Ok? && old(journal)[b].state == PendingReview ==>
                r.value == NotCommitted(RetryableFailure) && journal[b].state == RetryableFailure
      ensures published == old(published) && fuse <= old(fuse)
      ensures Valid() && Evolves(old(Now()), Now()) && Grows(old(faults), faults)
    {
      hide Inv, SerialInv, Evolves, ReconcileRun, ObserveRun;
      var review := GetReview(b);
      label got:
      ReviewStays(old(Now()), Now(), b);
      if review.Err? {
        return Err(review.error);
      }
      var moved := TransitionState(b, review.value, RetryableFailure);
      label tried:
      EvolvesTrans(old(Now()), old@got(Now()), Now());
      ReviewStays(old@got(Now()), Now(), b);
      match moved {
        case Err(error) => return Err(error);
        case Ok(state) =>
          if state == DecisionCommitted {
            r := ReconcileParsed(b);
            EvolvesTrans(old(Now()), old@tried(Now()), Now());
            if r == Ok(NotCommitted(PendingReview)) {
              return Err(Integrity);  // a committed review is never pending again
            }
          } else if state == PendingReview {
            return Err(Integrity);
          } else {
            return Ok(NotCommitted(state));
          }
      }
    }

    /** One publication attempt followed by an observation; `failure` is the attempt's own error. The
        attempt left the store in `mid` with the reply `made`. */
    method PublishAndReconcile(b: Binding, i: Intent)
      returns (failure: Option<SidecarError>, r: Result<ReviewOutcome, SidecarError>,
               ghost mid: State, ghost made: Result<(), SidecarError>)
      requires b in journal && journal[b].intent == Some(i)
      requires Guarded() ==> journal[b].state != TerminalDenial
      requires serial && reliable ==> reflog != [] && Head(Now()) == b.expected
      requires Valid()
      modifies this`reflog, this`proposals, this`journal, this`faults, this`fuse, this`published
      ensures serial && reliable ==>
                failure == None && Performed(PublishAndReconcileRun(old(Now()), b, i), old(fuse), fuse, Now(), r)
      ensures serial ==> Attempts(old(Now()), b, i, Since(old(faults)), mid, made)
      ensures serial && made != Err(PowerLoss) ==> Observes(mid, b, Since(old(faults)), Now(), r)
      ensures made == Err(PowerLoss) ==> fuse == 0 && Now() == mid && failure == None && r == Err(PowerLoss)
      ensures made != Err(PowerLoss) ==> failure == if made.Err? then Some(made.error) else None
      ensures r.Ok? ==> Truthful(Now(), b, r.value, serial)
      ensures old(published) <= published <= old(published) + 1 && fuse <= old(fuse)
      ensures Valid() && Evolves(old(Now()), Now()) && Grows(old(faults), faults)
    {
      hide Inv, SerialInv, Evolves, ReconcileRun, ObserveRun, Truthful;
      ReviewStays(Now(), Now(), b) by { EvolvesRefl(Now()); }
      var publication := CallSynapse(b, i, DispositionOf(i));
      label called:
      mid, made := Now(), publication;
      if serial && reliable && publication.Err? {
        LostInFirst(PublishRun(old(Now()), b, i), ReconcileRun(Last(PublishRun(old(Now()), b, i)), b),
                    old(fuse), fuse, Now(), publication);
      }
      ghost var called := Since(old(faults));
      if publication == Err(PowerLoss) {
        return None, Err(PowerLoss), mid, made;
      }
      failure := if publication.Err? then Some(publication.error) else None;
      r := ReconcileParsed(b);
      EvolvesTrans(old(Now()), old@called(Now()), Now());
      if serial {
        AttemptsMore(old(Now()), b, i, called, Since(old(faults)), mid, made);
        ObservesMore(mid, b, Since(old@called(faults)), Since(old(faults)), Now(), r);
      }
      if serial && reliable {
        PerformedThen(PublishRun(old(Now()), b, i), ReconcileRun(Last(PublishRun(old(Now()), b, i)), b),
                      old(fuse), old@called(fuse), fuse, Now(), r);
      }
    }

    method Decide(b: Binding, disposition: Disposition, rationale: Option<Rationale>, key: Bytes)
      returns (r: Result<ReviewOutcome, SidecarError>)
      requires Valid()
      modifies this`reflog, this`proposals, this`journal, this`faults, this`fuse, this`published
      ensures serial && reliable ==>
                Performed(DecideRun(old(Now()), b, disposition, rationale, key, recordedAt), old(fuse), fuse, Now(), r)
      ensures serial ==>
                && DecidesIn(old(Now()), b, disposition, rationale, key, recordedAt, Since(old(faults)), Now(), r)
                && Decides(old(Now()), b, disposition, rationale, key, recordedAt, Now(), r)
      ensures !ValidKey(key) || !ValidPrivateRationale(rationale) ==>
                r == Err(InvalidArgument) && Now() == old(Now()) && fuse == old(fuse)
      ensures r.Ok? ==> Truthful(Now(), b, r.value, serial)
      ensures old(published) <= published <= old(published) + 1 && fuse <= old(fuse)
      ensures Valid() && Evolves(old(Now()), Now()) && Grows(old(faults), faults)
    {
      hide Inv, SerialInv, Evolves, ReconcileRun, Truthful, PublishAndReconcileRun, DecideUnder, IntentRun, Settles;
      hide Decides, DecidesIn, Ends;
      EvolvesRefl(Now());
      if !ValidKey(key) || !ValidPrivateRationale(rationale) {
        EarlyDecides(Now(), b, disposition, rationale, key, recordedAt, Since(old(faults)), InvalidArgument);
        DecidesInDecides(Now(), b, disposition, rationale, key, recordedAt, Since(old(faults)), Now(),
                         Err(InvalidArgument));
        return Err(InvalidArgument);
      }
      var review := GetReview(b);
      label got:
      if review.Err? {
        if serial {
          EarlyDecides(Now(), b, disposition, rationale, key, recordedAt, Since(old(faults)), review.error);
          DecidesInDecides(Now(), b, disposition, rationale, key, recordedAt, Since(old(faults)), Now(),
                           Err(review.error));
        }
        return Err(review.error);
      }
      var registered := ObtainIntent(b, disposition, key);
      label obtained:
      EvolvesTrans(old(Now()), old@got(Now()), Now());
      ghost var x := Since(old(faults));
      ghost var before, run := old@got(Now()), IntentRun(old@got(Now()), b, disposition, key, recordedAt);
      if registered.Err? {
        if serial {
          IntentRunStarts(before, b, disposition, key, recordedAt);
          EndsMoreOrUnread(run, b, before, Since(old@got(faults)), x, Now(), registered);
          RegisterThenSettle(before, b, disposition, rationale, key, recordedAt, x, Now(), registered, Now(),
              Err(registered.error));
          DecidesInDecides(before, b, disposition, rationale, key, recordedAt, x, Now(), Err(registered.error));
        }
        if serial && reliable && run.answer.Ok? {
          LostInFirst(run, SettleIntentRun(Last(run), b, run.answer.value), old(fuse), fuse, Now(), registered);
        }
        return Err(registered.error);
      }
      r := SettleIntent(b, registered.value);
      EvolvesTrans(old(Now()), old@obtained(Now()), Now());
      if serial {
        ghost var y := Since(old(faults));
        EndsMoreOrUnread(run, b, before, Trouble(old@got(faults), old@obtained(faults), old@obtained(fuse) == 0), y,
            old@obtained(Now()), registered);
        SettlesMore(old@obtained(Now()), b, registered.value, false, Since(old@obtained(faults)), y, Now(), r);
        RegisterThenSettle(before, b, disposition, rationale, key, recordedAt, y,
                           old@obtained(Now()), registered, Now(), r);
        DecidesInDecides(before, b, disposition, rationale, key, recordedAt, y, Now(), r);
      }
      if serial && reliable {
        PerformedThen(run, SettleIntentRun(Last(run), b, registered.value),
                      old(fuse), old@obtained(fuse), fuse, Now(), r);
      }
    }

    /** The stored intent if it says the same, registered again; otherwise a new one. */
    method ObtainIntent(b: Binding, disposition: Disposition, key: Bytes) returns (r: Result<Intent, SidecarError>)
      requires b in journal
      requires Valid()
      modifies this`reflog, this`proposals, this`journal, this`faults, this`fuse
      ensures serial && reliable ==>
                Performed(IntentRun(old(Now()), b, disposition, key, recordedAt), old(fuse), fuse, Now(), r)
      ensures serial ==>
                || Ends(IntentRun(old(Now()), b, disposition, key, recordedAt), b, Since(old(faults)), Now(), r)
                || UnreadBase(b, old(Now()), Since(old(faults)), Now(), r)
      ensures r.Ok? ==> b in journal && journal[b].intent == Some(r.value) && DispositionOf(r.value) == disposition
      ensures fuse <= old(fuse)
      ensures Valid() && Evolves(old(Now()), Now()) && Grows(old(faults), faults)
    {
      hide Inv, SerialInv, Evolves;
      var stored := GetDecisionIntent(b);
      label got:
      ReviewStays(old(Now()), Now(), b);
      match stored {
        case Err(error) => return Err(error);
        case Ok(None) =>
          r := CreateDecisionIntent(b, disposition, key);
        case Ok(Some(i)) =>
          if DispositionOf(i) != disposition {
            return Err(IdempotencyConflict);
          }
          IntentStays(Now(), b);
          var fault := StoreFault();
          if fault {
            return Err(Storage);
          }
          r := RegisterDecisionIntent(b, i.(key := key));
      }
      EvolvesTrans(old(Now()), old@got(Now()), Now());
    }

    method SettleIntent(b: Binding, i: Intent) returns (r: Result<ReviewOutcome, SidecarError>)
      requires b in journal && journal[b].intent == Some(i)
      requires Valid()
      modifies this`reflog, this`proposals, this`journal, this`faults, this`fuse, this`published
      ensures serial && reliable ==> Performed(SettleIntentRun(old(Now()), b, i), old(fuse), fuse, Now(), r)
      ensures serial ==> Settles(old(Now()), b, i, false, Since(old(faults)), Now(), r)
      ensures r.Ok? ==> Truthful(Now(), b, r.value, serial)
      ensures old(published) <= published <= old(published) + 1 && fuse <= old(fuse)
      ensures Valid() && Evolves(old(Now()), Now()) && Grows(old(faults), faults)
    {
      hide Inv, SerialInv, Evolves, ReconcileRun, PublishAndReconcileRun;
      hide Observes, Attempts, Judges, Publishes, Settles, Ends, FailedRun, Excused;
      var seen := ReconcileParsed(b);
      label observed:
      ghost var s1, x := Now(), Since(old(faults));
      PendingMeansUntouched(old(Now()), b);
      if seen != Ok(NotCommitted(PendingReview)) && seen != Ok(NotCommitted(RetryableFailure)) {
        if serial {
          ObserveThenPublish(old(Now()), b, i, false, Since(old(faults)), s1, seen, Now(), seen);
        }
        return seen;
      }
      ReviewStays(old(Now()), Now(), b);
      var failure, after;
      ghost var mid, made;
      failure, after, mid, made := PublishAndReconcile(b, i);
      label attempted:
      EvolvesTrans(old(Now()), old@observed(Now()), Now());
      ghost var z := Since(old@observed(faults));
      if failure == None || after != Ok(NotCommitted(PendingReview)) {
        if serial {
          ObservedIsPublished(s1, b, i, false, z, mid, made, Now(), after);
          GoneOnSettles(old(Now()), b, i, x, z, Since(old(faults)), s1, seen, Now(), after);
        }
        return after;
      }
      if serial {
        LiveIsUnpublished(Now(), b);
      }
      r := FailedPublication(b, failure.value, PendingReview);
      EvolvesTrans(old(Now()), old@attempted(Now()), Now());
      if serial {
        FailureIsPublished(s1, b, i, false, z, Since(old@attempted(faults)), Since(old@observed(faults)),
                           mid, made, old@attempted(Now()), after, Now(), r);
        GoneOnSettles(old(Now()), b, i, x, Since(old@observed(faults)), Since(old(faults)), s1, seen, Now(), r);
      }
    }

    /** A storage failure leaves the review open to a retry; any other refusal denies it. */
    method FailedPublication(b: Binding, failure: SidecarError, state: ReviewState)
      returns (r: Result<ReviewOutcome, SidecarError>)
      requires b in journal && !IsTerminal(state) && (failure == Storage ==> state == PendingReview)
      requires serial ==> journal[b].state == state
      requires serial && failure == Storage ==> reflog != [] && Head(Now()) == b.expected
      requires Guarded() && failure != Storage ==> !CandidateIsPublished(Now(), b)
      requires Valid()
      modifies this`reflog, this`proposals, this`journal, this`faults, this`fuse, this`published
      ensures r.Ok? ==> Truthful(Now(), b, r.value, serial)
      ensures r.Ok? && failure != Storage ==> r.value == NotCommitted(TerminalDenial)
      ensures r.Ok? && failure == Storage ==> r.value != NotCommitted(PendingReview)
      ensures serial ==> Ends(FailedRun(old(Now()), b, failure), b, Since(old(faults)), Now(), r)
      ensures serial && r.Ok? && failure == Storage ==>
                r.value == NotCommitted(RetryableFailure) && journal[b].state == RetryableFailure
      ensures serial && r.Ok? && failure != Storage ==> journal[b].state == TerminalDenial
      ensures serial && r.Err? ==> faults.store > old(faults).store || (r.error == PowerLoss && fuse == 0)
      ensures published == old(published) && fuse <= old(fuse)
      ensures Valid() && Evolves(old(Now()), Now()) && Grows(old(faults), faults)
    {
      hide Inv, SerialInv, Evolves, Truthful;
      if failure == Storage {
        r := TransitionRetryable(b);
      } else {
        r := Deny(b, state);
      }
    }

    method Reconcile(b: Binding) returns (r: Result<ReviewOutcome, SidecarError>)
      requires Valid()
      modifies this`reflog, this`proposals, this`journal, this`faults, this`fuse, this`published
      ensures serial && reliable ==> Performed(ReconcileRun(old(Now()), b), old(fuse), fuse, Now(), r)
      ensures serial ==> Observes(old(Now()), b, Since(old(faults)), Now(), r)
      ensures r.Ok? ==> Truthful(Now(), b, r.value, serial)
      ensures published == old(published) && fuse <= old(fuse)
      ensures Valid() && Evolves(old(Now()), Now()) && Grows(old(faults), faults)
    {
      hide Inv, SerialInv, Evolves, ReconcileRun, Truthful;
      r := ReconcileParsed(b);
    }

    /** The second half of resume: one more publication attempt, judged by what is then observed. */
    method ResumeIntent(b: Binding, i: Intent) returns (r: Result<ReviewOutcome, SidecarError>)
      requires b in journal && journal[b].intent == Some(i)
      requires serial ==> !IsTerminal(journal[b].state)
      requires serial && reliable ==> reflog != [] && Head(Now()) == b.expected
      requires Valid()
      modifies this`reflog, this`proposals, this`journal, this`faults, this`fuse, this`published, this`sound
      ensures serial && reliable ==>
                Performed(PublishAndReconcileRun(old(Now()), b, i), old(fuse), fuse, Now(), r)
      ensures serial ==> Publishes(old(Now()), b, i, true, Since(old(faults)), Now(), r)
      ensures sound <==> old(sound) && (serial ==> SerialInv(Now()))
      ensures r.Ok? ==> Truthful(Now(), b, r.value, serial)
      ensures old(published) <= published <= old(published) + 1 && fuse <= old(fuse)
      ensures Valid() && Evolves(old(Now()), Now()) && Grows(old(faults), faults)
    {
      hide Inv, SerialInv, Evolves, ReconcileRun, PublishAndReconcileRun;
      hide Observes, Attempts, Judges, Publishes, Ends, FailedRun, Excused, Performed, CandidateIsPublished;
      var failure, after;
      ghost var mid, made;
      failure, after, mid, made := PublishAndReconcile(b, i);
      label attempted:
      ghost var s1, was, x := Now(), sound, Since(old(faults));
      if failure == None || after.Err? || after.value.Committed? || after.value.state == TerminalDenial
         || (failure == Some(Storage) && after.value.state != PendingReview) {
        if serial {
          ObservedIsPublished(old(Now()), b, i, true, x, mid, made, s1, after);
        }
        return after;
      }
      if serial && failure != Some(Storage) && CandidateIsPublished(s1, b) {
        sound := false;
      }
      r := FailedPublication(b, failure.value, after.value.state);
      EvolvesTrans(old(Now()), s1, Now());
      sound := was && (serial ==> SerialInv(Now()));
      if serial {
        FailureIsPublished(old(Now()), b, i, true, x, Since(old@attempted(faults)), Since(old(faults)),
                           mid, made, s1, after, Now(), r);
      }
    }

    /** The state of a review and then, unless that is terminal, its intent. */
    method ReadReview(b: Binding)
      returns (review: Result<ReviewState, SidecarError>, stored: Result<Option<Intent>, SidecarError>)
      requires Valid() && b in journal
      modifies this`reflog, this`proposals, this`journal, this`faults
      ensures serial ==> Now() == old(Now()) && (review.Ok? ==> review.value == journal[b].state)
      ensures review.Ok? && !IsTerminal(review.value) && stored.Ok? ==>
                b in journal && stored.value == journal[b].intent
      ensures review.Err? ==> stored == Err(review.error)
      ensures stored.Err? && !(review.Ok? && IsTerminal(review.value)) ==> !reliable && faults.store > old(faults).store
      ensures Valid() && Evolves(old(Now()), Now()) && Grows(old(faults), faults)
    {
      hide Inv, SerialInv, Evolves;
      review := GetReview(b);
      label read:
      ReviewStays(old(Now()), Now(), b);
      if review.Err? {
        return review, Err(review.error);
      }
      if IsTerminal(review.value) {
        return review, Ok(None);
      }
      stored := GetDecisionIntent(b);
      EvolvesTrans(old(Now()), old@read(Now()), Now());
    }

    /** Resumes a durable intent after an interruption; a review without an intent is only observed.
        This is the one call that may deny a published decision, and then `sound` is lost. */
    method Resume(b: Binding) returns (r: Result<ReviewOutcome, SidecarError>)
      requires Valid()
      modifies this`reflog, this`proposals, this`journal, this`faults, this`fuse, this`published, this`sound
      ensures serial && reliable ==> Performed(ResumeRun(old(Now()), b), old(fuse), fuse, Now(), r)
      ensures serial ==>
                ResumesIn(old(Now()), b, Since(old(faults)), Now(), r) && Resumes(old(Now()), b, Now(), r)
      ensures sound <==> old(sound) && (serial ==> SerialInv(Now()))
      ensures r.Ok? ==> Truthful(Now(), b, r.value, serial)
      ensures old(published) <= published <= old(published) + 1 && fuse <= old(fuse)
      ensures Valid() && Evolves(old(Now()), Now()) && Grows(old(faults), faults)
    {
      hide Inv, SerialInv, Evolves, ReconcileRun, PublishAndReconcileRun;
      hide Observes, Publishes, Settles, Resumes, ResumesIn, Ends, Excused, ResumeRun, Performed;
      var seen := ReconcileParsed(b);
      label observed:
      ghost var s0, s1, x := old(Now()), Now(), Since(old(faults));
      if serial && reliable {
        ResumeGoesOn(s0, b, old(fuse), fuse, s1, seen);
      }
      if seen.Err? || seen.value.Committed? || seen.value.state == TerminalDenial {
        if serial {
          SeenResumes(s0, b, Since(old(faults)), s1, seen);
        }
        return seen;
      }
      ReviewStays(s1, Now(), b) by { EvolvesRefl(s1); }
      var review, stored := ReadReview(b);
      label fetched:
      EvolvesTrans(s0, s1, Now());
      if review.Ok? && IsTerminal(review.value) {
        r := ReconcileParsed(b);
        EvolvesTrans(s0, old@fetched(Now()), Now());
        return;
      }
      if stored.Err? {
        if serial {
          ErrorResumes(s0, b, x, Since(old(faults)), s1, seen, stored.error);
        }
        return Err(stored.error);
      }
      if stored.value == None {
        if serial {
          ObservationKeepsIntents(s0, b, x, s1, seen);
          ObservesMore(s0, b, x, Since(old(faults)), s1, seen);
          ObservesIsResumes(s0, b, Since(old(faults)), s1, seen);
        }
        return seen;
      }
      var i := stored.value.value;
      IntentStays(Now(), b);
      if i.expected != b.expected {
        assert false;
      }
      r := ResumeIntent(b, i);
      EvolvesTrans(s0, old@fetched(Now()), Now());
      if serial {
        GoneOnResumes(s0, b, i, x, Since(old@fetched(faults)), Since(old(faults)), s1, seen, Now(), r);
      }
    }

    // ---- Proposing ----

    method InitializeRef(base: Commit) returns (r: Publication)
      requires base.parents == [] && base.transitions == []
      requires Valid()
      modifies this`reflog, this`proposals, this`journal, this`faults, this`fuse
      ensures serial && faults == old(faults) && old(reflog) == [] ==>
                if old(fuse) == 0 then r == Refused(PowerLoss) && Now() == old(Now()) && fuse == 0
                else r == Published && Now() == old(Now()).(reflog := [base]) && fuse == old(fuse) - 1
      ensures r == Published || r == RefConflict ==> reflog != []
      ensures serial ==> match r
                         case RefConflict => old(reflog) != [] && Now() == old(Now())
                         case Published => old(reflog) == [] && Now() == old(Now()).(reflog := [base])
                         case Refused(_) =>
                                Now() == old(Now()) || (old(reflog) == [] && Now() == old(Now()).(reflog := [base]))
      ensures r.Refused? ==> r.error == PowerLoss || (r.error == Storage && faults != old(faults))
      ensures fuse <= old(fuse)
      ensures reliable ==> faults == old(faults)
      ensures Valid() && Evolves(old(Now()), Now()) && Grows(old(faults), faults)
    {
      hide Inv, SerialInv, Evolves;
      Interfere();
      var failed := StoreFault();
      if failed {
        return Refused(Storage);
      }
      if reflog != [] {
        return RefConflict;
      }
      if fuse == 0 {
        return Refused(PowerLoss);
      }
      WriteIsSafe(old(Now()), Now(), InitializeDecisionRef(base), Guarded());
      reflog := [base];
      fuse := fuse - 1;
      failed := StoreFault();
      return if failed then Refused(Storage) else Published;
    }

    method PublishProposal(k: OperationKey, head: Commit) returns (r: Publication)
      requires IsProposalCommit(k, head) && head.parents[0] in reflog
      requires Guarded() ==> head.parents[0] == Head(Now()) && forall l :: l in proposals ==> !Open(Now(), l)
      requires Valid()
      modifies this`reflog, this`proposals, this`journal, this`faults, this`fuse
      ensures serial && faults == old(faults) ==>
                if k in old(proposals) then r == RefConflict && Now() == old(Now()) && fuse == old(fuse)
                else if old(fuse) == 0 then r == Refused(PowerLoss) && Now() == old(Now()) && fuse == 0
                else r == Published && Now() == old(Now()).(proposals := old(proposals)[k := head])
                     && fuse == old(fuse) - 1
      ensures r == Published ==> k in proposals && proposals[k] == head
      ensures serial ==> match r
                         case RefConflict => k in old(proposals) && Now() == old(Now())
                         case Published => Now() == old(Now()).(proposals := old(proposals)[k := head])
                         case Refused(_) =>
                                Now() == old(Now()) || Now() == old(Now()).(proposals := old(proposals)[k := head])
      ensures r == RefConflict ==> k in proposals
      ensures r.Refused? ==> r.error == PowerLoss || faults != old(faults)
      ensures fuse <= old(fuse)
      ensures reliable ==> faults == old(faults)
      ensures Valid() && Evolves(old(Now()), Now()) && Grows(old(faults), faults)
    {
      hide Inv, SerialInv, Evolves;
      Interfere();
      HeadsStayAcross(old(Now()), Now(), head.parents[0]);
      var refusal := CoreFault();
      if refusal.Some? {
        return Refused(refusal.value);
      }
      if k in proposals {
        return RefConflict;
      }
      if fuse == 0 {
        return Refused(PowerLoss);
      }
      WriteIsSafe(old(Now()), Now(), CreateProposalRef(k, head), Guarded());
      proposals := proposals[k := head];
      fuse := fuse - 1;
      refusal := CoreFault();
      if refusal.Some? {
        return Refused(refusal.value);
      }
      return Published;
    }

    method CreateOrGetReview(b: Binding) returns (r: Result<(), SidecarError>)
      requires BindingIsLive(Now(), b)
      requires Valid()
      modifies this`reflog, this`proposals, this`journal, this`faults, this`fuse
      ensures serial && faults == old(faults) ==>
                if b in old(journal) then r == Ok(()) && Now() == old(Now()) && fuse == old(fuse)
                else if old(fuse) == 0 then r == Err(PowerLoss) && Now() == old(Now()) && fuse == 0
                else r == Ok(()) && Now() == old(Now()).(journal := old(journal)[b := Review(PendingReview, None)])
                     && fuse == old(fuse) - 1
      ensures r.Ok? ==> b in journal
      ensures serial ==>
                || (Now() == old(Now()) && (r.Ok? ==> b in old(journal)))
                || (b !in old(journal)
                   && Now() == old(Now()).(journal := old(journal)[b := Review(PendingReview, None)]))
      ensures fuse <= old(fuse)
      ensures reliable ==> faults == old(faults)
      ensures Valid() && Evolves(old(Now()), Now()) && Grows(old(faults), faults)
    {
      hide Inv, SerialInv, Evolves;
      Interfere();
      ProposalStaysAcross(old(Now()), Now(), b.operation);
      var failed := StoreFault();
      if failed {
        return Err(Storage);
      }
      if b in journal {
        return Ok(());
      }
      if fuse == 0 {
        return Err(PowerLoss);
      }
      WriteIsSafe(old(Now()), Now(), CreateReview(b), Guarded());
      journal := journal[b := Review(PendingReview, None)];
      fuse := fuse - 1;
      failed := StoreFault();
      return if failed then Err(Storage) else Ok(());
    }

    /** A proposal outside the ancestry is inactive only if its exact binding was denied. */
    method ProposalHasTerminalDenial(k: OperationKey, head: Commit) returns (r: Result<bool, SidecarError>)
      requires k in proposals && proposals[k] == head
      requires Valid()
      modifies this`reflog, this`proposals, this`journal, this`faults
      ensures serial ==> Now() == old(Now())
      ensures r.Ok? && serial ==> |head.parents| == 1 && r.value == Denied(Now(), k)
      ensures serial && faults == old(faults) && |reflog| <= MAX_DECISION_ANCESTRY ==> r.Ok?
      ensures r.Err? ==> r.error == Integrity || r.error == Storage
      ensures reliable ==> faults == old(faults)
      ensures Valid() && Evolves(old(Now()), Now()) && Grows(old(faults), faults)
    {
      hide Inv, SerialInv, Evolves, WalkAnswer;
      var decision := GetDecisionRef();
      label read:
      ProposalIsSound(old(Now()), k);
      HeadsStayAcross(old(Now()), Now(), head.parents[0]);
      ProposalStaysAcross(old(Now()), Now(), k);
      if decision.Err? {
        return Err(decision.error);
      }
      if |head.parents| != 1 {
        assert false;
      }
      ChainFromInv(Now());
      var contained := ChainContains(Now(), decision.value.value, head.parents[0]);
      BaseIsFound(Now(), head.parents[0]);
      if contained != Ok(true) {
        return Err(Integrity);
      }
      var b := Binding(k, head, head.parents[0]);
      Interfere();
      EvolvesTrans(old(Now()), old@read(Now()), Now());
      var failed := StoreFault();
      if failed {
        return Err(Storage);
      }
      return Ok(b in journal && journal[b].state == TerminalDenial);
    }

    method ReplayExistingProposal(input: ProposalInput) returns (r: Result<ProposalReceipt, SidecarError>)
      requires input.operation in proposals && reflog != []
      requires Valid()
      modifies this`reflog, this`proposals, this`journal, this`faults, this`fuse
      ensures serial && faults == old(faults) ==> Performed(ReplayRun(old(Now()), input), old(fuse), fuse, Now(), r)
      ensures serial ==> Cut(ReplayRun(old(Now()), input), Now(), r)
      ensures r.Ok? ==> r.value.review in journal && r.value.review.operation == input.operation
      ensures r.Ok? ==> IsReviewOf(r.value.review, input)
      ensures fuse <= old(fuse)
      ensures reliable ==> faults == old(faults)
      ensures Valid() && Evolves(old(Now()), Now()) && Grows(old(faults), faults)
    {
      hide Inv, SerialInv, Evolves;
      var head := proposals[input.operation];
      ProposalIsSound(Now(), input.operation);
      if |head.parents| != 1 {
        assert false;
      }
      var decision := GetDecisionRef();
      label read:
      ProposalStaysAcross(old(Now()), Now(), input.operation);
      HeadsStayAcross(old(Now()), Now(), head.parents[0]);
      if decision.Err? {
        return Err(decision.error);
      }
      var current := decision.value.value;
      if current != head.parents[0] {
        return Err(StaleBase);
      }
      if current.site != input.accepted || head.site != input.proposed || ContextOf(head) != Some(input.context) {
        return Err(IdempotencyConflict);
      }
      var b := Binding(input.operation, head, current);
      var registered := CreateOrGetReview(b);
      EvolvesTrans(old(Now()), old@read(Now()), Now());
      return match registered
        case Err(error) => Err(error)
        case Ok(_) => Ok(ProposalReceipt(b, input.accepted, input.proposed, input.context));
    }

    method EnsureBootstrap(accepted: Files) returns (r: Result<Commit, SidecarError>)
      requires Valid()
      modifies this`reflog, this`proposals, this`journal, this`faults, this`fuse
      ensures serial && faults == old(faults) ==>
                && Performed(BootstrapRun(old(Now()), accepted, recordedAt), old(fuse), fuse, Now(), if r.Ok?
                   then Ok(()) else Err(r.error))
      ensures serial ==>
                Cut(BootstrapRun(old(Now()), accepted, recordedAt), Now(), if r.Ok? then Ok(()) else Err(r.error))
      ensures r.Ok? ==> reflog != [] && r.value == Head(Now())
      ensures fuse <= old(fuse)
      ensures reliable ==> faults == old(faults)
      ensures Valid() && Evolves(old(Now()), Now()) && Grows(old(faults), faults)
    {
      hide Inv, SerialInv, Evolves;
      var current := GetDecisionRef();
      label read:
      if current.Err? {
        return Err(current.error);
      }
      if current.value.Some? {
        return Ok(current.value.value);
      }
      NothingBeforeTheFirstHead(Now());
      if proposals != map[] {
        assert false;
      }
      var base := BaseCommit(accepted, recordedAt);
      var initialized := InitializeRef(base);
      label written:
      EvolvesTrans(old(Now()), old@read(Now()), Now());
      if initialized.Refused? {
        return Err(initialized.error);
      }
      var live := GetDecisionRef();
      EvolvesTrans(old(Now()), old@written(Now()), Now());
      HeadsStayAcross(old@written(Now()), Now(), Head(old@written(Now())));
      return if live.Err? then Err(live.error) else Ok(live.value.value);
    }

    /** Every proposal ref must be decided in the ancestry or denied. */
    method RequireNoOpenProposal(base: Commit) returns (r: Result<(), SidecarError>)
      requires reflog != [] && base in reflog && (serial ==> base == Head(Now()))
      requires Valid()
      modifies this`reflog, this`proposals, this`journal, this`faults
      ensures serial ==> Now() == old(Now())
      ensures serial && r.Ok? ==> forall k :: k in proposals ==> !Open(Now(), k)
      ensures serial && faults == old(faults) && |reflog| <= MAX_DECISION_ANCESTRY ==>
                r == if exists k :: k in proposals && Open(Now(), k) then Err(ActiveReview) else Ok(())
      ensures reliable ==> faults == old(faults)
      ensures Valid() && Evolves(old(Now()), Now()) && Grows(old(faults), faults)
    {
      hide Inv, SerialInv, Evolves, Decided, Denied, ChainOfHeads, ReflogUpTo;
      EvolvesRefl(Now());
      ChainFromInv(Now());
      ghost var seen := ReflogUpTo(Now(), base);
      Interfere();
      var failed := RefsFault();
      if failed {
        return Err(Storage);
      }
      var refs := proposals;
      var remaining := refs.Keys;
      while remaining != {}
        invariant remaining <= refs.Keys
        invariant forall k :: k in refs ==> k in proposals && proposals[k] == refs[k]
        invariant ChainOfHeads(seen) && seen.reflog != [] && Head(seen) == base && |seen.reflog| <= |reflog|
        invariant serial ==> Now() == old(Now()) && refs == proposals && seen.reflog == reflog
        invariant serial ==> forall k :: k in refs && k !in remaining ==> !Open(Now(), k)
        invariant Valid() && Evolves(old(Now()), Now()) && Grows(old(faults), faults)
        invariant reliable ==> faults == old(faults)
        decreases remaining
      {
        var k :| k in remaining;
        remaining := remaining - {k};
        label before:
        ProposalIsSound(Now(), k);
        var decided := AncestryContains(seen, base, refs[k]);
        if decided.Err? {
          return Err(Integrity);
        }
        if !decided.value {
          var denied := ProposalHasTerminalDenial(k, refs[k]);
          EvolvesTrans(old(Now()), old@before(Now()), Now());
          ProposalsStayAcross(old@before(Now()), Now());
          if denied.Err? {
            return Err(denied.error);
          }
          if serial {
            SameReflogSameDecided(seen, Now(), refs[k]);
          }
          if !denied.value {
            return Err(ActiveReview);
          }
        } else if serial {
          SameReflogSameDecided(seen, Now(), refs[k]);
        }
      }
      return Ok(());
    }

    method BeginProposal(input: ProposalInput) returns (r: Result<ProposalReceipt, SidecarError>)
      requires Valid()
      modifies this`reflog, this`proposals, this`journal, this`faults, this`fuse
      ensures serial && faults == old(faults) && |old(reflog)| <= MAX_DECISION_ANCESTRY ==>
                Performed(BeginRun(old(Now()), input, recordedAt), old(fuse), fuse, Now(), r)
      ensures serial ==> Cut(BeginRun(old(Now()), input, recordedAt), Now(), r)
      ensures r.Ok? ==> r.value.review in journal && r.value.review.operation == input.operation
      ensures r.Ok? ==> IsReviewOf(r.value.review, input)
      ensures fuse <= old(fuse)
      ensures reliable ==> faults == old(faults)
      ensures Valid() && Evolves(old(Now()), Now()) && Grows(old(faults), faults)
    {
      hide Inv, SerialInv, Evolves, ProposeRun, Cut;
      EvolvesRefl(Now());
      if !ValidOperationKey(input.operation) {
        CutStart(BeginRun(Now(), input, recordedAt), Err(InvalidArgument));
        return Err(InvalidArgument);
      }
      var boot := EnsureBootstrap(input.accepted);
      label booted:
      ghost var run := BootstrapRun(old(Now()), input.accepted, recordedAt);
      if boot.Err? {
        if serial {
          CutFirst(run, ProposeRun(Last(run), input, recordedAt), Now(), Err(boot.error), boot.error);
        }
        if serial && faults == old(faults) {
          LostInFirst(run, ProposeRun(Last(run), input, recordedAt), old(fuse), fuse, Now(), Err(boot.error));
        }
        return Err(boot.error);
      }
      r := ProposeOn(input, boot.value);
      EvolvesTrans(old(Now()), old@booted(Now()), Now());
      if serial {
        CutWhole(run, old@booted(Now()), Ok(()));
        ProposeStarts(Last(run), input, recordedAt);
        CutThen(run, ProposeRun(Last(run), input, recordedAt), Last(run), Now(), r);
      }
      if serial && faults == old(faults) && |old(reflog)| <= MAX_DECISION_ANCESTRY {
        ProposeStarts(Last(run), input, recordedAt);
        PerformedThen(run, ProposeRun(Last(run), input, recordedAt), old(fuse), old@booted(fuse), fuse, Now(), r);
      }
    }

    method ProposeOn(input: ProposalInput, base: Commit) returns (r: Result<ProposalReceipt, SidecarError>)
      requires reflog != [] && base == Head(Now())
      requires Valid()
      modifies this`reflog, this`proposals, this`journal, this`faults, this`fuse
      ensures serial && faults == old(faults) && |old(reflog)| <= MAX_DECISION_ANCESTRY ==>
                Performed(ProposeRun(old(Now()), input, recordedAt), old(fuse), fuse, Now(), r)
      ensures serial ==> Cut(ProposeRun(old(Now()), input, recordedAt), Now(), r)
      ensures r.Ok? ==> r.value.review in journal && r.value.review.operation == input.operation
      ensures r.Ok? ==> IsReviewOf(r.value.review, input)
      ensures fuse <= old(fuse)
      ensures reliable ==> faults == old(faults)
      ensures Valid() && Evolves(old(Now()), Now()) && Grows(old(faults), faults)
    {
      hide Inv, SerialInv, Evolves, ReplayRun, OpenRun, Open;
      EvolvesRefl(Now());
      ProposeStarts(Now(), input, recordedAt);
      if base.site != input.accepted {
        return Err(StaleBase);
      }
      Interfere();
      label listed:
      HeadsStayAcross(old(Now()), Now(), base);
      var failed := RefsFault();
      if failed {
        CutStart(ProposeRun(old(Now()), input, recordedAt), Err(Storage));
        return Err(Storage);
      }
      if input.operation in proposals {
        r := ReplayExistingProposal(input);
        EvolvesTrans(old(Now()), old@listed(Now()), Now());
        return;
      }
      var clear := RequireNoOpenProposal(base);
      label checked:
      EvolvesTrans(old(Now()), old@listed(Now()), Now());
      HeadsStayAcross(old@listed(Now()), Now(), base);
      if clear.Err? {
        CutStart(ProposeRun(old(Now()), input, recordedAt), Err(clear.error));
        return Err(clear.error);
      }
      r := PublishOn(input, base);
      EvolvesTrans(old(Now()), old@checked(Now()), Now());
    }

    /** The proposal commit, its ref, its review. */
    method PublishOn(input: ProposalInput, base: Commit) returns (r: Result<ProposalReceipt, SidecarError>)
      requires base in reflog && base.site == input.accepted
      requires serial ==> base == Head(Now()) && input.operation !in proposals
      requires Guarded() ==> forall k :: k in proposals ==> !Open(Now(), k)
      requires Valid()
      modifies this`reflog, this`proposals, this`journal, this`faults, this`fuse
      ensures serial && faults == old(faults) ==>
                Performed(OpenRun(old(Now()), input, recordedAt), old(fuse), fuse, Now(), r)
      ensures serial ==> Cut(OpenRun(old(Now()), input, recordedAt), Now(), r)
      ensures r.Ok? ==> r.value.review in journal && r.value.review.operation == input.operation
      ensures r.Ok? ==> IsReviewOf(r.value.review, input)
      ensures fuse <= old(fuse)
      ensures reliable ==> faults == old(faults)
      ensures Valid() && Evolves(old(Now()), Now()) && Grows(old(faults), faults)
    {
      hide Inv, SerialInv, Evolves, ReplayRun, Open, Cut;
      var head := ProposalCommit(input.operation, base, input.proposed, input.context, recordedAt);
      var publication := PublishProposal(input.operation, head);
      label published:
      HeadsStayAcross(old(Now()), Now(), base);
      match publication {
        case Refused(error) =>
          if serial {
            OpenIsCut(old(Now()), input, recordedAt, Now(), Err(error));
          }
          return Err(error);
        case RefConflict =>
          r := ReplayExistingProposal(input);
        case Published =>
          var b := Binding(input.operation, head, base);
          var registered := CreateOrGetReview(b);
          r := match registered
            case Err(error) => Err(error)
            case Ok(_) => Ok(ProposalReceipt(b, input.accepted, input.proposed, input.context));
          if serial {
            OpenIsCut(old(Now()), input, recordedAt, Now(), r);
          }
      }
      EvolvesTrans(old(Now()), old@published(Now()), Now());
    }

    /** Re-reads the immutable facts of a proposal after any review state. */
    method InspectProposal(b: Binding) returns (r: Result<ProposalReceipt, SidecarError>)
      requires Valid()
      modifies this`reflog, this`proposals, this`journal, this`faults
      ensures serial ==> Now() == old(Now())
      ensures serial && faults == old(faults) ==> r == InspectAnswer(Now(), b)
      ensures r.Ok? ==>
                b in journal && r.value.review == b && r.value.base == b.expected.site
                  && r.value.proposed == b.proposalHead.site && ContextOf(b.proposalHead) == Some(r.value.context)
      ensures reliable ==> faults == old(faults)
      ensures Valid() && Evolves(old(Now()), Now()) && Grows(old(faults), faults)
    {
      hide Inv, SerialInv, Evolves, WalkAnswer;
      var review := GetReview(b);
      label got:
      if review.Err? {
        return Err(review.error);
      }
      var proposal := GetProposalRef(b.operation);
      label looked:
      EvolvesTrans(old(Now()), old@got(Now()), Now());
      ReviewStays(old@got(Now()), Now(), b);
      if proposal.Err? {
        return Err(proposal.error);
      }
      BindingStays(Now(), b);
      if proposal.value != Some(b.proposalHead) {
        assert false;
      }
      var decision := GetDecisionRef();
      EvolvesTrans(old(Now()), old@looked(Now()), Now());
      ReviewStays(old@looked(Now()), Now(), b);
      if decision.Err? {
        return Err(decision.error);
      }
      BindingStays(Now(), b);
      ProposalIsSound(Now(), b.operation);
      ChainFromInv(Now());
      var contained := ChainContains(Now(), decision.value.value, b.expected);
      return if contained != Ok(true) then Err(Integrity)
             else Ok(ProposalReceipt(b, b.expected.site, b.proposalHead.site, b.proposalHead.transitions[0].context));
    }
  }

  /** Where opening a proposal may end: before or after its ref, or with its review. */
  lemma OpenIsCut(s: State, input: ProposalInput, at: nat, t: State, answer: Result<ProposalReceipt, SidecarError>)
    requires s.reflog != []
    requires var head := ProposalCommit(input.operation, Head(s), input.proposed, input.context, at);
             var proposed := s.(proposals := s.proposals[input.operation := head]);
             var b := Binding(input.operation, head, Head(s));
             && (answer.Ok? ==>
                  b in t.journal && answer.value == ProposalReceipt(b, input.accepted, input.proposed, input.context))
             && (t == s ==> answer.Err?)
             && (t == s || t == proposed
                || (b !in s.journal && t == proposed.(journal := s.journal[b := Review(PendingReview, None)])))
    ensures Cut(OpenRun(s, input, at), t, answer)
  {
    var head := ProposalCommit(input.operation, Head(s), input.proposed, input.context, at);
    var proposed := s.(proposals := s.proposals[input.operation := head]);
    var b := Binding(input.operation, head, Head(s));
    var run := OpenRun(s, input, at);
    assert run.states[0] == s && run.states[1] == proposed;
    if b !in s.journal {
      assert run.states[2] == proposed.(journal := s.journal[b := Review(PendingReview, None)]);
    }
  }

  /** The chain of heads as it was when `c` was live. */
  ghost function ReflogUpTo(s: State, c: Commit): (t: State)
    requires ChainOfHeads(s) && c in s.reflog
    ensures ChainOfHeads(t) && t.reflog != [] && Head(t) == c && t.reflog <= s.reflog
    ensures c == Head(s) ==> t.reflog == s.reflog
  {
    var i :| 0 <= i < |s.reflog| && s.reflog[i] == c;
    if c == Head(s) then s else State(s.reflog[..i + 1], map[], map[])
  }

  lemma NothingBeforeTheFirstHead(s: State)
    requires Inv(s) && s.reflog == []
    ensures s.proposals == map[]
  {
    EmptyStoreIsEmpty(s);
  }

  lemma ProposalsStayAcross(s: State, t: State)
    requires Evolves(s, t)
    ensures forall k :: k in s.proposals ==> k in t.proposals && t.proposals[k] == s.proposals[k]
    ensures |s.reflog| <= |t.reflog|
  {
  }

  lemma SameReflogSameDecided(s: State, t: State, proposal: Commit)
    requires s.reflog == t.reflog
    ensures Decided(s, proposal) == Decided(t, proposal)
  {
  }

  lemma HeadsStayAcross(s: State, t: State, c: Commit)
    requires Evolves(s, t) && c in s.reflog
    ensures c in t.reflog && t.reflog != []
  {
    HeadsStay(s, t, c);
  }

  lemma ProposalStaysAcross(s: State, t: State, k: OperationKey)
    requires Evolves(s, t) && k in s.proposals
    ensures k in t.proposals && t.proposals[k] == s.proposals[k]
  {
  }

  lemma ProposalIsSound(s: State, k: OperationKey)
    requires Inv(s) && k in s.proposals
    ensures IsProposalCommit(k, s.proposals[k]) && s.proposals[k].parents[0] in s.reflog
  {
  }

  lemma BaseIsFound(s: State, c: Commit)
    requires c in s.reflog
    ensures |s.reflog| <= MAX_DECISION_ANCESTRY ==> WalkAnswer(s, c) == Ok(true)
    ensures WalkAnswer(s, c) != Ok(false)
  {
  }

  lemma LiveIsUnpublished(s: State, b: Binding)
    requires Inv(s) && b in s.journal && s.reflog != [] && Head(s) == b.expected
    ensures !CandidateIsPublished(s, b)
  {
    if CandidateIsPublished(s, b) {
      PublishedMeansMoved(s, b);
    }
  }

  lemma BindingStays(s: State, b: Binding)
    requires Inv(s) && b in s.journal
    ensures BindingIsLive(s, b) && s.reflog != []
  {
    SoundReview(s, b);
  }

  lemma IntentStays(s: State, b: Binding)
    requires Inv(s) && b in s.journal && s.journal[b].intent.Some?
    ensures IntentFits(b, s.journal[b].intent.value)
  {
    SoundReview(s, b);
  }

  lemma ChainFromInv(s: State)
    requires Inv(s)
    ensures ChainOfHeads(s)
  {
  }
}
