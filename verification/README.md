# Decision protocol of the local server: a verified model

SynapseGit LP Studio lets an AI propose changes to a static site and a human decide about them. This project models
the durable part of its local server and proves what it is for.

* **Decision protocol** (`Synapse`, `SerialRuns`, `SidecarSpec`, `SidecarFaults`, `SidecarFrames`, `Sidecar`,
  `SidecarTheorems`, `SidecarOutcomes`, `ResumeFaults`): the commit DAG behind one decision ref and many proposal
  refs, the review journal, and the calls that propose, decide, resume and reconcile. `Synapse` is the state machine
  of single durable writes by any number of callers; `Sidecar` is the program as a class, every call allowed to be
  interleaved, to fail or to lose power; `SidecarSpec` says what one undisturbed call does, write by write, and
  `SidecarFaults` what a call does that meets failures while it holds the Store lock; the ghost field `faults` records
  the failures it met. `SidecarOutcomes` says where these calls end, read off the refs and the journal alone.
* **The Studio's projection** (`StudioDisk`, `StudioInvariant`, `StudioSteps`, `StudioLaws`, `CrashRefinement`,
  `StudioCalls`, `StudioFaults`, `StudioLedger`, `StudioMemory`, `StudioShown`, `ProposalStack`, `Studio`, `Approvals`,
  `ApprovalRuns`): the disk records and memory of one project, the requests that change them, and recovery. The key
  notion is the write that a disk still owes: a decision is the registration of its intent followed by owed writes,
  reconciliation and recovery are owed writes only, so every interruption settles alike. Failures add moves of the
  review and the removal of what was denied.
* **ChangeSets** (`Paths`, `ChangeSet`, `ChangeSetApply`, `ChangeSetLaws`): validation and application of operations.
* **AI attempts** (`AttemptTable`, `AttemptRuns`, `AttemptLaws`, `AiAttempts`): leases with generations and tombstones.
* **Graph walks** (`GraphWalk`, `ObjectGraph`, `ChainWalk`): bounded worklist searches against reachability.
* **Scanners** (`CssDelimiters`, `MarkupSyntax`, `MarkupScanner`, `MarkupPrinter`, `Whitespace`, `DotSegments`,
  `LocalReference`).

## Assumptions

* Objects are content addressed, so an object is modelled by its content: equal ids are equal values, and parents are
  acyclic. A manifest digest is modelled by the files it digests. SHA-256, NFC, lower-casing, case folding, UTF-8
  validity and the manifest builder are parameters about which nothing is assumed; strings are the sequences of their
  UTF-8 bytes.
* Refs are compare-and-set and only the modelled code writes them, so a bound proposal ref never drifts. The journal
  holds one review per binding (the binding stands for its opaque review id) and one intent per review; its state cell
  is compare-and-set. The Core reports a ref conflict when the head has moved.
* Each storage call is atomic and idempotent on identical bytes; one that fails has made its write or has not.
  `recorded_at` increases from proposal to proposal, so the order of the entries is the order of recovery. Identifiers
  and approval tokens are random and do not repeat.
* `reliable` says that from now on nothing fails but the power. Under it recovery is exact on every coherent disk
  (`Whole`), and the requests are exact unless a proposal was put on top of an unfinished one before (`Exact`). Without
  it every call into the sidecar and the storage may fail while the process lives on; `Durable` then still promises that
  the records add up (`Ledger`), that every registered intent was approved, and, as long as neither of the first two
  shortfalls below has struck (`Intact`), that disk and approval table are some that a run of `ApprovalRuns` since the
  import reaches (`Studio.Studio.IntentsWereGranted`).

## Where the code falls short

* `resume` can deny a decision that is published: when its second observation cannot read the refs, it takes any error
  of the publication attempt but a storage error for a refusal. `ResumeFaults.ResumeKeepsHealthIff` gives the exact
  condition, `ResumeFaults.ResumeCanDenyAPublishedDecision` two runs. No other call can do so.
* `create_proposal` looks for an unfinished proposal in memory only. If publishing a proposal fails while the process
  lives, a further one may be put on top of it, and then recovery refuses the project, which keeps the server from
  starting (apps/local-server/src/lib.rs:253-254): `Studio.Studio.RecoverPrepared` proves that an undisturbed recovery
  of a new proposal succeeds if and only if the disk it was put on was idle. `ProposalStack.StackIsReachable` and
  `TwoProposalsStack` give inputs, `Studio.Studio.StackProposals` the requests and the restart. The ghost field
  `orderly` remembers that this happened, also if the upper proposal is denied and removed later; what recovery does
  depends on the disk alone.
* Removing a denied proposal can fail after its record has gone from the inventory. Memory then goes on showing the
  proposal: removing it again and creating another are refused until a restart. The clause on `gone` in
  `Studio.Studio.RemoveFailedProposal` says exactly when, `Studio.Studio.RestartAfterRemoval` what follows.
* `create_decision` accepts line breaks and tabs in a rationale that `decide` then refuses: the approval is consumed,
  nothing is written and the proposal is shown as outcome unknown until it is reconciled.
  `StudioMemory.OnlyLineBreaksDiffer` gives the exact rationales, `Studio.Studio.DecideInTwoLines` a request, and
  `Studio.Studio.ReconcileAfterTwoLines` the way back.
* `resolve_local_reference` drops empty segments, which section 5.2.4 of RFC 3986 keeps:
  `LocalReference.ResolutionAgreesIff` and `AnswerAgreesIff` give the exact condition,
  `LocalReference.EmptySegmentsDiffer` an input. A reference without a path, such as `?q`, is the page itself in the
  standard and its directory here.

## Model

| member | source | states |
|---|---|---|
| Synapse.RunsKeepInv | apps/local-server/src/synapse_sidecar.rs:485-593 | Over every run of the atomic writes, by any number of callers in any interleaving: heads are only appended, refs and intents never change, review states only rise, and a committed review has its candidate in the chain. |
| Synapse.PublishAtMostOnce | apps/local-server/src/synapse_sidecar.rs:424-506 | From the empty store, over every run: the decision heads are a single-parent chain without repetition, every head after the first is the candidate of the intent of exactly one review, and no review contributes two heads. |
| Synapse.HeadNeverReturns | apps/local-server/src/synapse_sidecar.rs:1300-1341 | No ABA: once the decision ref has left a commit, no later run brings it back there. |
| Synapse.HeadsAreDistinct | apps/local-server/src/synapse_sidecar.rs:2264-2287 | Parents are acyclic, so two positions of the chain never hold the same commit. |
| SerialRuns.SerialRunsKeepInv | apps/local-server/src/synapse_sidecar.rs:219-268 | Over every run under the Store lock: at most one open proposal, based on the live head, and denial excludes publication. |
| SerialRuns.SingleOpenProposal | apps/local-server/src/synapse_sidecar.rs:240-268 | From the empty store, over every run under the lock: at most one proposal is neither decided nor denied and its only parent is the live head; a denied review is never published; a committed one is; any other is live or published, never both. |
| SerialRuns.DecidedMeansPublished | apps/local-server/src/synapse_sidecar.rs:2229-2262 | A proposal that some commit of the ancestry decides was decided by the one review bound to it. |
| SerialRuns.PublicationClosesTheProposal | apps/local-server/src/synapse_sidecar.rs:1135-1220 | After a publication no proposal is open. |
| SerialRuns.UndeniedIsLiveOrPublished | apps/local-server/src/synapse_sidecar.rs:1241-1298 | An undenied review is live at the head or has its candidate in the chain, exactly one of the two. |
| Sidecar.SynapseSidecar.TransitionReviewState | apps/local-server/src/synapse_sidecar.rs:1391-1422 | What the journal promises of a state cell: compare-and-set; a failing call may have written or not; a conflict reports the actual state. |
| Sidecar.SynapseSidecar.PublishHumanDecision | apps/local-server/src/synapse_sidecar.rs:1191-1219 | What the Core promises: the decision ref moves only from the expected head to the candidate of the registered intent; an already published candidate is never published again, whatever other callers do; a reply lost after the move may come as any error. |
| Sidecar.SynapseSidecar.TransitionState | apps/local-server/src/synapse_sidecar.rs:1391-1422 | Moves the review or returns the state that rules the move out, in at most three compare-and-set attempts; under the lock exactly that one move or none, with an error possible on either side of the write. |
| Sidecar.SynapseSidecar.TransitionTerminal | apps/local-server/src/synapse_sidecar.rs:1369-1374 | Success means the review is denied. |
| Sidecar.SynapseSidecar.TransitionCommitted | apps/local-server/src/synapse_sidecar.rs:1362-1367 | Success means the review is committed, and only a published candidate gets here. |
| Sidecar.SynapseSidecar.TransitionRetryable | apps/local-server/src/synapse_sidecar.rs:1376-1389 | Under the lock a pending review is recorded and answered as retryable, or the journal failed or the power went; in any interleaving the answer is a state the journal vouches for, never pending; the decision ref does not move. |
| Sidecar.SynapseSidecar.MarkOutcomeUnknown | apps/local-server/src/synapse_sidecar.rs:1343-1360 | Reached only when a ref cannot be read: an intent-bearing, undecided review becomes unknown, nothing else is written and no commit is reported. |
| Sidecar.SynapseSidecar.ValidateCommittedCandidate | apps/local-server/src/synapse_sidecar.rs:1300-1341 | Although it calls the publishing runtime, it never moves the decision ref, in any interleaving; alone and without faults it succeeds exactly when the candidate is found in the chain. |
| Sidecar.SynapseSidecar.ReconcileParsedInner | apps/local-server/src/synapse_sidecar.rs:1241-1298 | In any interleaving: truthful answers and no publication. Under the lock: one of the two observation runs, with or without readable refs, cut short by a failure at any write; without faults exactly ReconcileRun. |
| Sidecar.SynapseSidecar.Reconcile | apps/local-server/src/synapse_sidecar.rs:508-511 | Reconciliation never moves the decision ref; its answer is what the journal and the chain say. |
| Sidecar.SynapseSidecar.RegisterDecisionIntent | apps/local-server/src/synapse_sidecar.rs:1076-1102 | One intent per review: exact repetition returns it, another key or another intent is refused, a new one is one write. |
| Sidecar.SynapseSidecar.ValidateLiveBinding | apps/local-server/src/synapse_sidecar.rs:1104-1133 | Succeeds only if the decision head is the one the review expects. |
| Sidecar.SynapseSidecar.CreateDecisionIntent | apps/local-server/src/synapse_sidecar.rs:1028-1102 | The registered intent carries the requested disposition on the live base. |
| Sidecar.SynapseSidecar.PublishRecoveredDecision | apps/local-server/src/synapse_sidecar.rs:1135-1220 | Moves the decision ref at most once, to the candidate of the stored intent; a moved head is refused. |
| Sidecar.SynapseSidecar.PublishAndReconcile | apps/local-server/src/synapse_sidecar.rs:485-506 | One publication attempt, whatever becomes of its reply, followed by an observation of what is durable. |
| Sidecar.SynapseSidecar.Decide | apps/local-server/src/synapse_sidecar.rs:424-506 | Alone and without faults: exactly DecideRun, at every point a power loss may cut it. Under the lock: the run of DecideUnder whose faults are those that were met; it ends early only if the journal failed, the power went, the base of a new intent could not be read, or the Core or the refs failed once the head had moved. In any interleaving: at most one publication by this caller and truthful answers. A refused key or rationale changes nothing. |
| Sidecar.SynapseSidecar.Resume | apps/local-server/src/synapse_sidecar.rs:519-593 | Alone and without faults: exactly ResumeRun. Under the lock: the run of ResumeUnder whose faults are those that were met, with the same excuses for an early end, and the ghost field sound says whether "denied excludes published" still holds. In any interleaving: at most one publication by this caller and truthful answers. |
| Sidecar.SynapseSidecar.FailedPublication | apps/local-server/src/synapse_sidecar.rs:493-505 | Under the lock: after a storage failure a pending review is recorded and answered as retryable, after any other refusal as denied; an error means that the journal failed or the power went. |
| Sidecar.SynapseSidecar.EnsureBootstrap | apps/local-server/src/synapse_sidecar.rs:681-781 | The first head is a parentless commit of the accepted files, initialised once; an existing head is returned. |
| Sidecar.SynapseSidecar.RequireNoOpenProposal | apps/local-server/src/synapse_sidecar.rs:240-268 | Passes exactly when no proposal ref is undecided and undenied. |
| Sidecar.SynapseSidecar.ProposalHasTerminalDenial | apps/local-server/src/synapse_sidecar.rs:958-1006 | Denial counts only under the exact binding rebuilt from the proposal commit. |
| Sidecar.SynapseSidecar.ReplayExistingProposal | apps/local-server/src/synapse_sidecar.rs:897-952 | The same key on a moved base is stale, with other bytes a conflict, otherwise the same review. |
| Sidecar.SynapseSidecar.BeginProposal | apps/local-server/src/synapse_sidecar.rs:219-422 | Under the lock, whatever fails: BeginRun (bootstrap, proposal ref, review), cut at any write; if nothing failed, up to the ancestry bound, exactly that run. In any interleaving the review returned binds exactly the given bytes. |
| Sidecar.SynapseSidecar.InspectProposal | apps/local-server/src/synapse_sidecar.rs:598-661 | Returns the bound base, proposed files and context after any review state, and writes nothing. |
| SidecarOutcomes.IntentSays | apps/local-server/src/synapse_sidecar.rs:1028-1102 | What an intent and its receipt hold: the key, one parent, the files the disposition selects, the feedback, the timestamp. |
| SidecarOutcomes.ObservationEnds | apps/local-server/src/synapse_sidecar.rs:1241-1298 | An observation that reads the refs, in plain terms: an unmoved head leaves the review; a moved one commits it if its candidate is in the chain and denies it if not. |
| SidecarOutcomes.BlindObservationEnds | apps/local-server/src/synapse_sidecar.rs:1343-1360 | An observation that cannot read the refs marks an undecided review with an intent as unknown and leaves every other alone. |
| SidecarOutcomes.DecisionEnds | apps/local-server/src/synapse_sidecar.rs:485-506 | For every combination of faults in a decision on the live head: whether it is published, and which state is recorded and answered (committed, retryable after a storage failure, denied after any other refusal, unknown where refs could not be read). |
| SidecarOutcomes.ResumptionEnds | apps/local-server/src/synapse_sidecar.rs:519-593 | The same for a resumption, from every undecided state, on the live head or with the candidate published. |
| SidecarOutcomes.DecideSays | apps/local-server/src/synapse_sidecar.rs:424-506 | Every undisturbed call of decide below 4096 heads: which arguments, reviews, stored intents and moved heads are refused without a write; what is published is committed, what is undecided on the live head is published and committed, what waits for a resumption goes on waiting, what another head has overtaken is denied. |
| SidecarOutcomes.ResumeSays | apps/local-server/src/synapse_sidecar.rs:519-593 | Every undisturbed call of resume below 4096 heads: a stored intent that is not denied is carried out; every other review is only observed. |
| SidecarOutcomes.RetryCommits | apps/local-server/src/synapse_sidecar.rs:493-499 | A decision whose publication failed in storage is recorded and answered as retryable and not published; the same decision again, undisturbed, commits the intent that was registered at first. |
| SidecarOutcomes.UnknownWaitsForResume | apps/local-server/src/synapse_sidecar.rs:485-490 | A decision that could not read the refs is left unknown; deciding again changes nothing, one undisturbed resume commits it. |
| SidecarOutcomes.FirstProposalEnds | apps/local-server/src/synapse_sidecar.rs:219-422 | The first proposal, field by field: a parentless head with the accepted files, its child with the proposed files and the context, one pending review. |
| SidecarOutcomes.NewProposalEnds | apps/local-server/src/synapse_sidecar.rs:219-422 | A new key, field by field: published on the live files beside no open proposal, first the ref and then a pending review; every refusal has its own reason and writes nothing. |
| SidecarOutcomes.TakenProposalEnds | apps/local-server/src/synapse_sidecar.rs:897-952 | A key that is taken: stale on another base, a conflict with other bytes, otherwise the same review, completed if missing. |
| SidecarOutcomes.InspectionSays | apps/local-server/src/synapse_sidecar.rs:598-661 | The facts read back are those the review binds; an unknown review is not found. |
| SidecarTheorems.DecideCommits | apps/local-server/src/synapse_sidecar.rs:424-506 | Deciding a live review registers exactly the requested disposition, publishes its candidate and commits; every intermediate state is sound. |
| SidecarTheorems.DecisionReplay | apps/local-server/src/synapse_sidecar.rs:438-492 | Repeating a committed decision repeats the receipt; another disposition or key is refused; nothing is written. |
| SidecarTheorems.ResumeConverges | apps/local-server/src/synapse_sidecar.rs:519-593 | From every sound state with an undenied durable intent one resume commits exactly that intent in at most two writes, and the next resume or reconcile repeats the receipt without writing. |
| SidecarTheorems.LaterRepliesAgree | apps/local-server/src/synapse_sidecar.rs:2356-2379 | After any later writes of any callers, resume and reconcile return the same receipt without writing exactly while the candidate is within 4096 commits of the head. |
| SidecarTheorems.PublishedIsCommitted | apps/local-server/src/synapse_sidecar.rs:1286-1298 | A published candidate is recorded as committed by one observation. |
| SidecarTheorems.ProposalReplay | apps/local-server/src/synapse_sidecar.rs:219-422 | begin_proposal again with the same key and bytes, after any writes that leave the decision head in place, returns the same receipt and writes nothing. |
| ResumeFaults.ResumeKeepsHealthIff | apps/local-server/src/synapse_sidecar.rs:519-593 | Whatever fails in its observations and its publication attempt, after every write of a serialised resume "denied excludes published" holds, except for its last write if and only if the second observation cannot read the refs while the candidate is published (before an equally blind first observation, or by this very attempt whose reply is lost) and the attempt failed with anything but a storage error. |
| ResumeFaults.OnlyUnseenIsDenied | apps/local-server/src/synapse_sidecar.rs:519-593 | Whenever a serialised resume ends without "denied excludes published", it ran to the denial of a decision published unseen. |
| ResumeFaults.DecideKeepsHealth | apps/local-server/src/synapse_sidecar.rs:424-506 | decide keeps "denied excludes published" after every one of its writes, whatever fails. |
| ResumeFaults.ResumeCanDenyAPublishedDecision | apps/local-server/src/synapse_sidecar.rs:563-592 | Two concrete reachable states from which such a resume ends with the review denied and its decision live: the head had moved already, or the attempt moves it and loses its reply. |
| ResumeFaults.NoFaultIsResume | apps/local-server/src/synapse_sidecar.rs:519-593 | Without faults the faulty resume is the ordinary one, state by state. |
| SidecarFrames.ResumptionAlters | apps/local-server/src/synapse_sidecar.rs:519-593 | Whatever fails, a serialised resume alters nothing but the state of its own review and, at most, appends the candidate of its intent to the live head. |
| SidecarFrames.DecisionAlters | apps/local-server/src/synapse_sidecar.rs:424-506 | Whatever fails, a serialised decide registers at most its own intent on the live head and then alters nothing but its own review and that one head. |
| SidecarFrames.DecisionIsNeverPending | apps/local-server/src/synapse_sidecar.rs:485-505 | A serialised decide never answers that the review is still pending. |
| GraphWalk.DecisionChainContainsCommit | apps/local-server/src/synapse_sidecar.rs:2264-2287 | True or false exactly as parent reachability; otherwise it fails only past its bound or on an unreadable object; terminates on any graph. |
| GraphWalk.DecisionAncestryContains | apps/local-server/src/synapse_sidecar.rs:2229-2262 | True exactly when some reachable commit decides the proposal; otherwise it fails only past its bound or on an unreadable object. |
| ObjectGraph.SnapshotObjectSet | apps/local-server/src/synapse_sidecar.rs:2061-2097 | For any snapshot oid: a returned set is exactly the reachable objects of a tree root; failure means the root is no tree, a reachable tree is damaged, or there are more objects than the bound. |
| ObjectGraph.FlattenSite | apps/local-server/src/synapse_sidecar.rs:2119-2177 | The worklist flatten returns exactly the leaves of the recursive one, each as often as it occurs, and succeeds exactly when the tree is sound, within the limits, and accepted by the manifest builder. |
| ChainWalk.ChainContains | apps/local-server/src/synapse_sidecar.rs:2264-2287 | On the decision chain: found exactly for heads within the bound, absent exactly for commits outside, failing past the bound. |
| ChainWalk.AncestryContains | apps/local-server/src/synapse_sidecar.rs:2229-2262 | On the decision chain: exactly whether the proposal is decided, failing only past the bound. |
| StudioSteps.NextWriteKeeps | apps/local-server/src/lib.rs:1144-1382 | Every write that a disk still owes keeps the durable state coherent: repository, journal, entries, lineage, Accepted pointer and retained revisions agree. |
| StudioLaws.RunsStayCoherent | apps/local-server/src/lib.rs:3978-4263 | From an import, over every sequence of single writes (new proposals, registered decisions, owed writes, reviews turned retryable, unknown or denied, removals of denied proposals; so any failures, power losses and restarts), the durable state stays coherent. |
| StudioLaws.AcceptedIsAFold | apps/local-server/src/lib.rs:4606-4617 | In every state such a run reaches Accepted is the left fold of the adopted ChangeSets over the imported files, or of all but the last while that write is owed; nothing adopted carried a blocking check. |
| StudioLaws.DeniedContributesNothing | apps/local-server/src/lib.rs:5187-5250 | A denied proposal contributes nothing to Accepted, before and after its removal. |
| StudioLaws.RegisteredMayBeDenied | apps/local-server/src/synapse_sidecar.rs:493-505 | From the registration of its intent on a decision may end denied. |
| StudioLaws.DeniedMayBeRemoved | apps/local-server/src/lib.rs:5187-5250 | A denied proposal can be removed and leaves the project idle. |
| StudioLaws.MoveKeeps | apps/local-server/src/synapse_sidecar.rs:1343-1422 | A review that turns retryable, unknown or denied before its intent is published keeps the state coherent. |
| StudioLaws.RemoveKeeps | apps/local-server/src/lib.rs:5187-5250 | Removing a denied proposal keeps the state coherent although its ref and review stay. |
| StudioLaws.PrepareKeepsIff | apps/local-server/src/lib.rs:4006-4008 | A fresh proposal on the Accepted files keeps the durable state coherent if and only if it does not go on top of an unfinished one; what recovery makes of either is RecoverPrepared. |
| StudioLaws.RegisterKeeps | apps/local-server/src/synapse_sidecar.rs:1028-1102 | Registering a permitted decision keeps the state coherent. |
| StudioDisk.SettledFromInside | apps/local-server/src/lib.rs:1144-1382 | Going on from any point on the way ends in the same disk. |
| StudioDisk.SettledIsFinal | apps/local-server/src/lib.rs:1013-1383 | A settled disk owes nothing, so a second recovery writes nothing. |
| CrashRefinement.CrashRefinement | apps/local-server/src/lib.rs:4514-4662 | After a power loss at any write of a decision, and any number of further losses during recovery, the undisturbed recovery ends in the state before the decision or in that of the uninterrupted decision; the latter exactly when the intent had been registered; a second recovery writes nothing. |
| CrashRefinement.RestartsSettleAlike | apps/local-server/src/lib.rs:1144-1382 | Any number of interrupted recoveries leave a coherent state with the same final outcome. |
| CrashRefinement.DecisionOutcome | apps/local-server/src/lib.rs:4582-4662 | What an uninterrupted decision writes: the review committed with the candidate on top, decision and completion recorded, and Accepted moved exactly by an adoption. |
| StudioShown.DecisionSays | apps/local-server/src/lib.rs:4582-4662 | The same field by field: the new head and its files, the review, the decision and completion records, Accepted, the retained revisions, and that nothing else changed. |
| StudioShown.ProjectionSays | apps/local-server/src/lib.rs:1192-1382 | What a restart shows of a coherent disk, field by field: Accepted, one history record for each completed proposal with its receipt and resulting revision, and the open proposal with the state of its review in the journal. |
| StudioCalls.BeginFollows | apps/local-server/src/lib.rs:1155-1182 | begin_proposal on an unbound entry performs exactly the owed writes and answers with the binding the metadata implies. |
| StudioCalls.ResumeFollows | apps/local-server/src/lib.rs:1192-1281 | Resuming any bound proposal, whatever state failures left its review in: nothing while it waits for a decision or for its removal, otherwise exactly the owed writes up to the commitment. |
| StudioFaults.BeginReaches | apps/local-server/src/lib.rs:1155-1182 | A failed begin_proposal leaves the disk on a run of single writes. |
| StudioFaults.ResumeReaches | apps/local-server/src/synapse_sidecar.rs:519-593 | Unless it denied a published decision, a failed resume leaves the disk on a run of single writes; earlier proposals are out of its reach. |
| StudioFaults.DecideReaches | apps/local-server/src/synapse_sidecar.rs:424-506 | A failed decide leaves the disk on a run of single writes. |
| StudioLedger.LedgerIsAFold | apps/local-server/src/lib.rs:3978-4662 | From the records alone, which every request keeps whatever fails: Accepted is the fold of the adopted ChangeSets, or of all but the last one whose completion is then missing, and nothing adopted carried a blocking check. |
| StudioCalls.DecideFollows | apps/local-server/src/lib.rs:4514-4541 | A permitted decision registers its intent and then performs exactly the owed writes; the receipt names the requested disposition and the files it selects. |
| StudioCalls.InspectAgrees | apps/local-server/src/lib.rs:1184-1191 | The repository confirms the immutable facts of every bound proposal. |
| StudioCalls.SiteOfHead | apps/local-server/src/lib.rs:1144-1156 | The head a proposal is based on carries the files of the lineage at that point. |
| Studio.Studio.IntentsWereGranted | apps/local-server/src/lib.rs:3978-4662 | At any moment of the class, whatever failed before: every registered intent has a grant of its own with the same eight fields, nothing adopted carried a blocking check, Accepted is the fold or one adoption behind; and while nothing was spoilt, a run of acts of ApprovalRuns leads from the import to this very disk and approval table. |
| Studio.Studio.constructor | apps/local-server/src/lib.rs:3225-3249 | A freshly imported project: empty history, Accepted is the import. |
| Studio.Studio.CreateProposal | apps/local-server/src/lib.rs:3978-4178 | Success: the disk is exactly the settled new proposal, memory is what a restart shows, the proposal is pending and not failed, and any valid request that names it may be approved unless it is blocked. Refusals name the first reason. Failure: nothing was written for one of the listed reasons, or storage stopped on the way. If calls fail while the process lives, at most one undecided entry is added, memory shows what it showed, and orderly is lost exactly when an earlier entry is then without its completion. |
| Studio.Studio.RecoverPrepared | apps/local-server/src/lib.rs:1013-1383 | Whatever the coherent disk before it, after a new proposal and any number of the writes it owes, undisturbed recovery succeeds if and only if the proposal was not put on top of an unfinished one; it refuses the project otherwise. |
| Studio.Studio.StackProposals | apps/local-server/src/lib.rs:4092-4142 | Two requests in one process: where both leave a proposal on disk, the first has failed and the next restart refuses the project. |
| ProposalStack.StackIsReachable | apps/local-server/src/lib.rs:4092-4142 | Any two proposals for the imported files can be stacked: a begin_proposal that fails before its first write leaves a sound disk on which the second is again a fresh proposal. |
| ProposalStack.TwoProposalsStack | apps/local-server/src/lib.rs:4092-4142 | Two concrete proposals that the rules permit, stacked: records that add up and that recovery refuses. |
| Studio.Studio.BindProposal | apps/local-server/src/lib.rs:1155-1182 | Publishes and binds an unbound entry by exactly the owed writes on a coherent disk; whatever fails, it registers no intent, takes no proposal ref but its own, and binds only a review of exactly the recorded files and context. |
| Studio.Studio.CreateApproval | apps/local-server/src/lib.rs:4270-4368 | Granted exactly for the pending proposal on the current revision with free capacity, never to adopt a blocked one; the eight fields of the grant are those of the request and the proposal, and it expires after 300 seconds; a refusal names the first failing check. |
| Studio.Studio.CreateDecision | apps/local-server/src/lib.rs:4370-4683 | decide is called exactly when a matching unexpired approval is consumed; what is then written is the registration and owed writes; success adds one history record, of this proposal with the requested disposition, and means the disk of the uninterrupted decision and the memory a restart shows; any failure after the consumption leaves the same proposal shown with the outcome it names, which is that of the journal and never pending; a rationale that only the sidecar refuses writes nothing and leaves it unknown. |
| Studio.Studio.ValidateDecision | apps/local-server/src/lib.rs:4380-4464 | Passes exactly for a matching unexpired approval, equal in all eight fields, on the pending proposal of the current revision; each refusal is due to the check it names. |
| Studio.Studio.TakeApproval | apps/local-server/src/lib.rs:4484-4507 | Consumes the approval unless it expired meanwhile; what passes is the decision the grant was issued for, and an adoption only of an unblocked proposal. |
| Studio.Studio.AskForDecision | apps/local-server/src/lib.rs:4514-4570 | Whatever fails, the records and the approvals behind all registered intents stay sound; the answer is a commitment on record or the state of the review in the journal, other than pending. |
| Studio.Studio.DecideInTwoLines | apps/local-server/src/lib.rs:5821-5832 | An approval that was just granted is spent on nothing by a rationale of two lines, and the proposal is left shown as unknown. |
| Studio.Studio.ReconcileAfterTwoLines | apps/local-server/src/lib.rs:4238-4263 | One undisturbed reconciliation then writes nothing, shows the proposal as it was, and it may be approved again. |
| StudioMemory.OnlyLineBreaksDiffer | apps/local-server/src/synapse_sidecar.rs:1559-1568 | Among the rationales the request check accepts, the sidecar refuses exactly those with line breaks or tabs. |
| Studio.Studio.DecideApproved | apps/local-server/src/lib.rs:4514-4581 | The consumed request either commits what was asked for or leaves the same proposal shown as unknown, retryable or denied, as its error says. |
| Studio.Studio.RecordMetadata | apps/local-server/src/lib.rs:4586-4605 | First the decision metadata, idempotent on identical bytes. |
| Studio.Studio.RecordAccepted | apps/local-server/src/lib.rs:4606-4617 | For an adoption, then the Accepted revision. |
| Studio.Studio.RecordCompletion | apps/local-server/src/lib.rs:4618-4662 | Last the completion; only then does the proposal become history. |
| Studio.Studio.FinalizeReconciledDecision | apps/local-server/src/lib.rs:7181-7290 | Carries a committed receipt through by exactly the owed writes, from whichever point a failed request left, and only if it fits Accepted and the files; the history gets its record once; a failure leaves the shown outcome as it was. |
| Studio.Studio.ReconcileReview | apps/local-server/src/lib.rs:4204-4268 | Performs owed writes only; undisturbed it succeeds for the active review and leaves none owed and the memory a restart shows. A proposal that is still there afterwards is shown with the state of its review in the journal, and as failed exactly if that is denied. Not found means not known. |
| Studio.Studio.ResumeActive | apps/local-server/src/lib.rs:4238-4263 | Whatever fails, the records stay sound; a commitment is on record, any other answer is the state in the journal. |
| Studio.Studio.RemoveFailedProposal | apps/local-server/src/lib.rs:5187-5250 | Refused as a mismatch exactly if the request does not name the denied proposal with its confirmation; otherwise it fails only with storage, or while gone. Success removes exactly the record of the latest proposal and its approvals. A failure changes nothing in memory and either nothing on disk or, exactly when gone becomes true, the removal itself. |
| Studio.Studio.DeleteFinal | apps/local-server/src/storage.rs:868-919 | The record is out of the inventory or not; a failing call may have moved it out. |
| Studio.Studio.RestartAfterRemoval | apps/local-server/src/storage.rs:910-918 | After a removal that failed when its record had gone, removing again and proposing are refused; a restart that succeeds shows the removed proposal no longer. |
| Studio.Studio.PersistDecision | apps/local-server/src/storage.rs:807-826 | Immutable once written, idempotent on identical bytes, one write otherwise; a failing call may have written. |
| Studio.Studio.PersistBinding | apps/local-server/src/storage.rs:849-866 | Immutable once written, idempotent on identical bytes, one write otherwise; a failing call may have written. |
| Studio.Studio.PersistCompletion | apps/local-server/src/storage.rs:828-847 | Immutable once written, idempotent on identical bytes, one write otherwise; a failing call may have written. |
| Studio.Studio.CommitRevision | apps/local-server/src/storage.rs:596-608 | Retains the revision and moves the Accepted pointer in one step; a failing call may have done so. |
| Studio.Studio.Recover | apps/local-server/src/lib.rs:1013-1383 | Succeeds only if every proposal but the latest had its completion; every entry is then bound to a review of its files and context, every decision is about that review, selects the right files and results in a retained revision; and a proposal still open is the latest on disk, shown with the state in the journal. On any coherent disk, however it came about and whatever state its latest review is in, it makes exactly the owed writes, stops only with storage, and ends with nothing owed and the memory a restart shows. |
| Studio.Studio.RecoverEntry | apps/local-server/src/lib.rs:1144-1281 | One proposal in the loop: earlier ones cause no write, the latest gets exactly its owed ones. |
| Studio.Studio.RecoverEntries | apps/local-server/src/lib.rs:1144-1331 | The lineage, the history and the waiting proposal rebuilt from the disk are those the records imply; success means that every proposal but the latest has a decision on record, that bindings and decisions are about the recorded files, and that no intent was registered on the way. |
| Studio.Studio.RecoverWaiting | apps/local-server/src/lib.rs:1240-1280 | Only the latest proposal may wait, pending or denied, and its ChangeSet must still produce its files. |
| Studio.Studio.RecoverAccepted | apps/local-server/src/lib.rs:1333-1358 | Accepted is one adoption behind or current; the missing adoption is committed. |
| Studio.Studio.RecoverCompletions | apps/local-server/src/lib.rs:1359-1381 | Every decision binds a retained revision with the reviewed files; missing completions are written. |
| StudioMemory.RecordAgrees | apps/local-server/src/lib.rs:1426-1464 | Decision metadata on a coherent disk agrees with the journal receipt and selects the right files. |
| StudioMemory.RecoveredLineage | apps/local-server/src/lib.rs:1333-1352 | When Accepted differs from the lineage of the records, it is the base of the last adoption, whose completion is then missing. |
| StudioMemory.ResultIsRetained | apps/local-server/src/storage.rs:699-717 | Every recorded decision results in a retained revision with the reviewed files. |
| Approvals.UseKeepsSound | apps/local-server/src/lib.rs:7292-7301 | Consuming an unexpired grant keeps every use matched to an earlier grant with the same eight fields, and no grant serves two uses. |
| Approvals.IssueKeepsSound | apps/local-server/src/lib.rs:4351-4357 | Issuing a fresh token keeps the matching. |
| ApprovalRuns.EveryIntentWasApproved | apps/local-server/src/lib.rs:4324-4519 | Over every run of issuing, expiry, restarts, consumption, registration and all other writes since the import: each registered intent has an earlier unexpired grant with the same eight fields, no grant serves two intents or two calls of decide, and therefore nothing adopted carried a blocking check. |
| ApprovalRuns.WorldRunsAreOk | apps/local-server/src/lib.rs:4280-4519 | Every such run keeps the approval table, the registered intents and the disk in step, and the disk on a run of single writes whose registrations are all permitted. |
| Approvals.ApprovalTable.Validate | apps/local-server/src/lib.rs:7303-7324 | Accepts exactly an unexpired grant with the same binding; an expired one is removed and reported as such whatever its binding, a mismatched one stays. |
| Approvals.ApprovalTable.Consume | apps/local-server/src/lib.rs:7292-7301 | Removes the grant exactly when it is accepted. |
| Approvals.ApprovalTable.SweepExpired | apps/local-server/src/lib.rs:5815-5819 | Keeps exactly the unexpired grants. |
| ChangeSet.FaultlessIff | apps/local-server/src/change_set.rs:349-413 | What each kind of operation must satisfy on its own: valid paths, the media type of the extension, no placeholder, at most 2 MiB, a hash, a real rename that keeps the extension. |
| ChangeSet.FaultSays | apps/local-server/src/change_set.rs:349-413 | Each error of a single operation names a check that it fails. |
| ChangeSet.ValidateOperations | apps/local-server/src/change_set.rs:349-413 | Accepts exactly lists whose operations are each valid and whose generated bytes stay within 8 MiB; otherwise names the first failing check of the first failing operation. |
| ChangeSet.ContainsRenameCycle | apps/local-server/src/change_set.rs:444-456 | True exactly when the folded rename map has a directed cycle. |
| ChangeSet.AssignOwners | apps/local-server/src/change_set.rs:429-441 | Passes exactly when no folded path is claimed by two operations. |
| ChangeSet.ValidateOperationGraph | apps/local-server/src/change_set.rs:415-442 | Passes exactly when every folded path has one owner and no rename folds onto itself; reports a cycle exactly when there is one. |
| ChangeSet.CycleIsSelfRename | apps/local-server/src/change_set.rs:415-465 | With single owners the only possible cycle is a rename onto its own folded path, and no path is both a target and another rename's source. |
| ChangeSetApply.ValidateAcceptedPaths | apps/local-server/src/change_set.rs:338-347 | Accepts exactly valid paths without a case-folded collision. |
| ChangeSetApply.ValidatePreconditions | apps/local-server/src/change_set.rs:467-504 | Accepts exactly when every operation fits the Accepted files. |
| ChangeSetApply.ApplyToClone | apps/local-server/src/change_set.rs:519-586 | Returns exactly the files and audit records of applying the operations in order, or the precondition error. |
| ChangeSetApply.ValidateFinalCaseCollisions | apps/local-server/src/change_set.rs:588-595 | Accepts exactly files without a case-folded collision. |
| ChangeSetLaws.ValidatedCannotFail | apps/local-server/src/change_set.rs:467-595 | Once paths, graph and preconditions pass, application succeeds, has the order-free effect, never trips the final collision check, and its audit records speak of the Accepted files. |
| ChangeSetLaws.OrderDoesNotMatter | apps/local-server/src/change_set.rs:349-586 | Permuting the operations changes neither acceptance nor the resulting files. |
| ChangeSetLaws.UndoRestores | apps/local-server/src/change_set.rs:519-586 | The reversed list of inverse operations passes the graph and precondition checks on the result and restores Accepted. |
| ChangeSetLaws.GrowthIsBounded | apps/local-server/src/change_set.rs:349-413 | Total bytes grow by at most 8 MiB. |
| ChangeSetLaws.ChangesSay | apps/local-server/src/change_set.rs:519-586 | The audit record of each operation in its place: the kind, the path it left, and the hashes of what was there in the Accepted files and of what is there in the result. |
| ChangeSetLaws.ParseAndApply | apps/local-server/src/change_set.rs:254-312 | Succeeds exactly when some files are permitted, and returns those with their audit records; an empty list, too long a list, a cycle, a failed precondition and a refused site are told apart; the application and collision errors are unreachable. |
| AttemptTable.StepKeepsTable | apps/local-server/src/ai_attempt.rs:104-299 | After every operation tombstones are distinct, at most 512 and disjoint from queued and active attempts; active generations are issued, distinct and not cancelled. |
| AttemptRuns.EndsAtMostOnce | apps/local-server/src/ai_attempt.rs:104-299 | Over every run each generation is recorded, cancelled, released or removed at most once. |
| AttemptRuns.GenerationsIncrease | apps/local-server/src/ai_attempt.rs:114-145 | Claims issue consecutive, strictly increasing generations. |
| AttemptRuns.EndedIsFenced | apps/local-server/src/ai_attempt.rs:172-255 | Once a generation has ended, no later complete or release under it has any effect, even after eviction and reuse of the attempt id. |
| AttemptRuns.TombstonesAreFinal | apps/local-server/src/ai_attempt.rs:280-299 | A tombstone keeps its status as long as it exists. |
| AttemptLaws.CompletionIsShown | apps/local-server/src/ai_attempt.rs:172-200 | A recorded attempt is shown with exactly the status it was completed with and can be neither cancelled nor claimed again, over any later run until its project is removed or 512 further calls were made. |
| AttemptLaws.RecordedIffHeld | apps/local-server/src/ai_attempt.rs:172-200 | complete answers Recorded exactly for the attempt and generation that the project holds. |
| AttemptLaws.OthersAreNotCompleted | apps/local-server/src/ai_attempt.rs:172-200 | Any other completion changes nothing, and is answered as cancelled exactly when the project is idle and the attempt was cancelled. |
| AttemptLaws.CancellationIsShown | apps/local-server/src/ai_attempt.rs:147-170 | A running or waiting attempt is cancelled, shown so from then on over any later run until removal or eviction; a running one is signalled and fenced off. |
| AttemptLaws.OthersAreNotCancelled | apps/local-server/src/ai_attempt.rs:147-170 | Any other attempt cannot be cancelled, and nothing happens. |
| AttemptLaws.ClaimIsShown | apps/local-server/src/ai_attempt.rs:114-145 | Starts exactly an unfinished attempt of an idle project under the next generation; each refusal has its own reason and changes nothing. |
| AttemptLaws.ReleaseIsShown | apps/local-server/src/ai_attempt.rs:205-225 | The held attempt waits again, without a tombstone, and can be claimed again; under another generation nothing happens. |
| AttemptLaws.QueueIsShown | apps/local-server/src/ai_attempt.rs:105-112 | Makes exactly an unfinished attempt wait. |
| AttemptLaws.TombstoneLasts | apps/local-server/src/ai_attempt.rs:280-299 | A tombstone lasts until its project is removed or as many further calls as places before it were made. |
| AttemptLaws.OthersAreLeft | apps/local-server/src/ai_attempt.rs:104-299 | A call about one attempt leaves what is shown of all others, but for the oldest tombstone of a full list. |
| AttemptLaws.ProjectIsForgotten | apps/local-server/src/ai_attempt.rs:261-270 | Removing a project forgets all its attempts and no others; removing its queue, those that only wait. |
| AiAttempts.Attempts.Queue | apps/local-server/src/ai_attempt.rs:105-112 | Queues an unfinished attempt; the table moves exactly as specified. |
| AiAttempts.Attempts.Claim | apps/local-server/src/ai_attempt.rs:114-145 | Issues the next generation exactly for an unfinished attempt of an idle project below the 64-bit limit. |
| AiAttempts.Attempts.Cancel | apps/local-server/src/ai_attempt.rs:147-170 | Signals and buries the exact attempt, or reports that it was cancelled or cannot be. |
| AiAttempts.Attempts.Complete | apps/local-server/src/ai_attempt.rs:172-200 | Records only under the exact active generation; a cancelled one stays cancelled. |
| AiAttempts.Attempts.Release | apps/local-server/src/ai_attempt.rs:205-225 | Releases exactly the named generation, requeues it and leaves no tombstone. |
| AiAttempts.Attempts.Status | apps/local-server/src/ai_attempt.rs:227-242 | Active, then tombstone, then queued; an active attempt is never shown as cancelled. |
| AiAttempts.Attempts.RemoveProject | apps/local-server/src/ai_attempt.rs:261-266 | Forgets everything of one project and nothing else. |
| AiAttempts.Attempts.RemoveQueuedProject | apps/local-server/src/ai_attempt.rs:268-270 | Forgets only the queued attempts of one project. |
| AiAttempts.Attempts.FindStatus | apps/local-server/src/ai_attempt.rs:272-278 | The status of the latest tombstone. |
| AiAttempts.Attempts.RecordTerminal | apps/local-server/src/ai_attempt.rs:280-299 | Updates the tombstone or adds one, evicting the oldest beyond 512. |
| CssDelimiters.CssDelimitersAreClosed | apps/local-server/src/static_syntax.rs:364-413 | True exactly when the brackets outside comments, strings and escapes are well nested and the text ends outside all three. |
| CssDelimiters.StackDecidesNesting | apps/local-server/src/static_syntax.rs:391-412 | The stack machine accepts exactly the well-nested words over three kinds of brackets. |
| CssDelimiters.ClosedIffGrammatical | apps/local-server/src/static_syntax.rs:364-413 | The accepted texts are exactly those made of complete comments, strings, escapes and signs with well-nested brackets. |
| CssDelimiters.WrappingKeepsClosed | apps/local-server/src/static_syntax.rs:364-413 | Wrapping accepted text in a matching pair keeps it accepted. |
| MarkupScanner.MarkupTagEnd | apps/local-server/src/static_export.rs:923-935 | The first unquoted closing angle bracket. |
| MarkupScanner.ParseAttributes | apps/local-server/src/static_export.rs:967-1023 | Reads exactly the attributes the syntax functions define, or reports malformed markup. |
| MarkupPrinter.StartTagIsParsed | apps/local-server/src/static_export.rs:937-965 | The inside of a printed start tag, with any white space and perhaps a slash at its end, is read as its lower-cased name with exactly its attributes. |
| MarkupPrinter.EndTagIsParsed | apps/local-server/src/static_export.rs:937-965 | The inside of an end tag is read as the closing tag of its lower-cased name; white space before the name and anything after it are ignored. |
| MarkupScanner.ScanRawTextElement | apps/local-server/src/static_export.rs:878-921 | The text before the element's own end tag, skipping look-alikes. |
| MarkupScanner.ScanMarkupTags | apps/local-server/src/static_export.rs:797-867 | The loop returns exactly what the suffix functions define, and its cursor always advances. |
| MarkupPrinter.ScannerUndoesPrinter | apps/local-server/src/static_export.rs:797-1023 | Printing prose, comments, CDATA sections, instructions, declarations, odd brackets, end tags, start tags and raw text elements, then scanning, gives back exactly the printed tags and attributes, the text of styles and the mark of scripts with a comment opener. |
| MarkupPrinter.BrokenIsRefused | apps/local-server/src/static_export.rs:797-1023 | After any printed items, markup that breaks off (comment, section, instruction, tag, quote, raw text) or has an attribute with a forbidden character in its name or bare value is refused as a whole. |
| MarkupPrinter.PlaintextSwallows | apps/local-server/src/static_export.rs:840-844 | In HTML everything after a plaintext tag is text. |
| MarkupPrinter.StrayIsPassed | apps/local-server/src/static_export.rs:828-837 | A bracket that nothing closes is text where no tag can begin. |
| MarkupPrinter.RawTextElements | apps/local-server/src/static_export.rs:869-876 | The elements whose content is text, in HTML and elsewhere. |
| MarkupPrinter.AttributesAreParsed | apps/local-server/src/static_export.rs:967-1023 | Printed attributes are read back exactly: quoted values that may hold angle brackets, bare values, no value, white space on both sides of the equals sign; and then whatever follows them. |
| MarkupPrinter.RawTextIsRead | apps/local-server/src/static_export.rs:878-921 | Raw text is read up to the own end tag of its element, which may end in white space and a slash; longer names that begin like it are passed over. |
| LocalReference.PercentDecode | apps/local-server/src/change_set.rs:1457-1479 | Decodes exactly, refusing a stray percent sign or invalid UTF-8. |
| LocalReference.DecodedIffWellFormed | apps/local-server/src/change_set.rs:1457-1479 | Decoding fails exactly at a percent sign that two hexadecimal digits do not follow. |
| LocalReference.SuffixIsCut | apps/local-server/src/change_set.rs:1426-1427 | The query and the fragment are cut off, and nothing else. |
| LocalReference.DecodingUndoesEncoding | apps/local-server/src/change_set.rs:1457-1488 | Decoding undoes percent encoding (section 2.1 of RFC 3986) for all octets. |
| LocalReference.ResolveLocalReference | apps/local-server/src/change_set.rs:1406-1455 | Resolves as specified; every result is a valid path or index.html. |
| DotSegments.WalkRefusesClimbing | apps/local-server/src/change_set.rs:1437-1447 | Resolution is refused exactly when some prefix of the segments climbs above the root. |
| DotSegments.RemovesBySegment | apps/local-server/src/change_set.rs:1437-1447 | On an absolute path the loop of section 5.2.4 of RFC 3986, step by step on its two buffers, works segment by segment, keeping empty segments. |
| DotSegments.WalkAgreesIff | apps/local-server/src/change_set.rs:1437-1447 | A walk that succeeds gives the segments of the standard if and only if no segment is empty and the last is no dot segment, and those with a trailing slash if and only if none but the last is empty. |
| LocalReference.ResolutionAgreesIff | apps/local-server/src/change_set.rs:1428-1448 | The same for a decoded path on a page, against sections 5.2.2 to 5.2.4 of RFC 3986: refused exactly when it climbs, else equal exactly under that condition. |
| LocalReference.AnswerAgreesIff | apps/local-server/src/change_set.rs:1428-1455 | The same for the answer after normalisation and the final checks: a path other than the root is refused exactly when it is invalid and else equals that of the standard exactly under that condition; the root is answered as index.html. |
| LocalReference.EmptySegmentsDiffer | apps/local-server/src/change_set.rs:1437-1447 | The path a//../b leads to /b here and to /a/b in the standard. |
| LocalReference.RootedEncodedPathResolvesToItself | apps/local-server/src/change_set.rs:1406-1455 | A rooted, fully encoded valid path resolves to itself from every source. |
| Paths.SplitJoin | apps/local-server/src/change_set.rs:1582-1585 | Splitting undoes joining with the separator. |

## Left out

- Sidecar.SynapseSidecar.BeginProposal: the exact run is stated up to 4096 decision heads, beyond which the ancestry check gives up; the Studio keeps at most 128 proposals, so it never gets there.
- Sidecar.SynapseSidecar.PublishHumanDecision: permits, controls, grants and actor checks of the Core are one possible refusal; the record formats are not modelled.
- Studio.Studio.CreateProposal: begins where the Store lock is taken the second time; the provider call, the target and its re-resolution check are a parameter that says whether a check blocks.
- Studio.Studio.Recover: canonical JSON, identifiers and digests of the metadata are checked on values; cleanup of staging directories is not modelled.
- Studio.Studio.CommitRevision: the transaction marker and the staging directories behind its atomicity are not modelled.
- Studio.Studio.RemoveFailedProposal: the other retention targets (conversation contexts, exports, publications, backups) are not modelled.
- ChangeSetLaws.ParseAndApply: JSON, the envelope, entry point, syntax, reference and deny-list checks of the result are one parameter; warnings and checks shown beside a proposal are not modelled.
- AiAttempts.Attempts.Cancel: a watch channel is a boolean per generation; waiting on it is not modelled.
- MarkupScanner.ScanMarkupTags: extraction of references from tags and sanitised URLs are not modelled.
- LocalReference.ResolveLocalReference: whether the resolved file exists is not part of it; the second resolver in static_export.rs differs on query-only references and schemes and is not modelled.
- Unified diffs, publications, exports, previews, HTTP, sessions and provider adapters are not modelled.
