/** Approvals over whole runs: from the import on, every intent that is registered has an approval of its
    own, and therefore nothing that some check blocks is ever adopted. */
module ApprovalRuns {
  import opened Base
  import opened ChangeSetLaws
  import opened Synapse
  import opened SidecarFrames
  import opened SidecarTheorems
  import opened StudioDisk
  import opened StudioInvariant
  import opened StudioSteps
  import opened StudioLaws
  import opened StudioFaults
  import opened StudioMemory
  import opened Approvals

  /** The disk, the table in memory, the approval consumed by the request under way, and what was ever
      issued and used. */
  datatype World = World(project: string, disk: Disk, grants: map<Token, Grant>, permission: Option<Use>,
                         issued: seq<Issuance>, used: seq<Use>)

  datatype Act =
    | Issue(token: Token, binding: ApprovalBinding, expiresAt: int)
    | Sweep(now: int)
    | Expire(token: Token, now: int)  // an expired approval is dropped when it is presented
    | Revoke(proposal: OperationKey)  // with the removal of a denied proposal
    | Restart
    | Consume(token: Token, now: int)
    | Register  // the call of decide registers the intent it was approved for
    | GiveUp    // or it ends without doing so
    | Write(write: StudioWrite)

  function Begin(project: string, rules: Rules, first: Site): World
  {
    World(project, Imported(rules, first), map[], None, [], [])
  }

  /** The approval is for the latest proposal as it is on disk. */
  predicate IsForFinal(w: World, binding: ApprovalBinding)
  {
    && w.disk.entries != [] && binding.project == w.project
    && Final(w.disk).binding == Some(binding.review) && Final(w.disk).meta.id == binding.proposal
  }

  ghost predicate MayAct(w: World, act: Act)
  {
    match act
    case Issue(token, binding, _) =>
      && (forall i :: 0 <= i < |w.issued| ==> w.issued[i].token != token)
      && w.disk.entries != [] && Final(w.disk).meta.id == binding.proposal && binding.project == w.project
      && binding.digest == Final(w.disk).meta.files && binding.expected == Final(w.disk).meta.base.revision
      && (binding.disposition == AdoptedUnchanged ==> !Final(w.disk).meta.blocked)
    case Sweep(_) => true
    case Expire(token, now) => token in w.grants && w.grants[token].expiresAt < now
    case Revoke(_) => true
    case Restart => true
    case Consume(token, now) =>
      && w.permission == None && token in w.grants && now <= w.grants[token].expiresAt
      && IsForFinal(w, w.grants[token].binding)
    case Register => w.permission.Some? && Awaiting(w.disk)
    case GiveUp => true
    case Write(write) => w.permission == None && !write.RegisterDecision? && StudioMay(w.disk, write)
  }

  ghost function Acted(w: World, act: Act): World
    requires MayAct(w, act)
  {
    match act
    case Issue(token, binding, expiresAt) =>
      w.(grants := w.grants[token := Grant(binding, expiresAt)],
         issued := w.issued + [Issuance(token, Grant(binding, expiresAt))])
    case Sweep(now) => w.(grants := Unexpired(w.grants, now))
    case Expire(token, _) => w.(grants := w.grants - {token})
    case Revoke(proposal) => w.(grants := Revoked(w.grants, w.project, proposal))
    case Restart => w.(grants := map[], permission := None)
    case Consume(token, now) =>
      var u := Use(token, w.grants[token].binding, now, |w.issued|);
      w.(grants := w.grants - {token}, permission := Some(u), used := w.used + [u])
    case Register =>
      var binding := w.permission.value.binding;
      w.(disk := Registered(w.disk, binding.disposition, binding.intent), permission := None)
    case GiveUp => w.(permission := None)
    case Write(write) => w.(disk := StudioDoes(w.disk, write))
  }

  ghost predicate IsWorldRun(w: World, run: seq<Act>, v: World)
    decreases |run|
  {
    if run == [] then w == v
    else MayAct(w, run[0]) && IsWorldRun(Acted(w, run[0]), run[1..], v)
  }

  // ---- What every run keeps ----

  /** No proposal that an approval to adopt names is blocked. */
  ghost predicate Unblocked(d: Disk, binding: ApprovalBinding)
  {
    binding.disposition == AdoptedUnchanged ==>
      forall i :: 0 <= i < |d.entries| && d.entries[i].meta.id == binding.proposal ==> !d.entries[i].meta.blocked
  }

  /** The identifier is taken, so no later proposal gets it. */
  ghost predicate Taken(d: Disk, id: OperationKey) { Known(d, id) || id in d.sidecar.proposals }

  ghost predicate GrantOk(d: Disk, binding: ApprovalBinding)
  {
    Taken(d, binding.proposal) && Unblocked(d, binding)
  }

  ghost predicate PermissionOk(w: World)
  {
    w.permission.Some? ==>
      && w.used != [] && w.permission.value == w.used[|w.used| - 1]
      && IsForFinal(w, w.permission.value.binding) && Unblocked(w.disk, w.permission.value.binding)
  }

  ghost predicate WorldOk(w: World)
  {
    && Reachable(w.disk) && Coherent(w.disk)
    && Sound(w.grants, w.issued, w.used)
    && IntentsAreApproved(w.disk.sidecar.journal, w.used)
    && (forall t :: t in w.grants ==> GrantOk(w.disk, w.grants[t].binding))
    && PermissionOk(w)
  }

  lemma BeginIsOk(project: string, rules: Rules, first: Site)
    ensures WorldOk(Begin(project, rules, first))
  {
    ImportedIsReachable(rules, first);
    hide Reachable, Coherent;
  }

  /** A write that adds no names leaves every grant as good as it was. */
  lemma GrantStays(d: Disk, t: Disk, binding: ApprovalBinding)
    requires GrantOk(d, binding)
    requires forall id :: Taken(d, id) ==> Taken(t, id)
    requires forall i :: 0 <= i < |t.entries| ==>
               (exists j :: 0 <= j < |d.entries| && d.entries[j].meta == t.entries[i].meta)
                 || !Taken(d, t.entries[i].meta.id)
    ensures GrantOk(t, binding)
  {
  }

  /** The names a write takes: it only adds one that was free, and gives none back. */
  lemma WriteTakes(d: Disk, write: StudioWrite)
    requires Coherent(d) && StudioMay(d, write)
    ensures forall id :: Taken(d, id) ==> Taken(StudioDoes(d, write), id)
    ensures var t := StudioDoes(d, write);
            forall i :: 0 <= i < |t.entries| ==>
              (exists j :: 0 <= j < |d.entries| && d.entries[j].meta == t.entries[i].meta)
                || !Taken(d, t.entries[i].meta.id)
  {
    hide Coherent, NextWrite;
    var t := StudioDoes(d, write);
    match write {
      case PrepareProposal(m) =>
        SameMetasTake(d, d.entries, t);
        FreshIsFree(d, m);
      case OwedWrite =>
        NextWriteKeeps(d);
        NextKeepsShape(d);
        LastMeta(d, t);
        SameMetasTake(d, t.entries, t);
      case RemoveDenied =>
        DeniedIsUndecided(d);
        RemovalTakes(d);
      case RegisterDecision(disposition, key) => SameMetasTake(d, d.entries, t);
      case MoveFinal(to) => SameMetasTake(d, d.entries, t);
    }
  }

  lemma LastMeta(d: Disk, t: Disk)
    requires |t.entries| == |d.entries| > 0 && t.entries[|d.entries| - 1].meta == d.entries[|d.entries| - 1].meta
    requires t.entries[..|d.entries| - 1] == d.entries[..|d.entries| - 1]
    ensures forall i :: 0 <= i < |d.entries| ==> t.entries[i].meta == d.entries[i].meta
  {
    forall i | 0 <= i < |d.entries| - 1
      ensures t.entries[i].meta == d.entries[i].meta
    {
      assert t.entries[..|d.entries| - 1][i] == d.entries[..|d.entries| - 1][i];
    }
  }

  lemma SameMetasTake(d: Disk, front: seq<Entry>, t: Disk)
    requires |front| == |d.entries| <= |t.entries| && t.entries[..|front|] == front
    requires forall i :: 0 <= i < |front| ==> front[i].meta == d.entries[i].meta
    requires forall k :: k in d.sidecar.proposals ==> k in t.sidecar.proposals
    ensures forall id :: Taken(d, id) ==> Taken(t, id)
  {
    forall id | Known(d, id)
      ensures Known(t, id)
    {
      var i :| 0 <= i < |d.entries| && d.entries[i].meta.id == id;
      assert t.entries[i] == t.entries[..|front|][i] == front[i];
    }
  }

  lemma FreshIsFree(d: Disk, m: Meta)
    requires Fresh(d, m)
    ensures !Taken(d, m.id)
  {
  }

  lemma RemovalTakes(d: Disk)
    requires d.entries != [] && Final(d).meta.id in d.sidecar.proposals
    ensures forall id :: Taken(d, id) ==> Taken(Removed(d), id)
  {
    forall id | Known(d, id)
      ensures Taken(Removed(d), id)
    {
      var i :| 0 <= i < |d.entries| && d.entries[i].meta.id == id;
      assert i < |d.entries| - 1 ==> Removed(d).entries[i].meta.id == id;
    }
  }

  lemma WriteKeepsWorld(w: World, write: StudioWrite)
    requires WorldOk(w) && MayAct(w, Write(write))
    ensures WorldOk(Acted(w, Write(write)))
  {
    hide Coherent, Reachable, Sound, IntentsAreApproved, StudioMay, StudioDoes, GrantOk;
    var t := StudioDoes(w.disk, write);
    StudioWriteKeepsRules(w.disk, write);
    StillReachable(w.disk, write);
    WriteTakes(w.disk, write);
    WriteRegistersNothing(w.disk, write);
    ApprovalsStay(w.disk.sidecar, t.sidecar, w.used);
    forall token | token in w.grants
      ensures GrantOk(t, w.grants[token].binding)
    {
      GrantStays(w.disk, t, w.grants[token].binding);
    }
  }

  lemma RevokedIsLess(grants: map<Token, Grant>, project: string, id: OperationKey)
    ensures forall t :: t in Revoked(grants, project, id) ==>
              t in grants && Revoked(grants, project, id)[t] == grants[t]
  {
  }

  lemma StudioWriteKeepsRules(d: Disk, write: StudioWrite)
    requires Coherent(d) && StudioMay(d, write)
    ensures StudioDoes(d, write).rules == d.rules && StudioDoes(d, write).first == d.first
  {
    hide Coherent;
    StudioWriteKeeps(d, write);
    if write.OwedWrite? {
      NextKeepsShape(d);
    }
    hide NextWrite;
  }

  /** Only the registration of a decision adds an intent. */
  lemma WriteRegistersNothing(d: Disk, write: StudioWrite)
    requires StudioMay(d, write) && !write.RegisterDecision?
    ensures SameIntents(d.sidecar, StudioDoes(d, write).sidecar)
  {
  }

  lemma RegisterKeepsWorld(w: World)
    requires WorldOk(w) && MayAct(w, Register)
    ensures WorldOk(Acted(w, Register))
  {
    hide Coherent, Reachable, Sound, IntentsAreApproved;
    var u := w.permission.value;
    var write := RegisterDecision(u.binding.disposition, u.binding.intent);
    assert MayRegister(w.disk, u.binding.disposition);
    var t := StudioDoes(w.disk, write);
    StudioWriteKeepsRules(w.disk, write);
    StillReachable(w.disk, write);
    var i := MakeIntent(u.binding.review, u.binding.intent, u.binding.disposition, Final(w.disk).meta.recordedAt);
    assert UseFor(w.used[|w.used| - 1], u.binding.review, i);
    assert IntentsBut(w.disk.sidecar, t.sidecar, u.binding.review, i);
    ApprovalCovers(w.disk.sidecar, t.sidecar, w.used, u.binding.review, i);
    hide GrantOk, Registered, MayRegister, Awaiting;
    SameEntries(w.disk, write);
    WriteTakes(w.disk, write);
    forall token | token in w.grants
      ensures GrantOk(t, w.grants[token].binding)
    {
      GrantStays(w.disk, t, w.grants[token].binding);
    }
  }

  lemma SameEntries(d: Disk, write: StudioWrite)
    requires write.RegisterDecision? && StudioMay(d, write)
    ensures StudioDoes(d, write).entries == d.entries
  {
  }

  lemma FinalIsTaken(w: World, binding: ApprovalBinding)
    requires Coherent(w.disk) && w.disk.entries != [] && Final(w.disk).meta.id == binding.proposal
    requires binding.disposition == AdoptedUnchanged ==> !Final(w.disk).meta.blocked
    ensures GrantOk(w.disk, binding)
  {
    hide Healthy, RefsOk, LineageOk, AcceptedOk, EntryOk;
    assert w.disk.entries[|w.disk.entries| - 1].meta.id == binding.proposal;
  }

  lemma ActKeepsWorld(w: World, act: Act)
    requires WorldOk(w) && MayAct(w, act)
    ensures WorldOk(Acted(w, act))
  {
    hide Coherent, Reachable, Sound, IntentsAreApproved, StudioMay, StudioDoes, GrantOk, Unblocked;
    match act {
      case Issue(token, binding, expiresAt) =>
        IssueKeepsSound(w.grants, w.issued, w.used, token, Grant(binding, expiresAt));
        FinalIsTaken(w, binding);
      case Sweep(now) => ForgetKeepsSound(w.grants, w.issued, w.used, Unexpired(w.grants, now));
      case Expire(token, now) => ForgetKeepsSound(w.grants, w.issued, w.used, w.grants - {token});
      case Revoke(proposal) =>
        RevokedIsLess(w.grants, w.project, proposal);
        ForgetKeepsSound(w.grants, w.issued, w.used, Revoked(w.grants, w.project, proposal));
      case Restart => ForgetKeepsSound(w.grants, w.issued, w.used, map[]);
      case Consume(token, now) =>
        UseKeepsSound(w.grants, w.issued, w.used, token, now);
        MoreUses(w.disk.sidecar.journal, w.used, Use(token, w.grants[token].binding, now, |w.issued|));
        GrantIsGood(w.disk, w.grants[token].binding);
      case Register => RegisterKeepsWorld(w);
      case GiveUp =>
      case Write(write) => WriteKeepsWorld(w, write);
    }
  }

  lemma GrantIsGood(d: Disk, binding: ApprovalBinding)
    requires GrantOk(d, binding)
    ensures Unblocked(d, binding)
  {
  }

  lemma {:induction false} WorldRunsAreOk(w: World, run: seq<Act>, v: World)
    requires WorldOk(w) && IsWorldRun(w, run, v)
    ensures WorldOk(v)
    decreases |run|
  {
    hide WorldOk, MayAct, Acted;
    if run != [] {
      ActKeepsWorld(w, run[0]);
      WorldRunsAreOk(Acted(w, run[0]), run[1..], v);
    }
  }

  predicate IsRegistered(w: World, b: Binding)
  {
    b in w.disk.sidecar.journal && w.disk.sidecar.journal[b].intent.Some?
  }

  /** The grant behind the intent of review `b`: issued before its use, unexpired then, and equal to the
      request in all eight fields, among them the review, the disposition and the key of the intent. */
  ghost predicate IsGrantedBy(w: World, b: Binding, i: nat)
    requires IsRegistered(w, b)
  {
    exists k :: 0 <= k < |w.used| && UseFor(w.used[k], b, w.disk.sidecar.journal[b].intent.value)
      && GrantPermits(w.issued, i, w.used[k])
  }

  /** Over every run from the import: each registered intent has an earlier, unexpired grant with the same
      eight fields; no grant serves two intents, nor two calls of decide; and nothing adopted was blocked. */
  lemma EveryIntentWasApproved(project: string, rules: Rules, first: Site, run: seq<Act>, w: World)
    requires IsWorldRun(Begin(project, rules, first), run, w)
    ensures forall b :: IsRegistered(w, b) ==> exists i :: IsGrantedBy(w, b, i)
    ensures forall b, c, i ::
              IsRegistered(w, b) && IsRegistered(w, c) && IsGrantedBy(w, b, i) && IsGrantedBy(w, c, i) ==> b == c
    ensures forall i, j, k :: 0 <= j < |w.used| && 0 <= k < |w.used| && GrantPermits(w.issued, i, w.used[j]) ==>
              (GrantPermits(w.issued, i, w.used[k]) ==> j == k)
    ensures forall e :: e in w.disk.entries && Adopts(e) ==> !e.meta.blocked
    ensures Reachable(w.disk)
  {
    hide Reachable, Coherent, IsWorldRun;
    BeginIsOk(project, rules, first);
    WorldRunsAreOk(Begin(project, rules, first), run, w);
    GrantsAreOwn(w);
    forall e | e in w.disk.entries && Adopts(e)
      ensures !e.meta.blocked
    {
      var i :| 0 <= i < |w.disk.entries| && w.disk.entries[i] == e;
      AdoptedIsUnblocked(w.disk, i);
    }
  }

  /** From one state alone: every intent has a grant, and no two have the same. */
  lemma GrantsAreOwn(w: World)
    requires Sound(w.grants, w.issued, w.used) && IntentsAreApproved(w.disk.sidecar.journal, w.used)
    ensures forall b :: IsRegistered(w, b) ==> exists i :: IsGrantedBy(w, b, i)
    ensures forall b, c, i ::
              IsRegistered(w, b) && IsRegistered(w, c) && IsGrantedBy(w, b, i) && IsGrantedBy(w, c, i) ==> b == c
  {
    forall b | IsRegistered(w, b)
      ensures exists i :: IsGrantedBy(w, b, i)
    {
      IntentIsGranted(w, b);
    }
  }

  lemma IntentIsGranted(w: World, b: Binding)
    requires Sound(w.grants, w.issued, w.used) && IntentsAreApproved(w.disk.sidecar.journal, w.used)
    requires IsRegistered(w, b)
    ensures exists i :: IsGrantedBy(w, b, i)
  {
    assert IsApproved(w.used, b, w.disk.sidecar.journal[b].intent.value);
    var k :| 0 <= k < |w.used| && UseFor(w.used[k], b, w.disk.sidecar.journal[b].intent.value);
    assert IsPermitted(w.issued, w.used[k]);
    var i :| GrantPermits(w.issued, i, w.used[k]);
    assert IsGrantedBy(w, b, i);
  }

  // ---- For a program that performs the acts ----

  /** Some run of acts since the import leads here. */
  ghost predicate WorldReachable(w: World)
  {
    exists run :: IsWorldRun(Begin(w.project, w.disk.rules, w.disk.first), run, w)
  }

  lemma {:induction false} ActAtEnd(w: World, run: seq<Act>, v: World, act: Act)
    requires IsWorldRun(w, run, v) && MayAct(v, act)
    ensures IsWorldRun(w, run + [act], Acted(v, act))
    decreases |run|
  {
    hide MayAct, Acted;
    if run == [] {
      assert run + [act] == [act] && [act][1..] == [];
      assert IsWorldRun(Acted(w, act), [], Acted(w, act));
    } else {
      ActAtEnd(Acted(w, run[0]), run[1..], v, act);
      assert (run + [act])[0] == run[0] && (run + [act])[1..] == run[1..] + [act];
    }
  }

  lemma BeginIsReachable(project: string, rules: Rules, first: Site)
    ensures WorldReachable(Begin(project, rules, first))
  {
    assert IsWorldRun(Begin(project, rules, first), [], Begin(project, rules, first));
  }

  lemma ReachableIsOk(w: World)
    requires WorldReachable(w)
    ensures WorldOk(w) && Coherent(w.disk)
  {
    hide WorldOk, IsWorldRun;
    var run :| IsWorldRun(Begin(w.project, w.disk.rules, w.disk.first), run, w);
    BeginIsOk(w.project, w.disk.rules, w.disk.first);
    WorldRunsAreOk(Begin(w.project, w.disk.rules, w.disk.first), run, w);
    OkIsCoherent(w);
  }

  lemma OkIsCoherent(w: World)
    requires WorldOk(w)
    ensures Coherent(w.disk)
  {
    hide Coherent;
  }

  lemma ActIsReachable(w: World, act: Act)
    requires WorldReachable(w) && MayAct(w, act)
    ensures WorldReachable(Acted(w, act)) && Coherent(Acted(w, act).disk)
  {
    hide WorldOk, IsWorldRun, MayAct, Acted, Coherent;
    ReachableIsOk(w);
    ActKeepsWorld(w, act);
    OkIsCoherent(Acted(w, act));
    ActKeepsProject(w, act);
    var run :| IsWorldRun(Begin(w.project, w.disk.rules, w.disk.first), run, w);
    ActAtEnd(Begin(w.project, w.disk.rules, w.disk.first), run, w, act);
  }

  lemma ActKeepsProject(w: World, act: Act)
    requires WorldOk(w) && MayAct(w, act)
    ensures var v := Acted(w, act);
            v.project == w.project && v.disk.rules == w.disk.rules && v.disk.first == w.disk.first
  {
    hide Coherent, Reachable, Sound, IntentsAreApproved, StudioMay, StudioDoes;
    match act {
      case Write(write) => StudioWriteKeepsRules(w.disk, write);
      case _ =>
    }
  }

  /** Writes that register nothing, between requests. */
  lemma ReachesInWorld(w: World, t: Disk)
    requires WorldReachable(w) && w.permission == None && Reaches(w.disk, t)
    ensures WorldReachable(w.(disk := t)) && Coherent(t)
  {
    hide WorldReachable, IsStudioRun, Coherent;
    var run :| IsStudioRun(w.disk, run, t) && RegistersNothing(run);
    ReachableIsOk(w);
    WritesInWorld(w, run, t);
  }

  lemma {:induction false} WritesInWorld(w: World, run: seq<StudioWrite>, t: Disk)
    requires WorldReachable(w) && Coherent(w.disk) && w.permission == None
    requires IsStudioRun(w.disk, run, t) && RegistersNothing(run)
    ensures WorldReachable(w.(disk := t)) && Coherent(t)
    decreases |run|
  {
    hide WorldReachable, Coherent, StudioMay, StudioDoes;
    if run == [] {
      assert w.(disk := t) == w;
    } else {
      assert run[0] in run;
      ActIsReachable(w, Write(run[0]));
      WritesInWorld(w.(disk := StudioDoes(w.disk, run[0])), run[1..], t);
    }
  }

  lemma OwedInWorld(w: World, t: Disk)
    requires WorldReachable(w) && w.permission == None && NextWrite(w.disk) == Some(t)
    ensures WorldReachable(w.(disk := t)) && Coherent(t)
  {
    hide WorldReachable, Coherent, Reaches, NextWrite;
    OwedReaches(w.disk);
    ReachesInWorld(w, t);
  }

  /** A decision under a consumed approval: registered, or not, and then carried on as far as it went. */
  lemma DecidesInWorld(w: World, t: Disk)
    requires WorldReachable(w) && w.permission.Some?
    requires var binding := w.permission.value.binding;
             || Reaches(w.disk, t)
             || (Awaiting(w.disk) && Reaches(Registered(w.disk, binding.disposition, binding.intent), t))
    ensures WorldReachable(w.(disk := t, permission := None)) && Coherent(t)
  {
    hide WorldReachable, Coherent, Reaches;
    if Reaches(w.disk, t) {
      ActIsReachable(w, GiveUp);
      ReachesInWorld(w.(permission := None), t);
    } else {
      ActIsReachable(w, Register);
      ReachesInWorld(Acted(w, Register), t);
    }
  }
}
