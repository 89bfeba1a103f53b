/** Short-lived approvals (create_approval, validate_approval, consume_approval in lib.rs). A token is
    random, so no token is ever issued twice; its hash stands for the token itself. */
module Approvals {
  import opened Base
  import opened Synapse
  import opened SidecarSpec
  import opened SidecarFrames
  import opened StudioDisk

  type Token = string

  const APPROVAL_TTL_SECONDS := 300
  const MAX_PENDING_APPROVALS := 32

  datatype ApprovalBinding = ApprovalBinding(session: string, project: string, review: Binding, proposal: OperationKey,
                                             digest: Files, expected: Revision, disposition: Disposition, intent: Bytes)

  datatype Grant = Grant(binding: ApprovalBinding, expiresAt: int)

  datatype ApprovalError = Invalid | InvalidOrConsumed | Expired | BindingMismatch | AtCapacity

  datatype Issuance = Issuance(token: Token, grant: Grant)

  /** A call of decide: by which token, for what, when, and after how many grants. */
  datatype Use = Use(token: Token, binding: ApprovalBinding, at: int, after: nat)

  /** The grant that permitted a use: earlier, equal in all eight fields, not expired. */
  predicate GrantPermits(issued: seq<Issuance>, i: nat, u: Use)
  {
    && i < u.after <= |issued| && issued[i].token == u.token
    && issued[i].grant.binding == u.binding && u.at <= issued[i].grant.expiresAt
  }

  ghost predicate IsPermitted(issued: seq<Issuance>, u: Use)
  {
    exists i :: GrantPermits(issued, i, u)
  }

  ghost predicate IsIssued(issued: seq<Issuance>, token: Token, grant: Grant)
  {
    exists i :: 0 <= i < |issued| && issued[i] == Issuance(token, grant)
  }

  ghost predicate Sound(grants: map<Token, Grant>, issued: seq<Issuance>, used: seq<Use>)
  {
    && (forall i, j :: 0 <= i < j < |issued| ==> issued[i].token != issued[j].token)
    && (forall t :: t in grants ==> IsIssued(issued, t, grants[t]))
    && (forall t, k :: t in grants && 0 <= k < |used| ==> used[k].token != t)
    && (forall j, k :: 0 <= j < k < |used| ==> used[j].token != used[k].token)
    && (forall k :: 0 <= k < |used| ==> IsPermitted(issued, used[k]))
  }

  /** The call of decide that an intent stems from. */
  predicate UseFor(u: Use, b: Binding, i: Intent)
  {
    u.binding.review == b && u.binding.intent == i.key && u.binding.disposition == DispositionOf(i)
  }

  ghost predicate IsApproved(used: seq<Use>, b: Binding, i: Intent)
  {
    exists k :: 0 <= k < |used| && UseFor(used[k], b, i)
  }

  /** Every registered intent has an approval that was consumed for it. A use names its review, and a review
      has one intent, so no two intents share one. */
  ghost predicate IntentsAreApproved(journal: map<Binding, Review>, used: seq<Use>)
  {
    forall b :: b in journal && journal[b].intent.Some? ==> IsApproved(used, b, journal[b].intent.value)
  }

  lemma ApprovalsStay(s: State, t: State, used: seq<Use>)
    requires IntentsAreApproved(s.journal, used) && SameIntents(s, t)
    ensures IntentsAreApproved(t.journal, used)
  {
    hide IsApproved;
  }

  lemma ApprovalCovers(s: State, t: State, used: seq<Use>, b: Binding, i: Intent)
    requires IntentsAreApproved(s.journal, used) && IntentsBut(s, t, b, i) && IsApproved(used, b, i)
    ensures IntentsAreApproved(t.journal, used)
  {
    hide IsApproved;
  }

  lemma MoreUses(journal: map<Binding, Review>, used: seq<Use>, u: Use)
    requires IntentsAreApproved(journal, used)
    ensures IntentsAreApproved(journal, used + [u])
  {
    forall b | b in journal && journal[b].intent.Some?
      ensures IsApproved(used + [u], b, journal[b].intent.value)
    {
      var k :| 0 <= k < |used| && UseFor(used[k], b, journal[b].intent.value);
      assert (used + [u])[k] == used[k];
    }
  }

  lemma IssueKeepsSound(grants: map<Token, Grant>, issued: seq<Issuance>, used: seq<Use>, token: Token, grant: Grant)
    requires Sound(grants, issued, used) && forall i :: 0 <= i < |issued| ==> issued[i].token != token
    ensures Sound(grants[token := grant], issued + [Issuance(token, grant)], used)
  {
    var more := issued + [Issuance(token, grant)];
    assert more[|issued|] == Issuance(token, grant);
    var now := grants[token := grant];
    forall t | t in now
      ensures IsIssued(more, t, now[t])
    {
      if t != token {
        var i :| 0 <= i < |issued| && issued[i] == Issuance(t, grants[t]);
        assert more[i] == issued[i];
      }
    }
    forall k | 0 <= k < |used|
      ensures IsPermitted(more, used[k]) && used[k].token != token
    {
      var i :| GrantPermits(issued, i, used[k]);
      assert GrantPermits(more, i, used[k]);
    }
  }

  lemma UseKeepsSound(grants: map<Token, Grant>, issued: seq<Issuance>, used: seq<Use>, token: Token, at: int)
    requires Sound(grants, issued, used) && token in grants && at <= grants[token].expiresAt
    ensures Sound(grants - {token}, issued, used + [Use(token, grants[token].binding, at, |issued|)])
  {
    var u := Use(token, grants[token].binding, at, |issued|);
    var i :| 0 <= i < |issued| && issued[i] == Issuance(token, grants[token]);
    assert GrantPermits(issued, i, u);
  }

  lemma ForgetKeepsSound(grants: map<Token, Grant>, issued: seq<Issuance>, used: seq<Use>, kept: map<Token, Grant>)
    requires Sound(grants, issued, used) && forall t :: t in kept ==> t in grants && kept[t] == grants[t]
    ensures Sound(kept, issued, used)
  {
  }

  function Unexpired(grants: map<Token, Grant>, now: int): map<Token, Grant>
  {
    map t | t in grants && grants[t].expiresAt >= now :: grants[t]
  }

  /** The grants without those for one proposal. */
  function Revoked(grants: map<Token, Grant>, project: string, proposal: OperationKey): map<Token, Grant>
  {
    map t | t in grants
      && !(grants[t].binding.project == project && grants[t].binding.proposal == proposal) :: grants[t]
  }

  class ApprovalTable {
    var grants: map<Token, Grant>
    ghost var issued: seq<Issuance>
    ghost var used: seq<Use>

    constructor ()
      ensures Valid() && grants == map[] && issued == [] && used == []
    {
      grants := map[];
      issued, used := [], [];
    }

    ghost predicate Valid()
      reads this
    {
      Sound(grants, issued, used)
    }

    method SweepExpired(now: int)
      requires Valid()
      modifies this`grants
      ensures Valid() && grants == Unexpired(old(grants), now)
    {
      hide Sound;
      ghost var before := grants;
      grants := Unexpired(grants, now);
      ForgetKeepsSound(before, issued, used, grants);
    }

    /** The grants for a removed proposal go with it. */
    method Revoke(project: string, proposal: OperationKey)
      requires Valid()
      modifies this`grants
      ensures Valid() && grants == Revoked(old(grants), project, proposal)
    {
      hide Sound;
      ghost var before := grants;
      grants := Revoked(grants, project, proposal);
      ForgetKeepsSound(before, issued, used, grants);
    }

    /** A restarted process starts with an empty table. */
    method Forget()
      requires Valid()
      modifies this`grants
      ensures Valid() && grants == map[]
    {
      hide Sound;
      ForgetKeepsSound(grants, issued, used, map[]);
      grants := map[];
    }

    method Issue(token: Token, binding: ApprovalBinding, expiresAt: int)
      requires Valid() && forall i :: 0 <= i < |issued| ==> issued[i].token != token
      modifies this`grants, this`issued
      ensures Valid() && grants == old(grants)[token := Grant(binding, expiresAt)]
      ensures issued == old(issued) + [Issuance(token, Grant(binding, expiresAt))]
    {
      hide Sound;
      IssueKeepsSound(grants, issued, used, token, Grant(binding, expiresAt));
      grants := grants[token := Grant(binding, expiresAt)];
      issued := issued + [Issuance(token, Grant(binding, expiresAt))];
    }

    /** An expired grant is removed when it is presented; a mismatched one stays. */
    method Validate(token: Token, expected: ApprovalBinding, now: int) returns (r: Result<(), ApprovalError>)
      requires Valid()
      modifies this`grants
      ensures Valid()
      ensures r.Ok? <==>
                0 < |token| <= 128 && token in old(grants)
                  && old(grants)[token] == Grant(expected, old(grants)[token].expiresAt)
                         && now <= old(grants)[token].expiresAt
      ensures grants == if r == Err(Expired) then old(grants) - {token} else old(grants)
      ensures r == Err(Invalid) <==> |token| == 0 || |token| > 128
      ensures r == Err(InvalidOrConsumed) <==> 0 < |token| <= 128 && token !in old(grants)
      ensures r == Err(Expired) <==> 0 < |token| <= 128 && token in old(grants) && old(grants)[token].expiresAt < now
    {
      hide Sound;
      if token == "" || |token| > 128 {
        return Err(Invalid);
      }
      if token !in grants {
        return Err(InvalidOrConsumed);
      }
      if grants[token].expiresAt < now {
        ForgetKeepsSound(grants, issued, used, grants - {token});
        grants := grants - {token};
        return Err(Expired);
      }
      return if grants[token].binding != expected then Err(BindingMismatch) else Ok(());
    }

    method Consume(token: Token, expected: ApprovalBinding, now: int) returns (r: Result<(), ApprovalError>)
      requires Valid()
      modifies this`grants, this`used
      ensures Valid()
      ensures r.Ok? <==>
                0 < |token| <= 128 && token in old(grants)
                  && old(grants)[token] == Grant(expected, old(grants)[token].expiresAt)
                         && now <= old(grants)[token].expiresAt
      ensures r.Ok? ==> grants == old(grants) - {token} && used == old(used) + [Use(token, expected, now, |issued|)]
      ensures r == Err(Expired) <==> 0 < |token| <= 128 && token in old(grants) && old(grants)[token].expiresAt < now
      ensures r.Err? ==> used == old(used) && grants == if r == Err(Expired) then old(grants) - {token} else old(grants)
    {
      hide Sound;
      r := Validate(token, expected, now);
      if r.Ok? {
        UseKeepsSound(grants, issued, used, token, now);
        used := used + [Use(token, grants[token].binding, now, |issued|)];
        grants := grants - {token};
      }
    }
  }
}
