/** Access requests: who may decide, when a quorum is reached and how long an approval lasts. */
module Approvals {
  import opened Common
  import opened Policies

  datatype RequestStatus = Pending | Approved | Rejected

  /** Decisions are kept by approver: one each, never changed. */
  datatype Request = Request(
    requester: Id,
    target: Id,
    policy: nat,
    durationMinutes: nat,
    status: RequestStatus,
    decidedAt: Option<int>,
    updatedAt: int,
    decisions: map<Id, bool>)

  datatype Actor = Actor(id: Id, superuser: bool, decidesApprovals: bool)

  datatype Refusal = NotPending | OwnRequest | NotApprover | AlreadyDecided

  const MINUTE := 60

  function NewRequest(p: Policy, requester: Id, target: Id, policy: nat, minutes: nat, now: int): Request {
    if p.requiresApproval
    then Request(requester, target, policy, minutes, Pending, None, now, map[])
    else Request(requester, target, policy, minutes, Approved, Some(now), now, map[])
  }

  predicate MayDecide(w: World, p: Policy, actor: Actor) {
    || actor.superuser
    || (&& actor.decidesApprovals
        && ((forall g :: g in p.approverGroups && g in w.userGroups ==> !w.userGroups[g].enabled)
            || InEnabledGroup(w.userGroups, p.approverGroups, actor.id)))
  }

  function Approvers(r: Request): set<Id> {
    set a | a in r.decisions && r.decisions[a]
  }

  function Quorum(p: Policy): nat {
    Max(1, p.approvalQuorum)
  }

  function RefusalOf(w: World, r: Request, actor: Actor): Option<Refusal>
    requires r.policy < |w.policies|
  {
    if r.status != Pending then Some(NotPending)
    else if actor.id == r.requester then Some(OwnRequest)
    else if !MayDecide(w, w.policies[r.policy], actor) then Some(NotApprover)
    else if actor.id in r.decisions then Some(AlreadyDecided)
    else None
  }

  function Decide(p: Policy, r: Request, actor: Id, approve: bool, now: int): Request {
    var voted := r.(decisions := r.decisions[actor := approve]);
    if !approve then voted.(status := Rejected, decidedAt := Some(now), updatedAt := now)
    else if |Approvers(voted)| >= Quorum(p) then voted.(status := Approved, decidedAt := Some(now), updatedAt := now)
    else voted
  }

  function ApprovedAt(r: Request): int {
    if r.decidedAt.Some? then r.decidedAt.value else r.updatedAt
  }

  predicate OpenApproval(r: Request, user: Id, target: Id, policy: nat, now: int) {
    && r.requester == user && r.target == target && r.policy == policy && r.status == Approved
    && ApprovedAt(r) + MINUTE * r.durationMinutes > now
  }

  /** The most recently decided approval whose window is still open. */
  function ActiveApproval(requests: seq<Request>, user: Id, target: Id, policy: nat, now: int): (r: Option<nat>)
    ensures r.Some? ==> r.value < |requests| && OpenApproval(requests[r.value], user, target, policy, now)
    ensures r.Some? ==> forall i :: 0 <= i < |requests| && OpenApproval(requests[i], user, target, policy, now) ==>
                          ApprovedAt(requests[i]) <= ApprovedAt(requests[r.value])
    ensures r.None? ==> forall i :: 0 <= i < |requests| ==> !OpenApproval(requests[i], user, target, policy, now)
  {
    if requests == [] then None
    else
      var n := |requests| - 1;
      var earlier := ActiveApproval(requests[..n], user, target, policy, now);
      if !OpenApproval(requests[n], user, target, policy, now) then earlier
      else if earlier.Some? && ApprovedAt(requests[earlier.value]) > ApprovedAt(requests[n]) then earlier
      else Some(n)
  }

  class RequestTable {
    var requests: seq<Request>

    constructor ()
      ensures requests == []
    {
      requests := [];
    }

    method CreateRequest(w: World, requester: Id, target: Id, policy: nat, minutes: nat, now: int) returns (r: nat)
      requires policy < |w.policies|
      modifies this
      ensures r == |old(requests)|
      ensures requests == old(requests) + [NewRequest(w.policies[policy], requester, target, policy, minutes, now)]
    {
      var request := Request(requester, target, policy, minutes, Pending, None, now, map[]);
      if !w.policies[policy].requiresApproval {
        request := request.(status := Approved, decidedAt := Some(now));
      }
      r := |requests|;
      requests := requests + [request];
    }

    method DecideAccessRequest(w: World, r: nat, actor: Actor, approve: bool, now: int) returns (refusal: Option<Refusal>)
      requires r < |requests| && requests[r].policy < |w.policies|
      modifies this
      ensures refusal == RefusalOf(w, old(requests[r]), actor)
      ensures refusal.Some? ==> requests == old(requests)
      ensures refusal.None? ==>
                requests == old(requests)[r := Decide(w.policies[old(requests[r]).policy], old(requests[r]), actor.id, approve, now)]
    {
      var locked := requests[r];
      if locked.status != Pending {
        return Some(NotPending);
      }
      if actor.id == locked.requester {
        return Some(OwnRequest);
      }
      if !MayDecide(w, w.policies[locked.policy], actor) {
        return Some(NotApprover);
      }
      if actor.id in locked.decisions {
        return Some(AlreadyDecided);
      }
      locked := locked.(decisions := locked.decisions[actor.id := approve]);
      var approvals := |Approvers(locked)|;
      if !approve {
        locked := locked.(status := Rejected);
      } else if approvals >= Quorum(w.policies[locked.policy]) {
        locked := locked.(status := Approved);
      }
      if locked.status != Pending {
        locked := locked.(decidedAt := Some(now), updatedAt := now);
      }
      requests := requests[r := locked];
      return None;
    }
  }
}

/** Which policy, and which approval, authorize a caller to use a credential. */
module Authorization {
  import opened Common
  import opened Policies
  import opened Approvals

  datatype Mfa = Mfa(deviceConfirmed: bool, verifiedAt: Option<int>, windowMinutes: nat)

  datatype Grant = Grant(policy: nat, request: Option<nat>)

  predicate MfaIsRecent(mfa: Mfa, now: int) {
    mfa.verifiedAt.Some? && now - mfa.verifiedAt.value <= MINUTE * mfa.windowMinutes
  }

  function ApprovalFor(requests: seq<Request>, caller: Caller, cred: Credential, k: nat): Option<nat> {
    ActiveApproval(requests, caller.user, cred.target.id, k, caller.moment.at)
  }

  /** Every condition at once: group, schedule, network, target, credential, approval and MFA. */
  predicate Authorizes(w: World, requests: seq<Request>, k: nat, caller: Caller, cred: Credential, action: Action, mfa: Mfa)
    requires k < |w.policies|
  {
    var p := w.policies[k];
    && Permits(w, p, caller, cred, action)
    && (p.requiresApproval ==>
          exists i :: 0 <= i < |requests| && OpenApproval(requests[i], caller.user, cred.target.id, k, caller.moment.at))
    && (p.requiresMfa ==> mfa.deviceConfirmed && MfaIsRecent(mfa, caller.moment.at))
  }

  /** The first authorizing policy of the table from `k` on. */
  function FirstGrant(w: World, requests: seq<Request>, k: nat, caller: Caller, cred: Credential, action: Action, mfa: Mfa):
      (g: Option<Grant>)
    requires k <= |w.policies|
    ensures g.Some? ==>
              && k <= g.value.policy < |w.policies|
              && Authorizes(w, requests, g.value.policy, caller, cred, action, mfa)
              && g.value.request == ApprovalFor(requests, caller, cred, g.value.policy)
              && forall i :: k <= i < g.value.policy ==> !Authorizes(w, requests, i, caller, cred, action, mfa)
    ensures g.None? ==> forall i :: k <= i < |w.policies| ==> !Authorizes(w, requests, i, caller, cred, action, mfa)
    decreases |w.policies| - k
  {
    if k == |w.policies| then None
    else if Authorizes(w, requests, k, caller, cred, action, mfa)
    then Some(Grant(k, ApprovalFor(requests, caller, cred, k)))
    else FirstGrant(w, requests, k + 1, caller, cred, action, mfa)
  }

  function Authorized(w: World, requests: seq<Request>, caller: Caller, cred: Credential, action: Action, mfa: Mfa): Option<Grant> {
    FirstGrant(w, requests, 0, caller, cred, action, mfa)
  }

  /** The search loop; `None` is the refusal. */
  method AuthorizingPolicyFor(w: World, requests: seq<Request>, caller: Caller, cred: Credential, action: Action, mfa: Mfa)
    returns (grant: Option<Grant>)
    ensures grant == Authorized(w, requests, caller, cred, action, mfa)
    ensures grant.Some? <==> exists k :: 0 <= k < |w.policies| && Authorizes(w, requests, k, caller, cred, action, mfa)
  {
    var candidates := PoliciesAllowing(w, caller, action);
    var k := 0;
    while k < |w.policies|
      invariant k <= |w.policies|
      invariant Authorized(w, requests, caller, cred, action, mfa) == FirstGrant(w, requests, k, caller, cred, action, mfa)
      invariant forall i :: 0 <= i < k ==> !Authorizes(w, requests, i, caller, cred, action, mfa)
    {
      var p := w.policies[k];
      if k in candidates && Covers(w, p, cred.target.id) && AllowsCredential(p, cred) {
        var request := ActiveApproval(requests, caller.user, cred.target.id, k, caller.moment.at);
        if (p.requiresApproval && request.None?)
           || (p.requiresMfa && !mfa.deviceConfirmed)
           || (p.requiresMfa && !MfaIsRecent(mfa, caller.moment.at)) {
        } else {
          assert Authorizes(w, requests, k, caller, cred, action, mfa);
          return Some(Grant(k, request));
        }
      }
      k := k + 1;
    }
    return None;
  }

  /** A grant is permitted, and a permitted action is offered. */
  lemma GrantsArePermittedAndOffered(w: World, requests: seq<Request>, caller: Caller, cred: Credential, action: Action, mfa: Mfa)
    requires Authorized(w, requests, caller, cred, action, mfa).Some?
    ensures exists k :: 0 <= k < |w.policies| && Permits(w, w.policies[k], caller, cred, action)
    ensures Offered(w, caller, cred.target, action)
  {
    var k := Authorized(w, requests, caller, cred, action, mfa).value.policy;
    assert Permits(w, w.policies[k], caller, cred, action);
    PermittedActionsAreOffered(w, k, caller, cred, action);
  }

  /** What a policy authorizes does not depend on the policies after it. */
  lemma AuthorizesAlone(w: World, extra: Policy, requests: seq<Request>, k: nat, caller: Caller, cred: Credential, action: Action, mfa: Mfa)
    requires k < |w.policies|
    ensures var more := w.(policies := w.policies + [extra]);
            Authorizes(more, requests, k, caller, cred, action, mfa) == Authorizes(w, requests, k, caller, cred, action, mfa)
  {
    var more := w.(policies := w.policies + [extra]);
    var p := w.policies[k];
    assert more.policies[k] == p;
    assert Permits(more, p, caller, cred, action) == Permits(w, p, caller, cred, action);
  }

  /** A policy appended to the table never turns an authorization into a refusal, nor changes the grant. */
  lemma {:induction false} AddingPoliciesKeepsGrants(w: World, extra: Policy, requests: seq<Request>, k: nat,
                                                     caller: Caller, cred: Credential, action: Action, mfa: Mfa)
    requires k <= |w.policies|
    ensures var more := w.(policies := w.policies + [extra]);
            var before := FirstGrant(w, requests, k, caller, cred, action, mfa);
            before.Some? ==> FirstGrant(more, requests, k, caller, cred, action, mfa) == before
    decreases |w.policies| - k
  {
    var more := w.(policies := w.policies + [extra]);
    if k < |w.policies| {
      AuthorizesAlone(w, extra, requests, k, caller, cred, action, mfa);
      AddingPoliciesKeepsGrants(w, extra, requests, k + 1, caller, cred, action, mfa);
    }
  }

  /** A table with a policy inserted at `at`: the names of the later ones move up, in the requests too. */
  function Moved(k: nat, at: nat): nat {
    if k < at then k else k + 1
  }

  function MovedRequests(requests: seq<Request>, at: nat): seq<Request> {
    seq(|requests|, i requires 0 <= i < |requests| => requests[i].(policy := Moved(requests[i].policy, at)))
  }

  function Inserted(w: World, at: nat, extra: Policy): World
    requires at <= |w.policies|
  {
    w.(policies := w.policies[..at] + [extra] + w.policies[at..])
  }

  lemma MovedPolicyAuthorizesAlike(w: World, at: nat, extra: Policy, requests: seq<Request>, k: nat, caller: Caller, cred: Credential,
                                   action: Action, mfa: Mfa)
    requires at <= |w.policies| && k < |w.policies|
    ensures Authorizes(Inserted(w, at, extra), MovedRequests(requests, at), Moved(k, at), caller, cred, action, mfa) ==
            Authorizes(w, requests, k, caller, cred, action, mfa)
  {
    var more, moved := Inserted(w, at, extra), MovedRequests(requests, at);
    assert more.policies[Moved(k, at)] == w.policies[k];
    forall i | 0 <= i < |requests|
      ensures OpenApproval(moved[i], caller.user, cred.target.id, Moved(k, at), caller.moment.at)
           == OpenApproval(requests[i], caller.user, cred.target.id, k, caller.moment.at)
    {
    }
  }

  /** A policy inserted anywhere in the table never turns an authorization into a refusal. */
  lemma InsertedPolicyKeepsAuthorization(w: World, at: nat, extra: Policy, requests: seq<Request>, caller: Caller, cred: Credential,
                                         action: Action, mfa: Mfa)
    requires at <= |w.policies| && Authorized(w, requests, caller, cred, action, mfa).Some?
    ensures Authorized(Inserted(w, at, extra), MovedRequests(requests, at), caller, cred, action, mfa).Some?
  {
    var k := Authorized(w, requests, caller, cred, action, mfa).value.policy;
    MovedPolicyAuthorizesAlike(w, at, extra, requests, k, caller, cred, action, mfa);
  }

  /** A caller without a verification time is granted exactly what some policy without MFA grants. */
  lemma WithoutVerificationOnlyPoliciesWithoutMfa(w: World, requests: seq<Request>, caller: Caller, cred: Credential,
                                                  action: Action, mfa: Mfa)
    requires mfa.verifiedAt.None?
    ensures Authorized(w, requests, caller, cred, action, mfa).Some? <==>
              exists k :: 0 <= k < |w.policies| && !w.policies[k].requiresMfa
                          && Authorizes(w, requests, k, caller, cred, action, mfa)
  {
    var grant := Authorized(w, requests, caller, cred, action, mfa);
    if grant.Some? {
      assert !w.policies[grant.value.policy].requiresMfa;
    }
  }
}
