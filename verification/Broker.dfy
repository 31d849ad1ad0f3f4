/**
  The broker as one machine: requests, sessions and leases change together, one locked call at
  a time, while groups and clocks move freely between the calls. The policy table is fixed for
  a run. The log records what was decided, granted and used.
 */
module Broker {
  import opened Common
  import opened Policies
  import opened Approvals
  import opened Authorization
  import S = Sessions
  import L = Leases

  datatype Event =
    | Decided(request: nat, actor: Id, approve: bool, entitled: bool, at: int)
    | SessionGranted(session: nat, at: int)
    | LeaseGranted(lease: nat, at: int)
    | SessionOpened(session: nat, at: int)
    | SecretYielded(lease: nat, at: int)
    | LeaseRevoked(lease: nat, at: int)

  datatype State = State(requests: seq<Request>, sessions: seq<S.Session>, leases: seq<L.Lease>, log: seq<Event>)

  /** The surroundings of a call: group tables and installation settings. */
  datatype Setting = Setting(
    userGroups: map<Id, Group>,
    targetGroups: map<Id, Group>,
    network: Network,
    justified: bool,
    rdpEnabled: bool,
    hostKeyReady: bool)

  datatype Step =
    | CreateRequest(requester: Id, target: Id, policy: nat, minutes: nat, now: int)
    | DecideRequest(setting: Setting, request: nat, actor: Actor, approve: bool, now: int)
    | IssueTicket(setting: Setting, caller: Caller, credential: Credential, mfa: Mfa, lifetime: nat)
    | StartWeb(setting: Setting, caller: Caller, credential: Credential, mfa: Mfa)
    | ConsumeTicket(session: nat, tokenMatches: bool, user: Id, ip: Option<string>, now: int)
    | CloseSession(session: nat, failed: bool, now: int)
    | TerminateSession(session: nat, now: int)
    | IssueLease(setting: Setting, caller: Caller, credential: Credential, mfa: Mfa, purpose: L.Purpose, lifetime: nat)
    | ConsumeLease(lease: nat, expectedUser: Option<Id>, expectedPurpose: Option<L.Purpose>, decrypts: bool, now: int)
    | RevokeLease(lease: nat, now: int)

  function Clock(step: Step): int {
    match step
    case CreateRequest(_, _, _, _, now) => now
    case DecideRequest(_, _, _, _, now) => now
    case IssueTicket(_, caller, _, _, _) => caller.moment.at
    case StartWeb(_, caller, _, _) => caller.moment.at
    case ConsumeTicket(_, _, _, _, now) => now
    case CloseSession(_, _, now) => now
    case TerminateSession(_, now) => now
    case IssueLease(_, caller, _, _, _, _) => caller.moment.at
    case ConsumeLease(_, _, _, _, now) => now
    case RevokeLease(_, now) => now
  }

  function WorldOf(policies: seq<Policy>, setting: Setting): World {
    World(policies, setting.userGroups, setting.targetGroups, setting.network)
  }

  predicate TicketRequestAcceptable(setting: Setting, cred: Credential, lifetime: nat) {
    && setting.justified
    && (cred.target.protocol == Ssh || cred.target.protocol == Rdp)
    && (cred.target.protocol == Rdp ==> setting.rdpEnabled)
    && (cred.target.protocol == Ssh ==> setting.hostKeyReady)
    && 15 <= lifetime <= 120
  }

  function RequestedMinutes(s: State, grant: Grant): Option<nat> {
    if grant.request.Some? && grant.request.value < |s.requests|
    then Some(s.requests[grant.request.value].durationMinutes) else None
  }

  /** Appends a session if the quota allows, and says so in the log. */
  function Admit(s: State, policies: seq<Policy>, session: S.Session, now: int): State
    requires session.key.policy < |policies|
  {
    if S.ActiveSessionCount(s.sessions, session.key, now) >= policies[session.key.policy].maxConcurrentSessions then s
    else s.(sessions := s.sessions + [session], log := s.log + [SessionGranted(|s.sessions|, now)])
  }

  function NextTicket(s: State, policies: seq<Policy>, setting: Setting, caller: Caller, cred: Credential, mfa: Mfa, lifetime: nat): State {
    var grant := Authorized(WorldOf(policies, setting), s.requests, caller, cred, StartSession, mfa);
    if !TicketRequestAcceptable(setting, cred, lifetime) || grant.None? then s
    else
      var g := grant.value;
      var minutes := S.Duration(policies[g.policy], RequestedMinutes(s, g));
      Admit(s, policies,
            S.TicketSession(S.Key(caller.user, cred.target.id, g.policy), cred.id, g.request, caller.moment.at, minutes, lifetime, caller.sourceIp),
            caller.moment.at)
  }

  function NextWeb(s: State, policies: seq<Policy>, setting: Setting, caller: Caller, cred: Credential, mfa: Mfa): State {
    var grant := Authorized(WorldOf(policies, setting), s.requests, caller, cred, StartSession, mfa);
    if !setting.justified || cred.target.protocol != Web || grant.None? then s
    else
      var g := grant.value;
      var minutes := S.Duration(policies[g.policy], RequestedMinutes(s, g));
      Admit(s, policies,
            S.WebSession(S.Key(caller.user, cred.target.id, g.policy), cred.id, g.request, caller.moment.at, minutes),
            caller.moment.at)
  }

  function NextLease(s: State, policies: seq<Policy>, setting: Setting, caller: Caller, cred: Credential, mfa: Mfa,
                     purpose: L.Purpose, lifetime: nat): State {
    var grant := Authorized(WorldOf(policies, setting), s.requests, caller, cred, L.ActionFor(purpose), mfa);
    if !L.Acceptable(setting.justified, cred, lifetime) || grant.None? then s
    else
      var lease := L.NewLease(cred, caller.user, grant.value, purpose, caller.moment.at, lifetime);
      s.(leases := s.leases + [lease], log := s.log + [LeaseGranted(|s.leases|, caller.moment.at)])
  }

  function NextDecision(s: State, policies: seq<Policy>, setting: Setting, r: nat, actor: Actor, approve: bool, now: int): State {
    if r >= |s.requests| || s.requests[r].policy >= |policies| then s
    else
      var w, request := WorldOf(policies, setting), s.requests[r];
      if RefusalOf(w, request, actor).Some? then s
      else
        s.(requests := s.requests[r := Decide(policies[request.policy], request, actor.id, approve, now)],
           log := s.log + [Decided(r, actor.id, approve, MayDecide(w, policies[request.policy], actor), now)])
  }

  /** A refused call changes nothing. */
  function Next(s: State, policies: seq<Policy>, step: Step): State {
    match step
    case CreateRequest(requester, target, policy, minutes, now) =>
      if policy >= |policies| then s
      else s.(requests := s.requests + [NewRequest(policies[policy], requester, target, policy, minutes, now)])
    case DecideRequest(setting, r, actor, approve, now) => NextDecision(s, policies, setting, r, actor, approve, now)
    case IssueTicket(setting, caller, cred, mfa, lifetime) => NextTicket(s, policies, setting, caller, cred, mfa, lifetime)
    case StartWeb(setting, caller, cred, mfa) => NextWeb(s, policies, setting, caller, cred, mfa)
    case ConsumeTicket(i, tokenMatches, user, ip, now) =>
      if i >= |s.sessions| || s.sessions[i].key.policy >= |policies| then s
      else if S.ConsumeRefusal(s.sessions, i, tokenMatches, user, ip, now, policies[s.sessions[i].key.policy].maxConcurrentSessions).Some? then s
      else s.(sessions := s.sessions[i := S.Opened(s.sessions[i], now)], log := s.log + [SessionOpened(i, now)])
    case CloseSession(i, failed, now) =>
      if i >= |s.sessions| then s else s.(sessions := s.sessions[i := S.Ended(s.sessions[i], failed, now)])
    case TerminateSession(i, now) =>
      if i >= |s.sessions| then s else s.(sessions := s.sessions[i := S.TerminationRequested(s.sessions[i], now)])
    case IssueLease(setting, caller, cred, mfa, purpose, lifetime) =>
      NextLease(s, policies, setting, caller, cred, mfa, purpose, lifetime)
    case ConsumeLease(i, user, purpose, decrypts, now) =>
      if i >= |s.leases| || !L.MayConsume(s.leases[i], user, purpose, now) || !decrypts then s
      else s.(leases := s.leases[i := L.Consumed(s.leases[i], now)], log := s.log + [SecretYielded(i, now)])
    case RevokeLease(i, now) =>
      if i >= |s.leases| then s
      else s.(leases := s.leases[i := L.RevokedLease(s.leases[i], now)], log := s.log + [LeaseRevoked(i, now)])
  }

  const START := State([], [], [], [])

  function Run(policies: seq<Policy>, steps: seq<Step>): State {
    RunFrom(START, policies, steps)
  }

  function RunFrom(s: State, policies: seq<Policy>, steps: seq<Step>): State {
    if steps == [] then s
    else Next(RunFrom(s, policies, steps[..|steps| - 1]), policies, steps[|steps| - 1])
  }

  // ----- every grant has its quorum -----

  /** An entitled approval of request `r` by `a`, somewhere in the log. */
  ghost predicate ApprovedBy(log: seq<Event>, r: nat, a: Id) {
    exists k :: 0 <= k < |log| && log[k].Decided? && log[k].request == r && log[k].actor == a && log[k].approve && log[k].entitled
  }

  /** Enough distinct entitled users other than the requester approved `r`. */
  ghost predicate QuorumReached(p: Policy, request: Request, log: seq<Event>, r: nat) {
    exists approvers: set<Id> :: && |approvers| >= Quorum(p)
                                 && request.requester !in approvers
                                 && forall a :: a in approvers ==> ApprovedBy(log, r, a)
  }

  /** At time `at` an approval of `r` was recorded that completed its quorum. */
  ghost predicate CompletedAt(p: Policy, request: Request, log: seq<Event>, r: nat, at: int) {
    exists k :: && 0 <= k < |log| && log[k].Decided? && log[k].request == r && log[k].approve && log[k].at == at
                && QuorumReached(p, request, log[..k + 1], r)
  }

  /** A use at time `at` falls in the window of an approved request of this user for this target and policy. */
  ghost predicate Backed(policies: seq<Policy>, requests: seq<Request>, log: seq<Event>, key: S.Key, at: int) {
    key.policy < |policies| &&
    (policies[key.policy].requiresApproval ==> exists r: nat, from: int :: BackedBy(policies, requests, log, key, at, r, from))
  }

  ghost predicate BackedBy(policies: seq<Policy>, requests: seq<Request>, log: seq<Event>, key: S.Key, at: int, r: nat, from: int)
    requires key.policy < |policies|
  {
    && r < |requests|
    && requests[r].requester == key.user && requests[r].target == key.target && requests[r].policy == key.policy
    && CompletedAt(policies[key.policy], requests[r], log, r, from)
    && from + MINUTE * requests[r].durationMinutes > at
  }

  ghost predicate RequestSound(policies: seq<Policy>, request: Request, log: seq<Event>, r: nat) {
    && request.policy < |policies|
    && request.requester !in request.decisions
    && (forall a :: a in Approvers(request) ==> ApprovedBy(log, r, a))
    && (request.status == Approved && policies[request.policy].requiresApproval ==>
          CompletedAt(policies[request.policy], request, log, r, ApprovedAt(request)))
  }

  ghost predicate RequestsSound(policies: seq<Policy>, s: State) {
    forall r :: 0 <= r < |s.requests| ==> RequestSound(policies, s.requests[r], s.log, r)
  }

  function LeaseKey(l: L.Lease): S.Key {
    S.Key(l.user, l.target, l.policy)
  }

  ghost predicate GrantBacked(policies: seq<Policy>, s: State, e: nat)
    requires e < |s.log|
  {
    match s.log[e]
    case SessionGranted(i, at) => i < |s.sessions| && Backed(policies, s.requests, s.log[..e], s.sessions[i].key, at)
    case LeaseGranted(i, at) => i < |s.leases| && Backed(policies, s.requests, s.log[..e], LeaseKey(s.leases[i]), at)
    case _ => true
  }

  lemma LongerLogApproves(log: seq<Event>, more: seq<Event>, r: nat)
    requires log <= more
    ensures forall a :: ApprovedBy(log, r, a) ==> ApprovedBy(more, r, a)
  {
    forall a | ApprovedBy(log, r, a)
      ensures ApprovedBy(more, r, a)
    {
      var k :| 0 <= k < |log| && log[k].Decided? && log[k].request == r && log[k].actor == a && log[k].approve && log[k].entitled;
      assert more[k] == log[k];
    }
  }

  lemma CompletionStays(p: Policy, before: Request, after: Request, log: seq<Event>, more: seq<Event>, r: nat, at: int)
    requires log <= more && after.requester == before.requester && CompletedAt(p, before, log, r, at)
    ensures CompletedAt(p, after, more, r, at)
  {
    var k :| && 0 <= k < |log| && log[k].Decided? && log[k].request == r && log[k].approve && log[k].at == at
             && QuorumReached(p, before, log[..k + 1], r);
    assert more[k] == log[k] && more[..k + 1] == log[..k + 1];
    assert QuorumReached(p, after, more[..k + 1], r);
  }

  lemma DecisionSound(policies: seq<Policy>, s: State, setting: Setting, r: nat, actor: Actor, approve: bool, now: int)
    requires RequestsSound(policies, s)
    requires r < |s.requests| && s.requests[r].policy < |policies|
    requires RefusalOf(WorldOf(policies, setting), s.requests[r], actor).None?
    ensures var n := NextDecision(s, policies, setting, r, actor, approve, now);
            RequestSound(policies, n.requests[r], n.log, r)
  {
    var n := NextDecision(s, policies, setting, r, actor, approve, now);
    var before, after := s.requests[r], n.requests[r];
    LongerLogApproves(s.log, n.log, r);
    var last := |s.log|;
    assert n.log[last] == Decided(r, actor.id, approve, true, now);
    forall a | a in Approvers(after)
      ensures ApprovedBy(n.log, r, a)
    {
      if a != actor.id {
        assert a in Approvers(before);
      }
    }
    if after.status == Approved {
      assert n.log[..last + 1] == n.log;
      assert QuorumReached(policies[after.policy], after, n.log[..last + 1], r);
    }
  }

  lemma LogGrows(s: State, policies: seq<Policy>, step: Step)
    ensures var n := Next(s, policies, step);
            s.log <= n.log && |n.log| <= |s.log| + 1 && |s.requests| <= |n.requests|
  {
  }

  lemma RequestsKept(policies: seq<Policy>, s: State, step: Step)
    requires RequestsSound(policies, s)
    ensures RequestsSound(policies, Next(s, policies, step))
  {
    var n := Next(s, policies, step);
    LogGrows(s, policies, step);
    forall r | 0 <= r < |n.requests|
      ensures RequestSound(policies, n.requests[r], n.log, r)
    {
      if r < |s.requests| && n.requests[r] == s.requests[r] {
        LongerLogApproves(s.log, n.log, r);
        var request := s.requests[r];
        if request.status == Approved && policies[request.policy].requiresApproval {
          CompletionStays(policies[request.policy], request, request, s.log, n.log, r, ApprovedAt(request));
        }
      } else if r < |s.requests| {
        DecisionSound(policies, s, step.setting, r, step.actor, step.approve, step.now);
      }
    }
  }

  /** An authorization found in a sound state is backed by its log. */
  lemma AuthorizationBacked(policies: seq<Policy>, s: State, setting: Setting, caller: Caller, cred: Credential, action: Action, mfa: Mfa)
    requires RequestsSound(policies, s)
    requires Authorized(WorldOf(policies, setting), s.requests, caller, cred, action, mfa).Some?
    ensures var g := Authorized(WorldOf(policies, setting), s.requests, caller, cred, action, mfa).value;
            Backed(policies, s.requests, s.log, S.Key(caller.user, cred.target.id, g.policy), caller.moment.at)
  {
    var w := WorldOf(policies, setting);
    var g := Authorized(w, s.requests, caller, cred, action, mfa).value;
    if policies[g.policy].requiresApproval {
      var r :| 0 <= r < |s.requests| && OpenApproval(s.requests[r], caller.user, cred.target.id, g.policy, caller.moment.at);
      assert RequestSound(policies, s.requests[r], s.log, r);
      assert BackedBy(policies, s.requests, s.log, S.Key(caller.user, cred.target.id, g.policy), caller.moment.at,
                      r, ApprovedAt(s.requests[r]));
    }
  }

  /** A request keeps who asked, for what and for how long. */
  lemma RequestsKeepTerms(s: State, policies: seq<Policy>, step: Step, r: nat)
    requires r < |s.requests|
    ensures r < |Next(s, policies, step).requests|
    ensures var before, after := s.requests[r], Next(s, policies, step).requests[r];
            && after.requester == before.requester && after.target == before.target && after.policy == before.policy
            && after.durationMinutes == before.durationMinutes
  {
  }

  lemma BackedStays(policies: seq<Policy>, s: State, step: Step, log: seq<Event>, key: S.Key, at: int)
    requires Backed(policies, s.requests, log, key, at)
    ensures Backed(policies, Next(s, policies, step).requests, log, key, at)
  {
    var n := Next(s, policies, step);
    if policies[key.policy].requiresApproval {
      var r: nat, from: int :| BackedBy(policies, s.requests, log, key, at, r, from);
      RequestsKeepTerms(s, policies, step, r);
      CompletionStays(policies[key.policy], s.requests[r], n.requests[r], log, log, r, from);
      assert BackedBy(policies, n.requests, log, key, at, r, from);
    }
  }

  lemma GrantStays(policies: seq<Policy>, s: State, step: Step, e: nat)
    requires e < |s.log| && GrantBacked(policies, s, e)
    ensures e < |Next(s, policies, step).log| && GrantBacked(policies, Next(s, policies, step), e)
  {
    var n := Next(s, policies, step);
    LogGrows(s, policies, step);
    assert n.log[..e] == s.log[..e];
    match s.log[e] {
      case SessionGranted(i, at) =>
        BackedStays(policies, s, step, s.log[..e], s.sessions[i].key, at);
        SessionsEvolve(s, policies, step, i);
      case LeaseGranted(i, at) =>
        BackedStays(policies, s, step, s.log[..e], LeaseKey(s.leases[i]), at);
        LeasesEvolve(s, policies, step, i);
      case _ =>
    }
  }

  lemma SessionsEvolve(s: State, policies: seq<Policy>, step: Step, i: nat)
    requires i < |s.sessions|
    ensures i < |Next(s, policies, step).sessions| && Next(s, policies, step).sessions[i].key == s.sessions[i].key
  {
  }

  lemma LeasesEvolve(s: State, policies: seq<Policy>, step: Step, i: nat)
    requires i < |s.leases|
    ensures i < |Next(s, policies, step).leases| && LeaseKey(Next(s, policies, step).leases[i]) == LeaseKey(s.leases[i])
  {
  }

  lemma NewGrantBacked(policies: seq<Policy>, s: State, step: Step)
    requires RequestsSound(policies, s)
    ensures var n := Next(s, policies, step); |n.log| == |s.log| + 1 ==> GrantBacked(policies, n, |s.log|)
  {
    var n := Next(s, policies, step);
    LogGrows(s, policies, step);
    if |n.log| == |s.log| + 1 {
      assert n.log[..|s.log|] == s.log;
      match step {
        case IssueTicket(setting, caller, cred, mfa, lifetime) =>
          AuthorizationBacked(policies, s, setting, caller, cred, StartSession, mfa);
        case StartWeb(setting, caller, cred, mfa) =>
          AuthorizationBacked(policies, s, setting, caller, cred, StartSession, mfa);
        case IssueLease(setting, caller, cred, mfa, purpose, lifetime) =>
          AuthorizationBacked(policies, s, setting, caller, cred, L.ActionFor(purpose), mfa);
        case _ =>
      }
    }
  }

  ghost predicate GrantsBacked(policies: seq<Policy>, s: State) {
    forall e :: 0 <= e < |s.log| ==> GrantBacked(policies, s, e)
  }

  lemma GrantsKept(policies: seq<Policy>, s: State, step: Step, n: State)
    requires RequestsSound(policies, s) && GrantsBacked(policies, s) && n == Next(s, policies, step)
    ensures GrantsBacked(policies, n)
  {
    LogGrows(s, policies, step);
    NewGrantBacked(policies, s, step);
    forall e | 0 <= e < |n.log|
      ensures GrantBacked(policies, n, e)
    {
      if e < |s.log| {
        GrantStays(policies, s, step, e);
      }
    }
  }

  ghost predicate SessionGrantAt(s: State, i: int, e: int) {
    0 <= e < |s.log| && s.log[e].SessionGranted? && s.log[e].session == i
  }

  ghost predicate LeaseGrantAt(s: State, i: int, e: int) {
    0 <= e < |s.log| && s.log[e].LeaseGranted? && s.log[e].lease == i
  }

  ghost predicate HasSessionGrant(s: State, i: int) {
    exists e :: SessionGrantAt(s, i, e)
  }

  ghost predicate HasLeaseGrant(s: State, i: int) {
    exists e :: LeaseGrantAt(s, i, e)
  }

  /** Every session and every lease has the event of its grant. */
  ghost predicate RowsGranted(s: State) {
    && (forall i :: 0 <= i < |s.sessions| ==> HasSessionGrant(s, i))
    && (forall i :: 0 <= i < |s.leases| ==> HasLeaseGrant(s, i))
  }

  /** A step adds a row only together with its grant. */
  ghost predicate GrantsNewRows(s: State, n: State) {
    && s.log <= n.log
    && (|n.sessions| > |s.sessions| ==> |n.sessions| == |s.sessions| + 1 && SessionGrantAt(n, |s.sessions|, |s.log|))
    && (|n.leases| > |s.leases| ==> |n.leases| == |s.leases| + 1 && LeaseGrantAt(n, |s.leases|, |s.log|))
  }

  lemma StepGrantsNewRows(s: State, policies: seq<Policy>, step: Step)
    ensures GrantsNewRows(s, Next(s, policies, step))
  {
    LogGrows(s, policies, step);
  }

  lemma RowsStayGranted(s: State, n: State)
    requires RowsGranted(s) && GrantsNewRows(s, n)
    ensures RowsGranted(n)
  {
    forall i | 0 <= i < |n.sessions| ensures HasSessionGrant(n, i) {
      if i < |s.sessions| {
        assert HasSessionGrant(s, i);
        var e :| SessionGrantAt(s, i, e);
        assert SessionGrantAt(n, i, e);
      } else {
        assert SessionGrantAt(n, i, |s.log|);
      }
    }
    forall i | 0 <= i < |n.leases| ensures HasLeaseGrant(n, i) {
      if i < |s.leases| {
        assert HasLeaseGrant(s, i);
        var e :| LeaseGrantAt(s, i, e);
        assert LeaseGrantAt(n, i, e);
      } else {
        assert LeaseGrantAt(n, i, |s.log|);
      }
    }
  }

  lemma {:induction false} RunGrants(policies: seq<Policy>, steps: seq<Step>)
    ensures var s := Run(policies, steps); RequestsSound(policies, s) && GrantsBacked(policies, s) && RowsGranted(s)
  {
    if steps != [] {
      var n := |steps| - 1;
      RunGrants(policies, steps[..n]);
      RequestsKept(policies, Run(policies, steps[..n]), steps[n]);
      GrantsKept(policies, Run(policies, steps[..n]), steps[n], Run(policies, steps));
      StepGrantsNewRows(Run(policies, steps[..n]), policies, steps[n]);
      RowsStayGranted(Run(policies, steps[..n]), Run(policies, steps));
    }
  }

  /** The session at `i` was granted with its quorum and inside its window. */
  ghost predicate SessionBacked(policies: seq<Policy>, s: State, i: nat)
    requires i < |s.sessions|
  {
    exists e :: SessionGrantAt(s, i, e) && Backed(policies, s.requests, s.log[..e], s.sessions[i].key, s.log[e].at)
  }

  ghost predicate LeaseBacked(policies: seq<Policy>, s: State, i: nat)
    requires i < |s.leases|
  {
    exists e :: LeaseGrantAt(s, i, e) && Backed(policies, s.requests, s.log[..e], LeaseKey(s.leases[i]), s.log[e].at)
  }

  /** In every run, every session and every lease was granted with its quorum and inside its window. */
  lemma {:induction false} EveryGrantHasItsQuorum(policies: seq<Policy>, steps: seq<Step>)
    ensures var s := Run(policies, steps);
            && (forall i :: 0 <= i < |s.sessions| ==> SessionBacked(policies, s, i))
            && (forall i :: 0 <= i < |s.leases| ==> LeaseBacked(policies, s, i))
  {
    RunGrants(policies, steps);
    var s := Run(policies, steps);
    forall i | 0 <= i < |s.sessions| ensures SessionBacked(policies, s, i) {
      assert HasSessionGrant(s, i);
      var e :| SessionGrantAt(s, i, e);
      assert GrantBacked(policies, s, e);
    }
    forall i | 0 <= i < |s.leases| ensures LeaseBacked(policies, s, i) {
      assert HasLeaseGrant(s, i);
      var e :| LeaseGrantAt(s, i, e);
      assert GrantBacked(policies, s, e);
    }
  }

  // ----- a ticket alone does not yield the secret -----

  /** A ticket, its use and the lease the gateway then asks for, without a verification time. */
  function GatewayRun(setting: Setting, caller: Caller, cred: Credential, mfa: Mfa, lifetime: nat): seq<Step> {
    [IssueTicket(setting, caller, cred, mfa, lifetime),
     ConsumeTicket(0, true, caller.user, caller.sourceIp, caller.moment.at),
     IssueLease(setting, caller, cred, mfa.(verifiedAt := None), L.ForSession, 30)]
  }

  lemma RunOneMore(policies: seq<Policy>, steps: seq<Step>, n: nat)
    requires n < |steps|
    ensures Run(policies, steps[..n + 1]) == Next(Run(policies, steps[..n]), policies, steps[n])
  {
    assert steps[..n + 1][..n] == steps[..n];
  }

  /** Where the only policy requires a second factor, the ticket opens its session and the lease is refused. */
  lemma OpenedSessionWithoutLease(p: Policy, setting: Setting, caller: Caller, cred: Credential, mfa: Mfa, lifetime: nat)
    requires p.requiresMfa && p.maxConcurrentSessions >= 1 && p.maxDurationMinutes >= 1
    requires TicketRequestAcceptable(setting, cred, lifetime)
    requires Authorizes(WorldOf([p], setting), [], 0, caller, cred, StartSession, mfa)
    ensures var steps := GatewayRun(setting, caller, cred, mfa, lifetime);
            && |Run([p], steps[..2]).sessions| == 1 && Run([p], steps[..2]).sessions[0].status == S.Active
            && Run([p], steps) == Run([p], steps[..2]) && Run([p], steps).leases == []
  {
    var policies, steps := [p], GatewayRun(setting, caller, cred, mfa, lifetime);
    RunOneMore(policies, steps, 0);
    RunOneMore(policies, steps, 1);
    RunOneMore(policies, steps, 2);
    assert steps[..3] == steps && steps[..0] == [];
    TicketIsIssued(p, setting, caller, cred, mfa, lifetime);
    TicketOpens(p, Run(policies, steps[..1]), caller);
    LeaseIsRefused(p, Run(policies, steps[..2]), setting, caller, cred, mfa);
  }

  lemma LeaseIsRefused(p: Policy, s: State, setting: Setting, caller: Caller, cred: Credential, mfa: Mfa)
    requires p.requiresMfa
    ensures Next(s, [p], IssueLease(setting, caller, cred, mfa.(verifiedAt := None), L.ForSession, 30)) == s
  {
    WithoutVerificationOnlyPoliciesWithoutMfa(WorldOf([p], setting), s.requests, caller, cred, StartSession, mfa.(verifiedAt := None));
  }

  lemma TicketIsIssued(p: Policy, setting: Setting, caller: Caller, cred: Credential, mfa: Mfa, lifetime: nat)
    requires p.maxConcurrentSessions >= 1 && TicketRequestAcceptable(setting, cred, lifetime)
    requires Authorizes(WorldOf([p], setting), [], 0, caller, cred, StartSession, mfa)
    ensures var s := NextTicket(START, [p], setting, caller, cred, mfa, lifetime);
            && |s.sessions| == 1 && s.requests == [] && s.leases == []
            && s.sessions[0] == S.TicketSession(S.Key(caller.user, cred.target.id, 0), cred.id, None, caller.moment.at,
                                                p.maxDurationMinutes, lifetime, caller.sourceIp)
  {
    assert Authorized(WorldOf([p], setting), [], caller, cred, StartSession, mfa) == Some(Grant(0, None));
  }

  lemma TicketOpens(p: Policy, s: State, caller: Caller)
    requires p.maxConcurrentSessions >= 1 && |s.sessions| == 1
    requires var t := s.sessions[0];
             && t.key.user == caller.user && t.key.policy == 0 && t.status == S.Created && t.expiresAt > caller.moment.at
             && t.ticket.Some? && S.TicketLive(t.ticket.value, caller.moment.at) && t.ticket.value.sourceIp == caller.sourceIp
    ensures var n := Next(s, [p], ConsumeTicket(0, true, caller.user, caller.sourceIp, caller.moment.at));
            n.requests == s.requests && n.leases == s.leases && |n.sessions| == 1 && n.sessions[0].status == S.Active
  {
    assert s.sessions[..0] == [] && s.sessions[1..] == [];
    assert S.OtherRunning(s.sessions, 0) == 0;
  }

  /** A user of one group, one target and a policy that requires a second factor meet these conditions. */
  lemma OpenedSessionWithoutLeaseExample(network: Network) returns (p: Policy, setting: Setting, caller: Caller, cred: Credential, mfa: Mfa)
    ensures p.requiresMfa && p.maxConcurrentSessions >= 1 && p.maxDurationMinutes >= 1
    ensures TicketRequestAcceptable(setting, cred, 60)
    ensures Authorizes(WorldOf([p], setting), [], 0, caller, cred, StartSession, mfa)
  {
    p := Policy(true, {1}, {7}, {}, {}, {}, {StartSession}, {}, false, 1, true, 60, 1, [], None, None, {}, None, None, []);
    setting := Setting(map[1 := Group(true, {5})], map[], network, true, false, true);
    caller := Caller(5, true, Moment(0, 0, 0), None);
    cred := Credential(3, Target(7, Ssh, true), true);
    mfa := Mfa(true, Some(0), 10);
    assert 1 in p.userGroups && 5 in setting.userGroups[1].members;
  }

  // ----- the quota -----

  ghost predicate KeysKnown(policies: seq<Policy>, sessions: seq<S.Session>) {
    forall i :: 0 <= i < |sessions| ==> sessions[i].key.policy < |policies|
  }

  ghost predicate QuotaHeld(policies: seq<Policy>, sessions: seq<S.Session>, now: int) {
    && KeysKnown(policies, sessions)
    && (forall key: S.Key :: key.policy < |policies| ==>
          S.ActiveSessionCount(sessions, key, now) <= policies[key.policy].maxConcurrentSessions)
  }

  ghost predicate RunningHeld(policies: seq<Policy>, sessions: seq<S.Session>) {
    && KeysKnown(policies, sessions)
    && (forall key: S.Key :: key.policy < |policies| ==>
          Count(sessions, S.Running(key)) <= policies[key.policy].maxConcurrentSessions)
  }

  /** One more session, for which there was room. */
  ghost predicate Adds(policies: seq<Policy>, before: seq<S.Session>, after: seq<S.Session>, session: S.Session, now: int) {
    && after == before + [session]
    && session.key.policy < |policies|
    && S.ActiveSessionCount(before, session.key, now) < policies[session.key.policy].maxConcurrentSessions
  }

  /** One session changes: it takes no place it did not hold, and starts to run only if there is room. */
  ghost predicate Replaces(policies: seq<Policy>, before: seq<S.Session>, after: seq<S.Session>, i: nat, now: int) {
    && i < |before| == |after| && after == before[i := after[i]] && after[i].key == before[i].key
    && (S.Occupying(before[i].key, now)(after[i]) ==> S.Occupying(before[i].key, now)(before[i]))
    && (S.Live(after[i]) && !S.Live(before[i]) ==>
          && before[i].key.policy < |policies|
          && S.OtherRunning(before, i) < policies[before[i].key.policy].maxConcurrentSessions)
  }

  ghost predicate SessionsChange(policies: seq<Policy>, before: seq<S.Session>, after: seq<S.Session>, now: int) {
    || after == before
    || (exists session :: Adds(policies, before, after, session, now))
    || (exists i: nat :: Replaces(policies, before, after, i, now))
  }

  lemma StepChangesSessions(policies: seq<Policy>, s: State, step: Step)
    ensures SessionsChange(policies, s.sessions, Next(s, policies, step).sessions, Clock(step))
  {
    var before, after := s.sessions, Next(s, policies, step).sessions;
    if after != before {
      if step.IssueTicket? || step.StartWeb? {
        assert Adds(policies, before, after, after[|before|], Clock(step));
      } else {
        assert Replaces(policies, before, after, step.session, Clock(step));
      }
    }
  }

  lemma QuotaKept(policies: seq<Policy>, before: seq<S.Session>, after: seq<S.Session>, now: int)
    requires QuotaHeld(policies, before, now) && SessionsChange(policies, before, after, now)
    ensures QuotaHeld(policies, after, now)
  {
    forall key: S.Key | key.policy < |policies|
      ensures S.ActiveSessionCount(after, key, now) <= policies[key.policy].maxConcurrentSessions
    {
      if session :| Adds(policies, before, after, session, now) {
        CountAppend(before, session, S.Occupying(key, now));
      } else if i: nat :| Replaces(policies, before, after, i, now) {
        S.ReplaceKeepsPlaces(before, i, after[i], key, now);
      }
    }
  }

  lemma RunningCountKept(policies: seq<Policy>, before: seq<S.Session>, after: seq<S.Session>, now: int, key: S.Key)
    requires RunningHeld(policies, before) && SessionsChange(policies, before, after, now) && key.policy < |policies|
    ensures Count(after, S.Running(key)) <= policies[key.policy].maxConcurrentSessions
  {
    if session :| Adds(policies, before, after, session, now) {
      CountAppend(before, session, S.Running(key));
      S.RunningOccupy(before, key, now);
    } else if i: nat :| Replaces(policies, before, after, i, now) {
      if S.Live(after[i]) && !S.Live(before[i]) {
        CountUpdate(before, i, after[i], S.Running(key));
        CountAround(before, i, S.Running(key));
      } else {
        S.ReplaceKeepsRunning(before, i, after[i], key);
      }
    }
  }

  lemma RunningKept(policies: seq<Policy>, before: seq<S.Session>, after: seq<S.Session>, now: int)
    requires RunningHeld(policies, before) && SessionsChange(policies, before, after, now)
    ensures RunningHeld(policies, after)
  {
    forall key: S.Key | key.policy < |policies| {
      RunningCountKept(policies, before, after, now, key);
    }
  }

  ghost predicate ClockNeverBack(steps: seq<Step>, now: int) {
    && (forall i, j :: 0 <= i < j < |steps| ==> Clock(steps[i]) <= Clock(steps[j]))
    && (forall i :: 0 <= i < |steps| ==> Clock(steps[i]) <= now)
  }

  /** On a clock that never goes back, running and reserved sessions together stay within the limit. */
  lemma {:induction false} QuotaCountsReservations(policies: seq<Policy>, steps: seq<Step>, now: int)
    requires ClockNeverBack(steps, now)
    ensures QuotaHeld(policies, Run(policies, steps).sessions, now)
  {
    if steps != [] {
      var n := |steps| - 1;
      var at := Clock(steps[n]);
      QuotaCountsReservations(policies, steps[..n], at);
      StepChangesSessions(policies, Run(policies, steps[..n]), steps[n]);
      QuotaKept(policies, Run(policies, steps[..n]).sessions, Run(policies, steps).sessions, at);
      forall key: S.Key {
        S.PlacesExpire(Run(policies, steps).sessions, key, at, now);
      }
    }
  }

  /** So a ticket that passes its own checks is never refused for the quota. */
  lemma LiveTicketIsNeverRefusedForQuota(policies: seq<Policy>, steps: seq<Step>, i: nat, tokenMatches: bool, user: Id, ip: Option<string>, now: int)
    requires ClockNeverBack(steps, now)
    requires var s := Run(policies, steps);
             i < |s.sessions| && S.TicketRefusal(s.sessions[i], tokenMatches, user, ip, now).None?
    ensures var s := Run(policies, steps);
            && s.sessions[i].key.policy < |policies|
            && S.ConsumeRefusal(s.sessions, i, tokenMatches, user, ip, now, policies[s.sessions[i].key.policy].maxConcurrentSessions).None?
  {
    var s := Run(policies, steps);
    QuotaCountsReservations(policies, steps, now);
    S.ReservedPlaceIsFree(s.sessions, i, now, policies[s.sessions[i].key.policy].maxConcurrentSessions);
  }

  /** Whatever the clock readings are, running sessions alone never exceed the limit. */
  lemma {:induction false} RunningSessionsWithinLimit(policies: seq<Policy>, steps: seq<Step>)
    ensures RunningHeld(policies, Run(policies, steps).sessions)
  {
    if steps != [] {
      var n := |steps| - 1;
      RunningSessionsWithinLimit(policies, steps[..n]);
      StepChangesSessions(policies, Run(policies, steps[..n]), steps[n]);
      RunningKept(policies, Run(policies, steps[..n]).sessions, Run(policies, steps).sessions, Clock(steps[n]));
    }
  }

  // ----- sessions and leases over a run -----

  /** Rows are coherent and the log's openings and uses are what the rows say. */
  ghost predicate RowsMatchLog(s: State) {
    && (forall i :: 0 <= i < |s.sessions| ==> S.Coherent(s.sessions[i]))
    && (forall i :: 0 <= i < |s.sessions| ==> OpeningsLogged(s, i))
    && (forall i :: 0 <= i < |s.leases| ==> UsesLogged(s, i))
    && (forall e :: 0 <= e < |s.log| ==> EventSound(s, s.log[e]))
  }

  function OpeningOf(i: nat): Event -> bool {
    (e: Event) => e.SessionOpened? && e.session == i
  }

  function YieldOf(i: nat): Event -> bool {
    (e: Event) => e.SecretYielded? && e.lease == i
  }

  ghost predicate OpeningsLogged(s: State, i: nat)
    requires i < |s.sessions|
  {
    Count(s.log, OpeningOf(i)) == if s.sessions[i].ticket.Some? && s.sessions[i].startedAt.Some? then 1 else 0
  }

  ghost predicate UsesLogged(s: State, i: nat)
    requires i < |s.leases|
  {
    Count(s.log, YieldOf(i)) == s.leases[i].useCount <= s.leases[i].maxUses
  }

  /** Openings and uses happen before every expiry that applies, and revocation is remembered. */
  ghost predicate EventSound(s: State, e: Event) {
    match e
    case SessionOpened(i, at) => i < |s.sessions| && s.sessions[i].ticket.Some?
                                 && at < s.sessions[i].ticket.value.expiresAt && at < s.sessions[i].expiresAt
    case SecretYielded(i, at) => i < |s.leases| && at < s.leases[i].expiresAt
    case LeaseRevoked(i, _) => i < |s.leases| && s.leases[i].revokedAt.Some?
    case _ => true
  }

  /** The log grows by at most one event. */
  ghost predicate LogStep(s: State, n: State) {
    n.log == s.log || (|n.log| == |s.log| + 1 && n.log == s.log + [n.log[|s.log|]])
  }

  ghost predicate Logs(s: State, n: State, p: Event -> bool) {
    |n.log| == |s.log| + 1 && p(n.log[|s.log|])
  }

  /** How one session row goes on: opened in time by a logged event, or not opened by this step. */
  ghost predicate SessionRowStep(s: State, n: State, i: nat)
    requires i < |n.sessions|
  {
    && S.Coherent(n.sessions[i])
    && (Logs(s, n, OpeningOf(i)) ==>
          && n.sessions[i].ticket.Some? && n.sessions[i].startedAt.Some?
          && n.log[|s.log|].at < n.sessions[i].ticket.value.expiresAt && n.log[|s.log|].at < n.sessions[i].expiresAt)
    && if i < |s.sessions| then
         && S.Evolves(s.sessions[i], n.sessions[i])
         && (s.sessions[i].ticket.Some? ==> n.sessions[i].ticket.value.expiresAt == s.sessions[i].ticket.value.expiresAt)
         && (Logs(s, n, OpeningOf(i)) ==> s.sessions[i].startedAt.None?)
         && (!Logs(s, n, OpeningOf(i)) ==> n.sessions[i].startedAt == s.sessions[i].startedAt)
       else
         !Logs(s, n, OpeningOf(i)) && (n.sessions[i].ticket.Some? ==> n.sessions[i].startedAt.None?)
  }

  /** The step works on session row `i`. */
  predicate Targets(step: Step, i: nat) {
    (step.ConsumeTicket? || step.CloseSession? || step.TerminateSession?) && step.session == i
  }

  lemma OtherSessionRows(policies: seq<Policy>, s: State, step: Step, i: nat)
    requires !Targets(step, i) && i < |Next(s, policies, step).sessions|
    ensures var n := Next(s, policies, step);
            && !Logs(s, n, OpeningOf(i))
            && (i < |s.sessions| ==> n.sessions[i] == s.sessions[i])
            && (i >= |s.sessions| ==> S.Coherent(n.sessions[i]) && (n.sessions[i].ticket.Some? ==> n.sessions[i].startedAt.None?))
  {
  }

  lemma TargetedSessionRow(policies: seq<Policy>, s: State, step: Step, i: nat)
    requires i < |s.sessions| && S.Coherent(s.sessions[i]) && Targets(step, i)
    ensures i < |Next(s, policies, step).sessions| && SessionRowStep(s, Next(s, policies, step), i)
  {
    match step {
      case ConsumeTicket(_, tokenMatches, user, ip, now) => S.OneSessionSteps(s.sessions[i], tokenMatches, user, ip, true, now);
      case CloseSession(_, failed, now) => S.OneSessionSteps(s.sessions[i], true, 0, None, failed, now);
      case TerminateSession(_, now) => S.OneSessionSteps(s.sessions[i], true, 0, None, true, now);
    }
  }

  lemma SessionRowSteps(policies: seq<Policy>, s: State, step: Step, n: State, i: nat)
    requires i < |s.sessions| ==> S.Coherent(s.sessions[i])
    requires n == Next(s, policies, step) && i < |n.sessions|
    ensures SessionRowStep(s, n, i)
  {
    if Targets(step, i) {
      StepChangesSessions(policies, s, step);
      TargetedSessionRow(policies, s, step, i);
    } else {
      OtherSessionRows(policies, s, step, i);
    }
  }

  ghost predicate LeaseRowStep(s: State, n: State, i: nat)
    requires i < |n.leases|
  {
    && n.leases[i].useCount <= n.leases[i].maxUses
    && (Logs(s, n, YieldOf(i)) ==> n.log[|s.log|].at < n.leases[i].expiresAt)
    && if i < |s.leases| then
         && n.leases[i].expiresAt == s.leases[i].expiresAt
         && n.leases[i].useCount == s.leases[i].useCount + (if Logs(s, n, YieldOf(i)) then 1 else 0)
         && (s.leases[i].revokedAt.Some? ==> n.leases[i].revokedAt.Some? && !Logs(s, n, YieldOf(i)))
         && (|n.log| > |s.log| && n.log[|s.log|].LeaseRevoked? && n.log[|s.log|].lease == i ==> n.leases[i].revokedAt.Some?)
       else
         n.leases[i].useCount == 0 && !Logs(s, n, YieldOf(i))
  }

  lemma LeaseRowSteps(policies: seq<Policy>, s: State, step: Step, i: nat)
    requires i < |s.leases| ==> s.leases[i].useCount <= s.leases[i].maxUses
    requires i < |Next(s, policies, step).leases|
    ensures LeaseRowStep(s, Next(s, policies, step), i)
  {
  }

  lemma OpeningsStayLogged(s: State, n: State, i: nat)
    requires RowsMatchLog(s) && LogStep(s, n) && i < |n.sessions| && SessionRowStep(s, n, i)
    ensures OpeningsLogged(n, i)
  {
    if n.log != s.log {
      CountAppend(s.log, n.log[|s.log|], OpeningOf(i));
    }
    if i < |s.sessions| {
      assert OpeningsLogged(s, i);
    } else {
      forall e | 0 <= e < |s.log|
        ensures !OpeningOf(i)(s.log[e])
      {
        assert EventSound(s, s.log[e]);
      }
      CountNone(s.log, OpeningOf(i));
    }
  }

  lemma UsesStayLogged(s: State, n: State, i: nat)
    requires RowsMatchLog(s) && LogStep(s, n) && i < |n.leases| && LeaseRowStep(s, n, i)
    ensures UsesLogged(n, i)
  {
    if n.log != s.log {
      CountAppend(s.log, n.log[|s.log|], YieldOf(i));
    }
    if i < |s.leases| {
      assert UsesLogged(s, i);
    } else {
      forall e | 0 <= e < |s.log|
        ensures !YieldOf(i)(s.log[e])
      {
        assert EventSound(s, s.log[e]);
      }
      CountNone(s.log, YieldOf(i));
    }
  }

  lemma EventsStaySound(s: State, n: State, e: nat)
    requires RowsMatchLog(s) && LogStep(s, n) && e < |s.log| <= |n.log|
    requires |s.sessions| <= |n.sessions| && |s.leases| <= |n.leases|
    requires forall i :: 0 <= i < |n.sessions| ==> SessionRowStep(s, n, i)
    requires forall i :: 0 <= i < |n.leases| ==> LeaseRowStep(s, n, i)
    ensures EventSound(n, n.log[e])
  {
    assert n.log[e] == s.log[e] && EventSound(s, s.log[e]);
    match s.log[e] {
      case SessionOpened(i, at) => assert SessionRowStep(s, n, i);
      case SecretYielded(i, at) => assert LeaseRowStep(s, n, i);
      case LeaseRevoked(i, at) => assert LeaseRowStep(s, n, i);
      case _ =>
    }
  }

  lemma TablesGrow(policies: seq<Policy>, s: State, step: Step)
    ensures var n := Next(s, policies, step);
            && LogStep(s, n) && |s.sessions| <= |n.sessions| && |s.leases| <= |n.leases|
            && (n.log != s.log ==> EventInRange(s, n.log[|s.log|]))
  {
  }

  ghost predicate EventInRange(s: State, e: Event) {
    match e
    case SessionOpened(i, _) => i < |s.sessions|
    case SecretYielded(i, _) => i < |s.leases|
    case LeaseRevoked(i, _) => i < |s.leases|
    case _ => true
  }

  lemma RowsFollow(s: State, n: State)
    requires RowsMatchLog(s) && LogStep(s, n)
    requires |s.sessions| <= |n.sessions| && |s.leases| <= |n.leases|
    requires n.log != s.log ==> EventInRange(s, n.log[|s.log|])
    requires forall i :: 0 <= i < |n.sessions| ==> SessionRowStep(s, n, i)
    requires forall i :: 0 <= i < |n.leases| ==> LeaseRowStep(s, n, i)
    ensures RowsMatchLog(n)
  {
    forall i | 0 <= i < |n.sessions|
      ensures S.Coherent(n.sessions[i]) && OpeningsLogged(n, i)
    {
      assert SessionRowStep(s, n, i);
      OpeningsStayLogged(s, n, i);
    }
    forall i | 0 <= i < |n.leases|
      ensures UsesLogged(n, i)
    {
      UsesStayLogged(s, n, i);
    }
    forall e | 0 <= e < |n.log|
      ensures EventSound(n, n.log[e])
    {
      if e < |s.log| {
        EventsStaySound(s, n, e);
      } else {
        NewEventSound(s, n);
      }
    }
  }

  lemma NewEventSound(s: State, n: State)
    requires LogStep(s, n) && n.log != s.log && EventInRange(s, n.log[|s.log|])
    requires |s.sessions| <= |n.sessions| && |s.leases| <= |n.leases|
    requires forall i :: 0 <= i < |n.sessions| ==> SessionRowStep(s, n, i)
    requires forall i :: 0 <= i < |n.leases| ==> LeaseRowStep(s, n, i)
    ensures EventSound(n, n.log[|s.log|])
  {
    match n.log[|s.log|] {
      case SessionOpened(i, at) => assert SessionRowStep(s, n, i) && Logs(s, n, OpeningOf(i));
      case SecretYielded(i, at) => assert LeaseRowStep(s, n, i) && Logs(s, n, YieldOf(i));
      case LeaseRevoked(i, at) => assert LeaseRowStep(s, n, i);
      case _ =>
    }
  }

  lemma RowsKept(policies: seq<Policy>, s: State, step: Step)
    requires RowsMatchLog(s)
    ensures RowsMatchLog(Next(s, policies, step))
  {
    var n := Next(s, policies, step);
    TablesGrow(policies, s, step);
    forall i | 0 <= i < |n.sessions|
      ensures SessionRowStep(s, n, i)
    {
      SessionRowSteps(policies, s, step, n, i);
    }
    forall i | 0 <= i < |n.leases|
      ensures LeaseRowStep(s, n, i)
    {
      assert i < |s.leases| ==> UsesLogged(s, i);
      LeaseRowSteps(policies, s, step, i);
    }
    RowsFollow(s, n);
  }

  /** Over every run each ticket opens at most once and in time, and each lease is used at most `maxUses` times, in time. */
  lemma {:induction false} TicketsOpenOnceLeasesAreBounded(policies: seq<Policy>, steps: seq<Step>)
    ensures RowsMatchLog(Run(policies, steps))
  {
    if steps != [] {
      TicketsOpenOnceLeasesAreBounded(policies, steps[..|steps| - 1]);
      RowsKept(policies, Run(policies, steps[..|steps| - 1]), steps[|steps| - 1]);
    }
  }

  /** A closed or failed session never changes again, however the run goes on. */
  lemma {:induction false} EndedSessionsStayEnded(policies: seq<Policy>, s: State, more: seq<Step>, i: nat)
    requires RowsMatchLog(s) && i < |s.sessions| && S.Terminal(s.sessions[i])
    ensures var n := RunFrom(s, policies, more);
            RowsMatchLog(n) && i < |n.sessions| && n.sessions[i] == s.sessions[i]
  {
    if more != [] {
      var k := |more| - 1;
      var before, n := RunFrom(s, policies, more[..k]), RunFrom(s, policies, more);
      EndedSessionsStayEnded(policies, s, more[..k], i);
      RowsKept(policies, before, more[k]);
      SessionsEvolve(before, policies, more[k], i);
      SessionRowSteps(policies, before, more[k], n, i);
    }
  }

  /** Once a lease is revoked its secret is never yielded again. */
  lemma {:induction false} RevokedLeasesYieldNothing(policies: seq<Policy>, s: State, more: seq<Step>, i: nat)
    requires RowsMatchLog(s) && i < |s.leases| && s.leases[i].revokedAt.Some?
    ensures var n := RunFrom(s, policies, more);
            && RowsMatchLog(n) && i < |n.leases| && n.leases[i].revokedAt.Some?
            && Count(n.log, YieldOf(i)) == Count(s.log, YieldOf(i))
  {
    if more != [] {
      var k := |more| - 1;
      var before, n := RunFrom(s, policies, more[..k]), RunFrom(s, policies, more);
      RevokedLeasesYieldNothing(policies, s, more[..k], i);
      RowsKept(policies, before, more[k]);
      LeasesEvolve(before, policies, more[k], i);
      assert UsesLogged(before, i) && UsesLogged(n, i);
      LeaseRowSteps(policies, before, more[k], i);
    }
  }
}
