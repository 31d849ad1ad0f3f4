/** Access policies: who may do what on which target, when and from where. */
module Policies {
  import opened Common

  type Id = nat

  datatype Action = RequestAccess | StartSession | ViewSecret | RevealTotp | ApproveRequest | ManageTargets
  datatype Protocol = Ssh | Rdp | Web | Vnc | Telnet | RawTcp

  datatype Target = Target(id: Id, protocol: Protocol, enabled: bool)
  datatype Credential = Credential(id: Id, target: Target, checkoutEnabled: bool)
  datatype Group = Group(enabled: bool, members: set<Id>)

  datatype TimeFrame = TimeFrame(
    enabled: bool,
    weekdays: set<nat>,
    start: Option<nat>,
    end: Option<nat>,
    validFrom: Option<int>,
    validUntil: Option<int>)

  datatype Policy = Policy(
    enabled: bool,
    userGroups: set<Id>,
    targets: set<Id>,
    targetGroups: set<Id>,
    credentials: set<Id>,
    approverGroups: set<Id>,
    actions: set<Action>,
    protocols: set<Protocol>,
    requiresApproval: bool,
    approvalQuorum: nat,
    requiresMfa: bool,
    maxDurationMinutes: nat,
    maxConcurrentSessions: nat,
    timeFrames: seq<TimeFrame>,
    validFrom: Option<int>,
    validUntil: Option<int>,
    weekdays: set<nat>,
    accessStart: Option<nat>,
    accessEnd: Option<nat>,
    sourceCidrs: seq<string>)

  /** Address parsing and network membership, as the `ipaddress` library answers them. */
  datatype Network = Network(isAddress: string -> bool, isCidr: string -> bool, contains: (string, string) -> bool)

  /** A policy is named by its position in the table. */
  datatype World = World(policies: seq<Policy>, userGroups: map<Id, Group>, targetGroups: map<Id, Group>, network: Network)

  /** An instant with its local weekday and time of day. */
  datatype Moment = Moment(at: int, weekday: nat, timeOfDay: nat)

  /** Who asks, when and from where. */
  datatype Caller = Caller(user: Id, authenticated: bool, moment: Moment, sourceIp: Option<string>)

  const SECONDS_PER_DAY := 86400

  predicate InEnabledGroup(groups: map<Id, Group>, ids: set<Id>, member: Id) {
    exists g :: g in ids && g in groups && groups[g].enabled && member in groups[g].members
  }

  predicate ClockIsCurrent(time: nat, start: Option<nat>, end: Option<nat>) {
    if start.Some? && end.Some? then
      if start.value <= end.value then start.value <= time < end.value
      else time >= start.value || time < end.value
    else if start.Some? then time >= start.value
    else if end.Some? then time < end.value
    else true
  }

  predicate InPeriod(at: int, from: Option<int>, until: Option<int>) {
    !(from.Some? && at < from.value) && !(until.Some? && at >= until.value)
  }

  predicate OnWeekday(m: Moment, weekdays: set<nat>) {
    weekdays == {} || m.weekday in weekdays
  }

  predicate TimeFrameIsCurrent(f: TimeFrame, m: Moment) {
    InPeriod(m.at, f.validFrom, f.validUntil) && OnWeekday(m, f.weekdays) && ClockIsCurrent(m.timeOfDay, f.start, f.end)
  }

  /** Enabled time frames replace the policy's own schedule. */
  predicate ScheduleIsCurrent(p: Policy, m: Moment) {
    if exists i :: 0 <= i < |p.timeFrames| && p.timeFrames[i].enabled
    then exists i :: 0 <= i < |p.timeFrames| && p.timeFrames[i].enabled && TimeFrameIsCurrent(p.timeFrames[i], m)
    else OnWeekday(m, p.weekdays) && ClockIsCurrent(m.timeOfDay, p.accessStart, p.accessEnd)
  }

  /** One unreadable network refuses every address. */
  predicate SourceIsAllowed(net: Network, p: Policy, ip: Option<string>) {
    || p.sourceCidrs == []
    || (&& ip.Some? && ip.value != "" && net.isAddress(ip.value)
        && (forall i :: 0 <= i < |p.sourceCidrs| ==> net.isCidr(p.sourceCidrs[i]))
        && exists i :: 0 <= i < |p.sourceCidrs| && net.contains(ip.value, p.sourceCidrs[i]))
  }

  predicate PolicyIsCurrent(w: World, p: Policy, caller: Caller) {
    && InPeriod(caller.moment.at, p.validFrom, p.validUntil)
    && ScheduleIsCurrent(p, caller.moment)
    && SourceIsAllowed(w.network, p, caller.sourceIp)
  }

  predicate AppliesTo(w: World, p: Policy, caller: Caller) {
    caller.authenticated && p.enabled && InEnabledGroup(w.userGroups, p.userGroups, caller.user)
  }

  predicate Allowing(w: World, p: Policy, caller: Caller, action: Action) {
    AppliesTo(w, p, caller) && action in p.actions && PolicyIsCurrent(w, p, caller)
  }

  predicate Covers(w: World, p: Policy, target: Id) {
    target in p.targets || InEnabledGroup(w.targetGroups, p.targetGroups, target)
  }

  predicate AllowsCredential(p: Policy, cred: Credential) {
    && (p.protocols == {} || cred.target.protocol in p.protocols)
    && (p.credentials == {} || cred.id in p.credentials)
  }

  /** The condition of `credential_allows_action` for one policy. */
  predicate Permits(w: World, p: Policy, caller: Caller, cred: Credential, action: Action) {
    Allowing(w, p, caller, action) && Covers(w, p, cred.target.id) && AllowsCredential(p, cred)
  }

  method PoliciesAllowing(w: World, caller: Caller, action: Action) returns (ids: seq<nat>)
    ensures forall k: nat :: k in ids <==> k < |w.policies| && Allowing(w, w.policies[k], caller, action)
    ensures forall i, j :: 0 <= i < j < |ids| ==> ids[i] < ids[j]
  {
    ids := [];
    for n := 0 to |w.policies|
      invariant forall k: nat :: k in ids <==> k < n && Allowing(w, w.policies[k], caller, action)
      invariant forall i, j :: 0 <= i < j < |ids| ==> ids[i] < ids[j]
    {
      if Allowing(w, w.policies[n], caller, action) {
        assert forall i :: 0 <= i < |ids| ==> ids[i] in ids;
        ids := ids + [n];
      }
    }
  }

  method CredentialAllowsAction(w: World, caller: Caller, cred: Credential, action: Action) returns (allowed: bool)
    ensures allowed <==> exists k :: 0 <= k < |w.policies| && Permits(w, w.policies[k], caller, cred, action)
  {
    var ids := PoliciesAllowing(w, caller, action);
    allowed := false;
    for n := 0 to |ids|
      invariant forall i :: 0 <= i < n ==> ids[i] in ids && !Permits(w, w.policies[ids[i]], caller, cred, action)
    {
      assert ids[n] in ids;
      var p := w.policies[ids[n]];
      if Covers(w, p, cred.target.id) && AllowsCredential(p, cred) {
        assert Permits(w, w.policies[ids[n]], caller, cred, action);
        return true;
      }
    }
    forall k | 0 <= k < |w.policies|
      ensures !Permits(w, w.policies[k], caller, cred, action)
    {
      if Allowing(w, w.policies[k], caller, action) {
        var i :| 0 <= i < |ids| && ids[i] == k;
      }
    }
  }

  /** What one policy contributes to `actions_for_target`. */
  predicate Contributes(w: World, p: Policy, caller: Caller, target: Target) {
    && AppliesTo(w, p, caller) && PolicyIsCurrent(w, p, caller)
    && (p.protocols == {} || target.protocol in p.protocols)
    && Covers(w, p, target.id)
  }

  ghost predicate Offered(w: World, caller: Caller, target: Target, action: Action) {
    exists k :: 0 <= k < |w.policies| && Contributes(w, w.policies[k], caller, target) && action in w.policies[k].actions
  }

  method ActionsForTarget(w: World, caller: Caller, target: Target) returns (actions: set<Action>)
    ensures forall a :: a in actions <==> Offered(w, caller, target, a)
  {
    actions := {};
    for n := 0 to |w.policies|
      invariant forall a :: a in actions <==>
                  exists k :: 0 <= k < n && Contributes(w, w.policies[k], caller, target) && a in w.policies[k].actions
    {
      if Contributes(w, w.policies[n], caller, target) {
        actions := actions + w.policies[n].actions;
      }
    }
  }

  /** A permitted action is among the offered ones. */
  lemma PermittedActionsAreOffered(w: World, k: nat, caller: Caller, cred: Credential, action: Action)
    requires k < |w.policies| && Permits(w, w.policies[k], caller, cred, action)
    ensures Offered(w, caller, cred.target, action)
  {
    assert Contributes(w, w.policies[k], caller, cred.target);
  }

  /** A policy inserted anywhere in the table takes nothing away. */
  lemma AddingPoliciesKeepsActions(w: World, at: nat, extra: Policy, caller: Caller, cred: Credential, action: Action)
    requires at <= |w.policies|
    ensures var more := w.(policies := w.policies[..at] + [extra] + w.policies[at..]);
            && (Offered(w, caller, cred.target, action) ==> Offered(more, caller, cred.target, action))
            && ((exists k :: 0 <= k < |w.policies| && Permits(w, w.policies[k], caller, cred, action)) ==>
                exists k :: 0 <= k < |more.policies| && Permits(more, more.policies[k], caller, cred, action))
  {
    var more := w.(policies := w.policies[..at] + [extra] + w.policies[at..]);
    forall k | 0 <= k < |w.policies|
      ensures var m := if k < at then k else k + 1; more.policies[m] == w.policies[k]
    {
    }
    if k :| 0 <= k < |w.policies| && Permits(w, w.policies[k], caller, cred, action) {
      var m := if k < at then k else k + 1;
      assert Permits(more, more.policies[m], caller, cred, action);
    }
    if k :| 0 <= k < |w.policies| && Contributes(w, w.policies[k], caller, cred.target) && action in w.policies[k].actions {
      var m := if k < at then k else k + 1;
      assert Contributes(more, more.policies[m], caller, cred.target);
    }
  }

  /** With both ends given, a daily window is an arc of the clock face, midnight or not. */
  lemma ClockWindowIsCircular(time: nat, start: nat, end: nat)
    requires time < SECONDS_PER_DAY && start < SECONDS_PER_DAY && end < SECONDS_PER_DAY
    ensures ClockIsCurrent(time, Some(start), Some(end)) <==>
              (time - start) % SECONDS_PER_DAY < (end - start) % SECONDS_PER_DAY
  {
    ModuloOneDay(time - start);
    ModuloOneDay(end - start);
  }

  lemma ModuloOneDay(d: int)
    requires -SECONDS_PER_DAY < d < SECONDS_PER_DAY
    ensures d % SECONDS_PER_DAY == if d >= 0 then d else d + SECONDS_PER_DAY
  {
  }
}
