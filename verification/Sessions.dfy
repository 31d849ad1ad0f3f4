/** Privileged sessions and their one-use tickets, under a quota per user, target and policy. */
module Sessions {
  import opened Common
  import opened Policies

  datatype Status = Created | Active | Terminating | Closed | Failed

  datatype Ticket = Ticket(expiresAt: int, consumedAt: Option<int>, revokedAt: Option<int>, sourceIp: Option<string>)

  /** The quota is counted per key. */
  datatype Key = Key(user: Id, target: Id, policy: nat)

  datatype Session = Session(
    key: Key,
    credential: Id,
    request: Option<nat>,
    status: Status,
    expiresAt: int,
    startedAt: Option<int>,
    endedAt: Option<int>,
    ticket: Option<Ticket>)

  datatype Refusal = InvalidTicket | TicketSpent | OtherUser | NotOpenable | SessionExpired | AddressChanged | QuotaReached

  const MINUTE := 60

  predicate Terminal(s: Session) {
    s.status == Closed || s.status == Failed
  }

  predicate Live(s: Session) {
    s.status == Active || s.status == Terminating
  }

  predicate TicketLive(t: Ticket, now: int) {
    t.expiresAt > now && t.consumedAt.None? && t.revokedAt.None?
  }

  /** Sessions that run, for a key. */
  function Running(key: Key): Session -> bool {
    (s: Session) => s.key == key && Live(s)
  }

  /** Sessions that hold a place: running, or reserved by a ticket that can still be used. */
  function Occupying(key: Key, now: int): Session -> bool {
    (s: Session) => s.key == key && (Live(s) || (s.status == Created && s.ticket.Some? && TicketLive(s.ticket.value, now)))
  }

  function ActiveSessionCount(sessions: seq<Session>, key: Key, now: int): nat {
    Count(sessions, Occupying(key, now))
  }

  // ----- opening a session -----

  /** The granted duration: the policy's, cut to what was requested. */
  function Duration(p: Policy, requestedMinutes: Option<nat>): nat {
    if requestedMinutes.Some? then Min(p.maxDurationMinutes, requestedMinutes.value) else p.maxDurationMinutes
  }

  function TicketSession(key: Key, credential: Id, request: Option<nat>, now: int, minutes: nat, lifetime: nat, ip: Option<string>): Session {
    Session(key, credential, request, Created, now + MINUTE * minutes, None, None,
            Some(Ticket(now + lifetime, None, None, ip)))
  }

  function WebSession(key: Key, credential: Id, request: Option<nat>, now: int, minutes: nat): Session {
    Session(key, credential, request, Active, now + MINUTE * minutes, Some(now), None, None)
  }

  // ----- using the ticket -----

  /** Running sessions of the same key, this one excluded. */
  function OtherRunning(sessions: seq<Session>, i: nat): nat
    requires i < |sessions|
  {
    Count(sessions[..i], Running(sessions[i].key)) + Count(sessions[i + 1..], Running(sessions[i].key))
  }

  /** The checks before the quota is counted again. */
  function TicketRefusal(s: Session, tokenMatches: bool, user: Id, ip: Option<string>, now: int): Option<Refusal> {
    if s.ticket.None? || !tokenMatches then Some(InvalidTicket)
    else
      var t := s.ticket.value;
      if t.revokedAt.Some? || t.consumedAt.Some? || t.expiresAt <= now then Some(TicketSpent)
      else if s.key.user != user then Some(OtherUser)
      else if s.status != Created then Some(NotOpenable)
      else if s.expiresAt <= now then Some(SessionExpired)
      else if t.sourceIp.Some? && ip.Some? && t.sourceIp != ip then Some(AddressChanged)
      else None
  }

  function ConsumeRefusal(sessions: seq<Session>, i: nat, tokenMatches: bool, user: Id, ip: Option<string>, now: int, limit: nat):
      Option<Refusal>
    requires i < |sessions|
  {
    var refusal := TicketRefusal(sessions[i], tokenMatches, user, ip, now);
    if refusal.Some? then refusal
    else if OtherRunning(sessions, i) >= limit then Some(QuotaReached)
    else None
  }

  function Opened(s: Session, now: int): Session {
    if s.ticket.None? then s
    else s.(status := Active, startedAt := Some(now), ticket := Some(s.ticket.value.(consumedAt := Some(now))))
  }

  // ----- ending a session -----

  function Ended(s: Session, failed: bool, now: int): Session {
    if Terminal(s) then s else s.(status := if failed then Failed else Closed, endedAt := Some(now))
  }

  function RevokeUnused(t: Option<Ticket>, now: int): Option<Ticket> {
    if t.Some? && t.value.consumedAt.None? && t.value.revokedAt.None? then Some(t.value.(revokedAt := Some(now))) else t
  }

  function TerminationRequested(s: Session, now: int): Session {
    if Terminal(s) then s
    else if s.status == Created then s.(status := Closed, endedAt := Some(now), ticket := RevokeUnused(s.ticket, now))
    else s.(status := Terminating)
  }

  // ----- the life of one session -----

  /** What the columns of a row say about each other. */
  ghost predicate Coherent(s: Session) {
    && (s.endedAt.Some? <==> Terminal(s))
    && (s.status == Created ==> s.startedAt.None? && s.ticket.Some? && s.ticket.value.consumedAt.None? && s.ticket.value.revokedAt.None?)
    && (Live(s) ==> s.startedAt.Some?)
    && (s.ticket.Some? ==> TicketCoherent(s, s.ticket.value))
  }

  ghost predicate TicketCoherent(s: Session, t: Ticket) {
    && !(t.consumedAt.Some? && t.revokedAt.Some?)
    && (t.consumedAt.Some? ==> t.consumedAt.value < t.expiresAt && t.consumedAt.value < s.expiresAt)
    && (t.consumedAt.Some? <==> s.startedAt.Some?)
  }

  /** Between two moments of its life a session keeps its key, and what is final stays final. */
  ghost predicate Evolves(before: Session, after: Session) {
    && after.key == before.key && after.credential == before.credential && after.request == before.request
    && after.expiresAt == before.expiresAt
    && (Terminal(before) ==> after == before)
    && (before.startedAt.Some? ==> after.startedAt == before.startedAt)
    && (before.ticket.Some? <==> after.ticket.Some?)
  }

  lemma OneSessionSteps(s: Session, tokenMatches: bool, user: Id, ip: Option<string>, failed: bool, now: int)
    requires Coherent(s)
    ensures TicketRefusal(s, tokenMatches, user, ip, now).None? ==>
              && Coherent(Opened(s, now)) && Evolves(s, Opened(s, now))
              && now < s.ticket.value.expiresAt && now < s.expiresAt && s.startedAt.None?
    ensures Coherent(Ended(s, failed, now)) && Evolves(s, Ended(s, failed, now))
    ensures Coherent(TerminationRequested(s, now)) && Evolves(s, TerminationRequested(s, now))
  {
  }

  // ----- the quota -----

  /** Time only frees places. */
  lemma PlacesExpire(sessions: seq<Session>, key: Key, now: int, later: int)
    requires now <= later
    ensures ActiveSessionCount(sessions, key, later) <= ActiveSessionCount(sessions, key, now)
  {
    CountMonotone(sessions, Occupying(key, later), Occupying(key, now));
  }

  lemma RunningOccupy(sessions: seq<Session>, key: Key, now: int)
    ensures Count(sessions, Running(key)) <= ActiveSessionCount(sessions, key, now)
  {
    CountMonotone(sessions, Running(key), Occupying(key, now));
  }

  /** Replacing a session by one that holds a place only if it already did keeps every count down. */
  lemma ReplaceKeepsPlaces(sessions: seq<Session>, i: nat, s: Session, key: Key, now: int)
    requires i < |sessions| && s.key == sessions[i].key
    requires Occupying(s.key, now)(s) ==> Occupying(s.key, now)(sessions[i])
    ensures ActiveSessionCount(sessions[i := s], key, now) <= ActiveSessionCount(sessions, key, now)
  {
    CountUpdate(sessions, i, s, Occupying(key, now));
  }

  lemma ReplaceKeepsRunning(sessions: seq<Session>, i: nat, s: Session, key: Key)
    requires i < |sessions| && s.key == sessions[i].key
    requires Live(s) ==> Live(sessions[i])
    ensures Count(sessions[i := s], Running(key)) <= Count(sessions, Running(key))
  {
    CountUpdate(sessions, i, s, Running(key));
  }

  /** A session that still holds its place is not among those running, so the others leave room for it. */
  lemma ReservedPlaceIsFree(sessions: seq<Session>, i: nat, now: int, limit: nat)
    requires i < |sessions| && sessions[i].status == Created && sessions[i].ticket.Some? && TicketLive(sessions[i].ticket.value, now)
    requires ActiveSessionCount(sessions, sessions[i].key, now) <= limit
    ensures OtherRunning(sessions, i) < limit
  {
    var key := sessions[i].key;
    var without := sessions[i := sessions[i].(status := Closed)];
    CountUpdate(sessions, i, without[i], Occupying(key, now));
    RunningOccupy(without, key, now);
    CountUpdate(sessions, i, without[i], Running(key));
    CountAround(sessions, i, Running(key));
  }

  class SessionTable {
    var sessions: seq<Session>

    constructor ()
      ensures sessions == []
    {
      sessions := [];
    }

    /** After the authorization: count under the policy lock, then reserve a place. */
    method IssueTicket(p: Policy, key: Key, credential: Id, request: Option<nat>, requestedMinutes: Option<nat>,
                       lifetime: nat, ip: Option<string>, now: int)
      returns (issued: Option<nat>)
      modifies this
      ensures issued.Some? <==> ActiveSessionCount(old(sessions), key, now) < p.maxConcurrentSessions
      ensures issued.None? ==> sessions == old(sessions)
      ensures issued.Some? ==> issued.value == |old(sessions)|
      ensures issued.Some? ==>
                sessions == old(sessions) + [TicketSession(key, credential, request, now, Duration(p, requestedMinutes), lifetime, ip)]
    {
      var concurrent := ActiveSessionCount(sessions, key, now);
      if concurrent >= p.maxConcurrentSessions {
        return None;
      }
      var minutes := p.maxDurationMinutes;
      if requestedMinutes.Some? {
        minutes := Min(minutes, requestedMinutes.value);
      }
      issued := Some(|sessions|);
      sessions := sessions + [TicketSession(key, credential, request, now, minutes, lifetime, ip)];
    }

    method StartWebSession(p: Policy, key: Key, credential: Id, request: Option<nat>, requestedMinutes: Option<nat>, now: int)
      returns (started: Option<nat>)
      modifies this
      ensures started.Some? <==> ActiveSessionCount(old(sessions), key, now) < p.maxConcurrentSessions
      ensures started.None? ==> sessions == old(sessions)
      ensures started.Some? ==> started.value == |old(sessions)|
      ensures started.Some? ==>
                sessions == old(sessions) + [WebSession(key, credential, request, now, Duration(p, requestedMinutes))]
    {
      if ActiveSessionCount(sessions, key, now) >= p.maxConcurrentSessions {
        return None;
      }
      var minutes := p.maxDurationMinutes;
      if requestedMinutes.Some? {
        minutes := Min(minutes, requestedMinutes.value);
      }
      started := Some(|sessions|);
      sessions := sessions + [WebSession(key, credential, request, now, minutes)];
    }

    method ConsumeTicket(i: nat, tokenMatches: bool, user: Id, ip: Option<string>, now: int, limit: nat)
      returns (refusal: Option<Refusal>)
      requires i < |sessions|
      modifies this
      ensures refusal == ConsumeRefusal(old(sessions), i, tokenMatches, user, ip, now, limit)
      ensures sessions == if refusal.Some? then old(sessions) else old(sessions)[i := Opened(old(sessions[i]), now)]
    {
      var session := sessions[i];
      if session.ticket.None? || !tokenMatches {
        return Some(InvalidTicket);
      }
      var ticket := session.ticket.value;
      if ticket.revokedAt.Some? || ticket.consumedAt.Some? || ticket.expiresAt <= now {
        return Some(TicketSpent);
      }
      if session.key.user != user {
        return Some(OtherUser);
      }
      if session.status != Created {
        return Some(NotOpenable);
      }
      if session.expiresAt <= now {
        return Some(SessionExpired);
      }
      if ticket.sourceIp.Some? && ip.Some? && ticket.sourceIp != ip {
        return Some(AddressChanged);
      }
      if OtherRunning(sessions, i) >= limit {
        return Some(QuotaReached);
      }
      session := session.(ticket := Some(ticket.(consumedAt := Some(now))));
      session := session.(status := Active, startedAt := Some(now));
      sessions := sessions[i := session];
      return None;
    }

    method CloseSession(i: nat, failed: bool, now: int)
      requires i < |sessions|
      modifies this
      ensures sessions == old(sessions)[i := Ended(old(sessions[i]), failed, now)]
    {
      var locked := sessions[i];
      if locked.status == Closed || locked.status == Failed {
        return;
      }
      locked := locked.(status := if failed then Failed else Closed);
      sessions := sessions[i := locked.(endedAt := Some(now))];
    }

    method RequestTermination(i: nat, now: int) returns (notifyGateway: bool)
      requires i < |sessions|
      modifies this
      ensures sessions == old(sessions)[i := TerminationRequested(old(sessions[i]), now)]
      ensures notifyGateway <==> Live(old(sessions[i]))
    {
      var locked := sessions[i];
      if locked.status == Closed || locked.status == Failed {
        return false;
      }
      notifyGateway := locked.status != Created;
      if locked.status == Created {
        locked := locked.(ticket := RevokeUnused(locked.ticket, now), status := Closed, endedAt := Some(now));
      } else {
        locked := locked.(status := Terminating);
      }
      sessions := sessions[i := locked];
    }
  }
}

/** Secret leases: short tokens that yield a secret a bounded number of times. */
module Leases {
  import opened Common
  import opened Policies
  import opened Approvals
  import opened Authorization

  datatype Purpose = Reveal | ForSession | ForRotation

  datatype Lease = Lease(
    credential: Id,
    user: Id,
    target: Id,
    policy: nat,
    request: Option<nat>,
    purpose: Purpose,
    expiresAt: int,
    maxUses: nat,
    useCount: nat,
    consumedAt: Option<int>,
    revokedAt: Option<int>)

  /** The action a purpose needs. */
  function ActionFor(purpose: Purpose): Action {
    if purpose == ForSession then StartSession else ViewSecret
  }

  predicate Acceptable(justified: bool, cred: Credential, lifetime: nat) {
    justified && cred.checkoutEnabled && cred.target.enabled && 15 <= lifetime <= 300
  }

  function NewLease(cred: Credential, user: Id, grant: Grant, purpose: Purpose, now: int, lifetime: nat): Lease {
    Lease(cred.id, user, cred.target.id, grant.policy, grant.request, purpose, now + lifetime, 1, 0, None, None)
  }

  predicate Usable(l: Lease, now: int) {
    l.revokedAt.None? && l.expiresAt > now && l.useCount < l.maxUses
  }

  predicate MayConsume(l: Lease, user: Option<Id>, purpose: Option<Purpose>, now: int) {
    && Usable(l, now)
    && (user.None? || user.value == l.user)
    && (purpose.None? || purpose.value == l.purpose)
  }

  function Consumed(l: Lease, now: int): Lease {
    l.(useCount := l.useCount + 1, consumedAt := Some(now))
  }

  function RevokedLease(l: Lease, now: int): Lease {
    if l.revokedAt.Some? then l else l.(revokedAt := Some(now))
  }

  class LeaseTable {
    var leases: seq<Lease>

    constructor ()
      ensures leases == []
    {
      leases := [];
    }

    method IssueLease(w: World, requests: seq<Request>, caller: Caller, cred: Credential, mfa: Mfa, justified: bool,
                      purpose: Purpose, lifetime: nat)
      returns (issued: Option<nat>)
      modifies this
      ensures var grant := Authorized(w, requests, caller, cred, ActionFor(purpose), mfa);
              && (issued.Some? <==> Acceptable(justified, cred, lifetime) && grant.Some?)
              && (issued.None? ==> leases == old(leases))
              && (issued.Some? ==>
                    && issued.value == |old(leases)|
                    && leases == old(leases) + [NewLease(cred, caller.user, grant.value, purpose, caller.moment.at, lifetime)])
    {
      if !justified || !cred.checkoutEnabled || !cred.target.enabled {
        return None;
      }
      if lifetime < 15 || lifetime > 300 {
        return None;
      }
      var grant := AuthorizingPolicyFor(w, requests, caller, cred, ActionFor(purpose), mfa);
      if grant.None? {
        return None;
      }
      issued := Some(|leases|);
      leases := leases + [NewLease(cred, caller.user, grant.value, purpose, caller.moment.at, lifetime)];
    }

    /** The secret is yielded only if the whole transaction stands, decryption included. */
    method ConsumeLease(i: nat, user: Option<Id>, purpose: Option<Purpose>, decrypts: bool, now: int) returns (given: bool)
      requires i < |leases|
      modifies this
      ensures given <==> MayConsume(old(leases[i]), user, purpose, now) && decrypts
      ensures leases == if given then old(leases)[i := Consumed(old(leases[i]), now)] else old(leases)
    {
      var lease := leases[i];
      if lease.revokedAt.Some? || lease.expiresAt <= now || lease.useCount >= lease.maxUses {
        return false;
      }
      if user.Some? && lease.user != user.value {
        return false;
      }
      if purpose.Some? && lease.purpose != purpose.value {
        return false;
      }
      var saved := leases;
      leases := leases[i := lease.(useCount := lease.useCount + 1, consumedAt := Some(now))];
      if !decrypts {
        leases := saved;
        return false;
      }
      return true;
    }

    method RevokeLease(i: nat, now: int)
      requires i < |leases|
      modifies this
      ensures leases == old(leases)[i := RevokedLease(old(leases[i]), now)]
    {
      if leases[i].revokedAt.Some? {
        return;
      }
      leases := leases[i := leases[i].(revokedAt := Some(now))];
    }
  }
}
