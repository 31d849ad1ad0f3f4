/** The string a signed gateway request is authenticated by, and the check of its signature and age. */
module SignedRequests {
  import opened Common

  const MAX_AGE := 30

  /** Upper-casing, number parsing and the keyed digest under the shared key, as the platform provides them. */
  datatype Platform = Platform(upper: string -> string, parseInt: string -> Option<int>, mac: string -> string)

  /** `timestamp` is the header's text; the body is bytes, written as characters. */
  datatype Request = Request(timestamp: string, id: string, verb: string, path: string, body: string)

  /** Version 2, for a request that has an id. */
  function SignedString(on: Platform, r: Request): string {
    "v2" + "\n" + (r.timestamp + "\n" + (r.id + "\n" + (on.upper(r.verb) + "\n" + (r.path + "\n" + r.body))))
  }

  /** Version 1, accepted during a transition only. */
  function LegacyString(timestamp: string, body: string): string {
    timestamp + "." + body
  }

  predicate Fresh(on: Platform, timestamp: string, second: int) {
    var issued := on.parseInt(timestamp);
    issued.Some? && -MAX_AGE <= second - issued.value <= MAX_AGE
  }

  predicate Valid(on: Platform, r: Request, signature: string, second: int) {
    Fresh(on, r.timestamp, second) && signature != "" && on.mac(SignedString(on, r)) == signature
  }

  predicate ValidLegacy(on: Platform, timestamp: string, body: string, signature: string, second: int) {
    Fresh(on, timestamp, second) && signature != "" && on.mac(LegacyString(timestamp, body)) == signature
  }

  predicate OneLine(s: string) {
    '\n' !in s
  }

  predicate HeadersOneLine(on: Platform, r: Request) {
    OneLine(r.timestamp) && OneLine(r.id) && OneLine(on.upper(r.verb)) && OneLine(r.path)
  }

  lemma FirstLineIsUnique(a: string, x: string, b: string, y: string)
    requires OneLine(a) && OneLine(b) && a + "\n" + x == b + "\n" + y
    ensures a == b && x == y
  {
    var s := a + "\n" + x;
    assert s[|a|] == '\n' && s[|b|] == '\n';
    assert forall k :: 0 <= k < |a| ==> s[k] == a[k];
    assert forall k :: 0 <= k < |b| ==> s[k] == b[k];
    assert a == s[..|a|] && b == s[..|b|];
    assert x == s[|a| + 1..] && y == s[|b| + 1..];
  }

  /** Two requests with one-line headers are signed alike only if they agree on all that is signed. */
  lemma SignedStringIsInjective(on: Platform, r: Request, q: Request)
    requires HeadersOneLine(on, r) && HeadersOneLine(on, q) && SignedString(on, r) == SignedString(on, q)
    ensures r.timestamp == q.timestamp && r.id == q.id && on.upper(r.verb) == on.upper(q.verb)
    ensures r.path == q.path && r.body == q.body
  {
    var r5, q5 := r.path + "\n" + r.body, q.path + "\n" + q.body;
    var r4, q4 := on.upper(r.verb) + "\n" + r5, on.upper(q.verb) + "\n" + q5;
    var r3, q3 := r.id + "\n" + r4, q.id + "\n" + q4;
    var r2, q2 := r.timestamp + "\n" + r3, q.timestamp + "\n" + q3;
    FirstLineIsUnique("v2", r2, "v2", q2);
    FirstLineIsUnique(r.timestamp, r3, q.timestamp, q3);
    FirstLineIsUnique(r.id, r4, q.id, q4);
    FirstLineIsUnique(on.upper(r.verb), r5, on.upper(q.verb), q5);
    FirstLineIsUnique(r.path, r.body, q.path, q.body);
  }

  /** No version 1 request with a one-line timestamp is signed like a version 2 request. */
  lemma VersionsNeverMix(on: Platform, timestamp: string, body: string, r: Request)
    requires OneLine(timestamp)
    ensures LegacyString(timestamp, body) != SignedString(on, r)
  {
    var legacy, signed := LegacyString(timestamp, body), SignedString(on, r);
    assert signed[0] == 'v' && signed[1] == '2' && signed[2] == '\n';
    assert legacy[|timestamp|] == '.';
    assert |timestamp| > 2 ==> legacy[2] == timestamp[2] && timestamp[2] in timestamp;
  }

  /** With a digest that cannot be made without the key, a valid request is one the other side signed. */
  lemma ValidRequestWasSigned(on: Platform, r: Request, signature: string, second: int, signed: set<Request>)
    requires Valid(on, r, signature, second) && HeadersOneLine(on, r)
    requires forall q :: q in signed ==> HeadersOneLine(on, q)
    requires forall s :: on.mac(s) == signature ==> exists q :: q in signed && SignedString(on, q) == s
    ensures exists q :: q in signed && q.(verb := r.verb) == r && on.upper(q.verb) == on.upper(r.verb)
  {
    var s := SignedString(on, r);
    assert on.mac(s) == signature;
    var q :| q in signed && SignedString(on, q) == s;
    SignedStringIsInjective(on, r, q);
    assert q.(verb := r.verb) == r;
  }
}

/** The control endpoint: a signed request to end a session is honoured once. */
module ControlClaims {
  import opened Common
  import opened SignedRequests

  const CLAIM_SECONDS := 60.0
  const TERMINATE := "/internal/control/terminate/"

  datatype Status = Terminating | NotFound | Forbidden

  /** What arrives: the headers as sent, with the id already in canonical form or empty, and the session it names. */
  datatype Message = Message(version: string, timestamp: string, id: string, signature: string, body: string,
                             session: string)

  function Signed(m: Message): Request {
    Request(m.timestamp, m.id, "POST", TERMINATE, m.body)
  }

  /** `second` is the clock's whole second read for the age check, `now` its reading for the claim. */
  datatype Arrival = Arrival(message: Message, second: int, now: real)

  predicate Authentic(on: Platform, a: Arrival) {
    a.message.version == "2" && a.message.id != "" && Valid(on, Signed(a.message), a.message.signature, a.second)
  }

  type Claims = map<string, real>

  function Pruned(claims: Claims, now: real): Claims {
    map id | id in claims && now - claims[id] <= CLAIM_SECONDS :: claims[id]
  }

  predicate Admitted(on: Platform, claims: Claims, a: Arrival) {
    Authentic(on, a) && a.message.id !in Pruned(claims, a.now)
  }

  function NextClaims(on: Platform, claims: Claims, a: Arrival): Claims {
    if !Authentic(on, a) then claims
    else if Admitted(on, claims, a) then Pruned(claims, a.now)[a.message.id := a.now]
    else Pruned(claims, a.now)
  }

  /** Version 1 is still accepted, and this message is of that version. */
  predicate Transitional(acceptLegacy: bool, m: Message) {
    acceptLegacy && (m.version == "" || m.version == "1")
  }

  /** The request is carried out: a version 1 request if it is valid, any other if it can be claimed. */
  predicate Honoured(on: Platform, acceptLegacy: bool, claims: Claims, a: Arrival) {
    if Transitional(acceptLegacy, a.message)
    then ValidLegacy(on, a.message.timestamp, a.message.body, a.message.signature, a.second)
    else Admitted(on, claims, a)
  }

  class ControlEndpoint {
    const on: Platform
    const acceptLegacy: bool
    var claims: Claims
    var sessions: set<string>
    var cancelled: set<string>

    constructor (on: Platform, acceptLegacy: bool)
      ensures this.on == on && this.acceptLegacy == acceptLegacy && claims == map[] && sessions == {} && cancelled == {}
    {
      this.on, this.acceptLegacy, claims, sessions, cancelled := on, acceptLegacy, map[], {}, {};
    }

    method ClaimRequestId(id: string, now: real) returns (claimed: bool)
      modifies this`claims
      ensures claimed <==> id !in Pruned(old(claims), now)
      ensures claims == if claimed then Pruned(old(claims), now)[id := now] else Pruned(old(claims), now)
    {
      claims := map key | key in claims && now - claims[key] <= CLAIM_SECONDS :: claims[key];
      if id in claims {
        return false;
      }
      claims := claims[id := now];
      return true;
    }

    /** The request is authenticated first and claimed second, whether or not the session is known here. */
    method Control(a: Arrival) returns (status: Status)
      modifies this`claims, this`cancelled
      ensures claims == NextClaims(on, old(claims), a)
      ensures status == (if !Honoured(on, acceptLegacy, old(claims), a) then Forbidden
                         else if a.message.session in sessions then Terminating else NotFound)
      ensures cancelled == old(cancelled) + if status == Terminating then {a.message.session} else {}
    {
      var m := a.message;
      var transitional := acceptLegacy && (m.version == "" || m.version == "1");
      var valid := if transitional then ValidLegacy(on, m.timestamp, m.body, m.signature, a.second)
                   else Valid(on, Signed(m), m.signature, a.second);
      if !transitional && (m.version != "2" || m.id == "") {
        valid := false;
      } else if valid && !transitional {
        valid := ClaimRequestId(m.id, a.now);
      }
      if valid && m.session in sessions {
        cancelled := cancelled + {m.session};
        return Terminating;
      }
      return if valid then NotFound else Forbidden;
    }
  }

  // ----- any run -----

  /** The claim table, and every arrival that was ever claimed. */
  datatype History = History(claims: Claims, log: seq<Arrival>)

  function Next(on: Platform, h: History, a: Arrival): History {
    History(NextClaims(on, h.claims, a), if Admitted(on, h.claims, a) then h.log + [a] else h.log)
  }

  function Run(on: Platform, arrivals: seq<Arrival>): History {
    if arrivals == [] then History(map[], [])
    else Next(on, Run(on, arrivals[..|arrivals| - 1]), arrivals[|arrivals| - 1])
  }

  ghost predicate AllBefore(arrivals: seq<Arrival>, now: real) {
    forall i :: 0 <= i < |arrivals| ==> arrivals[i].now <= now
  }

  ghost predicate InOrder(arrivals: seq<Arrival>) {
    forall i, j :: 0 <= i < j < |arrivals| ==> arrivals[i].now <= arrivals[j].now
  }

  /** A claim of `id` no more than a minute before `now`, anywhere in the history. */
  ghost predicate RecentlyClaimed(log: seq<Arrival>, id: string, now: real) {
    exists i :: 0 <= i < |log| && log[i].message.id == id && now - log[i].now <= CLAIM_SECONDS
  }

  ghost predicate HeldWereClaimed(h: History) {
    forall id :: id in h.claims ==>
      exists i :: 0 <= i < |h.log| && h.log[i].message.id == id && h.log[i].now == h.claims[id]
  }

  ghost predicate RecentAreHeld(h: History, now: real) {
    forall i :: 0 <= i < |h.log| && now - h.log[i].now <= CLAIM_SECONDS ==>
      h.log[i].message.id in h.claims && h.log[i].now <= h.claims[h.log[i].message.id]
  }

  /** The table holds claims that happened, and every claim that is still recent. */
  ghost predicate TableSound(h: History, now: real) {
    AllBefore(h.log, now) && HeldWereClaimed(h) && RecentAreHeld(h, now)
  }

  lemma PrunedIsRecent(h: History, before: real, now: real, id: string)
    requires TableSound(h, before) && before <= now
    ensures id in Pruned(h.claims, now) <==> RecentlyClaimed(h.log, id, now)
  {
    if i :| 0 <= i < |h.log| && h.log[i].message.id == id && now - h.log[i].now <= CLAIM_SECONDS {
      assert before - h.log[i].now <= CLAIM_SECONDS;
    }
  }

  lemma HeldKept(on: Platform, h: History, a: Arrival)
    requires HeldWereClaimed(h)
    ensures HeldWereClaimed(Next(on, h, a))
  {
    var after := Next(on, h, a);
    forall id | id in after.claims
      ensures exists i :: 0 <= i < |after.log| && after.log[i].message.id == id && after.log[i].now == after.claims[id]
    {
      if Admitted(on, h.claims, a) && id == a.message.id {
        assert after.log[|h.log|] == a;
      } else {
        var i :| 0 <= i < |h.log| && h.log[i].message.id == id && h.log[i].now == h.claims[id];
        assert after.log[i] == h.log[i];
      }
    }
  }

  lemma RecentKept(on: Platform, h: History, before: real, a: Arrival)
    requires RecentAreHeld(h, before) && AllBefore(h.log, before) && before <= a.now
    ensures RecentAreHeld(Next(on, h, a), a.now) && AllBefore(Next(on, h, a).log, a.now)
  {
    var after := Next(on, h, a);
    forall i | 0 <= i < |after.log| && a.now - after.log[i].now <= CLAIM_SECONDS
      ensures after.log[i].message.id in after.claims && after.log[i].now <= after.claims[after.log[i].message.id]
    {
      if i < |h.log| {
        assert after.log[i] == h.log[i] && before - h.log[i].now <= CLAIM_SECONDS;
      }
    }
  }

  lemma TableKept(on: Platform, h: History, before: real, a: Arrival)
    requires TableSound(h, before) && before <= a.now
    ensures TableSound(Next(on, h, a), a.now)
  {
    HeldKept(on, h, a);
    RecentKept(on, h, before, a);
  }

  lemma {:induction false} RunKeepsTable(on: Platform, arrivals: seq<Arrival>, now: real)
    requires InOrder(arrivals) && AllBefore(arrivals, now)
    ensures TableSound(Run(on, arrivals), now)
  {
    if arrivals != [] {
      var n := |arrivals| - 1;
      RunKeepsTable(on, arrivals[..n], arrivals[n].now);
      TableKept(on, Run(on, arrivals[..n]), arrivals[n].now, arrivals[n]);
    }
  }

  /** The pruned table decides as the full history of claims would: once per id and minute. */
  lemma ClaimDecidesLikeFullHistory(on: Platform, arrivals: seq<Arrival>, a: Arrival)
    requires InOrder(arrivals) && AllBefore(arrivals, a.now)
    ensures var h := Run(on, arrivals);
            Admitted(on, h.claims, a) <==> Authentic(on, a) && !RecentlyClaimed(h.log, a.message.id, a.now)
  {
    RunKeepsTable(on, arrivals, a.now);
    PrunedIsRecent(Run(on, arrivals), a.now, a.now, a.message.id);
  }

  /** Claims of one id are always more than a minute apart, and every claim was authentic. */
  ghost predicate SpacedClaims(on: Platform, log: seq<Arrival>) {
    && (forall i :: 0 <= i < |log| ==> Authentic(on, log[i]))
    && (forall i, j :: 0 <= i < j < |log| && log[i].message.id == log[j].message.id ==>
         log[j].now - log[i].now > CLAIM_SECONDS)
  }

  lemma {:induction false} ClaimsAreSpaced(on: Platform, arrivals: seq<Arrival>)
    requires InOrder(arrivals)
    ensures SpacedClaims(on, Run(on, arrivals).log)
  {
    if arrivals != [] {
      var n := |arrivals| - 1;
      ClaimsAreSpaced(on, arrivals[..n]);
      ClaimDecidesLikeFullHistory(on, arrivals[..n], arrivals[n]);
    }
  }

  /** Both arrivals carry the same request: the same id, issued at the same second. */
  predicate SameRequest(on: Platform, a: Arrival, b: Arrival) {
    a.message.id == b.message.id && on.parseInt(a.message.timestamp) == on.parseInt(b.message.timestamp)
  }

  lemma {:induction false} LogIsFromArrivals(on: Platform, arrivals: seq<Arrival>, i: nat)
    requires i < |Run(on, arrivals).log|
    ensures Run(on, arrivals).log[i] in arrivals
  {
    var n := |arrivals| - 1;
    if i < |Run(on, arrivals[..n]).log| {
      LogIsFromArrivals(on, arrivals[..n], i);
    }
  }

  /** The age is checked at a whole second that the claim's reading has reached. */
  ghost predicate AgeBeforeClaim(arrivals: seq<Arrival>) {
    forall i :: 0 <= i < |arrivals| ==> arrivals[i].second as real <= arrivals[i].now
  }

  /** A request is claimed again only if that claim's reading is past the whole second at which its age was checked. */
  lemma SecondClaimNeedsDelay(on: Platform, arrivals: seq<Arrival>, i: nat, j: nat)
    requires InOrder(arrivals) && AgeBeforeClaim(arrivals)
    requires i < j < |Run(on, arrivals).log| && SameRequest(on, Run(on, arrivals).log[i], Run(on, arrivals).log[j])
    ensures Run(on, arrivals).log[j].now > Run(on, arrivals).log[j].second as real
  {
    ClaimsAreSpaced(on, arrivals);
    LogIsFromArrivals(on, arrivals, i);
  }

  ghost predicate WholeSeconds(arrivals: seq<Arrival>) {
    forall i :: 0 <= i < |arrivals| ==> arrivals[i].now == arrivals[i].second as real
  }

  /** On a clock of whole seconds that never goes back, no signed request is claimed twice. */
  lemma NoRequestClaimedTwice(on: Platform, arrivals: seq<Arrival>, i: nat, j: nat)
    requires InOrder(arrivals) && WholeSeconds(arrivals)
    requires i < j < |Run(on, arrivals).log|
    ensures !SameRequest(on, Run(on, arrivals).log[i], Run(on, arrivals).log[j])
  {
    LogIsFromArrivals(on, arrivals, j);
    if SameRequest(on, Run(on, arrivals).log[i], Run(on, arrivals).log[j]) {
      SecondClaimNeedsDelay(on, arrivals, i, j);
    }
  }

  /** However its readings were taken, a request is claimed a second time exactly if it comes more than a minute later. */
  lemma SecondClaimIff(on: Platform, first: Arrival, second: Arrival)
    requires Authentic(on, first) && Authentic(on, second) && SameRequest(on, first, second) && first.now <= second.now
    ensures Run(on, [first, second]).log ==
            if second.now - first.now > CLAIM_SECONDS then [first, second] else [first]
  {
    assert [first, second][..1] == [first] && [first][..0] == [];
    assert Run(on, [first]) == Next(on, Run(on, []), first);
    assert Run(on, [first]).log == [first];
    assert InOrder([first]) && AllBefore([first], second.now);
    ClaimDecidesLikeFullHistory(on, [first], second);
    assert Run(on, [first, second]) == Next(on, Run(on, [first]), second);
  }

  /** The clock's whole second goes with its reading. */
  predicate Reads(a: Arrival) {
    a.second as real <= a.now < (a.second + 1) as real
  }

  /** If both readings fall in one second, a valid request comes less than sixty-one seconds after its first claim. */
  lemma ValidWithinSixtyOne(on: Platform, first: Arrival, second: Arrival)
    requires Authentic(on, first) && Authentic(on, second) && SameRequest(on, first, second)
    requires Reads(first) && Reads(second)
    ensures second.now - first.now < CLAIM_SECONDS + 1.0
  {
  }

  /** Such a pair exists for every request: at the first instant it is valid, and in the last second it is. */
  lemma FractionsAllowSecondClaim(on: Platform, m: Message, issued: int, fraction: real)
    requires m.version == "2" && m.id != "" && m.signature != "" && on.mac(SignedString(on, Signed(m))) == m.signature
    requires on.parseInt(m.timestamp) == Some(issued) && 0.0 < fraction < 1.0
    ensures var first := Arrival(m, issued - 30, (issued - 30) as real);
            var second := Arrival(m, issued + 30, (issued + 30) as real + fraction);
            Reads(first) && Reads(second) && Run(on, [first, second]).log == [first, second]
  {
    SecondClaimIff(on, Arrival(m, issued - 30, (issued - 30) as real),
                   Arrival(m, issued + 30, (issued + 30) as real + fraction));
  }
}
