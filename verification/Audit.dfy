/**
  The audit log: events linked by hashes, signed by the keyring, checked from end to end.
  The hash and the keyring are parameters; what is assumed of them is stated where it is used.
 */
module Audit {
  import opened Common
  import opened Redaction

  type Hash = string
  type Signature = string

  /** A value as it is serialized for the hash: the order in which an object's keys were written is gone. */
  datatype Canon =
    | CanonNull
    | CanonBool(flag: bool)
    | CanonNumber(mantissa: int, exponent: int)
    | CanonText(text: string)
    | CanonList(items: seq<Canon>)
    | CanonObject(fields: map<string, Canon>)

  function CanonOf(j: Json): Canon
    decreases j, 1
  {
    match j
    case Null => CanonNull
    case Bool(b) => CanonBool(b)
    case Number(m, e) => CanonNumber(m, e)
    case Text(t) => CanonText(t)
    case List(items) => CanonList(CanonItems(items))
    case Object(entries) => CanonObject(CanonFields(entries))
  }

  function CanonItems(items: seq<Json>): seq<Canon>
    decreases items, 0
  {
    if items == [] then [] else [CanonOf(items[0])] + CanonItems(items[1..])
  }

  function CanonFields(entries: seq<Redaction.Entry>): map<string, Canon>
    decreases entries, 0
  {
    if entries == [] then map[] else CanonFields(entries[1..])[entries[0].key := CanonOf(entries[0].value)]
  }

  /** The canonical payload that is hashed. */
  datatype Payload = Payload(
    action: string,
    actor: Option<string>,
    hashVersion: nat,
    metadata: Canon,
    occurredAt: string,
    previousHash: Hash,
    resourceId: string,
    resourceType: string,
    sequence: nat,
    sourceIp: Option<string>)

  datatype Event = Event(
    id: nat,
    sequence: nat,
    hashVersion: nat,
    occurredAt: string,
    actor: Option<string>,
    action: string,
    resourceType: string,
    resourceId: string,
    sourceIp: Option<string>,
    metadata: Json,
    previousHash: Hash,
    eventHash: Hash,
    signature: Signature)

  datatype Head = Head(lastSequence: nat, lastHash: Hash)

  datatype Log = Log(events: seq<Event>, head: Head)

  /** Either call answers `None` where it raises. */
  datatype Keyring = Keyring(sign: Hash -> Option<Signature>, verify: (Hash, Signature) -> Option<bool>)

  /** A keyring recognizes what it signed. */
  ghost predicate Signs(keyring: Keyring) {
    forall h: Hash, s: Signature :: keyring.sign(h) == Some(s) ==> s != "" && keyring.verify(h, s) == Some(true)
  }

  predicate Falsy(j: Json) {
    match j
    case Null => true
    case Bool(b) => !b
    case Number(m, _) => m == 0
    case Text(t) => t == ""
    case List(items) => items == []
    case Object(entries) => entries == []
  }

  function OrNone(s: Option<string>): Option<string> {
    if s.Some? && s.value != "" then s else None
  }

  function OrEmpty(metadata: Json): Json {
    if Falsy(metadata) then Object([]) else metadata
  }

  function Canonical(e: Event): Payload {
    Payload(e.action, OrNone(e.actor), e.hashVersion, CanonOf(OrEmpty(e.metadata)),
            e.occurredAt, e.previousHash, e.resourceId, e.resourceType, e.sequence, OrNone(e.sourceIp))
  }

  // ----- verification -----

  datatype Issue =
    | Discontinuous(id: nat)
    | Unlinked(id: nat)
    | BadHash(id: nat)
    | BadSignature(id: nat)
    | UnknownVersion(id: nat)
    | HeadMismatch

  datatype Verification = Verification(valid: bool, checkedEvents: nat, legacyEvents: nat, issues: seq<Issue>, headHash: Hash)

  predicate Legacy(e: Event) {
    e.hashVersion == 1
  }

  function PreviousHash(events: seq<Event>, i: nat): Hash
    requires i <= |events|
  {
    if i == 0 then "" else events[i - 1].eventHash
  }

  function PreviousSequence(events: seq<Event>, i: nat): nat
    requires i <= |events|
  {
    if i == 0 then 0 else events[i - 1].sequence
  }

  predicate SignatureValid(keyring: Keyring, e: Event) {
    e.signature != "" && keyring.verify(e.eventHash, e.signature) == Some(true)
  }

  /** The keyring is asked about this event's signature and does not answer. */
  predicate Unanswered(keyring: Keyring, e: Event) {
    e.signature != "" && keyring.verify(e.eventHash, e.signature).None?
  }

  /** What is wrong with event `i`, in the order of the checks. */
  function EventIssues(hash: Payload -> Hash, keyring: Keyring, events: seq<Event>, i: nat): seq<Issue>
    requires i < |events|
  {
    var e := events[i];
    (if e.sequence != PreviousSequence(events, i) + 1 then [Discontinuous(e.id)] else [])
    + (if e.previousHash != PreviousHash(events, i) then [Unlinked(e.id)] else [])
    + if e.hashVersion == 1 then []
      else if e.hashVersion == 2 then
        (if e.eventHash != hash(Canonical(e)) then [BadHash(e.id)] else [])
        + (if !SignatureValid(keyring, e) then [BadSignature(e.id)] else [])
      else [UnknownVersion(e.id)]
  }

  function IssuesUpTo(hash: Payload -> Hash, keyring: Keyring, events: seq<Event>, n: nat): seq<Issue>
    requires n <= |events|
  {
    if n == 0 then [] else IssuesUpTo(hash, keyring, events, n - 1) + EventIssues(hash, keyring, events, n - 1)
  }

  function EndOf(events: seq<Event>): Head {
    Head(PreviousSequence(events, |events|), PreviousHash(events, |events|))
  }

  /** An event in its place: numbered, linked and, unless it is a legacy event, hashed and signed. */
  ghost predicate InPlace(hash: Payload -> Hash, keyring: Keyring, events: seq<Event>, i: nat)
    requires i < |events|
  {
    && events[i].sequence == i + 1
    && events[i].previousHash == PreviousHash(events, i)
    && (events[i].hashVersion == 1 || events[i].hashVersion == 2)
    && (events[i].hashVersion == 2 ==>
          events[i].eventHash == hash(Canonical(events[i])) && SignatureValid(keyring, events[i]))
  }

  ghost predicate Intact(hash: Payload -> Hash, keyring: Keyring, log: Log) {
    && (forall i :: 0 <= i < |log.events| ==> InPlace(hash, keyring, log.events, i))
    && log.head == EndOf(log.events)
  }

  /** The running checks and the quantified reading agree. */
  lemma {:induction false} NoIssuesIffInPlace(hash: Payload -> Hash, keyring: Keyring, events: seq<Event>, n: nat)
    requires n <= |events|
    ensures IssuesUpTo(hash, keyring, events, n) == [] <==> forall i :: 0 <= i < n ==> InPlace(hash, keyring, events, i)
  {
    if n > 0 {
      NoIssuesIffInPlace(hash, keyring, events, n - 1);
      if forall i :: 0 <= i < n - 1 ==> InPlace(hash, keyring, events, i) {
        assert n > 1 ==> InPlace(hash, keyring, events, n - 2);
        assert PreviousSequence(events, n - 1) == n - 1;
        assert EventIssues(hash, keyring, events, n - 1) == [] <==> InPlace(hash, keyring, events, n - 1);
      }
    }
  }

  /** The checks of one event, against what the loop carries along. */
  method CheckEvent(hash: Payload -> Hash, keyring: Keyring, event: Event, previousHash: Hash, previousSequence: nat,
                    ghost events: seq<Event>, ghost i: nat)
    returns (raised: bool, found: seq<Issue>)
    requires i < |events| && event == events[i]
    requires previousHash == PreviousHash(events, i) && previousSequence == PreviousSequence(events, i)
    ensures raised <==> event.hashVersion == 2 && Unanswered(keyring, event)
    ensures !raised ==> found == EventIssues(hash, keyring, events, i)
  {
    raised, found := false, [];
    if event.sequence != previousSequence + 1 {
      found := found + [Discontinuous(event.id)];
    }
    if event.previousHash != previousHash {
      found := found + [Unlinked(event.id)];
    }
    if event.hashVersion == 1 {
    } else if event.hashVersion == 2 {
      var expected := hash(Canonical(event));
      if event.eventHash != expected {
        found := found + [BadHash(event.id)];
      }
      if event.signature == "" {
        found := found + [BadSignature(event.id)];
      } else {
        var answer := keyring.verify(event.eventHash, event.signature);
        if answer.None? {
          raised := true;
        } else if !answer.value {
          found := found + [BadSignature(event.id)];
        }
      }
    } else {
      found := found + [UnknownVersion(event.id)];
    }
  }

  /** The keyring raises for this event. */
  ghost predicate RaisesOn(keyring: Keyring, e: Event) {
    e.hashVersion == 2 && Unanswered(keyring, e)
  }

  /** The verifier's loop over the events in sequence order, up to the first call to the keyring that raises. */
  method WalkEvents(hash: Payload -> Hash, keyring: Keyring, events: seq<Event>)
    returns (raised: bool, issues: seq<Issue>, legacy: nat, end: Head)
    ensures raised <==> exists i :: 0 <= i < |events| && RaisesOn(keyring, events[i])
    ensures !raised ==> issues == IssuesUpTo(hash, keyring, events, |events|)
    ensures !raised ==> legacy == Count(events, Legacy) && end == EndOf(events)
  {
    var previousHash, previousSequence := "", 0;
    raised, issues, legacy, end := false, [], 0, Head(0, "");
    for i := 0 to |events|
      invariant !raised && previousHash == PreviousHash(events, i) && previousSequence == PreviousSequence(events, i)
      invariant issues == IssuesUpTo(hash, keyring, events, i) && legacy == CountBefore(events, i, Legacy)
      invariant forall j :: 0 <= j < i ==> !RaisesOn(keyring, events[j])
    {
      var event := events[i];
      var found;
      raised, found := CheckEvent(hash, keyring, event, previousHash, previousSequence, events, i);
      if raised {
        return;
      }
      issues := issues + found;
      if event.hashVersion == 1 {
        legacy := legacy + 1;
      }
      previousHash, previousSequence := event.eventHash, event.sequence;
    }
    CountBeforeIsCount(events, |events|, Legacy);
    end := Head(previousSequence, previousHash);
  }

  lemma IntactIffNoIssues(hash: Payload -> Hash, keyring: Keyring, log: Log)
    ensures Intact(hash, keyring, log) <==>
            IssuesUpTo(hash, keyring, log.events, |log.events|) == [] && log.head == EndOf(log.events)
  {
    NoIssuesIffInPlace(hash, keyring, log.events, |log.events|);
  }

  lemma IntactIsAnswered(hash: Payload -> Hash, keyring: Keyring, log: Log)
    requires Intact(hash, keyring, log)
    ensures forall i :: 0 <= i < |log.events| ==> !RaisesOn(keyring, log.events[i])
  {
    forall i | 0 <= i < |log.events| ensures !RaisesOn(keyring, log.events[i]) {
      assert InPlace(hash, keyring, log.events, i);
    }
  }

  /** The verifier; `None` where a call to the keyring raises. */
  method VerifyAuditChain(hash: Payload -> Hash, keyring: Keyring, log: Log) returns (v: Option<Verification>)
    ensures v.None? <==> exists i :: 0 <= i < |log.events| && RaisesOn(keyring, log.events[i])
    ensures Intact(hash, keyring, log) ==> v.Some?
    ensures v.Some? ==> (v.value.valid <==> Intact(hash, keyring, log))
    ensures v.Some? ==> v.value.checkedEvents == |log.events| && v.value.legacyEvents == Count(log.events, Legacy)
    ensures v.Some? ==> v.value.headHash == EndOf(log.events).lastHash
    ensures v.Some? ==>
              v.value.issues == IssuesUpTo(hash, keyring, log.events, |log.events|)
                                + if log.head == EndOf(log.events) then [] else [HeadMismatch]
  {
    var raised, issues, legacy, end := WalkEvents(hash, keyring, log.events);
    if Intact(hash, keyring, log) {
      IntactIsAnswered(hash, keyring, log);
    }
    if raised {
      return None;
    }
    IntactIffNoIssues(hash, keyring, log);
    if log.head != end {
      issues := issues + [HeadMismatch];
    }
    v := Some(Verification(issues == [], |log.events|, legacy, issues, end.lastHash));
  }

  // ----- tampering shows -----

  /** At position `i` the two logs hold different payloads with the same hash. */
  ghost predicate CollideAt(hash: Payload -> Hash, a: seq<Event>, b: seq<Event>, i: int) {
    && 0 <= i < |a| && 0 <= i < |b|
    && hash(Canonical(a[i])) == hash(Canonical(b[i])) && Canonical(a[i]) != Canonical(b[i])
  }

  /** One of two events in their place: unless their payloads collide, equal hashes mean equal payloads and equal links. */
  lemma SameHashSamePayload(hash: Payload -> Hash, keyring: Keyring, a: seq<Event>, b: seq<Event>, i: nat)
    requires i < |a| && i < |b| && InPlace(hash, keyring, a, i) && InPlace(hash, keyring, b, i)
    requires a[i].hashVersion == 2 && b[i].hashVersion == 2 && a[i].eventHash == b[i].eventHash
    requires !CollideAt(hash, a, b, i)
    ensures Canonical(a[i]) == Canonical(b[i]) && PreviousHash(a, i) == PreviousHash(b, i)
  {
    assert Canonical(a[i]).previousHash == a[i].previousHash && Canonical(b[i]).previousHash == b[i].previousHash;
  }

  lemma {:induction false} SameHeadSameHash(hash: Payload -> Hash, keyring: Keyring, a: Log, b: Log, k: nat, i: nat)
    requires Intact(hash, keyring, a) && Intact(hash, keyring, b) && a.head == b.head && k <= i < |a.events| == |b.events|
    requires forall j :: k <= j < |a.events| ==> a.events[j].hashVersion == 2 && b.events[j].hashVersion == 2
    requires forall j :: k <= j < |a.events| ==> !CollideAt(hash, a.events, b.events, j)
    ensures a.events[i].eventHash == b.events[i].eventHash
    decreases |a.events| - i
  {
    if i + 1 < |a.events| {
      SameHeadSameHash(hash, keyring, a, b, k, i + 1);
      SameHashSamePayload(hash, keyring, a.events, b.events, i + 1);
    }
  }

  /**
    Two logs that verify under one head have equally many events, and agree on every payload from any position after
    which neither holds a legacy event, unless at one such position their payloads collide. So an edit, a deletion or a
    reordering there shows. What does not show as an issue is the replacement of an event by a legacy one, whose content
    is free: only the number of legacy events tells.
   */
  lemma VerifiedLogsAgree(hash: Payload -> Hash, keyring: Keyring, a: Log, b: Log, k: nat)
    requires Intact(hash, keyring, a) && Intact(hash, keyring, b) && a.head == b.head
    requires forall j :: k <= j < |a.events| ==> a.events[j].hashVersion == 2
    requires forall j :: k <= j < |b.events| ==> b.events[j].hashVersion == 2
    ensures |a.events| == |b.events|
    ensures || (exists j :: k <= j && CollideAt(hash, a.events, b.events, j))
            || forall i :: k <= i < |a.events| ==> Canonical(a.events[i]) == Canonical(b.events[i])
  {
    LengthIsHead(hash, keyring, a);
    LengthIsHead(hash, keyring, b);
    if forall j :: k <= j ==> !CollideAt(hash, a.events, b.events, j) {
      forall i | k <= i < |a.events|
        ensures Canonical(a.events[i]) == Canonical(b.events[i])
      {
        SameHeadSameHash(hash, keyring, a, b, k, i);
        SameHashSamePayload(hash, keyring, a.events, b.events, i);
      }
    }
  }

  ghost predicate DistinctKeys(entries: seq<Redaction.Entry>) {
    forall i, j :: 0 <= i < j < |entries| ==> entries[i].key != entries[j].key
  }

  lemma {:induction false} FieldsAreEntries(entries: seq<Redaction.Entry>, key: string)
    requires DistinctKeys(entries)
    ensures key in CanonFields(entries) <==> exists i :: 0 <= i < |entries| && entries[i].key == key
    ensures forall i :: 0 <= i < |entries| && entries[i].key == key ==>
              key in CanonFields(entries) && CanonFields(entries)[key] == CanonOf(entries[i].value)
  {
    if entries != [] {
      FieldsAreEntries(entries[1..], key);
      assert forall i :: 0 < i < |entries| ==> entries[i] == entries[1..][i - 1];
    }
  }

  /** `entries` holds the key of `e` with a value that is hashed alike. */
  ghost predicate Has(entries: seq<Redaction.Entry>, e: Redaction.Entry) {
    exists i :: 0 <= i < |entries| && entries[i].key == e.key && CanonOf(entries[i].value) == CanonOf(e.value)
  }

  lemma HasIsField(entries: seq<Redaction.Entry>, e: Redaction.Entry)
    requires DistinctKeys(entries)
    ensures Has(entries, e) <==> e.key in CanonFields(entries) && CanonFields(entries)[e.key] == CanonOf(e.value)
  {
    FieldsAreEntries(entries, e.key);
  }

  lemma FieldsAreHeld(a: seq<Redaction.Entry>, b: seq<Redaction.Entry>)
    requires DistinctKeys(a) && DistinctKeys(b) && forall i :: 0 <= i < |a| ==> Has(b, a[i])
    ensures forall key :: key in CanonFields(a) ==> key in CanonFields(b) && CanonFields(b)[key] == CanonFields(a)[key]
  {
    forall key | key in CanonFields(a)
      ensures key in CanonFields(b) && CanonFields(b)[key] == CanonFields(a)[key]
    {
      FieldsAreEntries(a, key);
      var i :| 0 <= i < |a| && a[i].key == key;
      HasIsField(b, a[i]);
    }
  }

  /** Two objects are hashed alike exactly if they have the same keys with values that are hashed alike, in any order. */
  lemma KeyOrderIsIrrelevant(a: seq<Redaction.Entry>, b: seq<Redaction.Entry>)
    requires DistinctKeys(a) && DistinctKeys(b)
    ensures CanonOf(Object(a)) == CanonOf(Object(b)) <==>
            (forall i :: 0 <= i < |a| ==> Has(b, a[i])) && (forall i :: 0 <= i < |b| ==> Has(a, b[i]))
  {
    if CanonFields(a) == CanonFields(b) {
      forall i | 0 <= i < |a| ensures Has(b, a[i]) {
        assert Has(a, a[i]);
        HasIsField(a, a[i]);
        HasIsField(b, a[i]);
      }
      forall i | 0 <= i < |b| ensures Has(a, b[i]) {
        assert Has(b, b[i]);
        HasIsField(a, b[i]);
        HasIsField(b, b[i]);
      }
    }
    if (forall i :: 0 <= i < |a| ==> Has(b, a[i])) && (forall i :: 0 <= i < |b| ==> Has(a, b[i])) {
      FieldsAreHeld(a, b);
      FieldsAreHeld(b, a);
      assert CanonFields(a) == CanonFields(b);
    }
  }

  lemma LengthIsHead(hash: Payload -> Hash, keyring: Keyring, log: Log)
    requires Intact(hash, keyring, log)
    ensures log.head.lastSequence == |log.events|
  {
    if log.events != [] {
      assert InPlace(hash, keyring, log.events, |log.events| - 1);
    }
  }

  /** Of a legacy event only number and link are checked: any event may be replaced by one, and only their number tells. */
  lemma LegacyContentIsFree(hash: Payload -> Hash, keyring: Keyring, log: Log, i: nat, e: Event)
    requires Intact(hash, keyring, log) && i < |log.events|
    requires e.hashVersion == 1 && e.sequence == log.events[i].sequence
    requires e.previousHash == log.events[i].previousHash && e.eventHash == log.events[i].eventHash
    ensures Intact(hash, keyring, log.(events := log.events[i := e]))
    ensures Count(log.events[i := e], Legacy) == Count(log.events, Legacy) + if Legacy(log.events[i]) then 0 else 1
  {
    var other := log.events[i := e];
    CountUpdate(log.events, i, e, Legacy);
    forall j | 0 <= j < |other|
      ensures InPlace(hash, keyring, other, j)
    {
      assert InPlace(hash, keyring, log.events, j);
    }
  }

  // ----- recording -----

  /** What a caller of `record_event` supplies, with the clock reading. */
  datatype Entry = Entry(
    id: nat,
    occurredAt: string,
    actor: Option<string>,
    action: string,
    resourceType: string,
    resourceId: string,
    sourceIp: Option<string>,
    metadata: Json)

  /** What a column returns for a value written to it: the database may rewrite addresses and nested values. */
  datatype Columns = Columns(address: string -> string, json: Json -> Json)

  function NewEvent(hash: Payload -> Hash, head: Head, entry: Entry, signature: Signature): Event {
    var draft := Event(entry.id, head.lastSequence + 1, 2, entry.occurredAt, entry.actor, entry.action, entry.resourceType,
                       entry.resourceId, entry.sourceIp, OrEmpty(entry.metadata), head.lastHash, "", signature);
    draft.(eventHash := hash(Canonical(draft)))
  }

  function StoredAddress(columns: Columns, ip: Option<string>): Option<string> {
    if ip.Some? then Some(columns.address(ip.value)) else None
  }

  /** The row as it is read later. */
  function Stored(columns: Columns, e: Event): Event {
    e.(sourceIp := StoredAddress(columns, e.sourceIp), metadata := columns.json(e.metadata))
  }

  /** `record_event`; `None` where the signature cannot be had and the transaction is undone. */
  function Record(hash: Payload -> Hash, keyring: Keyring, columns: Columns, log: Log, entry: Entry): Option<Log> {
    var unsigned := NewEvent(hash, log.head, entry, "");
    var signature := keyring.sign(unsigned.eventHash);
    if signature.None? then None
    else
      var event := Stored(columns, unsigned.(signature := signature.value));
      Some(Log(log.events + [event], Head(event.sequence, event.eventHash)))
  }

  /** The row is hashed alike when it is read. */
  predicate ReadsBack(hash: Payload -> Hash, columns: Columns, head: Head, entry: Entry) {
    var e := NewEvent(hash, head, entry, "");
    hash(Canonical(Stored(columns, e))) == hash(Canonical(e))
  }

  /** The columns keep what is hashed of the entry. */
  predicate Kept(columns: Columns, entry: Entry) {
    && OrNone(StoredAddress(columns, entry.sourceIp)) == OrNone(entry.sourceIp)
    && CanonOf(OrEmpty(columns.json(OrEmpty(entry.metadata)))) == CanonOf(OrEmpty(OrEmpty(entry.metadata)))
  }

  lemma KeptIffSamePayload(hash: Payload -> Hash, columns: Columns, head: Head, entry: Entry)
    ensures var e := NewEvent(hash, head, entry, "");
            Kept(columns, entry) <==> Canonical(Stored(columns, e)) == Canonical(e)
  {
  }

  /** The log's head is its last event, and counts them. */
  ghost predicate HeadAtEnd(log: Log) {
    log.head == EndOf(log.events) && log.head.lastSequence == |log.events|
  }

  /** Recording appends one version 2 event; the log then verifies exactly if it did before and the event reads back. */
  lemma RecordedIntactIff(hash: Payload -> Hash, keyring: Keyring, columns: Columns, log: Log, entry: Entry)
    requires Signs(keyring) && HeadAtEnd(log) && Record(hash, keyring, columns, log, entry).Some?
    ensures var after := Record(hash, keyring, columns, log, entry).value;
            && HeadAtEnd(after) && |after.events| == |log.events| + 1 && after.events[..|log.events|] == log.events
            && after.events[|log.events|].hashVersion == 2
            && (Intact(hash, keyring, after) <==> Intact(hash, keyring, log) && ReadsBack(hash, columns, log.head, entry))
  {
    var after := Record(hash, keyring, columns, log, entry).value;
    var n := |log.events|;
    forall i | 0 <= i < n
      ensures InPlace(hash, keyring, after.events, i) <==> InPlace(hash, keyring, log.events, i)
    {
      assert after.events[i] == log.events[i];
    }
    NewEventInPlaceIff(hash, keyring, columns, log, entry);
  }

  lemma NewEventInPlaceIff(hash: Payload -> Hash, keyring: Keyring, columns: Columns, log: Log, entry: Entry)
    requires Signs(keyring) && HeadAtEnd(log) && Record(hash, keyring, columns, log, entry).Some?
    ensures InPlace(hash, keyring, Record(hash, keyring, columns, log, entry).value.events, |log.events|) <==>
            ReadsBack(hash, columns, log.head, entry)
  {
    var unsigned := NewEvent(hash, log.head, entry, "");
    var event := Stored(columns, unsigned.(signature := keyring.sign(unsigned.eventHash).value));
    assert Record(hash, keyring, columns, log, entry).value.events[|log.events|] == event;
    assert Canonical(event) == Canonical(Stored(columns, unsigned));
    assert unsigned.eventHash == hash(Canonical(unsigned));
  }

  const EMPTY := Log([], Head(0, ""))

  /** The log after any sequence of calls, those that raise included. */
  function RecordAll(hash: Payload -> Hash, keyring: Keyring, columns: Columns, entries: seq<Entry>): Log {
    if entries == [] then EMPTY
    else
      var before := RecordAll(hash, keyring, columns, entries[..|entries| - 1]);
      var after := Record(hash, keyring, columns, before, entries[|entries| - 1]);
      if after.Some? then after.value else before
  }

  /** Call `i` records its event, after the calls before it. */
  ghost predicate RecordedAt(hash: Payload -> Hash, keyring: Keyring, columns: Columns, entries: seq<Entry>, i: int) {
    0 <= i < |entries| && Record(hash, keyring, columns, RecordAll(hash, keyring, columns, entries[..i]), entries[i]).Some?
  }

  ghost predicate ReadsBackAt(hash: Payload -> Hash, keyring: Keyring, columns: Columns, entries: seq<Entry>, i: int) {
    0 <= i < |entries| && ReadsBack(hash, columns, RecordAll(hash, keyring, columns, entries[..i]).head, entries[i])
  }

  ghost predicate AllReadBack(hash: Payload -> Hash, keyring: Keyring, columns: Columns, entries: seq<Entry>) {
    forall i :: RecordedAt(hash, keyring, columns, entries, i) ==> ReadsBackAt(hash, keyring, columns, entries, i)
  }

  lemma AllReadBackOneMore(hash: Payload -> Hash, keyring: Keyring, columns: Columns, entries: seq<Entry>)
    requires entries != []
    ensures var n := |entries| - 1;
            AllReadBack(hash, keyring, columns, entries) <==>
            && AllReadBack(hash, keyring, columns, entries[..n])
            && (RecordedAt(hash, keyring, columns, entries, n) ==> ReadsBackAt(hash, keyring, columns, entries, n))
  {
    var n := |entries| - 1;
    forall i | 0 <= i < n
      ensures RecordedAt(hash, keyring, columns, entries, i) <==> RecordedAt(hash, keyring, columns, entries[..n], i)
      ensures ReadsBackAt(hash, keyring, columns, entries, i) <==> ReadsBackAt(hash, keyring, columns, entries[..n], i)
    {
      assert entries[..n][..i] == entries[..i];
    }
  }

  /** A log built by recording has as many events as its head counts, none of them legacy, and verifies exactly if all read back. */
  lemma {:induction false} RecordedLogsVerifyIff(hash: Payload -> Hash, keyring: Keyring, columns: Columns, entries: seq<Entry>)
    requires Signs(keyring)
    ensures var log := RecordAll(hash, keyring, columns, entries);
            && HeadAtEnd(log) && Count(log.events, Legacy) == 0
            && (Intact(hash, keyring, log) <==> AllReadBack(hash, keyring, columns, entries))
  {
    if entries != [] {
      var n := |entries| - 1;
      var before := RecordAll(hash, keyring, columns, entries[..n]);
      RecordedLogsVerifyIff(hash, keyring, columns, entries[..n]);
      AllReadBackOneMore(hash, keyring, columns, entries);
      if Record(hash, keyring, columns, before, entries[n]).Some? {
        RecordedIntactIff(hash, keyring, columns, before, entries[n]);
        var after := Record(hash, keyring, columns, before, entries[n]).value;
        CountAppend(before.events, after.events[|before.events|], Legacy);
      }
    }
  }

  /** The payload of call `i` and that of its row differ and have the same hash. */
  ghost predicate StoredCollidesAt(hash: Payload -> Hash, keyring: Keyring, columns: Columns, entries: seq<Entry>, i: int) {
    ReadsBackAt(hash, keyring, columns, entries, i) && !Kept(columns, entries[i])
  }

  ghost predicate AllKept(hash: Payload -> Hash, keyring: Keyring, columns: Columns, entries: seq<Entry>) {
    forall i :: RecordedAt(hash, keyring, columns, entries, i) ==> Kept(columns, entries[i])
  }

  lemma KeptEntriesReadBack(hash: Payload -> Hash, keyring: Keyring, columns: Columns, entries: seq<Entry>)
    ensures AllKept(hash, keyring, columns, entries) ==> AllReadBack(hash, keyring, columns, entries)
  {
    forall i | RecordedAt(hash, keyring, columns, entries, i) && Kept(columns, entries[i])
      ensures ReadsBackAt(hash, keyring, columns, entries, i)
    {
      KeptIffSamePayload(hash, columns, RecordAll(hash, keyring, columns, entries[..i]).head, entries[i]);
    }
  }

  lemma ReadBackEntriesKept(hash: Payload -> Hash, keyring: Keyring, columns: Columns, entries: seq<Entry>)
    requires AllReadBack(hash, keyring, columns, entries)
    ensures AllKept(hash, keyring, columns, entries) || exists i :: StoredCollidesAt(hash, keyring, columns, entries, i)
  {
    if i :| RecordedAt(hash, keyring, columns, entries, i) && !Kept(columns, entries[i]) {
      assert StoredCollidesAt(hash, keyring, columns, entries, i);
    }
  }

  /** So it verifies if the columns keep every recorded entry, and only then unless a payload collides with its own row. */
  lemma RecordedLogsVerify(hash: Payload -> Hash, keyring: Keyring, columns: Columns, entries: seq<Entry>)
    requires Signs(keyring)
    ensures var log := RecordAll(hash, keyring, columns, entries);
            && (AllKept(hash, keyring, columns, entries) ==> Intact(hash, keyring, log))
            && (Intact(hash, keyring, log) ==>
                  || AllKept(hash, keyring, columns, entries)
                  || exists i :: StoredCollidesAt(hash, keyring, columns, entries, i))
  {
    RecordedLogsVerifyIff(hash, keyring, columns, entries);
    KeptEntriesReadBack(hash, keyring, columns, entries);
    if AllReadBack(hash, keyring, columns, entries) {
      ReadBackEntriesKept(hash, keyring, columns, entries);
    }
  }

  /** An address that its column rewrites leaves a log that does not verify, unless the two payloads collide. */
  lemma RewrittenAddressIsRefused(hash: Payload -> Hash, keyring: Keyring, columns: Columns, entry: Entry, address: string)
    requires Signs(keyring) && entry.sourceIp == Some(address) && address != "" && columns.address(address) != address
    requires Record(hash, keyring, columns, EMPTY, entry).Some? && !StoredCollidesAt(hash, keyring, columns, [entry], 0)
    ensures !Intact(hash, keyring, RecordAll(hash, keyring, columns, [entry]))
  {
    assert [entry][..0] == [];
    assert RecordedAt(hash, keyring, columns, [entry], 0);
    assert !Kept(columns, entry);
    RecordedLogsVerify(hash, keyring, columns, [entry]);
  }

  class AuditTables {
    var events: seq<Event>
    var head: Head

    ghost function Contents(): Log
      reads this
    {
      Log(events, head)
    }

    constructor ()
      ensures Contents() == EMPTY
    {
      events, head := [], Head(0, "");
    }

    method RecordEvent(hash: Payload -> Hash, keyring: Keyring, columns: Columns, entry: Entry) returns (recorded: bool)
      modifies this
      ensures recorded <==> Record(hash, keyring, columns, old(Contents()), entry).Some?
      ensures Contents() == if recorded then Record(hash, keyring, columns, old(Contents()), entry).value else old(Contents())
    {
      var event := NewEvent(hash, head, entry, "");
      var signature := keyring.sign(event.eventHash);
      if signature.None? {
        return false;
      }
      event := event.(signature := signature.value);
      events := events + [Stored(columns, event)];
      head := Head(event.sequence, event.eventHash);
      return true;
    }
  }
}
