/** The keyring's routing between its active backend and the local one it replaced. */
module KeyringRouting {
  import opened Common
  import opened Audit

  type Plain = string
  type Cipher = string

  /** A crypto backend; `None` where it raises. The second argument of `encrypt` is its randomness. */
  datatype Backend = Backend(
    transit: bool,
    encrypt: (Plain, nat) -> Option<Cipher>,
    decrypt: Cipher -> Option<Plain>,
    sign: Hash -> Option<Signature>,
    verify: (Hash, Signature) -> Option<bool>)

  datatype Routed = Routed(active: Backend, legacyLocal: Option<Backend>)

  const VAULT_PREFIX := "vault:"

  predicate VaultPrefixed(c: Cipher) {
    VAULT_PREFIX <= c
  }

  function Decrypt(r: Routed, c: Cipher): Option<Plain> {
    if VaultPrefixed(c) then
      if r.active.transit then r.active.decrypt(c) else None
    else if r.legacyLocal.Some? then r.legacyLocal.value.decrypt(c)
    else r.active.decrypt(c)
  }

  /** The active backend is asked first; the old one only if that says no. */
  function Verify(r: Routed, h: Hash, s: Signature): Option<bool> {
    var answer := r.active.verify(h, s);
    if answer == Some(false) && r.legacyLocal.Some? then r.legacyLocal.value.verify(h, s) else answer
  }

  function KeyringOf(r: Routed): Keyring {
    Keyring(r.active.sign, (h: Hash, s: Signature) => Verify(r, h, s))
  }

  /** An ideal backend: decrypts and recognizes its own, and only transit ciphertexts carry the prefix. */
  ghost predicate Ideal(b: Backend) {
    && (forall p: Plain, n: nat, c: Cipher :: b.encrypt(p, n) == Some(c) ==>
          c != "" && b.decrypt(c) == Some(p) && (VaultPrefixed(c) <==> b.transit))
    && (forall h: Hash, s: Signature :: b.sign(h) == Some(s) ==> s != "" && b.verify(h, s) == Some(true))
  }

  /** A backend that never raises on new work. */
  ghost predicate Available(b: Backend) {
    (forall p: Plain, n: nat :: b.encrypt(p, n).Some?) && (forall h: Hash :: b.sign(h).Some?)
  }

  /** The two configurations the service constructs: local alone, or transit with the old local beside it. */
  ghost predicate Configured(r: Routed) {
    Ideal(r.active) && (r.legacyLocal.Some? ==> r.active.transit && Ideal(r.legacyLocal.value) && !r.legacyLocal.value.transit)
  }

  /** What the active backend encrypts is read back through the routing, with or without the old backend. */
  lemma ActiveCiphertextsRoute(r: Routed, p: Plain, n: nat, c: Cipher)
    requires Configured(r) && r.active.encrypt(p, n) == Some(c)
    ensures c != "" && Decrypt(r, c) == Some(p) && Decrypt(Routed(r.active, None), c) == Some(p)
  {
  }

  /** What the old local backend encrypted is still read while it is kept. */
  lemma LegacyCiphertextsRoute(r: Routed, p: Plain, n: nat, c: Cipher)
    requires Configured(r) && r.legacyLocal.Some? && r.legacyLocal.value.encrypt(p, n) == Some(c)
    ensures Decrypt(r, c) == Some(p)
  {
  }
}

/**
  The two migration commands: `ToKeyring` moves legacy secrets and signatures to the keyring,
  `ToActiveBackend` rewrites everything with the keyring's active backend. Both walk the same
  rows and events in one transaction that is undone on the first failure.
 */
module Migration {
  import opened Common
  import opened Audit
  import opened KeyringRouting

  const ACTIVE_KEY := "keyring-v1"

  datatype Command = ToKeyring | ToActiveBackend

  datatype Field = Field(value: Cipher, keyId: string)

  type Row = seq<Field>

  /** Every row with encrypted columns, table after table, and the audit log. */
  datatype Database = Database(rows: seq<Row>, log: Log)

  /** The keys the secrets migration reads: old vault keys by id, and the old audit key. */
  datatype LegacyKeys = LegacyKeys(
    vaultKeysPresent: bool,
    auditKeyPresent: bool,
    decrypt: (Cipher, string) -> Option<Plain>,
    signature: Hash -> Signature)

  /** Everything a run depends on. */
  datatype Tools = Tools(command: Command, hash: Payload -> Hash, columns: Columns, routed: Routed, legacy: LegacyKeys)

  /** The printed counts; the backend command prints the first and the third. */
  datatype Report = Report(secrets: nat, migrated: nat, auditEvents: nat, resigned: nat)

  // ----- fields -----

  /** `VaultCipher.decrypt`: an empty key id passes, any other id but the active one raises. */
  function VaultDecrypt(r: Routed, f: Field): Option<Plain> {
    if f.keyId != "" && f.keyId != ACTIVE_KEY then None else Decrypt(r, f.value)
  }

  /** The plaintext a command reads from a field. */
  function PlainOf(t: Tools, f: Field): Option<Plain> {
    if t.command == ToKeyring && f.keyId != ACTIVE_KEY then t.legacy.decrypt(f.value, f.keyId)
    else VaultDecrypt(t.routed, f)
  }

  predicate NonEmpty(f: Field) {
    f.value != ""
  }

  predicate Stale(f: Field) {
    f.value != "" && f.keyId != ACTIVE_KEY
  }

  function Rewrites(command: Command): Field -> bool {
    if command == ToKeyring then Stale else NonEmpty
  }

  predicate Readable(t: Tools, f: Field) {
    f.value == "" || PlainOf(t, f).Some?
  }

  /** The routing without the old local backend. */
  function Alone(r: Routed): Routed {
    Routed(r.active, None)
  }

  /** A rewritten field is under the active key with the same plaintext; any other is as it was. */
  ghost predicate Migrated(t: Tools, before: Field, after: Field) {
    if Rewrites(t.command)(before)
    then && after.value != "" && after.keyId == ACTIVE_KEY
         && VaultDecrypt(t.routed, after) == PlainOf(t, before) && VaultDecrypt(Alone(t.routed), after) == PlainOf(t, before)
    else after == before
  }

  /** What a field becomes; a dry run changes nothing. */
  ghost predicate FieldResult(t: Tools, apply: bool, before: Field, after: Field) {
    if apply then Migrated(t, before, after) else after == before
  }

  ghost predicate RowResult(t: Tools, apply: bool, before: Row, after: Row) {
    |after| == |before| && forall j :: 0 <= j < |before| ==> FieldResult(t, apply, before[j], after[j])
  }

  ghost predicate RowsResult(t: Tools, apply: bool, before: seq<Row>, after: seq<Row>) {
    |after| == |before| && forall i :: 0 <= i < |before| ==> RowResult(t, apply, before[i], after[i])
  }

  ghost predicate AllReadable(t: Tools, rows: seq<Row>) {
    forall i, j :: 0 <= i < |rows| && 0 <= j < |rows[i]| ==> Readable(t, rows[i][j])
  }

  /** Fields of the whole database that satisfy `p`, up to row `n`. */
  function Total(rows: seq<Row>, n: nat, p: Field -> bool): nat
    requires n <= |rows|
  {
    if n == 0 then 0 else Total(rows, n - 1, p) + Count(rows[n - 1], p)
  }

  method MigrateField(t: Tools, f: Field, apply: bool, nonce: nat) returns (ok: bool, out: Field, next: nat)
    requires Configured(t.routed)
    ensures ok ==> Readable(t, f)
    ensures !ok ==> !Readable(t, f) || (apply && !Available(t.routed.active))
    ensures ok ==> FieldResult(t, apply, f, out)
  {
    ok, out, next := true, f, nonce;
    if f.value == "" {
      return;
    }
    var plaintext;
    if t.command == ToKeyring && f.keyId != ACTIVE_KEY {
      plaintext := t.legacy.decrypt(f.value, f.keyId);
    } else {
      plaintext := VaultDecrypt(t.routed, f);
    }
    if plaintext.None? {
      return false, f, nonce;
    }
    if apply && !(t.command == ToKeyring && f.keyId == ACTIVE_KEY) {
      var cipher := t.routed.active.encrypt(plaintext.value, nonce);
      if cipher.None? {
        return false, f, nonce;
      }
      ActiveCiphertextsRoute(t.routed, plaintext.value, nonce, cipher.value);
      out, next := Field(cipher.value, ACTIVE_KEY), nonce + 1;
    }
  }

  method MigrateRow(t: Tools, row: Row, apply: bool, nonce: nat)
    returns (ok: bool, out: Row, secrets: nat, migrated: nat, next: nat)
    requires Configured(t.routed)
    ensures ok ==> forall j :: 0 <= j < |row| ==> Readable(t, row[j])
    ensures !ok ==> (exists j :: 0 <= j < |row| && !Readable(t, row[j])) || (apply && !Available(t.routed.active))
    ensures ok ==> RowResult(t, apply, row, out)
    ensures ok ==> secrets == Count(row, NonEmpty) && migrated == if apply then Count(row, Rewrites(t.command)) else 0
  {
    ok, out, secrets, migrated, next := true, [], 0, 0, nonce;
    var rewrites := Rewrites(t.command);
    for j := 0 to |row|
      invariant ok && |out| == j
      invariant forall i :: 0 <= i < j ==> Readable(t, row[i])
      invariant forall i :: 0 <= i < j ==> FieldResult(t, apply, row[i], out[i])
      invariant secrets == CountBefore(row, j, NonEmpty) && migrated == if apply then CountBefore(row, j, rewrites) else 0
    {
      var f;
      ok, f, next := MigrateField(t, row[j], apply, next);
      if !ok {
        return;
      }
      if NonEmpty(row[j]) {
        secrets := secrets + 1;
      }
      if apply && rewrites(row[j]) {
        migrated := migrated + 1;
      }
      out := out + [f];
    }
    CountBeforeIsCount(row, |row|, NonEmpty);
    CountBeforeIsCount(row, |row|, rewrites);
  }

  method MigrateRows(t: Tools, rows: seq<Row>, apply: bool)
    returns (ok: bool, out: seq<Row>, secrets: nat, migrated: nat)
    requires Configured(t.routed)
    ensures ok ==> AllReadable(t, rows)
    ensures !ok ==> !AllReadable(t, rows) || (apply && !Available(t.routed.active))
    ensures ok ==> RowsResult(t, apply, rows, out)
    ensures ok ==> secrets == Total(rows, |rows|, NonEmpty)
    ensures ok ==> migrated == if apply then Total(rows, |rows|, Rewrites(t.command)) else 0
  {
    ok, out, secrets, migrated := true, [], 0, 0;
    var nonce := 0;
    for i := 0 to |rows|
      invariant ok && |out| == i
      invariant forall k, j :: 0 <= k < i && 0 <= j < |rows[k]| ==> Readable(t, rows[k][j])
      invariant forall k :: 0 <= k < i ==> RowResult(t, apply, rows[k], out[k])
      invariant secrets == Total(rows, i, NonEmpty)
      invariant migrated == if apply then Total(rows, i, Rewrites(t.command)) else 0
    {
      var row, s, m;
      ok, row, s, m, nonce := MigrateRow(t, rows[i], apply, nonce);
      if !ok {
        return;
      }
      out, secrets, migrated := out + [row], secrets + s, migrated + m;
    }
  }

  // ----- events -----

  predicate KeyringValid(t: Tools, e: Event) {
    SignatureValid(KeyringOf(t.routed), e)
  }

  predicate LegacySigned(t: Tools, e: Event) {
    e.signature == t.legacy.signature(e.eventHash)
  }

  /** The events a command signs again. */
  function Resigns(t: Tools): Event -> bool {
    (e: Event) => t.command == ToActiveBackend || !KeyringValid(t, e)
  }

  ghost predicate LinkHolds(t: Tools, events: seq<Event>, i: nat)
    requires i < |events|
  {
    && events[i].sequence == i + 1
    && events[i].previousHash == PreviousHash(events, i)
    && (events[i].hashVersion == 2 ==> events[i].eventHash == t.hash(Canonical(events[i])))
  }

  predicate SignatureAccepted(t: Tools, e: Event) {
    if t.command == ToKeyring then e.hashVersion == 2 ==> KeyringValid(t, e) || LegacySigned(t, e)
    else KeyringValid(t, e)
  }

  /** Event `i` passes every check of the command, and the keyring answers about its signature. */
  ghost predicate Acceptable(t: Tools, events: seq<Event>, i: nat)
    requires i < |events|
  {
    LinkHolds(t, events, i) && !Unanswered(KeyringOf(t.routed), events[i]) && SignatureAccepted(t, events[i])
  }

  ghost predicate ChainAcceptable(t: Tools, log: Log) {
    (forall i :: 0 <= i < |log.events| ==> Acceptable(t, log.events, i)) && log.head == EndOf(log.events)
  }

  /** Only the signature may change; a new one is the active backend's. */
  ghost predicate Resigned(t: Tools, before: Event, after: Event) {
    && after == before.(signature := after.signature)
    && if Resigns(t)(before) then after.signature != "" && t.routed.active.verify(after.eventHash, after.signature) == Some(true)
       else after == before
  }

  ghost predicate EventResult(t: Tools, apply: bool, before: Event, after: Event) {
    if apply then Resigned(t, before, after) else after == before
  }

  ghost predicate EventsResult(t: Tools, apply: bool, before: seq<Event>, after: seq<Event>) {
    |after| == |before| && forall i :: 0 <= i < |before| ==> EventResult(t, apply, before[i], after[i])
  }

  method ResignEvent(t: Tools, event: Event, previousHash: Hash, previousSequence: nat, apply: bool, ghost events: seq<Event>, ghost i: nat)
    returns (ok: bool, out: Event)
    requires Configured(t.routed)
    requires i < |events| && event == events[i] && previousHash == PreviousHash(events, i) && previousSequence == i
    ensures ok ==> Acceptable(t, events, i)
    ensures !ok ==> !Acceptable(t, events, i) || (apply && !Available(t.routed.active))
    ensures ok ==> EventResult(t, apply, event, out)
  {
    out := event;
    if event.sequence != previousSequence + 1 || event.previousHash != previousHash {
      return false, out;
    }
    if event.hashVersion == 2 && event.eventHash != t.hash(Canonical(event)) {
      return false, out;
    }
    if Unanswered(KeyringOf(t.routed), event) || !SignatureAccepted(t, event) {
      return false, out;
    }
    if apply && Resigns(t)(event) {
      var signature := t.routed.active.sign(event.eventHash);
      if signature.None? {
        return false, out;
      }
      out := event.(signature := signature.value);
    }
    ok := true;
  }

  method ResignEvents(t: Tools, log: Log, apply: bool) returns (ok: bool, out: seq<Event>, resigned: nat)
    requires Configured(t.routed)
    ensures ok ==> ChainAcceptable(t, log)
    ensures !ok ==> !ChainAcceptable(t, log) || (apply && !Available(t.routed.active))
    ensures ok ==> EventsResult(t, apply, log.events, out)
    ensures ok ==> resigned == if apply then Count(log.events, Resigns(t)) else 0
  {
    var events := log.events;
    var previousHash, previousSequence := "", 0;
    ok, out, resigned := true, [], 0;
    for i := 0 to |events|
      invariant ok && |out| == i
      invariant previousHash == PreviousHash(events, i) && previousSequence == PreviousSequence(events, i) == i
      invariant forall k :: 0 <= k < i ==> Acceptable(t, events, k)
      invariant forall k :: 0 <= k < i ==> EventResult(t, apply, events[k], out[k])
      invariant resigned == if apply then CountBefore(events, i, Resigns(t)) else 0
    {
      var event;
      ok, event := ResignEvent(t, events[i], previousHash, previousSequence, apply, events, i);
      if !ok {
        return;
      }
      if apply && Resigns(t)(events[i]) {
        resigned := resigned + 1;
      }
      out := out + [event];
      previousHash, previousSequence := events[i].eventHash, events[i].sequence;
    }
    CountBeforeIsCount(events, |events|, Resigns(t));
    ok := log.head.lastSequence == previousSequence && log.head.lastHash == previousHash;
  }

  // ----- a whole run -----

  /** What the database must satisfy for the command to go through. */
  ghost predicate Ready(t: Tools, db: Database) {
    && (t.command == ToKeyring ==> t.legacy.vaultKeysPresent && t.legacy.auditKeyPresent)
    && AllReadable(t, db.rows)
    && ChainAcceptable(t, db.log)
  }

  /** The database after an applied run, the completion event included. */
  ghost predicate Applied(t: Tools, before: Database, after: Database, entry: Entry) {
    && RowsResult(t, true, before.rows, after.rows)
    && |after.log.events| == |before.log.events| + 1
    && var resigned := after.log.events[..|before.log.events|];
       && EventsResult(t, true, before.log.events, resigned)
       && Record(t.hash, KeyringOf(t.routed), t.columns, Log(resigned, before.log.head), entry) == Some(after.log)
  }

  class MigrationTables {
    var rows: seq<Row>
    var log: Log

    ghost function Contents(): Database
      reads this
    {
      Database(rows, log)
    }

    constructor (db: Database)
      ensures Contents() == db
    {
      rows, log := db.rows, db.log;
    }

    /** `None` is the aborted command. */
    method Run(t: Tools, apply: bool, entry: Entry) returns (report: Option<Report>)
      requires Configured(t.routed)
      modifies this
      ensures report.Some? ==> Ready(t, old(Contents()))
      ensures report.None? ==> !Ready(t, old(Contents())) || (apply && !Available(t.routed.active))
      ensures report.None? || !apply ==> Contents() == old(Contents())
      ensures report.Some? && apply ==> Applied(t, old(Contents()), Contents(), entry)
      ensures report.Some? ==>
                report.value == Report(Total(old(rows), |old(rows)|, NonEmpty),
                                       if apply then Total(old(rows), |old(rows)|, Rewrites(t.command)) else 0,
                                       |old(log).events|,
                                       if apply then Count(old(log).events, Resigns(t)) else 0)
    {
      if t.command == ToKeyring && !(t.legacy.vaultKeysPresent && t.legacy.auditKeyPresent) {
        return None;
      }
      var savedRows, savedLog := rows, log;
      var ok, newRows, secrets, migrated := MigrateRows(t, rows, apply);
      if !ok {
        return None;
      }
      if apply {
        rows := newRows;
      }
      var newEvents, resigned;
      ok, newEvents, resigned := ResignEvents(t, log, apply);
      if !ok {
        rows := savedRows;
        return None;
      }
      if apply {
        var recorded := Record(t.hash, KeyringOf(t.routed), t.columns, Log(newEvents, log.head), entry);
        if recorded.None? {
          rows := savedRows;
          return None;
        }
        log := recorded.value;
        assert log.events[..|savedLog.events|] == newEvents;
      }
      report := Some(Report(secrets, migrated, |savedLog.events|, resigned));
    }
  }

  // ----- what an applied run leaves behind -----

  /** Every field keeps its plaintext; every non-empty one is under the active key and needs no old backend. */
  lemma PlaintextsSurvive(t: Tools, before: Database, after: Database, entry: Entry, i: nat, j: nat)
    requires Configured(t.routed) && Ready(t, before) && Applied(t, before, after, entry)
    requires i < |before.rows| && j < |before.rows[i]|
    ensures i < |after.rows| && j < |after.rows[i]|
    ensures var f, g := before.rows[i][j], after.rows[i][j];
            && (f.value == "" ==> g == f)
            && (f.value != "" ==> g.value != "" && PlainOf(t, f).Some? && VaultDecrypt(t.routed, g) == PlainOf(t, f))
            && (f.value != "" ==> g.keyId == ACTIVE_KEY)
            && (f.value != "" && t.command == ToActiveBackend ==> VaultDecrypt(Alone(t.routed), g) == PlainOf(t, f))
  {
    assert RowResult(t, true, before.rows[i], after.rows[i]);
    assert FieldResult(t, true, before.rows[i][j], after.rows[i][j]);
    assert Readable(t, before.rows[i][j]);
  }

  ghost predicate KnownVersions(log: Log) {
    forall i :: 0 <= i < |log.events| ==> log.events[i].hashVersion == 1 || log.events[i].hashVersion == 2
  }

  lemma ResignedEventsRecognized(t: Tools, before: Event, after: Event)
    requires Configured(t.routed) && Resigned(t, before, after)
    ensures KeyringValid(t, after)
    ensures t.command == ToActiveBackend ==> SignatureValid(KeyringOf(Alone(t.routed)), after)
  {
  }

  lemma KeyringSigns(r: Routed)
    requires Configured(r)
    ensures Signs(KeyringOf(r))
  {
  }

  /** A chain the command accepted, with signatures that `keyring` recognizes, verifies if every version is known. */
  lemma AcceptedChainIntact(t: Tools, log: Log, events: seq<Event>, keyring: Keyring)
    requires ChainAcceptable(t, log) && |events| == |log.events|
    requires forall i :: 0 <= i < |events| ==> events[i] == log.events[i].(signature := events[i].signature)
    requires forall i :: 0 <= i < |events| ==> SignatureValid(keyring, events[i])
    ensures Intact(t.hash, keyring, Log(events, log.head)) <==> KnownVersions(log)
  {
    forall i | 0 <= i < |events|
      ensures InPlace(t.hash, keyring, events, i) <==> (log.events[i].hashVersion == 1 || log.events[i].hashVersion == 2)
    {
      assert Acceptable(t, log.events, i);
      assert i > 0 ==> events[i - 1].eventHash == log.events[i - 1].eventHash;
      assert Canonical(events[i]) == Canonical(log.events[i]);
    }
    assert EndOf(events) == EndOf(log.events);
  }

  lemma AcceptedHeadCounts(t: Tools, log: Log)
    requires ChainAcceptable(t, log)
    ensures log.head.lastSequence == |log.events|
  {
    if log.events != [] {
      assert Acceptable(t, log.events, |log.events| - 1);
    }
  }

  /** The completion event reads back as it was hashed. */
  predicate CompletionReadsBack(t: Tools, before: Database, entry: Entry) {
    ReadsBack(t.hash, t.columns, before.log.head, entry)
  }

  /** It does if the columns keep it: it has no address, so only its counts matter. */
  lemma KeptCompletionReadsBack(t: Tools, before: Database, entry: Entry)
    requires entry.sourceIp.None?
    requires CanonOf(OrEmpty(t.columns.json(OrEmpty(entry.metadata)))) == CanonOf(OrEmpty(OrEmpty(entry.metadata)))
    ensures CompletionReadsBack(t, before, entry)
  {
    assert Kept(t.columns, entry);
    KeptIffSamePayload(t.hash, t.columns, before.log.head, entry);
  }

  /** The migrated log passes the verifier exactly when it holds no event of an unknown version and its completion reads back. */
  lemma MigratedLogVerifiesIff(t: Tools, before: Database, after: Database, entry: Entry)
    requires Configured(t.routed) && Ready(t, before) && Applied(t, before, after, entry)
    ensures Intact(t.hash, KeyringOf(t.routed), after.log) <==>
            KnownVersions(before.log) && CompletionReadsBack(t, before, entry)
  {
    var resigned := after.log.events[..|before.log.events|];
    SignaturesAfterRun(t, before.log.events, resigned);
    AcceptedChainIntact(t, before.log, resigned, KeyringOf(t.routed));
    AcceptedHeadCounts(t, before.log);
    SameEnd(before.log.events, resigned);
    KeyringSigns(t.routed);
    RecordedIntactIff(t.hash, KeyringOf(t.routed), t.columns, Log(resigned, before.log.head), entry);
  }

  /** A log of one event, signed by the active backend. */
  function OneEventLog(t: Tools, e: Event): Log {
    var signature := t.routed.active.sign(e.eventHash);
    Log([e.(sequence := 1, previousHash := "", signature := if signature.Some? then signature.value else "")],
        Head(1, e.eventHash))
  }

  /** An event of an unknown version goes through either command, and the log it leaves is refused by the verifier. */
  lemma UnknownVersionIsMigratedAndRefused(t: Tools, e: Event, entry: Entry) returns (after: Database)
    requires Configured(t.routed) && Available(t.routed.active)
    requires t.command == ToKeyring ==> t.legacy.vaultKeysPresent && t.legacy.auditKeyPresent
    requires e.hashVersion != 1 && e.hashVersion != 2
    ensures var before := Database([], OneEventLog(t, e));
            && Ready(t, before) && Applied(t, before, after, entry)
            && !Intact(t.hash, KeyringOf(t.routed), after.log)
  {
    var log := OneEventLog(t, e);
    assert Acceptable(t, log.events, 0);
    var recorded := Record(t.hash, KeyringOf(t.routed), t.columns, log, entry);
    after := Database([], recorded.value);
    assert after.log.events[..1] == log.events;
    assert EventResult(t, true, log.events[0], after.log.events[..1][0]);
    MigratedLogVerifiesIff(t, Database([], log), after, entry);
  }

  /** A backend that marks its ciphertexts and signatures, to show that the assumptions can be met. */
  function Marking(): Backend {
    Backend(false, (p: Plain, n: nat) => Some("#" + p), (c: Cipher) => if c != "" then Some(c[1..]) else None,
            (h: Hash) => Some("#" + h), (h: Hash, s: Signature) => Some(s == "#" + h))
  }

  lemma MarkingIsIdeal()
    ensures Configured(Routed(Marking(), None)) && Available(Marking())
  {
    forall p: Plain, n: nat, c: Cipher | Marking().encrypt(p, n) == Some(c)
      ensures c != "" && Marking().decrypt(c) == Some(p) && !VaultPrefixed(c)
    {
      assert c == "#" + p && c[1..] == p && c[0] == '#';
      assert c[0] != VAULT_PREFIX[0];
    }
  }

  lemma SignaturesAfterRun(t: Tools, before: seq<Event>, after: seq<Event>)
    requires Configured(t.routed) && EventsResult(t, true, before, after)
    ensures forall i :: 0 <= i < |after| ==> after[i] == before[i].(signature := after[i].signature)
    ensures forall i :: 0 <= i < |after| ==> KeyringValid(t, after[i])
    ensures t.command == ToActiveBackend ==> forall i :: 0 <= i < |after| ==> SignatureValid(KeyringOf(Alone(t.routed)), after[i])
  {
    forall i | 0 <= i < |after|
      ensures after[i] == before[i].(signature := after[i].signature) && KeyringValid(t, after[i])
      ensures t.command == ToActiveBackend ==> SignatureValid(KeyringOf(Alone(t.routed)), after[i])
    {
      assert EventResult(t, true, before[i], after[i]);
      ResignedEventsRecognized(t, before[i], after[i]);
    }
  }

  lemma SameEnd(before: seq<Event>, after: seq<Event>)
    requires |before| == |after|
    requires forall i :: 0 <= i < |after| ==> after[i] == before[i].(signature := after[i].signature)
    ensures EndOf(after) == EndOf(before)
  {
  }

  /** After the backend command the old local backend can go: the log verifies without it under the same condition. */
  lemma OldBackendIsNotNeeded(t: Tools, before: Database, after: Database, entry: Entry)
    requires t.command == ToActiveBackend
    requires Configured(t.routed) && Ready(t, before) && Applied(t, before, after, entry)
    ensures Intact(t.hash, KeyringOf(Alone(t.routed)), after.log) <==>
            KnownVersions(before.log) && CompletionReadsBack(t, before, entry)
  {
    var resigned := after.log.events[..|before.log.events|];
    var alone := KeyringOf(Alone(t.routed));
    SignaturesAfterRun(t, before.log.events, resigned);
    AcceptedChainIntact(t, before.log, resigned, alone);
    AcceptedHeadCounts(t, before.log);
    SameEnd(before.log.events, resigned);
    KeyringSigns(Alone(t.routed));
    assert Record(t.hash, alone, t.columns, Log(resigned, before.log.head), entry) == Some(after.log);
    RecordedIntactIff(t.hash, alone, t.columns, Log(resigned, before.log.head), entry);
  }

  lemma {:induction false} NoneLeft(rows: seq<Row>, n: nat, p: Field -> bool)
    requires n <= |rows|
    requires forall i, j :: 0 <= i < n && 0 <= j < |rows[i]| ==> !p(rows[i][j])
    ensures Total(rows, n, p) == 0
  {
    if n > 0 {
      NoneLeft(rows, n - 1, p);
      CountNone(rows[n - 1], p);
    }
  }

  lemma AppliedEventsRecognized(t: Tools, before: Database, after: Database, entry: Entry, e: nat)
    requires Configured(t.routed) && Applied(t, before, after, entry) && e < |after.log.events|
    ensures KeyringValid(t, after.log.events[e])
  {
    var resigned := after.log.events[..|before.log.events|];
    SignaturesAfterRun(t, before.log.events, resigned);
    if e < |resigned| {
      assert after.log.events[e] == resigned[e];
    } else {
      KeyringSigns(t.routed);
    }
  }

  /** Applied again, the secrets migration finds nothing to encrypt and nothing to sign. */
  lemma NothingLeftToMigrate(t: Tools, before: Database, after: Database, entry: Entry)
    requires t.command == ToKeyring
    requires Configured(t.routed) && Ready(t, before) && Applied(t, before, after, entry)
    ensures Total(after.rows, |after.rows|, Rewrites(ToKeyring)) == 0
    ensures Count(after.log.events, Resigns(t)) == 0
  {
    forall i, j | 0 <= i < |after.rows| && 0 <= j < |after.rows[i]|
      ensures !Stale(after.rows[i][j])
    {
      assert RowResult(t, true, before.rows[i], after.rows[i]);
      PlaintextsSurvive(t, before, after, entry, i, j);
    }
    NoneLeft(after.rows, |after.rows|, Stale);
    forall e | 0 <= e < |after.log.events|
      ensures !Resigns(t)(after.log.events[e])
    {
      AppliedEventsRecognized(t, before, after, entry, e);
    }
    CountNone(after.log.events, Resigns(t));
  }

  /** And such a second run leaves rows and signatures exactly as they are. */
  lemma SecondRunOnlyRecords(t: Tools, before: Database, first: Database, second: Database, entry: Entry, entry': Entry)
    requires t.command == ToKeyring
    requires Configured(t.routed) && Ready(t, before) && Applied(t, before, first, entry) && Applied(t, first, second, entry')
    ensures second.rows == first.rows
    ensures second.log.events[..|first.log.events|] == first.log.events
  {
    forall i | 0 <= i < |first.rows|
      ensures second.rows[i] == first.rows[i]
    {
      assert RowResult(t, true, before.rows[i], first.rows[i]) && RowResult(t, true, first.rows[i], second.rows[i]);
      forall j | 0 <= j < |first.rows[i]|
        ensures second.rows[i][j] == first.rows[i][j]
      {
        PlaintextsSurvive(t, before, first, entry, i, j);
        assert FieldResult(t, true, first.rows[i][j], second.rows[i][j]);
      }
    }
    forall e | 0 <= e < |first.log.events|
      ensures second.log.events[e] == first.log.events[e]
    {
      AppliedEventsRecognized(t, before, first, entry, e);
      assert EventResult(t, true, first.log.events[e], second.log.events[..|first.log.events|][e]);
    }
  }

  lemma MigratedEventAcceptable(t: Tools, b: Tools, before: Database, after: Database, entry: Entry, e: nat)
    requires t.command == ToKeyring && b == t.(command := ToActiveBackend)
    requires Configured(t.routed) && Ready(t, before) && Applied(t, before, after, entry) && e < |after.log.events|
    ensures Acceptable(b, after.log.events, e) <==> e < |before.log.events| || CompletionReadsBack(t, before, entry)
  {
    var resigned := after.log.events[..|before.log.events|];
    SignaturesAfterRun(t, before.log.events, resigned);
    AcceptedHeadCounts(t, before.log);
    AppliedEventsRecognized(t, before, after, entry, e);
    if e < |resigned| {
      assert after.log.events[e] == resigned[e] && Acceptable(t, before.log.events, e);
      assert e > 0 ==> after.log.events[e - 1] == resigned[e - 1];
    } else {
      SameEnd(before.log.events, resigned);
      KeyringSigns(t.routed);
      RecordedIntactIff(t.hash, KeyringOf(t.routed), t.columns, Log(resigned, before.log.head), entry);
      NewEventInPlaceIff(t.hash, KeyringOf(t.routed), t.columns, Log(resigned, before.log.head), entry);
    }
  }

  /** The secrets migration makes the database ready for the backend migration exactly if its completion event reads back. */
  lemma SecretsMigrationPreparesBackendMigration(t: Tools, before: Database, after: Database, entry: Entry)
    requires t.command == ToKeyring
    requires Configured(t.routed) && Ready(t, before) && Applied(t, before, after, entry)
    ensures Ready(t.(command := ToActiveBackend), after) <==> CompletionReadsBack(t, before, entry)
  {
    var b := t.(command := ToActiveBackend);
    forall i, j | 0 <= i < |after.rows| && 0 <= j < |after.rows[i]|
      ensures Readable(b, after.rows[i][j])
    {
      assert RowResult(t, true, before.rows[i], after.rows[i]);
      PlaintextsSurvive(t, before, after, entry, i, j);
    }
    forall e | 0 <= e < |after.log.events|
      ensures Acceptable(b, after.log.events, e) <==> e < |before.log.events| || CompletionReadsBack(t, before, entry)
    {
      MigratedEventAcceptable(t, b, before, after, entry, e);
    }
    var n := |before.log.events|;
    assert Acceptable(b, after.log.events, n) <==> CompletionReadsBack(t, before, entry);
    assert ChainAcceptable(b, after.log) <==> CompletionReadsBack(t, before, entry);
  }
}
