/** One-time codes: the six-digit value of a digest, the counter a token matches, and a user's second factors. */
module OneTimeCode {
  import opened Common

  predicate IsDigest(digest: seq<nat>) {
    |digest| == 20 && forall i :: 0 <= i < 20 ==> digest[i] < 256
  }

  // ----- the value of a digest -----

  /** Four bytes at the offset named by the last half-byte, most significant first, without the top bit. */
  function Truncated(digest: seq<nat>): (value: nat)
    requires IsDigest(digest)
    ensures value < 0x8000_0000
  {
    var offset := digest[19] % 16;
    var word := digest[offset] * 0x100_0000 + digest[offset + 1] * 0x1_0000 + digest[offset + 2] * 0x100
                + digest[offset + 3];
    word % 0x8000_0000
  }

  /** Section 5.3 of RFC 4226 clears the top bit of the first byte instead. */
  lemma TruncatedClearsTopBit(digest: seq<nat>)
    requires IsDigest(digest)
    ensures var offset := digest[19] % 16;
            Truncated(digest) == digest[offset] % 128 * 0x100_0000 + digest[offset + 1] * 0x1_0000
                                 + digest[offset + 2] * 0x100 + digest[offset + 3]
  {
    var offset := digest[19] % 16;
    var top, low := digest[offset], digest[offset + 1] * 0x1_0000 + digest[offset + 2] * 0x100 + digest[offset + 3];
    assert top == top / 128 * 128 + top % 128;
    assert top * 0x100_0000 + low == top / 128 * 0x8000_0000 + (top % 128 * 0x100_0000 + low);
  }

  predicate IsDigit(c: char) {
    '0' <= c <= '9'
  }

  /** The decimal digits of `value`, filled with zeros on the left up to `digits`. */
  function Decimal(value: nat, digits: nat): (s: string)
    ensures |s| == digits && forall i :: 0 <= i < digits ==> IsDigit(s[i])
  {
    if digits == 0 then "" else Decimal(value / 10, digits - 1) + [(value % 10) as char + '0']
  }

  function DigitValue(c: char): nat
    requires IsDigit(c)
  {
    c as int - '0' as int
  }

  function Parsed(s: string): nat
    requires forall i :: 0 <= i < |s| ==> IsDigit(s[i])
  {
    if s == "" then 0 else Parsed(s[..|s| - 1]) * 10 + DigitValue(s[|s| - 1])
  }

  function Power10(n: nat): nat {
    if n == 0 then 1 else 10 * Power10(n - 1)
  }

  lemma {:induction false} DecimalParses(value: nat, digits: nat)
    requires value < Power10(digits)
    ensures Parsed(Decimal(value, digits)) == value
  {
    if digits > 0 {
      DecimalParses(value / 10, digits - 1);
      var s := Decimal(value, digits);
      assert s[..digits - 1] == Decimal(value / 10, digits - 1);
    }
  }

  function Code(digest: seq<nat>): (s: string)
    requires IsDigest(digest)
    ensures |s| == 6 && forall i :: 0 <= i < 6 ==> IsDigit(s[i])
  {
    Decimal(Truncated(digest) % 1000000, 6)
  }

  /** A code reads back as the digest's value, and so tells exactly the values modulo a million apart. */
  lemma {:induction false} CodeIsValue(digest: seq<nat>, other: seq<nat>)
    requires IsDigest(digest) && IsDigest(other)
    ensures Parsed(Code(digest)) == Truncated(digest) % 1000000
    ensures Code(digest) == Code(other) <==> Truncated(digest) % 1000000 == Truncated(other) % 1000000
  {
    assert Power10(6) == 1000000 by {
      assert Power10(3) == 1000;
    }
    DecimalParses(Truncated(digest) % 1000000, 6);
    DecimalParses(Truncated(other) % 1000000, 6);
  }

  // ----- the counter a token matches -----

  datatype Match = NoMatch | Counter(counter: nat) | Raised

  /** The code compared for a counter: the zero timestamp counts as missing and is replaced by the clock. */
  function CodeTried(code: nat -> string, current: nat, counter: nat): string {
    if counter == 0 then code(current) else code(counter)
  }

  predicate Ascii(token: string) {
    forall i :: 0 <= i < |token| ==> token[i] < 128 as char
  }

  /** The search from `counter` down to `lowest`; a negative counter cannot be packed and raises. */
  function SearchDown(code: nat -> string, token: string, current: nat, counter: int, lowest: int): Match
    decreases counter - lowest
  {
    if counter < lowest then NoMatch
    else if counter < 0 || !Ascii(token) then Raised
    else if CodeTried(code, current, counter) == token then Counter(counter)
    else SearchDown(code, token, current, counter - 1, lowest)
  }

  function Matching(isDigit: char -> bool, code: nat -> string, token: string, current: nat, window: nat): Match {
    if token == "" || exists i :: 0 <= i < |token| && !isDigit(token[i]) then NoMatch
    else SearchDown(code, token, current, current + window, current - window)
  }

  method MatchingCounter(isDigit: char -> bool, code: nat -> string, token: string, current: nat, window: nat)
    returns (m: Match)
    ensures m == Matching(isDigit, code, token, current, window)
  {
    if token == "" || exists i :: 0 <= i < |token| && !isDigit(token[i]) {
      return NoMatch;
    }
    var offset := window as int;
    while offset >= 0 - window
      invariant offset >= 0 - window - 1
      invariant Matching(isDigit, code, token, current, window)
             == SearchDown(code, token, current, current + offset, current - window)
      decreases offset + window
    {
      var counter := current + offset;
      if counter < 0 || !Ascii(token) {
        return Raised;
      }
      if CodeTried(code, current, counter) == token {
        return Counter(counter);
      }
      offset := offset - 1;
    }
    return NoMatch;
  }

  /** The latest counter of the window whose code is the token. */
  ghost predicate IsLatest(code: nat -> string, token: string, current: nat, window: nat, counter: nat) {
    && current - window <= counter <= current + window && code(counter) == token
    && forall c: nat :: counter < c <= current + window ==> code(c) != token
  }

  ghost predicate Tellable(isDigit: char -> bool, token: string) {
    token != "" && Ascii(token) && forall i :: 0 <= i < |token| ==> isDigit(token[i])
  }

  lemma {:induction false} SearchFindsLatest(code: nat -> string, token: string, current: nat, from: int, lowest: int)
    requires 1 <= lowest <= from + 1 && Ascii(token)
    ensures var m := SearchDown(code, token, current, from, lowest);
            && !m.Raised?
            && (m.Counter? ==> lowest <= m.counter <= from && code(m.counter) == token)
            && (m.Counter? ==> forall c: nat :: m.counter < c <= from ==> code(c) != token)
            && (m.NoMatch? ==> forall c: nat :: lowest <= c <= from ==> code(c) != token)
    decreases from - lowest
  {
    if lowest <= from {
      SearchFindsLatest(code, token, current, from - 1, lowest);
    }
  }

  /** Once the window is past counter zero, a token of digits gives the latest matching counter of the window. */
  lemma MatchIsLatest(isDigit: char -> bool, code: nat -> string, token: string, current: nat, window: nat)
    requires Tellable(isDigit, token) && current > window
    ensures var m := Matching(isDigit, code, token, current, window);
            && !m.Raised?
            && (m.Counter? ==> IsLatest(code, token, current, window, m.counter))
            && (m.NoMatch? ==> forall c: nat :: current - window <= c <= current + window ==> code(c) != token)
  {
    SearchFindsLatest(code, token, current, current + window, current - window);
  }

  /** At the very start of the clock, exactly which tokens are treated as they would be later (window one). */
  lemma MatchIsLatestIff(isDigit: char -> bool, code: nat -> string, token: string, current: nat)
    requires Tellable(isDigit, token)
    ensures var m := Matching(isDigit, code, token, current, 1);
            ((m.Counter? && IsLatest(code, token, current, 1, m.counter))
             || (m.NoMatch? && forall c: nat :: current - 1 <= c <= current + 1 ==> code(c) != token))
            <==> (current >= 2 || code(current) == token || code(current + 1) == token
                  || (current == 1 && code(0) != token))
  {
    if current >= 2 {
      MatchIsLatest(isDigit, code, token, current, 1);
    } else {
      assert SearchDown(code, token, current, current + 1, current - 1)
          == if code(current + 1) == token then Counter(current + 1)
             else SearchDown(code, token, current, current, current - 1);
      assert SearchDown(code, token, current, current, current - 1)
          == if code(current) == token then Counter(current)
             else SearchDown(code, token, current, current - 1, current - 1);
      if current == 1 {
        assert SearchDown(code, token, current, 0, 0)
            == if code(1) == token then Counter(0) else SearchDown(code, token, current, -1, 0);
      } else {
        assert SearchDown(code, token, current, -1, -1) == Raised;
      }
    }
  }

  /** The code tried for this counter of the window is the token. */
  ghost predicate Fits(code: nat -> string, token: string, current: nat, window: nat, counter: nat) {
    current - window <= counter <= current + window && CodeTried(code, current, counter) == token
  }

  lemma {:induction false} SearchFindsLatestTried(code: nat -> string, token: string, current: nat, from: int, lowest: int)
    requires Ascii(token)
    ensures var m := SearchDown(code, token, current, from, lowest);
            if m.Counter? then
              && lowest <= m.counter <= from && CodeTried(code, current, m.counter) == token
              && forall c: nat :: m.counter < c <= from ==> CodeTried(code, current, c) != token
            else
              forall c: nat :: lowest <= c <= from ==> CodeTried(code, current, c) != token
    decreases from - lowest
  {
    if lowest <= from {
      SearchFindsLatestTried(code, token, current, from - 1, lowest);
    }
  }

  /** Whatever the clock, a token of digits gives the latest counter of the window that fits, or none fits. */
  lemma MatchIsLatestFit(isDigit: char -> bool, code: nat -> string, token: string, current: nat, window: nat)
    requires Tellable(isDigit, token)
    ensures var m := Matching(isDigit, code, token, current, window);
            if m.Counter? then
              Fits(code, token, current, window, m.counter) && forall c: nat :: Fits(code, token, current, window, c) ==> c <= m.counter
            else
              forall c: nat :: !Fits(code, token, current, window, c)
  {
    SearchFindsLatestTried(code, token, current, current + window, current - window);
  }

  /** A match is always within the window, whatever the clock. */
  lemma {:induction false} MatchIsWithinWindow(code: nat -> string, token: string, current: nat, from: int, lowest: int)
    ensures var m := SearchDown(code, token, current, from, lowest);
            m.Counter? ==> lowest <= m.counter <= from && CodeTried(code, current, m.counter) == token
    decreases from - lowest
  {
    if lowest <= from {
      MatchIsWithinWindow(code, token, current, from - 1, lowest);
    }
  }
}

/** A user's second factors: one authenticator device and its single-use recovery codes. */
module Mfa {
  import opened Common
  import opened OneTimeCode

  /** Character classes, upper-casing and password checking, as the platform provides them. */
  datatype Platform = Platform(isDigit: char -> bool, isAlnum: char -> bool, upper: string -> string,
                               check: (string, string) -> bool)

  /** `code` gives the device's code for each counter; `last` is the last accepted counter. */
  datatype Device = Device(code: nat -> string, confirmed: bool, last: Option<nat>)
  datatype Row = Row(hash: string, used: bool)
  datatype Account = Account(device: Option<Device>, rows: seq<Row>)

  datatype Outcome = Success | Failure | Error

  const WINDOW := 1

  // ----- the operations -----

  function Enrolled(a: Account, code: nat -> string): Account {
    a.(device := Some(Device(code, false, None)))
  }

  /** Confirmation does not look at whether the device is confirmed already; its callers do. */
  function Confirm(on: Platform, a: Account, token: string, current: nat): (Outcome, Account)
    requires a.device.Some?
  {
    match Matching(on.isDigit, a.device.value.code, token, current, WINDOW)
    case Raised => (Error, a)
    case NoMatch => (Failure, a)
    case Counter(c) => (Success, a.(device := Some(a.device.value.(confirmed := true, last := Some(c)))))
  }

  function VerifyTotp(on: Platform, a: Account, token: string, current: nat): (Outcome, Account) {
    if a.device.None? || !a.device.value.confirmed then (Failure, a)
    else match Matching(on.isDigit, a.device.value.code, token, current, WINDOW)
         case Raised => (Error, a)
         case NoMatch => (Failure, a)
         case Counter(c) =>
           if a.device.value.last.Some? && c <= a.device.value.last.value then (Failure, a)
           else (Success, a.(device := Some(a.device.value.(last := Some(c)))))
  }

  function Alphanumeric(on: Platform, s: string): string {
    if s == "" then ""
    else Alphanumeric(on, s[..|s| - 1]) + if on.isAlnum(s[|s| - 1]) then [s[|s| - 1]] else ""
  }

  function Normalized(on: Platform, token: string): string {
    Alphanumeric(on, on.upper(token))
  }

  /** The first unused row from `i` on whose hash the code satisfies, or the end. */
  function FindRow(on: Platform, rows: seq<Row>, code: string, i: nat): (k: nat)
    requires i <= |rows|
    ensures i <= k <= |rows|
    ensures k < |rows| ==> !rows[k].used && on.check(code, rows[k].hash)
    ensures forall j :: i <= j < k ==> rows[j].used || !on.check(code, rows[j].hash)
    decreases |rows| - i
  {
    if i == |rows| || (!rows[i].used && on.check(code, rows[i].hash)) then i else FindRow(on, rows, code, i + 1)
  }

  function Consume(on: Platform, a: Account, token: string): (Outcome, Account) {
    var code := Normalized(on, token);
    if |code| != 10 || a.device.None? || !a.device.value.confirmed then (Failure, a)
    else
      var k := FindRow(on, a.rows, code, 0);
      if k == |a.rows| then (Failure, a) else (Success, a.(rows := a.rows[k := a.rows[k].(used := true)]))
  }

  function Verify(on: Platform, a: Account, token: string, current: nat): (Outcome, Account) {
    var totp := VerifyTotp(on, a, token, current);
    if totp.0.Failure? then Consume(on, a, token) else totp
  }

  function Fresh(hashes: seq<string>): seq<Row> {
    seq(|hashes|, i requires 0 <= i < |hashes| => Row(hashes[i], false))
  }

  class MfaTables {
    const on: Platform
    var device: Option<Device>
    var rows: seq<Row>

    constructor (on: Platform)
      ensures this.on == on && Now() == Account(None, [])
    {
      this.on, device, rows := on, None, [];
    }

    ghost function Now(): Account
      reads this
    {
      Account(device, rows)
    }

    method BeginEnrolment(code: nat -> string)
      modifies this
      ensures Now() == Enrolled(old(Now()), code)
    {
      device := Some(Device(code, false, None));
    }

    method ConfirmDevice(token: string, current: nat) returns (outcome: Outcome)
      requires device.Some?
      modifies this
      ensures (outcome, Now()) == Confirm(on, old(Now()), token, current)
    {
      var m := MatchingCounter(on.isDigit, device.value.code, token, current, WINDOW);
      if m.Raised? {
        return Error;
      }
      if m.NoMatch? {
        return Failure;
      }
      device := Some(device.value.(confirmed := true, last := Some(m.counter)));
      return Success;
    }

    method VerifyUserTotp(token: string, current: nat) returns (outcome: Outcome)
      modifies this
      ensures (outcome, Now()) == VerifyTotp(on, old(Now()), token, current)
    {
      if device.None? || !device.value.confirmed {
        return Failure;
      }
      var m := MatchingCounter(on.isDigit, device.value.code, token, current, WINDOW);
      if m.Raised? {
        return Error;
      }
      if m.NoMatch? || (device.value.last.Some? && m.counter <= device.value.last.value) {
        return Failure;
      }
      device := Some(device.value.(last := Some(m.counter)));
      return Success;
    }

    method ReplaceRecoveryCodes(hashes: seq<string>)
      modifies this
      ensures Now() == old(Now()).(rows := Fresh(hashes))
    {
      rows := [];
      var i := 0;
      while i < |hashes|
        invariant 0 <= i <= |hashes| && device == old(device)
        invariant |rows| == i && forall j :: 0 <= j < i ==> rows[j] == Row(hashes[j], false)
      {
        rows := rows + [Row(hashes[i], false)];
        i := i + 1;
      }
    }

    method ConsumeRecoveryCode(token: string) returns (outcome: Outcome)
      modifies this
      ensures (outcome, Now()) == Consume(on, old(Now()), token)
    {
      var code := Normalized(on, token);
      if |code| != 10 || device.None? || !device.value.confirmed {
        return Failure;
      }
      var i := 0;
      while i < |rows|
        invariant 0 <= i <= |rows| && device == old(device) && rows == old(rows)
        invariant FindRow(on, rows, code, 0) == FindRow(on, rows, code, i)
      {
        if !rows[i].used && on.check(code, rows[i].hash) {
          rows := rows[i := rows[i].(used := true)];
          return Success;
        }
        i := i + 1;
      }
      return Failure;
    }

    method VerifyUserMfa(token: string, current: nat) returns (outcome: Outcome)
      modifies this
      ensures (outcome, Now()) == Verify(on, old(Now()), token, current)
    {
      outcome := VerifyUserTotp(token, current);
      if outcome.Failure? {
        outcome := ConsumeRecoveryCode(token);
      }
    }
  }

  // ----- one verification -----

  predicate Unused(row: Row) {
    !row.used
  }

  /** The device's counter moved past its last one, to a counter next to the clock; nothing else changed. */
  ghost predicate CounterAdvanced(a: Account, b: Account, current: nat) {
    && a.device.Some? && b.device.Some? && a.device.value.confirmed && b.rows == a.rows
    && b.device.value.last.Some? && b.device.value == a.device.value.(last := b.device.value.last)
    && (a.device.value.last.Some? ==> a.device.value.last.value < b.device.value.last.value)
    && current - WINDOW <= b.device.value.last.value <= current + WINDOW
  }

  /** Exactly one row, unused before, is used now; nothing else changed. */
  ghost predicate RowSpent(a: Account, b: Account) {
    && a.device == b.device && a.device.Some? && a.device.value.confirmed
    && exists k :: 0 <= k < |a.rows| && Unused(a.rows[k]) && b.rows == a.rows[k := a.rows[k].(used := true)]
  }

  lemma TotpAdvancesOrKeeps(on: Platform, a: Account, token: string, current: nat)
    ensures var r := VerifyTotp(on, a, token, current);
            if r.0.Success? then CounterAdvanced(a, r.1, current) else r.1 == a
  {
    if a.device.Some? {
      MatchIsWithinWindow(a.device.value.code, token, current, current + WINDOW, current - WINDOW);
    }
  }

  lemma {:induction false} ConsumeSpendsOrKeeps(on: Platform, a: Account, token: string)
    ensures var r := Consume(on, a, token);
            !r.0.Error? && if r.0.Success? then RowSpent(a, r.1) else r.1 == a
  {
    var code := Normalized(on, token);
    var k := FindRow(on, a.rows, code, 0);
    assert k < |a.rows| ==> Unused(a.rows[k]);
  }

  /** Success advances the counter or spends one recovery code, never both; anything else changes nothing. */
  lemma {:induction false} VerificationSpendsOneFactor(on: Platform, a: Account, token: string, current: nat)
    ensures var r := Verify(on, a, token, current);
            if r.0.Success? then CounterAdvanced(a, r.1, current) != RowSpent(a, r.1) else r.1 == a
  {
    TotpAdvancesOrKeeps(on, a, token, current);
    ConsumeSpendsOrKeeps(on, a, token);
    var b := Verify(on, a, token, current).1;
    assert RowSpent(a, b) ==> a.rows != b.rows by {
      if RowSpent(a, b) {
        var k :| 0 <= k < |a.rows| && Unused(a.rows[k]) && b.rows == a.rows[k := a.rows[k].(used := true)];
        assert a.rows[k] != b.rows[k];
      }
    }
  }

  // ----- recovery codes as they are shown -----

  lemma {:induction false} AlphanumericKeeps(on: Platform, s: string)
    requires forall i :: 0 <= i < |s| ==> on.isAlnum(s[i])
    ensures Alphanumeric(on, s) == s
  {
    if s != "" {
      AlphanumericKeeps(on, s[..|s| - 1]);
    }
  }

  lemma {:induction false} AlphanumericConcat(on: Platform, s: string, t: string)
    ensures Alphanumeric(on, s + t) == Alphanumeric(on, s) + Alphanumeric(on, t)
  {
    if t == "" {
      assert s + t == s;
    } else {
      var n := |t| - 1;
      AlphanumericConcat(on, s, t[..n]);
      assert (s + t)[..|s + t| - 1] == s + t[..n];
    }
  }

  function Shown(raw: string): string
    requires |raw| == 10
  {
    raw[..5] + "-" + raw[5..]
  }

  /** A code as shown to the user normalizes to the code that was hashed. */
  lemma ShownCodeNormalizes(on: Platform, raw: string)
    requires |raw| == 10 && (forall i :: 0 <= i < 10 ==> on.isAlnum(raw[i])) && !on.isAlnum('-')
    requires on.upper(Shown(raw)) == Shown(raw)
    ensures Normalized(on, Shown(raw)) == raw
  {
    AlphanumericConcat(on, raw[..5] + "-", raw[5..]);
    AlphanumericConcat(on, raw[..5], "-");
    AlphanumericKeeps(on, raw[..5]);
    AlphanumericKeeps(on, raw[5..]);
    assert "-"[..0] == "";
    assert Alphanumeric(on, "-") == "";
    assert raw[..5] + "" + raw[5..] == raw;
  }

  /** Every code just issued is accepted, as shown, on a confirmed device. */
  lemma IssuedCodeIsAccepted(on: Platform, a: Account, hashes: seq<string>, raw: string, i: nat)
    requires |raw| == 10 && (forall j :: 0 <= j < 10 ==> on.isAlnum(raw[j])) && !on.isAlnum('-')
    requires on.upper(Shown(raw)) == Shown(raw)
    requires i < |hashes| && on.check(raw, hashes[i])
    requires a.device.Some? && a.device.value.confirmed
    ensures Consume(on, a.(rows := Fresh(hashes)), Shown(raw)).0 == Success
  {
    ShownCodeNormalizes(on, raw);
    var rows := Fresh(hashes);
    assert rows[i] == Row(hashes[i], false);
    assert FindRow(on, rows, raw, 0) < |rows|;
  }

  // ----- any run -----

  datatype Step =
    | Enrol(code: nat -> string)
    | ConfirmWith(token: string, current: nat)
    | VerifyWith(token: string, current: nat)
    | Replace(hashes: seq<string>)
    | Reset

  /** A counter that was accepted, with the token and the clock's counter at that moment. */
  datatype Acceptance = Acceptance(counter: nat, token: string, at: nat)

  /** The account, with what happened since its last enrolment and its last issue of recovery codes. */
  datatype History = History(account: Account, accepted: seq<Acceptance>, issued: nat, spent: nat)

  const START := History(Account(None, []), [], 0, 0)

  function NextConfirm(on: Platform, h: History, token: string, current: nat): History {
    if h.account.device.None? then h
    else
      var r := Confirm(on, h.account, token, current);
      if r.0.Success? then h.(account := r.1, accepted := h.accepted + [Acceptance(r.1.device.value.last.value, token, current)]) else h
  }

  function NextVerify(on: Platform, h: History, token: string, current: nat): History {
    var totp := VerifyTotp(on, h.account, token, current);
    var r := Verify(on, h.account, token, current);
    if totp.0.Success? then h.(account := r.1, accepted := h.accepted + [Acceptance(r.1.device.value.last.value, token, current)])
    else if r.0.Success? then h.(account := r.1, spent := h.spent + 1)
    else h
  }

  function Next(on: Platform, h: History, step: Step): History {
    match step
    case Enrol(code) => h.(account := Enrolled(h.account, code), accepted := [])
    case ConfirmWith(token, current) => NextConfirm(on, h, token, current)
    case VerifyWith(token, current) => NextVerify(on, h, token, current)
    case Replace(hashes) =>
      h.(account := h.account.(rows := Fresh(hashes)), issued := |hashes|, spent := 0)
    case Reset => START
  }

  function Run(on: Platform, steps: seq<Step>): History {
    if steps == [] then START else Next(on, Run(on, steps[..|steps| - 1]), steps[|steps| - 1])
  }

  /** Confirmation is only asked for a device that is not confirmed. */
  predicate ConfirmsOnlyNew(on: Platform, steps: seq<Step>) {
    forall i :: 0 <= i < |steps| && steps[i].ConfirmWith? ==>
      var device := Run(on, steps[..i]).account.device; device.Some? ==> !device.value.confirmed
  }

  ghost predicate Increasing(s: seq<Acceptance>) {
    forall i, j :: 0 <= i < j < |s| ==> s[i].counter < s[j].counter
  }

  /** The counter is next to the clock, and after the first minute the token is the device's code for it. */
  ghost predicate Genuine(code: nat -> string, x: Acceptance) {
    && x.at - WINDOW <= x.counter <= x.at + WINDOW
    && (x.at >= 2 ==> code(x.counter) == x.token)
  }

  /** The stored counter is the last accepted one, and a device counts nothing before it is confirmed. */
  ghost predicate CountersSound(h: History) {
    && Increasing(h.accepted)
    && (h.account.device.Some? ==>
         var d := h.account.device.value;
         && (d.confirmed <==> h.accepted != [])
         && (d.last == if h.accepted == [] then None else Some(h.accepted[|h.accepted| - 1].counter))
         && forall i :: 0 <= i < |h.accepted| ==> Genuine(d.code, h.accepted[i]))
    && (h.account.device.None? ==> h.accepted == [])
  }

  lemma AcceptingKeepsCounters(h: History, after: History, x: Acceptance)
    requires CountersSound(h) && h.account.device.Some? && after.account.device.Some?
    requires after.accepted == h.accepted + [x] && Genuine(h.account.device.value.code, x)
    requires h.account.device.value.last.Some? ==> h.account.device.value.last.value < x.counter
    requires after.account.device.value == h.account.device.value.(confirmed := true, last := Some(x.counter))
    ensures CountersSound(after)
  {
  }

  lemma ConfirmKeepsCounters(on: Platform, h: History, token: string, current: nat)
    requires CountersSound(h) && (h.account.device.Some? ==> !h.account.device.value.confirmed)
    ensures CountersSound(NextConfirm(on, h, token, current))
  {
    if h.account.device.Some? {
      MatchIsWithinWindow(h.account.device.value.code, token, current, current + WINDOW, current - WINDOW);
      var r := Confirm(on, h.account, token, current);
      if r.0.Success? {
        var x := Acceptance(r.1.device.value.last.value, token, current);
        AcceptingKeepsCounters(h, NextConfirm(on, h, token, current), x);
      }
    }
  }

  /** A confirmation keeps the order exactly if nothing is stored or matched, or some fitting counter is above the stored one. */
  lemma ConfirmKeepsCountersIff(on: Platform, h: History, token: string, current: nat)
    requires CountersSound(h) && h.account.device.Some?
    ensures var d := h.account.device.value;
            CountersSound(NextConfirm(on, h, token, current)) <==>
            || d.last.None? || !Tellable(on.isDigit, token)
            || (forall c: nat :: !Fits(d.code, token, current, WINDOW, c))
            || (exists c: nat :: Fits(d.code, token, current, WINDOW, c) && d.last.value < c)
  {
    var d := h.account.device.value;
    if Tellable(on.isDigit, token) {
      MatchIsLatestFit(on.isDigit, d.code, token, current, WINDOW);
      if Confirm(on, h.account, token, current).0.Success? {
        ConfirmedCounterDecides(on, h, token, current);
      }
    } else {
      assert Matching(on.isDigit, d.code, token, current, WINDOW).Counter? ==> Ascii(token);
    }
  }

  lemma ConfirmedCounterDecides(on: Platform, h: History, token: string, current: nat)
    requires CountersSound(h) && h.account.device.Some? && Confirm(on, h.account, token, current).0.Success?
    ensures var last := h.account.device.value.last;
            var now := Confirm(on, h.account, token, current).1.device.value.last.value;
            CountersSound(NextConfirm(on, h, token, current)) <==> (last.None? || last.value < now)
  {
    MatchIsWithinWindow(h.account.device.value.code, token, current, current + WINDOW, current - WINDOW);
    var after := NextConfirm(on, h, token, current);
    var last := h.account.device.value.last;
    var x := Acceptance(after.account.device.value.last.value, token, current);
    if last.None? || last.value < x.counter {
      AcceptingKeepsCounters(h, after, x);
    } else {
      var n := |h.accepted|;
      assert after.accepted[n - 1].counter >= after.accepted[n].counter;
    }
  }

  lemma VerifyKeepsCounters(on: Platform, h: History, token: string, current: nat)
    requires CountersSound(h)
    ensures CountersSound(NextVerify(on, h, token, current))
  {
    var totp := VerifyTotp(on, h.account, token, current);
    if totp.0.Success? {
      MatchIsWithinWindow(h.account.device.value.code, token, current, current + WINDOW, current - WINDOW);
      var x := Acceptance(totp.1.device.value.last.value, token, current);
      AcceptingKeepsCounters(h, NextVerify(on, h, token, current), x);
    } else {
      ConsumeSpendsOrKeeps(on, h.account, token);
    }
  }

  lemma CountersKept(on: Platform, h: History, step: Step)
    requires CountersSound(h)
    requires step.ConfirmWith? && h.account.device.Some? ==> !h.account.device.value.confirmed
    ensures CountersSound(Next(on, h, step))
  {
    match step
    case ConfirmWith(token, current) => ConfirmKeepsCounters(on, h, token, current);
    case VerifyWith(token, current) => VerifyKeepsCounters(on, h, token, current);
    case _ =>
  }

  /** Between two enrolments every accepted counter is greater than all before it, and each one is genuine. */
  lemma {:induction false} AcceptedCountersIncrease(on: Platform, steps: seq<Step>)
    requires ConfirmsOnlyNew(on, steps)
    ensures CountersSound(Run(on, steps))
  {
    if steps != [] {
      var n := |steps| - 1;
      assert forall i :: 0 <= i <= n ==> steps[..n][..i] == steps[..i];
      AcceptedCountersIncrease(on, steps[..n]);
      CountersKept(on, Run(on, steps[..n]), steps[n]);
    }
  }

  /** A confirmation of an already confirmed device can take the counter back. */
  lemma RepeatedConfirmationCanLowerCounter(on: Platform, a: Account, code: nat -> string, token: string, current: nat)
    requires a.device == Some(Device(code, true, Some(current))) && current >= 2
    requires Tellable(on.isDigit, token) && code(current - 1) == token
    requires code(current) != token && code(current + 1) != token
    ensures var r := Confirm(on, a, token, current); r.0.Success? && r.1.device.value.last == Some((current - 1) as nat)
  {
    MatchIsLatest(on.isDigit, code, token, current, WINDOW);
  }

  /** Every issued recovery code is either still unused or was spent by one verification. */
  ghost predicate CodesBalance(h: History) {
    h.issued == h.spent + Count(h.account.rows, Unused)
  }

  lemma {:induction false} FreshIsUnused(hashes: seq<string>)
    ensures Count(Fresh(hashes), Unused) == |hashes|
  {
    CountAll(Fresh(hashes), Unused);
  }

  lemma SpendingCounts(a: Account, b: Account)
    requires RowSpent(a, b)
    ensures Count(a.rows, Unused) == Count(b.rows, Unused) + 1
  {
    var k :| 0 <= k < |a.rows| && Unused(a.rows[k]) && b.rows == a.rows[k := a.rows[k].(used := true)];
    CountUpdate(a.rows, k, a.rows[k].(used := true), Unused);
  }

  lemma BalanceKept(on: Platform, h: History, step: Step)
    requires CodesBalance(h)
    ensures CodesBalance(Next(on, h, step))
  {
    match step
    case VerifyWith(token, current) =>
      TotpAdvancesOrKeeps(on, h.account, token, current);
      ConsumeSpendsOrKeeps(on, h.account, token);
      var after := Consume(on, h.account, token);
      if after.0.Success? {
        SpendingCounts(h.account, after.1);
      }
    case Replace(hashes) => FreshIsUnused(hashes);
    case _ =>
  }

  /** So recovery codes never open more sessions than were issued since they were last replaced. */
  lemma {:induction false} RecoveryIsConserved(on: Platform, steps: seq<Step>)
    ensures CodesBalance(Run(on, steps))
  {
    if steps != [] {
      RecoveryIsConserved(on, steps[..|steps| - 1]);
      BalanceKept(on, Run(on, steps[..|steps| - 1]), steps[|steps| - 1]);
    }
  }
}
