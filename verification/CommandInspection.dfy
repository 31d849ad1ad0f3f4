/**
 * Input from the browser to an SSH target: the gateway assembles command lines from the chunks it receives, keeps
 * back a chunk that completes a forbidden line, and records what it forwards.
 */
module CommandInspection {
  import opened Common

  const CHUNK_LIMIT := 65536
  const PENDING_LIMIT := 4000

  datatype Search = Found | NotFound | BadPattern

  /** Regular expressions, white space and the text encoding, as the platform provides them. */
  datatype Platform = Platform(search: (string, string) -> Search, isSpace: char -> bool, encode: string -> seq<bv8>)

  datatype Policy = Policy(deny: seq<string>, alert: seq<string>)

  // ----- patterns -----

  /** The first pattern from `i` on found in the command, or the empty string; a malformed pattern is passed over. */
  function MatchingFrom(on: Platform, command: string, patterns: seq<string>, i: nat): string
    requires i <= |patterns|
    decreases |patterns| - i
  {
    if i == |patterns| then ""
    else if on.search(patterns[i], command) == Found then patterns[i]
    else MatchingFrom(on, command, patterns, i + 1)
  }

  function FirstMatching(on: Platform, command: string, patterns: seq<string>): string {
    MatchingFrom(on, command, patterns, 0)
  }

  predicate Matches(on: Platform, command: string, patterns: seq<string>) {
    FirstMatching(on, command, patterns) != ""
  }

  /** The pattern at `k` is found in the command, and no pattern from `i` up to it is empty. */
  ghost predicate FoundBeforeEmpty(on: Platform, command: string, patterns: seq<string>, i: nat, k: nat) {
    && i <= k < |patterns| && on.search(patterns[k], command) == Found
    && forall j :: i <= j <= k ==> patterns[j] != ""
  }

  lemma {:induction false} MatchingFromStopsAtEmpty(on: Platform, command: string, patterns: seq<string>, i: nat)
    requires i <= |patterns| && ("" in patterns ==> on.search("", command) == Found)
    ensures MatchingFrom(on, command, patterns, i) != "" <==>
            exists k :: FoundBeforeEmpty(on, command, patterns, i, k)
    decreases |patterns| - i
  {
    if i < |patterns| {
      MatchingFromStopsAtEmpty(on, command, patterns, i + 1);
      assert patterns[i] in patterns;
      if on.search(patterns[i], command) == Found {
        assert patterns[i] != "" ==> FoundBeforeEmpty(on, command, patterns, i, i);
      } else {
        var next := i + 1;
        assert patterns[i] != "";
        if k :| FoundBeforeEmpty(on, command, patterns, i, k) {
          assert FoundBeforeEmpty(on, command, patterns, next, k);
        }
        if k :| FoundBeforeEmpty(on, command, patterns, next, k) {
          assert FoundBeforeEmpty(on, command, patterns, i, k);
        }
      }
    }
  }

  /** An empty pattern, which is found in every command, hides all patterns behind it and matches nothing itself. */
  lemma OnlyPatternsBeforeAnEmptyOneMatch(on: Platform, command: string, patterns: seq<string>)
    requires on.search("", command) == Found
    ensures Matches(on, command, patterns) <==> exists k :: FoundBeforeEmpty(on, command, patterns, 0, k)
  {
    MatchingFromStopsAtEmpty(on, command, patterns, 0);
  }

  /** Without an empty pattern a command matches exactly when some pattern is found in it. */
  lemma MatchesIffSomePatternFound(on: Platform, command: string, patterns: seq<string>)
    requires "" !in patterns
    ensures Matches(on, command, patterns) <==>
            exists k :: 0 <= k < |patterns| && on.search(patterns[k], command) == Found
  {
    MatchingFromStopsAtEmpty(on, command, patterns, 0);
    assert forall k :: 0 <= k < |patterns| && on.search(patterns[k], command) == Found ==>
                         FoundBeforeEmpty(on, command, patterns, 0, k);
  }

  lemma {:induction false} MatchIsFound(on: Platform, command: string, patterns: seq<string>, i: nat)
    requires i <= |patterns| && MatchingFrom(on, command, patterns, i) != ""
    ensures var p := MatchingFrom(on, command, patterns, i); p in patterns && on.search(p, command) == Found
    decreases |patterns| - i
  {
    if on.search(patterns[i], command) != Found {
      MatchIsFound(on, command, patterns, i + 1);
    }
  }

  // ----- lines -----

  predicate IsBreak(c: char) {
    c == '\r' || c == '\n'
  }

  ghost predicate HasBreak(s: string) {
    exists k :: 0 <= k < |s| && IsBreak(s[k])
  }

  predicate EndsInBreak(s: string) {
    s != "" && IsBreak(s[|s| - 1])
  }

  /** The first line break from `i` on, or the end. */
  function NextBreak(s: string, i: nat): (k: nat)
    requires i <= |s|
    ensures i <= k <= |s|
    ensures forall j :: i <= j < k ==> !IsBreak(s[j])
    ensures k < |s| ==> IsBreak(s[k])
    decreases |s| - i
  {
    if i < |s| && !IsBreak(s[i]) then NextBreak(s, i + 1) else i
  }

  /** The end of the run of line breaks that starts at `i`. */
  function NextText(s: string, i: nat): (k: nat)
    requires i <= |s|
    ensures i <= k <= |s|
    ensures forall j :: i <= j < k ==> IsBreak(s[j])
    ensures k < |s| ==> !IsBreak(s[k])
    decreases |s| - i
  {
    if i < |s| && IsBreak(s[i]) then NextText(s, i + 1) else i
  }

  /** The pieces between runs of line breaks, from position `i` on. */
  function Pieces(s: string, i: nat): seq<string>
    requires i <= |s|
    decreases |s| - i
  {
    var k := NextBreak(s, i);
    if k == |s| then [s[i..]] else [s[i..k]] + Pieces(s, NextText(s, k + 1))
  }

  function StripLeft(on: Platform, s: string): string {
    if s != "" && on.isSpace(s[0]) then StripLeft(on, s[1..]) else s
  }

  function StripRight(on: Platform, s: string): string {
    if s != "" && on.isSpace(s[|s| - 1]) then StripRight(on, s[..|s| - 1]) else s
  }

  function Strip(on: Platform, s: string): (r: string)
    ensures s == "" ==> r == ""
  {
    StripRight(on, StripLeft(on, s))
  }

  /** The non-blank pieces, stripped. */
  function Commands(on: Platform, pieces: seq<string>): seq<string> {
    if pieces == [] then []
    else (if Strip(on, pieces[0]) == "" then [] else [Strip(on, pieces[0])]) + Commands(on, pieces[1..])
  }

  // ----- one chunk -----

  datatype Hit = Hit(command: string, pattern: string)

  /** The first command from `i` on that matches, with its first matching pattern. */
  function HitFrom(on: Platform, commands: seq<string>, patterns: seq<string>, i: nat): (r: Option<Hit>)
    requires i <= |commands|
    ensures r.None? <==> forall k :: i <= k < |commands| ==> !Matches(on, commands[k], patterns)
    decreases |commands| - i
  {
    if i == |commands| then None
    else if Matches(on, commands[i], patterns) then Some(Hit(commands[i], FirstMatching(on, commands[i], patterns)))
    else HitFrom(on, commands, patterns, i + 1)
  }

  /** What is found is the first matching command, with its first pattern. */
  lemma {:induction false} HitIsFirst(on: Platform, commands: seq<string>, patterns: seq<string>, i: nat) returns (k: nat)
    requires i <= |commands| && HitFrom(on, commands, patterns, i).Some?
    ensures i <= k < |commands| && Matches(on, commands[k], patterns)
    ensures forall j :: i <= j < k ==> !Matches(on, commands[j], patterns)
    ensures HitFrom(on, commands, patterns, i).value == Hit(commands[k], FirstMatching(on, commands[k], patterns))
    decreases |commands| - i
  {
    k := i;
    if !Matches(on, commands[i], patterns) {
      k := HitIsFirst(on, commands, patterns, i + 1);
    }
  }

  function FirstHit(on: Platform, commands: seq<string>, patterns: seq<string>): Option<Hit> {
    HitFrom(on, commands, patterns, 0)
  }

  datatype Disposition = Denied | Alerted
  datatype Event = Event(command: string, disposition: Disposition, pattern: string)

  datatype Bridge = Bridge(pending: string, bytesIn: nat, bytesOut: nat, stdin: seq<bv8>, events: seq<Event>)

  const IDLE := Bridge("", 0, 0, [], [])

  function Taken(data: string): string {
    if |data| <= CHUNK_LIMIT then data else data[..CHUNK_LIMIT]
  }

  function LastPending(s: string): string {
    if |s| <= PENDING_LIMIT then s else s[|s| - PENDING_LIMIT..]
  }

  function Inspected(on: Platform, b: Bridge, text: string): seq<string> {
    Commands(on, Pieces(b.pending + text, 0))
  }

  /** The chunk is kept back. */
  ghost predicate Drops(on: Platform, policy: Policy, b: Bridge, text: string) {
    HasBreak(text) && FirstHit(on, Inspected(on, b, text), policy.deny).Some?
  }

  function Forward(on: Platform, b: Bridge, text: string): Bridge {
    b.(bytesIn := b.bytesIn + |on.encode(text)|, stdin := b.stdin + on.encode(text))
  }

  /** A whole chunk: refused with a trace of the offending command, or forwarded with at most one alert. */
  ghost function Step(on: Platform, policy: Policy, b: Bridge, data: string): Bridge {
    var text := Taken(data);
    if !HasBreak(text) then Forward(on, b.(pending := LastPending(b.pending + text)), text)
    else
      var denied := FirstHit(on, Inspected(on, b, text), policy.deny);
      var alerted := FirstHit(on, Inspected(on, b, text), policy.alert);
      if denied.Some? then
        b.(pending := "", bytesOut := b.bytesOut + |on.encode(denied.value.command)|,
           events := b.events + [Event(denied.value.command, Denied, denied.value.pattern)])
      else if alerted.Some? then
        Forward(on, b.(pending := "",
                       events := b.events + [Event(alerted.value.command, Alerted, alerted.value.pattern)]), text)
      else Forward(on, b.(pending := ""), text)
  }

  method FindMatching(on: Platform, command: string, patterns: seq<string>) returns (pattern: string)
    ensures pattern == FirstMatching(on, command, patterns)
  {
    var i := 0;
    while i < |patterns|
      invariant 0 <= i <= |patterns|
      invariant FirstMatching(on, command, patterns) == MatchingFrom(on, command, patterns, i)
    {
      if on.search(patterns[i], command) == Found {
        return patterns[i];
      }
      i := i + 1;
    }
    return "";
  }

  /** One pass that looks for a denied command and, until it has one, for an alert. */
  method InspectCommands(on: Platform, policy: Policy, commands: seq<string>)
    returns (denied: Option<Hit>, alerted: Option<Hit>)
    ensures denied == FirstHit(on, commands, policy.deny)
    ensures denied.None? ==> alerted == FirstHit(on, commands, policy.alert)
  {
    denied, alerted := None, None;
    var i := 0;
    while i < |commands|
      invariant 0 <= i <= |commands|
      invariant denied.None? && FirstHit(on, commands, policy.deny) == HitFrom(on, commands, policy.deny, i)
      invariant alerted.None? ==>
          FirstHit(on, commands, policy.alert) == HitFrom(on, commands, policy.alert, i)
      invariant alerted.Some? ==> alerted == FirstHit(on, commands, policy.alert)
    {
      var denyMatch := FindMatching(on, commands[i], policy.deny);
      if denyMatch != "" {
        denied := Some(Hit(commands[i], denyMatch));
        return;
      }
      if alerted.None? {
        var alertMatch := FindMatching(on, commands[i], policy.alert);
        if alertMatch != "" {
          alerted := Some(Hit(commands[i], alertMatch));
        }
      }
      i := i + 1;
    }
  }

  datatype Message = Disconnect | Ignored | Input(data: string)

  /** The chunks among the first `n` messages. */
  function Inputs(messages: seq<Message>, n: nat): seq<string>
    requires n <= |messages|
  {
    if n == 0 then []
    else Inputs(messages, n - 1) + if messages[n - 1].Input? then [messages[n - 1].data] else []
  }

  /** The number of messages before the client disconnects. */
  function BeforeDisconnect(messages: seq<Message>, i: nat): (n: nat)
    requires i <= |messages|
    ensures i <= n <= |messages|
    decreases |messages| - i
  {
    if i < |messages| && !messages[i].Disconnect? then BeforeDisconnect(messages, i + 1) else i
  }

  ghost function Run(on: Platform, policy: Policy, b: Bridge, chunks: seq<string>): Bridge {
    if chunks == [] then b
    else Step(on, policy, Run(on, policy, b, chunks[..|chunks| - 1]), chunks[|chunks| - 1])
  }

  class InputBridge {
    const on: Platform
    const policy: Policy
    var pending: string
    var bytesIn: nat
    var bytesOut: nat
    var stdin: seq<bv8>
    var events: seq<Event>

    constructor (on: Platform, policy: Policy)
      ensures this.on == on && this.policy == policy && Now() == IDLE
    {
      this.on, this.policy := on, policy;
      pending, bytesIn, bytesOut, stdin, events := "", 0, 0, [], [];
    }

    ghost function Now(): Bridge
      reads this
    {
      Bridge(pending, bytesIn, bytesOut, stdin, events)
    }

    method Receive(data: string)
      modifies this
      ensures Now() == Step(on, policy, old(Now()), data)
    {
      var text := Taken(data);
      var candidate := pending + text;
      var k := NextBreak(text, 0);
      assert HasBreak(text) <==> k < |text|;
      if k == |text| {
        pending := LastPending(candidate);
      } else {
        pending := "";
        var denied, alerted := InspectCommands(on, policy, Commands(on, Pieces(candidate, 0)));
        if denied.Some? {
          bytesOut := bytesOut + |on.encode(denied.value.command)|;
          events := events + [Event(denied.value.command, Denied, denied.value.pattern)];
          return;
        }
        if alerted.Some? {
          events := events + [Event(alerted.value.command, Alerted, alerted.value.pattern)];
        }
      }
      bytesIn := bytesIn + |on.encode(text)|;
      stdin := stdin + on.encode(text);
    }

    method ForwardInput(messages: seq<Message>)
      modifies this
      ensures Now() == Run(on, policy, old(Now()), Inputs(messages, BeforeDisconnect(messages, 0)))
    {
      var i := 0;
      while i < |messages| && !messages[i].Disconnect?
        invariant 0 <= i <= |messages| && BeforeDisconnect(messages, 0) == BeforeDisconnect(messages, i)
        invariant Now() == Run(on, policy, old(Now()), Inputs(messages, i))
      {
        if messages[i].Input? {
          RunOneMore(on, policy, old(Now()), Inputs(messages, i), messages[i].data);
          Receive(messages[i].data);
        }
        assert Inputs(messages, i) + [] == Inputs(messages, i);
        i := i + 1;
      }
    }
  }

  lemma RunOneMore(on: Platform, policy: Policy, b: Bridge, chunks: seq<string>, data: string)
    ensures Run(on, policy, b, chunks + [data]) == Step(on, policy, Run(on, policy, b, chunks), data)
  {
    assert (chunks + [data])[..|chunks|] == chunks;
  }

  // ----- what is counted is what is written -----

  lemma {:induction false} BytesInAreBytesWritten(on: Platform, policy: Policy, b: Bridge, chunks: seq<string>)
    requires b.bytesIn == |b.stdin|
    ensures Run(on, policy, b, chunks).bytesIn == |Run(on, policy, b, chunks).stdin|
  {
    if chunks != [] {
      BytesInAreBytesWritten(on, policy, b, chunks[..|chunks| - 1]);
    }
  }

  // ----- lines of the whole stream -----

  /** Where the line that reaches position `k` begins. */
  function LineStart(s: string, k: nat): (i: nat)
    requires k <= |s|
    ensures i <= k
  {
    if k == 0 || IsBreak(s[k - 1]) then k else LineStart(s, k - 1)
  }

  function LineEndingAt(s: string, k: nat): string
    requires k <= |s|
  {
    s[LineStart(s, k)..k]
  }

  /** The unfinished last line. */
  function Tail(s: string): string {
    LineEndingAt(s, |s|)
  }

  /** Not blank, and matching a deny pattern. */
  predicate Forbidden(on: Platform, policy: Policy, line: string) {
    Strip(on, line) != "" && Matches(on, Strip(on, line), policy.deny)
  }

  /** A forbidden line is completed at position `k`. */
  ghost predicate ForbiddenLineAt(on: Platform, policy: Policy, s: string, k: int) {
    0 <= k < |s| && IsBreak(s[k]) && Forbidden(on, policy, LineEndingAt(s, k))
  }

  /** Among the lines of the whole stream that `text` completes there is a forbidden one. */
  ghost predicate CompletesForbidden(on: Platform, policy: Policy, before: string, text: string) {
    exists k :: |before| <= k && ForbiddenLineAt(on, policy, before + text, k)
  }

  function Stream(chunks: seq<string>): string {
    if chunks == [] then "" else Stream(chunks[..|chunks| - 1]) + Taken(chunks[|chunks| - 1])
  }

  /** What a chunk ought to send on. */
  ghost function Passed(on: Platform, policy: Policy, before: string, text: string): seq<bv8> {
    if CompletesForbidden(on, policy, before, text) then [] else on.encode(text)
  }

  /** What ought to reach the target, told by the lines of the stream alone. */
  ghost function Reference(on: Platform, policy: Policy, chunks: seq<string>): seq<bv8> {
    if chunks == [] then []
    else
      var earlier, text := chunks[..|chunks| - 1], Taken(chunks[|chunks| - 1]);
      Reference(on, policy, earlier) + Passed(on, policy, Stream(earlier), text)
  }

  /** Breaks come at the end of a chunk, and an unfinished line stays within what is kept of it. */
  ghost predicate WellCut(before: string, text: string) {
    if HasBreak(text) then EndsInBreak(text) else |Tail(before + text)| <= PENDING_LIMIT
  }

  ghost predicate WellCutRun(chunks: seq<string>) {
    chunks != [] ==>
      && WellCutRun(chunks[..|chunks| - 1])
      && WellCut(Stream(chunks[..|chunks| - 1]), Taken(chunks[|chunks| - 1]))
  }

  lemma {:induction false} LineStartBounds(s: string, i: nat, k: nat)
    requires i <= k <= |s| && (i == 0 || IsBreak(s[i - 1]))
    ensures i <= LineStart(s, k)
    ensures (forall j :: i <= j < k ==> !IsBreak(s[j])) ==> LineStart(s, k) == i
  {
    if i < k {
      LineStartBounds(s, i, k - 1);
    }
  }

  lemma {:induction false} LineStartIsStart(s: string, k: nat)
    requires k <= |s|
    ensures var i := LineStart(s, k); (i == 0 || IsBreak(s[i - 1])) && forall j :: i <= j < k ==> !IsBreak(s[j])
  {
    if k != 0 && !IsBreak(s[k - 1]) {
      LineStartIsStart(s, k - 1);
    }
  }

  lemma {:induction false} LineStartAfterBoundary(done: string, s: string, k: nat)
    requires k <= |s| && (done == "" || EndsInBreak(done))
    ensures LineStart(done + s, |done| + k) == |done| + LineStart(s, k)
  {
    if k > 0 {
      assert (done + s)[|done| + k - 1] == s[k - 1];
      LineStartAfterBoundary(done, s, k - 1);
    } else if done != "" {
      assert (done + s)[|done| - 1] == done[|done| - 1];
    }
  }

  lemma SliceAfter(done: string, s: string, i: nat, k: nat)
    requires i <= k <= |s|
    ensures (done + s)[|done| + i..|done| + k] == s[i..k]
  {
  }

  /** Text before a line boundary does not matter to the lines after it. */
  lemma LinesAfterBoundary(done: string, s: string, k: nat)
    requires k <= |s| && (done == "" || EndsInBreak(done))
    ensures LineEndingAt(done + s, |done| + k) == LineEndingAt(s, k)
  {
    LineStartAfterBoundary(done, s, k);
    SliceAfter(done, s, LineStart(s, k), k);
  }

  // ----- the pieces of a candidate are its lines -----

  lemma {:induction false} CommandsAreStrippedPieces(on: Platform, pieces: seq<string>, c: string)
    ensures c in Commands(on, pieces) <==> c != "" && exists p :: p in pieces && Strip(on, p) == c
  {
    if pieces != [] {
      CommandsAreStrippedPieces(on, pieces[1..], c);
      assert forall p :: p in pieces <==> p == pieces[0] || p in pieces[1..];
    }
  }

  /** A line ends at a break, or unfinished at the end of the text. */
  ghost predicate LineEnd(s: string, k: int) {
    k == |s| || (0 <= k < |s| && IsBreak(s[k]))
  }

  lemma {:induction false} PieceIsLine(s: string, i: nat, p: string)
    returns (k: nat)
    requires i <= |s| && (i == 0 || IsBreak(s[i - 1]))
    requires p in Pieces(s, i) && p != ""
    ensures k <= |s| && LineEnd(s, k) && LineEndingAt(s, k) == p
    decreases |s| - i
  {
    k := NextBreak(s, i);
    LineStartBounds(s, i, k);
    assert k == |s| ==> s[i..] == s[i..k];
    if p != s[i..k] {
      k := PieceIsLine(s, NextText(s, k + 1), p);
    }
  }

  lemma FirstPiece(s: string, i: nat)
    requires i <= |s|
    ensures s[i..NextBreak(s, i)] in Pieces(s, i)
  {
    assert NextBreak(s, i) == |s| ==> s[i..] == s[i..|s|];
  }

  lemma LaterPiece(s: string, i: nat, p: string)
    requires i <= |s| && NextBreak(s, i) < |s| && p in Pieces(s, NextText(s, NextBreak(s, i) + 1))
    ensures p in Pieces(s, i)
  {
  }

  lemma {:induction false} LineIsPiece(s: string, i: nat, j: nat, k: nat)
    requires i <= j < k <= |s| && LineEnd(s, k) && (forall n :: j <= n < k ==> !IsBreak(s[n]))
    requires j == i || IsBreak(s[j - 1])
    ensures s[j..k] in Pieces(s, i)
    decreases |s| - i
  {
    var first := NextBreak(s, i);
    if i == j {
      assert first == k;
      FirstPiece(s, i);
    } else {
      assert first < j;
      var next := NextText(s, first + 1);
      assert !IsBreak(s[j]);
      assert next <= j;
      LineIsPiece(s, next, j, k);
      LaterPiece(s, i, s[j..k]);
    }
  }

  lemma CommandIsLine(on: Platform, s: string, c: string) returns (k: nat)
    requires c in Commands(on, Pieces(s, 0))
    ensures c != "" && k <= |s| && LineEnd(s, k) && Strip(on, LineEndingAt(s, k)) == c
  {
    var pieces := Pieces(s, 0);
    CommandsAreStrippedPieces(on, pieces, c);
    var p :| p in pieces && Strip(on, p) == c;
    k := PieceIsLine(s, 0, p);
  }

  lemma LineIsCommand(on: Platform, s: string, k: nat)
    requires k <= |s| && LineEnd(s, k) && Strip(on, LineEndingAt(s, k)) != ""
    ensures Strip(on, LineEndingAt(s, k)) in Commands(on, Pieces(s, 0))
  {
    LineStartIsStart(s, k);
    LineIsPiece(s, 0, LineStart(s, k), k);
    CommandsAreStrippedPieces(on, Pieces(s, 0), Strip(on, LineEndingAt(s, k)));
  }

  // ----- one chunk against the stream -----

  lemma TailSplits(before: string) returns (done: string)
    ensures before == done + Tail(before) && (done == "" || EndsInBreak(done)) && !HasBreak(Tail(before))
  {
    LineStartIsStart(before, |before|);
    done := before[..LineStart(before, |before|)];
  }

  lemma NothingForbiddenWithoutBreak(on: Platform, policy: Policy, pending: string, text: string)
    requires !HasBreak(pending) && !HasBreak(text)
    ensures forall k :: !ForbiddenLineAt(on, policy, pending + text, k)
  {
    assert forall k :: 0 <= k < |pending + text| ==>
             (pending + text)[k] == if k < |pending| then pending[k] else text[k - |pending|];
  }

  lemma DeniedIffLine(on: Platform, policy: Policy, s: string)
    ensures FirstHit(on, Commands(on, Pieces(s, 0)), policy.deny).Some? <==>
            (exists k :: ForbiddenLineAt(on, policy, s, k)) || Forbidden(on, policy, Tail(s))
  {
    var commands := Commands(on, Pieces(s, 0));
    forall c | c in commands && Matches(on, c, policy.deny)
      ensures (exists k :: ForbiddenLineAt(on, policy, s, k)) || Forbidden(on, policy, Tail(s))
    {
      var k := CommandIsLine(on, s, c);
      assert k < |s| ==> ForbiddenLineAt(on, policy, s, k);
    }
    forall k | ForbiddenLineAt(on, policy, s, k) ensures Strip(on, LineEndingAt(s, k)) in commands {
      LineIsCommand(on, s, k);
    }
    if Forbidden(on, policy, Tail(s)) {
      LineIsCommand(on, s, |s|);
    }
  }

  lemma ForbiddenInCandidate(on: Platform, policy: Policy, done: string, pending: string, text: string)
    requires (done == "" || EndsInBreak(done)) && !HasBreak(pending)
    ensures CompletesForbidden(on, policy, done + pending, text) <==>
            exists k :: ForbiddenLineAt(on, policy, pending + text, k)
  {
    var s := pending + text;
    assert done + pending + text == done + s;
    assert forall j :: 0 <= j < |pending| ==> s[j] == pending[j];
    forall k | ForbiddenLineAt(on, policy, s, k)
      ensures |pending| <= k && ForbiddenLineAt(on, policy, done + s, |done| + k)
    {
      LinesAfterBoundary(done, s, k);
    }
    forall k | |done| <= k && ForbiddenLineAt(on, policy, done + s, k)
      ensures ForbiddenLineAt(on, policy, s, k - |done|)
    {
      LinesAfterBoundary(done, s, k - |done|);
    }
  }

  lemma TailOfCandidate(done: string, pending: string, text: string)
    requires done == "" || EndsInBreak(done)
    ensures Tail(done + pending + text) == Tail(pending + text)
  {
    assert done + pending + text == done + (pending + text);
    LinesAfterBoundary(done, pending + text, |pending + text|);
  }

  lemma DropsByLines(on: Platform, policy: Policy, b: Bridge, text: string)
    ensures Drops(on, policy, b, text) <==>
            && HasBreak(text)
            && ((exists k :: ForbiddenLineAt(on, policy, b.pending + text, k)) || Forbidden(on, policy, Tail(b.pending + text)))
  {
    DeniedIffLine(on, policy, b.pending + text);
  }

  /**
   * A chunk is dropped exactly when a line it completes in the whole stream is forbidden, or when it has a break and the
   * line it leaves unfinished would be.
   */
  lemma DroppedIffForbiddenLine(on: Platform, policy: Policy, b: Bridge, before: string, text: string)
    requires b.pending == Tail(before)
    ensures Drops(on, policy, b, text) <==>
            || CompletesForbidden(on, policy, before, text)
            || (HasBreak(text) && Forbidden(on, policy, Tail(before + text)))
  {
    var done := TailSplits(before);
    DropsByLines(on, policy, b, text);
    ForbiddenInCandidate(on, policy, done, b.pending, text);
    TailOfCandidate(done, b.pending, text);
    if !HasBreak(text) {
      NothingForbiddenWithoutBreak(on, policy, b.pending, text);
    }
  }

  lemma {:induction false} LineStartExtends(before: string, text: string, n: nat)
    requires n <= |text| && forall j :: 0 <= j < n ==> !IsBreak(text[j])
    ensures LineStart(before + text, |before| + n) == LineStart(before, |before|)
  {
    if n > 0 {
      LineStartExtends(before, text, n - 1);
    } else {
      LineStartOfPrefix(before, text, |before|);
    }
  }

  lemma {:induction false} LineStartOfPrefix(before: string, text: string, k: nat)
    requires k <= |before|
    ensures LineStart(before + text, k) == LineStart(before, k)
  {
    if k > 0 {
      LineStartOfPrefix(before, text, k - 1);
    }
  }

  lemma TailExtends(before: string, text: string)
    requires !HasBreak(text)
    ensures Tail(before + text) == Tail(before) + text
  {
    LineStartExtends(before, text, |text|);
  }

  lemma TailAfterBreak(before: string, text: string)
    requires text != ""
    ensures Tail(before + text) == "" <==> EndsInBreak(text)
  {
    assert (before + text)[|before + text| - 1] == text[|text| - 1];
  }

  lemma PendingAfterStep(on: Platform, policy: Policy, b: Bridge, data: string)
    ensures Step(on, policy, b, data).pending ==
            if HasBreak(Taken(data)) then "" else LastPending(b.pending + Taken(data))
  {
  }

  /** The gateway's unfinished line stays that of the stream exactly as long as the chunks are well cut. */
  lemma PendingStaysTailIff(on: Platform, policy: Policy, b: Bridge, before: string, data: string)
    requires b.pending == Tail(before)
    ensures Step(on, policy, b, data).pending == Tail(before + Taken(data)) <==> WellCut(before, Taken(data))
  {
    var text := Taken(data);
    PendingAfterStep(on, policy, b, data);
    if HasBreak(text) {
      TailAfterBreak(before, text);
    } else {
      TailExtends(before, text);
    }
  }

  // ----- whole runs -----

  /** From `start`, the bridge has sent `out` and holds the unfinished line of the stream `s`. */
  ghost predicate InStep(start: Bridge, b: Bridge, s: string, out: seq<bv8>) {
    b.pending == Tail(s) && b.stdin == start.stdin + out
  }

  lemma StaysInStep(on: Platform, policy: Policy, start: Bridge, b: Bridge, s: string, out: seq<bv8>, data: string)
    requires InStep(start, b, s, out) && WellCut(s, Taken(data))
    ensures InStep(start, Step(on, policy, b, data), s + Taken(data), out + Passed(on, policy, s, Taken(data)))
  {
    PendingStaysTailIff(on, policy, b, s, data);
    DroppedIffForbiddenLine(on, policy, b, s, Taken(data));
    if HasBreak(Taken(data)) {
      TailAfterBreak(s, Taken(data));
    }
    StepForwardsUnlessDropped(on, policy, b, data);
    var passed := Passed(on, policy, s, Taken(data));
    assert start.stdin + out + passed == start.stdin + (out + passed);
  }

  lemma OneMoreChunk(on: Platform, policy: Policy, chunks: seq<string>, data: string)
    ensures Stream(chunks + [data]) == Stream(chunks) + Taken(data)
    ensures Reference(on, policy, chunks + [data]) ==
            Reference(on, policy, chunks) + Passed(on, policy, Stream(chunks), Taken(data))
    ensures WellCutRun(chunks + [data]) <==> WellCutRun(chunks) && WellCut(Stream(chunks), Taken(data))
  {
    assert (chunks + [data])[..|chunks|] == chunks;
  }

  /** After these chunks the bridge has followed the stream. */
  ghost predicate Follows(on: Platform, policy: Policy, b: Bridge, chunks: seq<string>) {
    InStep(b, Run(on, policy, b, chunks), Stream(chunks), Reference(on, policy, chunks))
  }

  lemma FollowsOneMore(on: Platform, policy: Policy, b: Bridge, chunks: seq<string>, data: string)
    requires Follows(on, policy, b, chunks) && WellCut(Stream(chunks), Taken(data))
    ensures Follows(on, policy, b, chunks + [data])
  {
    RunOneMore(on, policy, b, chunks, data);
    OneMoreChunk(on, policy, chunks, data);
    StaysInStep(on, policy, b, Run(on, policy, b, chunks), Stream(chunks), Reference(on, policy, chunks), data);
  }

  lemma FollowsNothing(on: Platform, policy: Policy, b: Bridge)
    requires b.pending == ""
    ensures Follows(on, policy, b, [])
  {
    assert b.stdin + [] == b.stdin;
  }

  /** A well-cut session forwards exactly what the lines of its stream allow, whatever the cuts were. */
  lemma {:induction false} WellCutRunsFollowTheStream(on: Platform, policy: Policy, b: Bridge, chunks: seq<string>)
    requires b.pending == "" && WellCutRun(chunks)
    ensures Follows(on, policy, b, chunks)
  {
    if chunks == [] {
      FollowsNothing(on, policy, b);
    } else {
      var earlier, data := chunks[..|chunks| - 1], chunks[|chunks| - 1];
      assert chunks == earlier + [data];
      OneMoreChunk(on, policy, earlier, data);
      WellCutRunsFollowTheStream(on, policy, b, earlier);
      FollowsOneMore(on, policy, b, earlier, data);
    }
  }

  lemma StepForwardsUnlessDropped(on: Platform, policy: Policy, b: Bridge, data: string)
    ensures Step(on, policy, b, data).stdin ==
            b.stdin + if Drops(on, policy, b, Taken(data)) then [] else on.encode(Taken(data))
  {
  }

  /** The event names an inspected command and a pattern of the list that is found in it. */
  ghost predicate Truthful(on: Platform, event: Event, commands: seq<string>, patterns: seq<string>) {
    event.command in commands && event.pattern in patterns && on.search(event.pattern, event.command) == Found
  }

  lemma HitIsTruthful(on: Platform, commands: seq<string>, patterns: seq<string>, disposition: Disposition)
    requires FirstHit(on, commands, patterns).Some?
    ensures var hit := FirstHit(on, commands, patterns).value;
            Truthful(on, Event(hit.command, disposition, hit.pattern), commands, patterns)
  {
    var k := HitIsFirst(on, commands, patterns, 0);
    MatchIsFound(on, commands[k], patterns, 0);
  }

  /**
   * A chunk is reported at most once and truthfully: as denied exactly if it is dropped, and then only the command is
   * recorded; as alerted only if it is forwarded.
   */
  lemma ReportsAreTruthful(on: Platform, policy: Policy, b: Bridge, data: string)
    ensures var after, commands := Step(on, policy, b, data), Inspected(on, b, Taken(data));
            if Drops(on, policy, b, Taken(data)) then
              && |after.events| == |b.events| + 1 && after.events[|b.events|].disposition == Denied
              && Truthful(on, after.events[|b.events|], commands, policy.deny)
              && after.bytesOut == b.bytesOut + |on.encode(after.events[|b.events|].command)|
              && after.stdin == b.stdin && after.bytesIn == b.bytesIn
            else
              && after.bytesOut == b.bytesOut && b.events <= after.events && |after.events| <= |b.events| + 1
              && (after.events != b.events ==>
                    && after.events[|b.events|].disposition == Alerted
                    && Truthful(on, after.events[|b.events|], commands, policy.alert))
  {
    var commands := Inspected(on, b, Taken(data));
    if FirstHit(on, commands, policy.deny).Some? {
      HitIsTruthful(on, commands, policy.deny, Denied);
    }
    if FirstHit(on, commands, policy.alert).Some? {
      HitIsTruthful(on, commands, policy.alert, Alerted);
    }
  }

  // ----- every session -----

  /** The text since the last chunk with a break. */
  ghost function Unbroken(chunks: seq<string>): string {
    if chunks == [] || HasBreak(Taken(chunks[|chunks| - 1])) then ""
    else Unbroken(chunks[..|chunks| - 1]) + Taken(chunks[|chunks| - 1])
  }

  lemma LastPendingAbsorbs(s: string, t: string)
    ensures LastPending(LastPending(s) + t) == LastPending(s + t)
  {
    if |s| > PENDING_LIMIT {
      assert LastPending(s) + t == (s + t)[|s| - PENDING_LIMIT..];
    }
  }

  /** However the chunks are cut, the buffer holds the end of the text since the last chunk with a break. */
  lemma {:induction false} BufferIsUnbrokenEnd(on: Platform, policy: Policy, b: Bridge, chunks: seq<string>)
    requires b.pending == ""
    ensures Run(on, policy, b, chunks).pending == LastPending(Unbroken(chunks))
  {
    if chunks != [] {
      var earlier, data := chunks[..|chunks| - 1], chunks[|chunks| - 1];
      BufferIsUnbrokenEnd(on, policy, b, earlier);
      PendingAfterStep(on, policy, Run(on, policy, b, earlier), data);
      LastPendingAbsorbs(Unbroken(earlier), Taken(data));
    }
  }

  /** The chunk has a break, and with the end of the text before it a line, finished or not, is forbidden. */
  ghost predicate KeptBack(on: Platform, policy: Policy, chunks: seq<string>, text: string) {
    var s := LastPending(Unbroken(chunks)) + text;
    HasBreak(text) && ((exists k :: ForbiddenLineAt(on, policy, s, k)) || Forbidden(on, policy, Tail(s)))
  }

  /** The chunks that are not kept back. */
  ghost function Delivered(on: Platform, policy: Policy, chunks: seq<string>): seq<bv8> {
    if chunks == [] then []
    else
      var earlier, text := chunks[..|chunks| - 1], Taken(chunks[|chunks| - 1]);
      Delivered(on, policy, earlier) + if KeptBack(on, policy, earlier, text) then [] else on.encode(text)
  }

  /** Exactly which chunk is dropped, at any point of any session. */
  lemma DroppedIffKeptBack(on: Platform, policy: Policy, b: Bridge, chunks: seq<string>, text: string)
    requires b.pending == ""
    ensures Drops(on, policy, Run(on, policy, b, chunks), text) <==> KeptBack(on, policy, chunks, text)
  {
    BufferIsUnbrokenEnd(on, policy, b, chunks);
    DropsByLines(on, policy, Run(on, policy, b, chunks), text);
  }

  lemma DeliveredOneMore(on: Platform, policy: Policy, chunks: seq<string>, data: string)
    ensures Delivered(on, policy, chunks + [data]) ==
            Delivered(on, policy, chunks) + if KeptBack(on, policy, chunks, Taken(data)) then [] else on.encode(Taken(data))
  {
    assert (chunks + [data])[..|chunks|] == chunks;
  }

  lemma DeliversOneMore(on: Platform, policy: Policy, b: Bridge, chunks: seq<string>, data: string)
    requires b.pending == "" && Run(on, policy, b, chunks).stdin == b.stdin + Delivered(on, policy, chunks)
    ensures Run(on, policy, b, chunks + [data]).stdin == b.stdin + Delivered(on, policy, chunks + [data])
  {
    RunOneMore(on, policy, b, chunks, data);
    DroppedIffKeptBack(on, policy, b, chunks, Taken(data));
    StepForwardsUnlessDropped(on, policy, Run(on, policy, b, chunks), data);
    DeliveredOneMore(on, policy, chunks, data);
    var passed := if KeptBack(on, policy, chunks, Taken(data)) then [] else on.encode(Taken(data));
    assert b.stdin + Delivered(on, policy, chunks) + passed == b.stdin + (Delivered(on, policy, chunks) + passed);
  }

  /** So every session, well cut or not, sends the target exactly the chunks that are not kept back. */
  lemma {:induction false} SessionsDeliver(on: Platform, policy: Policy, b: Bridge, chunks: seq<string>)
    requires b.pending == ""
    ensures Run(on, policy, b, chunks).stdin == b.stdin + Delivered(on, policy, chunks)
  {
    if chunks == [] {
      assert b.stdin + [] == b.stdin;
    } else {
      var earlier, data := chunks[..|chunks| - 1], chunks[|chunks| - 1];
      assert chunks == earlier + [data];
      SessionsDeliver(on, policy, b, earlier);
      DeliversOneMore(on, policy, b, earlier, data);
    }
  }

  // ----- chunks with text after a break -----

  lemma OneBreak(head: string, rest: string, k: int)
    requires !HasBreak(head) && !HasBreak(rest)
    ensures var s := head + "\n" + rest;
            && (0 <= k < |s| && IsBreak(s[k]) <==> k == |head|)
            && LineEndingAt(s, |head|) == head && Tail(s) == rest
  {
    var s := head + "\n" + rest;
    assert forall j :: 0 <= j < |head| ==> s[j] == head[j];
    assert forall j :: |head| + 1 <= j < |s| ==> s[j] == rest[j - |head| - 1];
    assert s[|head|] == '\n';
    LineStartBounds(s, 0, |head|);
    LineStartBounds(s, |head| + 1, |s|);
  }

  /** The lines around a single break, seen by a bridge that holds no unfinished line. */
  lemma OneBreakDrops(on: Platform, policy: Policy, b: Bridge, head: string, rest: string)
    requires !HasBreak(head) && !HasBreak(rest) && b.pending == ""
    ensures CompletesForbidden(on, policy, "", head + "\n" + rest) <==> Forbidden(on, policy, head)
    ensures Drops(on, policy, b, head + "\n" + rest) <==> Forbidden(on, policy, head) || Forbidden(on, policy, rest)
  {
    var text := head + "\n" + rest;
    assert "" + text == text;
    forall k ensures ForbiddenLineAt(on, policy, text, k) <==> k == |head| && Forbidden(on, policy, head) {
      OneBreak(head, rest, k);
    }
    assert ForbiddenLineAt(on, policy, "" + text, |head|) <==> Forbidden(on, policy, head);
    OneBreak(head, rest, |head|);
    assert HasBreak(text);
    DroppedIffForbiddenLine(on, policy, b, "", text);
  }

  /** A chunk can be dropped for a line it only begins. */
  lemma UnfinishedLineDropsChunk(on: Platform, policy: Policy, b: Bridge, head: string, rest: string)
    requires !HasBreak(head) && !HasBreak(rest) && b.pending == ""
    requires !Forbidden(on, policy, head) && Forbidden(on, policy, rest)
    ensures Drops(on, policy, b, head + "\n" + rest) && !CompletesForbidden(on, policy, "", head + "\n" + rest)
  {
    OneBreakDrops(on, policy, b, head, rest);
  }

  lemma ForbiddenAcrossChunks(on: Platform, policy: Policy, head: string, start: string, rest: string)
    requires !HasBreak(head) && !HasBreak(start) && !HasBreak(rest) && Forbidden(on, policy, start + rest)
    ensures CompletesForbidden(on, policy, head + "\n" + start, rest + "\n")
  {
    var first, second := head + "\n" + start, rest + "\n";
    var s := first + second;
    var k := |first| + |rest|;
    assert s[|head|] == '\n' && s[k] == '\n';
    assert forall j :: |head| + 1 <= j < k ==> s[j] == (start + rest)[j - |head| - 1];
    assert forall j :: 0 <= j < |start + rest| ==> (start + rest)[j] == if j < |start| then start[j] else rest[j - |start|];
    LineStartBounds(s, |head| + 1, k);
    assert s[|head| + 1..k] == start + rest;
    assert ForbiddenLineAt(on, policy, s, k);
  }

  /** A forbidden line begun after a break and finished in the next chunk reaches the target. */
  lemma SplitLineGetsThrough(on: Platform, policy: Policy, b: Bridge, head: string, start: string, rest: string)
    requires !HasBreak(head) && !HasBreak(start) && !HasBreak(rest) && b.pending == ""
    requires |head + "\n" + start| <= CHUNK_LIMIT && |rest + "\n"| <= CHUNK_LIMIT
    requires !Forbidden(on, policy, head) && !Forbidden(on, policy, start) && !Forbidden(on, policy, rest)
    requires Forbidden(on, policy, start + rest)
    ensures var first, second := head + "\n" + start, rest + "\n";
            && CompletesForbidden(on, policy, first, second)
            && Step(on, policy, Step(on, policy, b, first), second).stdin == b.stdin + on.encode(first) + on.encode(second)
  {
    var first, second := head + "\n" + start, rest + "\n";
    ForbiddenAcrossChunks(on, policy, head, start, rest);
    OneBreakDrops(on, policy, b, head, start);
    StepForwardsUnlessDropped(on, policy, b, first);
    var middle := Step(on, policy, b, first);
    PendingAfterStep(on, policy, b, first);
    assert HasBreak(first) by {
      assert first[|head|] == '\n';
    }
    assert rest + "\n" + "" == second;
    OneBreakDrops(on, policy, middle, rest, "");
    StepForwardsUnlessDropped(on, policy, middle, second);
  }

  predicate Occurs(pattern: string, command: string) {
    exists i :: 0 <= i <= |command| && pattern <= command[i..]
  }

  /** Patterns without special characters on plain text. */
  function PlainText(): Platform {
    Platform((pattern: string, command: string) => if Occurs(pattern, command) then Found else NotFound,
             (c: char) => c == ' ', (s: string) => seq(|s|, i => 0 as bv8))
  }

  lemma SingleMatch(pattern: string, command: string)
    requires pattern != "" && |command| > 0 && !PlainText().isSpace(command[0]) && !PlainText().isSpace(command[|command| - 1])
    ensures Strip(PlainText(), command) == command
    ensures Forbidden(PlainText(), Policy([pattern], []), command) <==> Occurs(pattern, command)
  {
    var on := PlainText();
    assert MatchingFrom(on, command, [pattern], 1) == "";
  }

  /** With `b` denied, the chunk of lines `a` and `b`, the second unfinished, is dropped. */
  lemma UnfinishedLineExample(a: string, b: string)
    requires a == "a" && b == "b"
    ensures var policy := Policy(["b"], []);
            && Drops(PlainText(), policy, IDLE, a + "\n" + b)
            && !CompletesForbidden(PlainText(), policy, "", a + "\n" + b)
  {
    SingleMatch("b", a);
    SingleMatch("b", b);
    assert "b" <= b[0..];
    UnfinishedLineDropsChunk(PlainText(), Policy(["b"], []), IDLE, a, b);
  }

  /** With `bc` denied, the same chunk and the rest of its second line are both forwarded and form the line `bc`. */
  lemma SplitLineExample(a: string, b: string, c: string)
    requires a == "a" && b == "b" && c == "c"
    ensures var on, policy, first, second := PlainText(), Policy(["bc"], []), a + "\n" + b, c + "\n";
            && CompletesForbidden(on, policy, first, second)
            && Step(on, policy, Step(on, policy, IDLE, first), second).stdin == [] + on.encode(first) + on.encode(second)
  {
    SingleMatch("bc", a);
    SingleMatch("bc", b);
    SingleMatch("bc", c);
    SingleMatch("bc", b + c);
    assert "bc" <= (b + c)[0..];
    SplitLineGetsThrough(PlainText(), Policy(["bc"], []), IDLE, a, b, c);
  }
}
