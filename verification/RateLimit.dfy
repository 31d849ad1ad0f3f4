/** The keyring's sliding-window limiter: one queue of accepted times per operation. */
module RateLimit {
  import opened Common

  /** `NoDefault` and `EmptyQueue` are the two lookups that can raise. */
  datatype Answer = Accepted | Refused(retryAfter: int) | NoDefault | EmptyQueue

  function Ceil(x: real): int {
    -((-x).Floor)
  }

  /** The first event from position `i` on that is later than `cutoff`. */
  function FirstLive(events: seq<real>, cutoff: real, i: nat): (n: nat)
    requires i <= |events|
    ensures i <= n <= |events|
    ensures forall j :: i <= j < n ==> events[j] <= cutoff
    ensures n < |events| ==> events[n] > cutoff
    decreases |events| - i
  {
    if i < |events| && events[i] <= cutoff then FirstLive(events, cutoff, i + 1) else i
  }

  function Prune(events: seq<real>, cutoff: real): seq<real> {
    events[FirstLive(events, cutoff, 0)..]
  }

  datatype Result = Result(answer: Answer, events: seq<real>)

  predicate Admits(events: seq<real>, limit: int, window: real, now: real) {
    |Prune(events, now - window)| < limit
  }

  /** The queue a call leaves. */
  function Leaves(events: seq<real>, limit: int, window: real, now: real): seq<real> {
    var kept := Prune(events, now - window);
    if |kept| < limit then kept + [now] else kept
  }

  /** One call for an operation, on its queue. */
  function Acquire(events: seq<real>, limit: int, window: real, now: real): Result {
    var left := Leaves(events, limit, window, now);
    if Admits(events, limit, window, now) then Result(Accepted, left)
    else if left == [] then Result(EmptyQueue, left)
    else Result(Refused(Max(1, Ceil(left[0] + window - now))), left)
  }

  class SlidingWindowRateLimiter {
    const limits: map<string, int>
    const window: real
    var events: map<string, seq<real>>

    constructor (limits: map<string, int>, window: real)
      ensures this.limits == limits && this.window == window && events == map[]
    {
      this.limits, this.window, this.events := limits, window, map[];
    }

    ghost function Queue(operation: string): seq<real>
      reads this
    {
      if operation in events then events[operation] else []
    }

    method AcquireFor(operation: string, now: real) returns (answer: Answer)
      modifies this
      ensures "default" !in limits ==> answer == NoDefault && events == old(events)
      ensures "default" in limits ==>
                var limit := if operation in limits then limits[operation] else limits["default"];
                var r := Acquire(old(Queue(operation)), limit, window, now);
                answer == r.answer && Queue(operation) == r.events
      ensures forall other :: other != operation ==> Queue(other) == old(Queue(other))
    {
      if "default" !in limits {
        return NoDefault;
      }
      var limit := if operation in limits then limits[operation] else limits["default"];
      var cutoff := now - window;
      var queue := if operation in events then events[operation] else [];
      ghost var dropped: nat := 0;
      while queue != [] && queue[0] <= cutoff
        invariant dropped <= |old(Queue(operation))| && queue == old(Queue(operation))[dropped..]
        invariant FirstLive(old(Queue(operation)), cutoff, 0) == FirstLive(old(Queue(operation)), cutoff, dropped)
        decreases |queue|
      {
        queue, dropped := queue[1..], dropped + 1;
      }
      events := events[operation := queue];
      if |queue| >= limit {
        if queue == [] {
          return EmptyQueue;
        }
        return Refused(Max(1, Ceil(queue[0] + window - now)));
      }
      events := events[operation := queue + [now]];
      return Accepted;
    }
  }

  // ----- any sequence of calls for one operation -----

  /** The queue after the calls, and the full history of accepted times. */
  datatype Trace = Trace(queue: seq<real>, accepted: seq<real>)

  /** The calls in the order they take the lock, each with the clock value it read before. */
  function Run(limit: int, window: real, times: seq<real>): Trace {
    if times == [] then Trace([], [])
    else
      var before, now := Run(limit, window, times[..|times| - 1]), times[|times| - 1];
      Trace(Leaves(before.queue, limit, window, now),
            if Admits(before.queue, limit, window, now) then before.accepted + [now] else before.accepted)
  }

  ghost predicate AllAtMost(s: seq<real>, bound: real) {
    forall i :: 0 <= i < |s| ==> s[i] <= bound
  }

  ghost predicate AllAbove(s: seq<real>, bound: real) {
    forall i :: 0 <= i < |s| ==> s[i] > bound
  }

  /** No call reads a clock value more than `skew` behind a value read by a call before it. */
  ghost predicate WithinSkew(times: seq<real>, skew: real) {
    forall i, j :: 0 <= i < j < |times| ==> times[i] <= times[j] + skew
  }

  ghost predicate Sorted(s: seq<real>) {
    forall i, j :: 0 <= i < j < |s| ==> s[i] <= s[j]
  }

  /** What pruning drops, and what it keeps. */
  lemma PruneSplits(s: seq<real>, cutoff: real) returns (front: seq<real>)
    ensures s == front + Prune(s, cutoff)
    ensures AllAtMost(front, cutoff)
    ensures Sorted(s) ==> Sorted(Prune(s, cutoff)) && AllAbove(Prune(s, cutoff), cutoff)
  {
    front := s[..FirstLive(s, cutoff, 0)];
  }

  /** One more call, with the queue split into what it drops and what it keeps. */
  ghost predicate OneCall(before: Trace, after: Trace, limit: int, window: real, now: real,
                          front: seq<real>, kept: seq<real>) {
    && before.queue == front + kept && AllAtMost(front, now - window)
    && (Sorted(before.queue) ==> Sorted(kept) && AllAbove(kept, now - window))
    && after.queue == (if |kept| < limit then kept + [now] else kept)
    && after.accepted == (if |kept| < limit then before.accepted + [now] else before.accepted)
  }

  lemma RunOneCall(limit: int, window: real, times: seq<real>, now: real)
    returns (before: Trace, after: Trace, front: seq<real>, kept: seq<real>)
    ensures before == Run(limit, window, times) && after == Run(limit, window, times + [now])
    ensures OneCall(before, after, limit, window, now, front, kept)
  {
    before, after := Run(limit, window, times), Run(limit, window, times + [now]);
    assert (times + [now])[..|times|] == times;
    front := PruneSplits(before.queue, now - window);
    kept := Prune(before.queue, now - window);
  }

  /** The queue is the end of the history; what has left it is a full window before some reading. */
  ghost predicate EndOfHistory(tr: Trace, gone: seq<real>, limit: int, window: real, top: real) {
    && tr.accepted == gone + tr.queue && |tr.queue| <= limit
    && AllAtMost(gone, top - window) && AllAtMost(tr.queue, top)
  }

  lemma OneCallKeepsEnd(before: Trace, after: Trace, limit: int, window: real, now: real, top: real,
                        gone: seq<real>, front: seq<real>, kept: seq<real>)
    requires limit >= 1 && now <= top && EndOfHistory(before, gone, limit, window, top)
    requires OneCall(before, after, limit, window, now, front, kept)
    ensures EndOfHistory(after, gone + front, limit, window, top)
  {
    assert gone + (front + kept) == (gone + front) + kept;
    assert AllAtMost(kept, top) by {
      assert forall i :: 0 <= i < |kept| ==> kept[i] == before.queue[|front| + i];
    }
    assert (gone + front) + kept + [now] == (gone + front) + (kept + [now]);
  }

  lemma {:induction false} QueueIsEndOfHistory(limit: int, window: real, times: seq<real>, top: real)
    returns (gone: seq<real>)
    requires limit >= 1 && AllAtMost(times, top)
    ensures EndOfHistory(Run(limit, window, times), gone, limit, window, top)
  {
    if times == [] {
      gone := [];
    } else {
      var n := |times| - 1;
      var earlier := QueueIsEndOfHistory(limit, window, times[..n], top);
      gone := NextCallKeepsEnd(limit, window, times[..n], times[n], top, earlier);
      assert times == times[..n] + [times[n]];
    }
  }

  lemma NextCallKeepsEnd(limit: int, window: real, times: seq<real>, now: real, top: real, earlier: seq<real>)
    returns (gone: seq<real>)
    requires limit >= 1 && now <= top && EndOfHistory(Run(limit, window, times), earlier, limit, window, top)
    ensures EndOfHistory(Run(limit, window, times + [now]), gone, limit, window, top)
  {
    var before, after, front, kept := RunOneCall(limit, window, times, now);
    OneCallKeepsEnd(before, after, limit, window, now, top, earlier, front, kept);
    gone := earlier + front;
  }

  // ----- the bound -----

  function OpenClosed(x: real, length: real): real -> bool {
    (t: real) => x < t <= x + length
  }

  function ClosedOpen(x: real, length: real): real -> bool {
    (t: real) => x <= t < x + length
  }

  /** Points later than anything that can have left the queue are all still in the part that is kept. */
  lemma KeptHoldsRecent(tr: Trace, gone: seq<real>, limit: int, window: real, top: real, now: real,
                        front: seq<real>, kept: seq<real>, p: real -> bool)
    requires EndOfHistory(tr, gone, limit, window, top) && now <= top
    requires tr.queue == front + kept && AllAtMost(front, now - window)
    requires forall t: real :: p(t) ==> t > top - window
    ensures Count(tr.accepted, p) == Count(kept, p) <= |kept|
  {
    CountConcat(gone, tr.queue, p);
    CountConcat(front, kept, p);
    CountNone(gone, p);
    CountNone(front, p);
    CountAll(kept, p);
  }

  lemma EarlierReadings(times: seq<real>, skew: real)
    requires times != [] && WithinSkew(times, skew)
    ensures WithinSkew(times[..|times| - 1], skew) && AllAtMost(times[..|times| - 1], times[|times| - 1] + skew)
    ensures times == times[..|times| - 1] + [times[|times| - 1]]
  {
  }

  lemma {:induction false} NoStretchExceedsLimit(limit: int, window: real, times: seq<real>, skew: real, x: real,
                                                 p: real -> bool)
    requires limit >= 1 && skew >= 0.0 && WithinSkew(times, skew)
    requires p == OpenClosed(x, window - skew) || p == ClosedOpen(x, window - skew)
    ensures Count(Run(limit, window, times).accepted, p) <= limit
  {
    if times != [] {
      var earlier, now := times[..|times| - 1], times[|times| - 1];
      EarlierReadings(times, skew);
      NoStretchExceedsLimit(limit, window, earlier, skew, x, p);
      OneMoreFits(limit, window, earlier, now, skew, x, p);
    }
  }

  /**
   * Whatever the order in which threads reach the lock, no half-open stretch of `window - skew` seconds holds more
   * than `limit` accepted calls; with readings in order that is the whole window.
   */
  lemma {:induction false} NoWindowExceedsLimit(limit: int, window: real, times: seq<real>, skew: real, x: real)
    requires limit >= 1 && skew >= 0.0 && WithinSkew(times, skew)
    ensures Count(Run(limit, window, times).accepted, OpenClosed(x, window - skew)) <= limit
    ensures Count(Run(limit, window, times).accepted, ClosedOpen(x, window - skew)) <= limit
  {
    NoStretchExceedsLimit(limit, window, times, skew, x, OpenClosed(x, window - skew));
    NoStretchExceedsLimit(limit, window, times, skew, x, ClosedOpen(x, window - skew));
  }

  /** A call that is accepted inside the stretch found room in it. */
  lemma AcceptedFits(before: Trace, after: Trace, gone: seq<real>, limit: int, window: real, top: real, now: real,
                     front: seq<real>, kept: seq<real>, p: real -> bool)
    requires EndOfHistory(before, gone, limit, window, top) && now <= top
    requires OneCall(before, after, limit, window, now, front, kept)
    requires p(now) ==> forall t: real :: p(t) ==> t > top - window
    requires Count(before.accepted, p) <= limit
    ensures Count(after.accepted, p) <= limit
  {
    CountAppend(before.accepted, now, p);
    if p(now) {
      KeptHoldsRecent(before, gone, limit, window, top, now, front, kept, p);
    }
  }

  lemma OneMoreFits(limit: int, window: real, times: seq<real>, now: real, skew: real, x: real, p: real -> bool)
    requires limit >= 1 && skew >= 0.0 && AllAtMost(times, now + skew)
    requires p == OpenClosed(x, window - skew) || p == ClosedOpen(x, window - skew)
    requires Count(Run(limit, window, times).accepted, p) <= limit
    ensures Count(Run(limit, window, times + [now]).accepted, p) <= limit
  {
    var top := now + skew;
    var gone := QueueIsEndOfHistory(limit, window, times, top);
    var before, after, front, kept := RunOneCall(limit, window, times, now);
    AcceptedFits(before, after, gone, limit, window, top, now, front, kept, p);
  }

  /** A single accepted call, with its queue already split. */
  lemma CallAfter(limit: int, window: real, times: seq<real>, now: real,
                  front: seq<real>, kept: seq<real>, accepted: seq<real>, p: real -> bool)
    requires Run(limit, window, times) == Trace(front + kept, accepted) && |kept| < limit
    requires AllAtMost(front, now - window) && (kept != [] ==> kept[0] > now - window)
    ensures Run(limit, window, times + [now]) == Trace(kept + [now], accepted + [now])
    ensures Count(accepted + [now], p) == Count(accepted, p) + if p(now) then 1 else 0
  {
    var n := FirstLive(front + kept, now - window, 0);
    assert n == |front| by {
      assert kept != [] ==> (front + kept)[|front|] == kept[0];
    }
    assert (times + [now])[..|times|] == times;
    CountAppend(accepted, now, p);
  }

  lemma OneMoreAtOnce(limit: int, window: real, s: seq<real>, now: real, p: real -> bool)
    requires Run(limit, window, s) == Trace(s, s) && |s| < limit && (s != [] ==> s[0] > now - window)
    ensures Run(limit, window, s + [now]) == Trace(s + [now], s + [now])
    ensures Count(s + [now], p) == Count(s, p) + if p(now) then 1 else 0
  {
    var empty: seq<real> := [];
    assert empty + s == s;
    CallAfter(limit, window, s, now, empty, s, s, p);
  }

  /** Up to `limit` calls at one instant are all accepted. */
  lemma {:induction false} ManyAtOnce(limit: int, window: real, start: real, n: nat, p: real -> bool) returns (times: seq<real>)
    requires n <= limit && window > 0.0 && p(start)
    ensures Run(limit, window, times) == Trace(times, times) && Count(times, p) == n
    ensures |times| == n && forall i :: 0 <= i < n ==> times[i] == start
  {
    times := [];
    if n > 0 {
      times := ManyAtOnce(limit, window, start, n - 1, p);
      OneMoreAtOnce(limit, window, times, start, p);
      times := times + [start];
    }
  }

  /** A window later every entry has left the queue. */
  lemma ThenReplaced(limit: int, window: real, filled: seq<real>, late: real, p: real -> bool)
    requires limit >= 1 && Run(limit, window, filled) == Trace(filled, filled) && !p(late)
    requires AllAtMost(filled, late - window)
    ensures Run(limit, window, filled + [late]) == Trace([late], filled + [late]) && Count(filled + [late], p) == Count(filled, p)
  {
    var empty: seq<real> := [];
    assert filled + empty == filled && empty + [late] == [late];
    CallAfter(limit, window, filled, late, filled, empty, filled, p);
  }

  /** A reading from before finds only the one later entry. */
  lemma ThenBehind(limit: int, window: real, more: seq<real>, late: real, now: real, p: real -> bool)
    requires limit >= 2 && Run(limit, window, more) == Trace([late], more) && late > now - window && p(now)
    ensures Run(limit, window, more + [now]).accepted == more + [now] && Count(more + [now], p) == Count(more, p) + 1
  {
    var empty: seq<real> := [];
    assert empty + [late] == [late];
    CallAfter(limit, window, more, now, empty, [late], more, p);
  }

  lemma AppendSorted(s: seq<real>, x: real)
    requires Sorted(s) && AllAtMost(s, x)
    ensures Sorted(s + [x]) && AllAtMost(s + [x], x)
  {
  }

  lemma AppendBehind(s: seq<real>, top: real, x: real, skew: real)
    requires Sorted(s) && AllAtMost(s, top) && top <= x + skew && skew >= 0.0
    ensures WithinSkew(s + [x], skew)
  {
  }

  lemma FillAndReplace(limit: int, window: real, start: real, late: real, p: real -> bool) returns (times: seq<real>)
    requires limit >= 1 && window > 0.0 && late == start + window && p(start) && !p(late)
    ensures Run(limit, window, times) == Trace([late], times) && Count(times, p) == limit
    ensures Sorted(times) && AllAtMost(times, late)
  {
    var filled := ManyAtOnce(limit, window, start, limit, p);
    ThenReplaced(limit, window, filled, late, p);
    AppendSorted(filled, late);
    times := filled + [late];
  }

  lemma FallBehind(limit: int, window: real, more: seq<real>, late: real, now: real, skew: real, p: real -> bool)
    returns (times: seq<real>)
    requires limit >= 2 && Run(limit, window, more) == Trace([late], more) && late > now - window && p(now)
    requires Sorted(more) && AllAtMost(more, late) && late <= now + skew && skew >= 0.0
    ensures Run(limit, window, times).accepted == times && Count(times, p) == Count(more, p) + 1
    ensures WithinSkew(times, skew)
  {
    AppendBehind(more, late, now, skew);
    ThenBehind(limit, window, more, late, now, p);
    times := more + [now];
  }

  /** With a limit above one and readings out of order by any amount, whenever that starts, the whole-window bound can fail. */
  lemma DisorderCanExceedLimit(limit: int, start: real, window: real, skew: real) returns (times: seq<real>)
    requires limit >= 2 && 0.0 < skew <= window
    ensures WithinSkew(times, skew)
    ensures Count(Run(limit, window, times).accepted, OpenClosed(start - skew, window)) == limit + 1
  {
    var p := OpenClosed(start - skew, window);
    var late := start + window;
    assert p(start) && !p(late) && p(late - skew);
    var more := FillAndReplace(limit, window, start, late, p);
    times := FallBehind(limit, window, more, late, late - skew, skew, p);
  }

  ghost predicate ApartBy(s: seq<real>, gap: real) {
    forall i, j :: 0 <= i < j < |s| ==> s[i] + gap <= s[j]
  }

  lemma AppendApart(s: seq<real>, gap: real, x: real)
    requires ApartBy(s, gap) && gap > 0.0 && (s != [] ==> s[|s| - 1] + gap <= x)
    ensures ApartBy(s + [x], gap)
  {
    assert forall i :: 0 <= i < |s| ==> s[i] <= s[|s| - 1];
  }

  function LastOf(s: seq<real>): seq<real> {
    if s == [] then [] else [s[|s| - 1]]
  }

  /** With a limit of one the queue holds the last accepted call, and accepted calls are a window apart. */
  ghost predicate Spaced(tr: Trace, window: real) {
    ApartBy(tr.accepted, window) && tr.queue == LastOf(tr.accepted)
  }

  lemma OneCallKeepsSpacing(before: Trace, after: Trace, window: real, now: real, front: seq<real>, kept: seq<real>)
    requires window > 0.0 && Spaced(before, window) && OneCall(before, after, 1, window, now, front, kept)
    ensures Spaced(after, window)
  {
    if |kept| < 1 {
      assert before.queue == front;
      assert before.accepted != [] ==> front[0] == before.accepted[|before.accepted| - 1];
      AppendApart(before.accepted, window, now);
      assert kept + [now] == [now];
    } else {
      assert |before.queue| == 1 && |front| == 0 && kept == before.queue;
    }
  }

  lemma {:induction false} LimitOneSpaces(window: real, times: seq<real>)
    requires window > 0.0
    ensures Spaced(Run(1, window, times), window)
  {
    if times != [] {
      var earlier, now := times[..|times| - 1], times[|times| - 1];
      assert times == earlier + [now];
      LimitOneSpaces(window, earlier);
      var before, after, front, kept := RunOneCall(1, window, earlier, now);
      OneCallKeepsSpacing(before, after, window, now, front, kept);
    }
  }

  lemma {:induction false} CountAtMostOne(s: seq<real>, p: real -> bool)
    requires forall i, j :: 0 <= i < j < |s| ==> !(p(s[i]) && p(s[j]))
    ensures Count(s, p) <= 1
  {
    if s != [] {
      var n := |s| - 1;
      if p(s[n]) {
        CountNone(s[..n], p);
      } else {
        CountAtMostOne(s[..n], p);
      }
    }
  }

  /** A limit of one holds over the whole window, whatever the order of readings. */
  lemma LimitOneIsImmune(window: real, times: seq<real>, x: real)
    ensures Count(Run(1, window, times).accepted, OpenClosed(x, window)) <= 1
    ensures Count(Run(1, window, times).accepted, ClosedOpen(x, window)) <= 1
  {
    var accepted := Run(1, window, times).accepted;
    if window > 0.0 {
      LimitOneSpaces(window, times);
      CountAtMostOne(accepted, OpenClosed(x, window));
      CountAtMostOne(accepted, ClosedOpen(x, window));
    } else {
      CountNone(accepted, OpenClosed(x, window));
      CountNone(accepted, ClosedOpen(x, window));
    }
  }

  /** No run with readings within `skew` of their order holds more than the limit in a window. */
  ghost predicate BoundSurvives(limit: int, window: real, skew: real) {
    forall times: seq<real>, x: real :: WithinSkew(times, skew) ==> Count(Run(limit, window, times).accepted, OpenClosed(x, window)) <= limit
  }

  /** Exactly when the whole-window bound survives disorder: for a limit of one, an empty window, or readings in order. */
  lemma BoundSurvivesIff(limit: int, window: real, skew: real)
    requires limit >= 1 && skew >= 0.0
    ensures BoundSurvives(limit, window, skew) <==> limit == 1 || window <= 0.0 || skew == 0.0
  {
    if limit == 1 || window <= 0.0 || skew == 0.0 {
      forall times: seq<real>, x: real | WithinSkew(times, skew)
        ensures Count(Run(limit, window, times).accepted, OpenClosed(x, window)) <= limit
      {
        if limit == 1 {
          LimitOneIsImmune(window, times, x);
        } else if window <= 0.0 {
          CountNone(Run(limit, window, times).accepted, OpenClosed(x, window));
        } else {
          NoWindowExceedsLimit(limit, window, times, 0.0, x);
        }
      }
    } else {
      var s := if skew <= window then skew else window;
      var times := DisorderCanExceedLimit(limit, 0.0, window, s);
      assert WithinSkew(times, skew);
    }
  }

  // ----- readings in order -----

  function After(cutoff: real): real -> bool {
    (t: real) => t > cutoff
  }

  lemma OneCallKeepsOrder(before: Trace, after: Trace, limit: int, window: real, now: real,
                          front: seq<real>, kept: seq<real>)
    requires Sorted(before.queue) && AllAtMost(before.queue, now)
    requires OneCall(before, after, limit, window, now, front, kept)
    ensures Sorted(after.queue)
  {
    assert forall i :: 0 <= i < |kept| ==> kept[i] == before.queue[|front| + i];
  }

  lemma NextCallKeepsOrder(limit: int, window: real, times: seq<real>, now: real)
    requires Sorted(Run(limit, window, times).queue) && AllAtMost(Run(limit, window, times).queue, now)
    ensures Sorted(Run(limit, window, times + [now]).queue)
  {
    var before, after, front, kept := RunOneCall(limit, window, times, now);
    OneCallKeepsOrder(before, after, limit, window, now, front, kept);
  }

  lemma EarlierInOrder(times: seq<real>)
    requires times != [] && Sorted(times)
    ensures Sorted(times[..|times| - 1]) && AllAtMost(times[..|times| - 1], times[|times| - 1])
    ensures times == times[..|times| - 1] + [times[|times| - 1]]
  {
  }

  lemma {:induction false} QueueIsSorted(limit: int, window: real, times: seq<real>)
    requires limit >= 1 && Sorted(times)
    ensures Sorted(Run(limit, window, times).queue)
  {
    if times != [] {
      var earlier, now := times[..|times| - 1], times[|times| - 1];
      EarlierInOrder(times);
      QueueIsSorted(limit, window, earlier);
      var gone := QueueIsEndOfHistory(limit, window, earlier, now);
      NextCallKeepsOrder(limit, window, earlier, now);
    }
  }

  lemma KeptIsWhatCounts(tr: Trace, gone: seq<real>, limit: int, window: real, now: real,
                         front: seq<real>, kept: seq<real>)
    requires EndOfHistory(tr, gone, limit, window, now) && tr.queue == front + kept
    requires AllAtMost(front, now - window) && AllAbove(kept, now - window)
    ensures Count(tr.accepted, After(now - window)) == |kept|
  {
    KeptHoldsRecent(tr, gone, limit, window, now, now, front, kept, After(now - window));
    CountAll(kept, After(now - window));
  }

  lemma SortedQueueDecides(tr: Trace, gone: seq<real>, limit: int, window: real, now: real)
    requires EndOfHistory(tr, gone, limit, window, now) && Sorted(tr.queue)
    ensures Admits(tr.queue, limit, window, now) <==> Count(tr.accepted, After(now - window)) < limit
  {
    var front := PruneSplits(tr.queue, now - window);
    KeptIsWhatCounts(tr, gone, limit, window, now, front, Prune(tr.queue, now - window));
  }

  /** The pruned queue decides as a count over the full history of accepted calls would. */
  lemma {:induction false} QueueDecidesLikeFullHistory(limit: int, window: real, times: seq<real>, now: real)
    requires limit >= 1 && Sorted(times) && AllAtMost(times, now)
    ensures var tr := Run(limit, window, times);
            Admits(tr.queue, limit, window, now) <==> Count(tr.accepted, After(now - window)) < limit
  {
    var gone := QueueIsEndOfHistory(limit, window, times, now);
    QueueIsSorted(limit, window, times);
    SortedQueueDecides(Run(limit, window, times), gone, limit, window, now);
  }

  // ----- retry-after -----

  lemma CeilIsLeast(x: real, k: int)
    ensures k as real >= x <==> k >= Ceil(x)
  {
  }

  /** A refusal names the least whole number of seconds after which a retry is accepted, if nothing else is. */
  lemma {:induction false} RetryAfterIsExact(limit: int, window: real, times: seq<real>, now: real, k: nat)
    requires limit >= 1 && Sorted(times) && AllAtMost(times, now)
    requires Acquire(Run(limit, window, times).queue, limit, window, now).answer.Refused?
    ensures var r := Acquire(Run(limit, window, times).queue, limit, window, now);
            Admits(r.events, limit, window, now + k as real) <==> k >= r.answer.retryAfter
  {
    var tr := Run(limit, window, times);
    var r := Acquire(tr.queue, limit, window, now);
    var gone := QueueIsEndOfHistory(limit, window, times, now);
    QueueIsSorted(limit, window, times);
    var front := PruneSplits(tr.queue, now - window);
    RetryOnFullQueue(r.events, limit, window, now, k);
  }

  lemma RetryOnFullQueue(queue: seq<real>, limit: int, window: real, now: real, k: nat)
    requires |queue| == limit >= 1 && queue[0] > now - window
    ensures Admits(queue, limit, window, now + k as real)
       <==> k >= Max(1, Ceil(queue[0] + window - now))
  {
    var later := now + k as real - window;
    CeilIsLeast(queue[0] + window - now, k);
    assert queue[0] <= later <==> FirstLive(queue, later, 0) > 0;
  }

  /** With a limit below one nothing is ever accepted, and every call fails on the empty queue. */
  lemma {:induction false} LimitBelowOneAlwaysRaises(limit: int, window: real, times: seq<real>, now: real)
    requires limit < 1
    ensures Run(limit, window, times) == Trace([], [])
    ensures Acquire(Run(limit, window, times).queue, limit, window, now).answer == EmptyQueue
  {
    if times != [] {
      LimitBelowOneAlwaysRaises(limit, window, times[..|times| - 1], times[|times| - 1]);
    }
  }

  /** On any run a call fails on the empty queue exactly if the limit is below one. */
  lemma EmptyQueueIffLimitBelowOne(limit: int, window: real, times: seq<real>, now: real)
    ensures Acquire(Run(limit, window, times).queue, limit, window, now).answer == EmptyQueue <==> limit < 1
  {
    if limit < 1 {
      LimitBelowOneAlwaysRaises(limit, window, times, now);
    }
  }
}
