/**
 The rate limiters of the hub and of the auto-responder: a sliding window per key, a token bucket
 per connection, and the auto-responder's rolling hour. Times are reals, read from a clock that
 never runs backwards.
 */
module RateLimit {
  import opened Basics

  ghost predicate Ascending(log: seq<real>) {
    forall i, j :: 0 <= i < j < |log| ==> log[i] <= log[j]
  }

  /** The events of a log from position `n` on are the ones a test keeps, and no other is. */
  ghost predicate Splits(log: seq<real>, n: nat, kept: real -> bool) {
    n <= |log| && (forall i :: 0 <= i < n ==> !kept(log[i])) && (forall i :: n <= i < |log| ==> kept(log[i]))
  }

  /** Over an ascending log a window keeps a suffix. */
  lemma {:induction false} FilterIsSuffix(log: seq<real>, n: nat, kept: real -> bool)
    requires Splits(log, n, kept)
    ensures Filter(log, kept) == log[n..]
  {
    if log != [] {
      var m := if n == 0 then 0 else n - 1;
      forall i | 0 <= i < |log| - 1 ensures log[1..][i] == log[i + 1] {}
      FilterIsSuffix(log[1..], m, kept);
      if n == 0 {
        assert Filter(log, kept) == [log[0]] + log[1..];
      } else {
        assert Filter(log, kept) == [] + log[1..][m..] == log[n..];
      }
    }
  }

  // ---- trace bound, shared by both windows ----

  /** How many events of a log fall into a window. */
  ghost function Inside(log: seq<real>, window: real -> bool): set<nat> {
    set i: nat | 0 <= i < |log| && window(log[i])
  }

  lemma {:induction false} IndicesFit(ids: set<nat>, lo: nat, n: nat)
    requires forall i :: i in ids ==> lo <= i < lo + n
    ensures |ids| <= n
    decreases n
  {
    if n == 0 {
      assert forall i :: i in ids ==> false;
      assert ids == {};
    } else {
      IndicesFit(ids - {lo}, lo + 1, n - 1);
      assert ids <= (ids - {lo}) + {lo};
      SubsetCardinality(ids, (ids - {lo}) + {lo});
    }
  }

  ghost predicate IsLowest(ids: set<nat>, m: nat) {
    m in ids && forall i :: i in ids ==> m <= i
  }

  lemma {:induction false} LowestExists(ids: set<nat>)
    requires ids != {}
    ensures exists m :: IsLowest(ids, m)
  {
    var x :| x in ids;
    var rest := ids - {x};
    var low := x;
    if rest != {} {
      LowestExists(rest);
      var m :| IsLowest(rest, m);
      if m < x { low := m; }
    }
    forall i | i in ids ensures low <= i { assert i == x || i in rest; }
    assert IsLowest(ids, low);
  }

  /** If no window contains two events `max` places apart, no window contains more than `max`. */
  lemma WindowHoldsAtMost(log: seq<real>, max: nat, window: real -> bool)
    requires forall i, j :: 0 <= i && i + max <= j < |log| && window(log[i]) ==> !window(log[j])
    ensures |Inside(log, window)| <= max
  {
    var ids := Inside(log, window);
    if ids != {} {
      LowestExists(ids);
      var m :| IsLowest(ids, m);
      IndicesFit(ids, m, max);
    }
  }

  // ---- sliding window ----

  datatype Call = Call(key: string, now: real)

  function InWindow(now: real, window: real): real -> bool {
    t => now - t <= window
  }

  /** Every event ever admitted for a key: a call is admitted when fewer than `max` of the earlier
      ones are at most a window old. */
  ghost function Admitted(calls: seq<Call>, key: string, max: nat, window: real): seq<real> {
    if calls == [] then []
    else
      var log := Admitted(calls[..|calls| - 1], key, max, window);
      var c := calls[|calls| - 1];
      if c.key == key && |Filter(log, InWindow(c.now, window))| < max then log + [c.now] else log
  }

  ghost predicate InOrder(calls: seq<Call>) {
    forall i, j :: 0 <= i < j < |calls| ==> calls[i].now <= calls[j].now
  }

  lemma {:induction false} SplitPoint(log: seq<real>, now: real, window: real) returns (n: nat)
    requires Ascending(log)
    ensures Splits(log, n, InWindow(now, window))
  {
    n := 0;
    while n < |log| && now - log[n] > window
      invariant n <= |log|
      invariant forall i :: 0 <= i < n ==> now - log[i] > window
    {
      n := n + 1;
    }
  }

  /** Events `max` places apart lie more than a window apart. */
  ghost predicate WindowApart(log: seq<real>, max: nat, window: real) {
    forall i :: 0 <= i && i + max < |log| ==> log[i + max] - log[i] > window
  }

  lemma OneMoreEvent(log: seq<real>, now: real, max: nat, window: real)
    requires Ascending(log) && WindowApart(log, max, window) && |Filter(log, InWindow(now, window))| < max
    ensures WindowApart(log + [now], max, window)
  {
    var n := SplitPoint(log, now, window);
    FilterIsSuffix(log, n, InWindow(now, window));
    if |log| >= max {
      assert !InWindow(now, window)(log[|log| - max]);
    }
  }

  lemma {:induction false} AdmittedSpread(calls: seq<Call>, key: string, max: nat, window: real)
    requires InOrder(calls)
    ensures Ascending(Admitted(calls, key, max, window)) && WindowApart(Admitted(calls, key, max, window), max, window)
    ensures forall i :: 0 <= i < |Admitted(calls, key, max, window)| ==>
              calls != [] && Admitted(calls, key, max, window)[i] <= calls[|calls| - 1].now
    ensures max == 0 ==> Admitted(calls, key, max, window) == []
    decreases |calls|
  {
    if calls != [] {
      var before := calls[..|calls| - 1];
      AdmittedSpread(before, key, max, window);
      var c := calls[|calls| - 1];
      if c.key == key && |Filter(Admitted(before, key, max, window), InWindow(c.now, window))| < max {
        OneMoreEvent(Admitted(before, key, max, window), c.now, max, window);
      }
    }
  }

  /** In every run, any closed window as long as the limiter's holds at most `max` admitted calls of a key. */
  lemma WindowBound(calls: seq<Call>, key: string, max: nat, window: real, s: real)
    requires InOrder(calls)
    ensures |Inside(Admitted(calls, key, max, window), t => s <= t <= s + window)| <= max
  {
    AdmittedSpread(calls, key, max, window);
    var log := Admitted(calls, key, max, window);
    forall i, j | 0 <= i && i + max <= j < |log| && s <= log[i] <= s + window ensures !(s <= log[j] <= s + window) {
      assert log[i + max] <= log[j];
    }
    WindowHoldsAtMost(log, max, t => s <= t <= s + window);
  }

  /** There is room for another call: fewer than `max` have been admitted, or the one `max` places back
      is more than a window old. */
  ghost predicate HasRoom(log: seq<real>, now: real, max: nat, window: real) {
    max > 0 && (|log| < max || now - log[|log| - max] > window)
  }

  /** Which call is admitted, said of the log itself; other keys play no part. */
  lemma AdmittedIff(calls: seq<Call>, c: Call, key: string, max: nat, window: real)
    requires InOrder(calls + [c])
    ensures var log := Admitted(calls, key, max, window);
            Admitted(calls + [c], key, max, window) ==
              if c.key == key && HasRoom(log, c.now, max, window) then log + [c.now] else log
  {
    var log := Admitted(calls, key, max, window);
    AdmittedAscends(calls, c, key, max, window);
    AdmittedLonger(calls, c, key, max, window);
    FewInWindowIff(log, c.now, max, window);
  }

  lemma AdmittedAscends(calls: seq<Call>, c: Call, key: string, max: nat, window: real)
    requires InOrder(calls + [c])
    ensures Ascending(Admitted(calls, key, max, window))
  {
    assert forall i :: 0 <= i < |calls| ==> calls[i] == (calls + [c])[i];
    AdmittedSpread(calls, key, max, window);
  }

  lemma FewInWindowIff(log: seq<real>, now: real, max: nat, window: real)
    requires Ascending(log)
    ensures |Filter(log, InWindow(now, window))| < max <==> HasRoom(log, now, max, window)
  {
    var n := SplitPoint(log, now, window);
    FilterIsSuffix(log, n, InWindow(now, window));
    if 0 < max <= |log| {
      assert InWindow(now, window)(log[|log| - max]) <==> n <= |log| - max;
    }
  }

  class SlidingWindowLimiter {
    const max: nat
    const window: real
    var events: map<string, seq<real>>
    /** Every call made so far; the code keeps no such list. */
    ghost var calls: seq<Call>

    ghost predicate Valid()
      reads this
    {
      Tracks(events, calls, max, window)
    }

    constructor (max: nat, window: real)
      ensures Valid() && calls == [] && this.max == max && this.window == window
    {
      this.max, this.window := max, window;
      events := map[];
      calls := [];
      new;
      assert Pruned([], [], 0.0, window, 0);
    }

    /** Drops expired events from the front of a key's queue. */
    method DropExpired(stored: seq<real>, now: real, ghost log: seq<real>) returns (queue: seq<real>)
      requires IsPruned(log, stored, now, window)
      ensures IsPruned(log, queue, now, window) && (queue != [] ==> now - queue[0] <= window)
    {
      queue := stored;
      while queue != [] && now - queue[0] > window
        invariant IsPruned(log, queue, now, window)
        decreases |queue|
      {
        PrunedFurther(log, queue, now, window);
        queue := queue[1..];
      }
    }

    /** Answers a call from a key's queue and gives the queue to store. */
    method Decide(stored: seq<real>, now: real, ghost log: seq<real>) returns (ok: bool, queue: seq<real>)
      requires IsPruned(log, stored, now, window) && Ascending(log)
      ensures ok <==> |Filter(log, InWindow(now, window))| < max
      ensures IsPruned(if ok then log + [now] else log, queue, now, window)
      ensures 0.0 <= window && queue != [] ==> now - queue[0] <= window
    {
      queue := DropExpired(stored, now, log);
      PrunedIsFiltered(log, queue, now, window);
      ok := |queue| < max;
      if ok {
        PrunedAndPushed(log, queue, now, window);
        queue := queue + [now];
      }
    }

    /** One call: the stored queue ends up equal to the full log filtered by the window. */
    method Allow(key: string, now: real) returns (ok: bool)
      requires Valid() && forall i :: 0 <= i < |calls| ==> calls[i].now <= now
      modifies this
      ensures Valid() && calls == old(calls) + [Call(key, now)]
      ensures ok <==> HasRoom(Admitted(old(calls), key, max, window), now, max, window)
      ensures 0.0 <= window ==> QueueOf(events, key) == Filter(Admitted(calls, key, max, window), InWindow(now, window))
    {
      ghost var c := Call(key, now);
      QueueLater(calls, c, key, QueueOf(events, key), max, window);
      AdmittedLonger(calls, c, key, max, window);
      FewInWindowIff(Admitted(calls, key, max, window), now, max, window);
      var queue;
      ok, queue := Decide(QueueOf(events, key), now, Admitted(calls, key, max, window));
      TracksCall(events, calls, c, queue, max, window);
      if 0.0 <= window { PushedIsFiltered(calls + [c], key, queue, now, max, window); }
      events := events[key := queue];
      calls := calls + [c];
    }
  }

  function QueueOf(events: map<string, seq<real>>, key: string): seq<real> {
    if key in events then events[key] else []
  }

  /** Every queue is the log of its key without events that have expired. */
  ghost predicate Tracks(events: map<string, seq<real>>, calls: seq<Call>, max: nat, window: real) {
    && InOrder(calls)
    && forall key :: IsPruned(Admitted(calls, key, max, window), QueueOf(events, key), LastCall(calls), window)
  }

  lemma TracksCall(events: map<string, seq<real>>, calls: seq<Call>, c: Call, queue: seq<real>, max: nat, window: real)
    requires Tracks(events, calls, max, window) && forall i :: 0 <= i < |calls| ==> calls[i].now <= c.now
    requires IsPruned(Admitted(calls + [c], c.key, max, window), queue, c.now, window)
    ensures Tracks(events[c.key := queue], calls + [c], max, window)
  {
    forall k ensures IsPruned(Admitted(calls + [c], k, max, window), QueueOf(events[c.key := queue], k), c.now, window) {
      if k != c.key {
        QueueLater(calls, c, k, QueueOf(events, k), max, window);
        AdmittedLonger(calls, c, k, max, window);
      }
    }
  }

  lemma QueueLater(calls: seq<Call>, c: Call, k: string, queue: seq<real>, max: nat, window: real)
    requires InOrder(calls) && (forall i :: 0 <= i < |calls| ==> calls[i].now <= c.now)
    requires IsPruned(Admitted(calls, k, max, window), queue, LastCall(calls), window)
    ensures IsPruned(Admitted(calls, k, max, window), queue, c.now, window) && Ascending(Admitted(calls, k, max, window))
  {
    AdmittedSpread(calls, k, max, window);
    PrunedLater(Admitted(calls, k, max, window), queue, LastCall(calls), c.now, window);
  }

  lemma AdmittedLonger(calls: seq<Call>, c: Call, k: string, max: nat, window: real)
    ensures Admitted(calls + [c], k, max, window) ==
            var log := Admitted(calls, k, max, window);
            if c.key == k && |Filter(log, InWindow(c.now, window))| < max then log + [c.now] else log
  {
    assert (calls + [c])[..|calls|] == calls;
  }

  lemma PushedIsFiltered(calls: seq<Call>, key: string, queue: seq<real>, now: real, max: nat, window: real)
    requires InOrder(calls) && IsPruned(Admitted(calls, key, max, window), queue, now, window)
    requires queue != [] ==> now - queue[0] <= window
    ensures queue == Filter(Admitted(calls, key, max, window), InWindow(now, window))
  {
    AdmittedSpread(calls, key, max, window);
    PrunedIsFiltered(Admitted(calls, key, max, window), queue, now, window);
  }

  function LastCall(calls: seq<Call>): real {
    if calls == [] then 0.0 else calls[|calls| - 1].now
  }

  /** The queue is the log without its first `n` events, all of them expired at `now`, and what is
      left of the log after them is recent as far as the queue's front has been looked at. */
  ghost predicate Pruned(log: seq<real>, queue: seq<real>, now: real, window: real, n: nat) {
    n <= |log| && queue == log[n..] && forall i :: 0 <= i < n ==> now - log[i] > window
  }

  ghost predicate IsPruned(log: seq<real>, queue: seq<real>, now: real, window: real) {
    exists n: nat :: Pruned(log, queue, now, window, n)
  }

  /** Expired events stay expired. */
  lemma PrunedLater(log: seq<real>, queue: seq<real>, now: real, later: real, window: real)
    requires IsPruned(log, queue, now, window) && (log != [] ==> now <= later)
    ensures IsPruned(log, queue, later, window)
  {
    var n: nat :| Pruned(log, queue, now, window, n);
    assert Pruned(log, queue, later, window, n);
  }

  lemma PrunedFurther(log: seq<real>, queue: seq<real>, now: real, window: real)
    requires IsPruned(log, queue, now, window) && queue != [] && now - queue[0] > window
    ensures IsPruned(log, queue[1..], now, window)
  {
    var n: nat :| Pruned(log, queue, now, window, n);
    assert Pruned(log, queue[1..], now, window, n + 1);
  }

  lemma PrunedAndPushed(log: seq<real>, queue: seq<real>, now: real, window: real)
    requires IsPruned(log, queue, now, window)
    ensures IsPruned(log + [now], queue + [now], now, window)
  {
    var n: nat :| Pruned(log, queue, now, window, n);
    assert Pruned(log + [now], queue + [now], now, window, n);
  }

  /** Once its front is recent the queue is exactly the log filtered by the window. */
  lemma PrunedIsFiltered(log: seq<real>, queue: seq<real>, now: real, window: real)
    requires IsPruned(log, queue, now, window) && Ascending(log)
    requires queue != [] ==> now - queue[0] <= window
    ensures queue == Filter(log, InWindow(now, window))
  {
    var n: nat :| Pruned(log, queue, now, window, n);
    if n < |log| { assert queue[0] == log[n]; }
    FilterIsSuffix(log, n, InWindow(now, window));
  }

  // ---- the auto-responder's rolling hour ----

  const HOUR_MS: real := 3600000.0

  /** The clock is read twice: for the cutoff and, on admission, for the recorded time. */
  datatype Reading = Reading(cutoffAt: real, pushedAt: real)

  function AfterCutoff(now: real): real -> bool {
    t => t > now - HOUR_MS
  }

  ghost predicate ReadInOrder(readings: seq<Reading>) {
    && (forall i :: 0 <= i < |readings| ==> readings[i].cutoffAt <= readings[i].pushedAt)
    && (forall i, j :: 0 <= i < j < |readings| ==> readings[i].pushedAt <= readings[j].cutoffAt)
  }

  /** Every reply the rolling hour has let through under a fixed maximum. */
  ghost function Replies(readings: seq<Reading>, max: nat): seq<real> {
    if readings == [] then []
    else
      var log := Replies(readings[..|readings| - 1], max);
      var r := readings[|readings| - 1];
      if |Filter(log, AfterCutoff(r.cutoffAt))| < max then log + [r.pushedAt] else log
  }

  lemma {:induction false} CutoffPoint(log: seq<real>, now: real) returns (n: nat)
    requires Ascending(log)
    ensures Splits(log, n, AfterCutoff(now))
  {
    n := 0;
    while n < |log| && log[n] <= now - HOUR_MS
      invariant n <= |log|
      invariant forall i :: 0 <= i < n ==> log[i] <= now - HOUR_MS
    {
      n := n + 1;
    }
  }

  /** Replies `max` apart lie at least an hour apart. */
  ghost predicate HourApart(log: seq<real>, max: nat) {
    forall i :: 0 <= i && i + max < |log| ==> log[i + max] - log[i] >= HOUR_MS
  }

  lemma OneMoreReply(log: seq<real>, r: Reading, max: nat)
    requires Ascending(log) && HourApart(log, max) && r.cutoffAt <= r.pushedAt
    requires |Filter(log, AfterCutoff(r.cutoffAt))| < max
    ensures HourApart(log + [r.pushedAt], max)
  {
    var n := CutoffPoint(log, r.cutoffAt);
    FilterIsSuffix(log, n, AfterCutoff(r.cutoffAt));
    if |log| >= max {
      assert !AfterCutoff(r.cutoffAt)(log[|log| - max]);
    }
  }

  lemma {:induction false} RepliesSpread(readings: seq<Reading>, max: nat)
    requires ReadInOrder(readings)
    ensures Ascending(Replies(readings, max)) && HourApart(Replies(readings, max), max)
    ensures forall i :: 0 <= i < |Replies(readings, max)| ==>
              readings != [] && Replies(readings, max)[i] <= readings[|readings| - 1].pushedAt
    ensures max == 0 ==> Replies(readings, max) == []
    decreases |readings|
  {
    if readings != [] {
      var before := readings[..|readings| - 1];
      RepliesSpread(before, max);
      var r := readings[|readings| - 1];
      if |Filter(Replies(before, max), AfterCutoff(r.cutoffAt))| < max {
        OneMoreReply(Replies(before, max), r, max);
      }
    }
  }

  /** Any hour open at its start holds at most `max` replies. */
  lemma HourBound(readings: seq<Reading>, max: nat, s: real)
    requires ReadInOrder(readings)
    ensures |Inside(Replies(readings, max), t => s < t <= s + HOUR_MS)| <= max
  {
    RepliesSpread(readings, max);
    var log := Replies(readings, max);
    forall i, j | 0 <= i && i + max <= j < |log| && s < log[i] <= s + HOUR_MS ensures !(s < log[j] <= s + HOUR_MS) {
      assert log[i + max] <= log[j];
    }
    WindowHoldsAtMost(log, max, t => s < t <= s + HOUR_MS);
  }

  /** The hour with both its ends. */
  function ClosedHour(s: real): real -> bool {
    t => s <= t <= s + HOUR_MS
  }

  /** Two replies `max` places apart stand on the two ends of the hour. */
  ghost predicate EndsApart(log: seq<real>, max: nat, s: real) {
    exists i :: 0 <= i && i + max < |log| && log[i] == s && log[i + max] == s + HOUR_MS
  }

  lemma MoreInside(log: seq<real>, window: real -> bool, i: nat, max: nat)
    requires i + max < |log| && forall k :: i <= k <= i + max ==> window(log[k])
    ensures |Inside(log, window)| > max
  {
    var ids := seq(max + 1, k requires 0 <= k <= max => i + k);
    forall k | 0 <= k < |ids| ensures ids[k] in Inside(log, window) {}
    DistinctCardinality(ids);
    SubsetCardinality(Elements(ids), Inside(log, window));
  }

  /** Exactly when a closed hour holds more than the maximum: a reply stands on each of its ends
      and `max` places lie between the two. The reply exactly an hour old no longer counts. */
  lemma ClosedHourHoldsIff(readings: seq<Reading>, max: nat, s: real)
    requires ReadInOrder(readings)
    ensures |Inside(Replies(readings, max), ClosedHour(s))| <= max <==> !EndsApart(Replies(readings, max), max, s)
  {
    RepliesSpread(readings, max);
    var log := Replies(readings, max);
    if EndsApart(log, max, s) {
      var i :| 0 <= i && i + max < |log| && log[i] == s && log[i + max] == s + HOUR_MS;
      forall k | i <= k <= i + max ensures ClosedHour(s)(log[k]) {
        assert k == i || log[i] <= log[k];
        assert k == i + max || log[k] <= log[i + max];
      }
      MoreInside(log, ClosedHour(s), i, max);
    } else {
      forall i, j | 0 <= i && i + max <= j < |log| && ClosedHour(s)(log[i]) ensures !ClosedHour(s)(log[j]) {
        assert log[i + max] - log[i] >= HOUR_MS;
        assert j == i + max || log[i + max] <= log[j];
      }
      WindowHoldsAtMost(log, max, ClosedHour(s));
    }
  }

  /** Fewer than one past the maximum at a single instant: that many lie an hour apart. */
  lemma InstantHoldsAtMost(log: seq<real>, max: nat, at: real -> bool, s: real)
    requires Ascending(log) && HourApart(log, max) && forall t: real :: at(t) <==> t == s
    ensures |Inside(log, at)| <= max
  {
    forall i, j | 0 <= i && i + max <= j < |log| && at(log[i]) ensures !at(log[j]) {
      assert log[i + max] - log[i] >= HOUR_MS;
      assert j == i + max || log[i + max] <= log[j];
    }
    WindowHoldsAtMost(log, max, at);
  }

  /** No closed hour ever holds more than twice the maximum. */
  lemma ClosedHourHoldsTwice(readings: seq<Reading>, max: nat, s: real)
    requires ReadInOrder(readings)
    ensures |Inside(Replies(readings, max), ClosedHour(s))| <= 2 * max
  {
    RepliesSpread(readings, max);
    HourBound(readings, max, s);
    var log := Replies(readings, max);
    var first: real -> bool := t => t == s;
    InstantHoldsAtMost(log, max, first, s);
    assert Inside(log, ClosedHour(s)) == Inside(log, first) + Inside(log, t => s < t <= s + HOUR_MS);
  }

  function Times<T>(n: nat, x: T): (s: seq<T>)
    ensures |s| == n && forall i :: 0 <= i < n ==> s[i] == x
  {
    seq(n, _ => x)
  }

  lemma MoreTimes<T>(n: nat, x: T)
    ensures Times(n, x) + [x] == Times(n + 1, x)
  {}

  lemma RepliesMore(readings: seq<Reading>, r: Reading, max: nat)
    ensures Replies(readings + [r], max) ==
            if |Filter(Replies(readings, max), AfterCutoff(r.cutoffAt))| < max
            then Replies(readings, max) + [r.pushedAt] else Replies(readings, max)
  {
    assert (readings + [r])[..|readings|] == readings;
  }

  /** `early` calls at the start of an hour and `late` calls at its end. */
  function TwoBursts(early: nat, late: nat): seq<Reading> {
    Times(early, Reading(0.0, 0.0)) + Times(late, Reading(HOUR_MS, HOUR_MS))
  }

  lemma BurstGrows(early: nat, late: nat)
    ensures TwoBursts(early, late + 1) == TwoBursts(early, late) + [Reading(HOUR_MS, HOUR_MS)]
    ensures TwoBursts(early + 1, 0) == TwoBursts(early, 0) + [Reading(0.0, 0.0)]
  {
    MoreTimes(late, Reading(HOUR_MS, HOUR_MS));
    MoreTimes(early, Reading(0.0, 0.0));
  }

  lemma KeptAtTheEnd(early: nat, late: nat)
    ensures |Filter(Times(early, 0.0) + Times(late, HOUR_MS), AfterCutoff(HOUR_MS))| == late
  {
    var log := Times(early, 0.0) + Times(late, HOUR_MS);
    assert Splits(log, early, AfterCutoff(HOUR_MS));
    FilterIsSuffix(log, early, AfterCutoff(HOUR_MS));
  }

  lemma KeptAtTheStart(early: nat)
    ensures |Filter(Times(early, 0.0), AfterCutoff(0.0))| == early
  {
    assert Splits(Times(early, 0.0), 0, AfterCutoff(0.0));
    FilterIsSuffix(Times(early, 0.0), 0, AfterCutoff(0.0));
  }

  lemma {:induction false} EarlyBurst(early: nat, max: nat)
    requires early <= max
    ensures Replies(TwoBursts(early, 0), max) == Times(early, 0.0)
    decreases early
  {
    if early == 0 {
      assert TwoBursts(0, 0) == [];
    } else {
      EarlyBurst(early - 1, max);
      KeptAtTheStart(early - 1);
      RepliesMore(TwoBursts(early - 1, 0), Reading(0.0, 0.0), max);
      BurstGrows(early - 1, 0);
      MoreTimes(early - 1, 0.0);
    }
  }

  lemma {:induction false} BurstsAdmitted(late: nat, max: nat)
    requires late <= max
    ensures Replies(TwoBursts(max, late), max) == Times(max, 0.0) + Times(late, HOUR_MS)
    decreases late
  {
    if late == 0 {
      EarlyBurst(max, max);
      assert Times(max, 0.0) + Times(0, HOUR_MS) == Times(max, 0.0);
    } else {
      BurstsAdmitted(late - 1, max);
      KeptAtTheEnd(max, late - 1);
      RepliesMore(TwoBursts(max, late - 1), Reading(HOUR_MS, HOUR_MS), max);
      BurstGrows(max, late - 1);
      MoreTimes(late - 1, HOUR_MS);
      assert (Times(max, 0.0) + Times(late - 1, HOUR_MS)) + [HOUR_MS] == Times(max, 0.0) + Times(late, HOUR_MS);
    }
  }

  /** And twice the maximum is reached, for every maximum: a burst at each end of the hour. */
  lemma TwiceIsReached(max: nat)
    ensures ReadInOrder(TwoBursts(max, max))
    ensures |Inside(Replies(TwoBursts(max, max), max), ClosedHour(0.0))| == 2 * max
  {
    BurstsAdmitted(max, max);
    var log := Times(max, 0.0) + Times(max, HOUR_MS);
    if max > 0 { MoreInside(log, ClosedHour(0.0), 0, 2 * max - 1); }
    ClosedHourHoldsTwice(TwoBursts(max, max), max, 0.0);
  }

  /** Which reply is let through, said of the log itself: the reply `max` places back, if there is one,
      left at the latest 3600000 milliseconds before the cutoff was read. */
  lemma ReplyAdmittedIff(readings: seq<Reading>, r: Reading, max: nat)
    requires ReadInOrder(readings)
    ensures var log := Replies(readings, max);
            Replies(readings + [r], max) ==
              if max > 0 && (|log| < max || log[|log| - max] <= r.cutoffAt - 3600000.0) then log + [r.pushedAt] else log
  {
    var log := Replies(readings, max);
    RepliesSpread(readings, max);
    RepliesMore(readings, r, max);
    var n := CutoffPoint(log, r.cutoffAt);
    FilterIsSuffix(log, n, AfterCutoff(r.cutoffAt));
    if 0 < max <= |log| {
      assert AfterCutoff(r.cutoffAt)(log[|log| - max]) <==> n <= |log| - max;
    }
  }

  class AutoResponder {
    var repliesThisHour: seq<real>

    constructor ()
      ensures repliesThisHour == []
    {
      repliesThisHour := [];
    }

    method AllowByRate(maxPerHour: int, now: real, later: real) returns (ok: bool)
      modifies this
      ensures ok <==> |Filter(old(repliesThisHour), (t: real) => t > now - 3600000.0)| < maxPerHour
      ensures repliesThisHour ==
              Filter(old(repliesThisHour), (t: real) => t > now - 3600000.0) + (if ok then [later] else [])
    {
      FilterSame(repliesThisHour, AfterCutoff(now), (t: real) => t > now - 3600000.0);
      var cutoff := now - HOUR_MS;
      var kept: seq<real> := [];
      for i := 0 to |repliesThisHour|
        invariant kept + Filter(repliesThisHour[i..], AfterCutoff(now)) == Filter(repliesThisHour, AfterCutoff(now))
      {
        assert repliesThisHour[i..][0] == repliesThisHour[i] && repliesThisHour[i..][1..] == repliesThisHour[i + 1..];
        if repliesThisHour[i] > cutoff { kept := kept + [repliesThisHour[i]]; }
      }
      repliesThisHour := kept;
      if |repliesThisHour| >= maxPerHour { return false; }
      repliesThisHour := repliesThisHour + [later];
      return true;
    }
  }

  /** Dropping old replies at one cutoff loses nothing for a later one. */
  lemma {:induction false} FilterTwice(log: seq<real>, now: real, later: real)
    requires now <= later
    ensures Filter(Filter(log, AfterCutoff(now)), AfterCutoff(later)) == Filter(log, AfterCutoff(later))
  {
    if log != [] {
      FilterTwice(log[1..], now, later);
      var rest := Filter(log[1..], AfterCutoff(now));
      if log[0] > now - HOUR_MS {
        assert ([log[0]] + rest)[1..] == rest;
      } else {
        assert [] + rest == rest;
      }
    }
  }

  /** The list the auto-responder keeps after a run of calls under a fixed maximum. */
  ghost function Kept(readings: seq<Reading>, max: nat): seq<real> {
    if readings == [] then []
    else
      var r := readings[|readings| - 1];
      var recent := Filter(Kept(readings[..|readings| - 1], max), AfterCutoff(r.cutoffAt));
      if |recent| < max then recent + [r.pushedAt] else recent
  }

  /** Forgetting old replies never changes a later answer: the kept list and the full log of
      admitted replies look the same from any later cutoff. */
  lemma {:induction false} KeptIsEnough(readings: seq<Reading>, max: nat, later: real)
    requires ReadInOrder(readings) && (readings != [] ==> readings[|readings| - 1].pushedAt <= later)
    ensures Filter(Kept(readings, max), AfterCutoff(later)) == Filter(Replies(readings, max), AfterCutoff(later))
    decreases |readings|
  {
    if readings != [] {
      var before := readings[..|readings| - 1];
      var r := readings[|readings| - 1];
      var recent := Filter(Kept(before, max), AfterCutoff(r.cutoffAt));
      KeptIsEnough(before, max, r.cutoffAt);
      KeptIsEnough(before, max, later);
      FilterTwice(Kept(before, max), r.cutoffAt, later);
      FilterConcat(recent, [r.pushedAt], AfterCutoff(later));
      FilterConcat(Replies(before, max), [r.pushedAt], AfterCutoff(later));
    }
  }

  // ---- token bucket ----

  datatype Bucket = Bucket(tokens: real, last: real)

  function Min(a: real, b: real): real {
    if a < b then a else b
  }

  /** The tokens that flow in between two readings of the clock. */
  function Inflow(since: real, now: real, rate: real): real {
    (now - since) * rate
  }

  function Refilled(b: Bucket, now: real, rate: real, capacity: real): real {
    Min(capacity, b.tokens + Inflow(b.last, now, rate))
  }

  function Take(b: Bucket, now: real, rate: real, capacity: real): (bool, Bucket) {
    var tokens := Refilled(b, now, rate, capacity);
    if tokens >= 1.0 then (true, Bucket(tokens - 1.0, now)) else (false, Bucket(tokens, now))
  }

  function After(b: Bucket, times: seq<real>, rate: real, capacity: real): Bucket
    decreases |times|
  {
    if times == [] then b else After(Take(b, times[0], rate, capacity).1, times[1..], rate, capacity)
  }

  function Grants(b: Bucket, times: seq<real>, rate: real, capacity: real): nat
    decreases |times|
  {
    if times == [] then 0
    else
      var (ok, next) := Take(b, times[0], rate, capacity);
      (if ok then 1 else 0) + Grants(next, times[1..], rate, capacity)
  }

  ghost predicate Level(b: Bucket, capacity: real) {
    0.0 <= b.tokens <= capacity
  }

  ghost predicate From(b: Bucket, times: seq<real>) {
    Ascending(times) && (times != [] ==> b.last <= times[0])
  }

  lemma FlowsIn(since: real, now: real, rate: real)
    requires 0.0 <= rate && since <= now
    ensures 0.0 <= Inflow(since, now, rate)
  {}

  lemma FlowAdds(a: real, b: real, c: real, rate: real)
    ensures Inflow(a, b, rate) + Inflow(b, c, rate) == Inflow(a, c, rate)
  {}

  /** One call: the level stays, and what is handed out comes out of what was there. */
  lemma TakeKeepsLevel(b: Bucket, now: real, rate: real, capacity: real)
    requires Level(b, capacity) && 0.0 <= rate && b.last <= now
    ensures var (ok, next) := Take(b, now, rate, capacity);
            && Level(next, capacity) && next.last == now
            && 0.0 <= Refilled(b, now, rate, capacity) <= capacity
            && next.tokens == Refilled(b, now, rate, capacity) - (if ok then 1.0 else 0.0)
  {
    FlowsIn(b.last, now, rate);
  }

  lemma FromRest(b: Bucket, times: seq<real>, next: Bucket)
    requires From(b, times) && times != [] && next.last == times[0]
    ensures From(next, times[1..])
  {}

  /** Every call keeps the tokens between nothing and the capacity. */
  lemma {:induction false} LevelKept(b: Bucket, times: seq<real>, rate: real, capacity: real)
    requires Level(b, capacity) && From(b, times) && 0.0 <= rate
    ensures Level(After(b, times, rate, capacity), capacity)
    ensures After(b, times, rate, capacity).last == if times == [] then b.last else times[|times| - 1]
    decreases |times|
  {
    if times != [] {
      var next := Take(b, times[0], rate, capacity).1;
      TakeKeepsLevel(b, times[0], rate, capacity);
      FromRest(b, times, next);
      LevelKept(next, times[1..], rate, capacity);
    }
  }

  /** Tokens handed out and tokens left never exceed what the first refill held plus what has flowed in since. */
  lemma {:induction false} TokensConserved(b: Bucket, times: seq<real>, rate: real, capacity: real)
    requires Level(b, capacity) && From(b, times) && 0.0 <= rate && times != []
    ensures Grants(b, times, rate, capacity) as real + After(b, times, rate, capacity).tokens <=
            Refilled(b, times[0], rate, capacity) + Inflow(times[0], times[|times| - 1], rate)
    decreases |times|
  {
    var (ok, next) := Take(b, times[0], rate, capacity);
    var rest := times[1..];
    TakeKeepsLevel(b, times[0], rate, capacity);
    FromRest(b, times, next);
    if rest != [] {
      assert rest[|rest| - 1] == times[|times| - 1];
      TokensConserved(next, rest, rate, capacity);
      FlowAdds(times[0], rest[0], times[|times| - 1], rate);
    } else {
      assert Grants(next, rest, rate, capacity) == 0 && After(next, rest, rate, capacity) == next;
    }
  }

  /** In any run and over any stretch of it, the calls admitted are at most the capacity plus the
      rate times the time the stretch takes. */
  lemma BucketBound(b: Bucket, earlier: seq<real>, times: seq<real>, rate: real, capacity: real)
    requires Level(b, capacity) && From(b, earlier + times) && 0.0 <= rate && times != []
    ensures Grants(After(b, earlier, rate, capacity), times, rate, capacity) as real <=
            capacity + Inflow(times[0], times[|times| - 1], rate)
  {
    var all := earlier + times;
    assert forall i :: 0 <= i < |earlier| ==> earlier[i] == all[i];
    assert forall i :: 0 <= i < |times| ==> times[i] == all[|earlier| + i];
    LevelKept(b, earlier, rate, capacity);
    if earlier != [] { assert all[|earlier| - 1] <= all[|earlier|]; }
    var now := After(b, earlier, rate, capacity);
    LevelKept(now, times, rate, capacity);
    TokensConserved(now, times, rate, capacity);
  }

  /** Consecutive calls are far enough apart for one token to flow in. */
  ghost predicate Spaced(times: seq<real>, rate: real) {
    forall i :: 0 < i < |times| ==> Inflow(times[i - 1], times[i], rate) >= 1.0
  }

  lemma SpacedRest(times: seq<real>, rate: real)
    requires Spaced(times, rate) && times != []
    ensures Spaced(times[1..], rate)
    ensures |times| > 1 ==> Inflow(times[0], times[1..][0], rate) >= 1.0
  {
    forall i | 0 < i < |times| - 1 ensures Inflow(times[1..][i - 1], times[1..][i], rate) >= 1.0 {
      assert times[1..][i] == times[i + 1] && times[1..][i - 1] == times[i + 1 - 1];
    }
    if |times| > 1 { assert times[1..][0] == times[1] && times[1 - 1] == times[0]; }
  }

  /** A client no faster than the rate is never refused. */
  lemma {:induction false} SteadyClientNeverRefused(b: Bucket, times: seq<real>, rate: real, capacity: real)
    requires Level(b, capacity) && From(b, times) && 0.0 < rate && 1.0 <= capacity && Spaced(times, rate)
    requires times != [] ==> b.tokens >= 1.0 || Inflow(b.last, times[0], rate) >= 1.0
    ensures Grants(b, times, rate, capacity) == |times|
    decreases |times|
  {
    if times != [] {
      var next := Take(b, times[0], rate, capacity).1;
      FlowsIn(b.last, times[0], rate);
      TakeKeepsLevel(b, times[0], rate, capacity);
      FromRest(b, times, next);
      SpacedRest(times, rate);
      SteadyClientNeverRefused(next, times[1..], rate, capacity);
    }
  }

  /** Calls at one moment are granted for as long as a whole token is left. */
  lemma {:induction false} GrantsAtOnce(b: Bucket, n: nat, rate: real, capacity: real)
    requires Level(b, capacity)
    ensures Grants(b, Times(n, b.last), rate, capacity) == if n as real <= b.tokens then n else b.tokens.Floor
    decreases n
  {
    if n > 0 {
      var next := Take(b, b.last, rate, capacity).1;
      assert Inflow(b.last, b.last, rate) == 0.0;
      assert Times(n, b.last)[1..] == Times(n - 1, b.last);
      GrantsAtOnce(next, n - 1, rate, capacity);
    }
  }

  /** A bucket that has been left alone long enough to fill grants a burst of exactly as many calls as
      its capacity has whole tokens. */
  lemma RestedBurst(b: Bucket, now: real, n: nat, rate: real, capacity: real)
    requires Level(b, capacity) && b.tokens + (now - b.last) * rate >= capacity
    ensures Grants(b, Times(n, now), rate, capacity) == if n as real <= capacity then n else capacity.Floor
  {
    var full := Bucket(capacity, now);
    assert Inflow(now, now, rate) == 0.0;
    GrantsAtOnce(full, n, rate, capacity);
    assert Refilled(full, now, rate, capacity) == capacity == Refilled(b, now, rate, capacity);
    assert Take(full, now, rate, capacity) == Take(b, now, rate, capacity);
    if n > 0 { assert Times(n, now)[0] == now; }
  }

  class TokenBucket {
    const rate: real
    const capacity: real
    var tokens: real
    var last: real

    ghost function State(): Bucket
      reads this
    {
      Bucket(tokens, last)
    }

    /** A quarter of the minute's rate, at least five, unless a burst is given. */
    constructor (ratePerMinute: nat, burst: Option<nat>, now: real)
      ensures rate == ratePerMinute as real / 60.0
      ensures capacity == match burst case Some(n) => n as real
                                      case None => (if ratePerMinute / 4 > 5 then ratePerMinute / 4 else 5) as real
      ensures State() == Bucket(capacity, now) && Level(State(), capacity)
    {
      rate := ratePerMinute as real / 60.0;
      var quarter := ratePerMinute / 4;
      var size := match burst case Some(n) => n case None => if quarter > 5 then quarter else 5;
      capacity := size as real;
      tokens := size as real;
      last := now;
    }

    method Allow(now: real) returns (ok: bool)
      modifies this
      ensures (ok, State()) == Take(old(State()), now, rate, capacity)
      ensures var refilled := old(tokens) + (now - old(last)) * rate;
              && (ok <==> capacity >= 1.0 && refilled >= 1.0) && last == now
              && tokens == (if refilled > capacity then capacity else refilled) - (if ok then 1.0 else 0.0)
    {
      tokens := Min(capacity, tokens + Inflow(last, now, rate));
      last := now;
      if tokens >= 1.0 {
        tokens := tokens - 1.0;
        return true;
      }
      return false;
    }
  }
}
