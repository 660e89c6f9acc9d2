/**
 The auto-reply loop guard of the daemon: replies are counted in the recent conversation, and a
 reservation per thread, taken before anything is awaited, stands for each run whose reply is not
 stored yet. Arrivals, replies and run completions may interleave in any order.
 */
module LoopGuard {
  import opened Basics
  import opened MessageStore

  const AUTO_REPLY_PREFIX := "[auto] "
  const MAX_AUTO_REPLIES_PER_THREAD: nat := 5
  const CONVERSATION_LIMIT: nat := 50

  /** An admitted auto-respond run that has not finished. */
  datatype Run = Run(partner: string, thread: Option<nat>, replied: bool)

  datatype State = State(self: string, history: History, inFlight: map<nat, nat>, runs: map<nat, Run>)

  /** An automatic reply stored in a thread. */
  function AutoReplyIn(thread: nat): Stored -> bool {
    (m: Stored) => m.outgoing && m.threadId == Some(thread) && AUTO_REPLY_PREFIX <= m.body
  }

  /** The automatic replies of a thread among the latest messages with a partner. */
  function Persisted(h: History, partner: string, thread: nat): nat {
    |Filter(Conversation(h, partner, CONVERSATION_LIMIT), AutoReplyIn(thread))|
  }

  function Reserved(inFlight: map<nat, nat>, thread: nat): nat {
    if thread in inFlight then inFlight[thread] else 0
  }

  // ---- steps ----

  /** The settings have arrived, the instance-wide switch is on, and the agent is not paused. */
  predicate Triggers(m: Stored, open: bool) {
    open && !(AUTO_REPLY_PREFIX <= m.body) && (m.kind == "request" || m.kind == "task")
  }

  predicate Admits(h: History, inFlight: map<nat, nat>, m: Stored) {
    m.threadId.Some? ==>
      Persisted(h, m.sender, m.threadId.value) + Reserved(inFlight, m.threadId.value) < MAX_AUTO_REPLIES_PER_THREAD
  }

  /** A message arrives: it is stored and, if it triggers and the guard admits it, a run starts
      with its reservation taken. */
  function Arrive(s: State, run: nat, m: Stored, open: bool): State {
    var h := Appended(s.history, m);
    if !Triggers(m, open) || !Admits(h, s.inFlight, m) then s.(history := h)
    else State(s.self, h,
               if m.threadId.Some? then s.inFlight[m.threadId.value := Reserved(s.inFlight, m.threadId.value) + 1]
               else s.inFlight,
               s.runs[run := Run(m.sender, m.threadId, false)])
  }

  /** The stored record of a run's reply. */
  function ReplyRecord(self: string, r: Run, text: string): Stored {
    Stored(None, self, r.partner, AUTO_REPLY_PREFIX + text, "response", r.thread, None, true, true)
  }

  /** A run's reply goes out and is stored. */
  function Reply(s: State, run: nat, text: string): State
    requires run in s.runs
  {
    s.(history := Appended(s.history, ReplyRecord(s.self, s.runs[run], text)),
       runs := s.runs[run := s.runs[run].(replied := true)])
  }

  /** A run ends, whether it replied, was skipped, blocked or failed: its reservation is released. */
  function Released(inFlight: map<nat, nat>, thread: nat): map<nat, nat> {
    var left: int := (if thread in inFlight then inFlight[thread] else 1) as int - 1;
    if left <= 0 then inFlight - {thread} else inFlight[thread := left]
  }

  function Finish(s: State, run: nat): State
    requires run in s.runs
  {
    s.(inFlight := if s.runs[run].thread.Some? then Released(s.inFlight, s.runs[run].thread.value) else s.inFlight,
       runs := s.runs - {run})
  }

  /** The agent's own user sends a message from this machine; it carries no thread. */
  function SendLocally(s: State, to: string, body: string, kind: string): State {
    s.(history := Appended(s.history, Stored(None, s.self, to, body, kind, None, None, true, true)))
  }

  /** A restart reads the history back and forgets reservations and runs alike. */
  datatype Event =
    | Arrival(newRun: nat, message: Stored, open: bool)
    | Replied(run: nat, text: string)
    | Finished(done: nat)
    | LocalSend(to: string, body: string, kind: string)
    | Read(ids: set<nat>)
    | Restart

  /** Runs have fresh names, a message arrives as incoming, and a run replies at most once. */
  predicate Possible(s: State, e: Event) {
    match e
    case Arrival(run, m, _) => run !in s.runs && !m.outgoing
    case Replied(run, _) => run in s.runs && !s.runs[run].replied
    case Finished(run) => run in s.runs
    case LocalSend(_, _, _) => true
    case Read(_) => true
    case Restart => true
  }

  function Step(s: State, e: Event): State
    requires Possible(s, e)
  {
    match e
    case Arrival(run, m, open) => Arrive(s, run, m, open)
    case Replied(run, text) => Reply(s, run, text)
    case Finished(run) => Finish(s, run)
    case LocalSend(to, body, kind) => SendLocally(s, to, body, kind)
    case Read(ids) => s.(history := MarkedRead(s.history, ids))
    case Restart => State(s.self, s.history, map[], map[])
  }

  // ---- the invariant ----

  function InThread(runs: map<nat, Run>, thread: nat): set<nat> {
    set r | r in runs && runs[r].thread == Some(thread)
  }

  /** The admitted runs of a partner in a thread that have not stored a reply yet. */
  function Outstanding(runs: map<nat, Run>, partner: string, thread: nat): set<nat> {
    set r | r in runs && runs[r].thread == Some(thread) && runs[r].partner == partner && !runs[r].replied
  }

  /** Reservations are exactly the runs in flight, thread by thread, and none is kept at zero. */
  ghost predicate ReservationsExact(s: State) {
    && (forall t: nat :: Reserved(s.inFlight, t) == |InThread(s.runs, t)|)
    && (forall t :: t in s.inFlight ==> s.inFlight[t] > 0)
  }

  /** Per partner and thread, stored recent replies and replies still to come stay within the maximum. */
  ghost predicate Capped(s: State) {
    forall p: string, t: nat :: p != s.self ==>
      Persisted(s.history, p, t) + |Outstanding(s.runs, p, t)| <= MAX_AUTO_REPLIES_PER_THREAD
  }

  ghost predicate Safe(s: State) {
    ReservationsExact(s) && Capped(s)
  }

  // ---- counting over the sliding conversation ----

  lemma {:induction false} FilterSuffix(h: History, n: nat, p: Stored -> bool)
    requires n <= |h|
    ensures |Filter(h[n..], p)| <= |Filter(h, p)|
  {
    FilterConcat(h[..n], h[n..], p);
    assert h[..n] + h[n..] == h;
  }

  /** A message that joins the history adds at most itself to any recent count, and nothing when it
      belongs to another conversation or is no automatic reply of the thread. */
  lemma PersistedAfterPush(h: History, m: Stored, partner: string, thread: nat)
    ensures Persisted(h + [m], partner, thread) <=
            Persisted(h, partner, thread) + (if With(partner)(m) && AutoReplyIn(thread)(m) then 1 else 0)
  {
    FilterConcat(h, [m], With(partner));
    var c := Filter(h, With(partner));
    assert [m][1..] == [] && Filter([], With(partner)) == [];
    if With(partner)(m) {
      assert Filter(h + [m], With(partner)) == c + [m];
      LastAfterPush(c, m, AutoReplyIn(thread));
    } else {
      assert Filter(h + [m], With(partner)) == c + [] == c;
    }
  }

  lemma LastAfterPush(c: History, m: Stored, p: Stored -> bool)
    ensures |Filter(Last(c + [m], CONVERSATION_LIMIT), p)| <=
            |Filter(Last(c, CONVERSATION_LIMIT), p)| + (if p(m) then 1 else 0)
  {
    var recent := Last(c, CONVERSATION_LIMIT);
    var drop := if |c| < CONVERSATION_LIMIT then 0 else 1;
    assert Last(c + [m], CONVERSATION_LIMIT) == recent[drop..] + [m];
    FilterConcat(recent[drop..], [m], p);
    FilterSuffix(recent, drop, p);
  }

  lemma PersistedAfterAppend(h: History, m: Stored, partner: string, thread: nat)
    ensures Persisted(Appended(h, m), partner, thread) <=
            Persisted(h, partner, thread) + (if With(partner)(m) && AutoReplyIn(thread)(m) then 1 else 0)
  {
    PersistedAfterPush(h, m, partner, thread);
  }

  /** Read flags play no part in the count. */
  lemma {:induction false} FilterMarked(h: History, ids: set<nat>, p: Stored -> bool)
    requires forall m: Stored :: p(m.(read := true)) == p(m)
    ensures Filter(MarkedRead(h, ids), p) == MarkedRead(Filter(h, p), ids)
  {
    if h != [] {
      FilterMarked(h[1..], ids, p);
      assert MarkedRead(h, ids)[1..] == MarkedRead(h[1..], ids);
      var rest := Filter(h[1..], p);
      if p(h[0]) {
        assert MarkedRead([h[0]] + rest, ids) == MarkedRead([h[0]], ids) + MarkedRead(rest, ids);
      } else {
        assert [] + rest == rest && [] + MarkedRead(rest, ids) == MarkedRead(rest, ids);
      }
    }
  }

  lemma PersistedAfterRead(h: History, ids: set<nat>, partner: string, thread: nat)
    ensures Persisted(MarkedRead(h, ids), partner, thread) == Persisted(h, partner, thread)
  {
    FilterMarked(h, ids, With(partner));
    var c := Filter(h, With(partner));
    assert Last(MarkedRead(c, ids), CONVERSATION_LIMIT) == MarkedRead(Last(c, CONVERSATION_LIMIT), ids);
    FilterMarked(Last(c, CONVERSATION_LIMIT), ids, AutoReplyIn(thread));
  }

  // ---- every step is safe ----

  lemma OutstandingAreInFlight(runs: map<nat, Run>, partner: string, thread: nat)
    ensures |Outstanding(runs, partner, thread)| <= |InThread(runs, thread)|
  {
    SubsetCardinality(Outstanding(runs, partner, thread), InThread(runs, thread));
  }

  lemma StartedInThread(runs: map<nat, Run>, run: nat, r: Run, thread: nat)
    requires run !in runs
    ensures |InThread(runs[run := r], thread)| == |InThread(runs, thread)| + (if r.thread == Some(thread) then 1 else 0)
  {
    assert InThread(runs[run := r], thread) == InThread(runs, thread) + (if r.thread == Some(thread) then {run} else {});
  }

  lemma StartedOutstanding(runs: map<nat, Run>, run: nat, r: Run, partner: string, thread: nat)
    requires run !in runs && !r.replied
    ensures |Outstanding(runs[run := r], partner, thread)| ==
            |Outstanding(runs, partner, thread)| + (if r.thread == Some(thread) && r.partner == partner then 1 else 0)
  {
    assert Outstanding(runs[run := r], partner, thread) ==
           Outstanding(runs, partner, thread) + (if r.thread == Some(thread) && r.partner == partner then {run} else {});
  }

  lemma ArriveIsSafe(s: State, run: nat, m: Stored, open: bool)
    requires Safe(s) && Possible(s, Arrival(run, m, open))
    ensures Safe(Arrive(s, run, m, open))
  {
    var after := Arrive(s, run, m, open);
    var h := Appended(s.history, m);
    var started := Triggers(m, open) && Admits(h, s.inFlight, m);
    forall t: nat ensures Reserved(after.inFlight, t) == |InThread(after.runs, t)| {
      if started { StartedInThread(s.runs, run, Run(m.sender, m.threadId, false), t); }
    }
    forall p: string, t: nat
      ensures p != s.self ==> Persisted(h, p, t) + |Outstanding(after.runs, p, t)| <= MAX_AUTO_REPLIES_PER_THREAD
    {
      PersistedAfterAppend(s.history, m, p, t);
      OutstandingAreInFlight(s.runs, p, t);
      if started { StartedOutstanding(s.runs, run, Run(m.sender, m.threadId, false), p, t); }
    }
  }

  lemma RepliedRun(runs: map<nat, Run>, run: nat, partner: string, thread: nat)
    requires run in runs && !runs[run].replied
    ensures var after := runs[run := runs[run].(replied := true)];
            && InThread(after, thread) == InThread(runs, thread)
            && |Outstanding(after, partner, thread)| ==
               |Outstanding(runs, partner, thread)| -
               (if runs[run].thread == Some(thread) && runs[run].partner == partner then 1 else 0)
  {
    var after := runs[run := runs[run].(replied := true)];
    assert Outstanding(after, partner, thread) == Outstanding(runs, partner, thread) - {run};
  }

  lemma ReplyIsSafe(s: State, run: nat, text: string)
    requires Safe(s) && Possible(s, Replied(run, text))
    ensures Safe(Reply(s, run, text))
  {
    var m := ReplyRecord(s.self, s.runs[run], text);
    forall t: nat ensures InThread(Reply(s, run, text).runs, t) == InThread(s.runs, t) {
      RepliedRun(s.runs, run, s.self, t);
    }
    forall p: string, t: nat
      ensures p != s.self ==> Persisted(Appended(s.history, m), p, t) +
                              |Outstanding(Reply(s, run, text).runs, p, t)| <= MAX_AUTO_REPLIES_PER_THREAD
    {
      PersistedAfterAppend(s.history, m, p, t);
      RepliedRun(s.runs, run, p, t);
    }
  }

  lemma FinishedRun(runs: map<nat, Run>, run: nat, partner: string, thread: nat)
    requires run in runs
    ensures |InThread(runs - {run}, thread)| == |InThread(runs, thread)| - (if runs[run].thread == Some(thread) then 1 else 0)
    ensures |Outstanding(runs - {run}, partner, thread)| <= |Outstanding(runs, partner, thread)|
  {
    assert InThread(runs - {run}, thread) == InThread(runs, thread) - {run};
    SubsetCardinality(Outstanding(runs - {run}, partner, thread), Outstanding(runs, partner, thread));
  }

  lemma FinishIsSafe(s: State, run: nat)
    requires Safe(s) && run in s.runs
    ensures Safe(Finish(s, run))
  {
    forall t: nat ensures Reserved(Finish(s, run).inFlight, t) == |InThread(s.runs - {run}, t)| {
      FinishedRun(s.runs, run, s.self, t);
      if s.runs[run].thread == Some(t) { assert run in InThread(s.runs, t); }
    }
    forall p: string, t: nat
      ensures p != s.self ==> Persisted(s.history, p, t) + |Outstanding(s.runs - {run}, p, t)| <= MAX_AUTO_REPLIES_PER_THREAD
    {
      FinishedRun(s.runs, run, p, t);
    }
  }

  lemma StepIsSafe(s: State, e: Event)
    requires Safe(s) && Possible(s, e)
    ensures Safe(Step(s, e))
  {
    match e
    case Arrival(run, m, open) => ArriveIsSafe(s, run, m, open);
    case Replied(run, text) => ReplyIsSafe(s, run, text);
    case Finished(run) => FinishIsSafe(s, run);
    case LocalSend(to, body, kind) =>
      forall p: string, t: nat ensures Persisted(Step(s, e).history, p, t) <= Persisted(s.history, p, t) {
        PersistedAfterAppend(s.history, Stored(None, s.self, to, body, kind, None, None, true, true), p, t);
      }
    case Read(ids) =>
      forall p: string, t: nat ensures Persisted(Step(s, e).history, p, t) == Persisted(s.history, p, t) {
        PersistedAfterRead(s.history, ids, p, t);
      }
    case Restart => RestartIsSafe(s);
  }

  lemma RestartIsSafe(s: State)
    requires Safe(s)
    ensures Safe(State(s.self, s.history, map[], map[]))
  {
    forall p: string, t: nat ensures InThread(map[], t) == {} && Outstanding(map[], p, t) == {} {}
  }

  ghost predicate IsTrace(s: State, events: seq<Event>)
    decreases |events|
  {
    events == [] || (Possible(s, events[0]) && IsTrace(Step(s, events[0]), events[1..]))
  }

  ghost function After(s: State, events: seq<Event>): State
    requires IsTrace(s, events)
    decreases |events|
  {
    if events == [] then s else After(Step(s, events[0]), events[1..])
  }

  /** Under every interleaving, starting from a daemon with no runs and a history within the
      maximum: the cap holds at every moment, reservations equal the running count, and once no
      run is left every reservation has been released. */
  lemma {:induction false} EveryInterleavingIsSafe(s: State, events: seq<Event>)
    requires Safe(s) && IsTrace(s, events)
    ensures Safe(After(s, events))
    ensures After(s, events).runs == map[] ==> After(s, events).inFlight == map[]
    decreases |events|
  {
    if events != [] {
      StepIsSafe(s, events[0]);
      EveryInterleavingIsSafe(Step(s, events[0]), events[1..]);
    } else if s.runs == map[] {
      forall t: nat ensures t !in s.inFlight {
        assert |InThread(s.runs, t)| == 0 by { assert InThread(s.runs, t) == {}; }
      }
    }
  }

  lemma FreshDaemonIsSafe(self: string)
    ensures Safe(State(self, [], map[], map[]))
  {
    forall p: string, t: nat ensures Persisted([], p, t) == 0 && InThread(map[], t) == {} && Outstanding(map[], p, t) == {} {}
  }

  // ---- what the cap covers ----

  /** While the whole conversation fits the window, the automatic replies ever stored in a thread stay within the maximum. */
  lemma ShortConversationTotal(s: State, partner: string, thread: nat)
    requires Safe(s) && partner != s.self && |Filter(s.history, With(partner))| <= CONVERSATION_LIMIT
    ensures |Filter(Filter(s.history, With(partner)), AutoReplyIn(thread))| <= MAX_AUTO_REPLIES_PER_THREAD
  {
    assert Persisted(s.history, partner, thread) + |Outstanding(s.runs, partner, thread)| <= MAX_AUTO_REPLIES_PER_THREAD;
  }

  lemma {:induction false} FilterAll(h: History, p: Stored -> bool)
    requires forall i :: 0 <= i < |h| ==> p(h[i])
    ensures Filter(h, p) == h
  {
    if h != [] {
      FilterAll(h[1..], p);
      assert h == [h[0]] + h[1..];
    }
  }

  lemma {:induction false} FilterNone(h: History, p: Stored -> bool)
    requires forall i :: 0 <= i < |h| ==> !p(h[i])
    ensures Filter(h, p) == []
  {
    if h != [] { FilterNone(h[1..], p); }
  }

  /** Fifty other messages with the partner and the guard has forgotten every reply of the thread:
      the cap is per window, not per thread. */
  lemma WindowForgets(h: History, more: History, partner: string, thread: nat)
    requires |more| >= CONVERSATION_LIMIT
    requires forall i :: 0 <= i < |more| ==> With(partner)(more[i]) && !AutoReplyIn(thread)(more[i])
    ensures Persisted(h + more, partner, thread) == 0
  {
    FilterConcat(h, more, With(partner));
    FilterAll(more, With(partner));
    var c := Filter(h, With(partner)) + more;
    var recent := Last(c, CONVERSATION_LIMIT);
    forall i | 0 <= i < |recent| ensures !AutoReplyIn(thread)(recent[i]) {
      assert recent[i] in more;
    }
    FilterNone(recent, AutoReplyIn(thread));
  }

  // ---- what starts no run ----

  /** A message that must not make the daemon answer: it arrives while the switch is off, is itself an
      automatic reply, or asks for nothing. */
  predicate AsksNothing(e: Event) {
    e.Arrival? && (!e.open || "[auto] " <= e.message.body || e.message.kind !in {"request", "task"})
  }

  /** However many messages arrive that must not be answered, among them every automatic reply of
      another daemon, no run starts and no reservation is taken. */
  lemma {:induction false} QuietArrivals(s: State, events: seq<Event>)
    requires IsTrace(s, events) && forall i :: 0 <= i < |events| ==> AsksNothing(events[i])
    ensures After(s, events).runs == s.runs && After(s, events).inFlight == s.inFlight
    decreases |events|
  {
    if events != [] {
      assert AsksNothing(events[0]);
      forall i | 0 <= i < |events| - 1 ensures AsksNothing(events[1..][i]) {
        assert AsksNothing(events[i + 1]);
      }
      QuietArrivals(Step(s, events[0]), events[1..]);
    }
  }

  // ---- how far the cap reaches ----

  /** The automatic replies ever stored in a thread with a partner. */
  function Total(h: History, partner: string, thread: nat): nat {
    |Filter(Filter(h, With(partner)), AutoReplyIn(thread))|
  }

  /** Hub ids name messages: a message that arrives under a known id is the one stored. */
  ghost predicate Genuine(s: State, e: Event) {
    e.Arrival? && e.message.id.Some? && Knows(s.history, e.message.id.value) ==>
      exists i :: 0 <= i < |s.history| && s.history[i].id == e.message.id && s.history[i].sender == e.message.sender
  }

  ghost predicate IsGenuine(s: State, events: seq<Event>)
    requires IsTrace(s, events)
    decreases |events|
  {
    events == [] || (Genuine(s, events[0]) && IsGenuine(Step(s, events[0]), events[1..]))
  }

  /** A genuine trace from one state to another. */
  ghost predicate Leads(s: State, events: seq<Event>, after: State) {
    IsTrace(s, events) && IsGenuine(s, events) && After(s, events) == after
  }

  lemma LeadsStep(s: State, e: Event)
    requires Possible(s, e) && Genuine(s, e)
    ensures Leads(s, [e], Step(s, e))
  {
    assert [e][1..] == [];
  }

  lemma {:induction false} LeadsOn(a: State, first: seq<Event>, b: State, second: seq<Event>, c: State)
    requires Leads(a, first, b) && Leads(b, second, c)
    ensures Leads(a, first + second, c)
    decreases |first|
  {
    if first == [] {
      assert [] + second == second;
    } else {
      LeadsOn(Step(a, first[0]), first[1..], b, second, c);
      assert (first + second)[0] == first[0] && (first + second)[1..] == first[1..] + second;
    }
  }

  /** No message is known under this id or a later one. */
  ghost predicate FreshFrom(h: History, base: nat) {
    forall i: nat :: i >= base ==> !Knows(h, i)
  }

  lemma {:induction false} FreshBaseExists(h: History) returns (base: nat)
    ensures FreshFrom(h, base)
  {
    if h == [] {
      base := 0;
    } else {
      var before := FreshBaseExists(h[..|h| - 1]);
      var last := h[|h| - 1];
      base := if last.id.Some? && last.id.value >= before then last.id.value + 1 else before;
      forall i: nat | i >= base ensures !Knows(h, i) {
        assert !Knows(h[..|h| - 1], i);
        forall k | 0 <= k < |h| ensures h[k].id != Some(i) {
          if k < |h| - 1 { assert h[..|h| - 1][k] == h[k]; }
        }
      }
    }
  }

  lemma FreshAfterPush(h: History, m: Stored, base: nat)
    requires FreshFrom(h, base) && (m.id == None || m.id.value < base)
    ensures FreshFrom(h + [m], base)
  {
    forall i: nat | i >= base ensures !Knows(h + [m], i) {
      assert !Knows(h, i);
      forall k | 0 <= k < |h + [m]| ensures (h + [m])[k].id != Some(i) {
        if k < |h| { assert (h + [m])[k] == h[k]; }
      }
    }
  }

  lemma FreshLater(h: History, base: nat, later: nat)
    requires FreshFrom(h, base) && base <= later
    ensures FreshFrom(h, later)
  {}

  /** A message of a partner that asks for nothing. */
  function Filler(self: string, partner: string, id: nat): Stored {
    Stored(Some(id), partner, self, "", "status", None, None, false, false)
  }

  function Fillers(self: string, partner: string, base: nat, n: nat): History {
    seq(n, k requires 0 <= k < n => Filler(self, partner, base + k))
  }

  /** A message of a partner in a thread, of a kind that may ask for something. */
  function Trigger(self: string, partner: string, id: nat, thread: nat, kind: string): Stored {
    Stored(Some(id), partner, self, "", kind, Some(thread), None, false, false)
  }

  function Answer(self: string, partner: string, thread: nat): Stored {
    ReplyRecord(self, Run(partner, Some(thread), false), "")
  }

  ghost predicate Idle(s: State) {
    s.runs == map[] && s.inFlight == map[]
  }

  function Quiet(self: string, h: History): State {
    State(self, h, map[], map[])
  }

  lemma FillerStep(self: string, h: History, partner: string, id: nat)
    requires !Knows(h, id)
    ensures Leads(Quiet(self, h), [Arrival(0, Filler(self, partner, id), true)], Quiet(self, h + [Filler(self, partner, id)]))
  {
    LeadsStep(Quiet(self, h), Arrival(0, Filler(self, partner, id), true));
  }

  lemma {:induction false} FillersLead(self: string, h: History, partner: string, base: nat, n: nat) returns (events: seq<Event>)
    requires FreshFrom(h, base)
    ensures Leads(Quiet(self, h), events, Quiet(self, h + Fillers(self, partner, base, n)))
    ensures FreshFrom(h + Fillers(self, partner, base, n), base + n) && OnlyArrivals(events, {"status"})
    decreases n
  {
    if n == 0 {
      events := [];
      assert h + Fillers(self, partner, base, 0) == h;
    } else {
      var before := FillersLead(self, h, partner, base, n - 1);
      var mid := h + Fillers(self, partner, base, n - 1);
      var m := Filler(self, partner, base + n - 1);
      assert !Knows(mid, base + n - 1);
      FillerStep(self, mid, partner, base + n - 1);
      events := before + [Arrival(0, m, true)];
      LeadsOn(Quiet(self, h), before, Quiet(self, mid), [Arrival(0, m, true)], Quiet(self, mid + [m]));
      FreshLater(mid, base + n - 1, base + n);
      FreshAfterPush(mid, m, base + n);
      assert mid + [m] == h + Fillers(self, partner, base, n);
    }
  }

  /** Every message that arrives in these events is of one of the kinds. */
  ghost predicate OnlyArrivals(events: seq<Event>, kinds: set<string>) {
    forall i :: 0 <= i < |events| && events[i].Arrival? ==> events[i].message.kind in kinds
  }

  /** What a request or task, its answer and the end of its run leave when the guard admits it. */
  function Answered(self: string, h: History, partner: string, id: nat, thread: nat, kind: string): History {
    h + [Trigger(self, partner, id, thread, kind)] + [Answer(self, partner, thread)]
  }

  lemma RequestStarts(self: string, h: History, partner: string, id: nat, thread: nat, kind: string)
    requires !Knows(h, id) && kind in {"request", "task"}
    requires Persisted(h + [Trigger(self, partner, id, thread, kind)], partner, thread) < MAX_AUTO_REPLIES_PER_THREAD
    ensures Leads(Quiet(self, h), [Arrival(0, Trigger(self, partner, id, thread, kind), true)],
                  State(self, h + [Trigger(self, partner, id, thread, kind)], map[thread := 1],
                        map[0 := Run(partner, Some(thread), false)]))
  {
    assert !(AUTO_REPLY_PREFIX <= "");
    LeadsStep(Quiet(self, h), Arrival(0, Trigger(self, partner, id, thread, kind), true));
  }

  lemma RequestAnswered(self: string, h: History, partner: string, thread: nat)
    ensures Leads(State(self, h, map[thread := 1], map[0 := Run(partner, Some(thread), false)]),
                  [Replied(0, ""), Finished(0)], Quiet(self, h + [Answer(self, partner, thread)]))
  {
    var s := State(self, h, map[thread := 1], map[0 := Run(partner, Some(thread), false)]);
    var replied := Step(s, Replied(0, ""));
    LeadsStep(s, Replied(0, ""));
    LeadsStep(replied, Finished(0));
    assert Step(replied, Finished(0)) == Quiet(self, h + [Answer(self, partner, thread)]);
    LeadsOn(s, [Replied(0, "")], replied, [Finished(0)], Step(replied, Finished(0)));
    assert [Replied(0, "")] + [Finished(0)] == [Replied(0, ""), Finished(0)];
  }

  /** A request the guard admits to an idle daemon ends in one more stored reply, the daemon idle again. */
  lemma RoundLeads(self: string, h: History, partner: string, id: nat, thread: nat, kind: string) returns (events: seq<Event>)
    requires FreshFrom(h, id) && kind in {"request", "task"}
    requires Persisted(h + [Trigger(self, partner, id, thread, kind)], partner, thread) < MAX_AUTO_REPLIES_PER_THREAD
    ensures Leads(Quiet(self, h), events, Quiet(self, Answered(self, h, partner, id, thread, kind)))
    ensures FreshFrom(Answered(self, h, partner, id, thread, kind), id + 1)
    ensures events == [Arrival(0, Trigger(self, partner, id, thread, kind), true), Replied(0, ""), Finished(0)]
  {
    var m := Trigger(self, partner, id, thread, kind);
    assert !Knows(h, id);
    RequestStarts(self, h, partner, id, thread, kind);
    RequestAnswered(self, h + [m], partner, thread);
    events := [Arrival(0, m, true)] + [Replied(0, ""), Finished(0)];
    LeadsOn(Quiet(self, h), [Arrival(0, m, true)],
            State(self, h + [m], map[thread := 1], map[0 := Run(partner, Some(thread), false)]),
            [Replied(0, ""), Finished(0)], Quiet(self, Answered(self, h, partner, id, thread, kind)));
    FreshLater(h, id, id + 1);
    FreshAfterPush(h, m, id + 1);
    FreshAfterPush(h + [m], Answer(self, partner, thread), id + 1);
  }

  /** How a stored message changes a conversation and the replies counted in it. */
  lemma PushCounts(h: History, m: Stored, partner: string, thread: nat)
    ensures Filter(h + [m], With(partner)) == Filter(h, With(partner)) + (if With(partner)(m) then [m] else [])
    ensures Total(h + [m], partner, thread) ==
            Total(h, partner, thread) + (if With(partner)(m) && AutoReplyIn(thread)(m) then 1 else 0)
  {
    FilterConcat(h, [m], With(partner));
    FilterOne(m, With(partner));
    if With(partner)(m) {
      FilterConcat(Filter(h, With(partner)), [m], AutoReplyIn(thread));
      FilterOne(m, AutoReplyIn(thread));
    } else {
      assert Filter(h, With(partner)) + [] == Filter(h, With(partner));
    }
  }

  lemma FilterOne(m: Stored, p: Stored -> bool)
    ensures Filter([m], p) == if p(m) then [m] else []
  {
    assert [m][1..] == [];
  }

  lemma AnsweredCounts(self: string, h: History, partner: string, id: nat, thread: nat, kind: string)
    requires partner != self
    ensures Total(Answered(self, h, partner, id, thread, kind), partner, thread) == Total(h, partner, thread) + 1
    ensures |Filter(Answered(self, h, partner, id, thread, kind), With(partner))| == |Filter(h, With(partner))| + 2
  {
    PushCounts(h, Trigger(self, partner, id, thread, kind), partner, thread);
    PushCounts(h + [Trigger(self, partner, id, thread, kind)], Answer(self, partner, thread), partner, thread);
  }

  lemma FillersArePlain(self: string, partner: string, base: nat, n: nat, thread: nat)
    ensures var f := Fillers(self, partner, base, n);
            forall i :: 0 <= i < |f| ==> With(partner)(f[i]) && !AutoReplyIn(thread)(f[i])
  {
    var f := Fillers(self, partner, base, n);
    forall i | 0 <= i < |f| ensures With(partner)(f[i]) && !AutoReplyIn(thread)(f[i]) {
      assert f[i] == Filler(self, partner, base + i);
    }
  }

  lemma FillersCount(self: string, h: History, partner: string, base: nat, n: nat, thread: nat)
    ensures Filter(h + Fillers(self, partner, base, n), With(partner)) ==
            Filter(h, With(partner)) + Fillers(self, partner, base, n)
    ensures Total(h + Fillers(self, partner, base, n), partner, thread) == Total(h, partner, thread)
  {
    var more := Fillers(self, partner, base, n);
    FillersArePlain(self, partner, base, n, thread);
    FilterConcat(h, more, With(partner));
    FilterAll(more, With(partner));
    FilterConcat(Filter(h, With(partner)), more, AutoReplyIn(thread));
    FilterNone(more, AutoReplyIn(thread));
  }

  /** From every idle state and for every thread, the daemon can be brought to store one more
      automatic reply, by a request or by a task, with no other message but ones that ask for nothing. */
  lemma OneMoreReply(s: State, partner: string, thread: nat, kind: string) returns (events: seq<Event>, after: State)
    requires Idle(s) && partner != s.self && kind in {"request", "task"}
    ensures Leads(s, events, after) && Idle(after) && after.self == s.self
    ensures Total(after.history, partner, thread) == Total(s.history, partner, thread) + 1
    ensures OnlyArrivals(events, {"status", kind})
  {
    var h := s.history;
    var base := FreshBaseExists(h);
    var more := Fillers(s.self, partner, base, CONVERSATION_LIMIT);
    var id := base + CONVERSATION_LIMIT;
    var first := FillersLead(s.self, h, partner, base, CONVERSATION_LIMIT);
    var m := Trigger(s.self, partner, id, thread, kind);
    FillersArePlain(s.self, partner, base, CONVERSATION_LIMIT, thread);
    assert With(partner)(m) && !AutoReplyIn(thread)(m);
    WindowForgets(h, more + [m], partner, thread);
    assert h + more + [m] == h + (more + [m]);
    var second := RoundLeads(s.self, h + more, partner, id, thread, kind);
    after := Quiet(s.self, Answered(s.self, h + more, partner, id, thread, kind));
    events := first + second;
    assert s == Quiet(s.self, h);
    LeadsOn(s, first, Quiet(s.self, h + more), second, after);
    FillersCount(s.self, h, partner, base, CONVERSATION_LIMIT, thread);
    AnsweredCounts(s.self, h + more, partner, id, thread, kind);
  }

  /** The guard bounds no thread for good: from a fresh daemon some run stores any number of
      automatic replies in one thread. */
  lemma {:induction false} AnyNumberOfReplies(self: string, partner: string, thread: nat, n: nat, kind: string)
    returns (events: seq<Event>, after: State)
    requires partner != self && kind in {"request", "task"}
    ensures Leads(Quiet(self, []), events, after) && Idle(after) && after.self == self
    ensures Total(after.history, partner, thread) == n
    decreases n
  {
    if n == 0 {
      events, after := [], Quiet(self, []);
    } else {
      var before, mid := AnyNumberOfReplies(self, partner, thread, n - 1, kind);
      var last;
      last, after := OneMoreReply(mid, partner, thread, kind);
      events := before + last;
      LeadsOn(Quiet(self, []), before, mid, last, after);
    }
  }

  // ---- the exact boundary ----

  /** `k` requests with ids 1 to k and their answers. */
  function Rounds(self: string, partner: string, thread: nat, k: nat, kind: string): History {
    if k == 0 then [] else Answered(self, Rounds(self, partner, thread, k - 1, kind), partner, k, thread, kind)
  }

  lemma {:induction false} RoundsCount(self: string, partner: string, thread: nat, k: nat, kind: string)
    requires partner != self
    ensures Filter(Rounds(self, partner, thread, k, kind), With(partner)) == Rounds(self, partner, thread, k, kind)
    ensures |Rounds(self, partner, thread, k, kind)| == 2 * k
    ensures Total(Rounds(self, partner, thread, k, kind), partner, thread) == k
    ensures k > 0 ==> Rounds(self, partner, thread, k, kind)[..2] ==
                      [Trigger(self, partner, 1, thread, kind), Answer(self, partner, thread)]
    decreases k
  {
    if k > 0 {
      var before := Rounds(self, partner, thread, k - 1, kind);
      RoundsCount(self, partner, thread, k - 1, kind);
      AnsweredCounts(self, before, partner, k, thread, kind);
      PushCounts(before, Trigger(self, partner, k, thread, kind), partner, thread);
      PushCounts(before + [Trigger(self, partner, k, thread, kind)], Answer(self, partner, thread), partner, thread);
    }
  }

  lemma {:induction false} RoundsLead(self: string, partner: string, thread: nat, k: nat, kind: string) returns (events: seq<Event>)
    requires partner != self && k <= MAX_AUTO_REPLIES_PER_THREAD && kind in {"request", "task"}
    ensures Leads(Quiet(self, []), events, Quiet(self, Rounds(self, partner, thread, k, kind)))
    ensures FreshFrom(Rounds(self, partner, thread, k, kind), k + 1)
    decreases k
  {
    if k == 0 {
      events := [];
    } else {
      var before := Rounds(self, partner, thread, k - 1, kind);
      var first := RoundsLead(self, partner, thread, k - 1, kind);
      RoundsCount(self, partner, thread, k - 1, kind);
      PushCounts(before, Trigger(self, partner, k, thread, kind), partner, thread);
      var second := RoundLeads(self, before, partner, k, thread, kind);
      events := first + second;
      LeadsOn(Quiet(self, []), first, Quiet(self, before), second, Quiet(self, Rounds(self, partner, thread, k, kind)));
    }
  }

  /** Five rounds, forty-one messages that ask for nothing, and a sixth request: the first reply
      is just out of the window. */
  lemma FirstReplyForgotten(self: string, partner: string, thread: nat, kind: string)
    requires partner != self
    ensures Persisted(Rounds(self, partner, thread, 5, kind) + Fillers(self, partner, 6, 41) +
                      [Trigger(self, partner, 47, thread, kind)], partner, thread) == 4
  {
    var rounds, more := Rounds(self, partner, thread, 5, kind), Fillers(self, partner, 6, 41);
    var m := Trigger(self, partner, 47, thread, kind);
    RoundsCount(self, partner, thread, 5, kind);
    FillersCount(self, rounds, partner, 6, 41, thread);
    PushCounts(rounds + more, m, partner, thread);
    var c := rounds + more + [m];
    assert Filter(c, With(partner)) == c && |c| == 52;
    assert c[..2] == rounds[..2];
    assert c == c[..2] + c[2..];
    FilterConcat(c[..2], c[2..], AutoReplyIn(thread));
    PushCounts([], Trigger(self, partner, 1, thread, kind), partner, thread);
    FilterPair(Trigger(self, partner, 1, thread, kind), Answer(self, partner, thread), AutoReplyIn(thread));
  }

  lemma FilterPair(a: Stored, b: Stored, p: Stored -> bool)
    ensures Filter([a, b], p) == (if p(a) then [a] else []) + (if p(b) then [b] else [])
  {
    assert [a, b][1..] == [b];
    FilterOne(b, p);
  }

  /** A run that stores six automatic replies in one thread, in a conversation of 53 messages. */
  lemma SixReplies(self: string, partner: string, thread: nat, kind: string) returns (events: seq<Event>, after: State)
    requires partner != self && kind in {"request", "task"}
    ensures Leads(Quiet(self, []), events, after)
    ensures Total(after.history, partner, thread) == 6 && |Filter(after.history, With(partner))| == 53
  {
    var rounds, more := Rounds(self, partner, thread, 5, kind), Fillers(self, partner, 6, 41);
    var first := RoundsLead(self, partner, thread, 5, kind);
    var second := FillersLead(self, rounds, partner, 6, 41);
    FirstReplyForgotten(self, partner, thread, kind);
    var third := RoundLeads(self, rounds + more, partner, 47, thread, kind);
    after := Quiet(self, Answered(self, rounds + more, partner, 47, thread, kind));
    LeadsOn(Quiet(self, []), first, Quiet(self, rounds), second, Quiet(self, rounds + more));
    LeadsOn(Quiet(self, []), first + second, Quiet(self, rounds + more), third, after);
    events := first + second + third;
    RoundsCount(self, partner, thread, 5, kind);
    FillersCount(self, rounds, partner, 6, 41, thread);
    AnsweredCounts(self, rounds + more, partner, 47, thread, kind);
  }

  /** Every conversation begins with a message that is no automatic reply, every run answers a
      partner with a conversation, and six replies of a thread take 53 messages. */
  ghost predicate Headed(s: State) {
    && (forall p: string, t: nat :: p != s.self && Filter(s.history, With(p)) != [] ==>
          !AutoReplyIn(t)(Filter(s.history, With(p))[0]))
    && (forall r :: r in s.runs ==> Filter(s.history, With(s.runs[r].partner)) != [])
    && (forall p: string, t: nat :: p != s.self && Total(s.history, p, t) > MAX_AUTO_REPLIES_PER_THREAD ==>
          |Filter(s.history, With(p))| >= 53)
  }

  /** A message that is stored and is no automatic reply. */
  lemma PlainPushKeepsHeaded(s: State, m: Stored)
    requires Headed(s) && forall t: nat :: !AutoReplyIn(t)(m)
    ensures Headed(s.(history := s.history + [m]))
  {
    var after := s.(history := s.history + [m]);
    forall p: string
      ensures Filter(after.history, With(p)) == Filter(s.history, With(p)) + (if With(p)(m) then [m] else [])
    {
      PushCounts(s.history, m, p, 0);
    }
    forall p: string, t: nat ensures Total(after.history, p, t) == Total(s.history, p, t) {
      PushCounts(s.history, m, p, t);
    }
    forall p: string, t: nat | p != s.self && Filter(after.history, With(p)) != []
      ensures !AutoReplyIn(t)(Filter(after.history, With(p))[0])
    {
      if Filter(s.history, With(p)) == [] { assert Filter(after.history, With(p)) == [m]; }
    }
  }

  lemma {:induction false} FilterHolds(h: History, p: Stored -> bool, i: nat)
    requires i < |h| && p(h[i])
    ensures Filter(h, p) != []
  {
    if i > 0 && !p(h[0]) { FilterHolds(h[1..], p, i - 1); }
  }

  lemma ArrivalHasConversation(s: State, run: nat, m: Stored, open: bool)
    requires Genuine(s, Arrival(run, m, open))
    ensures Filter(Appended(s.history, m), With(m.sender)) != []
  {
    if m.id.Some? && Knows(s.history, m.id.value) {
      var i :| 0 <= i < |s.history| && s.history[i].id == m.id && s.history[i].sender == m.sender;
      FilterHolds(s.history, With(m.sender), i);
    } else {
      PushCounts(s.history, m, m.sender, 0);
    }
  }

  lemma StoredKeepsHeaded(s: State, m: Stored)
    requires Headed(s) && !m.outgoing
    ensures Headed(s.(history := Appended(s.history, m)))
  {
    PlainPushKeepsHeaded(s, m);
    assert s.(history := s.history) == s;
  }

  lemma ArriveKeepsHeaded(s: State, run: nat, m: Stored, open: bool)
    requires Headed(s) && Possible(s, Arrival(run, m, open)) && Genuine(s, Arrival(run, m, open))
    ensures Headed(Arrive(s, run, m, open))
  {
    StoredKeepsHeaded(s, m);
    ArrivalHasConversation(s, run, m, open);
  }

  lemma HeadCountsNothing(c: History, k: nat, thread: nat)
    requires k <= |c| && (c != [] ==> !AutoReplyIn(thread)(c[0]))
    ensures k <= 1 ==> Filter(c[..k], AutoReplyIn(thread)) == []
  {
    if k == 1 {
      assert c[..1] == [c[0]];
      FilterOne(c[0], AutoReplyIn(thread));
    }
  }

  /** With at most four of its replies in the window, a conversation holds five only if it is long. */
  lemma ForgottenMeansLong(c: History, thread: nat)
    requires c != [] ==> !AutoReplyIn(thread)(c[0])
    requires |Filter(Last(c, CONVERSATION_LIMIT), AutoReplyIn(thread))| < |Filter(c, AutoReplyIn(thread))|
    ensures |c| >= 52
  {
    if |c| > CONVERSATION_LIMIT {
      var k := |c| - CONVERSATION_LIMIT;
      assert c == c[..k] + c[k..];
      FilterConcat(c[..k], c[k..], AutoReplyIn(thread));
      HeadCountsNothing(c, k, thread);
    }
  }

  lemma ReplyNeedsLong(s: State, run: nat, thread: nat)
    requires Safe(s) && Headed(s) && run in s.runs && !s.runs[run].replied && s.runs[run].thread == Some(thread)
    requires s.runs[run].partner != s.self && Total(s.history, s.runs[run].partner, thread) >= MAX_AUTO_REPLIES_PER_THREAD
    ensures |Filter(s.history, With(s.runs[run].partner))| >= 52
  {
    var p := s.runs[run].partner;
    assert run in Outstanding(s.runs, p, thread);
    assert Persisted(s.history, p, thread) + |Outstanding(s.runs, p, thread)| <= MAX_AUTO_REPLIES_PER_THREAD;
    ForgottenMeansLong(Filter(s.history, With(p)), thread);
  }

  lemma ReplyKeepsHeaded(s: State, run: nat, text: string)
    requires Safe(s) && Headed(s) && Possible(s, Replied(run, text))
    ensures Headed(Reply(s, run, text))
  {
    var m := ReplyRecord(s.self, s.runs[run], text);
    var after := Reply(s, run, text);
    forall p: string
      ensures Filter(after.history, With(p)) == Filter(s.history, With(p)) + (if With(p)(m) then [m] else [])
    {
      PushCounts(s.history, m, p, 0);
    }
    forall p: string, t: nat | p != s.self && Filter(after.history, With(p)) != []
      ensures !AutoReplyIn(t)(Filter(after.history, With(p))[0])
    {
      assert With(p)(m) ==> p == s.runs[run].partner;
      assert Filter(after.history, With(p))[0] == Filter(s.history, With(p))[0];
    }
    forall p: string, t: nat | p != s.self
      ensures Total(after.history, p, t) > MAX_AUTO_REPLIES_PER_THREAD ==> |Filter(after.history, With(p))| >= 53
    {
      PushCounts(s.history, m, p, t);
      if With(p)(m) && AutoReplyIn(t)(m) && Total(s.history, p, t) >= MAX_AUTO_REPLIES_PER_THREAD {
        ReplyNeedsLong(s, run, t);
      }
    }
    forall r | r in after.runs ensures Filter(after.history, With(after.runs[r].partner)) != [] {
      PushCounts(s.history, m, s.runs[r].partner, 0);
    }
  }

  lemma ReadKeepsHeaded(s: State, ids: set<nat>)
    requires Headed(s)
    ensures Headed(s.(history := MarkedRead(s.history, ids)))
  {
    var after := s.(history := MarkedRead(s.history, ids));
    forall p: string ensures Filter(after.history, With(p)) == MarkedRead(Filter(s.history, With(p)), ids) {
      FilterMarked(s.history, ids, With(p));
    }
    forall p: string, t: nat ensures Total(after.history, p, t) == Total(s.history, p, t) {
      FilterMarked(Filter(s.history, With(p)), ids, AutoReplyIn(t));
    }
  }

  lemma StepKeepsHeaded(s: State, e: Event)
    requires Safe(s) && Headed(s) && Possible(s, e) && Genuine(s, e)
    ensures Headed(Step(s, e))
  {
    match e
    case Arrival(run, m, open) => ArriveKeepsHeaded(s, run, m, open);
    case Replied(run, text) => ReplyKeepsHeaded(s, run, text);
    case Finished(_) =>
    case LocalSend(to, body, kind) =>
      PlainPushKeepsHeaded(s, Stored(None, s.self, to, body, kind, None, None, true, true));
    case Read(ids) => ReadKeepsHeaded(s, ids);
    case Restart =>
  }

  lemma {:induction false} TraceKeepsHeaded(s: State, events: seq<Event>)
    requires Safe(s) && Headed(s) && IsTrace(s, events) && IsGenuine(s, events)
    ensures Headed(After(s, events))
    decreases |events|
  {
    if events != [] {
      StepIsSafe(s, events[0]);
      StepKeepsHeaded(s, events[0]);
      TraceKeepsHeaded(Step(s, events[0]), events[1..]);
    }
  }

  /** Some run of a fresh daemon stores more than five automatic replies of a thread while the
      conversation with its partner has at most `n` messages. */
  ghost predicate Exceeds(self: string, partner: string, thread: nat, n: nat) {
    exists events, after :: Leads(Quiet(self, []), events, after) &&
      |Filter(after.history, With(partner))| <= n && Total(after.history, partner, thread) > MAX_AUTO_REPLIES_PER_THREAD
  }

  /** The exact reach of the guard: a thread stays within five automatic replies for as long as
      the conversation with its partner has at most 52 messages, and with the 53rd it can hold six. */
  lemma GuardReachesExactly(self: string, partner: string, thread: nat, n: nat)
    requires partner != self
    ensures Exceeds(self, partner, thread, n) <==> n >= 53
  {
    if Exceeds(self, partner, thread, n) {
      var events, after :| Leads(Quiet(self, []), events, after) &&
        |Filter(after.history, With(partner))| <= n && Total(after.history, partner, thread) > MAX_AUTO_REPLIES_PER_THREAD;
      FreshDaemonIsSafe(self);
      TraceKeepsHeaded(Quiet(self, []), events);
      EveryInterleavingIsSafe(Quiet(self, []), events);
      TraceKeepsSelf(Quiet(self, []), events);
    }
    if n >= 53 {
      var events, after := SixReplies(self, partner, thread, "task");
    }
  }

  lemma {:induction false} TraceKeepsSelf(s: State, events: seq<Event>)
    requires IsTrace(s, events)
    ensures After(s, events).self == s.self
    decreases |events|
  {
    if events != [] { TraceKeepsSelf(Step(s, events[0]), events[1..]); }
  }

  // ---- the daemon ----

  lemma AppendedKnows(h: History, m: Stored)
    ensures m.id.Some? ==> Knows(Appended(h, m), m.id.value)
  {
    if m.id.Some? && !Knows(h, m.id.value) { assert (h + [m])[|h|] == m; }
  }

  /** The count of the guard, written out. */
  lemma PersistedCounts(h: History, m: Stored)
    requires m.threadId.Some?
    ensures Persisted(h, m.sender, m.threadId.value) ==
            |Filter(Last(Filter(h, (r: Stored) => r.sender == m.sender || r.recipient == m.sender), 50),
                    (r: Stored) => r.outgoing && r.threadId == m.threadId && "[auto] " <= r.body)|
  {
    var with := (r: Stored) => r.sender == m.sender || r.recipient == m.sender;
    FilterSame(h, With(m.sender), with);
    FilterSame(Last(Filter(h, with), 50), AutoReplyIn(m.threadId.value),
               (r: Stored) => r.outgoing && r.threadId == m.threadId && "[auto] " <= r.body);
  }

  /** One reservation of the thread is given back, and with the last one its entry goes. */
  ghost predicate OneLess(before: map<nat, nat>, after: map<nat, nat>, thread: nat) {
    && thread in before && after - {thread} == before - {thread}
    && (thread in after <==> before[thread] > 1)
    && (thread in after ==> after[thread] + 1 == before[thread])
  }

  class Daemon {
    const self: string
    const store: Store
    var inFlightByThread: map<nat, nat>
    /** The runs awaiting the model; they live in suspended calls, not in a field. */
    ghost var runs: map<nat, Run>

    /** Starts on the history an earlier daemon left. */
    constructor (self: string, store: Store, ghost before: State)
      requires store.Valid() && Safe(before) && before.self == self && before.history == store.messages
      ensures this.self == self && this.store == store && store.messages == old(store.messages)
      ensures Guard() == Step(before, Restart) && Valid()
    {
      this.self, this.store := self, store;
      inFlightByThread, runs := map[], map[];
      new;
      RestartIsSafe(before);
    }

    ghost function Guard(): State
      reads this, store
    {
      State(self, store.messages, inFlightByThread, runs)
    }

    ghost predicate Valid()
      reads this, store
    {
      store.Valid() && Safe(Guard())
    }

    /** The synchronous part of the message handler, up to the first await: store, acknowledge,
        count, reserve. */
    method OnMessage(m: Stored, open: bool, ghost run: nat) returns (ack: Option<nat>, started: bool)
      requires Valid() && run !in runs && !m.outgoing
      modifies this, store
      ensures Guard() == Arrive(old(Guard()), run, m, open) && Valid()
      ensures ack == m.id && (m.id.Some? ==> Knows(store.messages, m.id.value))
      ensures started <==>
                && open && !("[auto] " <= m.body) && m.kind in {"request", "task"}
                && (m.threadId == None ||
                    |Filter(Last(Filter(store.messages, (r: Stored) => r.sender == m.sender || r.recipient == m.sender), 50),
                            (r: Stored) => r.outgoing && r.threadId == m.threadId && "[auto] " <= r.body)| +
                    (if m.threadId.value in old(inFlightByThread) then old(inFlightByThread)[m.threadId.value] else 0) < 5)
    {
      if m.threadId.Some? { PersistedCounts(Appended(store.messages, m), m); }
      ArriveIsSafe(Guard(), run, m, open);
      AppendedKnows(store.messages, m);
      store.Append(m);
      ack := m.id;
      if !open { return ack, false; }
      if AUTO_REPLY_PREFIX <= m.body { return ack, false; }
      if m.kind != "request" && m.kind != "task" { return ack, false; }
      if m.threadId.Some? {
        var persisted := |Filter(Conversation(store.messages, m.sender, CONVERSATION_LIMIT), AutoReplyIn(m.threadId.value))|;
        var reserved := Reserved(inFlightByThread, m.threadId.value);
        if persisted + reserved >= MAX_AUTO_REPLIES_PER_THREAD { return ack, false; }
        inFlightByThread := inFlightByThread[m.threadId.value := reserved + 1];
      }
      runs := runs[run := Run(m.sender, m.threadId, false)];
      return ack, true;
    }

    /** The model answered and the frame went out: the reply is stored. */
    method OnReply(ghost run: nat, partner: string, thread: Option<nat>, text: string)
      requires Valid() && run in runs && runs[run] == Run(partner, thread, false)
      modifies this, store
      ensures Guard() == Reply(old(Guard()), run, text) && Valid()
      ensures store.messages ==
              old(store.messages) + [Stored(None, self, partner, "[auto] " + text, "response", thread, None, true, true)]
      ensures inFlightByThread == old(inFlightByThread)
    {
      ReplyIsSafe(Guard(), run, text);
      store.Append(Stored(None, self, partner, AUTO_REPLY_PREFIX + text, "response", thread, None, true, true));
      runs := runs[run := runs[run].(replied := true)];
    }

    /** The finally block around a run. */
    method OnFinished(ghost run: nat, thread: Option<nat>)
      requires Valid() && run in runs && runs[run].thread == thread
      modifies this, store
      ensures Guard() == Finish(old(Guard()), run) && Valid() && store.messages == old(store.messages)
      ensures thread == None ==> inFlightByThread == old(inFlightByThread)
      ensures thread.Some? ==> OneLess(old(inFlightByThread), inFlightByThread, thread.value)
    {
      FinishIsSafe(Guard(), run);
      if thread.Some? { assert run in InThread(runs, thread.value); }
      if thread.Some? {
        var left: int := (if thread.value in inFlightByThread then inFlightByThread[thread.value] else 1) as int - 1;
        if left <= 0 {
          inFlightByThread := inFlightByThread - {thread.value};
        } else {
          inFlightByThread := inFlightByThread[thread.value := left];
        }
      }
      runs := runs - {run};
    }
  }
}
