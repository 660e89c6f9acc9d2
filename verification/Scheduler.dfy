/**
 The scheduler: the next run of a schedule, one tick of the engine over all schedules, and what
 every run of ticks guarantees. Instants are microseconds, as in Cron.
 */
module Scheduler {
  import opened Basics
  import opened Calendar
  import opened Cron

  // ---- next_run ----

  /** A stored, validated specification. */
  datatype Spec = Interval(micros: nat) | Once(instant: nat) | OnCron(expr: Expr)

  predicate ValidSpec(s: Spec) {
    s.Interval? ==> s.micros >= 1
  }

  ghost function NextRun(s: Spec, after: nat): (r: Option<nat>)
    requires ValidSpec(s)
    ensures r.Some? ==> r.value > after && Occurs(s, after, r.value)
  {
    match s
    case Interval(micros) => Some(after + micros)
    case Once(instant) => if instant > after then Some(instant) else None
    case OnCron(e) =>
      match NextMatch(e, after)
      case Some(t) => Some(t * MICROS_PER_MINUTE)
      case None => None
  }

  /** The occurrences of a schedule that was last armed at an instant. */
  ghost predicate Occurs(s: Spec, armedAt: nat, at: nat) {
    match s
    case Interval(micros) => at == armedAt + micros
    case Once(instant) => at == instant
    case OnCron(e) => at % MICROS_PER_MINUTE == 0 && Matches(e, at / MICROS_PER_MINUTE)
  }

  // ---- tables ----

  datatype Status = Running | SkippedKillSwitch | SkippedOffline | SkippedPaused | JobFailed

  datatype Schedule = Schedule(agent: string, spec: Spec, enabled: bool, nextRunAt: Option<nat>,
                               lastRunAt: Option<nat>, lastStatus: Option<Status>)

  type Table = map<nat, Schedule>

  ghost predicate Valid(t: Table) {
    forall id :: id in t ==> ValidSpec(t[id].spec)
  }

  predicate DueAt(s: Schedule, now: nat) {
    s.enabled && s.nextRunAt.Some? && s.nextRunAt.value <= now
  }

  function Due(t: Table, now: nat): set<nat> {
    set id | id in t && DueAt(t[id], now)
  }

  const LIMIT: nat := 100

  /** A page of the due schedules, earliest first; ties may come in any order. */
  ghost predicate IsPage(t: Table, now: nat, page: seq<nat>) {
    && NoDuplicates(page) && |page| == (if |Due(t, now)| < LIMIT then |Due(t, now)| else LIMIT)
    && (forall i :: 0 <= i < |page| ==> page[i] in t && DueAt(t[page[i]], now))
    && (forall i, j :: 0 <= i < j < |page| ==> t[page[i]].nextRunAt.value <= t[page[j]].nextRunAt.value)
    && (forall id, i :: id in Due(t, now) && id !in page && 0 <= i < |page| ==>
          t[page[i]].nextRunAt.value <= t[id].nextRunAt.value)
  }

  // ---- one tick ----

  /** What the engine sees of the world during a tick. */
  datatype World = World(responderEnabled: bool, agents: map<string, bool>, online: set<string>, reachable: set<string>,
                         throwing: set<string>)

  /** Whether the job goes out, and the status recorded; an agent's value tells whether it is
      paused, and a job that throws is recorded without holding up the others. */
  function Fire(agent: string, w: World): Status {
    if agent in w.throwing then JobFailed
    else if !w.responderEnabled then SkippedKillSwitch
    else if agent !in w.agents then SkippedOffline
    else if w.agents[agent] then SkippedPaused
    else if agent !in w.online then SkippedOffline
    else if agent in w.reachable then Running
    else SkippedOffline
  }

  ghost function Fired(s: Schedule, now: nat, w: World): Schedule
    requires ValidSpec(s.spec)
  {
    s.(nextRunAt := NextRun(s.spec, now), lastRunAt := Some(now), lastStatus := Some(Fire(s.agent, w)))
  }

  ghost function Ticked(t: Table, now: nat, page: seq<nat>, w: World): Table
    requires Valid(t)
  {
    map id | id in t :: if id in page then Fired(t[id], now, w) else t[id]
  }

  lemma WholeMinute(t: nat)
    ensures t * MICROS_PER_MINUTE / 60_000_000 == t && t * MICROS_PER_MINUTE % 60_000_000 == 0
  {}

  class SchedulerEngine {
    var schedules: Table

    constructor ()
      ensures schedules == map[]
    {
      schedules := map[];
    }

    method DuePage(now: nat) returns (page: seq<nat>)
      ensures IsPage(schedules, now, page)
      ensures forall id :: id in page ==>
                id in schedules && schedules[id].enabled && schedules[id].nextRunAt.Some? && schedules[id].nextRunAt.value <= now
      ensures |page| != 100 ==>
                forall id :: id in schedules && schedules[id].enabled && schedules[id].nextRunAt.Some? ==>
                  (id in page <==> schedules[id].nextRunAt.value <= now)
    {
      page := [];
      var todo := Due(schedules, now);
      while todo != {} && |page| < LIMIT
        invariant SplitsDue(schedules, now, page, todo) && |page| <= LIMIT
        decreases todo
      {
        EarliestExists(schedules, now, todo);
        var first :| first in todo && forall id :: id in todo ==>
                       schedules[first].nextRunAt.value <= schedules[id].nextRunAt.value;
        PageGrows(schedules, now, page, todo, first);
        page, todo := page + [first], todo - {first};
      }
      if todo == {} { DistinctCardinality(page); }
      assert forall id :: id in schedules && DueAt(schedules[id], now) ==> id in Due(schedules, now);
    }

    method ComputeNextRun(s: Spec, after: nat) returns (r: Option<nat>)
      requires ValidSpec(s)
      ensures r == NextRun(s, after)
      ensures s.Interval? ==> r == Some(after + s.micros)
      ensures s.Once? ==> r == if s.instant > after then Some(s.instant) else None
      ensures s.OnCron? && Proper(s.expr) && r.Some? ==>
                && r.value % 60_000_000 == 0 && r.value > after && Permits(s.expr, r.value / 60_000_000)
                && forall t: nat :: t * 60_000_000 > after && Permits(s.expr, t) ==> r.value <= t * 60_000_000
      ensures s.OnCron? && Proper(s.expr) && r.None? ==>
                forall t: nat :: t * 60_000_000 > after && t <= after / 60_000_000 + 1 + 366 * 1440 ==> !Permits(s.expr, t)
    {
      match s
      case Interval(micros) => r := Some(after + micros);
      case Once(instant) => r := if instant > after then Some(instant) else None;
      case OnCron(e) =>
        var t := CronNext(e, after);
        if t.Some? {
          FirstMinuteIsNext(after);
          assert Answered(e, FirstMinute(after));
          NextIsUnique(e, after, t.value, NextMatch(e, after).value);
          WholeMinute(t.value);
          r := Some(t.value * MICROS_PER_MINUTE);
        } else {
          r := None;
        }
    }

    /** Claims every schedule of the page by re-arming it from now, then fires it. */
    method RunDueSchedules(now: nat, w: World) returns (page: seq<nat>)
      requires Valid(schedules)
      modifies this
      ensures IsPage(old(schedules), now, page)
      ensures schedules == Ticked(old(schedules), now, page, w)
      ensures schedules.Keys == old(schedules).Keys
      ensures forall id :: id in schedules && id !in page ==> schedules[id] == old(schedules)[id]
      ensures forall id :: id in page ==>
                && id in schedules && schedules[id].lastRunAt == Some(now)
                && schedules[id] == old(schedules)[id].(nextRunAt := NextRun(old(schedules)[id].spec, now),
                                                        lastRunAt := Some(now), lastStatus := schedules[id].lastStatus)
                && var agent := schedules[id].agent;
                   var known, runs := agent in w.agents, agent !in w.throwing && w.responderEnabled;
                   && (schedules[id].lastStatus == Some(JobFailed) <==> agent in w.throwing)
                   && (schedules[id].lastStatus == Some(SkippedKillSwitch) <==> agent !in w.throwing && !w.responderEnabled)
                   && (schedules[id].lastStatus == Some(SkippedPaused) <==> runs && known && w.agents[agent])
                   && (schedules[id].lastStatus == Some(Running) <==>
                       runs && known && !w.agents[agent] && agent in w.online && agent in w.reachable)
                   && schedules[id].lastStatus.Some?
    {
      page := DuePage(now);
      ghost var before := schedules;
      assert Ticked(before, now, page[..0], w) == before;
      for i := 0 to |page|
        invariant schedules == Ticked(before, now, page[..i], w)
        invariant forall j :: i <= j < |page| ==> schedules[page[j]] == before[page[j]]
      {
        var id := page[i];
        var s := schedules[id];
        var next := ComputeNextRun(s.spec, now);
        s := s.(nextRunAt := next);
        s := s.(lastRunAt := Some(now));
        s := s.(lastStatus := Some(Fire(s.agent, w)));
        schedules := schedules[id := s];
        assert page[..i + 1] == page[..i] + [id];
      }
      assert page[..|page|] == page;
    }
  }

  /** The due schedules fall into a page in order and a rest that is no earlier. */
  ghost predicate SplitsDue(t: Table, now: nat, page: seq<nat>, rest: set<nat>) {
    && rest <= Due(t, now) && NoDuplicates(page) && |page| + |rest| == |Due(t, now)|
    && (forall i :: 0 <= i < |page| ==> page[i] in t && DueAt(t[page[i]], now) && page[i] !in rest)
    && (forall id :: id in Due(t, now) ==> id in page || id in rest)
    && (forall i, j :: 0 <= i < j < |page| ==> t[page[i]].nextRunAt.value <= t[page[j]].nextRunAt.value)
    && (forall i, id :: 0 <= i < |page| && id in rest && id in t && DueAt(t[id], now) ==>
          t[page[i]].nextRunAt.value <= t[id].nextRunAt.value)
  }

  lemma PageGrows(t: Table, now: nat, page: seq<nat>, rest: set<nat>, first: nat)
    requires SplitsDue(t, now, page, rest) && first in rest
    requires forall id :: id in rest && id in t && DueAt(t[id], now) ==>
               t[first].nextRunAt.value <= t[id].nextRunAt.value
    ensures SplitsDue(t, now, page + [first], rest - {first})
  {
    var longer := page + [first];
    forall id | id in Due(t, now) ensures id in longer || id in rest - {first} {
      assert longer[|page|] == first;
      if id in page {
        var i :| 0 <= i < |page| && page[i] == id;
        assert longer[i] == id;
      }
    }
  }

  lemma {:induction false} EarliestExists(t: Table, now: nat, ids: set<nat>)
    requires ids <= Due(t, now) && ids != {}
    ensures exists f :: f in ids && forall id :: id in ids ==> t[f].nextRunAt.value <= t[id].nextRunAt.value
  {
    var x :| x in ids;
    var rest := ids - {x};
    var f := x;
    if rest != {} {
      EarliestExists(t, now, rest);
      var g :| g in rest && forall id :: id in rest ==> t[g].nextRunAt.value <= t[id].nextRunAt.value;
      if t[g].nextRunAt.value < t[x].nextRunAt.value { f := g; }
    }
    forall id | id in ids ensures t[f].nextRunAt.value <= t[id].nextRunAt.value { assert id == x || id in rest; }
  }

  // ---- what one tick leaves due ----

  /** A fired schedule is never due again at the same instant. */
  lemma FiredIsNotDue(s: Schedule, now: nat, w: World)
    requires ValidSpec(s.spec)
    ensures !DueAt(Fired(s, now, w), now)
  {}

  /** Each tick leaves due exactly what did not fit on its page. */
  lemma TickLeaves(t: Table, now: nat, page: seq<nat>, w: World)
    requires Valid(t) && IsPage(t, now, page)
    ensures |Due(Ticked(t, now, page, w), now)| == if |Due(t, now)| > 100 then |Due(t, now)| - 100 else 0
  {
    DistinctCardinality(page);
    assert Elements(page) <= Due(t, now);
    forall id | id in page ensures id in Due(t, now) && id !in Due(Ticked(t, now, page, w), now) {
      FiredIsNotDue(t[id], now, w);
    }
    assert Due(Ticked(t, now, page, w), now) == Due(t, now) - Elements(page);
    assert |Due(t, now) - Elements(page)| == |Due(t, now)| - |Elements(page)|;
  }

  // ---- runs of ticks ----

  datatype Tick = Tick(now: nat, page: seq<nat>, world: World)

  /** A run: the clock never goes back and every tick works on a page of what is due then. */
  ghost predicate IsRun(t: Table, ticks: seq<Tick>)
    requires Valid(t)
    decreases |ticks|
  {
    ticks == [] ||
    (&& IsPage(t, ticks[0].now, ticks[0].page)
     && (|ticks| > 1 ==> ticks[0].now <= ticks[1].now)
     && IsRun(Ticked(t, ticks[0].now, ticks[0].page, ticks[0].world), ticks[1..]))
  }

  ghost function Run(t: Table, ticks: seq<Tick>): (after: Table)
    requires Valid(t)
    ensures Valid(after) && after.Keys == t.Keys
    ensures forall id :: id in t ==> after[id].spec == t[id].spec && after[id].enabled == t[id].enabled
    decreases |ticks|
  {
    if ticks == [] then t else Run(Ticked(t, ticks[0].now, ticks[0].page, ticks[0].world), ticks[1..])
  }

  /** While it does not fire a schedule does not change, and whoever fires next is the instant it was armed for or later. */
  lemma {:induction false} NextFire(t: Table, ticks: seq<Tick>, id: nat, j: nat)
    requires Valid(t) && IsRun(t, ticks) && id in t && j < |ticks| && id in ticks[j].page
    requires forall k :: 0 <= k < j ==> id !in ticks[k].page
    ensures t[id].nextRunAt.Some? && t[id].nextRunAt.value <= ticks[j].now
    ensures ticks[0].now <= ticks[j].now
    decreases j
  {
    if j > 0 {
      var rest := ticks[1..];
      assert rest[j - 1] == ticks[j];
      forall k | 0 <= k < j - 1 ensures id !in rest[k].page { assert rest[k] == ticks[k + 1]; }
      NextFire(Ticked(t, ticks[0].now, ticks[0].page, ticks[0].world), rest, id, j - 1);
    }
  }

  /** Between two consecutive fires of a schedule lies one of its occurrences: however long the hub
      was away, what was missed collapses into one fire. */
  lemma {:induction false} ConsecutiveFires(t: Table, ticks: seq<Tick>, id: nat, i: nat, j: nat) returns (at: nat)
    requires Valid(t) && IsRun(t, ticks) && id in t && i < j < |ticks|
    requires id in ticks[i].page && id in ticks[j].page && forall k :: i < k < j ==> id !in ticks[k].page
    ensures ticks[i].now < at <= ticks[j].now && Occurs(t[id].spec, ticks[i].now, at)
    decreases i
  {
    var next := Ticked(t, ticks[0].now, ticks[0].page, ticks[0].world);
    var rest := ticks[1..];
    forall k | 0 <= k < |rest| ensures rest[k] == ticks[k + 1] {}
    if i == 0 {
      NextFire(next, rest, id, j - 1);
      at := next[id].nextRunAt.value;
    } else {
      at := ConsecutiveFires(next, rest, id, i - 1, j - 1);
    }
  }

  /** Two fires of an interval schedule are at least the interval apart. */
  lemma IntervalFiresApart(t: Table, ticks: seq<Tick>, id: nat, i: nat, j: nat)
    requires Valid(t) && IsRun(t, ticks) && id in t && t[id].spec.Interval? && i < j < |ticks|
    requires id in ticks[i].page && id in ticks[j].page && forall k :: i < k < j ==> id !in ticks[k].page
    ensures ticks[j].now - ticks[i].now >= t[id].spec.micros
  {
    var at := ConsecutiveFires(t, ticks, id, i, j);
  }

  /** A one-time schedule armed for its instant, or for nothing, fires at most once. */
  lemma {:induction false} OnceFiresOnce(t: Table, ticks: seq<Tick>, id: nat, i: nat, j: nat)
    requires Valid(t) && IsRun(t, ticks) && id in t && t[id].spec.Once? && i < |ticks| && j < |ticks|
    requires t[id].nextRunAt in {None, Some(t[id].spec.instant)}
    requires id in ticks[i].page && id in ticks[j].page
    ensures i == j
    decreases i + j
  {
    var next := Ticked(t, ticks[0].now, ticks[0].page, ticks[0].world);
    var rest := ticks[1..];
    if i > 0 && j > 0 {
      OnceFiresOnce(next, rest, id, i - 1, j - 1);
    } else if i != j {
      var k := if i == 0 then j else i;
      assert rest[k - 1] == ticks[k];
      UnarmedNeverFires(next, rest, id, k - 1);
    }
  }

  lemma {:induction false} UnarmedNeverFires(t: Table, ticks: seq<Tick>, id: nat, k: nat)
    requires Valid(t) && IsRun(t, ticks) && id in t && t[id].nextRunAt == None && k < |ticks|
    ensures id !in ticks[k].page
    decreases k
  {
    if k > 0 {
      assert ticks[1..][k - 1] == ticks[k];
      UnarmedNeverFires(Ticked(t, ticks[0].now, ticks[0].page, ticks[0].world), ticks[1..], id, k - 1);
    }
  }

  // ---- who fires ----

  /** A disabled schedule never fires, in any run. */
  lemma {:induction false} DisabledNeverFires(t: Table, ticks: seq<Tick>, id: nat, k: nat)
    requires Valid(t) && IsRun(t, ticks) && id in t && !t[id].enabled && k < |ticks|
    ensures id !in ticks[k].page
    decreases k
  {
    if k > 0 {
      assert ticks[1..][k - 1] == ticks[k];
      DisabledNeverFires(Ticked(t, ticks[0].now, ticks[0].page, ticks[0].world), ticks[1..], id, k - 1);
    }
  }

  lemma PageHoldsAll(t: Table, now: nat, page: seq<nat>, id: nat)
    requires IsPage(t, now, page) && id in t && |Due(t, now)| <= 100
    requires t[id].enabled && t[id].nextRunAt.Some? && t[id].nextRunAt.value <= now
    ensures id in page
  {
    DistinctCardinality(page);
    assert Elements(page) <= Due(t, now);
    SubsetCardinality(Elements(page), Due(t, now));
  }

  /** The run up to a tick. */
  lemma RunBefore(t: Table, ticks: seq<Tick>, k: nat)
    requires Valid(t) && 0 < k <= |ticks|
    ensures Run(t, ticks[..k]) ==
            Run(Ticked(t, ticks[0].now, ticks[0].page, ticks[0].world), ticks[1..][..k - 1])
  {
    assert ticks[..k][1..] == ticks[1..][..k - 1];
  }

  /** A tick before the instant a schedule is armed for leaves it as it is. */
  lemma TooEarly(t: Table, ticks: seq<Tick>, id: nat, next: Table)
    requires Valid(t) && IsRun(t, ticks) && ticks != [] && id in t && t[id].nextRunAt.Some?
    requires ticks[0].now < t[id].nextRunAt.value
    requires next == Ticked(t, ticks[0].now, ticks[0].page, ticks[0].world)
    ensures id !in ticks[0].page && Valid(next) && IsRun(next, ticks[1..]) && id in next && next[id] == t[id]
  {}

  lemma FirstTickFires(t: Table, ticks: seq<Tick>, id: nat)
    requires Valid(t) && IsRun(t, ticks) && id in t && t[id].enabled && t[id].nextRunAt.Some? && ticks != []
    requires ticks[0].now >= t[id].nextRunAt.value && |Due(t, ticks[0].now)| <= 100
    ensures id in ticks[0].page
  {
    PageHoldsAll(t, ticks[0].now, ticks[0].page, id);
  }

  /** An enabled schedule fires in the first tick at or after the instant it is armed for, and in none before,
      when at most 100 schedules are due then. */
  lemma ArmedFires(t: Table, ticks: seq<Tick>, id: nat, k: nat)
    requires Valid(t) && IsRun(t, ticks) && id in t && t[id].enabled && t[id].nextRunAt.Some? && k < |ticks|
    requires forall j :: 0 <= j < k ==> ticks[j].now < t[id].nextRunAt.value
    requires ticks[k].now >= t[id].nextRunAt.value && |Due(Run(t, ticks[..k]), ticks[k].now)| <= 100
    ensures id in ticks[k].page && forall j :: 0 <= j < k ==> id !in ticks[j].page
  {
    FiresWhenReached(t, ticks, id, k, Run(t, ticks[..k]));
    forall j | 0 <= j < k ensures id !in ticks[j].page {
      NeverEarly(t, ticks, id, j);
    }
  }

  lemma {:induction false} FiresWhenReached(t: Table, ticks: seq<Tick>, id: nat, k: nat, reached: Table)
    requires Valid(t) && IsRun(t, ticks) && id in t && t[id].enabled && t[id].nextRunAt.Some? && k < |ticks|
    requires forall j :: 0 <= j < k ==> ticks[j].now < t[id].nextRunAt.value
    requires reached == Run(t, ticks[..k]) && ticks[k].now >= t[id].nextRunAt.value && |Due(reached, ticks[k].now)| <= 100
    ensures id in ticks[k].page
    decreases k
  {
    if k == 0 {
      assert ticks[..0] == [];
      FirstTickFires(t, ticks, id);
    } else {
      var next := Ticked(t, ticks[0].now, ticks[0].page, ticks[0].world);
      RunBefore(t, ticks, k);
      TooEarly(t, ticks, id, next);
      FiresWhenReached(next, ticks[1..], id, k - 1, reached);
    }
  }

  lemma {:induction false} NeverEarly(t: Table, ticks: seq<Tick>, id: nat, k: nat)
    requires Valid(t) && IsRun(t, ticks) && id in t && t[id].nextRunAt.Some? && k < |ticks|
    requires forall j :: 0 <= j <= k ==> ticks[j].now < t[id].nextRunAt.value
    ensures id !in ticks[k].page
    decreases k
  {
    var next := Ticked(t, ticks[0].now, ticks[0].page, ticks[0].world);
    TooEarly(t, ticks, id, next);
    if k > 0 { NeverEarly(next, ticks[1..], id, k - 1); }
  }

  /** A one-time schedule armed for its instant fires in the first tick at or after it and in no other. */
  lemma OnceFiresExactlyOnce(t: Table, ticks: seq<Tick>, id: nat, k: nat)
    requires Valid(t) && IsRun(t, ticks) && id in t && t[id].enabled && t[id].spec.Once? && k < |ticks|
    requires t[id].nextRunAt == Some(t[id].spec.instant)
    requires forall j :: 0 <= j < k ==> ticks[j].now < t[id].spec.instant
    requires ticks[k].now >= t[id].spec.instant && |Due(Run(t, ticks[..k]), ticks[k].now)| <= 100
    ensures forall j :: 0 <= j < |ticks| ==> (id in ticks[j].page <==> j == k)
  {
    ArmedFires(t, ticks, id, k);
    forall j | 0 <= j < |ticks| && id in ticks[j].page ensures j == k {
      OnceFiresOnce(t, ticks, id, j, k);
    }
  }

  lemma TickedArms(t: Table, tick: Tick, id: nat)
    requires Valid(t) && id in t
    ensures var after := Ticked(t, tick.now, tick.page, tick.world);
            && Valid(after) && id in after && after[id].spec == t[id].spec && after[id].enabled == t[id].enabled
            && (id in tick.page && t[id].spec.Interval? ==> after[id].nextRunAt == Some(tick.now + t[id].spec.micros))
  {}

  lemma IntervalArmed(t: Table, ticks: seq<Tick>, id: nat, after: Table)
    requires Valid(t) && IsRun(t, ticks) && ticks != [] && id in t && t[id].spec.Interval? && id in ticks[0].page
    requires after == Ticked(t, ticks[0].now, ticks[0].page, ticks[0].world)
    ensures Valid(after) && IsRun(after, ticks[1..]) && id in after && after[id].enabled
    ensures after[id].nextRunAt == Some(ticks[0].now + t[id].spec.micros)
  {
    TickedArms(t, ticks[0], id);
  }

  lemma FirstTickTaken(t: Table, ticks: seq<Tick>, id: nat, next: Table)
    requires Valid(t) && IsRun(t, ticks) && ticks != [] && id in t
    requires next == Ticked(t, ticks[0].now, ticks[0].page, ticks[0].world)
    ensures Valid(next) && IsRun(next, ticks[1..]) && id in next && next[id].spec == t[id].spec
  {
    TickedArms(t, ticks[0], id);
  }

  /** After a fire an interval schedule fires again in the first tick at least the interval later. */
  lemma IntervalFiresAgain(t: Table, ticks: seq<Tick>, id: nat, i: nat, k: nat)
    requires Valid(t) && IsRun(t, ticks) && id in t && t[id].spec.Interval? && i < k < |ticks| && id in ticks[i].page
    requires forall j :: i < j < k ==> ticks[j].now < ticks[i].now + t[id].spec.micros
    requires ticks[k].now >= ticks[i].now + t[id].spec.micros && |Due(Run(t, ticks[..k]), ticks[k].now)| <= 100
    ensures id in ticks[k].page
  {
    FiresAfterInterval(t, ticks, id, i, k, ticks[i].now + t[id].spec.micros, Run(t, ticks[..k]));
  }

  /** No tick between the two positions reaches an instant. */
  ghost predicate NotYet(ticks: seq<Tick>, i: nat, k: nat, instant: nat) {
    forall j :: i <= j < k && j < |ticks| ==> ticks[j].now < instant
  }

  lemma NotYetRest(ticks: seq<Tick>, i: nat, k: nat, instant: nat)
    requires NotYet(ticks, i, k, instant) && 0 < i <= k <= |ticks|
    ensures NotYet(ticks[1..], i - 1, k - 1, instant)
  {}

  lemma {:induction false} FiresAfterInterval(t: Table, ticks: seq<Tick>, id: nat, i: nat, k: nat, armed: nat, reached: Table)
    requires Valid(t) && IsRun(t, ticks) && id in t && t[id].spec.Interval? && i < k < |ticks| && id in ticks[i].page
    requires armed == ticks[i].now + t[id].spec.micros && NotYet(ticks, i + 1, k, armed) && ticks[k].now >= armed
    requires reached == Run(t, ticks[..k]) && |Due(reached, ticks[k].now)| <= 100
    ensures id in ticks[k].page
    decreases i
  {
    var next := Ticked(t, ticks[0].now, ticks[0].page, ticks[0].world);
    RunBefore(t, ticks, k);
    NotYetRest(ticks, i + 1, k, armed);
    if i == 0 {
      IntervalArmed(t, ticks, id, next);
      FiresWhenReached(next, ticks[1..], id, k - 1, reached);
    } else {
      FirstTickTaken(t, ticks, id, next);
      FiresAfterInterval(next, ticks[1..], id, i - 1, k - 1, armed, reached);
    }
  }

  // ---- cron schedules and the horizon ----

  /** A cron schedule gets a next run from every instant exactly when its weekday field is
      restricted or some permitted month and day exists in every year. */
  lemma CronRearmsIff(e: Expr)
    requires Proper(e)
    ensures (forall now: nat :: NextRun(OnCron(e), now).Some?) <==> e.dowRestricted || HasYearlyDay(e)
  {
    if e.dowRestricted || HasYearlyDay(e) {
      AlwaysAnsweredIff(e);
    } else {
      QuietMinuteUnanswered(e);
      var now: nat := (QUIET_MINUTE - 1) * MICROS_PER_MINUTE;
      assert FirstMinute(now) == QUIET_MINUTE;
      assert NextRun(OnCron(e), now) == None;
    }
  }

  /** Such a schedule, once armed, stays armed over every run of ticks. */
  lemma {:induction false} CronStaysArmed(t: Table, ticks: seq<Tick>, id: nat, e: Expr)
    requires Valid(t) && IsRun(t, ticks) && id in t && t[id].spec == OnCron(e) && t[id].nextRunAt.Some?
    requires Proper(e) && (e.dowRestricted || HasYearlyDay(e))
    ensures Run(t, ticks)[id].nextRunAt.Some?
    decreases |ticks|
  {
    if ticks != [] {
      CronRearmsIff(e);
      CronStaysArmed(Ticked(t, ticks[0].now, ticks[0].page, ticks[0].world), ticks[1..], id, e);
    }
  }

  /** A schedule for "0 0 29 2 *" that fires on a leap day never fires again: no later tick of any
      run, however many years on, has it on its page. */
  lemma {:induction false} LeapDayScheduleFiresOnce(t: Table, ticks: seq<Tick>, id: nat, i: nat, j: nat)
    requires Valid(t) && IsRun(t, ticks) && id in t && t[id].spec == OnCron(LeapDayExpression()) && i < j < |ticks|
    requires id in ticks[i].page && IsLeapDay(ticks[i].now / MICROS_PER_MINUTE / MINUTES_PER_DAY)
    ensures id !in ticks[j].page
    decreases i
  {
    var next := Ticked(t, ticks[0].now, ticks[0].page, ticks[0].world);
    var rest := ticks[1..];
    assert rest[j - 1] == ticks[j];
    if i == 0 {
      LeapDayIsTheLast(ticks[0].now);
      UnarmedNeverFires(next, rest, id, j - 1);
    } else {
      assert rest[i - 1] == ticks[i];
      LeapDayScheduleFiresOnce(next, rest, id, i - 1, j - 1);
    }
  }

  // ---- no schedule starves ----

  /** The enabled schedules armed no later than this one. */
  ghost function Ahead(t: Table, id: nat): set<nat>
    requires id in t && t[id].nextRunAt.Some?
  {
    set other | other in t && DueAt(t[other], t[id].nextRunAt.value)
  }

  /** A tick that passes a due schedule over serves a full page of schedules ahead of it and arms none of them ahead of it again. */
  lemma PassedOver(t: Table, now: nat, page: seq<nat>, w: World, id: nat)
    requires Valid(t) && IsPage(t, now, page) && id in Due(t, now) && id !in page
    ensures Ticked(t, now, page, w)[id] == t[id]
    ensures |Ahead(Ticked(t, now, page, w), id)| == |Ahead(t, id)| - LIMIT
  {
    var after := Ticked(t, now, page, w);
    DistinctCardinality(page);
    if |page| < LIMIT {
      SubsetCardinality(Elements(page), Due(t, now));
    }
    assert Elements(page) <= Ahead(t, id);
    assert Ahead(after, id) == Ahead(t, id) - Elements(page);
    assert |Ahead(t, id) - Elements(page)| == |Ahead(t, id)| - |Elements(page)|;
  }

  /** A due schedule with at most 100 * n schedules ahead of it, itself included, fires within n ticks. */
  lemma {:induction false} NoStarvation(t: Table, ticks: seq<Tick>, id: nat, n: nat) returns (k: nat)
    requires Valid(t) && IsRun(t, ticks) && id in t && ticks != [] && id in Due(t, ticks[0].now)
    requires |Ahead(t, id)| <= LIMIT * n && n <= |ticks|
    ensures k < n && id in ticks[k].page
    decreases n
  {
    assert id in Ahead(t, id);
    if id in ticks[0].page {
      k := 0;
    } else {
      PassedOver(t, ticks[0].now, ticks[0].page, ticks[0].world, id);
      var next := Ticked(t, ticks[0].now, ticks[0].page, ticks[0].world);
      assert id in Ahead(next, id);
      k := NoStarvation(next, ticks[1..], id, n - 1);
      assert ticks[1..][k] == ticks[k + 1];
      k := k + 1;
    }
  }
}
