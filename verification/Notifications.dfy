/** Triage notifications: one thread per user and subject, delivery gates, mute, collapse and reopening. */
module Notifications {
  import opened Basics

  /** Relevance of a reason when threads collapse; unknown reasons count 1. */
  const PRIORITY: map<string, nat> := map[
    "system" := 0, "subscribed" := 1, "participating" := 1, "state_change" := 1, "autorespond_completed" := 1,
    "autorespond_blocked" := 2, "direct_message" := 2, "task_assigned" := 3, "broadcast" := 3, "team_mention" := 4,
    "mention" := 5, "escalation" := 5, "approval_requested" := 6, "security_alert" := 7]

  const HIGH_SIGNAL: set<string> :=
    {"mention", "team_mention", "approval_requested", "broadcast", "security_alert", "escalation"}

  const ALWAYS_DELIVER: set<string> := {"mention", "approval_requested", "security_alert"}

  const DELIVER_AT_DEFAULT: set<string> :=
    ALWAYS_DELIVER + {"team_mention", "direct_message", "task_assigned", "escalation"}

  const NOTIFY_LEVELS: set<string> := {"all", "mentions_and_direct", "mute"}

  const DEFAULT_NOTIFY_LEVEL := "mentions_and_direct"

  const SUBSCRIPTION_STATES: set<string> := {"subscribed", "ignored"}

  /** Times are in microseconds. */
  const HOUR: int := 3_600_000_000

  const DAY: int := 24 * HOUR

  datatype Status = Inbox | Saved | Done

  datatype Row = Row(user: nat, kind: string, subject: string, agent: Option<string>, reason: string, title: string,
                     link: string, actor: string, unread: bool, status: Status,
                     createdAt: int, updatedAt: int, lastReadAt: Option<int>)

  datatype Subscription = Subscription(state: string, reason: Option<string>)

  /** Users that exist have a level. */
  datatype Inboxes = Inboxes(rows: map<nat, Row>, subscriptions: map<(nat, string), Subscription>, levels: map<nat, string>,
                             now: int)

  /** `gated`: the service knows the users' levels. A cap of zero or less means none. */
  datatype Config = Config(gated: bool, maxNewPerHour: int)

  datatype Notice = Notice(user: nat, kind: string, subject: string, reason: string, title: string, link: string,
                           actor: string, agent: Option<string>)

  function Priority(reason: string): nat {
    if reason in PRIORITY then PRIORITY[reason] else 1
  }

  function ShouldDeliver(level: string, reason: string): bool {
    if level == "all" then true
    else if level == "mute" then reason in ALWAYS_DELIVER
    else reason in DELIVER_AT_DEFAULT
  }

  function LevelOf(s: Inboxes, user: nat): string {
    if user in s.levels then s.levels[user] else DEFAULT_NOTIFY_LEVEL
  }

  predicate Muted(s: Inboxes, user: nat, subject: string) {
    (user, subject) in s.subscriptions && s.subscriptions[(user, subject)].state == "ignored"
  }

  /** Both gates: the user's level, and the thread's mute that only always-delivered reasons pass. */
  predicate Passes(s: Inboxes, c: Config, n: Notice) {
    && (!c.gated || ShouldDeliver(LevelOf(s, n.user), n.reason))
    && (!Muted(s, n.user, n.subject) || n.reason in ALWAYS_DELIVER)
  }

  predicate IsThread(rows: map<nat, Row>, id: nat, user: nat, subject: string) {
    id in rows && rows[id].user == user && rows[id].subject == subject
  }

  function CreatedSince(rows: map<nat, Row>, user: nat, since: int): set<nat> {
    set id | id in rows && rows[id].user == user && rows[id].createdAt >= since
  }

  predicate Capped(rows: map<nat, Row>, c: Config, user: nat, now: int) {
    c.maxNewPerHour > 0 && |CreatedSince(rows, user, now - HOUR)| >= c.maxNewPerHour
  }

  function Upserted(subscriptions: map<(nat, string), Subscription>, user: nat, subject: string, state: string,
                    reason: Option<string>): map<(nat, string), Subscription> {
    var kept := if reason == None && (user, subject) in subscriptions then subscriptions[(user, subject)].reason else reason;
    subscriptions[(user, subject) := Subscription(state, kept)]
  }

  function NewRow(n: Notice, now: int): Row {
    Row(n.user, n.kind, n.subject, n.agent, n.reason, n.title, n.link, n.actor, true, Inbox, now, now, None)
  }

  function Collapsed(r: Row, n: Notice, now: int): Row {
    r.(title := n.title, actor := n.actor, link := n.link, agent := if n.agent.Some? then n.agent else r.agent,
       reason := if Priority(n.reason) >= Priority(r.reason) then n.reason else r.reason,
       unread := true, status := if r.status == Done then Inbox else r.status, updatedAt := now)
  }

  /** What a notice does to the rows once it passed the gates; a new thread gets the given id. */
  ghost function Posted(rows: map<nat, Row>, c: Config, id: nat, n: Notice, now: int): (map<nat, Row>, Option<nat>) {
    if !exists t :: IsThread(rows, t, n.user, n.subject) then
      if n.reason !in ALWAYS_DELIVER && Capped(rows, c, n.user, now) then (rows, None)
      else (rows[id := NewRow(n, now)], Some(id))
    else
      var t :| IsThread(rows, t, n.user, n.subject);
      if rows[t].status == Done && n.reason !in HIGH_SIGNAL then (rows, None)
      else (rows[t := Collapsed(rows[t], n, now)], Some(t))
  }

  ghost function Notified(s: Inboxes, c: Config, id: nat, n: Notice): (Inboxes, Option<nat>) {
    if !Passes(s, c, n) then (s, None)
    else
      var posted := Posted(s.rows, c, id, n, s.now);
      (s.(rows := posted.0,
          subscriptions := if Muted(s, n.user, n.subject)
                           then Upserted(s.subscriptions, n.user, n.subject, "subscribed", Some(n.reason))
                           else s.subscriptions),
       posted.1)
  }

  datatype Failure = NotFound | InvalidInput

  /** A row of another user is as good as missing. */
  function Triaged(s: Inboxes, user: nat, id: nat, unread: Option<bool>, status: Option<Status>): (Inboxes, Option<Failure>) {
    if id !in s.rows || s.rows[id].user != user then (s, Some(NotFound))
    else
      var r := s.rows[id];
      var read := if unread.Some? then r.(unread := unread.value, lastReadAt := if unread.value then r.lastReadAt else Some(s.now)) else r;
      (s.(rows := s.rows[id := if status.Some? then read.(status := status.value) else read]), None)
  }

  function AllRead(s: Inboxes, user: nat): Inboxes {
    s.(rows := map id | id in s.rows ::
         if s.rows[id].user == user && s.rows[id].unread then s.rows[id].(unread := false, lastReadAt := Some(s.now)) else s.rows[id])
  }

  predicate Stale(s: Inboxes, ttlDays: int, id: nat)
    requires id in s.rows
  {
    ttlDays > 0 && s.rows[id].status == Done && s.rows[id].updatedAt < s.now - ttlDays * DAY
  }

  function Pruned(s: Inboxes, ttlDays: int): Inboxes {
    s.(rows := map id | id in s.rows && !Stale(s, ttlDays, id) :: s.rows[id])
  }

  datatype Op =
    | Notify(id: nat, notice: Notice)
    | Triage(who: nat, target: nat, unread: Option<bool>, status: Option<Status>)
    | Subscribe(who: nat, subject: string, state: string)
    | SetLevel(who: nat, level: string)
    | MarkAllRead(who: nat)
    | Prune(ttlDays: int)
    | Wait(until: int)

  predicate Enabled(s: Inboxes, op: Op) {
    match op
    case Notify(id, _) => id !in s.rows
    case SetLevel(who, _) => who in s.levels
    case Wait(until) => until >= s.now
    case _ => true
  }

  ghost function Step(s: Inboxes, c: Config, op: Op): Inboxes {
    match op
    case Notify(id, n) => Notified(s, c, id, n).0
    case Triage(who, id, unread, status) => Triaged(s, who, id, unread, status).0
    case Subscribe(who, subject, state) =>
      if state !in SUBSCRIPTION_STATES then s else s.(subscriptions := Upserted(s.subscriptions, who, subject, state, None))
    case SetLevel(who, level) => if level !in NOTIFY_LEVELS then s else s.(levels := s.levels[who := level])
    case MarkAllRead(who) => AllRead(s, who)
    case Prune(ttlDays) => Pruned(s, ttlDays)
    case Wait(until) => s.(now := until)
  }

  ghost predicate IsRun(s: Inboxes, c: Config, ops: seq<Op>)
    decreases |ops|
  {
    ops == [] || (Enabled(s, ops[0]) && IsRun(Step(s, c, ops[0]), c, ops[1..]))
  }

  ghost function Run(s: Inboxes, c: Config, ops: seq<Op>): Inboxes
    decreases |ops|
  {
    if ops == [] then s else Run(Step(s, c, ops[0]), c, ops[1..])
  }

  // ---- invariants ----

  /** One row per user and subject, so the lookup never finds two. */
  ghost predicate OneRow(rows: map<nat, Row>) {
    forall a, b, user, subject :: IsThread(rows, a, user, subject) && IsThread(rows, b, user, subject) ==> a == b
  }

  ghost predicate Dated(rows: map<nat, Row>, now: int) {
    forall id :: id in rows ==> rows[id].createdAt <= rows[id].updatedAt <= now
  }

  ghost predicate Valid(s: Inboxes) {
    OneRow(s.rows) && Dated(s.rows, s.now)
  }

  lemma PostedShape(rows: map<nat, Row>, c: Config, id: nat, n: Notice, now: int, after: map<nat, Row>)
    requires after == Posted(rows, c, id, n, now).0 && id !in rows
    ensures || after == rows
            || (after == rows[id := NewRow(n, now)] && !(exists t :: IsThread(rows, t, n.user, n.subject)))
            || exists t :: IsThread(rows, t, n.user, n.subject) && after == rows[t := Collapsed(rows[t], n, now)]
                           && (rows[t].status == Done ==> n.reason in HIGH_SIGNAL)
  {}

  lemma PostKeepsValid(rows: map<nat, Row>, c: Config, id: nat, n: Notice, now: int, after: map<nat, Row>)
    requires OneRow(rows) && Dated(rows, now) && id !in rows && after == Posted(rows, c, id, n, now).0
    ensures OneRow(after) && Dated(after, now)
  {
    PostedShape(rows, c, id, n, now, after);
    forall a, b, user, subject | IsThread(after, a, user, subject) && IsThread(after, b, user, subject) ensures a == b {
      assert a in rows ==> IsThread(rows, a, user, subject);
      assert b in rows ==> IsThread(rows, b, user, subject);
    }
  }

  /** The same threads or fewer, with the same dates. */
  ghost predicate SameThreads(before: map<nat, Row>, after: map<nat, Row>) {
    forall id :: id in after ==>
      && id in before && after[id].user == before[id].user && after[id].subject == before[id].subject
      && after[id].createdAt == before[id].createdAt && after[id].updatedAt == before[id].updatedAt
      && after[id].reason == before[id].reason
  }

  lemma FewerKeepValid(before: map<nat, Row>, after: map<nat, Row>, now: int, later: int)
    requires SameThreads(before, after) && OneRow(before) && Dated(before, now) && now <= later
    ensures OneRow(after) && Dated(after, later)
  {
    forall a, b, user, subject | IsThread(after, a, user, subject) && IsThread(after, b, user, subject) ensures a == b {
      assert IsThread(before, a, user, subject) && IsThread(before, b, user, subject);
    }
  }

  lemma TriageKeepsThreads(s: Inboxes, user: nat, id: nat, unread: Option<bool>, status: Option<Status>)
    ensures SameThreads(s.rows, Triaged(s, user, id, unread, status).0.rows)
    ensures s.rows.Keys == Triaged(s, user, id, unread, status).0.rows.Keys
    ensures Triaged(s, user, id, unread, status).0.now == s.now
  {}

  lemma ReadKeepsThreads(s: Inboxes, user: nat)
    ensures SameThreads(s.rows, AllRead(s, user).rows) && s.rows.Keys == AllRead(s, user).rows.Keys
  {}

  lemma PruneKeepsThreads(s: Inboxes, ttlDays: int)
    ensures SameThreads(s.rows, Pruned(s, ttlDays).rows)
  {}

  lemma OtherStepsKeepThreads(s: Inboxes, c: Config, op: Op, after: Inboxes)
    requires !op.Notify? && Enabled(s, op) && after == Step(s, c, op)
    ensures SameThreads(s.rows, after.rows) && s.now <= after.now
    ensures !op.Prune? ==> s.rows.Keys == after.rows.Keys
  {
    match op
    case Triage(who, id, unread, status) => TriageKeepsThreads(s, who, id, unread, status);
    case MarkAllRead(who) => ReadKeepsThreads(s, who);
    case Prune(ttlDays) => PruneKeepsThreads(s, ttlDays);
    case _ =>
  }

  lemma StepKeepsValid(s: Inboxes, c: Config, op: Op, after: Inboxes)
    requires Valid(s) && Enabled(s, op) && after == Step(s, c, op)
    ensures Valid(after)
  {
    if op.Notify? {
      if Passes(s, c, op.notice) { PostKeepsValid(s.rows, c, op.id, op.notice, s.now, after.rows); }
    } else {
      OtherStepsKeepThreads(s, c, op, after);
      FewerKeepValid(s.rows, after.rows, s.now, after.now);
    }
  }

  /** No run ever puts two rows under one user and subject. */
  lemma {:induction false} OneRowPerSubject(s: Inboxes, c: Config, ops: seq<Op>)
    requires Valid(s) && IsRun(s, c, ops)
    ensures Valid(Run(s, c, ops))
    decreases |ops|
  {
    if ops != [] {
      StepKeepsValid(s, c, ops[0], Step(s, c, ops[0]));
      OneRowPerSubject(Step(s, c, ops[0]), c, ops[1..]);
    }
  }

  // ---- priority, reopening, delivery ----

  ghost predicate Alive(s: Inboxes, c: Config, ops: seq<Op>, id: nat)
    decreases |ops|
  {
    id in s.rows && (ops == [] || Alive(Step(s, c, ops[0]), c, ops[1..], id))
  }

  lemma StepKeepsPriority(s: Inboxes, c: Config, op: Op, after: Inboxes, id: nat)
    requires Enabled(s, op) && after == Step(s, c, op) && id in s.rows && id in after.rows
    ensures Priority(after.rows[id].reason) >= Priority(s.rows[id].reason)
  {
    if op.Notify? {
      if Passes(s, c, op.notice) { PostedShape(s.rows, c, op.id, op.notice, s.now, after.rows); }
    } else {
      OtherStepsKeepThreads(s, c, op, after);
    }
  }

  /** As long as a row lives its reason never loses relevance. */
  lemma {:induction false} PriorityNeverDrops(s: Inboxes, c: Config, ops: seq<Op>, id: nat)
    requires IsRun(s, c, ops) && Alive(s, c, ops, id)
    ensures id in Run(s, c, ops).rows && Priority(Run(s, c, ops).rows[id].reason) >= Priority(s.rows[id].reason)
    decreases |ops|
  {
    if ops != [] {
      StepKeepsPriority(s, c, ops[0], Step(s, c, ops[0]), id);
      PriorityNeverDrops(Step(s, c, ops[0]), c, ops[1..], id);
    }
  }

  /** The level of a user lets a reason through: mentions, approval requests and security alerts pass
      every level, a muted user gets nothing else, a user who wants everything gets everything, and
      any other level, or none, adds what is addressed to the user's team or agents. */
  ghost predicate LevelAllows(levels: map<nat, string>, user: nat, reason: string) {
    || reason in {"mention", "approval_requested", "security_alert"}
    || (user in levels && levels[user] == "all")
    || (reason in {"team_mention", "direct_message", "task_assigned", "escalation"} &&
        (user !in levels || levels[user] != "mute"))
  }

  /** A notice is due to get through: the level allows it, the subject is not muted or the reason passes
      mutes, and it finds a row that is not done or that it may reopen, or starts one within the cap. */
  ghost predicate GetsThrough(s: Inboxes, c: Config, n: Notice) {
    && (c.gated ==> LevelAllows(s.levels, n.user, n.reason))
    && ((n.user, n.subject) in s.subscriptions && s.subscriptions[(n.user, n.subject)].state == "ignored" ==>
          n.reason in {"mention", "approval_requested", "security_alert"})
    && (if exists t :: t in s.rows && s.rows[t].user == n.user && s.rows[t].subject == n.subject then
          exists t :: t in s.rows && s.rows[t].user == n.user && s.rows[t].subject == n.subject &&
            (s.rows[t].status != Done ||
             n.reason in {"mention", "team_mention", "approval_requested", "broadcast", "security_alert", "escalation"})
        else
          || n.reason in {"mention", "approval_requested", "security_alert"}
          || c.maxNewPerHour <= 0
          || |set t | t in s.rows && s.rows[t].user == n.user && s.rows[t].createdAt >= s.now - 3_600_000_000| < c.maxNewPerHour)
  }

  lemma PassesIff(s: Inboxes, c: Config, n: Notice)
    ensures Passes(s, c, n) <==>
              && (c.gated ==> LevelAllows(s.levels, n.user, n.reason))
              && ((n.user, n.subject) in s.subscriptions && s.subscriptions[(n.user, n.subject)].state == "ignored" ==>
                    n.reason in {"mention", "approval_requested", "security_alert"})
  {}

  lemma CappedIff(rows: map<nat, Row>, c: Config, user: nat, now: int)
    ensures Capped(rows, c, user, now) <==>
              c.maxNewPerHour > 0 &&
              |set t | t in rows && rows[t].user == user && rows[t].createdAt >= now - 3_600_000_000| >= c.maxNewPerHour
  {
    assert CreatedSince(rows, user, now - HOUR) ==
           set t | t in rows && rows[t].user == user && rows[t].createdAt >= now - 3_600_000_000;
  }

  /** The subject of a notice has a row exactly when some row of the user has that subject. */
  lemma ThreadExistsIff(rows: map<nat, Row>, user: nat, subject: string)
    ensures (exists t :: IsThread(rows, t, user, subject)) <==>
            (exists t :: t in rows && rows[t].user == user && rows[t].subject == subject)
  {
    if t :| t in rows && rows[t].user == user && rows[t].subject == subject { assert IsThread(rows, t, user, subject); }
  }

  /** A notice gets through exactly when its level, its mute, its row and the cap allow it. */
  lemma DeliveredIff(s: Inboxes, c: Config, id: nat, n: Notice)
    requires Valid(s) && id !in s.rows
    ensures Notified(s, c, id, n).1.Some? <==> GetsThrough(s, c, n)
  {
    PassesIff(s, c, n);
    CappedIff(s.rows, c, n.user, s.now);
    ThreadExistsIff(s.rows, n.user, n.subject);
    forall a, b | a in s.rows && b in s.rows && s.rows[a].user == s.rows[b].user && s.rows[a].subject == s.rows[b].subject
      ensures a == b
    {
      assert IsThread(s.rows, a, s.rows[a].user, s.rows[a].subject) && IsThread(s.rows, b, s.rows[a].user, s.rows[a].subject);
    }
  }

  /** The relevance of the reasons, from the most relevant to the least. */
  lemma RelevanceOfReasons(reason: string)
    ensures Priority(reason) ==
              if reason == "security_alert" then 7
              else if reason == "approval_requested" then 6
              else if reason in {"mention", "escalation"} then 5
              else if reason == "team_mention" then 4
              else if reason in {"task_assigned", "broadcast"} then 3
              else if reason in {"direct_message", "autorespond_blocked"} then 2
              else if reason == "system" then 0 else 1
  {}

  /** A done thread comes back exactly when its owner triages it so or a notice on its subject gets through. */
  lemma DoneIsLeftOnlyBy(s: Inboxes, c: Config, op: Op, after: Inboxes, id: nat)
    requires Valid(s) && Enabled(s, op) && after == Step(s, c, op)
    requires id in s.rows && s.rows[id].status == Done && id in after.rows
    ensures var r := s.rows[id];
            after.rows[id].status != Done <==>
              || (op.Triage? && op.target == id && op.who == r.user && op.status.Some? && op.status.value != Done)
              || (op.Notify? && op.notice.user == r.user && op.notice.subject == r.subject && GetsThrough(s, c, op.notice))
  {
    if op.Notify? {
      var n := op.notice;
      DeliveredIff(s, c, op.id, n);
      if Passes(s, c, n) {
        PostedShape(s.rows, c, op.id, n, s.now, after.rows);
        assert IsThread(s.rows, id, s.rows[id].user, s.rows[id].subject);
      }
    }
  }

  /** A reason that is always delivered reaches the user whatever the level, the mute and the
      cap: its thread exists, unread, not done, not muted and at least as relevant. */
  lemma AlwaysDelivered(s: Inboxes, c: Config, id: nat, n: Notice)
    requires Valid(s) && id !in s.rows && n.reason in {"mention", "approval_requested", "security_alert"}
    ensures var (after, t) := Notified(s, c, id, n);
            && t.Some? && IsThread(after.rows, t.value, n.user, n.subject)
            && after.rows[t.value].unread && after.rows[t.value].status != Done
            && Priority(after.rows[t.value].reason) >= Priority(n.reason)
            && !Muted(after, n.user, n.subject)
  {
    assert Passes(s, c, n);
    assert n.reason in HIGH_SIGNAL;
  }

  /** The row of a notice that got through, exactly: a new one is unread in the inbox, an old one shows
      the latest title, actor and link, unread and not done, with the more relevant of the two reasons,
      the newer one if they are equally relevant, and keeps when and as what it started. */
  lemma RowShowsNotice(s: Inboxes, c: Config, id: nat, n: Notice, after: Inboxes, t: nat)
    requires Valid(s) && id !in s.rows && (after, Some(t)) == Notified(s, c, id, n)
    ensures t in after.rows && after.rows == s.rows[t := after.rows[t]]
    ensures t !in s.rows ==>
              t == id && after.rows[t] == Row(n.user, n.kind, n.subject, n.agent, n.reason, n.title, n.link,
                                              n.actor, true, Inbox, s.now, s.now, None)
    ensures t in s.rows ==> ShowsLatest(s.rows[t], after.rows[t], n, s.now)
  {}

  ghost predicate ShowsLatest(before: Row, after: Row, n: Notice, now: int) {
    && before.user == n.user && before.subject == n.subject
    && after.user == n.user && after.subject == n.subject && after.kind == before.kind
    && after.title == n.title && after.link == n.link && after.actor == n.actor
    && after.agent == (if n.agent.Some? then n.agent else before.agent)
    && after.reason == (if Priority(n.reason) < Priority(before.reason) then before.reason else n.reason)
    && after.unread && (before.status == Saved ==> after.status == Saved) && (before.status != Saved ==> after.status == Inbox)
    && after.createdAt == before.createdAt && after.updatedAt == now && after.lastReadAt == before.lastReadAt
  }

  /** A notice the gates stop changes nothing at all; one that passes them touches no other thread. */
  lemma NoticeIsLocal(s: Inboxes, c: Config, id: nat, n: Notice, other: nat)
    requires Valid(s) && id !in s.rows && other in s.rows && !IsThread(s.rows, other, n.user, n.subject)
    ensures var after := Notified(s, c, id, n).0;
            && other in after.rows && after.rows[other] == s.rows[other]
            && (Notified(s, c, id, n).1 == None ==> after.rows == s.rows)
            && (!Passes(s, c, n) ==> after == s)
  {
    if Passes(s, c, n) { PostedShape(s.rows, c, id, n, s.now, Notified(s, c, id, n).0.rows); }
  }

  /** The mute of a subject is lifted by an always-delivered notice; nothing else about preferences changes. */
  lemma NoticeUnmutes(s: Inboxes, c: Config, id: nat, n: Notice, after: Inboxes)
    requires Valid(s) && id !in s.rows && after == Notified(s, c, id, n).0
    ensures after.levels == s.levels && after.now == s.now
    ensures after.subscriptions ==
              if (n.user, n.subject) in s.subscriptions && s.subscriptions[(n.user, n.subject)].state == "ignored" &&
                 n.reason in {"mention", "approval_requested", "security_alert"}
              then s.subscriptions[(n.user, n.subject) := Subscription("subscribed", Some(n.reason))] else s.subscriptions
  {}

  /** A level takes effect at once, and a level that does not exist is refused. */
  lemma LevelTakesEffect(s: Inboxes, c: Config, who: nat, level: string, n: Notice, after: Inboxes)
    requires c.gated && who in s.levels && n.user == who && after == Step(s, c, SetLevel(who, level))
    ensures level == "mute" && GetsThrough(after, c, n) ==>
              n.reason in {"mention", "approval_requested", "security_alert"}
    ensures level == "mentions_and_direct" && GetsThrough(after, c, n) ==>
              n.reason in {"mention", "approval_requested", "security_alert",
                           "team_mention", "direct_message", "task_assigned", "escalation"}
    ensures level == "all" ==> (GetsThrough(after, c, n) <==> GetsThrough(s, c.(gated := false), n))
    ensures level !in {"all", "mentions_and_direct", "mute"} ==> after == s
  {}

  // ---- what stays until its owner deals with it ----

  /** A row that demands attention. */
  ghost predicate Pressing(s: Inboxes, id: nat) {
    && id in s.rows && s.rows[id].unread && s.rows[id].status != Done
    && !Muted(s, s.rows[id].user, s.rows[id].subject)
  }

  /** The calls by which the owner of a row deals with it: triage, reading everything, muting its subject. */
  predicate DealsWith(op: Op, id: nat, r: Row) {
    match op
    case Triage(who, target, _, _) => who == r.user && target == id
    case MarkAllRead(who) => who == r.user
    case Subscribe(who, subject, state) => who == r.user && subject == r.subject && state == "ignored"
    case _ => false
  }

  /** The same thread with a reason no less relevant. */
  ghost predicate SameThread(before: Row, after: Row) {
    && after.user == before.user && after.subject == before.subject
    && after.createdAt == before.createdAt && Priority(after.reason) >= Priority(before.reason)
  }

  lemma NoticeKeepsPressing(s: Inboxes, c: Config, op: Op, after: Inboxes, id: nat)
    requires Valid(s) && Enabled(s, op) && op.Notify? && after == Step(s, c, op) && Pressing(s, id)
    ensures Pressing(after, id) && SameThread(s.rows[id], after.rows[id])
  {
    if Passes(s, c, op.notice) { PostedShape(s.rows, c, op.id, op.notice, s.now, after.rows); }
  }

  lemma StepKeepsPressing(s: Inboxes, c: Config, op: Op, after: Inboxes, id: nat)
    requires Valid(s) && Enabled(s, op) && after == Step(s, c, op)
    requires Pressing(s, id) && !DealsWith(op, id, s.rows[id])
    ensures Pressing(after, id) && SameThread(s.rows[id], after.rows[id])
  {
    match op
    case Notify(_, _) => NoticeKeepsPressing(s, c, op, after, id);
    case Prune(ttlDays) => assert !Stale(s, ttlDays, id);
    case _ =>
  }

  ghost predicate LeavesAlone(ops: seq<Op>, id: nat, r: Row) {
    forall i :: 0 <= i < |ops| ==> !DealsWith(ops[i], id, r)
  }

  /** Over every run in which its owner does not deal with it, a row that demands attention lives on
      and keeps demanding it: no notice, sweep, preference or other user can take it away. */
  lemma {:induction false} PressingStays(s: Inboxes, c: Config, ops: seq<Op>, id: nat)
    requires Valid(s) && IsRun(s, c, ops) && Pressing(s, id) && LeavesAlone(ops, id, s.rows[id])
    ensures Pressing(Run(s, c, ops), id) && SameThread(s.rows[id], Run(s, c, ops).rows[id])
    decreases |ops|
  {
    if ops != [] {
      var next := Step(s, c, ops[0]);
      assert !DealsWith(ops[0], id, s.rows[id]);
      StepKeepsPressing(s, c, ops[0], next, id);
      StepKeepsValid(s, c, ops[0], next);
      assert LeavesAlone(ops[1..], id, next.rows[id]) by {
        forall i | 0 <= i < |ops| - 1 ensures !DealsWith(ops[1..][i], id, next.rows[id]) {
          assert !DealsWith(ops[i + 1], id, s.rows[id]);
        }
      }
      PressingStays(next, c, ops[1..], id);
    }
  }

  lemma AlwaysDeliveredPresses(s: Inboxes, c: Config, id: nat, n: Notice) returns (t: nat)
    requires Valid(s) && id !in s.rows && n.reason in {"mention", "approval_requested", "security_alert"}
    ensures var after := Step(s, c, Notify(id, n));
            && Valid(after) && Pressing(after, t) && IsThread(after.rows, t, n.user, n.subject)
            && Priority(after.rows[t].reason) >= Priority(n.reason)
  {
    AlwaysDelivered(s, c, id, n);
    StepKeepsValid(s, c, Notify(id, n), Step(s, c, Notify(id, n)));
    t := Notified(s, c, id, n).1.value;
  }

  /** A mention, an approval request or a security alert reaches its user whatever the level, the mute
      and the cap, and from then on, over every run, its row stays unread, not done and not muted, with
      a reason at least as relevant, until its owner triages it, reads everything or mutes the subject. */
  lemma AlwaysDeliveredStays(s: Inboxes, c: Config, id: nat, n: Notice, ops: seq<Op>) returns (t: nat)
    requires Valid(s) && id !in s.rows && n.reason in {"mention", "approval_requested", "security_alert"} && IsRun(Step(s, c, Notify(id, n)), c, ops)
    requires forall row: nat, i :: 0 <= i < |ops| && IsThread(Step(s, c, Notify(id, n)).rows, row, n.user, n.subject) ==>
               !DealsWith(ops[i], row, Step(s, c, Notify(id, n)).rows[row])
    ensures var later := Run(Step(s, c, Notify(id, n)), c, ops);
            && Pressing(later, t) && IsThread(later.rows, t, n.user, n.subject)
            && Priority(later.rows[t].reason) >= Priority(n.reason)
  {
    t := AlwaysDeliveredPresses(s, c, id, n);
    PressingStays(Step(s, c, Notify(id, n)), c, ops, t);
  }

  // ---- what a thread shows ----

  predicate About(op: Op, user: nat, subject: string) {
    op.Notify? && op.notice.user == user && op.notice.subject == subject
  }

  /** The same row but for how its owner has dealt with it. */
  predicate SameShown(before: Row, after: Row) {
    after == before.(unread := after.unread, status := after.status, lastReadAt := after.lastReadAt)
  }

  lemma OtherStepKeepsShown(s: Inboxes, c: Config, op: Op, after: Inboxes, id: nat)
    requires Enabled(s, op) && !op.Notify? && after == Step(s, c, op) && id in s.rows && id in after.rows
    ensures SameShown(s.rows[id], after.rows[id])
  {}

  lemma StepKeepsShown(s: Inboxes, c: Config, op: Op, after: Inboxes, id: nat)
    requires Valid(s) && Enabled(s, op) && after == Step(s, c, op) && id in s.rows && id in after.rows
    requires !About(op, s.rows[id].user, s.rows[id].subject)
    ensures SameShown(s.rows[id], after.rows[id])
  {
    if op.Notify? { NoticeIsLocal(s, c, op.id, op.notice, id); } else { OtherStepKeepsShown(s, c, op, after, id); }
  }

  /** Until the next notice on its subject a living row shows what it showed, however it is dealt with. */
  lemma {:induction false} ShownUntilNext(s: Inboxes, c: Config, ops: seq<Op>, id: nat)
    requires Valid(s) && IsRun(s, c, ops) && Alive(s, c, ops, id)
    requires forall i :: 0 <= i < |ops| ==> !About(ops[i], s.rows[id].user, s.rows[id].subject)
    ensures id in Run(s, c, ops).rows && SameShown(s.rows[id], Run(s, c, ops).rows[id])
    decreases |ops|
  {
    if ops != [] {
      var next := Step(s, c, ops[0]);
      StepKeepsShown(s, c, ops[0], next, id);
      StepKeepsValid(s, c, ops[0], next);
      forall i | 0 <= i < |ops| - 1 ensures !About(ops[1..][i], s.rows[id].user, s.rows[id].subject) {
        assert ops[1..][i] == ops[i + 1];
      }
      ShownUntilNext(next, c, ops[1..], id);
    }
  }

  /** A notice that gets through names its row, and over every later run without another notice on its
      subject the row, for as long as it lives, shows that notice's title, actor and link. */
  lemma LatestNoticeShown(s: Inboxes, c: Config, id: nat, n: Notice, ops: seq<Op>) returns (t: nat)
    requires Valid(s) && id !in s.rows && GetsThrough(s, c, n)
    requires IsRun(Step(s, c, Notify(id, n)), c, ops)
    requires forall i :: 0 <= i < |ops| ==> !About(ops[i], n.user, n.subject)
    ensures IsThread(Step(s, c, Notify(id, n)).rows, t, n.user, n.subject)
    ensures Alive(Step(s, c, Notify(id, n)), c, ops, t) ==>
              && t in Run(Step(s, c, Notify(id, n)), c, ops).rows
              && var r := Run(Step(s, c, Notify(id, n)), c, ops).rows[t];
                 r.title == n.title && r.actor == n.actor && r.link == n.link
  {
    DeliveredIff(s, c, id, n);
    t := Notified(s, c, id, n).1.value;
    var after := Step(s, c, Notify(id, n));
    RowShowsNotice(s, c, id, n, after, t);
    StepKeepsValid(s, c, Notify(id, n), after);
    if Alive(after, c, ops, t) { ShownUntilNext(after, c, ops, t); }
  }

  // ---- one user never reaches another's inbox ----

  /** Calls made for a user: notices to them and their own requests. Sweeps and time belong to nobody. */
  predicate Concerns(op: Op, user: nat) {
    match op
    case Notify(_, n) => n.user == user
    case Triage(who, _, _, _) => who == user
    case Subscribe(who, _, _) => who == user
    case SetLevel(who, _) => who == user
    case MarkAllRead(who) => who == user
    case Prune(_) => false
    case Wait(_) => false
  }

  /** The rows of one user are as they were, but for done ones that have been taken away. */
  ghost predicate RowsKept(before: map<nat, Row>, after: map<nat, Row>, user: nat) {
    && (forall id :: id in before && before[id].user == user ==>
          if id in after && after[id].user == user then after[id] == before[id] else before[id].status == Done)
    && (forall id :: id in after && after[id].user == user ==> id in before && before[id].user == user)
  }

  /** What one user has is as it was, but for done rows that a sweep has taken. */
  ghost predicate Untouched(before: Inboxes, after: Inboxes, user: nat) {
    && RowsKept(before.rows, after.rows, user)
    && (forall subject: string :: Muted(before, user, subject) == Muted(after, user, subject))
    && LevelOf(before, user) == LevelOf(after, user)
  }

  lemma PostKeepsRows(rows: map<nat, Row>, c: Config, id: nat, n: Notice, now: int, after: map<nat, Row>, user: nat)
    requires id !in rows && n.user != user && after == Posted(rows, c, id, n, now).0
    ensures RowsKept(rows, after, user)
  {
    PostedShape(rows, c, id, n, now, after);
  }

  lemma UpsertKeepsMutes(s: Inboxes, user: nat, subject: string, state: string, reason: Option<string>, other: nat)
    requires other != user
    ensures forall key: string ::
              Muted(s, other, key) == Muted(s.(subscriptions := Upserted(s.subscriptions, user, subject, state, reason)), other, key)
  {}

  /** A notice to another user touches neither the rows nor the subscriptions of this one. */
  lemma OtherNoticeLeavesUntouched(s: Inboxes, c: Config, id: nat, n: Notice, user: nat)
    requires id !in s.rows && n.user != user
    ensures Untouched(s, Notified(s, c, id, n).0, user)
  {
    if Passes(s, c, n) {
      PostKeepsRows(s.rows, c, id, n, s.now, Posted(s.rows, c, id, n, s.now).0, user);
      UpsertKeepsMutes(s, n.user, n.subject, "subscribed", Some(n.reason), user);
    }
  }

  lemma TriageLeavesUntouched(s: Inboxes, who: nat, id: nat, unread: Option<bool>, status: Option<Status>, user: nat)
    requires who != user
    ensures Untouched(s, Triaged(s, who, id, unread, status).0, user)
  {}

  lemma ReadLeavesUntouched(s: Inboxes, who: nat, user: nat)
    requires who != user
    ensures Untouched(s, AllRead(s, who), user)
  {}

  lemma PruneLeavesUntouched(s: Inboxes, ttlDays: int, user: nat)
    ensures Untouched(s, Pruned(s, ttlDays), user)
  {}

  lemma StepLeavesUntouched(s: Inboxes, c: Config, op: Op, after: Inboxes, user: nat)
    requires Enabled(s, op) && !Concerns(op, user) && after == Step(s, c, op)
    ensures Untouched(s, after, user)
  {
    match op
    case Notify(id, n) => OtherNoticeLeavesUntouched(s, c, id, n, user);
    case Triage(who, id, unread, status) => TriageLeavesUntouched(s, who, id, unread, status, user);
    case MarkAllRead(who) => ReadLeavesUntouched(s, who, user);
    case Prune(ttlDays) => PruneLeavesUntouched(s, ttlDays, user);
    case _ =>
  }

  /** A run without calls for a user, whatever the others do, changes nothing that user has, except
      that sweeps may remove done rows. */
  lemma {:induction false} InboxesAreSeparate(s: Inboxes, c: Config, ops: seq<Op>, user: nat)
    requires Valid(s) && IsRun(s, c, ops) && forall i :: 0 <= i < |ops| ==> !Concerns(ops[i], user)
    ensures Untouched(s, Run(s, c, ops), user)
    decreases |ops|
  {
    if ops != [] {
      var next := Step(s, c, ops[0]);
      StepLeavesUntouched(s, c, ops[0], next, user);
      StepKeepsValid(s, c, ops[0], next);
      InboxesAreSeparate(next, c, ops[1..], user);
      UntouchedTwice(s, next, Run(s, c, ops), user);
    }
  }

  lemma UntouchedTwice(a: Inboxes, b: Inboxes, c: Inboxes, user: nat)
    requires Untouched(a, b, user) && Untouched(b, c, user)
    ensures Untouched(a, c, user)
  {}

  // ---- the hourly cap ----

  /** A thread started for a user by a reason that the cap governs. */
  datatype Made = Made(id: nat, at: int)

  ghost predicate Starts(s: Inboxes, c: Config, op: Op, user: nat) {
    && op.Notify? && op.notice.user == user && op.notice.reason !in {"mention", "approval_requested", "security_alert"}
    && op.id !in s.rows && op.id in Step(s, c, op).rows
  }

  ghost function Log(s: Inboxes, c: Config, ops: seq<Op>, user: nat): seq<Made>
    decreases |ops|
  {
    if ops == [] then []
    else Logged([], s, c, ops[0], user) + Log(Step(s, c, ops[0]), c, ops[1..], user)
  }

  /** Threads of the last day are still there: pruning takes at least a day. */
  ghost predicate Recent(log: seq<Made>, s: Inboxes, user: nat) {
    && (forall i :: 0 <= i < |log| ==> log[i].at <= s.now)
    && (forall i, j :: 0 <= i < j < |log| ==> log[i].at <= log[j].at)
    && (forall i :: 0 <= i < |log| && log[i].at >= s.now - DAY ==>
          log[i].id in s.rows && s.rows[log[i].id].user == user && s.rows[log[i].id].createdAt == log[i].at)
    && (forall i, j :: 0 <= i < j < |log| && log[i].at >= s.now - DAY ==> log[i].id != log[j].id)
  }

  /** Any max + 1 of them in a row span more than an hour. */
  ghost predicate Spread(log: seq<Made>, max: int)
    requires max > 0
  {
    forall i :: 0 <= i && i + max < |log| ==> log[i + max].at > log[i].at + 3_600_000_000
  }

  lemma CapLeavesRoom(log: seq<Made>, s: Inboxes, c: Config, user: nat)
    requires Recent(log, s, user) && c.maxNewPerHour > 0 && !Capped(s.rows, c, user, s.now)
    ensures |log| >= c.maxNewPerHour ==> s.now > log[|log| - c.maxNewPerHour].at + HOUR
  {
    var max := c.maxNewPerHour;
    if |log| >= max && s.now <= log[|log| - max].at + HOUR {
      var tail := log[|log| - max..];
      var ids := seq(max, i requires 0 <= i < max => tail[i].id);
      forall i | 0 <= i < max ensures ids[i] in CreatedSince(s.rows, user, s.now - HOUR) {
        assert tail[i] == log[|log| - max + i];
      }
      DistinctCardinality(ids);
      SubsetCardinality(Elements(ids), CreatedSince(s.rows, user, s.now - HOUR));
    }
  }

  lemma StartIsUncapped(s: Inboxes, c: Config, op: Op, user: nat)
    requires Starts(s, c, op, user)
    ensures !Capped(s.rows, c, user, s.now) && Step(s, c, op).rows == s.rows[op.id := NewRow(op.notice, s.now)]
    ensures Step(s, c, op).now == s.now
  {}

  ghost function Logged(log: seq<Made>, s: Inboxes, c: Config, op: Op, user: nat): seq<Made> {
    if Starts(s, c, op, user) then log + [Made(op.id, s.now)] else log
  }

  lemma OtherStepKeepsRecent(log: seq<Made>, s: Inboxes, c: Config, op: Op, after: Inboxes, user: nat)
    requires Valid(s) && Recent(log, s, user) && Enabled(s, op) && !op.Notify? && after == Step(s, c, op)
    ensures Recent(log, after, user)
  {
    OtherStepsKeepThreads(s, c, op, after);
    forall i | 0 <= i < |log| && log[i].at >= after.now - DAY ensures log[i].id in after.rows {
      if op.Prune? { assert !Stale(s, op.ttlDays, log[i].id); }
    }
  }

  lemma NoticeKeepsRecent(log: seq<Made>, s: Inboxes, c: Config, op: Op, after: Inboxes, user: nat)
    requires Recent(log, s, user) && Enabled(s, op) && op.Notify? && after == Step(s, c, op)
    ensures Recent(log, after, user)
  {
    if Passes(s, c, op.notice) { PostedShape(s.rows, c, op.id, op.notice, s.now, after.rows); }
  }

  lemma StepKeepsRecent(log: seq<Made>, s: Inboxes, c: Config, op: Op, after: Inboxes, user: nat)
    requires Valid(s) && Recent(log, s, user) && Enabled(s, op) && after == Step(s, c, op)
    ensures Recent(Logged(log, s, c, op, user), after, user)
  {
    if op.Notify? {
      NoticeKeepsRecent(log, s, c, op, after, user);
      if Starts(s, c, op, user) { StartIsUncapped(s, c, op, user); }
    } else {
      OtherStepKeepsRecent(log, s, c, op, after, user);
    }
  }

  lemma StepKeepsSpread(log: seq<Made>, s: Inboxes, c: Config, op: Op, user: nat)
    requires c.maxNewPerHour > 0 && Recent(log, s, user) && Spread(log, c.maxNewPerHour)
    ensures Spread(Logged(log, s, c, op, user), c.maxNewPerHour)
  {
    if Starts(s, c, op, user) {
      StartIsUncapped(s, c, op, user);
      CapLeavesRoom(log, s, c, user);
    }
  }

  lemma {:induction false} LogSpreads(log: seq<Made>, s: Inboxes, c: Config, ops: seq<Op>, user: nat)
    requires Valid(s) && IsRun(s, c, ops) && c.maxNewPerHour > 0
    requires Recent(log, s, user) && Spread(log, c.maxNewPerHour)
    ensures Spread(log + Log(s, c, ops, user), c.maxNewPerHour)
    decreases |ops|
  {
    if ops == [] {
      assert log + [] == log;
    } else {
      var next := Step(s, c, ops[0]);
      var longer := Logged(log, s, c, ops[0], user);
      StepKeepsValid(s, c, ops[0], next);
      StepKeepsRecent(log, s, c, ops[0], next, user);
      StepKeepsSpread(log, s, c, ops[0], user);
      LogSpreads(longer, next, c, ops[1..], user);
      LogAssociates(log, s, c, ops, user);
    }
  }

  lemma LogAssociates(log: seq<Made>, s: Inboxes, c: Config, ops: seq<Op>, user: nat)
    requires ops != []
    ensures log + Log(s, c, ops, user) == Logged(log, s, c, ops[0], user) + Log(Step(s, c, ops[0]), c, ops[1..], user)
  {
    var rest := Log(Step(s, c, ops[0]), c, ops[1..], user);
    assert Log(s, c, ops, user) == Logged([], s, c, ops[0], user) + rest;
    assert log + (Logged([], s, c, ops[0], user) + rest) == (log + Logged([], s, c, ops[0], user)) + rest;
    assert log + Logged([], s, c, ops[0], user) == Logged(log, s, c, ops[0], user);
  }

  /** In every run, no closed hour sees more than the cap of new threads for one user, those of
      always-delivered reasons apart; pruning cannot make room. */
  lemma NewThreadsPerHour(s: Inboxes, c: Config, ops: seq<Op>, user: nat)
    requires Valid(s) && IsRun(s, c, ops) && c.maxNewPerHour > 0
    ensures Spread(Log(s, c, ops, user), c.maxNewPerHour)
  {
    LogSpreads([], s, c, ops, user);
    assert [] + Log(s, c, ops, user) == Log(s, c, ops, user);
  }

  /** Pruning takes the done rows that have not been touched for the given number of days, if it is positive. */
  lemma PrunedIs(s: Inboxes, ttlDays: int)
    requires Valid(s)
    ensures Valid(Pruned(s, ttlDays)) && |Pruned(s, ttlDays).rows.Keys| <= |s.rows.Keys|
    ensures ttlDays <= 0 ==> Pruned(s, ttlDays).rows == s.rows
    ensures forall id :: id in Pruned(s, ttlDays).rows <==>
              id in s.rows && !(ttlDays > 0 && s.rows[id].status == Done && s.rows[id].updatedAt < s.now - ttlDays * 86_400_000_000)
    ensures forall id :: id in Pruned(s, ttlDays).rows ==> Pruned(s, ttlDays).rows[id] == s.rows[id]
  {
    var left := Pruned(s, ttlDays).rows;
    SubsetCardinality(left.Keys, s.rows.Keys);
    FewerKeepValid(s.rows, left, s.now, s.now);
  }

  // ---- the service ----

  class NotificationService {
    var rows: map<nat, Row>
    var subscriptions: map<(nat, string), Subscription>
    var levels: map<nat, string>
    const gated: bool
    const maxNewPerHour: int

    constructor (levels: map<nat, string>, gated: bool, maxNewPerHour: int)
      ensures State(0) == Inboxes(map[], map[], levels, 0) && Valid(State(0))
      ensures Settings() == Config(gated, maxNewPerHour)
    {
      this.levels, this.gated, this.maxNewPerHour := levels, gated, maxNewPerHour;
      rows, subscriptions := map[], map[];
    }

    function Settings(): Config {
      Config(gated, maxNewPerHour)
    }

    function State(now: int): Inboxes
      reads this
    {
      Inboxes(rows, subscriptions, levels, now)
    }

    /** The thread on a subject, if there is one. */
    method GetBySubject(user: nat, subject: string) returns (found: Option<nat>)
      requires OneRow(rows)
      ensures found.Some? ==> IsThread(rows, found.value, user, subject)
      ensures found == None ==> !exists t :: IsThread(rows, t, user, subject)
    {
      if t :| t in rows && rows[t].user == user && rows[t].subject == subject {
        return Some(t);
      } else {
        assert forall t :: !IsThread(rows, t, user, subject);
        return None;
      }
    }

    method Notify(id: nat, n: Notice, now: int) returns (row: Option<nat>)
      requires Valid(State(now)) && id !in rows
      modifies this`rows, this`subscriptions
      ensures (State(now), row) == Notified(old(State(now)), Settings(), id, n) && Valid(State(now))
    {
      ghost var before := State(now);
      if Passes(before, Settings(), n) {
        PostKeepsValid(rows, Settings(), id, n, now, Posted(rows, Settings(), id, n, now).0);
      }
      var alwaysDeliver := n.reason in ALWAYS_DELIVER;
      if gated {
        var level := if n.user in levels then levels[n.user] else DEFAULT_NOTIFY_LEVEL;
        if !ShouldDeliver(level, n.reason) { return None; }
      }
      var key := (n.user, n.subject);
      if key in subscriptions && subscriptions[key].state == "ignored" {
        if !alwaysDeliver { return None; }
        subscriptions := Upserted(subscriptions, n.user, n.subject, "subscribed", Some(n.reason));
      }
      var found := GetBySubject(n.user, n.subject);
      if found == None {
        if !alwaysDeliver && maxNewPerHour > 0 && |CreatedSince(rows, n.user, now - HOUR)| >= maxNewPerHour { return None; }
        rows := rows[id := NewRow(n, now)];
        return Some(id);
      }
      var existing := rows[found.value];
      if existing.status == Done && n.reason !in HIGH_SIGNAL { return None; }
      existing := existing.(title := n.title, actor := n.actor, link := n.link);
      if n.agent.Some? { existing := existing.(agent := n.agent); }
      if Priority(n.reason) >= Priority(existing.reason) { existing := existing.(reason := n.reason); }
      existing := existing.(unread := true, status := if existing.status == Done then Inbox else existing.status, updatedAt := now);
      rows := rows[found.value := existing];
      return found;
    }

    method TriageRow(user: nat, id: nat, unread: Option<bool>, status: Option<Status>, now: int) returns (error: Option<Failure>)
      requires Valid(State(now))
      modifies this`rows
      ensures (State(now), error) == Triaged(old(State(now)), user, id, unread, status) && Valid(State(now))
      ensures error == None <==> id in old(rows) && old(rows)[id].user == user
      ensures error.Some? ==> rows == old(rows)
      ensures error == None ==> rows == old(rows)[id := old(rows)[id].(
                unread := if unread.Some? then unread.value else old(rows)[id].unread,
                lastReadAt := if unread == Some(false) then Some(now) else old(rows)[id].lastReadAt,
                status := if status.Some? then status.value else old(rows)[id].status)]
    {
      ghost var before := State(now);
      if id !in rows || rows[id].user != user { return Some(NotFound); }
      var r := rows[id];
      if unread.Some? {
        r := r.(unread := unread.value);
        if !unread.value { r := r.(lastReadAt := Some(now)); }
      }
      if status.Some? { r := r.(status := status.value); }
      rows := rows[id := r];
      FewerKeepValid(before.rows, rows, now, now);
      return None;
    }

    method SetSubscription(user: nat, subject: string, state: string) returns (error: Option<Failure>)
      modifies this`subscriptions
      ensures error == if state in {"subscribed", "ignored"} then None else Some(InvalidInput)
      ensures error.Some? ==> subscriptions == old(subscriptions)
      ensures error == None ==> subscriptions == old(subscriptions)[(user, subject) := Subscription(state,
                if (user, subject) in old(subscriptions) then old(subscriptions)[(user, subject)].reason else None)]
      ensures forall now :: State(now) == Step(old(State(now)), Settings(), Subscribe(user, subject, state))
    {
      if state !in SUBSCRIPTION_STATES { return Some(InvalidInput); }
      subscriptions := Upserted(subscriptions, user, subject, state, None);
      return None;
    }

    method MarkEverythingRead(user: nat, now: int)
      requires Valid(State(now))
      modifies this`rows
      ensures State(now) == AllRead(old(State(now)), user) && Valid(State(now))
      ensures rows.Keys == old(rows).Keys
      ensures forall id :: id in rows ==>
                if rows[id].user == user && old(rows)[id].unread
                then rows[id] == old(rows)[id].(unread := false, lastReadAt := Some(now)) else rows[id] == old(rows)[id]
    {
      ghost var before := State(now);
      rows := map id | id in rows ::
        if rows[id].user == user && rows[id].unread then rows[id].(unread := false, lastReadAt := Some(now)) else rows[id];
      FewerKeepValid(before.rows, rows, now, now);
    }

    method PruneDone(ttlDays: int, now: int) returns (removed: nat)
      requires Valid(State(now))
      modifies this`rows
      ensures State(now) == Pruned(old(State(now)), ttlDays) && Valid(State(now))
      ensures removed == |old(rows)| - |rows|
    {
      ghost var before := State(now);
      PrunedIs(before, ttlDays);
      if ttlDays <= 0 { return 0; }
      var cutoff := now - ttlDays * DAY;
      var left := map id | id in rows && !(rows[id].status == Done && rows[id].updatedAt < cutoff) :: rows[id];
      assert left == Pruned(before, ttlDays).rows;
      assert |left| == |left.Keys| && |rows| == |rows.Keys|;
      removed := |rows| - |left|;
      rows := left;
    }
  }
}
