/** The hub's messages and delegations: sending with threads, acknowledging, handing off tasks. */
module Messaging {
  import opened Basics

  /** `threadId` is null only until the row is first written. */
  datatype Message = Message(sender: string, recipient: string, body: string, kind: string,
                             threadId: Option<nat>, inReplyTo: Option<nat>,
                             createdAt: nat, deliveredAt: Option<nat>, expiresAt: Option<nat>)

  datatype DelegationStatus = Open | Completed | Declined

  datatype Delegation = Delegation(delegator: string, delegate: string, root: Option<nat>, result: Option<nat>,
                                   status: DelegationStatus)

  /** An agent's allowlist, absent when everyone may write to it. */
  type Agents = map<string, Option<set<string>>>

  datatype Hub = Hub(agents: Agents, messages: map<nat, Message>, delegations: map<nat, Delegation>)

  // ---- sending ----

  datatype SendError = BadBody | SameAgent | UnknownRecipient | NotAllowed | ForeignReply

  /** A message to send; `bodyOk` says that it is neither blank nor too long. */
  datatype Draft = Draft(sender: string, recipient: string, body: string, bodyOk: bool, kind: string, inReplyTo: Option<nat>)

  function Pair(m: Message): set<string> {
    {m.sender, m.recipient}
  }

  /** A reply inherits the thread of its parent, which must belong to the same conversation. */
  function ThreadFor(h: Hub, d: Draft): Result<Option<nat>, SendError> {
    if d.inReplyTo == None then Success(None)
    else if d.inReplyTo.value !in h.messages || Pair(h.messages[d.inReplyTo.value]) != {d.sender, d.recipient} then
      Failure(ForeignReply)
    else
      var parent := h.messages[d.inReplyTo.value];
      Success(Some(if parent.threadId.Some? && parent.threadId.value != 0 then parent.threadId.value else d.inReplyTo.value))
  }

  function Check(h: Hub, d: Draft): Option<SendError> {
    if !d.bodyOk then Some(BadBody)
    else if d.sender == d.recipient then Some(SameAgent)
    else if d.recipient !in h.agents then Some(UnknownRecipient)
    else if h.agents[d.recipient].Some? && d.sender !in h.agents[d.recipient].value then Some(NotAllowed)
    else match ThreadFor(h, d) case Failure(e) => Some(e) case Success(_) => None
  }

  /** The row as written: a message that answers nothing starts its own thread. */
  function Row(h: Hub, id: nat, d: Draft, now: nat, ttl: nat): Message
    requires Check(h, d) == None
  {
    var thread := ThreadFor(h, d).value;
    Message(d.sender, d.recipient, d.body, d.kind, if thread == None then Some(id) else thread, d.inReplyTo,
            now, None, Some(now + ttl))
  }

  ghost predicate Answers(d: Delegation, m: Message) {
    d.status == Open && d.delegator == m.recipient && d.delegate == m.sender && d.root == m.threadId
  }

  /** A reply from the delegate to the delegator in the delegated thread closes an open delegation. */
  ghost function Settled(delegations: map<nat, Delegation>, id: nat, m: Message): map<nat, Delegation> {
    if m.inReplyTo.Some? && m.threadId.Some? && (exists d :: d in delegations && Answers(delegations[d], m)) then
      var d :| d in delegations && Answers(delegations[d], m);
      delegations[d := delegations[d].(status := Completed, result := Some(id))]
    else delegations
  }

  ghost function Sent(h: Hub, id: nat, d: Draft, now: nat, ttl: nat): Hub {
    if Check(h, d).Some? then h
    else
      var m := Row(h, id, d, now, ttl);
      h.(messages := h.messages[id := m], delegations := Settled(h.delegations, id, m))
  }

  /** Only the recipient's acknowledgement counts, and only the first sets the delivery time. */
  function Acked(h: Hub, agent: string, id: nat, now: nat): Hub {
    if id !in h.messages || h.messages[id].recipient != agent || h.messages[id].deliveredAt.Some? then h
    else h.(messages := h.messages[id := h.messages[id].(deliveredAt := Some(now))])
  }

  /** An agent joins, or its owner changes whom it accepts messages from. */
  function Allowed(h: Hub, who: string, senders: Option<set<string>>): Hub {
    h.(agents := h.agents[who := senders])
  }

  // ---- delegating ----

  function OpenFrom(delegations: map<nat, Delegation>, delegator: string): set<nat> {
    set d | d in delegations && delegations[d].delegator == delegator && delegations[d].status == Open
  }

  datatype HandOff = HandedOff | Refused | Vanished | Failed(error: SendError)

  function TaskDraft(from: string, to: string, body: string, bodyOk: bool): Draft {
    Draft(from, to, body, bodyOk, "task", None)
  }

  ghost function Delegated(h: Hub, id: nat, row: nat, from: string, to: string, body: string, bodyOk: bool,
                           now: nat, ttl: nat, maxOpen: nat): (HandOff, Hub) {
    var d := TaskDraft(from, to, body, bodyOk);
    if from !in h.agents then (Vanished, h)
    else if from == to then (Failed(SameAgent), h)
    else if |OpenFrom(h.delegations, from)| >= maxOpen then (Refused, h)
    else match Check(h, d)
         case Some(NotAllowed) =>
           (HandedOff, h.(delegations := h.delegations[row := Delegation(from, to, None, None, Declined)]))
         case Some(e) => (Failed(e), h)
         case None =>
           var sent := Sent(h, id, d, now, ttl);
           (HandedOff, sent.(delegations := sent.delegations[row := Delegation(from, to, Some(id), None, Open)]))
  }

  // ---- invariants ----

  /** Every message sits in a thread whose root starts it and joins the same two agents. */
  ghost predicate Threaded(messages: map<nat, Message>) {
    forall id :: id in messages ==>
      && id != 0 && messages[id].sender != messages[id].recipient && messages[id].threadId.Some?
      && messages[id].threadId.value in messages
      && messages[messages[id].threadId.value].threadId == messages[id].threadId
      && Pair(messages[messages[id].threadId.value]) == Pair(messages[id])
  }

  /** A task message: sent by the delegator to the delegate and root of its own thread. */
  ghost predicate IsTaskRoot(messages: map<nat, Message>, d: Delegation) {
    && d.root.Some? && d.root.value in messages
    && var m := messages[d.root.value];
       m.sender == d.delegator && m.recipient == d.delegate && m.threadId == d.root
  }

  ghost predicate DelegationOk(messages: map<nat, Message>, d: Delegation) {
    match d.status
    case Declined => d.root == None && d.result == None
    case Open => IsTaskRoot(messages, d) && d.result == None
    case Completed =>
      && IsTaskRoot(messages, d) && d.result.Some? && d.result.value in messages
      && var m := messages[d.result.value];
         m.sender == d.delegate && m.recipient == d.delegator && m.threadId == d.root && m.inReplyTo.Some?
  }

  ghost predicate Valid(h: Hub, maxOpen: nat) {
    && Threaded(h.messages)
    && (forall d :: d in h.delegations ==> DelegationOk(h.messages, h.delegations[d]))
    && (forall c, d :: c in h.delegations && d in h.delegations && c != d && h.delegations[c].root.Some? ==>
          h.delegations[c].root != h.delegations[d].root)
    && (forall a: string :: |OpenFrom(h.delegations, a)| <= maxOpen)
  }

  datatype Op =
    | Send(id: nat, draft: Draft, at: nat)
    | Ack(agent: string, acked: nat, when: nat)
    | Allow(who: string, senders: Option<set<string>>)
    | Delegate(newMessage: nat, newRow: nat, from: string, to: string, task: string, ok: bool, handedAt: nat)

  /** Rows get fresh positive ids. */
  predicate Fresh(h: Hub, op: Op) {
    match op
    case Send(id, _, _) => id != 0 && id !in h.messages
    case Ack(_, _, _) => true
    case Allow(_, _) => true
    case Delegate(id, row, _, _, _, _, _) => id != 0 && id !in h.messages && row !in h.delegations
  }

  ghost function Step(h: Hub, op: Op, ttl: nat, maxOpen: nat): Hub {
    match op
    case Send(id, d, now) => Sent(h, id, d, now, ttl)
    case Ack(agent, id, now) => Acked(h, agent, id, now)
    case Allow(who, senders) => Allowed(h, who, senders)
    case Delegate(id, row, from, to, body, bodyOk, now) =>
      Delegated(h, id, row, from, to, body, bodyOk, now, ttl, maxOpen).1
  }

  lemma RowIsThreaded(h: Hub, id: nat, d: Draft, now: nat, ttl: nat)
    requires Threaded(h.messages) && id != 0 && id !in h.messages && Check(h, d) == None
    ensures Threaded(h.messages[id := Row(h, id, d, now, ttl)])
    ensures d.inReplyTo == None ==> Row(h, id, d, now, ttl).threadId == Some(id)
  {}

  lemma MoreMessages(messages: map<nat, Message>, id: nat, m: Message, d: Delegation)
    requires id !in messages && DelegationOk(messages, d)
    ensures DelegationOk(messages[id := m], d)
  {}

  /** Settling closes at most one row, and that row is answered by the message. */
  lemma SettledShape(delegations: map<nat, Delegation>, id: nat, m: Message)
    ensures var after := Settled(delegations, id, m);
            after == delegations ||
            (m.inReplyTo.Some? && m.threadId.Some? &&
             exists d :: d in delegations && Answers(delegations[d], m) &&
                         after == delegations[d := delegations[d].(status := Completed, result := Some(id))])
  {}

  lemma FewerOpen(before: map<nat, Delegation>, after: map<nat, Delegation>, a: string)
    requires before.Keys == after.Keys
    requires forall d :: d in before ==> after[d] == before[d] || (after[d].status != Open)
    ensures |OpenFrom(after, a)| <= |OpenFrom(before, a)|
  {
    SubsetCardinality(OpenFrom(after, a), OpenFrom(before, a));
  }

  lemma SendKeepsValid(h: Hub, id: nat, d: Draft, now: nat, ttl: nat, maxOpen: nat)
    requires Valid(h, maxOpen) && id != 0 && id !in h.messages
    ensures Valid(Sent(h, id, d, now, ttl), maxOpen)
  {
    if Check(h, d) == None {
      var m := Row(h, id, d, now, ttl);
      var after := Sent(h, id, d, now, ttl);
      RowIsThreaded(h, id, d, now, ttl);
      SettledShape(h.delegations, id, m);
      forall a: string ensures |OpenFrom(after.delegations, a)| <= |OpenFrom(h.delegations, a)| {
        FewerOpen(h.delegations, after.delegations, a);
      }
      forall c | c in after.delegations ensures DelegationOk(after.messages, after.delegations[c]) {
        MoreMessages(h.messages, id, m, h.delegations[c]);
      }
    }
  }

  /** The same rows but for delivery times. */
  ghost predicate SameButDelivery(before: map<nat, Message>, after: map<nat, Message>) {
    && before.Keys == after.Keys
    && forall i :: i in before ==> after[i] == before[i].(deliveredAt := after[i].deliveredAt)
  }

  lemma AckTouchesDeliveryOnly(h: Hub, agent: string, id: nat, now: nat)
    ensures SameButDelivery(h.messages, Acked(h, agent, id, now).messages)
    ensures Acked(h, agent, id, now).delegations == h.delegations
  {}

  lemma SameDelegations(before: map<nat, Message>, after: map<nat, Message>, d: Delegation)
    requires SameButDelivery(before, after) && DelegationOk(before, d)
    ensures DelegationOk(after, d)
  {
    if d.root.Some? { assert after[d.root.value].threadId == before[d.root.value].threadId; }
    if d.result.Some? { assert after[d.result.value].threadId == before[d.result.value].threadId; }
  }

  lemma SameThreads(before: map<nat, Message>, after: map<nat, Message>)
    requires SameButDelivery(before, after) && Threaded(before)
    ensures Threaded(after)
  {
    forall i | i in before ensures after[i].threadId.Some? && after[i].threadId.value in before &&
                                   Pair(after[after[i].threadId.value]) == Pair(after[i]) {
      var t := before[i].threadId.value;
      assert Pair(after[t]) == Pair(before[t]) && Pair(after[i]) == Pair(before[i]);
    }
  }

  lemma AckKeepsValid(h: Hub, agent: string, id: nat, now: nat, maxOpen: nat)
    requires Valid(h, maxOpen)
    ensures Valid(Acked(h, agent, id, now), maxOpen)
  {
    var after := Acked(h, agent, id, now);
    AckTouchesDeliveryOnly(h, agent, id, now);
    SameThreads(h.messages, after.messages);
    forall c | c in h.delegations ensures DelegationOk(after.messages, h.delegations[c]) {
      SameDelegations(h.messages, after.messages, h.delegations[c]);
    }
  }

  lemma NewRow(delegations: map<nat, Delegation>, row: nat, d: Delegation, a: string)
    requires row !in delegations
    ensures |OpenFrom(delegations[row := d], a)| ==
            |OpenFrom(delegations, a)| + (if d.delegator == a && d.status == Open then 1 else 0)
  {
    assert OpenFrom(delegations[row := d], a) ==
           OpenFrom(delegations, a) + (if d.delegator == a && d.status == Open then {row} else {});
  }

  /** A task message answers nothing, so sending it settles nothing. */
  lemma TaskSettlesNothing(h: Hub, id: nat, d: Draft, now: nat, ttl: nat)
    requires Check(h, d) == None && d.inReplyTo == None
    ensures Sent(h, id, d, now, ttl).delegations == h.delegations
  {}

  lemma AddedRowKeepsValid(h: Hub, row: nat, d: Delegation, maxOpen: nat)
    requires Valid(h, maxOpen) && row !in h.delegations && DelegationOk(h.messages, d)
    requires d.status == Open ==> |OpenFrom(h.delegations, d.delegator)| < maxOpen
    requires d.root.Some? ==> forall c :: c in h.delegations ==> h.delegations[c].root != d.root
    ensures Valid(h.(delegations := h.delegations[row := d]), maxOpen)
  {
    var after := h.delegations[row := d];
    forall a: string ensures |OpenFrom(after, a)| <= maxOpen {
      NewRow(h.delegations, row, d, a);
    }
  }

  /** No delegation is rooted in a message that does not exist yet. */
  lemma RootsExist(h: Hub, maxOpen: nat, id: nat)
    requires Valid(h, maxOpen) && id !in h.messages
    ensures forall c :: c in h.delegations ==> h.delegations[c].root != Some(id)
  {
    forall c | c in h.delegations && h.delegations[c].root.Some? ensures h.delegations[c].root != Some(id) {
      assert DelegationOk(h.messages, h.delegations[c]);
    }
  }

  lemma DelegateKeepsValid(h: Hub, id: nat, row: nat, from: string, to: string, body: string, bodyOk: bool,
                           now: nat, ttl: nat, maxOpen: nat)
    requires Valid(h, maxOpen) && id != 0 && id !in h.messages && row !in h.delegations
    ensures Valid(Delegated(h, id, row, from, to, body, bodyOk, now, ttl, maxOpen).1, maxOpen)
  {
    var d := TaskDraft(from, to, body, bodyOk);
    if from in h.agents && from != to && |OpenFrom(h.delegations, from)| < maxOpen {
      if Check(h, d) == None {
        SendKeepsValid(h, id, d, now, ttl, maxOpen);
        TaskSettlesNothing(h, id, d, now, ttl);
        RootsExist(h, maxOpen, id);
        AddedRowKeepsValid(Sent(h, id, d, now, ttl), row, Delegation(from, to, Some(id), None, Open), maxOpen);
      } else if Check(h, d) == Some(NotAllowed) {
        AddedRowKeepsValid(h, row, Delegation(from, to, None, None, Declined), maxOpen);
      }
    }
  }

  lemma StepKeepsValid(h: Hub, op: Op, ttl: nat, maxOpen: nat)
    requires Valid(h, maxOpen) && Fresh(h, op)
    ensures Valid(Step(h, op, ttl, maxOpen), maxOpen)
  {
    match op
    case Send(id, d, now) => SendKeepsValid(h, id, d, now, ttl, maxOpen);
    case Ack(agent, id, now) => AckKeepsValid(h, agent, id, now, maxOpen);
    case Allow(who, senders) => assert Valid(Allowed(h, who, senders), maxOpen);
    case Delegate(id, row, from, to, body, bodyOk, now) =>
      DelegateKeepsValid(h, id, row, from, to, body, bodyOk, now, ttl, maxOpen);
  }

  ghost predicate IsRun(h: Hub, ops: seq<Op>, ttl: nat, maxOpen: nat)
    decreases |ops|
  {
    ops == [] || (Fresh(h, ops[0]) && IsRun(Step(h, ops[0], ttl, maxOpen), ops[1..], ttl, maxOpen))
  }

  ghost function Run(h: Hub, ops: seq<Op>, ttl: nat, maxOpen: nat): Hub
    decreases |ops|
  {
    if ops == [] then h else Run(Step(h, ops[0], ttl, maxOpen), ops[1..], ttl, maxOpen)
  }

  /** In every run: threads stay inside one conversation and are rooted in it, no agent has more
      open delegations than the cap, and the result of a completed delegation is a message from
      the delegate to the delegator in the thread rooted at its task. */
  lemma {:induction false} RunKeepsValid(h: Hub, ops: seq<Op>, ttl: nat, maxOpen: nat)
    requires Valid(h, maxOpen) && IsRun(h, ops, ttl, maxOpen)
    ensures Valid(Run(h, ops, ttl, maxOpen), maxOpen)
    decreases |ops|
  {
    if ops != [] {
      StepKeepsValid(h, ops[0], ttl, maxOpen);
      RunKeepsValid(Step(h, ops[0], ttl, maxOpen), ops[1..], ttl, maxOpen);
    }
  }

  /** Rows already settled keep what they are; open ones keep everything but their status and result. */
  ghost predicate Keeps(before: map<nat, Delegation>, after: map<nat, Delegation>) {
    forall d :: d in before ==>
      && d in after
      && (before[d].status != Open ==> after[d] == before[d])
      && after[d].(status := Open, result := None) == before[d].(status := Open, result := None)
  }

  lemma StepKeepsSettled(h: Hub, op: Op, ttl: nat, maxOpen: nat)
    requires Fresh(h, op)
    ensures Keeps(h.delegations, Step(h, op, ttl, maxOpen).delegations)
    ensures h.messages.Keys <= Step(h, op, ttl, maxOpen).messages.Keys
  {
    match op
    case Send(id, d, now) => if Check(h, d) == None { SettledShape(h.delegations, id, Row(h, id, d, now, ttl)); }
    case Ack(_, _, _) =>
    case Allow(_, _) =>
    case Delegate(id, row, from, to, body, bodyOk, now) =>
      var d := TaskDraft(from, to, body, bodyOk);
      if Check(h, d) == None { TaskSettlesNothing(h, id, d, now, ttl); }
  }

  /** A delegation completes at most once: from then on no run changes it. */
  lemma {:induction false} SettledForever(h: Hub, ops: seq<Op>, ttl: nat, maxOpen: nat, d: nat)
    requires IsRun(h, ops, ttl, maxOpen) && d in h.delegations && h.delegations[d].status != Open
    ensures d in Run(h, ops, ttl, maxOpen).delegations &&
            Run(h, ops, ttl, maxOpen).delegations[d] == h.delegations[d]
    decreases |ops|
  {
    if ops != [] {
      StepKeepsSettled(h, ops[0], ttl, maxOpen);
      SettledForever(Step(h, ops[0], ttl, maxOpen), ops[1..], ttl, maxOpen, d);
    }
  }

  /** In a valid hub at most one delegation can be answered by a message, so the row completed is determined. */
  lemma AnswerIsUnique(h: Hub, maxOpen: nat, m: Message, c: nat, d: nat)
    requires Valid(h, maxOpen) && m.threadId.Some?
    requires c in h.delegations && d in h.delegations && Answers(h.delegations[c], m) && Answers(h.delegations[d], m)
    ensures c == d
  {}

  /** An open delegation is completed by exactly the replies its delegate sends the delegator in its thread. */
  lemma CompletedExactlyByAnswer(h: Hub, maxOpen: nat, id: nat, d: Draft, now: nat, ttl: nat, row: nat)
    requires Valid(h, maxOpen) && id != 0 && id !in h.messages && row in h.delegations && h.delegations[row].status == Open
    ensures Sent(h, id, d, now, ttl).delegations[row].status == Completed <==>
            Check(h, d) == None && d.inReplyTo.Some? && Answers(h.delegations[row], Row(h, id, d, now, ttl))
  {
    if Check(h, d) == None {
      var m := Row(h, id, d, now, ttl);
      SettledShape(h.delegations, id, m);
      forall c | c in h.delegations && Answers(h.delegations[c], m) && Answers(h.delegations[row], m) ensures c == row {
        RowIsThreaded(h, id, d, now, ttl);
        AnswerIsUnique(h, maxOpen, m, c, row);
      }
    }
  }

  // ---- what a send does, written out ----

  /** The recipient exists and its allowlist, if it has one, names the sender. */
  predicate MayWrite(agents: Agents, sender: string, recipient: string) {
    recipient in agents && (agents[recipient] == None || sender in agents[recipient].value)
  }

  /** The errors of a send, each with what brings it about. */
  lemma SendErrorsIff(h: Hub, d: Draft)
    ensures Check(h, d) == Some(BadBody) <==> !d.bodyOk
    ensures Check(h, d) == Some(SameAgent) <==> d.bodyOk && d.sender == d.recipient
    ensures Check(h, d) == Some(UnknownRecipient) <==> d.bodyOk && d.sender != d.recipient && d.recipient !in h.agents
    ensures Check(h, d) == Some(NotAllowed) <==>
              d.bodyOk && d.sender != d.recipient && d.recipient in h.agents &&
              h.agents[d.recipient].Some? && d.sender !in h.agents[d.recipient].value
    ensures Check(h, d) == Some(ForeignReply) <==>
              && d.bodyOk && d.sender != d.recipient && d.recipient in h.agents
              && (h.agents[d.recipient] == None || d.sender in h.agents[d.recipient].value)
              && d.inReplyTo.Some?
              && (d.inReplyTo.value !in h.messages ||
                  {h.messages[d.inReplyTo.value].sender, h.messages[d.inReplyTo.value].recipient} != {d.sender, d.recipient})
  {}

  /** In a valid hub an accepted reply is stored in the thread of the message it answers, and a message
      that answers nothing starts a thread of its own. */
  lemma ReplyInheritsThread(h: Hub, maxOpen: nat, id: nat, d: Draft, now: nat, ttl: nat, after: Hub)
    requires Valid(h, maxOpen) && id != 0 && id !in h.messages && after == Step(h, Send(id, d, now), ttl, maxOpen)
    requires id in after.messages
    ensures d.inReplyTo == None ==> after.messages[id].threadId == Some(id)
    ensures d.inReplyTo.Some? ==>
              d.inReplyTo.value in h.messages && after.messages[id].threadId == h.messages[d.inReplyTo.value].threadId
  {}

  /** What an accepted send leaves: the new message, and each delegation it answers completed. */
  lemma SentLeaves(h: Hub, maxOpen: nat, id: nat, d: Draft, now: nat, ttl: nat, after: Hub)
    requires Valid(h, maxOpen) && id != 0 && id !in h.messages && Check(h, d) == None && after == Sent(h, id, d, now, ttl)
    ensures d.inReplyTo.Some? ==> d.inReplyTo.value in h.messages
    ensures after.messages == h.messages[id := Message(d.sender, d.recipient, d.body, d.kind,
              if d.inReplyTo.Some? then h.messages[d.inReplyTo.value].threadId else Some(id), d.inReplyTo,
              now, None, Some(now + ttl))]
    ensures after.delegations.Keys == h.delegations.Keys
    ensures forall c :: c in h.delegations ==>
              after.delegations[c] ==
              if d.inReplyTo.Some? && h.delegations[c].status == Open && h.delegations[c].delegator == d.recipient &&
                 h.delegations[c].delegate == d.sender && h.delegations[c].root == after.messages[id].threadId
              then h.delegations[c].(status := Completed, result := Some(id)) else h.delegations[c]
  {
    var m := Row(h, id, d, now, ttl);
    RowIsThreaded(h, id, d, now, ttl);
    SettledShape(h.delegations, id, m);
    forall c, e | c in h.delegations && e in h.delegations && Answers(h.delegations[c], m) && Answers(h.delegations[e], m)
      ensures c == e
    {
      AnswerIsUnique(h, maxOpen, m, c, e);
    }
  }

  /** An allowlist takes effect at once: from then on a message that starts a thread is accepted from
      the agents it names, or from everyone when there is none, and refused to the others. */
  lemma AllowTakesEffect(h: Hub, who: string, senders: Option<set<string>>, d: Draft, ttl: nat, maxOpen: nat)
    requires d.bodyOk && d.sender != d.recipient && d.recipient == who && d.inReplyTo == None
    ensures Check(Step(h, Allow(who, senders), ttl, maxOpen), d) ==
              if senders == None || d.sender in senders.value then None else Some(NotAllowed)
  {}

  // ---- a delegated task comes to its end ----

  lemma KeepsTwice(a: map<nat, Delegation>, b: map<nat, Delegation>, c: map<nat, Delegation>)
    requires Keeps(a, b) && Keeps(b, c)
    ensures Keeps(a, c)
  {
    forall d | d in a
      ensures d in c && (a[d].status != Open ==> c[d] == a[d])
      ensures c[d].(status := Open, result := None) == a[d].(status := Open, result := None)
    {
      assert d in b;
    }
  }

  lemma {:induction false} RunKeepsSettled(h: Hub, ops: seq<Op>, ttl: nat, maxOpen: nat)
    requires IsRun(h, ops, ttl, maxOpen)
    ensures Keeps(h.delegations, Run(h, ops, ttl, maxOpen).delegations)
    decreases |ops|
  {
    if ops != [] {
      var next := Step(h, ops[0], ttl, maxOpen);
      StepKeepsSettled(h, ops[0], ttl, maxOpen);
      RunKeepsSettled(next, ops[1..], ttl, maxOpen);
      KeepsTwice(h.delegations, next.delegations, Run(next, ops[1..], ttl, maxOpen).delegations);
    }
  }

  /** A task handed to an agent that accepts it leaves a message and an open row. */
  lemma TaskIsHandedOff(h: Hub, maxOpen: nat, ttl: nat, root: nat, row: nat, from: string, to: string, task: string,
                        now: nat, after: Hub)
    requires Valid(h, maxOpen) && Fresh(h, Delegate(root, row, from, to, task, true, now))
    requires from in h.agents && from != to && MayWrite(h.agents, from, to) && |OpenFrom(h.delegations, from)| < maxOpen
    requires after == Step(h, Delegate(root, row, from, to, task, true, now), ttl, maxOpen)
    ensures after.agents == h.agents && after.delegations == h.delegations[row := Delegation(from, to, Some(root), None, Open)]
    ensures after.messages ==
            h.messages[root := Message(from, to, task, "task", Some(root), None, now, None, Some(now + ttl))]
  {
    TaskSettlesNothing(h, root, TaskDraft(from, to, task, true), now, ttl);
  }

  /** Whoever replies in the thread of an open delegation, as its delegate to its delegator, completes it. */
  lemma AnswerCompletes(h: Hub, maxOpen: nat, ttl: nat, row: nat, id: nat, d: Draft, now: nat, after: Hub)
    requires Valid(h, maxOpen) && Fresh(h, Send(id, d, now)) && row in h.delegations && h.delegations[row].status == Open
    requires d.bodyOk && d.sender == h.delegations[row].delegate && d.recipient == h.delegations[row].delegator
    requires MayWrite(h.agents, d.sender, d.recipient)
    requires d.inReplyTo.Some? && d.inReplyTo.value in h.messages
    requires h.messages[d.inReplyTo.value].threadId == h.delegations[row].root
    requires after == Step(h, Send(id, d, now), ttl, maxOpen)
    ensures after.delegations[row] == h.delegations[row].(status := Completed, result := Some(id))
  {
    assert DelegationOk(h.messages, h.delegations[row]);
    var p := d.inReplyTo.value;
    assert Pair(h.messages[p]) == Pair(h.messages[h.delegations[row].root.value]) == {d.sender, d.recipient};
    SendErrorsIff(h, d);
    SentLeaves(h, maxOpen, id, d, now, ttl, after);
  }

  /** Delegation from end to end. A task handed to an agent that accepts it, followed by any run: a reply
      of the delegate to the delegator that answers any message of the task's thread leaves the row
      completed, and if it was still open then with this reply as its result. */
  lemma DelegatedTaskCompletes(h: Hub, maxOpen: nat, ttl: nat, root: nat, row: nat, from: string, to: string,
                               task: string, handedAt: nat, first: Hub, ops: seq<Op>, mid: Hub,
                               id: nat, d: Draft, now: nat, after: Hub)
    requires Valid(h, maxOpen) && Fresh(h, Delegate(root, row, from, to, task, true, handedAt))
    requires from in h.agents && from != to && MayWrite(h.agents, from, to) && |OpenFrom(h.delegations, from)| < maxOpen
    requires first == Step(h, Delegate(root, row, from, to, task, true, handedAt), ttl, maxOpen)
    requires IsRun(first, ops, ttl, maxOpen) && mid == Run(first, ops, ttl, maxOpen)
    requires Fresh(mid, Send(id, d, now)) && d.sender == to && d.recipient == from && d.bodyOk
    requires MayWrite(mid.agents, to, from)
    requires d.inReplyTo.Some? && d.inReplyTo.value in mid.messages && mid.messages[d.inReplyTo.value].threadId == Some(root)
    requires after == Step(mid, Send(id, d, now), ttl, maxOpen)
    ensures row in mid.delegations && row in after.delegations
    ensures after.delegations[row] == Delegation(from, to, Some(root), after.delegations[row].result, Completed)
    ensures mid.delegations[row].status == Open ==> after.delegations[row].result == Some(id)
    ensures mid.delegations[row].status != Open ==> after.delegations[row] == mid.delegations[row]
  {
    HandOffIsValid(h, maxOpen, ttl, root, row, from, to, task, handedAt, first);
    TaskSurvives(first, maxOpen, ttl, row, from, to, root, ops, mid);
    TaskAnswered(mid, maxOpen, ttl, root, row, id, d, now, after);
  }

  lemma HandOffIsValid(h: Hub, maxOpen: nat, ttl: nat, root: nat, row: nat, from: string, to: string, task: string,
                       now: nat, first: Hub)
    requires Valid(h, maxOpen) && Fresh(h, Delegate(root, row, from, to, task, true, now))
    requires from in h.agents && from != to && MayWrite(h.agents, from, to) && |OpenFrom(h.delegations, from)| < maxOpen
    requires first == Step(h, Delegate(root, row, from, to, task, true, now), ttl, maxOpen)
    ensures Valid(first, maxOpen)
    ensures row in first.delegations && first.delegations[row] == Delegation(from, to, Some(root), None, Open)
  {
    TaskIsHandedOff(h, maxOpen, ttl, root, row, from, to, task, now, first);
    StepKeepsValid(h, Delegate(root, row, from, to, task, true, now), ttl, maxOpen);
  }

  /** A reply in the thread of a task completes it if it is open and leaves it as it is if it is completed. */
  lemma TaskAnswered(h: Hub, maxOpen: nat, ttl: nat, root: nat, row: nat, id: nat, d: Draft, now: nat, after: Hub)
    requires Valid(h, maxOpen) && Fresh(h, Send(id, d, now)) && row in h.delegations
    requires h.delegations[row].status != Declined && h.delegations[row].root == Some(root)
    requires d.bodyOk && d.sender == h.delegations[row].delegate && d.recipient == h.delegations[row].delegator
    requires MayWrite(h.agents, d.sender, d.recipient)
    requires d.inReplyTo.Some? && d.inReplyTo.value in h.messages && h.messages[d.inReplyTo.value].threadId == Some(root)
    requires after == Step(h, Send(id, d, now), ttl, maxOpen)
    ensures row in after.delegations
    ensures after.delegations[row] ==
              if h.delegations[row].status == Open then h.delegations[row].(status := Completed, result := Some(id))
              else h.delegations[row]
  {
    if h.delegations[row].status == Open {
      AnswerCompletes(h, maxOpen, ttl, row, id, d, now, after);
    } else {
      StepKeepsSettled(h, Send(id, d, now), ttl, maxOpen);
    }
  }

  /** An open row is open or completed after any run, for the same task. */
  lemma TaskSurvives(h: Hub, maxOpen: nat, ttl: nat, row: nat, from: string, to: string, root: nat, ops: seq<Op>, mid: Hub)
    requires Valid(h, maxOpen) && row in h.delegations && h.delegations[row] == Delegation(from, to, Some(root), None, Open)
    requires IsRun(h, ops, ttl, maxOpen) && mid == Run(h, ops, ttl, maxOpen)
    ensures Valid(mid, maxOpen) && row in mid.delegations && mid.delegations[row].status != Declined
    ensures mid.delegations[row].(status := Open, result := None) == Delegation(from, to, Some(root), None, Open)
  {
    RunKeepsSettled(h, ops, ttl, maxOpen);
    RunKeepsValid(h, ops, ttl, maxOpen);
    assert DelegationOk(mid.messages, mid.delegations[row]);
  }

  /** One such run: in a hub without messages `from` hands `to` a task as message 1 and row 7, and the
      reply, message 2, sits in thread 1 and completes the row. */
  lemma DelegateReplyComplete(agents: Agents, ttl: nat, maxOpen: nat, from: string, to: string)
    requires from in agents && from != to && MayWrite(agents, from, to) && MayWrite(agents, to, from) && maxOpen > 0
    ensures var reply := Draft(to, from, "done", true, "response", Some(1));
            var ops := [Delegate(1, 7, from, to, "task", true, 10), Send(2, reply, 20)];
            && IsRun(Hub(agents, map[], map[]), ops, ttl, maxOpen)
            && var after := Run(Hub(agents, map[], map[]), ops, ttl, maxOpen);
               && after.delegations == map[7 := Delegation(from, to, Some(1), Some(2), Completed)]
               && after.messages == map[1 := Message(from, to, "task", "task", Some(1), None, 10, None, Some(10 + ttl)),
                                        2 := Message(to, from, "done", "response", Some(1), Some(1), 20, None, Some(20 + ttl))]
  {
    var h := Hub(agents, map[], map[]);
    var handing, answering := Delegate(1, 7, from, to, "task", true, 10),
                              Send(2, Draft(to, from, "done", true, "response", Some(1)), 20);
    var first := Step(h, handing, ttl, maxOpen);
    var after := Step(first, answering, ttl, maxOpen);
    FirstTask(agents, ttl, maxOpen, from, to, first);
    FirstAnswer(agents, ttl, maxOpen, from, to, first, after);
    TwoSteps(h, handing, first, answering, after, ttl, maxOpen);
  }

  lemma FirstTask(agents: Agents, ttl: nat, maxOpen: nat, from: string, to: string, first: Hub)
    requires from in agents && from != to && MayWrite(agents, from, to) && maxOpen > 0
    requires first == Step(Hub(agents, map[], map[]), Delegate(1, 7, from, to, "task", true, 10), ttl, maxOpen)
    ensures Valid(first, maxOpen) && first.agents == agents
    ensures first.delegations == map[7 := Delegation(from, to, Some(1), None, Open)]
    ensures first.messages == map[1 := Message(from, to, "task", "task", Some(1), None, 10, None, Some(10 + ttl))]
  {
    var h := Hub(agents, map[], map[]);
    EmptyIsValid(agents, maxOpen);
    assert OpenFrom(map[], from) == {};
    TaskIsHandedOff(h, maxOpen, ttl, 1, 7, from, to, "task", 10, first);
    StepKeepsValid(h, Delegate(1, 7, from, to, "task", true, 10), ttl, maxOpen);
  }

  lemma FirstAnswer(agents: Agents, ttl: nat, maxOpen: nat, from: string, to: string, first: Hub, after: Hub)
    requires from in agents && from != to && MayWrite(agents, to, from)
    requires Valid(first, maxOpen) && first.agents == agents
    requires first.delegations == map[7 := Delegation(from, to, Some(1), None, Open)]
    requires first.messages == map[1 := Message(from, to, "task", "task", Some(1), None, 10, None, Some(10 + ttl))]
    requires after == Step(first, Send(2, Draft(to, from, "done", true, "response", Some(1)), 20), ttl, maxOpen)
    ensures after.delegations == map[7 := Delegation(from, to, Some(1), Some(2), Completed)]
    ensures after.messages == map[1 := Message(from, to, "task", "task", Some(1), None, 10, None, Some(10 + ttl)),
                                  2 := Message(to, from, "done", "response", Some(1), Some(1), 20, None, Some(20 + ttl))]
  {
    var reply := Draft(to, from, "done", true, "response", Some(1));
    SendErrorsIff(first, reply);
    SentLeaves(first, maxOpen, 2, reply, 20, ttl, after);
    AnswerCompletes(first, maxOpen, ttl, 7, 2, reply, 20, after);
    assert after.delegations.Keys == {7} && after.messages.Keys == {1, 2};
  }

  lemma EmptyIsValid(agents: Agents, maxOpen: nat)
    ensures Valid(Hub(agents, map[], map[]), maxOpen)
  {
    forall a: string ensures OpenFrom(map[], a) == {} {}
  }

  lemma TwoSteps(a: Hub, first: Op, b: Hub, second: Op, c: Hub, ttl: nat, maxOpen: nat)
    requires Fresh(a, first) && b == Step(a, first, ttl, maxOpen) && Fresh(b, second) && c == Step(b, second, ttl, maxOpen)
    ensures IsRun(a, [first, second], ttl, maxOpen) && Run(a, [first, second], ttl, maxOpen) == c
  {
    assert [first, second][1..] == [second] && [second][1..] == [];
    assert Run(b, [second], ttl, maxOpen) == Run(c, [], ttl, maxOpen);
  }

  // ---- the services ----

  class MessageService {
    var agents: Agents
    var messages: map<nat, Message>
    var delegations: map<nat, Delegation>
    const ttl: nat
    const maxOpen: nat

    constructor (agents: Agents, ttl: nat, maxOpen: nat)
      ensures State() == Hub(agents, map[], map[]) && Valid(State(), this.maxOpen)
      ensures this.ttl == ttl && this.maxOpen == maxOpen
    {
      this.agents, this.ttl, this.maxOpen := agents, ttl, maxOpen;
      messages, delegations := map[], map[];
      new;
      EmptyIsValid(agents, maxOpen);
    }

    ghost function State(): Hub
      reads this
    {
      Hub(agents, messages, delegations)
    }

    method SendMessage(id: nat, d: Draft, now: nat) returns (error: Option<SendError>)
      requires Valid(State(), maxOpen) && Fresh(State(), Send(id, d, now))
      modifies this`messages, this`delegations
      ensures State() == Sent(old(State()), id, d, now, ttl) && Valid(State(), maxOpen)
      ensures error == Check(old(State()), d)
      ensures error == None <==>
                && d.bodyOk && d.sender != d.recipient && MayWrite(agents, d.sender, d.recipient)
                && (d.inReplyTo == None ||
                    (d.inReplyTo.value in old(messages) &&
                     {old(messages)[d.inReplyTo.value].sender, old(messages)[d.inReplyTo.value].recipient} == {d.sender, d.recipient}))
      ensures error.Some? ==> messages == old(messages) && delegations == old(delegations)
      ensures error == None ==> messages == old(messages)[id := Message(d.sender, d.recipient, d.body, d.kind,
                if d.inReplyTo.Some? then old(messages)[d.inReplyTo.value].threadId else Some(id), d.inReplyTo,
                now, None, Some(now + ttl))]
      ensures delegations.Keys == old(delegations).Keys
      ensures error == None ==> forall c :: c in old(delegations) ==>
                delegations[c] ==
                if d.inReplyTo.Some? && old(delegations)[c].status == Open && old(delegations)[c].delegator == d.recipient &&
                   old(delegations)[c].delegate == d.sender && old(delegations)[c].root == messages[id].threadId
                then old(delegations)[c].(status := Completed, result := Some(id)) else old(delegations)[c]
    {
      ghost var before := State();
      SendKeepsValid(before, id, d, now, ttl, maxOpen);
      SendErrorsIff(before, d);
      if Check(before, d) == None { SentLeaves(before, maxOpen, id, d, now, ttl, Sent(before, id, d, now, ttl)); }
      if !d.bodyOk { return Some(BadBody); }
      if d.sender == d.recipient { return Some(SameAgent); }
      if d.recipient !in agents { return Some(UnknownRecipient); }
      var allowed := agents[d.recipient];
      if allowed.Some? && d.sender !in allowed.value { return Some(NotAllowed); }
      var thread: Option<nat> := None;
      if d.inReplyTo.Some? {
        var replied := d.inReplyTo.value;
        if replied !in messages { return Some(ForeignReply); }
        var parent := messages[replied];
        if Pair(parent) != {d.sender, d.recipient} { return Some(ForeignReply); }
        thread := Some(if parent.threadId.Some? && parent.threadId.value != 0 then parent.threadId.value else replied);
      }
      var m := Message(d.sender, d.recipient, d.body, d.kind, thread, d.inReplyTo, now, None, Some(now + ttl));
      if m.threadId == None { m := m.(threadId := Some(id)); }
      messages := messages[id := m];
      RowIsThreaded(before, id, d, now, ttl);
      assert m == Row(before, id, d, now, ttl);
      if d.inReplyTo.Some? { MaybeCompleteDelegation(before, id, m); }
      return None;
    }

    /** Closes the open delegation a reply answers, if there is one. */
    method MaybeCompleteDelegation(ghost before: Hub, id: nat, m: Message)
      requires Valid(before, maxOpen) && before.delegations == delegations
      requires m.threadId.Some? && m.inReplyTo.Some?
      modifies this`delegations
      ensures delegations == Settled(old(delegations), id, m)
    {
      SettledShape(delegations, id, m);
      if d :| d in delegations && delegations[d].status == Open && delegations[d].delegator == m.recipient &&
              delegations[d].delegate == m.sender && delegations[d].root == m.threadId {
        assert Answers(delegations[d], m);
        forall c | c in delegations && Answers(delegations[c], m) ensures c == d { AnswerIsUnique(before, maxOpen, m, c, d); }
        delegations := delegations[d := delegations[d].(status := Completed, result := Some(id))];
      } else {
        assert forall c :: c in delegations ==> !Answers(delegations[c], m);
      }
    }

    method AckDelivery(agent: string, id: nat, now: nat) returns (found: bool)
      requires Valid(State(), maxOpen)
      modifies this`messages
      ensures State() == Acked(old(State()), agent, id, now) && Valid(State(), maxOpen)
      ensures found <==> id in old(messages) && old(messages)[id].recipient == agent
      ensures messages == if found && old(messages)[id].deliveredAt == None
                          then old(messages)[id := old(messages)[id].(deliveredAt := Some(now))] else old(messages)
    {
      AckKeepsValid(State(), agent, id, now, maxOpen);
      if id !in messages || messages[id].recipient != agent { return false; }
      if messages[id].deliveredAt == None {
        messages := messages[id := messages[id].(deliveredAt := Some(now))];
      }
      return true;
    }

    method DelegateTask(id: nat, row: nat, from: string, to: string, body: string, bodyOk: bool, now: nat)
      returns (result: HandOff)
      requires Valid(State(), maxOpen) && Fresh(State(), Delegate(id, row, from, to, body, bodyOk, now))
      modifies this`messages, this`delegations
      ensures (result, State()) == Delegated(old(State()), id, row, from, to, body, bodyOk, now, ttl, maxOpen)
      ensures Valid(State(), maxOpen)
      ensures var open := set d | d in old(delegations) && old(delegations)[d].delegator == from && old(delegations)[d].status == Open;
              result == if from !in agents then Vanished
                        else if from == to then Failed(SameAgent)
                        else if |open| >= maxOpen then Refused
                        else if !bodyOk then Failed(BadBody)
                        else if to !in agents then Failed(UnknownRecipient)
                        else HandedOff
      ensures !result.HandedOff? ==> messages == old(messages) && delegations == old(delegations)
      ensures result.HandedOff? && !MayWrite(agents, from, to) ==>
                messages == old(messages) && delegations == old(delegations)[row := Delegation(from, to, None, None, Declined)]
      ensures result.HandedOff? && MayWrite(agents, from, to) ==>
                && messages == old(messages)[id := Message(from, to, body, "task", Some(id), None, now, None, Some(now + ttl))]
                && delegations == old(delegations)[row := Delegation(from, to, Some(id), None, Open)]
    {
      DelegateKeepsValid(State(), id, row, from, to, body, bodyOk, now, ttl, maxOpen);
      if from !in agents { return Vanished; }
      if from == to { return Failed(SameAgent); }
      assert OpenFrom(delegations, from) ==
             set d | d in delegations && delegations[d].delegator == from && delegations[d].status == Open;
      var count := |OpenFrom(delegations, from)|;
      if count >= maxOpen { return Refused; }
      var error := SendMessage(id, TaskDraft(from, to, body, bodyOk), now);
      if error == Some(NotAllowed) {
        delegations := delegations[row := Delegation(from, to, None, None, Declined)];
        return HandedOff;
      }
      if error.Some? { return Failed(error.value); }
      delegations := delegations[row := Delegation(from, to, Some(id), None, Open)];
      return HandedOff;
    }
  }
}
