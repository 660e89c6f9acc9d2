/** At-least-once delivery between the hub and the daemons, with lost frames, lost
    acknowledgements, redelivery and replaced sockets. */
module Delivery {
  import opened Basics
  import opened MessageStore
  import M = Messaging

  type Message = M.Message

  /** A message on its way to a daemon: the hub's id and the row as it was when sent. */
  datatype Wire = Wire(id: nat, message: Message)

  /** A pushed message is a frame of one, a hello_ack carries the whole pending snapshot. */
  type Frame = seq<Wire>

  /** A connection takes its snapshot first, registers next and is greeted last; other
      connections and sends run in between. */
  datatype Phase = Greeting(pending: Frame) | Registered(pending: Frame) | Greeted | Gone

  datatype Socket = Socket(owner: string, phase: Phase, down: seq<Frame>, up: seq<nat>)

  datatype World = World(now: nat, hub: M.Hub, agents: map<string, nat>, sockets: map<nat, Socket>,
                         stores: map<string, History>)

  function StoreOf(stores: map<string, History>, slug: string): History {
    if slug in stores then stores[slug] else []
  }

  // ---- the pending query ----

  predicate IsPendingFor(messages: map<nat, Message>, slug: string, now: nat, id: nat) {
    && id in messages && messages[id].recipient == slug && messages[id].deliveredAt == None
    && (messages[id].expiresAt == None || messages[id].expiresAt.value > now)
  }

  predicate Older(messages: map<nat, Message>, a: nat, b: nat) {
    && a in messages && b in messages
    && (messages[a].createdAt < messages[b].createdAt || (messages[a].createdAt == messages[b].createdAt && a < b))
  }

  ghost predicate OldestFirst(messages: map<nat, Message>, ids: seq<nat>) {
    forall i, j :: 0 <= i < j < |ids| ==> Older(messages, ids[i], ids[j])
  }

  /** The snapshot: what is neither delivered nor expired, oldest first. */
  ghost predicate IsPending(messages: map<nat, Message>, slug: string, now: nat, ids: seq<nat>) {
    && (forall id: nat :: id in ids <==> IsPendingFor(messages, slug, now, id))
    && OldestFirst(messages, ids)
  }

  lemma {:induction false} SortedUnique(messages: map<nat, Message>, a: seq<nat>, b: seq<nat>)
    requires OldestFirst(messages, a) && OldestFirst(messages, b)
    requires forall id: nat :: id in a <==> id in b
    ensures a == b
  {
    assert b == [] || b[0] in b;
    if a != [] {
      assert a[0] in b && b[0] in a by { assert a[0] in a; if b != [] { assert b[0] in b; } }
      var k :| 0 <= k < |b| && b[k] == a[0];
      var l :| 0 <= l < |a| && a[l] == b[0];
      assert a[0] == b[0];
      forall id: nat ensures id in a[1..] <==> id in b[1..] {
        if id in a[1..] { assert id in a && Older(messages, a[0], id); }
        if id in b[1..] { assert id in b && Older(messages, b[0], id); }
      }
      SortedUnique(messages, a[1..], b[1..]);
      assert a == [a[0]] + a[1..] && b == [b[0]] + b[1..];
    }
  }

  /** There is exactly one snapshot at any moment. */
  lemma PendingUnique(messages: map<nat, Message>, slug: string, now: nat, a: seq<nat>, b: seq<nat>)
    requires IsPending(messages, slug, now, a) && IsPending(messages, slug, now, b)
    ensures a == b
  {
    SortedUnique(messages, a, b);
  }

  /** Runs the query: collects the rows that qualify and sorts them as they come. */
  method PendingFor(messages: map<nat, Message>, slug: string, now: nat) returns (ids: seq<nat>)
    ensures IsPending(messages, slug, now, ids)
    ensures forall id: nat :: id in ids <==>
              && id in messages && messages[id].recipient == slug && messages[id].deliveredAt == None
              && (messages[id].expiresAt == None || messages[id].expiresAt.value > now)
    ensures forall i, j :: 0 <= i < j < |ids| ==>
              && ids[i] in messages && ids[j] in messages
              && (messages[ids[i]].createdAt < messages[ids[j]].createdAt ||
                  (messages[ids[i]].createdAt == messages[ids[j]].createdAt && ids[i] < ids[j]))
  {
    ids := [];
    var left := messages.Keys;
    while left != {}
      invariant left <= messages.Keys
      invariant forall id: nat :: id in ids <==> id !in left && IsPendingFor(messages, slug, now, id)
      invariant OldestFirst(messages, ids)
      decreases |left|
    {
      var id: nat :| id in left;
      left := left - {id};
      if IsPendingFor(messages, slug, now, id) {
        var k := |ids|;
        while k > 0 && Older(messages, id, ids[k - 1])
          invariant 0 <= k <= |ids|
          invariant forall i :: k <= i < |ids| ==> Older(messages, id, ids[i])
        {
          k := k - 1;
        }
        forall i | 0 <= i < k ensures Older(messages, ids[i], id) {
          assert Older(messages, ids[k - 1], id);
        }
        ids := ids[..k] + [id] + ids[k..];
      }
    }
  }

  /** The rows behind a snapshot. */
  function Wires(messages: map<nat, Message>, ids: seq<nat>): (f: Frame)
    requires forall id :: id in ids ==> id in messages
    ensures |f| == |ids|
  {
    seq(|ids|, i requires 0 <= i < |ids| => assert ids[i] in ids; Wire(ids[i], messages[ids[i]]))
  }

  // ---- the daemon's side ----

  /** The record a daemon keeps of a message it receives. */
  function Copy(id: nat, m: Message): Stored {
    Stored(Some(id), m.sender, m.recipient, m.body, m.kind, m.threadId, m.inReplyTo, false, false)
  }

  function Kept(h: History, f: Frame): History
    decreases |f|
  {
    if f == [] then h else Kept(Appended(h, Copy(f[0].id, f[0].message)), f[1..])
  }

  function Ids(f: Frame): seq<nat> {
    seq(|f|, i requires 0 <= i < |f| => f[i].id)
  }

  // ---- steps ----

  datatype Event =
    | Tick(to: nat)
    | Send(id: nat, draft: M.Draft, ttl: nat)
    | Allow(who: string, senders: Option<set<string>>)
    | Hello(s: nat, slug: string, pending: seq<nat>)
    | Connect(s: nat)
    | Greet(s: nat)
    | Receive(s: nat, via: Option<nat>)
    | LoseFrame(s: nat)
    | LoseAck(s: nat)
    | HubAck(s: nat)
    | Forge(s: nat, id: nat)
    | Leave(s: nat)
    | Kick(slug: string)
    | MarkRead(slug: string, ids: set<nat>)
    | Note(slug: string, record: Stored)

  /** A daemon acknowledges over whichever of its own sockets is current, or over none; only
      the acknowledgements an agent makes up for messages of others are unrestricted. */
  ghost predicate Enabled(w: World, e: Event) {
    match e
    case Tick(to) => to >= w.now
    case Send(id, _, _) => id != 0 && id !in w.hub.messages
    case Allow(_, _) => true
    case Hello(s, slug, pending) => s !in w.sockets && IsPending(w.hub.messages, slug, w.now, pending)
    case Connect(s) => s in w.sockets && w.sockets[s].phase.Greeting?
    case Greet(s) => s in w.sockets && w.sockets[s].phase.Registered?
    case Receive(s, via) =>
      && s in w.sockets && w.sockets[s].down != []
      && (via.Some? ==> via.value in w.sockets && w.sockets[via.value].owner == w.sockets[s].owner)
    case LoseFrame(s) => s in w.sockets && w.sockets[s].down != []
    case LoseAck(s) => s in w.sockets && w.sockets[s].up != []
    case HubAck(s) => s in w.sockets && w.sockets[s].up != []
    case Forge(s, id) => s in w.sockets && id in w.hub.messages && w.hub.messages[id].recipient != w.sockets[s].owner
    case Leave(s) => s in w.sockets
    case Kick(_) => true
    case MarkRead(_, _) => true
    case Note(_, record) => record.id == None
  }

  function Closed(sockets: map<nat, Socket>, s: nat): map<nat, Socket> {
    if s in sockets then sockets[s := sockets[s].(phase := Gone)] else sockets
  }

  /** Pushed to the recipient's registered socket, if it has a live one. */
  function Pushed(w: World, slug: string, x: Wire): map<nat, Socket> {
    if slug in w.agents && w.agents[slug] in w.sockets && !w.sockets[w.agents[slug]].phase.Gone? then
      var s := w.agents[slug];
      w.sockets[s := w.sockets[s].(down := w.sockets[s].down + [[x]])]
    else w.sockets
  }

  ghost function SendStep(w: World, id: nat, d: M.Draft, ttl: nat): World
    requires Enabled(w, Send(id, d, ttl))
  {
    if M.Check(w.hub, d).Some? then w
    else w.(hub := M.Sent(w.hub, id, d, w.now, ttl),
            sockets := Pushed(w, d.recipient, Wire(id, M.Row(w.hub, id, d, w.now, ttl))))
  }

  ghost function ConnectStep(w: World, s: nat): World
    requires Enabled(w, Connect(s))
  {
    var slug := w.sockets[s].owner;
    var cleared := if slug in w.agents && w.agents[slug] != s then Closed(w.sockets, w.agents[slug]) else w.sockets;
    w.(agents := w.agents[slug := s], sockets := cleared[s := w.sockets[s].(phase := Registered(w.sockets[s].phase.pending))])
  }

  /** The daemon stores every message of the frame and then acknowledges it, repeated or not. */
  ghost function ReceiveStep(w: World, s: nat, via: Option<nat>): World
    requires Enabled(w, Receive(s, via))
  {
    var me := w.sockets[s];
    var taken := w.sockets[s := me.(down := me.down[1..])];
    w.(stores := w.stores[me.owner := Kept(StoreOf(w.stores, me.owner), me.down[0])],
       sockets := if via == None then taken
                  else taken[via.value := taken[via.value].(up := taken[via.value].up + Ids(me.down[0]))])
  }

  /** The hub credits an acknowledgement to the agent the socket was authenticated for. */
  ghost function HubAckStep(w: World, s: nat): World
    requires Enabled(w, HubAck(s))
  {
    var me := w.sockets[s];
    w.(hub := M.Acked(w.hub, me.owner, me.up[0], w.now), sockets := w.sockets[s := me.(up := me.up[1..])])
  }

  ghost function Step(w: World, e: Event): World
    requires Enabled(w, e)
  {
    match e
    case Tick(to) => w.(now := to)
    case Send(id, d, ttl) => SendStep(w, id, d, ttl)
    case Allow(who, senders) => w.(hub := M.Allowed(w.hub, who, senders))
    case Hello(s, slug, pending) =>
      w.(sockets := w.sockets[s := Socket(slug, Greeting(Wires(w.hub.messages, pending)), [], [])])
    case Connect(s) => ConnectStep(w, s)
    case Greet(s) =>
      var me := w.sockets[s];
      w.(sockets := w.sockets[s := me.(phase := Greeted, down := me.down + [me.phase.pending])])
    case Receive(s, via) => ReceiveStep(w, s, via)
    case LoseFrame(s) => w.(sockets := w.sockets[s := w.sockets[s].(down := w.sockets[s].down[1..])])
    case LoseAck(s) => w.(sockets := w.sockets[s := w.sockets[s].(up := w.sockets[s].up[1..])])
    case HubAck(s) => HubAckStep(w, s)
    case Forge(s, id) => w.(sockets := w.sockets[s := w.sockets[s].(up := w.sockets[s].up + [id])])
    case Leave(s) =>
      var slug := w.sockets[s].owner;
      w.(agents := if slug in w.agents && w.agents[slug] == s then w.agents - {slug} else w.agents,
         sockets := Closed(w.sockets, s))
    case Kick(slug) =>
      w.(agents := w.agents - {slug}, sockets := if slug in w.agents then Closed(w.sockets, w.agents[slug]) else w.sockets)
    case MarkRead(slug, ids) => w.(stores := w.stores[slug := MarkedRead(StoreOf(w.stores, slug), ids)])
    case Note(slug, record) => w.(stores := w.stores[slug := StoreOf(w.stores, slug) + [record]])
  }

  ghost predicate IsRun(w: World, events: seq<Event>)
    decreases |events|
  {
    events == [] || (Enabled(w, events[0]) && IsRun(Step(w, events[0]), events[1..]))
  }

  ghost function Run(w: World, events: seq<Event>): World
    requires IsRun(w, events)
    decreases |events|
  {
    if events == [] then w else Run(Step(w, events[0]), events[1..])
  }

  // ---- what every step keeps ----

  /** A message as sent, whatever became of its delivery. */
  function Content(m: Message): Message {
    m.(deliveredAt := None)
  }

  ghost predicate Faithful(messages: map<nat, Message>, slug: string, x: Wire) {
    x.id in messages && messages[x.id].recipient == slug && Content(x.message) == Content(messages[x.id])
  }

  ghost predicate Carries(messages: map<nat, Message>, slug: string, f: Frame) {
    forall k :: 0 <= k < |f| ==> Faithful(messages, slug, f[k])
  }

  /** An acknowledgement in flight that could count is for a message already stored. */
  ghost predicate AckOk(messages: map<nat, Message>, h: History, slug: string, id: nat) {
    id in messages && (messages[id].recipient == slug ==> Knows(h, id))
  }

  ghost predicate SocketOk(messages: map<nat, Message>, stores: map<string, History>, s: Socket) {
    && (s.phase.Greeting? || s.phase.Registered? ==> Carries(messages, s.owner, s.phase.pending))
    && (forall k :: 0 <= k < |s.down| ==> Carries(messages, s.owner, s.down[k]))
    && (forall k :: 0 <= k < |s.up| ==> AckOk(messages, StoreOf(stores, s.owner), s.owner, s.up[k]))
  }

  /** Every record with a hub id is a copy of that message, addressed to this agent, and the only one. */
  ghost predicate StoreOk(messages: map<nat, Message>, slug: string, h: History) {
    && NoRepeats(h)
    && forall i :: 0 <= i < |h| && h[i].id.Some? ==>
         && h[i].id.value in messages && messages[h[i].id.value].recipient == slug
         && h[i].(read := false) == Copy(h[i].id.value, messages[h[i].id.value])
  }

  ghost predicate DeliveredIsStored(messages: map<nat, Message>, stores: map<string, History>) {
    forall id :: id in messages && messages[id].deliveredAt.Some? ==> Knows(StoreOf(stores, messages[id].recipient), id)
  }

  ghost predicate Valid(w: World) {
    && (forall s :: s in w.sockets ==> SocketOk(w.hub.messages, w.stores, w.sockets[s]))
    && (forall slug :: slug in w.stores ==> StoreOk(w.hub.messages, slug, w.stores[slug]))
    && DeliveredIsStored(w.hub.messages, w.stores)
    && (forall slug :: slug in w.agents ==> w.agents[slug] in w.sockets && w.sockets[w.agents[slug]].owner == slug)
  }

  /** Messages are never lost or rewritten but for the first delivery time. */
  ghost predicate Grows(before: map<nat, Message>, after: map<nat, Message>) {
    forall id :: id in before ==>
      && id in after && Content(after[id]) == Content(before[id])
      && (before[id].deliveredAt.Some? ==> after[id].deliveredAt == before[id].deliveredAt)
  }

  ghost predicate Remembers(before: map<string, History>, after: map<string, History>) {
    forall slug: string, id: nat | Knows(StoreOf(before, slug), id) :: Knows(StoreOf(after, slug), id)
  }

  lemma CarriesGrows(before: map<nat, Message>, after: map<nat, Message>, slug: string, f: Frame)
    requires Grows(before, after) && Carries(before, slug, f)
    ensures Carries(after, slug, f)
  {
    forall k | 0 <= k < |f| ensures Faithful(after, slug, f[k]) {
      assert Faithful(before, slug, f[k]);
      assert after[f[k].id].recipient == Content(after[f[k].id]).recipient == Content(before[f[k].id]).recipient;
    }
  }

  lemma SocketGrows(before: map<nat, Message>, after: map<nat, Message>, stores: map<string, History>,
                    later: map<string, History>, s: Socket)
    requires Grows(before, after) && Remembers(stores, later) && SocketOk(before, stores, s)
    ensures SocketOk(after, later, s)
  {
    if s.phase.Greeting? || s.phase.Registered? { CarriesGrows(before, after, s.owner, s.phase.pending); }
    forall k | 0 <= k < |s.down| ensures Carries(after, s.owner, s.down[k]) {
      CarriesGrows(before, after, s.owner, s.down[k]);
    }
    forall k | 0 <= k < |s.up| ensures AckOk(after, StoreOf(later, s.owner), s.owner, s.up[k]) {
      var id := s.up[k];
      assert AckOk(before, StoreOf(stores, s.owner), s.owner, id);
      assert after[id].recipient == Content(after[id]).recipient == Content(before[id]).recipient;
    }
  }

  lemma StoreGrows(before: map<nat, Message>, after: map<nat, Message>, slug: string, h: History)
    requires Grows(before, after) && StoreOk(before, slug, h)
    ensures StoreOk(after, slug, h)
  {
    forall i | 0 <= i < |h| && h[i].id.Some?
      ensures h[i].id.value in after && after[h[i].id.value].recipient == slug
      ensures h[i].(read := false) == Copy(h[i].id.value, after[h[i].id.value])
    {
      var id := h[i].id.value;
      assert Copy(id, after[id]) == Copy(id, Content(after[id])) == Copy(id, Content(before[id])) == Copy(id, before[id]);
      assert after[id].recipient == Content(after[id]).recipient == Content(before[id]).recipient;
    }
  }

  /** Storing a frame keeps one copy of each of its messages and everything stored before. */
  lemma {:induction false} KeptStores(messages: map<nat, Message>, slug: string, h: History, f: Frame)
    requires StoreOk(messages, slug, h) && Carries(messages, slug, f)
    ensures StoreOk(messages, slug, Kept(h, f)) && h <= Kept(h, f)
    ensures forall k :: 0 <= k < |f| ==> Knows(Kept(h, f), f[k].id)
    decreases |f|
  {
    if f != [] {
      var m := Copy(f[0].id, f[0].message);
      var next := Appended(h, m);
      AppendIsIdempotent(h, m);
      assert Faithful(messages, slug, f[0]);
      assert m == Copy(f[0].id, Content(f[0].message)) == Copy(f[0].id, Content(messages[f[0].id]));
      assert StoreOk(messages, slug, next);
      assert Carries(messages, slug, f[1..]) by {
        forall k | 0 <= k < |f[1..]| ensures Faithful(messages, slug, f[1..][k]) { assert f[1..][k] == f[k + 1]; }
      }
      KeptStores(messages, slug, next, f[1..]);
      PrefixKnows(next, Kept(h, f), f[0].id);
      forall k | 0 <= k < |f| ensures Knows(Kept(h, f), f[k].id) {
        if k > 0 { assert f[k] == f[1..][k - 1]; }
      }
    }
  }

  lemma PrefixKnows(h: History, longer: History, id: nat)
    requires h <= longer
    ensures Knows(h, id) ==> Knows(longer, id)
  {
    if Knows(h, id) {
      var i :| 0 <= i < |h| && h[i].id == Some(id);
      assert longer[i] == h[i];
    }
  }

  // ---- each step keeps it ----

  lemma AckShape(h: M.Hub, agent: string, id: nat, now: nat)
    ensures var after := M.Acked(h, agent, id, now).messages;
            && Grows(h.messages, after)
            && forall i :: i in after && after[i].deliveredAt.Some? && h.messages[i].deliveredAt == None ==>
                 i == id && after[i].recipient == agent
    ensures M.Acked(h, agent, id, now).messages.Keys == h.messages.Keys
    ensures id in h.messages && h.messages[id].recipient == agent ==>
              M.Acked(h, agent, id, now).messages[id].deliveredAt.Some?
  {
    M.AckTouchesDeliveryOnly(h, agent, id, now);
  }

  lemma SendShape(h: M.Hub, id: nat, d: M.Draft, now: nat, ttl: nat)
    requires id !in h.messages && M.Check(h, d) == None
    ensures M.Sent(h, id, d, now, ttl).messages == h.messages[id := M.Row(h, id, d, now, ttl)]
    ensures Grows(h.messages, M.Sent(h, id, d, now, ttl).messages)
  {}

  /** Everything but the sockets carries over when the tables grow and no delivery is recorded unstored. */
  ghost predicate Advances(w: World, after: World) {
    && Grows(w.hub.messages, after.hub.messages)
    && Remembers(w.stores, after.stores)
  }

  lemma AdvanceKeepsSocket(w: World, after: World, s: nat)
    requires Valid(w) && Advances(w, after) && s in w.sockets
    ensures SocketOk(after.hub.messages, after.stores, w.sockets[s])
  {
    SocketGrows(w.hub.messages, after.hub.messages, w.stores, after.stores, w.sockets[s]);
  }

  lemma SendKeepsValid(w: World, id: nat, d: M.Draft, ttl: nat, after: World)
    requires Valid(w) && Enabled(w, Send(id, d, ttl)) && after == SendStep(w, id, d, ttl)
    ensures Valid(after) && Advances(w, after)
  {
    if M.Check(w.hub, d) == None {
      SendShape(w.hub, id, d, w.now, ttl);
      var m := M.Row(w.hub, id, d, w.now, ttl);
      assert Faithful(after.hub.messages, d.recipient, Wire(id, m));
      forall s | s in w.sockets ensures SocketOk(after.hub.messages, after.stores, after.sockets[s]) {
        AdvanceKeepsSocket(w, after, s);
      }
      forall slug | slug in w.stores ensures StoreOk(after.hub.messages, slug, w.stores[slug]) {
        StoreGrows(w.hub.messages, after.hub.messages, slug, w.stores[slug]);
      }
    }
  }

  lemma HelloKeepsValid(w: World, s: nat, slug: string, pending: seq<nat>, after: World)
    requires Valid(w) && Enabled(w, Hello(s, slug, pending)) && after == Step(w, Hello(s, slug, pending))
    ensures Valid(after) && Advances(w, after)
  {
    var f := Wires(w.hub.messages, pending);
    forall k | 0 <= k < |f| ensures Faithful(w.hub.messages, slug, f[k]) {
      assert pending[k] in pending;
    }
  }

  /** Frames taken, lost or added and acknowledgements taken, lost or added keep a socket in order. */
  lemma SocketEdits(messages: map<nat, Message>, stores: map<string, History>, s: Socket)
    requires SocketOk(messages, stores, s)
    ensures SocketOk(messages, stores, s.(phase := Gone))
    ensures s.down != [] ==> SocketOk(messages, stores, s.(down := s.down[1..]))
    ensures s.up != [] ==> SocketOk(messages, stores, s.(up := s.up[1..]))
    ensures s.phase.Greeting? ==> SocketOk(messages, stores, s.(phase := Registered(s.phase.pending)))
  {}

  lemma SocketGreeted(messages: map<nat, Message>, stores: map<string, History>, s: Socket)
    requires SocketOk(messages, stores, s) && s.phase.Registered?
    ensures SocketOk(messages, stores, s.(phase := Greeted, down := s.down + [s.phase.pending]))
  {}

  lemma SocketAcks(messages: map<nat, Message>, stores: map<string, History>, s: Socket, ids: seq<nat>)
    requires SocketOk(messages, stores, s)
    requires forall k :: 0 <= k < |ids| ==> AckOk(messages, StoreOf(stores, s.owner), s.owner, ids[k])
    ensures SocketOk(messages, stores, s.(up := s.up + ids))
  {
    var n := s.(up := s.up + ids);
    forall k | 0 <= k < |n.up| ensures AckOk(messages, StoreOf(stores, n.owner), n.owner, n.up[k]) {
      if k >= |s.up| { assert n.up[k] == ids[k - |s.up|]; }
    }
  }

  lemma OneSocketKeepsValid(w: World, s: nat, n: Socket, after: World)
    requires Valid(w) && s in w.sockets && after == w.(sockets := w.sockets[s := n])
    requires n.owner == w.sockets[s].owner && SocketOk(w.hub.messages, w.stores, n)
    ensures Valid(after) && Advances(w, after)
  {}

  lemma KeptRemembers(w: World, s: nat, after: map<string, History>)
    requires Valid(w) && s in w.sockets && w.sockets[s].down != []
    requires after == w.stores[w.sockets[s].owner := Kept(StoreOf(w.stores, w.sockets[s].owner), w.sockets[s].down[0])]
    ensures Remembers(w.stores, after)
    ensures StoreOk(w.hub.messages, w.sockets[s].owner, after[w.sockets[s].owner])
    ensures forall k :: 0 <= k < |w.sockets[s].down[0]| ==>
              AckOk(w.hub.messages, after[w.sockets[s].owner], w.sockets[s].owner, w.sockets[s].down[0][k].id)
  {
    var me := w.sockets[s];
    var h := StoreOf(w.stores, me.owner);
    KeptStores(w.hub.messages, me.owner, h, me.down[0]);
    forall slug: string, id: nat | Knows(StoreOf(w.stores, slug), id) ensures Knows(StoreOf(after, slug), id) {
      if slug == me.owner { PrefixKnows(h, Kept(h, me.down[0]), id); }
    }
    forall k | 0 <= k < |me.down[0]| ensures AckOk(w.hub.messages, after[me.owner], me.owner, me.down[0][k].id) {
      assert Faithful(w.hub.messages, me.owner, me.down[0][k]);
    }
  }

  lemma StoresKeepValid(w: World, slug: string, h: History, after: World)
    requires Valid(w) && after == w.(stores := w.stores[slug := h])
    requires StoreOk(w.hub.messages, slug, h) && Remembers(w.stores, after.stores)
    ensures Valid(after) && Advances(w, after)
  {
    forall t | t in w.sockets ensures SocketOk(w.hub.messages, after.stores, w.sockets[t]) {
      AdvanceKeepsSocket(w, after, t);
    }
  }

  lemma ReceiveKeepsValid(w: World, s: nat, via: Option<nat>, after: World)
    requires Valid(w) && Enabled(w, Receive(s, via)) && after == ReceiveStep(w, s, via)
    ensures Valid(after) && Advances(w, after)
  {
    var me := w.sockets[s];
    var h := Kept(StoreOf(w.stores, me.owner), me.down[0]);
    var stored := w.(stores := w.stores[me.owner := h]);
    KeptRemembers(w, s, stored.stores);
    StoresKeepValid(w, me.owner, h, stored);
    SocketEdits(stored.hub.messages, stored.stores, me);
    var taken := stored.(sockets := stored.sockets[s := me.(down := me.down[1..])]);
    OneSocketKeepsValid(stored, s, me.(down := me.down[1..]), taken);
    if via.Some? {
      var back := taken.sockets[via.value];
      SocketAcks(taken.hub.messages, taken.stores, back, Ids(me.down[0]));
      OneSocketKeepsValid(taken, via.value, back.(up := back.up + Ids(me.down[0])), after);
    }
  }

  lemma HubAckKeepsValid(w: World, s: nat, after: World)
    requires Valid(w) && Enabled(w, HubAck(s)) && after == HubAckStep(w, s)
    ensures Valid(after) && Advances(w, after)
  {
    var me := w.sockets[s];
    AckShape(w.hub, me.owner, me.up[0], w.now);
    assert AckOk(w.hub.messages, StoreOf(w.stores, me.owner), me.owner, me.up[0]);
    forall t | t in w.sockets ensures SocketOk(after.hub.messages, after.stores, after.sockets[t]) {
      AdvanceKeepsSocket(w, after, t);
    }
    forall slug | slug in w.stores ensures StoreOk(after.hub.messages, slug, w.stores[slug]) {
      StoreGrows(w.hub.messages, after.hub.messages, slug, w.stores[slug]);
    }
  }

  lemma MarkedStore(messages: map<nat, Message>, slug: string, h: History, ids: set<nat>)
    requires StoreOk(messages, slug, h)
    ensures StoreOk(messages, slug, MarkedRead(h, ids))
    ensures forall id: nat :: Knows(h, id) ==> Knows(MarkedRead(h, ids), id)
  {
    var r := MarkedRead(h, ids);
    forall i | 0 <= i < |h| ensures r[i].id == h[i].id && r[i].(read := false) == h[i].(read := false) {}
    forall id: nat | Knows(h, id) ensures Knows(r, id) {
      var i :| 0 <= i < |h| && h[i].id == Some(id);
      assert r[i].id == Some(id);
    }
  }

  lemma NotedStore(messages: map<nat, Message>, slug: string, h: History, record: Stored)
    requires StoreOk(messages, slug, h) && record.id == None
    ensures StoreOk(messages, slug, h + [record])
    ensures forall id: nat :: Knows(h, id) ==> Knows(h + [record], id)
  {
    forall id: nat | Knows(h, id) ensures Knows(h + [record], id) { PrefixKnows(h, h + [record], id); }
  }

  lemma CloseKeepsValid(w: World, s: nat, after: World)
    requires Valid(w) && after == w.(sockets := Closed(w.sockets, s))
    ensures Valid(after) && Advances(w, after)
  {
    if s in w.sockets { SocketEdits(w.hub.messages, w.stores, w.sockets[s]); }
  }

  lemma ConnectKeepsValid(w: World, s: nat, after: World)
    requires Valid(w) && Enabled(w, Connect(s)) && after == ConnectStep(w, s)
    ensures Valid(after) && Advances(w, after)
  {
    var me := w.sockets[s];
    var cleared := if me.owner in w.agents && w.agents[me.owner] != s then
                     w.(sockets := Closed(w.sockets, w.agents[me.owner])) else w;
    if me.owner in w.agents { CloseKeepsValid(w, w.agents[me.owner], w.(sockets := Closed(w.sockets, w.agents[me.owner]))); }
    SocketEdits(w.hub.messages, w.stores, me);
    var registered := cleared.(sockets := cleared.sockets[s := me.(phase := Registered(me.phase.pending))]);
    OneSocketKeepsValid(cleared, s, me.(phase := Registered(me.phase.pending)), registered);
  }

  lemma LeaveKeepsValid(w: World, s: nat, after: World)
    requires Valid(w) && Enabled(w, Leave(s)) && after == Step(w, Leave(s))
    ensures Valid(after) && Advances(w, after)
  {
    CloseKeepsValid(w, s, w.(sockets := Closed(w.sockets, s)));
  }

  lemma KickKeepsValid(w: World, slug: string, after: World)
    requires Valid(w) && after == Step(w, Kick(slug))
    ensures Valid(after) && Advances(w, after)
  {
    if slug in w.agents { CloseKeepsValid(w, w.agents[slug], w.(sockets := Closed(w.sockets, w.agents[slug]))); }
  }

  lemma ForgeKeepsValid(w: World, s: nat, id: nat, after: World)
    requires Valid(w) && Enabled(w, Forge(s, id)) && after == Step(w, Forge(s, id))
    ensures Valid(after) && Advances(w, after)
  {
    var me := w.sockets[s];
    SocketAcks(w.hub.messages, w.stores, me, [id]);
    OneSocketKeepsValid(w, s, me.(up := me.up + [id]), after);
  }

  lemma FrameKeepsValid(w: World, e: Event, after: World)
    requires Valid(w) && Enabled(w, e) && after == Step(w, e)
    requires e.Greet? || e.LoseFrame? || e.LoseAck?
    ensures Valid(after) && Advances(w, after)
  {
    var me := w.sockets[e.s];
    SocketEdits(w.hub.messages, w.stores, me);
    if e.Greet? { SocketGreeted(w.hub.messages, w.stores, me); }
    OneSocketKeepsValid(w, e.s, after.sockets[e.s], after);
  }

  lemma MarkKeepsValid(w: World, slug: string, ids: set<nat>, after: World)
    requires Valid(w) && after == Step(w, MarkRead(slug, ids))
    ensures Valid(after) && Advances(w, after)
  {
    MarkedStore(w.hub.messages, slug, StoreOf(w.stores, slug), ids);
    StoresKeepValid(w, slug, MarkedRead(StoreOf(w.stores, slug), ids), after);
  }

  lemma NoteKeepsValid(w: World, slug: string, record: Stored, after: World)
    requires Valid(w) && Enabled(w, Note(slug, record)) && after == Step(w, Note(slug, record))
    ensures Valid(after) && Advances(w, after)
  {
    NotedStore(w.hub.messages, slug, StoreOf(w.stores, slug), record);
    StoresKeepValid(w, slug, StoreOf(w.stores, slug) + [record], after);
  }

  lemma StepKeepsValid(w: World, e: Event, after: World)
    requires Valid(w) && Enabled(w, e) && after == Step(w, e)
    ensures Valid(after) && Advances(w, after)
  {
    match e
    case Tick(_) =>
    case Send(id, d, ttl) => SendKeepsValid(w, id, d, ttl, after);
    case Allow(_, _) =>
    case Hello(s, slug, pending) => HelloKeepsValid(w, s, slug, pending, after);
    case Connect(s) => ConnectKeepsValid(w, s, after);
    case Greet(_) => FrameKeepsValid(w, e, after);
    case Receive(s, via) => ReceiveKeepsValid(w, s, via, after);
    case LoseFrame(_) => FrameKeepsValid(w, e, after);
    case LoseAck(_) => FrameKeepsValid(w, e, after);
    case HubAck(s) => HubAckKeepsValid(w, s, after);
    case Forge(s, id) => ForgeKeepsValid(w, s, id, after);
    case Leave(s) => LeaveKeepsValid(w, s, after);
    case Kick(slug) => KickKeepsValid(w, slug, after);
    case MarkRead(slug, ids) => MarkKeepsValid(w, slug, ids, after);
    case Note(slug, record) => NoteKeepsValid(w, slug, record, after);
  }

  // ---- safety over every run ----

  lemma {:induction false} RunKeepsValid(w: World, events: seq<Event>)
    requires Valid(w) && IsRun(w, events)
    ensures Valid(Run(w, events)) && Grows(w.hub.messages, Run(w, events).hub.messages)
    decreases |events|
  {
    if events != [] {
      var next := Step(w, events[0]);
      StepKeepsValid(w, events[0], next);
      RunKeepsValid(next, events[1..]);
      GrowsOn(w.hub.messages, next.hub.messages, Run(w, events).hub.messages);
    }
  }

  lemma GrowsOn(a: map<nat, Message>, b: map<nat, Message>, c: map<nat, Message>)
    requires Grows(a, b) && Grows(b, c)
    ensures Grows(a, c)
  {}

  /** A hub with no messages and no connections, whoever its agents are. */
  function Start(agents: M.Agents, now: nat): World {
    World(now, M.Hub(agents, map[], map[]), map[], map[], map[])
  }

  /** A record that says what the message said, to whom and from whom. */
  predicate Records(s: Stored, id: nat, m: Message) {
    && s.id == Some(id) && s.sender == m.sender && s.recipient == m.recipient && s.body == m.body && s.kind == m.kind
    && s.threadId == m.threadId && s.inReplyTo == m.inReplyTo && !s.outgoing
  }

  /** The history holds one record of the message, and no other of its id. */
  ghost predicate OneCopy(h: History, id: nat, m: Message) {
    exists i :: 0 <= i < |h| && Records(h[i], id, m) && forall j :: 0 <= j < |h| && h[j].id == Some(id) ==> j == i
  }

  lemma StoredOnce(messages: map<nat, Message>, slug: string, h: History, id: nat)
    requires StoreOk(messages, slug, h) && Knows(h, id)
    ensures id in messages && OneCopy(h, id, messages[id])
  {
    var i :| 0 <= i < |h| && h[i].id == Some(id);
    forall j | 0 <= j < |h| && h[j].id == Some(id) ensures j == i {}
    assert h[i].(read := false) == Copy(id, messages[id]);
    assert Records(h[i], id, messages[id]);
  }

  /** Whatever frames, acknowledgements and sockets are lost and however often a message is
      redelivered, a recorded delivery means exactly one faithful copy at the recipient. */
  lemma DeliveredMeansOneCopy(agents: M.Agents, start: nat, events: seq<Event>, id: nat)
    requires IsRun(Start(agents, start), events)
    ensures var w := Run(Start(agents, start), events);
            id in w.hub.messages && w.hub.messages[id].deliveredAt.Some? ==>
              OneCopy(StoreOf(w.stores, w.hub.messages[id].recipient), id, w.hub.messages[id])
  {
    var w := Run(Start(agents, start), events);
    RunKeepsValid(Start(agents, start), events);
    if id in w.hub.messages && w.hub.messages[id].deliveredAt.Some? {
      var slug := w.hub.messages[id].recipient;
      assert Knows(StoreOf(w.stores, slug), id);
      StoredOnce(w.hub.messages, slug, StoreOf(w.stores, slug), id);
    }
  }

  /** No run rewrites a message, and a delivery time once set is final. */
  lemma DeliveryTimeIsFinal(w: World, events: seq<Event>, id: nat)
    requires Valid(w) && IsRun(w, events) && id in w.hub.messages
    ensures id in Run(w, events).hub.messages && Content(Run(w, events).hub.messages[id]) == Content(w.hub.messages[id])
    ensures w.hub.messages[id].deliveredAt.Some? ==>
              Run(w, events).hub.messages[id].deliveredAt == w.hub.messages[id].deliveredAt
  {
    RunKeepsValid(w, events);
  }

  /** Only the hub taking the recipient's own acknowledgement from one of its sockets records
      a delivery, at that moment. */
  lemma OnlyTheRecipientDelivers(w: World, e: Event, after: World, id: nat)
    requires Valid(w) && Enabled(w, e) && after == Step(w, e)
    requires id in after.hub.messages && after.hub.messages[id].deliveredAt.Some?
    requires id in w.hub.messages ==> w.hub.messages[id].deliveredAt == None
    ensures e.HubAck? && w.sockets[e.s].up[0] == id && w.sockets[e.s].owner == after.hub.messages[id].recipient
    ensures after.hub.messages[id].deliveredAt == Some(w.now)
  {
    if e.HubAck? { AckShape(w.hub, w.sockets[e.s].owner, w.sockets[e.s].up[0], w.now); }
  }

  lemma OneCopyOfContent(h: History, id: nat, m: Message, n: Message)
    requires OneCopy(h, id, m) && Content(m) == Content(n)
    ensures OneCopy(h, id, n)
  {
    var i :| 0 <= i < |h| && Records(h[i], id, m) && forall j :: 0 <= j < |h| && h[j].id == Some(id) ==> j == i;
    assert Content(m).body == m.body && Content(n).body == n.body;
    assert Records(h[i], id, n);
  }

  /** Nothing is lost: at any later moment a message sent is stored by its recipient once, or
      has expired, or rides in the snapshot of a connection made then. */
  lemma NothingIsLost(w: World, events: seq<Event>, id: nat, snapshot: seq<nat>)
    requires Valid(w) && IsRun(w, events) && id in w.hub.messages
    requires IsPending(Run(w, events).hub.messages, w.hub.messages[id].recipient, Run(w, events).now, snapshot)
    ensures var later := Run(w, events);
            var m := w.hub.messages[id];
            || OneCopy(StoreOf(later.stores, m.recipient), id, m)
            || (m.expiresAt.Some? && m.expiresAt.value <= later.now)
            || id in snapshot
  {
    var later := Run(w, events);
    RunKeepsValid(w, events);
    var before := w.hub.messages[id];
    var m := later.hub.messages[id];
    assert Content(m) == Content(before);
    if m.deliveredAt.Some? {
      StoredOnce(later.hub.messages, m.recipient, StoreOf(later.stores, m.recipient), id);
      OneCopyOfContent(StoreOf(later.stores, m.recipient), id, m, before);
    }
  }

  // ---- what a snapshot and a push carry ----

  /** The frame a connection will be greeted with holds exactly the messages to its agent that are
      neither delivered nor expired at the moment of the hello. */
  lemma HelloFrame(w: World, s: nat, slug: string, pending: seq<nat>)
    requires Enabled(w, Hello(s, slug, pending))
    ensures s in Step(w, Hello(s, slug, pending)).sockets
    ensures Step(w, Hello(s, slug, pending)).sockets[s].phase.Greeting?
    ensures var f := Step(w, Hello(s, slug, pending)).sockets[s].phase.pending;
            && (forall k :: 0 <= k < |f| ==>
                  && f[k].id in w.hub.messages && f[k].message == w.hub.messages[f[k].id]
                  && f[k].message.recipient == slug && f[k].message.deliveredAt == None
                  && (f[k].message.expiresAt == None || f[k].message.expiresAt.value > w.now))
            && (forall id: nat :: id in w.hub.messages && w.hub.messages[id].recipient == slug &&
                                  w.hub.messages[id].deliveredAt == None &&
                                  (w.hub.messages[id].expiresAt == None || w.hub.messages[id].expiresAt.value > w.now) ==>
                  exists k :: 0 <= k < |f| && f[k].id == id)
  {
    var f := Step(w, Hello(s, slug, pending)).sockets[s].phase.pending;
    forall k | 0 <= k < |f| ensures f[k].id in pending && IsPendingFor(w.hub.messages, slug, w.now, f[k].id) {
      assert pending[k] in pending;
    }
    forall id: nat | id in w.hub.messages && w.hub.messages[id].recipient == slug &&
                     w.hub.messages[id].deliveredAt == None &&
                     (w.hub.messages[id].expiresAt == None || w.hub.messages[id].expiresAt.value > w.now)
      ensures exists k :: 0 <= k < |f| && f[k].id == id
    {
      assert IsPendingFor(w.hub.messages, slug, w.now, id);
      assert id in pending;
      var k :| 0 <= k < |pending| && pending[k] == id;
      assert f[k].id == id;
    }
  }

  lemma {:induction false} TimeGoesOn(w: World, events: seq<Event>)
    requires IsRun(w, events)
    ensures w.now <= Run(w, events).now
    decreases |events|
  {
    if events != [] {
      TimeGoesOnStep(w, events[0]);
      TimeGoesOn(Step(w, events[0]), events[1..]);
    }
  }

  lemma TimeGoesOnStep(w: World, e: Event)
    requires Enabled(w, e)
    ensures w.now <= Step(w, e).now
  {}

  /** A message that has expired enters no snapshot taken then or at any later moment of any run. */
  lemma ExpiredNeverReturns(w: World, events: seq<Event>, id: nat, s: nat, slug: string, pending: seq<nat>)
    requires Valid(w) && IsRun(w, events) && id in w.hub.messages
    requires w.hub.messages[id].expiresAt.Some? && w.hub.messages[id].expiresAt.value <= w.now
    requires Enabled(Run(w, events), Hello(s, slug, pending))
    ensures id !in pending
  {
    RunKeepsValid(w, events);
    TimeGoesOn(w, events);
    var later := Run(w, events);
    assert Content(later.hub.messages[id]) == Content(w.hub.messages[id]);
    assert later.hub.messages[id].expiresAt == Content(later.hub.messages[id]).expiresAt;
    assert !IsPendingFor(later.hub.messages, slug, later.now, id);
  }

  /** An accepted send to an agent whose socket is up puts the message on that socket, behind what is
      already under way, and on no other. */
  lemma SendIsPushed(w: World, id: nat, d: M.Draft, ttl: nat, s: nat)
    requires Enabled(w, Send(id, d, ttl)) && M.Check(w.hub, d) == None
    requires d.recipient in w.agents && w.agents[d.recipient] == s && s in w.sockets && !w.sockets[s].phase.Gone?
    ensures var after := Step(w, Send(id, d, ttl));
            && id in after.hub.messages && after.hub.messages[id].deliveredAt == None
            && after.sockets.Keys == w.sockets.Keys
            && after.sockets[s] == w.sockets[s].(down := w.sockets[s].down + [[Wire(id, after.hub.messages[id])]])
            && forall t :: t in w.sockets && t != s ==> after.sockets[t] == w.sockets[t]
  {
    SendShape(w.hub, id, d, w.now, ttl);
  }

  // ---- a hello round without losses ----

  lemma RunCons(w: World, e: Event, rest: seq<Event>)
    requires Enabled(w, e) && IsRun(Step(w, e), rest)
    ensures IsRun(w, [e] + rest) && Run(w, [e] + rest) == Run(Step(w, e), rest)
  {
    assert ([e] + rest)[1..] == rest;
  }

  function Acks(s: nat, n: nat): seq<Event> {
    if n == 0 then [] else [HubAck(s)] + Acks(s, n - 1)
  }

  /** The hub works through the acknowledgements a socket holds. */
  lemma {:induction false} AcksAreHandled(w: World, s: nat, n: nat)
    requires s in w.sockets && n <= |w.sockets[s].up|
    ensures IsRun(w, Acks(s, n))
    ensures var after := Run(w, Acks(s, n));
            && after.now == w.now && after.hub.messages.Keys == w.hub.messages.Keys && Grows(w.hub.messages, after.hub.messages)
            && forall k :: 0 <= k < n && w.sockets[s].up[k] in w.hub.messages &&
                           w.hub.messages[w.sockets[s].up[k]].recipient == w.sockets[s].owner ==>
                 after.hub.messages[w.sockets[s].up[k]].deliveredAt.Some?
    decreases n
  {
    if n > 0 {
      var next := Step(w, HubAck(s));
      var up := w.sockets[s].up;
      AckShape(w.hub, w.sockets[s].owner, up[0], w.now);
      AcksAreHandled(next, s, n - 1);
      RunCons(w, HubAck(s), Acks(s, n - 1));
      var after := Run(w, Acks(s, n));
      GrowsOn(w.hub.messages, next.hub.messages, after.hub.messages);
      forall k | 0 <= k < n && up[k] in w.hub.messages && w.hub.messages[up[k]].recipient == w.sockets[s].owner
        ensures after.hub.messages[up[k]].deliveredAt.Some?
      {
        if k > 0 {
          assert next.sockets[s].up[k - 1] == up[k];
          assert next.hub.messages[up[k]].recipient == Content(next.hub.messages[up[k]]).recipient;
        }
      }
    }
  }

  function HelloRound(s: nat, slug: string, pending: seq<nat>): seq<Event> {
    [Hello(s, slug, pending)] + ([Connect(s)] + ([Greet(s)] + ([Receive(s, Some(s))] + Acks(s, |pending|))))
  }

  /** The daemon's end of the round: everything in the snapshot is acknowledged over the new socket. */
  lemma RoundReachesTheHub(w: World, s: nat, slug: string, pending: seq<nat>)
    requires Enabled(w, Hello(s, slug, pending))
    ensures var w1 := Step(w, Hello(s, slug, pending));
            && Enabled(w1, Connect(s)) && var w2 := Step(w1, Connect(s));
            && Enabled(w2, Greet(s)) && var w3 := Step(w2, Greet(s));
            && Enabled(w3, Receive(s, Some(s))) && var w4 := Step(w3, Receive(s, Some(s)));
            && s in w4.sockets && w4.sockets[s].up == pending && w4.sockets[s].owner == slug
            && w4.hub == w.hub && w4.now == w.now
  {
    var w1 := Step(w, Hello(s, slug, pending));
    var w2 := Step(w1, Connect(s));
    assert w2.sockets[s].phase == Registered(Wires(w.hub.messages, pending)) && w2.sockets[s].down == [];
    var w3 := Step(w2, Greet(s));
    var f := Wires(w.hub.messages, pending);
    assert w3.sockets[s].down == [f] && w3.sockets[s].up == [];
    var w4 := Step(w3, Receive(s, Some(s)));
    assert Ids(f) == pending;
    assert [] + pending == pending;
    assert w4.sockets[s].up == pending;
  }

  /** A hello round in which nothing is lost leaves the agent with nothing pending. */
  lemma HelloRoundDrains(w: World, s: nat, slug: string, pending: seq<nat>)
    requires Enabled(w, Hello(s, slug, pending))
    ensures IsRun(w, HelloRound(s, slug, pending))
    ensures IsPending(Run(w, HelloRound(s, slug, pending)).hub.messages, slug, w.now, [])
  {
    RoundReachesTheHub(w, s, slug, pending);
    var w1 := Step(w, Hello(s, slug, pending));
    var w2 := Step(w1, Connect(s));
    var w3 := Step(w2, Greet(s));
    var w4 := Step(w3, Receive(s, Some(s)));
    AcksAreHandled(w4, s, |pending|);
    RunCons(w3, Receive(s, Some(s)), Acks(s, |pending|));
    RunCons(w2, Greet(s), [Receive(s, Some(s))] + Acks(s, |pending|));
    RunCons(w1, Connect(s), [Greet(s)] + ([Receive(s, Some(s))] + Acks(s, |pending|)));
    RunCons(w, Hello(s, slug, pending), [Connect(s)] + ([Greet(s)] + ([Receive(s, Some(s))] + Acks(s, |pending|))));
    var after := Run(w4, Acks(s, |pending|));
    forall id: nat | IsPendingFor(w.hub.messages, slug, w.now, id) ensures after.hub.messages[id].deliveredAt.Some? {
      assert id in pending;
      var k :| 0 <= k < |pending| && pending[k] == id;
      assert w4.sockets[s].up[k] == id;
    }
    forall id: nat | id in after.hub.messages && after.hub.messages[id].deliveredAt == None
      ensures !IsPendingFor(after.hub.messages, slug, w.now, id)
    {
      assert after.hub.messages[id].recipient == Content(after.hub.messages[id]).recipient;
      assert after.hub.messages[id].expiresAt == Content(after.hub.messages[id]).expiresAt;
      assert Content(after.hub.messages[id]) == Content(w.hub.messages[id]);
      assert !IsPendingFor(w.hub.messages, slug, w.now, id);
    }
  }

  lemma OneFrameReceived(w: World, s: nat, x: Wire)
    requires s in w.sockets && w.sockets[s].down == [[x]] && w.sockets[s].up == []
    ensures Enabled(w, Receive(s, Some(s)))
    ensures var after := Step(w, Receive(s, Some(s)));
            && s in after.sockets && after.sockets[s].up == [x.id] && after.sockets[s].owner == w.sockets[s].owner
            && after.hub == w.hub && after.now == w.now
  {
    assert [[x]][0] == [x] && Ids([x]) == [x.id];
    assert [] + [x.id] == [x.id];
  }

  /** A message sent to an agent that is online and idle is delivered by three steps: the push,
      the receipt and the acknowledgement. */
  lemma OnlineDelivery(w: World, id: nat, d: M.Draft, ttl: nat, s: nat)
    requires Enabled(w, Send(id, d, ttl)) && M.Check(w.hub, d) == None
    requires d.recipient in w.agents && w.agents[d.recipient] == s && s in w.sockets && !w.sockets[s].phase.Gone?
    requires w.sockets[s].owner == d.recipient && w.sockets[s].down == [] && w.sockets[s].up == []
    ensures IsRun(w, [Send(id, d, ttl)] + ([Receive(s, Some(s))] + Acks(s, 1)))
    ensures id in Run(w, [Send(id, d, ttl)] + ([Receive(s, Some(s))] + Acks(s, 1))).hub.messages
    ensures Run(w, [Send(id, d, ttl)] + ([Receive(s, Some(s))] + Acks(s, 1))).hub.messages[id].deliveredAt.Some?
  {
    var sent := Step(w, Send(id, d, ttl));
    SendIsPushed(w, id, d, ttl, s);
    SendShape(w.hub, id, d, w.now, ttl);
    var x := Wire(id, sent.hub.messages[id]);
    assert [] + [[x]] == [[x]];
    OneFrameReceived(sent, s, x);
    var received := Step(sent, Receive(s, Some(s)));
    AcksAreHandled(received, s, 1);
    RunCons(sent, Receive(s, Some(s)), Acks(s, 1));
    RunCons(w, Send(id, d, ttl), [Receive(s, Some(s))] + Acks(s, 1));
    assert received.sockets[s].up[0] == id;
  }

  // ---- the registry of connections ----

  /** Which socket each agent is registered with, and the sockets the hub has closed. */
  datatype Registry = Registry(agents: map<string, nat>, closed: set<nat>)

  /** A registered socket is open and registered once. */
  ghost predicate Live(r: Registry) {
    && (forall a :: a in r.agents ==> r.agents[a] !in r.closed)
    && (forall a, b :: a in r.agents && b in r.agents && r.agents[a] == r.agents[b] ==> a == b)
  }

  /** The newest connection of an agent replaces and closes the one before. */
  function Connected(r: Registry, slug: string, ws: nat): Registry {
    Registry(r.agents[slug := ws], r.closed + (if slug in r.agents then {r.agents[slug]} else {}))
  }

  /** A connection that ends is taken out only while it is the current one. */
  function Disconnected(r: Registry, slug: string, ws: nat): Registry {
    if slug in r.agents && r.agents[slug] == ws then r.(agents := r.agents - {slug}) else r
  }

  function Kicked(r: Registry, slug: string): Registry {
    Registry(r.agents - {slug}, r.closed + (if slug in r.agents then {r.agents[slug]} else {}))
  }

  class ConnectionManager {
    var agents: map<string, nat>
    var closed: set<nat>

    function State(): Registry
      reads this
    {
      Registry(agents, closed)
    }

    constructor ()
      ensures State() == Registry(map[], {}) && Live(State())
    {
      agents, closed := map[], {};
    }

    method ConnectAgent(slug: string, ws: nat)
      requires Live(State()) && ws !in closed && ws !in agents.Values
      modifies this
      ensures State() == Connected(old(State()), slug, ws) && Live(State())
      ensures agents == old(agents)[slug := ws]
      ensures closed == old(closed) + (if slug in old(agents) then {old(agents)[slug]} else {})
    {
      forall a | a in agents ensures agents[a] != ws { assert agents[a] in agents.Values; }
      var previous := if slug in agents then Some(agents[slug]) else None;
      agents := agents[slug := ws];
      if previous.Some? { closed := closed + {previous.value}; }
    }

    method DisconnectAgent(slug: string, ws: nat) returns (removed: bool)
      requires Live(State())
      modifies this`agents
      ensures State() == Disconnected(old(State()), slug, ws) && Live(State())
      ensures removed == (slug in old(agents) && old(agents)[slug] == ws)
      ensures agents == if removed then old(agents) - {slug} else old(agents)
    {
      if slug in agents && agents[slug] == ws {
        agents := agents - {slug};
        return true;
      }
      return false;
    }

    method KickAgent(slug: string) returns (kicked: bool)
      requires Live(State())
      modifies this
      ensures State() == Kicked(old(State()), slug) && Live(State()) && kicked == (slug in old(agents))
      ensures agents == old(agents) - {slug} && closed == old(closed) + (if kicked then {old(agents)[slug]} else {})
    {
      if slug !in agents {
        assert agents - {slug} == agents;
        return false;
      }
      var ws := agents[slug];
      agents, closed := agents - {slug}, closed + {ws};
      return true;
    }

    /** The socket a push goes to, if one is registered; it is never a replaced or kicked one. */
    method Target(slug: string) returns (ws: Option<nat>)
      requires Live(State())
      ensures ws == if slug in agents then Some(agents[slug]) else None
      ensures ws.Some? ==> ws.value !in closed
    {
      return if slug in agents then Some(agents[slug]) else None;
    }
  }

  // ---- the registry inside the protocol ----

  function RegistryOf(w: World): Registry {
    Registry(w.agents, set s | s in w.sockets && w.sockets[s].phase.Gone?)
  }

  /** Every registered socket belongs to its agent and has been registered and not closed. */
  ghost predicate Current(w: World) {
    forall slug :: slug in w.agents ==>
      && w.agents[slug] in w.sockets && w.sockets[w.agents[slug]].owner == slug
      && (w.sockets[w.agents[slug]].phase.Registered? || w.sockets[w.agents[slug]].phase.Greeted?)
  }

  lemma CurrentIsLive(w: World)
    requires Current(w)
    ensures Live(RegistryOf(w))
  {}

  /** Registering in the protocol is what the manager does, and its terms are met. */
  lemma ConnectFollowsManager(w: World, s: nat)
    requires Current(w) && Enabled(w, Connect(s))
    ensures s !in RegistryOf(w).closed && s !in w.agents.Values
    ensures RegistryOf(ConnectStep(w, s)) == Connected(RegistryOf(w), w.sockets[s].owner, s)
  {
    forall slug | slug in w.agents ensures w.agents[slug] != s {}
    assert RegistryOf(ConnectStep(w, s)).closed == Connected(RegistryOf(w), w.sockets[s].owner, s).closed;
  }

  /** So is the end of a connection, which besides is gone by itself, and a kick. */
  lemma LeaveFollowsManager(w: World, s: nat)
    requires Current(w) && Enabled(w, Leave(s))
    ensures RegistryOf(Step(w, Leave(s))).agents == Disconnected(RegistryOf(w), w.sockets[s].owner, s).agents
    ensures RegistryOf(Step(w, Leave(s))).closed == RegistryOf(w).closed + {s}
  {}

  lemma KickFollowsManager(w: World, slug: string)
    requires Current(w)
    ensures RegistryOf(Step(w, Kick(slug))) == Kicked(RegistryOf(w), slug)
  {
    assert RegistryOf(Step(w, Kick(slug))).closed == Kicked(RegistryOf(w), slug).closed;
  }

  /** A push is put on the socket the manager names, and on none when it names none. */
  lemma PushFollowsManager(w: World, slug: string, x: Wire)
    requires Current(w)
    ensures Pushed(w, slug, x) == if slug !in w.agents then w.sockets
                                  else var s := w.agents[slug]; w.sockets[s := w.sockets[s].(down := w.sockets[s].down + [[x]])]
  {}

  lemma ConnectKeepsCurrent(w: World, s: nat, after: World)
    requires Current(w) && Enabled(w, Connect(s)) && after == ConnectStep(w, s)
    ensures Current(after)
  {
    forall slug | slug in w.agents ensures w.agents[slug] != s {}
  }

  lemma EndKeepsCurrent(w: World, e: Event, after: World)
    requires Current(w) && Enabled(w, e) && after == Step(w, e) && (e.Leave? || e.Kick?)
    ensures Current(after)
  {}

  lemma ReceiveKeepsCurrent(w: World, s: nat, via: Option<nat>, after: World)
    requires Current(w) && Enabled(w, Receive(s, via)) && after == ReceiveStep(w, s, via)
    ensures Current(after)
  {}

  lemma StepKeepsCurrent(w: World, e: Event, after: World)
    requires Current(w) && Enabled(w, e) && after == Step(w, e)
    ensures Current(after)
  {
    match e
    case Connect(s) => ConnectKeepsCurrent(w, s, after);
    case Receive(s, via) => ReceiveKeepsCurrent(w, s, via, after);
    case Leave(_) => EndKeepsCurrent(w, e, after);
    case Kick(_) => EndKeepsCurrent(w, e, after);
    case Hello(s, _, _) => assert forall slug :: slug in w.agents ==> w.agents[slug] != s;
    case _ =>
  }

  /** Over every run the registry of the protocol is one the manager can hold: each agent has at
      most one current socket, its own, open, and in no other agent's name. */
  lemma {:induction false} RegistryStaysLive(w: World, events: seq<Event>)
    requires Current(w) && IsRun(w, events)
    ensures Current(Run(w, events)) && Live(RegistryOf(Run(w, events)))
    decreases |events|
  {
    if events == [] {
      CurrentIsLive(w);
    } else {
      StepKeepsCurrent(w, events[0], Step(w, events[0]));
      RegistryStaysLive(Step(w, events[0]), events[1..]);
    }
  }
}
