/** The daemon's local history: an append-only list mirrored on disk, deduplicated by hub id. */
module MessageStore {
  import opened Basics

  /** `id` is the hub's id, absent for local records; `outgoing` is the direction. */
  datatype Stored = Stored(id: Option<nat>, sender: string, recipient: string, body: string, kind: string,
                           threadId: Option<nat>, inReplyTo: Option<nat>, outgoing: bool, read: bool)

  type History = seq<Stored>

  predicate Knows(h: History, id: nat) {
    exists i :: 0 <= i < |h| && h[i].id == Some(id)
  }

  function Appended(h: History, m: Stored): History {
    if m.id.Some? && Knows(h, m.id.value) then h else h + [m]
  }

  /** No hub id occurs twice. */
  ghost predicate NoRepeats(h: History) {
    forall i, j :: 0 <= i < j < |h| && h[i].id.Some? ==> h[i].id != h[j].id
  }

  /** However often a message is redelivered the history keeps one copy, the first, and everything
      it already held. */
  lemma AppendIsIdempotent(h: History, m: Stored)
    requires NoRepeats(h)
    ensures NoRepeats(Appended(h, m)) && h <= Appended(h, m)
    ensures m.id.Some? ==> Knows(Appended(h, m), m.id.value) && Appended(Appended(h, m), m) == Appended(h, m)
  {
    if m.id.Some? && !Knows(h, m.id.value) {
      assert (h + [m])[|h|] == m;
    }
  }

  // ---- conversations ----

  function With(partner: string): Stored -> bool {
    (m: Stored) => m.sender == partner || m.recipient == partner
  }

  /** The last elements of a list, at most `limit` of them. */
  function Last(h: History, limit: nat): History {
    if |h| <= limit then h else h[|h| - limit..]
  }

  function Conversation(h: History, partner: string, limit: nat): History {
    Last(Filter(h, With(partner)), limit)
  }

  // ---- read flags ----

  function Marked(m: Stored, ids: set<nat>): Stored {
    if m.id.Some? && m.id.value in ids then m.(read := true) else m
  }

  function MarkedRead(h: History, ids: set<nat>): (r: History)
    ensures |r| == |h|
  {
    seq(|h|, i requires 0 <= i < |h| => Marked(h[i], ids))
  }

  function Unread(): Stored -> bool {
    (m: Stored) => !m.outgoing && !m.read
  }

  function NotAmong(ids: set<nat>): Stored -> bool {
    (m: Stored) => m.id == None || m.id.value !in ids
  }

  function Inbox(h: History): History {
    Filter(h, Unread())
  }

  /** Marking messages as read takes exactly those out of the unread inbox. */
  lemma {:induction false} InboxAfterRead(h: History, ids: set<nat>)
    ensures Inbox(MarkedRead(h, ids)) == Filter(Inbox(h), NotAmong(ids))
  {
    if h != [] {
      InboxAfterRead(h[1..], ids);
      assert MarkedRead(h, ids)[1..] == MarkedRead(h[1..], ids);
      var rest := Inbox(h[1..]);
      if Unread()(h[0]) {
        assert ([h[0]] + rest)[1..] == rest;
      } else {
        assert [] + rest == rest;
      }
    }
  }

  /** The inbox holds exactly the incoming messages that have not been read. */
  lemma {:induction false} InboxHolds(h: History, m: Stored)
    ensures m in Inbox(h) <==> m in h && !m.outgoing && !m.read
  {
    if h != [] {
      InboxHolds(h[1..], m);
      assert m in h <==> m == h[0] || m in h[1..];
    }
  }

  /** A line of the file: a record, or text that does not parse. */
  type Line = Option<Stored>

  function Parsed(lines: seq<Line>): History {
    if lines == [] then [] else (if lines[0].Some? then [lines[0].value] else []) + Parsed(lines[1..])
  }

  lemma {:induction false} ParsedConcat(a: seq<Line>, b: seq<Line>)
    ensures Parsed(a + b) == Parsed(a) + Parsed(b)
  {
    if a == [] {
      assert [] + b == b;
    } else {
      ParsedConcat(a[1..], b);
      var head := if a[0].Some? then [a[0].value] else [];
      assert (a + b)[0] == a[0] && (a + b)[1..] == a[1..] + b;
      assert Parsed(a + b) == head + (Parsed(a[1..]) + Parsed(b));
      assert Parsed(a) == head + Parsed(a[1..]);
    }
  }

  lemma {:induction false} ParsedRecords(h: History)
    ensures Parsed(seq(|h|, i requires 0 <= i < |h| => Some(h[i]))) == h
  {
    if h != [] {
      ParsedRecords(h[1..]);
      var lines: seq<Line> := seq(|h|, i requires 0 <= i < |h| => Some(h[i]));
      assert lines[1..] == seq(|h[1..]|, i requires 0 <= i < |h[1..]| => Some(h[1..][i]));
      assert h == [h[0]] + h[1..];
    }
  }

  class Store {
    var messages: History
    var disk: seq<Line>

    /** A restart would read back exactly what the store holds. */
    ghost predicate Valid()
      reads this
    {
      Parsed(disk) == messages
    }

    /** Opens the file, skipping lines that do not parse. */
    constructor (lines: seq<Line>)
      ensures Valid() && disk == lines
    {
      var loaded: History := [];
      for i := 0 to |lines|
        invariant Parsed(lines[..i]) == loaded
      {
        assert lines[..i + 1] == lines[..i] + [lines[i]];
        ParsedConcat(lines[..i], [lines[i]]);
        if lines[i].Some? { loaded := loaded + [lines[i].value]; }
      }
      assert lines[..|lines|] == lines;
      messages := loaded;
      disk := lines;
    }

    method Append(m: Stored)
      requires Valid()
      modifies this
      ensures Valid() && messages == Appended(old(messages), m)
      ensures messages == if m.id.Some? && exists i :: 0 <= i < |old(messages)| && old(messages)[i].id == m.id
                          then old(messages) else old(messages) + [m]
    {
      if m.id.Some? && Knows(messages, m.id.value) { return; }
      ParsedConcat(disk, [Some(m)]);
      messages := messages + [m];
      disk := disk + [Some(m)];
    }

    /** Marks the records with the given ids, rewriting the file only if a flag changed. */
    method MarkRead(ids: set<nat>)
      requires Valid()
      modifies this
      ensures Valid() && messages == MarkedRead(old(messages), ids)
      ensures |messages| == |old(messages)|
      ensures forall i :: 0 <= i < |messages| ==> messages[i] == old(messages)[i].(read := messages[i].read)
      ensures forall i :: 0 <= i < |messages| ==>
                (messages[i].read <==> old(messages)[i].read || (messages[i].id.Some? && messages[i].id.value in ids))
    {
      var changed := false;
      ghost var before := messages;
      for i := 0 to |messages|
        invariant |messages| == |before| && disk == old(disk)
        invariant forall k :: 0 <= k < i ==> messages[k] == Marked(before[k], ids)
        invariant forall k :: i <= k < |before| ==> messages[k] == before[k]
        invariant !changed ==> messages == before
      {
        var m := messages[i];
        if m.id.Some? && m.id.value in ids && !m.read {
          messages := messages[i := m.(read := true)];
          changed := true;
        }
      }
      assert messages == MarkedRead(before, ids);
      if changed { Rewrite(); }
    }

    method Rewrite()
      modifies this`disk
      ensures Valid()
    {
      ParsedRecords(messages);
      var h := messages;
      disk := seq(|h|, i requires 0 <= i < |h| => Some(h[i]));
    }
  }
}
