/**
 Moving a card: what one call of the move core does to the table, and what that means for the
 order a reader sees. The string ranks refine plain insertion into a list.
 */
module KanbanMove {
  import opened Basics
  import opened KanbanRank
  import opened KanbanTable
  import opened KanbanDeps

  datatype Table = Table(columns: map<nat, Column>, cards: Cards, deps: Edges)

  datatype MoveError =
    StaleVersion | UnknownColumn | BlockedCard | SelfAnchor | StaleAnchor | WipFull | NoPosition

  datatype MoveResult = Moved | Refused(error: MoveError)

  /** Attempts on the unique index before the column is re-spread. */
  const MOVE_RETRIES := 4

  ghost predicate Sound(cards: Cards) {
    StoredRanks(cards) && UniqueRanks(cards)
  }

  /** A card waits while some dependency is outside the done columns; rows of vanished cards are skipped. */
  ghost predicate Blocked(t: Table, id: nat) {
    exists dep :: (id, dep) in t.deps && dep in t.cards && !IsDone(t, dep)
  }

  predicate IsDone(t: Table, id: nat)
    requires id in t.cards
  {
    t.cards[id].column in t.columns && t.columns[t.cards[id].column].done
  }

  // ---- bounds ----

  /** An anchor was sent: neither absent nor the id 0, which the code takes for absent. */
  predicate Given(anchor: Option<nat>) {
    anchor.Some? && anchor.value != 0
  }

  function AnchorRank(cards: Cards, dest: nat, anchor: Option<nat>, id: nat): Result<Rank, MoveError> {
    if !Given(anchor) then Success([])
    else if anchor.value == id then Failure(SelfAnchor)
    else if anchor.value !in cards || cards[anchor.value].column != dest then Failure(StaleAnchor)
    else Success(cards[anchor.value].rank)
  }

  /** The bounds a card moves between, read from the table as it is now. */
  ghost function Bounds(cards: Cards, dest: nat, id: nat, before: Option<nat>, after: Option<nat>)
    : Result<(Rank, Rank), MoveError>
    requires UniqueRanks(cards)
  {
    var b, a := AnchorRank(cards, dest, before, id), AnchorRank(cards, dest, after, id);
    if b.Failure? then Failure(b.error)
    else if a.Failure? then Failure(a.error)
    else if !Given(before) && !Given(after) then Success((LastRank(cards - {id}, dest), []))
    else if Given(before) && Given(after) && !Less(b.value, a.value) then Failure(StaleAnchor)
    else Success((b.value, a.value))
  }

  lemma BoundsAreSeparable(cards: Cards, dest: nat, id: nat, before: Option<nat>, after: Option<nat>)
    requires Sound(cards) && Bounds(cards, dest, id, before, after).Success?
    ensures var (lo, hi) := Bounds(cards, dest, id, before, after).value;
            && (lo == [] || WellFormed(lo)) && (hi == [] || (WellFormed(hi) && Less(lo, hi)))
            && Separable(lo, hi)
  {
    var (lo, hi) := Bounds(cards, dest, id, before, after).value;
    StoredBoundsSeparable(lo, hi);
  }

  // ---- one write ----

  ghost predicate Taken(cards: Cards, dest: nat, id: nat, r: Rank) {
    exists j :: j in cards && j != id && cards[j].column == dest && cards[j].rank == r
  }

  function Place(cards: Cards, id: nat, dest: nat, r: Rank): Cards
    requires id in cards
  {
    cards[id := cards[id].(column := dest, rank := r, version := cards[id].version + 1)]
  }

  /** The limit counts only for a card that comes from another column. */
  predicate AtLimit(columns: map<nat, Column>, cards: Cards, id: nat, dest: nat)
    requires id in cards && dest in columns
  {
    dest != cards[id].column && columns[dest].wip.Some? && |InColumn(cards, dest)| >= columns[dest].wip.value
  }

  /** The rank the retries settle on: on a collision the next try squeezes below the last one. */
  ghost function Squeeze(cards: Cards, dest: nat, id: nat, lo: Rank, r: Rank, tries: nat): Option<Rank>
    requires (lo == [] || WellFormed(lo)) && WellFormed(r) && Less(lo, r)
    decreases tries
  {
    if tries == 0 then None
    else if !Taken(cards, dest, id, r) then Some(r)
    else
      StoredBoundsSeparable(lo, r);
      BetweenIsBetween(lo, r);
      Squeeze(cards, dest, id, lo, Between(lo, r), tries - 1)
  }

  /** After a collision the next try takes a rank between the lower bound and the one that collided. */
  lemma SqueezeOn(cards: Cards, dest: nat, id: nat, lo: Rank, r: Rank, tries: nat)
    requires (lo == [] || WellFormed(lo)) && WellFormed(r) && Less(lo, r) && tries > 0 && Taken(cards, dest, id, r)
    ensures Separable(lo, r) && WellFormed(Between(lo, r)) && Less(lo, Between(lo, r))
    ensures Squeeze(cards, dest, id, lo, r, tries) == Squeeze(cards, dest, id, lo, Between(lo, r), tries - 1)
  {
    StoredBoundsSeparable(lo, r);
    BetweenIsBetween(lo, r);
  }

  lemma {:induction false} SqueezeFits(cards: Cards, dest: nat, id: nat, lo: Rank, r: Rank, tries: nat)
    requires (lo == [] || WellFormed(lo)) && WellFormed(r) && Less(lo, r)
    ensures var q := Squeeze(cards, dest, id, lo, r, tries);
            q.Some? ==> WellFormed(q.value) && Less(lo, q.value) && (q.value == r || Less(q.value, r)) &&
                        !Taken(cards, dest, id, q.value)
    decreases tries
  {
    if tries != 0 && Taken(cards, dest, id, r) {
      StoredBoundsSeparable(lo, r);
      BetweenIsBetween(lo, r);
      SqueezeFits(cards, dest, id, lo, Between(lo, r), tries - 1);
      var q := Squeeze(cards, dest, id, lo, Between(lo, r), tries - 1);
      if q.Some? && q.value != Between(lo, r) { LessTransitive(q.value, Between(lo, r), r); }
    }
  }

  // ---- one call ----

  /** What a call is asked to do. */
  datatype Request = Request(id: nat, dest: nat, before: Option<nat>, after: Option<nat>)

  ghost function BoundsFor(cards: Cards, q: Request): Result<(Rank, Rank), MoveError>
    requires UniqueRanks(cards)
  {
    Bounds(cards, q.dest, q.id, q.before, q.after)
  }

  /** The lower bound and the rank computed from the current neighbours. */
  ghost function Target(cards: Cards, q: Request): Result<(Rank, Rank), MoveError>
    requires Sound(cards)
    ensures Target(cards, q).Success? ==>
              var (lo, r) := Target(cards, q).value;
              (lo == [] || WellFormed(lo)) && WellFormed(r) && Less(lo, r)
  {
    match BoundsFor(cards, q)
    case Failure(e) => Failure(e)
    case Success((lo, hi)) =>
      BoundsAreSeparable(cards, q.dest, q.id, q.before, q.after);
      BetweenIsBetween(lo, hi);
      Success((lo, Between(lo, hi)))
  }

  /** The last resort after the retries: re-spread the column and try once. */
  ghost function LastTry(cards: Cards, q: Request): (MoveResult, Cards)
    requires Sound(cards) && q.id in cards
  {
    RespreadKeepsLayout(cards, q.dest);
    var spread := Respread(cards, q.dest);
    match Target(spread, q)
    case Failure(e) => (Refused(e), spread)
    case Success((_, r)) =>
      if Taken(spread, q.dest, q.id, r) then (Refused(NoPosition), spread)
      else (Moved, Place(spread, q.id, q.dest, r))
  }

  ghost function Tries(columns: map<nat, Column>, cards: Cards, q: Request): (MoveResult, Cards)
    requires Sound(cards) && q.id in cards && q.dest in columns
  {
    match Target(cards, q)
    case Failure(e) => (Refused(e), cards)
    case Success((lo, r)) =>
      if AtLimit(columns, cards, q.id, q.dest) then (Refused(WipFull), cards)
      else match Squeeze(cards, q.dest, q.id, lo, r, MOVE_RETRIES)
           case Some(free) => (Moved, Place(cards, q.id, q.dest, free))
           case None => LastTry(cards, q)
  }

  ghost predicate Overlong(cards: Cards, q: Request)
    requires Sound(cards)
  {
    Target(cards, q).Success? && |Target(cards, q).value.1| > RANK_LEN_MAX
  }

  /** A rank that has grown too long re-spreads the column before anything is written. */
  ghost function Positioned(columns: map<nat, Column>, cards: Cards, q: Request): (MoveResult, Cards)
    requires Sound(cards) && q.id in cards && q.dest in columns
  {
    RespreadKeepsLayout(cards, q.dest);
    Tries(columns, if Overlong(cards, q) then Respread(cards, q.dest) else cards, q)
  }

  /** The tests made before any rank is computed. */
  ghost function Gate(t: Table, q: Request, expected: nat): Option<MoveError>
    requires q.id in t.cards
  {
    if t.cards[q.id].version != expected then Some(StaleVersion)
    else if q.dest !in t.columns || t.columns[q.dest].board != t.cards[q.id].board then Some(UnknownColumn)
    else if t.columns[q.dest].done && Blocked(t, q.id) then Some(BlockedCard)
    else None
  }

  ghost function Move(t: Table, q: Request, expected: nat): (MoveResult, Cards)
    requires Sound(t.cards) && q.id in t.cards
  {
    match Gate(t, q, expected)
    case Some(e) => (Refused(e), t.cards)
    case None => Positioned(t.columns, t.cards, q)
  }

  // ---- the shape of every outcome ----

  ghost predicate InBounds(cards: Cards, q: Request, r: Rank)
    requires UniqueRanks(cards)
  {
    && BoundsFor(cards, q).Success?
    && var (lo, hi) := BoundsFor(cards, q).value;
       Less(lo, r) && (hi == [] || Less(r, hi))
  }

  /** Every outcome is a re-spread at most, or a re-spread at most and one write at a free rank
      strictly inside the bounds read at the moment of that write. */
  ghost predicate Outcome(cards: Cards, q: Request, result: MoveResult, final: Cards, spread: Cards, r: Rank)
    requires UniqueRanks(cards) && q.id in cards
  {
    && SameLayout(cards, spread, q.dest)
    && (result.Refused? ==> final == spread)
    && (result.Moved? ==> final == Place(spread, q.id, q.dest, r) && WellFormed(r) &&
                          !Taken(spread, q.dest, q.id, r) && InBounds(spread, q, r))
  }

  lemma TargetInBounds(cards: Cards, q: Request)
    requires Sound(cards) && Target(cards, q).Success?
    ensures InBounds(cards, q, Target(cards, q).value.1)
  {
    BoundsAreSeparable(cards, q.dest, q.id, q.before, q.after);
    var (lo, hi) := BoundsFor(cards, q).value;
    BetweenIsBetween(lo, hi);
  }

  lemma LastTryShape(cards: Cards, q: Request) returns (spread: Cards, r: Rank)
    requires Sound(cards) && q.id in cards
    ensures Outcome(cards, q, LastTry(cards, q).0, LastTry(cards, q).1, spread, r)
  {
    RespreadKeepsLayout(cards, q.dest);
    spread := Respread(cards, q.dest);
    r := [];
    if Target(spread, q).Success? {
      r := Target(spread, q).value.1;
      TargetInBounds(spread, q);
    }
  }

  lemma TriesShape(columns: map<nat, Column>, cards: Cards, q: Request) returns (spread: Cards, r: Rank)
    requires Sound(cards) && q.id in cards && q.dest in columns
    ensures Outcome(cards, q, Tries(columns, cards, q).0, Tries(columns, cards, q).1, spread, r)
    ensures Tries(columns, cards, q).0.Moved? ==> !AtLimit(columns, cards, q.id, q.dest)
  {
    SameLayoutRefl(cards, q.dest);
    spread, r := cards, [];
    if Target(cards, q).Success? && !AtLimit(columns, cards, q.id, q.dest) {
      BoundsAreSeparable(cards, q.dest, q.id, q.before, q.after);
      var (lo, hi) := BoundsFor(cards, q).value;
      BetweenIsBetween(lo, hi);
      SqueezeFits(cards, q.dest, q.id, lo, Between(lo, hi), MOVE_RETRIES);
      match Squeeze(cards, q.dest, q.id, lo, Between(lo, hi), MOVE_RETRIES) {
        case Some(free) =>
          r := free;
          if hi != [] && free != Between(lo, hi) { LessTransitive(free, Between(lo, hi), hi); }
        case None =>
          spread, r := LastTryShape(cards, q);
      }
    }
  }

  lemma LimitAfterRespread(columns: map<nat, Column>, cards: Cards, q: Request)
    requires q.id in cards && q.dest in columns
    ensures AtLimit(columns, Respread(cards, q.dest), q.id, q.dest) == AtLimit(columns, cards, q.id, q.dest)
  {
    RespreadKeepsColumns(cards, q.dest, q.dest);
  }

  lemma PositionedShape(columns: map<nat, Column>, cards: Cards, q: Request) returns (spread: Cards, r: Rank)
    requires Sound(cards) && q.id in cards && q.dest in columns
    ensures Outcome(cards, q, Positioned(columns, cards, q).0, Positioned(columns, cards, q).1, spread, r)
    ensures Positioned(columns, cards, q).0.Moved? ==> !AtLimit(columns, cards, q.id, q.dest)
  {
    if Overlong(cards, q) {
      var first := Respread(cards, q.dest);
      RespreadKeepsLayout(cards, q.dest);
      LimitAfterRespread(columns, cards, q);
      spread, r := TriesShape(columns, first, q);
      SameLayoutTrans(cards, first, spread, q.dest);
    } else {
      spread, r := TriesShape(columns, cards, q);
    }
  }

  lemma MoveShape(t: Table, q: Request, expected: nat) returns (spread: Cards, r: Rank)
    requires Sound(t.cards) && q.id in t.cards
    ensures Outcome(t.cards, q, Move(t, q, expected).0, Move(t, q, expected).1, spread, r)
    ensures Move(t, q, expected).0.Moved? ==>
              Gate(t, q, expected) == None && !AtLimit(t.columns, t.cards, q.id, q.dest)
  {
    if Gate(t, q, expected).Some? {
      SameLayoutRefl(t.cards, q.dest);
      return t.cards, [];
    }
    spread, r := PositionedShape(t.columns, t.cards, q);
  }

  // ---- refinement of list insertion ----

  ghost function Inserted(rest: seq<nat>, k: nat, id: nat): seq<nat>
    requires k <= |rest|
  {
    rest[..k] + [id] + rest[k..]
  }

  /** Writing a free rank puts the card at the one place of the list its rank falls. */
  lemma {:induction false} PlaceInserts(cards: Cards, id: nat, dest: nat, r: Rank, rest: seq<nat>) returns (k: nat)
    requires id in cards && !Taken(cards, dest, id, r) && IsOrder(cards - {id}, dest, rest)
    ensures k <= |rest| && IsOrder(Place(cards, id, dest, r), dest, Inserted(rest, k, id))
    ensures forall i :: 0 <= i < k ==> Less(cards[rest[i]].rank, r)
    ensures forall i :: k <= i < |rest| ==> Less(r, cards[rest[i]].rank)
  {
    k := 0;
    while k < |rest| && Less(cards[rest[k]].rank, r)
      invariant k <= |rest|
      invariant forall i :: 0 <= i < k ==> Less(cards[rest[i]].rank, r)
    {
      k := k + 1;
    }
    forall i | k <= i < |rest| ensures Less(r, cards[rest[i]].rank) {
      LessTotal(r, cards[rest[k]].rank);
      if k < i { LessTransitive(r, cards[rest[k]].rank, cards[rest[i]].rank); }
    }
    InsertedIsOrder(cards, id, dest, r, rest, k);
  }

  lemma InsertedIsOrder(cards: Cards, id: nat, dest: nat, r: Rank, rest: seq<nat>, k: nat)
    requires id in cards && IsOrder(cards - {id}, dest, rest) && k <= |rest|
    requires forall i :: 0 <= i < k ==> Less(cards[rest[i]].rank, r)
    requires forall i :: k <= i < |rest| ==> Less(r, cards[rest[i]].rank)
    ensures IsOrder(Place(cards, id, dest, r), dest, Inserted(rest, k, id))
  {
    var s := Inserted(rest, k, id);
    var final := Place(cards, id, dest, r);
    InsertedElements(rest, k, id);
    forall j | j in final && final[j].column == dest ensures j in s {
      assert j != id ==> j in cards - {id};
    }
    assert forall i :: 0 <= i < |rest| ==> final[rest[i]] == cards[rest[i]];
    InsertedAscends(final, rest, k, id);
  }

  lemma InsertedAscends(cards: Cards, rest: seq<nat>, k: nat, id: nat)
    requires k <= |rest| && id in cards && forall i :: 0 <= i < |rest| ==> rest[i] in cards
    requires forall i, j :: 0 <= i < j < |rest| ==> Less(cards[rest[i]].rank, cards[rest[j]].rank)
    requires forall i :: 0 <= i < k ==> Less(cards[rest[i]].rank, cards[id].rank)
    requires forall i :: k <= i < |rest| ==> Less(cards[id].rank, cards[rest[i]].rank)
    ensures forall i :: 0 <= i < |rest| + 1 ==> Inserted(rest, k, id)[i] in cards
    ensures forall i, j :: 0 <= i < j < |rest| + 1 ==>
              Less(cards[Inserted(rest, k, id)[i]].rank, cards[Inserted(rest, k, id)[j]].rank)
  {
    var s := Inserted(rest, k, id);
    forall i | 0 <= i < |s| ensures s[i] == if i < k then rest[i] else if i == k then id else rest[i - 1] {}
  }

  lemma InsertedElements(rest: seq<nat>, k: nat, id: nat)
    requires k <= |rest|
    ensures forall j :: j in Inserted(rest, k, id) <==> j == id || j in rest
  {
    assert rest == rest[..k] + rest[k..];
  }

  /** A place in the list of the others that respects the anchors. */
  ghost predicate Respects(rest: seq<nat>, k: nat, q: Request) {
    && (Given(q.before) ==> exists i :: 0 <= i < k <= |rest| && rest[i] == q.before.value)
    && (Given(q.after) ==> exists i :: 0 <= k <= i < |rest| && rest[i] == q.after.value)
    && (!Given(q.before) && !Given(q.after) ==> k == |rest|)
  }

  lemma PlaceRespects(cards: Cards, q: Request, r: Rank, rest: seq<nat>) returns (k: nat)
    requires Sound(cards) && q.id in cards && IsOrder(cards - {q.id}, q.dest, rest)
    requires InBounds(cards, q, r) && !Taken(cards, q.dest, q.id, r)
    ensures k <= |rest| && Respects(rest, k, q)
    ensures IsOrder(Place(cards, q.id, q.dest, r), q.dest, Inserted(rest, k, q.id))
  {
    k := PlaceInserts(cards, q.id, q.dest, r, rest);
    var (lo, hi) := BoundsFor(cards, q).value;
    if Given(q.before) {
      assert q.before.value in rest;
      var i :| 0 <= i < |rest| && rest[i] == q.before.value;
      if k <= i { LessAsymmetric(lo, r); }
    }
    if Given(q.after) {
      assert q.after.value in rest;
      var i :| 0 <= i < |rest| && rest[i] == q.after.value;
      if i < k { LessAsymmetric(r, hi); }
    }
    if !Given(q.before) && !Given(q.after) && k < |rest| {
      assert rest[k] in InColumn(cards - {q.id}, q.dest);
      LessAsymmetric(lo, r);
      if cards[rest[k]].rank != lo {
        LessTransitive(r, cards[rest[k]].rank, lo);
      }
    }
  }

  /** A successful move inserts the card into the list of the other cards of its destination, after
      the lower anchor and before the upper one, or at the end when there is none, through any
      number of collisions and re-spreads. */
  lemma MoveRefinesInsertion(t: Table, q: Request, expected: nat, rest: seq<nat>) returns (k: nat)
    requires Sound(t.cards) && q.id in t.cards
    requires IsOrder(t.cards - {q.id}, q.dest, rest)
    requires Move(t, q, expected).0.Moved?
    ensures k <= |rest| && Respects(rest, k, q)
    ensures IsOrder(Move(t, q, expected).1, q.dest, Inserted(rest, k, q.id))
  {
    var spread, r := MoveShape(t, q, expected);
    SameLayoutSameOrder(t.cards, spread, q.dest, {q.id}, q.dest, rest);
    k := PlaceRespects(spread, q, r, rest);
  }

  ghost predicate KeepsTheRest(cards: Cards, final: Cards, q: Request) {
    && Sound(final) && final.Keys == cards.Keys
    && (forall a :: a in cards && a != q.id && cards[a].column != q.dest ==> final[a] == cards[a])
    && (forall a :: a in cards && a != q.id ==>
          final[a] == cards[a].(rank := final[a].rank, version := final[a].version))
    && (forall a :: a in cards ==> final[a].version >= cards[a].version)
  }

  lemma PlaceIsSound(cards: Cards, id: nat, dest: nat, r: Rank)
    requires Sound(cards) && id in cards && WellFormed(r) && !Taken(cards, dest, id, r)
    ensures Sound(Place(cards, id, dest, r))
  {
    assert forall j :: j in cards && j != id && cards[j].column == dest ==> cards[j].rank != r;
  }

  lemma PlaceKeepsTheRest(cards: Cards, spread: Cards, q: Request, r: Rank)
    requires q.id in cards && SameLayout(cards, spread, q.dest)
    requires WellFormed(r) && !Taken(spread, q.dest, q.id, r)
    ensures KeepsTheRest(cards, Place(spread, q.id, q.dest, r), q)
  {
    PlaceIsSound(spread, q.id, q.dest, r);
  }

  lemma OutcomeKeepsTheRest(cards: Cards, q: Request, result: MoveResult, final: Cards, spread: Cards, r: Rank)
    requires Sound(cards) && q.id in cards && Outcome(cards, q, result, final, spread, r)
    ensures KeepsTheRest(cards, final, q)
  {
    if result.Moved? { PlaceKeepsTheRest(cards, spread, q, r); }
  }

  lemma OutcomeWithoutCard(cards: Cards, q: Request, result: MoveResult, final: Cards, spread: Cards, r: Rank)
    requires UniqueRanks(cards) && q.id in cards && Outcome(cards, q, result, final, spread, r)
    ensures final - {q.id} == spread - {q.id}
  {}

  lemma OutcomeKeepsOthers(cards: Cards, q: Request, result: MoveResult, final: Cards, spread: Cards, r: Rank,
                           c: nat, s: seq<nat>)
    requires Sound(cards) && q.id in cards && Outcome(cards, q, result, final, spread, r)
    ensures IsOrder(cards - {q.id}, c, s) ==> IsOrder(final - {q.id}, c, s)
  {
    OutcomeWithoutCard(cards, q, result, final, spread, r);
    SameLayoutSameOrder(cards, spread, q.dest, {q.id}, c, s);
  }

  lemma RefusalKeepsOrders(cards: Cards, q: Request, result: MoveResult, final: Cards, spread: Cards, r: Rank,
                           c: nat, s: seq<nat>)
    requires Sound(cards) && q.id in cards && Outcome(cards, q, result, final, spread, r) && result.Refused?
    ensures IsOrder(cards, c, s) ==> IsOrder(final, c, s)
  {
    if IsOrder(cards, c, s) { SameLayoutKeepsOrder(cards, spread, q.dest, c, s); }
  }

  /** No move, successful or refused, changes any card of another column, the order of the other
      cards anywhere, or anything of them but the rank and version; a refused one changes no order. */
  lemma MoveKeepsTheRest(t: Table, q: Request, expected: nat, c: nat, s: seq<nat>)
    requires Sound(t.cards) && q.id in t.cards
    ensures KeepsTheRest(t.cards, Move(t, q, expected).1, q)
    ensures IsOrder(t.cards - {q.id}, c, s) ==> IsOrder(Move(t, q, expected).1 - {q.id}, c, s)
    ensures Move(t, q, expected).0.Refused? && IsOrder(t.cards, c, s) ==> IsOrder(Move(t, q, expected).1, c, s)
  {
    var spread, r := MoveShape(t, q, expected);
    var (result, final) := Move(t, q, expected);
    OutcomeKeepsTheRest(t.cards, q, result, final, spread, r);
    OutcomeKeepsOthers(t.cards, q, result, final, spread, r, c, s);
    if result.Refused? { RefusalKeepsOrders(t.cards, q, result, final, spread, r, c, s); }
  }

  // ---- when a move succeeds ----

  /** The anchors are the neighbours of one slot of the list: both sides of it, or the end of
      the list on the side that has none, or the very end when no anchor is sent. */
  ghost predicate Slot(rest: seq<nat>, k: nat, q: Request) {
    && k <= |rest|
    && (Given(q.before) ==> k > 0 && rest[k - 1] == q.before.value)
    && (Given(q.after) ==> k < |rest| && rest[k] == q.after.value)
    && (!Given(q.before) && Given(q.after) ==> k == 0)
    && (!Given(q.after) ==> k == |rest|)
  }

  lemma SlotBounds(cards: Cards, q: Request, rest: seq<nat>, k: nat)
    requires Sound(cards) && q.id in cards && IsOrder(cards - {q.id}, q.dest, rest) && Slot(rest, k, q)
    ensures BoundsFor(cards, q).Success?
    ensures BoundsFor(cards, q).value ==
            (if k > 0 then cards[rest[k - 1]].rank else [], if k < |rest| then cards[rest[k]].rank else [])
  {
    if !Given(q.before) && !Given(q.after) { LastOfOrder(cards - {q.id}, q.dest, rest); }
  }

  lemma SlotIsFreeOf(cards: Cards, q: Request, rest: seq<nat>, k: nat, r: Rank, i: nat)
    requires Sound(cards) && q.id in cards && IsOrder(cards - {q.id}, q.dest, rest) && Slot(rest, k, q)
    requires InBounds(cards, q, r) && i < |rest|
    ensures cards[rest[i]].rank != r
  {
    SlotBounds(cards, q, rest, k);
    if i < k {
      if i < k - 1 { LessTransitive(cards[rest[i]].rank, cards[rest[k - 1]].rank, r); }
    } else {
      if k < i { LessTransitive(r, cards[rest[k]].rank, cards[rest[i]].rank); }
    }
    LessIrreflexive(r);
  }

  lemma SlotIsFree(cards: Cards, q: Request, rest: seq<nat>, k: nat, r: Rank)
    requires Sound(cards) && q.id in cards && IsOrder(cards - {q.id}, q.dest, rest) && Slot(rest, k, q)
    requires InBounds(cards, q, r)
    ensures !Taken(cards, q.dest, q.id, r)
  {
    forall j | j in cards && j != q.id && cards[j].column == q.dest ensures cards[j].rank != r {
      assert j in rest;
      var i :| 0 <= i < |rest| && rest[i] == j;
      SlotIsFreeOf(cards, q, rest, k, r, i);
    }
  }

  lemma SlotTries(columns: map<nat, Column>, cards: Cards, q: Request, rest: seq<nat>, k: nat)
    requires Sound(cards) && q.id in cards && q.dest in columns
    requires IsOrder(cards - {q.id}, q.dest, rest) && Slot(rest, k, q)
    ensures Tries(columns, cards, q).0 == if AtLimit(columns, cards, q.id, q.dest) then Refused(WipFull) else Moved
  {
    SlotBounds(cards, q, rest, k);
    BoundsAreSeparable(cards, q.dest, q.id, q.before, q.after);
    var (lo, hi) := BoundsFor(cards, q).value;
    BetweenIsBetween(lo, hi);
    SlotIsFree(cards, q, rest, k, Between(lo, hi));
  }

  lemma SlotTriesAfterRespread(columns: map<nat, Column>, cards: Cards, q: Request, rest: seq<nat>, k: nat)
    requires Sound(cards) && q.id in cards && q.dest in columns
    requires IsOrder(cards - {q.id}, q.dest, rest) && Slot(rest, k, q)
    ensures Sound(Respread(cards, q.dest))
    ensures Tries(columns, Respread(cards, q.dest), q).0 ==
            if AtLimit(columns, cards, q.id, q.dest) then Refused(WipFull) else Moved
  {
    var spread := Respread(cards, q.dest);
    RespreadKeepsLayout(cards, q.dest);
    SameLayoutSameOrder(cards, spread, q.dest, {q.id}, q.dest, rest);
    LimitAfterRespread(columns, cards, q);
    SlotTries(columns, spread, q, rest, k);
  }

  lemma NeighbourMoveSucceeds(t: Table, q: Request, expected: nat, rest: seq<nat>, k: nat)
    requires Sound(t.cards) && q.id in t.cards
    requires IsOrder(t.cards - {q.id}, q.dest, rest) && Slot(rest, k, q)
    ensures Move(t, q, expected).0.Moved? <==>
            Gate(t, q, expected) == None && !AtLimit(t.columns, t.cards, q.id, q.dest)
  {
    if Gate(t, q, expected) == None {
      SlotTries(t.columns, t.cards, q, rest, k);
      SlotTriesAfterRespread(t.columns, t.cards, q, rest, k);
    }
  }

  lemma SlotIsUnique(rest: seq<nat>, k: nat, m: nat, q: Request)
    requires NoDuplicates(rest) && Slot(rest, k, q) && m <= |rest| && Respects(rest, m, q)
    ensures k == m
  {}

  lemma GateReads(t: Table, q: Request, expected: nat)
    requires q.id in t.cards
    ensures Gate(t, q, expected) == None <==>
            && t.cards[q.id].version == expected
            && q.dest in t.columns && t.columns[q.dest].board == t.cards[q.id].board
            && (t.columns[q.dest].done ==> forall dep :: (q.id, dep) in t.deps && dep in t.cards ==>
                  t.cards[dep].column in t.columns && t.columns[t.cards[dep].column].done)
  {
    if q.dest in t.columns && t.columns[q.dest].done {
      assert Blocked(t, q.id) <==> exists dep :: (q.id, dep) in t.deps && dep in t.cards && !IsDone(t, dep);
    }
  }

  /** Asked to put a card between two neighbours, at an end beside one, or at the very end, the
      move succeeds exactly when the version is the one expected, the column is on the card's board, a
      done column finds every dependency done, and a card from elsewhere finds room; the column then
      reads exactly as the list with the card inserted there. A card that waits for others moves
      freely between columns that are not done. */
  lemma NeighbourMove(t: Table, q: Request, expected: nat, rest: seq<nat>, k: nat)
    requires Sound(t.cards) && q.id in t.cards
    requires IsOrder(t.cards - {q.id}, q.dest, rest) && Slot(rest, k, q)
    ensures Move(t, q, expected).0.Moved? <==>
            && t.cards[q.id].version == expected
            && q.dest in t.columns && t.columns[q.dest].board == t.cards[q.id].board
            && (t.columns[q.dest].done ==> forall dep :: (q.id, dep) in t.deps && dep in t.cards ==>
                  t.cards[dep].column in t.columns && t.columns[t.cards[dep].column].done)
            && (q.dest == t.cards[q.id].column || t.columns[q.dest].wip == None ||
                |set c | c in t.cards && t.cards[c].column == q.dest| < t.columns[q.dest].wip.value)
    ensures Move(t, q, expected).0.Moved? ==>
              IsOrder(Move(t, q, expected).1, q.dest, Inserted(rest, k, q.id))
  {
    GateReads(t, q, expected);
    assert InColumn(t.cards, q.dest) == set c | c in t.cards && t.cards[c].column == q.dest;
    NeighbourMoveSucceeds(t, q, expected, rest, k);
    if Move(t, q, expected).0.Moved? {
      var m := MoveRefinesInsertion(t, q, expected, rest);
      OrderHasNoDuplicates(t.cards - {q.id}, q.dest, rest);
      SlotIsUnique(rest, k, m, q);
    }
  }

  lemma BoundsSurvive(cards: Cards, spread: Cards, q: Request)
    requires Sound(cards) && SameLayout(cards, spread, q.dest) && q.id in cards
    requires BoundsFor(cards, q).Success?
    ensures BoundsFor(spread, q).Success?
  {}

  lemma TriesRefusal(columns: map<nat, Column>, cards: Cards, q: Request)
    requires Sound(cards) && q.id in cards && q.dest in columns && BoundsFor(cards, q).Success?
    ensures Tries(columns, cards, q).0 in {Moved, Refused(WipFull), Refused(NoPosition)}
  {
    RespreadKeepsLayout(cards, q.dest);
    BoundsSurvive(cards, Respread(cards, q.dest), q);
  }

  /** A call refused for any reason but the limit or the lack of a free rank has written nothing;
      those two are the only refusals that may leave a re-spread behind. */
  lemma RefusalWritesNothing(t: Table, q: Request, expected: nat)
    requires Sound(t.cards) && q.id in t.cards
    ensures var (result, final) := Move(t, q, expected);
            result.Refused? && result.error != WipFull && result.error != NoPosition ==> final == t.cards
  {
    if Gate(t, q, expected) == None && BoundsFor(t.cards, q).Success? {
      RespreadKeepsLayout(t.cards, q.dest);
      BoundsSurvive(t.cards, Respread(t.cards, q.dest), q);
      TriesRefusal(t.columns, t.cards, q);
      TriesRefusal(t.columns, Respread(t.cards, q.dest), q);
    }
  }

  lemma PositionErrors(columns: map<nat, Column>, cards: Cards, q: Request)
    requires Sound(cards) && q.id in cards && q.dest in columns
    ensures BoundsFor(cards, q).Success? ==>
              Positioned(columns, cards, q).0 in {Moved, Refused(WipFull), Refused(NoPosition)}
    ensures BoundsFor(cards, q).Failure? ==> Positioned(columns, cards, q).0 == Refused(BoundsFor(cards, q).error)
  {
    RespreadKeepsLayout(cards, q.dest);
    if BoundsFor(cards, q).Success? {
      BoundsSurvive(cards, Respread(cards, q.dest), q);
      TriesRefusal(columns, cards, q);
      TriesRefusal(columns, Respread(cards, q.dest), q);
    }
  }

  /** The tests made before any anchor is read refuse a move in their order and for these reasons only. */
  lemma GateErrorsIff(t: Table, q: Request, expected: nat)
    requires Sound(t.cards) && q.id in t.cards
    ensures Move(t, q, expected).0 == Refused(StaleVersion) <==> t.cards[q.id].version != expected
    ensures Move(t, q, expected).0 == Refused(UnknownColumn) <==>
            t.cards[q.id].version == expected &&
            !(q.dest in t.columns && t.columns[q.dest].board == t.cards[q.id].board)
    ensures Move(t, q, expected).0 == Refused(BlockedCard) <==>
            && t.cards[q.id].version == expected
            && q.dest in t.columns && t.columns[q.dest].board == t.cards[q.id].board && t.columns[q.dest].done
            && exists dep :: (q.id, dep) in t.deps && dep in t.cards &&
                 !(t.cards[dep].column in t.columns && t.columns[t.cards[dep].column].done)
  {
    GateReads(t, q, expected);
    if Gate(t, q, expected) == None { PositionErrors(t.columns, t.cards, q); }
  }

  /** An anchor counts when it is sent and not 0. The card itself is no anchor; an anchor that is not in
      the destination, or two in the wrong order, are stale; the lower one is read first. */
  lemma AnchorErrorsIff(t: Table, q: Request, expected: nat)
    requires Sound(t.cards) && q.id in t.cards
    requires Move(t, q, expected).0 !in {Refused(StaleVersion), Refused(UnknownColumn), Refused(BlockedCard)}
    ensures var lower := q.before.Some? && q.before.value != 0;
            var upper := q.after.Some? && q.after.value != 0;
            var lowerFits := !lower || (q.before.value != q.id && q.before.value in t.cards &&
                                        t.cards[q.before.value].column == q.dest);
            var upperFits := !upper || (q.after.value != q.id && q.after.value in t.cards &&
                                        t.cards[q.after.value].column == q.dest);
            && (Move(t, q, expected).0 == Refused(SelfAnchor) <==>
                (lower && q.before.value == q.id) || (lowerFits && upper && q.after.value == q.id))
            && (Move(t, q, expected).0 == Refused(StaleAnchor) <==>
                || (lower && q.before.value != q.id && !lowerFits)
                || (lowerFits && upper && q.after.value != q.id && !upperFits)
                || (lower && upper && lowerFits && upperFits &&
                    !Less(t.cards[q.before.value].rank, t.cards[q.after.value].rank)))
  {
    GateErrorsIff(t, q, expected);
    PositionErrors(t.columns, t.cards, q);
  }

  lemma RespreadRewrites(cards: Cards, col: nat)
    requires Sound(cards)
    ensures Sound(Respread(cards, col)) && InColumn(Respread(cards, col), col) == InColumn(cards, col)
    ensures InColumn(cards, col) == {} ==> Respread(cards, col) == cards
    ensures forall a :: a in InColumn(cards, col) ==> Respread(cards, col)[a].version > cards[a].version
  {
    RespreadKeepsLayout(cards, col);
  }

  /** Re-spreading once or twice leaves a table as it was exactly when the column is empty. */
  lemma RespreadsRewriteIff(cards: Cards, col: nat)
    requires Sound(cards)
    ensures Sound(Respread(cards, col))
    ensures Respread(cards, col) == cards <==> InColumn(cards, col) == {}
    ensures Respread(Respread(cards, col), col) == cards <==> InColumn(cards, col) == {}
  {
    var once := Respread(cards, col);
    RespreadRewrites(cards, col);
    RespreadRewrites(once, col);
    if a :| a in InColumn(cards, col) {
      assert Respread(once, col)[a].version > once[a].version > cards[a].version;
    }
  }

  lemma TryingReads(columns: map<nat, Column>, cards: Cards, q: Request)
    requires Sound(cards) && q.id in cards && q.dest in columns && Tries(columns, cards, q).0.Refused?
    ensures Tries(columns, cards, q).1 ==
            if Target(cards, q).Success? && !AtLimit(columns, cards, q.id, q.dest) then Respread(cards, q.dest) else cards
  {}

  /** The limit and the position decide how often a refused move re-spreads its column. */
  ghost function Respreads(columns: map<nat, Column>, cards: Cards, q: Request): nat
    requires Sound(cards) && q.id in cards && q.dest in columns
  {
    if Target(cards, q).Failure? then 0
    else (if Overlong(cards, q) then 1 else 0) + (if AtLimit(columns, cards, q.id, q.dest) then 0 else 1)
  }

  lemma RefusedPosition(columns: map<nat, Column>, cards: Cards, q: Request)
    requires Sound(cards) && q.id in cards && q.dest in columns && Positioned(columns, cards, q).0.Refused?
    ensures Sound(Respread(cards, q.dest))
    ensures Positioned(columns, cards, q).1 ==
            match Respreads(columns, cards, q)
            case 0 => cards
            case 1 => Respread(cards, q.dest)
            case _ => Respread(Respread(cards, q.dest), q.dest)
  {
    RespreadKeepsLayout(cards, q.dest);
    if Overlong(cards, q) {
      LimitAfterRespread(columns, cards, q);
      BoundsSurvive(cards, Respread(cards, q.dest), q);
      TryingReads(columns, Respread(cards, q.dest), q);
    } else {
      TryingReads(columns, cards, q);
    }
  }

  /** Exactly when a refused move has rewritten its destination: the column holds cards, the gates
      and the anchors let the move through to a rank, and either that rank is too long or the limit
      did not stop it. */
  lemma RefusalWritesIff(t: Table, q: Request, expected: nat)
    requires Sound(t.cards) && q.id in t.cards && Move(t, q, expected).0.Refused?
    ensures Move(t, q, expected).1 != t.cards <==>
            && InColumn(t.cards, q.dest) != {}
            && Gate(t, q, expected) == None && Target(t.cards, q).Success?
            && (Overlong(t.cards, q) || !AtLimit(t.columns, t.cards, q.id, q.dest))
  {
    if Gate(t, q, expected) == None {
      RefusedPosition(t.columns, t.cards, q);
      RespreadsRewriteIff(t.cards, q.dest);
    }
  }

  /** A card that arrives from another column never takes its destination over the limit. */
  lemma MoveRespectsLimit(t: Table, q: Request, expected: nat)
    requires Sound(t.cards) && q.id in t.cards && Move(t, q, expected).0.Moved?
    requires q.dest != t.cards[q.id].column && t.columns[q.dest].wip.Some?
    ensures |InColumn(Move(t, q, expected).1, q.dest)| <= t.columns[q.dest].wip.value
  {
    var spread, r := MoveShape(t, q, expected);
    assert InColumn(Move(t, q, expected).1, q.dest) == InColumn(t.cards, q.dest) + {q.id};
  }

  // ---- where the last resort does not help ----

  lemma {:induction false} SpreadInjective(i: nat, j: nat)
    requires Spread(i) == Spread(j)
    ensures i == j
  {
    LessIrreflexive(Spread(i));
    if i < j { SpreadAscends(i, j); } else if j < i { SpreadAscends(j, i); }
  }

  lemma SpreadTaken(cards: Cards, dest: nat, id: nat, s: seq<nat>, i: nat)
    requires Sound(cards) && IsOrder(cards, dest, s)
    ensures Taken(Respread(cards, dest), dest, id, Spread(i)) <==> i < |s| && s[i] != id
  {
    var spread := Respread(cards, dest);
    if i < |s| && s[i] != id {
      PositionInOrder(cards, dest, s, i);
      assert spread[s[i]].rank == Spread(i);
    }
    if Taken(spread, dest, id, Spread(i)) {
      var j :| j in spread && j != id && spread[j].column == dest && spread[j].rank == Spread(i);
      assert j in s;
      var m :| 0 <= m < |s| && s[m] == j;
      PositionInOrder(cards, dest, s, m);
      SpreadInjective(m, i);
    }
  }

  lemma TargetUnderOneAnchor(cards: Cards, q: Request, s: seq<nat>, i: nat)
    requires Sound(cards) && Sound(Respread(cards, q.dest)) && IsOrder(cards, q.dest, s)
    requires i < |s| && Given(q.before) && s[i] == q.before.value != q.id && !Given(q.after)
    ensures Target(Respread(cards, q.dest), q) == Success((Spread(i), Spread(i + 1)))
  {
    PositionInOrder(cards, q.dest, s, i);
    AboveSpread(i);
    assert Respread(cards, q.dest)[s[i]].rank == Spread(i);
    assert BoundsFor(Respread(cards, q.dest), q) == Success((Spread(i), []));
  }

  /** With a lower anchor only, the rank tried after the final re-spread is the one the card right
      after the anchor has just been given: the last try succeeds exactly when that card is the
      moved card itself or there is none. */
  lemma LastTryUnderOneAnchor(cards: Cards, q: Request, s: seq<nat>, i: nat)
    requires Sound(cards) && q.id in cards && IsOrder(cards, q.dest, s)
    requires i < |s| && Given(q.before) && s[i] == q.before.value != q.id && !Given(q.after)
    ensures LastTry(cards, q).0 == if i + 1 == |s| || s[i + 1] == q.id then Moved else Refused(NoPosition)
  {
    RespreadStored(cards, q.dest);
    TargetUnderOneAnchor(cards, q, s, i);
    SpreadTaken(cards, q.dest, q.id, s, i + 1);
  }

  /** Five cards crowding the gap above an anchor: the four tries and the last one all collide. */
  function CrowdDigit(id: nat): int {
    if id == 1 then 31 else if id == 2 then 32 else if id == 3 then 34 else if id == 4 then 38 else 46
  }

  function Crowd(): Cards {
    map id: nat | 1 <= id <= 6 :: Card(1, if id == 6 then 2 else 1, [CrowdDigit(id)], 1, "", None)
  }

  /** Move card 6 into column 1, after card 1. */
  function CrowdRequest(): Request {
    Request(6, 1, Some(1), None)
  }

  function Crowded(): Table {
    Table(map[1 := Column(1, [31], None, false, false), 2 := Column(1, [46], None, false, false)], Crowd(), {})
  }

  lemma CrowdHolds(id: nat)
    requires 2 <= id <= 5
    ensures Taken(Crowd(), 1, 6, [CrowdDigit(id)])
  {
    assert id in Crowd() && Crowd()[id].rank == [CrowdDigit(id)];
  }

  lemma CrowdSqueeze()
    ensures Squeeze(Crowd(), 1, 6, [31], [46], 4) == None
  {
    CrowdHolds(2);
    CrowdHolds(3);
    CrowdHolds(4);
    CrowdHolds(5);
    assert Squeeze(Crowd(), 1, 6, [31], [32], 1) == None;
    assert Between([31], [34]) == [32];
    assert Squeeze(Crowd(), 1, 6, [31], [34], 2) == None;
    assert Between([31], [38]) == [34];
    assert Squeeze(Crowd(), 1, 6, [31], [38], 3) == None;
    assert Between([31], [46]) == [38];
  }

  lemma CrowdIsSound()
    ensures Sound(Crowd())
  {
    forall id | id in Crowd() ensures WellFormed(Crowd()[id].rank) {
      assert Crowd()[id].rank == [CrowdDigit(id)];
    }
    forall a, b | a in Crowd() && b in Crowd() && a != b && Crowd()[a].column == Crowd()[b].column
      ensures Crowd()[a].rank != Crowd()[b].rank
    {
      assert Crowd()[a].rank[0] == CrowdDigit(a) && Crowd()[b].rank[0] == CrowdDigit(b);
    }
  }

  lemma CrowdOrder()
    ensures IsOrder(Crowd(), 1, [1, 2, 3, 4, 5])
  {
    var s: seq<nat> := [1, 2, 3, 4, 5];
    forall i | 0 <= i < |s| ensures s[i] == i + 1 {}
    forall id | id in Crowd() && Crowd()[id].column == 1 ensures id in s {
      assert s[id - 1] == id;
    }
  }

  lemma CrowdTarget()
    requires Sound(Crowd())
    ensures Target(Crowd(), CrowdRequest()) == Success(([31], [46]))
  {
    assert Above([31]) == [46];
    assert 1 in Crowd() && Crowd()[1] == Card(1, 1, [31], 1, "", None);
  }

  lemma SqueezedOut(t: Table, q: Request, expected: nat, lo: Rank, r: Rank)
    requires Sound(t.cards) && q.id in t.cards && Gate(t, q, expected) == None
    requires Target(t.cards, q) == Success((lo, r)) && |r| <= RANK_LEN_MAX
    requires !AtLimit(t.columns, t.cards, q.id, q.dest)
    requires Squeeze(t.cards, q.dest, q.id, lo, r, MOVE_RETRIES) == None
    ensures Move(t, q, expected) == LastTry(t.cards, q)
  {}

  lemma LastTryRespreads(cards: Cards, q: Request)
    requires Sound(cards) && q.id in cards && LastTry(cards, q).0.Refused?
    ensures forall a :: a in InColumn(cards, q.dest) ==>
              a in LastTry(cards, q).1 && LastTry(cards, q).1[a].version == cards[a].version + 1
  {
    RespreadKeepsLayout(cards, q.dest);
  }

  lemma CrowdRefused()
    requires Sound(Crowd())
    ensures LastTry(Crowd(), CrowdRequest()).0 == Refused(NoPosition)
  {
    CrowdOrder();
    LastTryUnderOneAnchor(Crowd(), CrowdRequest(), [1, 2, 3, 4, 5], 0);
  }

  lemma CrowdMoves()
    requires Sound(Crowd())
    ensures Move(Crowded(), CrowdRequest(), 1) == LastTry(Crowd(), CrowdRequest())
  {
    CrowdTarget();
    CrowdSqueeze();
    assert Crowd()[6].version == 1 && Crowd()[6].board == 1 && 1 in Crowded().columns;
    SqueezedOut(Crowded(), CrowdRequest(), 1, [31], [46]);
  }

  /** A refused move can still rewrite every card of the column: all their versions have moved on. */
  lemma RefusedMoveRespreads()
    ensures Crowded().cards == Crowd() && Sound(Crowd()) && InColumn(Crowd(), 1) != {}
    ensures Move(Crowded(), CrowdRequest(), 1).0 == Refused(NoPosition)
    ensures forall a :: a in InColumn(Crowd(), 1) ==>
              a in Move(Crowded(), CrowdRequest(), 1).1 &&
              Move(Crowded(), CrowdRequest(), 1).1[a].version == Crowd()[a].version + 1
  {
    CrowdIsSound();
    CrowdMoves();
    CrowdRefused();
    assert 1 in InColumn(Crowd(), 1);
    LastTryRespreads(Crowd(), CrowdRequest());
  }

  /** A move that meets the limit on its way is refused for it, long rank or not. */
  lemma RefusedAtLimit(t: Table, q: Request, expected: nat)
    requires Sound(t.cards) && q.id in t.cards && Gate(t, q, expected) == None
    requires Target(t.cards, q).Success? && AtLimit(t.columns, t.cards, q.id, q.dest)
    ensures Move(t, q, expected) ==
            (Refused(WipFull), if Overlong(t.cards, q) then Respread(t.cards, q.dest) else t.cards)
  {
    LimitAfterRespread(t.columns, t.cards, q);
    RespreadKeepsLayout(t.cards, q.dest);
    BoundsSurvive(t.cards, Respread(t.cards, q.dest), q);
  }

  // ---- a refusal at the limit that rewrites the column ----

  /** The longest rank a column may hold without a re-spread. */
  function Summit(): Rank {
    Copies(BASE - 1, 47) + [BASE - 1]
  }

  function Full(): Cards {
    map[1 := Card(1, 1, Summit(), 1, "", None), 2 := Card(1, 2, [31], 1, "", None)]
  }

  /** Column 1 has room for one card and holds one. */
  function FullTable(): Table {
    Table(map[1 := Column(1, [31], Some(1), false, false), 2 := Column(1, [46], None, false, false)], Full(), {})
  }

  lemma FullIsSound()
    ensures Sound(Full())
  {
    assert WellFormed(Summit()) && WellFormed([31]);
    assert Full()[1].column != Full()[2].column;
  }

  lemma FullLast()
    ensures UniqueRanks(Full() - {2}) && LastRank(Full() - {2}, 1) == Summit()
  {
    assert InColumn(Full() - {2}, 1) == {1};
    assert IsLast(Full() - {2}, InColumn(Full() - {2}, 1), 1);
    LastRankIs(Full() - {2}, 1, 1);
  }

  lemma SummitIsFull()
    ensures |Above(Summit())| == 49
  {
    AboveCopies(47, BASE - 1);
  }

  lemma FullTarget()
    ensures Sound(Full())
    ensures Target(Full(), Request(2, 1, None, None)).Success? && Overlong(Full(), Request(2, 1, None, None))
  {
    FullIsSound();
    FullLast();
    SummitIsFull();
    assert BoundsFor(Full(), Request(2, 1, None, None)) == Success((Summit(), []));
  }

  lemma FullGate()
    ensures Gate(FullTable(), Request(2, 1, None, None), 1) == None
  {
    assert Full()[2] == Card(1, 2, [31], 1, "", None);
  }

  /** A move refused at the limit can still rewrite the column, when the rank it computed was too long. */
  lemma LimitRefusalRespreads()
    ensures FullTable().cards == Full() && Sound(Full())
    ensures Move(FullTable(), Request(2, 1, None, None), 1).0 == Refused(WipFull)
    ensures Move(FullTable(), Request(2, 1, None, None), 1).1 != Full()
  {
    var q := Request(2, 1, None, None);
    FullTarget();
    assert InColumn(Full(), 1) == {1};
    assert AtLimit(FullTable().columns, Full(), 2, 1);
    FullGate();
    RefusedAtLimit(FullTable(), q, 1);
    RespreadsRewriteIff(Full(), 1);
  }

  // ---- a card that waits ----

  /** Card 1 waits for card 2; neither is done and no column is a done column. */
  function Waiting(): Table {
    Table(map[1 := Column(1, [31], None, false, false), 2 := Column(1, [46], None, false, false)],
          map[1 := Card(1, 1, [31], 1, "", None), 2 := Card(1, 1, [46], 1, "", None)],
          {(1, 2)})
  }

  lemma WaitingIsSound()
    ensures Sound(Waiting().cards)
  {
    assert WellFormed([31]) && WellFormed([46]) && [31][0] != [46][0];
  }

  /** A card that waits for an unfinished one moves between ordinary columns. */
  lemma WaitingCardMoves()
    ensures Sound(Waiting().cards) && Blocked(Waiting(), 1)
    ensures Move(Waiting(), Request(1, 2, None, None), 1).0.Moved?
    ensures IsOrder(Move(Waiting(), Request(1, 2, None, None), 1).1, 2, [1])
  {
    WaitingIsSound();
    assert (1, 2) in Waiting().deps && 2 in Waiting().cards && !IsDone(Waiting(), 2);
    assert IsOrder(Waiting().cards - {1}, 2, []);
    NeighbourMove(Waiting(), Request(1, 2, None, None), 1, [], 0);
    assert Inserted([], 0, 1) == [1];
  }

  // ---- the last of the retries ----

  /** The crowd without the card right above the anchor: three tries collide and the fourth holds. */
  lemma FourthTryHolds()
    ensures Squeeze(Crowd() - {2}, 1, 6, [31], [46], MOVE_RETRIES) == Some([32])
  {
    var crowd := Crowd() - {2};
    forall id | 3 <= id <= 5 ensures Taken(crowd, 1, 6, [CrowdDigit(id)]) {
      assert id in crowd && crowd[id].rank == [CrowdDigit(id)];
    }
    forall j | j in crowd && j != 6 && crowd[j].column == 1 ensures crowd[j].rank != [32] {
      assert crowd[j].rank == [CrowdDigit(j)] && [CrowdDigit(j)][0] != [32][0];
    }
    assert CrowdDigit(3) == 34 && CrowdDigit(4) == 38 && CrowdDigit(5) == 46;
    assert Squeeze(crowd, 1, 6, [31], [32], 1) == Some([32]);
    assert Between([31], [34]) == [32];
    assert Squeeze(crowd, 1, 6, [31], [34], 2) == Some([32]);
    assert Between([31], [38]) == [34];
    assert Squeeze(crowd, 1, 6, [31], [38], 3) == Some([32]);
    assert Between([31], [46]) == [38];
  }
}
