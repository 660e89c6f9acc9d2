/**
 The service over its tables, call by call: each method changes the fields step by step as the
 code does and is proved to leave exactly what the specification of that call says.
 */
module KanbanService {
  import opened Basics
  import opened KanbanRank
  import opened KanbanTable
  import opened KanbanDeps
  import opened KanbanMove
  import opened KanbanRuns

  datatype Commit = Written | LimitReached | Collision

  class Service {
    var columns: map<nat, Column>
    var cards: Cards
    var deps: Edges

    constructor ()
      ensures State() == Table(map[], map[], {}) && Valid(State())
    {
      columns, cards, deps := map[], map[], {};
    }

    ghost function State(): Table
      reads this
    {
      Table(columns, cards, deps)
    }

    // ---- queries ----

    /** The cards of a column ordered by rank. */
    method ListCardsInColumn(col: nat) returns (s: seq<nat>)
      requires UniqueRanks(cards)
      ensures IsOrder(cards, col, s)
    {
      s := [];
      var todo := InColumn(cards, col);
      while todo != {}
        invariant todo <= InColumn(cards, col)
        invariant IsOrder(cards - todo, col, s)
        invariant forall i, j :: 0 <= i < |s| && j in todo ==> Less(cards[s[i]].rank, cards[j].rank)
        decreases todo
      {
        EndsExist(cards, col, todo);
        var m :| IsFirst(cards, todo, m);
        var rest := todo - {m};
        NextInOrder(cards, col, todo, s, m);
        s, todo := s + [m], rest;
      }
      assert cards - {} == cards;
    }

    method CountCardsInColumn(col: nat) returns (n: nat)
      ensures n == |InColumn(cards, col)|
    {
      n := |InColumn(cards, col)|;
    }

    method LastRankInColumn(col: nat) returns (r: Rank)
      requires UniqueRanks(cards)
      ensures r == LastRank(cards, col)
    {
      var ids := InColumn(cards, col);
      if ids == {} { return []; }
      EndsExist(cards, col, ids);
      var m :| IsLast(cards, ids, m);
      LastRankIs(cards, col, m);
      return cards[m].rank;
    }

    /** The dependency rows of one board, in whatever order the database returns them. */
    method DepsForBoard(board: nat) returns (rows: seq<(nat, nat)>)
      ensures RowSet(rows) == BoardEdges(State(), board)
    {
      rows := [];
      var todo := deps;
      while todo != {}
        invariant todo <= deps
        invariant RowSet(rows) == set e | e in deps - todo && e.0 in cards && cards[e.0].board == board
        decreases todo
      {
        var e :| e in todo;
        todo := todo - {e};
        if e.0 in cards && cards[e.0].board == board {
          assert RowSet(rows + [e]) == RowSet(rows) + {e};
          rows := rows + [e];
        }
      }
    }

    method DepIdsForCard(id: nat) returns (ids: set<nat>)
      ensures forall b :: b in ids <==> (id, b) in deps
    {
      ids := set e | e in deps && e.0 == id :: e.1;
    }

    // ---- writes ----

    /** One move attempt: the limit is counted where the row is written, and the unique index on
        (column, rank) rejects a rank another card of the column holds. */
    method CommitMove(id: nat, dest: nat, newRank: Rank, wip: Option<nat>) returns (result: Commit)
      requires id in cards
      modifies this`cards
      ensures var full := dest != old(cards)[id].column && wip.Some? && |InColumn(old(cards), dest)| >= wip.value;
              var taken := Taken(old(cards), dest, id, newRank);
              && (result == LimitReached <==> full)
              && (result == Collision <==> !full && taken)
              && cards == if full || taken then old(cards) else Place(old(cards), id, dest, newRank)
    {
      if dest != cards[id].column && wip.Some? {
        var count := CountCardsInColumn(dest);
        if count >= wip.value { return LimitReached; }
      }
      ghost var before := cards;
      if j :| j in cards && j != id && cards[j].column == dest && cards[j].rank == newRank {
        assert Taken(cards, dest, id, newRank);
        return Collision;
      }
      cards := cards[id := cards[id].(column := dest, rank := newRank, version := cards[id].version + 1)];
      return Written;
    }

    /** Re-spreads a column in two passes through temporary ranks; the unique index holds after
        every single row update. */
    method RebalanceColumn(col: nat, newRanks: seq<Rank>)
      requires Sound(cards) && IsSpread(newRanks) && |newRanks| == |InColumn(cards, col)|
      modifies this`cards
      ensures cards == Respread(old(cards), col)
    {
      var s := ListCardsInColumn(col);
      ghost var before := cards;
      OrderHasNoDuplicates(cards, col, s);
      DistinctCardinality(s);
      assert Elements(s) == InColumn(cards, col);
      WriteTemporaryRanks(col, s);
      WriteNewRanks(before, col, s, newRanks);
      SecondPassEnds(before, col, s);
    }

    /** The first pass: every card of the column moves to its temporary rank. */
    method WriteTemporaryRanks(ghost col: nat, s: seq<nat>)
      requires Sound(cards) && IsOrder(cards, col, s) && NoDuplicates(s)
      modifies this`cards
      ensures cards == FirstPass(old(cards), s, |s|)
    {
      ghost var before := cards;
      assert FirstPass(before, s, 0) == before;
      for i := 0 to |s|
        invariant cards == FirstPass(before, s, i) && UniqueRanks(cards)
      {
        FirstPassStep(before, col, s, i);
        cards := cards[s[i] := cards[s[i]].(rank := Temp(i))];
      }
    }

    /** The second pass: every card of the column takes its new rank and a new version. */
    method WriteNewRanks(ghost before: Cards, ghost col: nat, s: seq<nat>, newRanks: seq<Rank>)
      requires Sound(before) && IsOrder(before, col, s) && NoDuplicates(s)
      requires cards == FirstPass(before, s, |s|) && IsSpread(newRanks) && |newRanks| == |s|
      modifies this`cards
      ensures cards == SecondPass(before, col, s, |s|)
    {
      SecondPassBegins(before, col, s);
      for i := 0 to |s|
        invariant cards == SecondPass(before, col, s, i) && UniqueRanks(cards)
      {
        SecondPassRow(before, cards, col, s, i);
        WriteRow(s[i], newRanks[i]);
      }
    }

    /** One row of the second pass. */
    method WriteRow(id: nat, newRank: Rank)
      requires id in cards
      modifies this`cards
      ensures cards == Rewritten(old(cards), id, newRank)
    {
      cards := cards[id := cards[id].(rank := newRank, version := cards[id].version + 1)];
    }

    method Rebalance(col: nat)
      requires Sound(cards)
      modifies this`cards
      ensures cards == Respread(old(cards), col)
    {
      var count := CountCardsInColumn(col);
      var ranks := RebalanceRanks(count);
      RebalanceColumn(col, ranks);
    }

    // ---- moving ----

    /** The ranks of a column in order, without the card that moves. */
    method RanksOfOthers(dest: nat, id: nat) returns (ranks: seq<Rank>)
      requires UniqueRanks(cards)
      ensures LastRank(cards - {id}, dest) == if ranks == [] then [] else ranks[|ranks| - 1]
    {
      var s := ListCardsInColumn(dest);
      ranks := [];
      ghost var kept: seq<nat> := [];
      for i := 0 to |s|
        invariant |ranks| == |kept|
        invariant forall k :: 0 <= k < |kept| ==> kept[k] in s[..i] && kept[k] != id && ranks[k] == cards[kept[k]].rank
        invariant forall x :: x in s[..i] && x != id ==> x in kept
        invariant forall k, m :: 0 <= k < m < |kept| ==> Less(ranks[k], ranks[m])
      {
        assert s[..i + 1] == s[..i] + [s[i]];
        if s[i] != id {
          forall k | 0 <= k < |kept| ensures Less(ranks[k], cards[s[i]].rank) { Earlier(cards, dest, s, i, kept[k]); }
          ranks := ranks + [cards[s[i]].rank];
          kept := kept + [s[i]];
        }
      }
      assert s[..|s|] == s;
      KeptOrder(cards, dest, id, s, kept);
    }

    method MoveBounds(dest: nat, id: nat, before: Option<nat>, after: Option<nat>)
      returns (r: Result<(Rank, Rank), MoveError>)
      requires Sound(cards)
      ensures r == Bounds(cards, dest, id, before, after)
    {
      var beforeRank := AnchorRank(cards, dest, before, id);
      if beforeRank.Failure? { return Failure(beforeRank.error); }
      var afterRank := AnchorRank(cards, dest, after, id);
      if afterRank.Failure? { return Failure(afterRank.error); }
      var lo, hi := beforeRank.value, afterRank.value;
      if lo == [] && hi == [] {
        var ranks := RanksOfOthers(dest, id);
        lo := if ranks == [] then [] else ranks[|ranks| - 1];
      }
      if lo != [] && hi != [] && !Less(lo, hi) { return Failure(StaleAnchor); }
      return Success((lo, hi));
    }

    /** A card is blocked while any card it depends on is not in a done column. */
    method IsBlocked(id: nat) returns (blocked: bool)
      ensures blocked <==> Blocked(State(), id)
      ensures blocked <==> exists dep :: (id, dep) in deps && dep in cards &&
                             !(cards[dep].column in columns && columns[cards[dep].column].done)
    {
      var todo := DepIdsForCard(id);
      while todo != {}
        invariant forall b :: b in todo ==> (id, b) in deps
        invariant forall b :: (id, b) in deps && b in cards && !IsDone(State(), b) ==> b in todo
        decreases todo
      {
        var dep :| dep in todo;
        todo := todo - {dep};
        if dep !in cards { continue; }
        var column := cards[dep].column;
        if column !in columns || !columns[column].done {
          assert !IsDone(State(), dep);
          return true;
        }
      }
      return false;
    }

    method MoveCard(q: Request, expected: nat) returns (result: MoveResult)
      requires Valid(State()) && q.id in cards
      modifies this`cards
      ensures (result, cards) == Move(old(State()), q, expected)
      ensures Valid(State())
    {
      ghost var t := State();
      MoveKeepsValid(t, q, expected);
      if cards[q.id].version != expected { return Refused(StaleVersion); }
      if q.dest !in columns || columns[q.dest].board != cards[q.id].board { return Refused(UnknownColumn); }
      if columns[q.dest].done {
        var blocked := IsBlocked(q.id);
        if blocked { return Refused(BlockedCard); }
      }
      result := Position(q);
    }

    /** The part of a move after its gates. */
    method Position(q: Request) returns (result: MoveResult)
      requires Sound(cards) && q.id in cards && q.dest in columns
      modifies this`cards
      ensures (result, cards) == Positioned(columns, old(cards), q)
    {
      var target := ComputeTarget(q);
      if target.Success? && |target.value.1| > RANK_LEN_MAX {
        RespreadKeepsLayout(cards, q.dest);
        Rebalance(q.dest);
        target := ComputeTarget(q);
      }
      result := Attempt(q, target);
    }

    /** The retries and, when they run out, one more try on a re-spread column. */
    method Attempt(q: Request, target: Result<(Rank, Rank), MoveError>) returns (result: MoveResult)
      requires Sound(cards) && q.id in cards && q.dest in columns && target == Target(cards, q)
      modifies this`cards
      ensures (result, cards) == Tries(columns, old(cards), q)
    {
      if target.Failure? { return Refused(target.error); }
      var wip := columns[q.dest].wip;
      var tried := TryRanks(q, target.value.0, target.value.1, wip, MOVE_RETRIES);
      if tried.Some? { return tried.value; }
      result := RespreadAndTry(q, wip);
    }

    method RespreadAndTry(q: Request, wip: Option<nat>) returns (result: MoveResult)
      requires Sound(cards) && q.id in cards && q.dest in columns && wip == columns[q.dest].wip
      requires !AtLimit(columns, cards, q.id, q.dest)
      modifies this`cards
      ensures (result, cards) == LastTry(old(cards), q)
    {
      RespreadKeepsLayout(cards, q.dest);
      LimitAfterRespread(columns, cards, q);
      Rebalance(q.dest);
      var target := ComputeTarget(q);
      if target.Failure? { return Refused(target.error); }
      var commit := CommitMove(q.id, q.dest, target.value.1, wip);
      result := if commit == Written then Moved else Refused(NoPosition);
    }

    /** The bounds read now, and the rank between them. */
    method ComputeTarget(q: Request) returns (r: Result<(Rank, Rank), MoveError>)
      requires Sound(cards)
      ensures r == Target(cards, q)
    {
      var bounds := MoveBounds(q.dest, q.id, q.before, q.after);
      if bounds.Failure? { return Failure(bounds.error); }
      var (lo, hi) := bounds.value;
      BoundsAreSeparable(cards, q.dest, q.id, q.before, q.after);
      var newRank := RankBetween(lo, hi);
      return Success((lo, newRank));
    }

    /** The next rank to try after a collision. */
    method BelowCollision(q: Request, lo: Rank, hi: Rank, ghost left: nat) returns (r: Rank)
      requires (lo == [] || WellFormed(lo)) && WellFormed(hi) && Less(lo, hi)
      requires left > 0 && Taken(cards, q.dest, q.id, hi)
      ensures WellFormed(r) && Less(lo, r)
      ensures Squeeze(cards, q.dest, q.id, lo, hi, left) == Squeeze(cards, q.dest, q.id, lo, r, left - 1)
    {
      SqueezeOn(cards, q.dest, q.id, lo, hi, left);
      r := RankBetween(lo, hi);
    }

    /** The bounded retries: after each collision the next try squeezes below the last one. */
    method TryRanks(q: Request, lo: Rank, first: Rank, wip: Option<nat>, tries: nat) returns (result: Option<MoveResult>)
      requires q.id in cards && q.dest in columns && wip == columns[q.dest].wip
      requires tries > 0
      requires (lo == [] || WellFormed(lo)) && WellFormed(first) && Less(lo, first)
      modifies this`cards
      ensures var full := AtLimit(columns, old(cards), q.id, q.dest);
              var free := Squeeze(old(cards), q.dest, q.id, lo, first, tries);
              if full then result == Some(Refused(WipFull)) && cards == old(cards)
              else match free
                   case Some(r) => result == Some(Moved) && cards == Place(old(cards), q.id, q.dest, r)
                   case None => result == None && cards == old(cards)
    {
      var newRank := first;
      ghost var free := Squeeze(cards, q.dest, q.id, lo, first, tries);
      ghost var left := tries;
      for i := 0 to tries
        invariant cards == old(cards) && left == tries - i
        invariant WellFormed(newRank) && Less(lo, newRank)
        invariant i > 0 ==> !AtLimit(columns, cards, q.id, q.dest)
        invariant free == Squeeze(cards, q.dest, q.id, lo, newRank, left)
      {
        var commit := CommitMove(q.id, q.dest, newRank, wip);
        assert commit == LimitReached <==> AtLimit(columns, old(cards), q.id, q.dest);
        if commit == Written {
          assert free == Some(newRank);
          return Some(Moved);
        }
        if commit == LimitReached { return Some(Refused(WipFull)); }
        newRank := BelowCollision(q, lo, newRank, left);
        left := left - 1;
      }
      return None;
    }

    /** The leftmost of some columns of a board. */
    method LeftmostColumn(ghost board: nat, ids: set<nat>) returns (r: Option<nat>)
      requires ColumnsRanked(columns) && ids <= ColumnsOf(columns, board)
      ensures r == Leftmost(columns, board, ids)
    {
      if ids == {} { return None; }
      LeftmostExists(columns, board, ids);
      var c :| c in ids && c in columns && forall d :: d in ids && d in columns && d != c ==> Less(columns[c].rank, columns[d].rank);
      LeftmostIs(columns, board, ids, c);
      return Some(c);
    }

    /** The lifecycle target of an event card. */
    method FirstDoneColumn(board: nat) returns (r: Option<nat>)
      requires Valid(State())
      ensures r == FirstDone(State(), board)
    {
      r := LeftmostColumn(board, DoneOf(columns, board));
    }

    /** The column a new card goes to. */
    method ResolveLanding(board: nat, column: Option<nat>) returns (r: Result<nat, CreateError>)
      requires Valid(State())
      ensures r == Landing(State(), board, column)
    {
      if column.Some? {
        if column.value !in columns || columns[column.value].board != board { return Failure(NoSuchColumn); }
        return Success(column.value);
      }
      var landing := LeftmostColumn(board, LandingOf(columns, board));
      if landing.Some? { return Success(landing.value); }
      var first := LeftmostColumn(board, ColumnsOf(columns, board));
      if first.None? { return Failure(NoColumns); }
      return Success(first.value);
    }

    method MoveCardToDone(id: nat) returns (result: Completion)
      requires Valid(State()) && id in cards
      modifies this`cards
      ensures (result, cards) == Complete(old(State()), id)
      ensures Valid(State())
    {
      ghost var t := State();
      CompleteKeepsValid(t, id);
      var column := cards[id].column;
      if column in columns && columns[column].done { return Skipped; }
      var done := FirstDoneColumn(cards[id].board);
      if done.None? { return Skipped; }
      var blocked := IsBlocked(id);
      if blocked { return Skipped; }
      var moved := MoveCard(Request(id, done.value, None, None), cards[id].version);
      result := if moved == Moved then Done else Failed(moved.error);
    }

    /** Completes the newest card an event opened; nothing when it opened none. */
    method CompleteCardForEvent(kind: string, ref: nat) returns (result: Completion)
      requires Valid(State())
      modifies this`cards
      ensures Valid(State())
      ensures forall id | id in old(cards) && old(cards)[id].origin == Some((kind, ref)) ::
                (forall other :: other in old(cards) && old(cards)[other].origin == Some((kind, ref)) ==> other <= id) ==>
                (result, cards) == Complete(old(State()), id)
      ensures (forall id :: id in old(cards) ==> old(cards)[id].origin != Some((kind, ref))) ==>
                result == Skipped && cards == old(cards)
    {
      var ids := set id | id in cards && cards[id].origin == Some((kind, ref));
      if ids == {} {
        assert forall id :: id in cards && cards[id].origin == Some((kind, ref)) ==> id in ids;
        return Skipped;
      }
      NewestExists(ids);
      ghost var witnessed :| IsNewest(ids, witnessed);
      var newest :| newest in ids && forall j :: j in ids ==> j <= newest;
      assert forall id :: id in cards && cards[id].origin == Some((kind, ref)) ==> id in ids;
      result := MoveCardToDone(newest);
    }

    // ---- cards and dependencies ----

    method InsertCard(id: nat, board: nat, column: Option<nat>, text: string, origin: Option<(string, nat)>)
      returns (error: Option<CreateError>)
      requires Valid(State()) && id !in cards
      modifies this`cards
      ensures State() == Created(old(State()), id, board, column, text, origin) && Valid(State())
      ensures error == match Landing(old(State()), board, column) case Success(_) => None case Failure(e) => Some(e)
    {
      CreateKeepsValid(State(), id, board, column, text, origin);
      var landing := ResolveLanding(board, column);
      if landing.Failure? { return Some(landing.error); }
      var last := LastRankInColumn(landing.value);
      LastRankIsStored(cards, landing.value);
      var rank := RankBetween(last, []);
      cards := cards[id := Card(board, landing.value, rank, 1, text, origin)];
      return None;
    }

    method UpdateCard(id: nat, text: string, expected: Option<nat>) returns (ok: bool)
      requires Valid(State()) && id in cards
      modifies this`cards
      ensures ok <==> expected.None? || old(cards)[id].version == expected.value
      ensures State() == Edited(old(State()), id, text, expected) && Valid(State())
      ensures cards == if !ok then old(cards)
                       else old(cards)[id := old(cards)[id].(text := text, version := old(cards)[id].version + 1)]
    {
      ghost var t := State();
      EditKeepsValid(t, id, text, expected);
      if expected.Some? && cards[id].version != expected.value { return false; }
      var card := cards[id].(text := text);
      cards := cards[id := card.(version := card.version + 1)];
      assert State() == Edited(t, id, text, expected);
      return true;
    }

    /** Dependency rows are foreign keys: a card that has any cannot be deleted. */
    method DeleteCard(id: nat) returns (ok: bool)
      requires Valid(State()) && id in cards
      modifies this`cards
      ensures ok <==> forall a, b :: (a, b) in deps ==> a != id && b != id
      ensures cards == if ok then old(cards) - {id} else old(cards)
      ensures State() == Deleted(old(State()), id) && Valid(State())
    {
      DeleteKeepsValid(State(), id);
      if e :| e in deps && (e.0 == id || e.1 == id) {
        assert HasDependencyRows(State(), id) by { assert (e.0, e.1) in deps; }
        return false;
      }
      assert !HasDependencyRows(State(), id);
      cards := cards - {id};
      return true;
    }

    method AddDependency(a: nat, b: nat) returns (error: Option<DepError>)
      requires Valid(State())
      modifies this`deps
      ensures State() == DependencyAdded(old(State()), a, b) && Valid(State())
      ensures error == match KanbanRuns.AddDependency(old(State()), a, b)
                       case Success(_) => None
                       case Failure(e) => Some(e)
      ensures error == Some(UnknownCard) <==> a !in cards
      ensures error == Some(SelfDependency) <==> a in cards && a == b
      ensures error == Some(OtherBoard) <==> a in cards && a != b && (b !in cards || cards[b].board != cards[a].board)
      ensures deps == if error == None then old(deps) + {(a, b)} else old(deps)
    {
      AddDependencyKeepsValid(State(), a, b);
      if a !in cards { return Some(UnknownCard); }
      if b == a { return Some(SelfDependency); }
      if b !in cards || cards[b].board != cards[a].board { return Some(OtherBoard); }
      if (a, b) in deps { return None; }
      var rows := DepsForBoard(cards[a].board);
      var cycle := WouldCreateCycle(rows, a, b);
      if cycle { return Some(WouldCycle); }
      deps := deps + {(a, b)};
      return None;
    }

    method RemoveDependency(a: nat, b: nat)
      requires Valid(State()) && a in cards
      modifies this`deps
      ensures State() == DependencyRemoved(old(State()), a, b) && Valid(State())
      ensures deps == old(deps) - {(a, b)}
    {
      RemoveDependencyKeepsValid(State(), a, b);
      deps := deps - {(a, b)};
    }
  }

  ghost predicate IsNewest(ids: set<nat>, m: nat) {
    m in ids && forall j :: j in ids ==> j <= m
  }

  lemma {:induction false} NewestExists(ids: set<nat>)
    requires ids != {}
    ensures exists m :: IsNewest(ids, m)
  {
    var x :| x in ids;
    var rest := ids - {x};
    var top := x;
    if rest != {} {
      NewestExists(rest);
      var m :| IsNewest(rest, m);
      if x < m { top := m; }
    }
    forall j | j in ids ensures j <= top {
      assert j == x || j in rest;
    }
    assert IsNewest(ids, top);
  }

  lemma NextInOrder(cards: Cards, col: nat, todo: set<nat>, s: seq<nat>, m: nat)
    requires todo <= InColumn(cards, col) && IsOrder(cards - todo, col, s) && IsFirst(cards, todo, m)
    requires forall i, j :: 0 <= i < |s| && j in todo ==> Less(cards[s[i]].rank, cards[j].rank)
    ensures IsOrder(cards - (todo - {m}), col, s + [m])
    ensures forall i, j :: 0 <= i < |s + [m]| && j in todo - {m} ==> Less(cards[(s + [m])[i]].rank, cards[j].rank)
  {
    forall id | id in cards - (todo - {m}) && cards[id].column == col ensures id in s + [m] {
      if id != m { assert id in cards - todo; }
    }
  }

  lemma Earlier(cards: Cards, dest: nat, s: seq<nat>, i: nat, x: nat)
    requires IsOrder(cards, dest, s) && i < |s| && x in s[..i]
    ensures x in cards && Less(cards[x].rank, cards[s[i]].rank)
  {
    var j :| 0 <= j < i && s[j] == x;
  }

  /** The last of the cards left once the moved one is skipped carries the last rank. */
  lemma KeptOrder(cards: Cards, dest: nat, id: nat, s: seq<nat>, kept: seq<nat>)
    requires UniqueRanks(cards) && IsOrder(cards, dest, s)
    requires forall k :: 0 <= k < |kept| ==> kept[k] in s && kept[k] != id
    requires forall x :: x in s && x != id ==> x in kept
    requires forall k, m :: 0 <= k < m < |kept| ==> Less(cards[kept[k]].rank, cards[kept[m]].rank)
    ensures LastRank(cards - {id}, dest) == if kept == [] then [] else cards[kept[|kept| - 1]].rank
  {
    LastOfOrder(cards - {id}, dest, kept);
  }

  // ---- the two passes of a re-spread, row by row ----

  ghost function FirstPass(cards: Cards, s: seq<nat>, done: nat): Cards
    requires NoDuplicates(s) && done <= |s|
  {
    map id | id in cards :: if id in s[..done] then cards[id].(rank := Temp(IndexOf(s, id))) else cards[id]
  }

  ghost function SecondPass(cards: Cards, col: nat, s: seq<nat>, done: nat): Cards
    requires NoDuplicates(s) && done <= |s|
  {
    map id | id in cards ::
      if id in s[..done] then cards[id].(rank := Spread(IndexOf(s, id)), version := cards[id].version + 1)
      else if id in s then cards[id].(rank := Temp(IndexOf(s, id)))
      else cards[id]
  }

  lemma FirstPassStep(cards: Cards, col: nat, s: seq<nat>, i: nat)
    requires Sound(cards) && IsOrder(cards, col, s) && NoDuplicates(s) && i < |s|
    ensures var now := FirstPass(cards, s, i);
            FirstPass(cards, s, i + 1) == now[s[i] := now[s[i]].(rank := Temp(i))]
    ensures UniqueRanks(FirstPass(cards, s, i + 1))
  {
    assert s[..i + 1] == s[..i] + [s[i]];
    assert IndexOf(s, s[i]) == i;
    var next := FirstPass(cards, s, i + 1);
    forall a, b | a in next && b in next && a != b && next[a].column == next[b].column
      ensures next[a].rank != next[b].rank
    {
      if a in s { TempsDistinct(IndexOf(s, a), if b in s then IndexOf(s, b) else 0); }
      if b in s { TempsDistinct(IndexOf(s, b), 0); }
    }
  }

  lemma SecondPassBegins(cards: Cards, col: nat, s: seq<nat>)
    requires Sound(cards) && IsOrder(cards, col, s) && NoDuplicates(s)
    ensures SecondPass(cards, col, s, 0) == FirstPass(cards, s, |s|)
    ensures UniqueRanks(FirstPass(cards, s, |s|))
  {
    assert s[..|s|] == s;
    if s == [] {
      assert FirstPass(cards, s, 0) == cards;
    } else {
      FirstPassStep(cards, col, s, |s| - 1);
    }
  }

  function Rewritten(cards: Cards, id: nat, r: Rank): Cards
    requires id in cards
  {
    cards[id := cards[id].(rank := r, version := cards[id].version + 1)]
  }

  lemma OneRowMore(s: seq<nat>, i: nat, id: nat)
    requires NoDuplicates(s) && i < |s|
    ensures id in s[..i + 1] <==> id in s[..i] || id == s[i]
    ensures s[i] !in s[..i] && IndexOf(s, s[i]) == i
  {
    assert s[..i + 1] == s[..i] + [s[i]];
  }

  lemma SecondPassStep(cards: Cards, col: nat, s: seq<nat>, i: nat)
    requires NoDuplicates(s) && i < |s| && s[i] in cards
    ensures SecondPass(cards, col, s, i + 1) == Rewritten(SecondPass(cards, col, s, i), s[i], Spread(i))
  {
    var next, wanted := SecondPass(cards, col, s, i + 1), Rewritten(SecondPass(cards, col, s, i), s[i], Spread(i));
    forall id | id in cards ensures next[id] == wanted[id] {
      OneRowMore(s, i, id);
    }
  }

  lemma SecondPassRow(cards: Cards, now: Cards, col: nat, s: seq<nat>, i: nat)
    requires Sound(cards) && IsOrder(cards, col, s) && NoDuplicates(s) && i < |s|
    requires now == SecondPass(cards, col, s, i)
    ensures s[i] in now && SecondPass(cards, col, s, i + 1) == Rewritten(now, s[i], Spread(i))
    ensures UniqueRanks(SecondPass(cards, col, s, i + 1))
  {
    SecondPassStep(cards, col, s, i);
    SecondPassUnique(cards, col, s, i + 1);
  }

  lemma SecondPassUnique(cards: Cards, col: nat, s: seq<nat>, done: nat)
    requires Sound(cards) && IsOrder(cards, col, s) && NoDuplicates(s) && done <= |s|
    ensures UniqueRanks(SecondPass(cards, col, s, done))
  {
    var now := SecondPass(cards, col, s, done);
    forall a, b | a in now && b in now && a != b && now[a].column == now[b].column
      ensures now[a].rank != now[b].rank
    {
      if a in s && b in s { PassRanksDiffer(IndexOf(s, a), IndexOf(s, b)); }
    }
  }

  /** A new rank and a temporary one, or two of a kind at different places, are never equal. */
  lemma PassRanksDiffer(i: nat, j: nat)
    requires i != j
    ensures Spread(i) != Spread(j) && Temp(i) != Temp(j) && Spread(i) != Temp(j) && Temp(i) != Spread(j)
  {
    TempsDistinct(i, j);
    TempsDistinct(j, i);
    SpreadWellFormed(i);
    SpreadWellFormed(j);
    if Spread(i) == Spread(j) { SpreadInjective(i, j); }
  }

  lemma SecondPassEnds(cards: Cards, col: nat, s: seq<nat>)
    requires Sound(cards) && IsOrder(cards, col, s) && NoDuplicates(s)
    ensures SecondPass(cards, col, s, |s|) == Respread(cards, col)
  {
    assert s[..|s|] == s;
    forall id | id in s ensures Position(cards, col, cards[id].rank) == IndexOf(s, id) {
      PositionInOrder(cards, col, s, IndexOf(s, id));
    }
    forall id | id in cards ensures id in s <==> cards[id].column == col {}
  }
}
