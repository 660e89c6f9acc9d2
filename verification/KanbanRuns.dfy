/**
 Runs of the board: what every sequence of creates, moves, edits, deletions, dependency changes,
 column changes and lifecycle completions keeps.
 */
module KanbanRuns {
  import opened Basics
  import opened KanbanRank
  import opened KanbanTable
  import opened KanbanDeps
  import opened KanbanMove

  /** Every card sits in a column of its own board. */
  ghost predicate Placed(columns: map<nat, Column>, cards: Cards) {
    forall c :: c in cards ==> cards[c].column in columns && columns[cards[c].column].board == cards[c].board
  }

  /** Dependency rows join two cards of one board. */
  ghost predicate DepsOnBoards(cards: Cards, deps: Edges) {
    forall a, b :: (a, b) in deps ==> a in cards && b in cards && cards[a].board == cards[b].board
  }

  /** The columns of a board have distinct stored ranks. */
  ghost predicate ColumnsRanked(columns: map<nat, Column>) {
    && (forall c :: c in columns ==> WellFormed(columns[c].rank))
    && (forall c, d :: c in columns && d in columns && c != d && columns[c].board == columns[d].board ==>
          columns[c].rank != columns[d].rank)
  }

  ghost predicate Valid(t: Table) {
    && Sound(t.cards) && Placed(t.columns, t.cards)
    && DepsOnBoards(t.cards, t.deps) && Acyclic(t.deps)
    && ColumnsRanked(t.columns)
  }

  // ---- dependencies ----

  datatype DepError = UnknownCard | SelfDependency | OtherBoard | WouldCycle

  ghost function BoardEdges(t: Table, board: nat): Edges {
    set e | e in t.deps && e.0 in t.cards && t.cards[e.0].board == board
  }

  /** The new dependency rows, or why the request is refused; a row already there is accepted as it is. */
  ghost function AddDependency(t: Table, a: nat, b: nat): Result<Edges, DepError> {
    if a !in t.cards then Failure(UnknownCard)
    else if a == b then Failure(SelfDependency)
    else if b !in t.cards || t.cards[b].board != t.cards[a].board then Failure(OtherBoard)
    else if (a, b) in t.deps then Success(t.deps)
    else if Reaches(BoardEdges(t, t.cards[a].board), b, a) then Failure(WouldCycle)
    else Success(t.deps + {(a, b)})
  }

  /** Edges never leave a board, so the check over one board's rows decides for the whole graph. */
  lemma BoardCheckSuffices(t: Table, a: nat, b: nat)
    requires Valid(t) && a in t.cards && b in t.cards && t.cards[a].board == t.cards[b].board
    ensures Reaches(BoardEdges(t, t.cards[a].board), b, a) <==> Reaches(t.deps, b, a)
  {
    var members := set c | c in t.cards && t.cards[c].board == t.cards[a].board;
    ReachesWithin(t.deps, members, b, a);
    assert BoardEdges(t, t.cards[a].board) == Leaving(t.deps, members);
  }

  /** A dependency between two cards of one board is refused exactly when it would close a cycle. */
  lemma AddDependencyRefusesCyclesOnly(t: Table, a: nat, b: nat)
    requires Valid(t) && a in t.cards && b in t.cards && t.cards[a].board == t.cards[b].board && a != b
    ensures AddDependency(t, a, b).Success? <==> Acyclic(t.deps + {(a, b)})
    ensures AddDependency(t, a, b).Success? ==> AddDependency(t, a, b).value == t.deps + {(a, b)}
  {
    BoardCheckSuffices(t, a, b);
    NewEdgeAcyclicIff(t.deps, a, b);
    if (a, b) in t.deps { assert t.deps + {(a, b)} == t.deps; }
  }

  // ---- the lifecycle ----

  /** The leftmost of some columns of a board. */
  ghost predicate IsLeftmost(columns: map<nat, Column>, ids: set<nat>, c: nat) {
    && c in ids && c in columns
    && (forall d :: d in ids && d in columns && d != c ==> Less(columns[c].rank, columns[d].rank))
  }

  function ColumnsOf(columns: map<nat, Column>, board: nat): set<nat> {
    set c | c in columns && columns[c].board == board
  }

  function DoneOf(columns: map<nat, Column>, board: nat): set<nat> {
    set c | c in columns && columns[c].board == board && columns[c].done
  }

  function LandingOf(columns: map<nat, Column>, board: nat): set<nat> {
    set c | c in columns && columns[c].board == board && columns[c].landing
  }

  lemma LeftmostExists(columns: map<nat, Column>, board: nat, ids: set<nat>)
    requires ColumnsRanked(columns) && ids <= ColumnsOf(columns, board) && ids != {}
    ensures exists c :: IsLeftmost(columns, ids, c)
  {
    var ranks := map c | c in ids :: columns[c].rank;
    assert ranks.Keys == ids;
    LeastExists(ranks);
    var c :| IsLeast(ranks, c);
    assert IsLeftmost(columns, ids, c);
  }

  ghost function Leftmost(columns: map<nat, Column>, board: nat, ids: set<nat>): (r: Option<nat>)
    requires ColumnsRanked(columns) && ids <= ColumnsOf(columns, board)
    ensures r.None? <==> ids == {}
    ensures r.Some? ==> IsLeftmost(columns, ids, r.value)
  {
    if ids == {} then None
    else
      LeftmostExists(columns, board, ids);
      var c :| IsLeftmost(columns, ids, c);
      Some(c)
  }

  lemma LeftmostIs(columns: map<nat, Column>, board: nat, ids: set<nat>, c: nat)
    requires ColumnsRanked(columns) && ids <= ColumnsOf(columns, board) && IsLeftmost(columns, ids, c)
    ensures Leftmost(columns, board, ids) == Some(c)
  {
    var d := Leftmost(columns, board, ids).value;
    if c != d { LessAsymmetric(columns[c].rank, columns[d].rank); }
  }

  /** The leftmost done column of a board. */
  ghost function FirstDone(t: Table, board: nat): (r: Option<nat>)
    requires Valid(t)
    ensures r.Some? ==> r.value in DoneOf(t.columns, board)
    ensures r.None? ==> forall c :: c in t.columns && t.columns[c].board == board ==> !t.columns[c].done
  {
    assert forall c :: c in t.columns && t.columns[c].board == board && t.columns[c].done ==> c in DoneOf(t.columns, board);
    Leftmost(t.columns, board, DoneOf(t.columns, board))
  }

  // ---- where a new card lands ----

  datatype CreateError = NoSuchColumn | NoColumns

  /** The column asked for, which must be on the board; without one the leftmost landing column,
      and on a board that has none the leftmost column. */
  ghost function Landing(t: Table, board: nat, column: Option<nat>): (r: Result<nat, CreateError>)
    requires Valid(t)
    ensures r.Success? ==> r.value in ColumnsOf(t.columns, board)
    ensures r.Failure? <==> if column.Some? then column.value !in ColumnsOf(t.columns, board) else ColumnsOf(t.columns, board) == {}
  {
    if column.Some? then
      if column.value in ColumnsOf(t.columns, board) then Success(column.value) else Failure(NoSuchColumn)
    else
      match Leftmost(t.columns, board, LandingOf(t.columns, board))
      case Some(c) => Success(c)
      case None =>
        match Leftmost(t.columns, board, ColumnsOf(t.columns, board))
        case Some(c) => Success(c)
        case None => Failure(NoColumns)
  }

  datatype Completion = Skipped | Done | Failed(error: MoveError)

  /** Completing the card of an event: nothing when it is already done, has no done column to go
      to, or is blocked; otherwise a move to the end of the first done column. */
  ghost function Complete(t: Table, id: nat): (Completion, Cards)
    requires Valid(t) && id in t.cards
  {
    if IsDone(t, id) then (Skipped, t.cards)
    else match FirstDone(t, t.cards[id].board)
         case None => (Skipped, t.cards)
         case Some(done) =>
           if Blocked(t, id) then (Skipped, t.cards)
           else match Move(t, Request(id, done, None, None), t.cards[id].version)
                case (Moved, final) => (Done, final)
                case (Refused(e), final) => (Failed(e), final)
  }

  // ---- one step ----

  /** An edit of a column: a limit of 0 clears the limit, and the landing flag can only be set. */
  datatype ColumnChange = ColumnChange(wip: Option<nat>, landing: bool, done: Option<bool>)

  datatype Op =
    | Create(id: nat, on: nat, column: Option<nat>, text: string, origin: Option<(string, nat)>)
    | MoveCard(q: Request, expected: nat)
    | Edit(card: nat, newText: string, expectedVersion: Option<nat>)
    | Delete(victim: nat)
    | AddDep(waiting: nat, needed: nat)
    | RemoveDep(waiter: nat, need: nat)
    | CompleteEvent(event: nat)
    | AddColumn(newColumn: nat, board: nat, limit: Option<nat>)
    | SetColumn(target: nat, change: ColumnChange)
    | DeleteColumn(gone: nat)

  ghost function Appended(cards: Cards, column: nat): Rank
    requires Sound(cards)
  {
    Between(LastRank(cards, column), [])
  }

  ghost function ColumnRanksOf(t: Table, board: nat): map<nat, Rank> {
    map c | c in t.columns && t.columns[c].board == board :: t.columns[c].rank
  }

  ghost function LastColumnRank(t: Table, board: nat): (r: Rank)
    requires Valid(t)
    ensures r == [] || WellFormed(r)
    ensures forall c :: c in t.columns && t.columns[c].board == board ==>
              t.columns[c].rank == r || Less(t.columns[c].rank, r)
  {
    var ranks := ColumnRanksOf(t, board);
    if ranks.Keys == {} then
      assert forall c :: c in t.columns && t.columns[c].board == board ==> c in ranks;
      []
    else
      LeastExists(ranks);
      var m :| IsGreatest(ranks, m);
      assert forall c :: c in t.columns && t.columns[c].board == board ==> c in ranks;
      ranks[m]
  }

  ghost predicate HasDependencyRows(t: Table, id: nat) {
    exists a, b :: (a, b) in t.deps && (a == id || b == id)
  }

  // What each call leaves; a refused call leaves what the service leaves.

  ghost function Created(t: Table, id: nat, board: nat, column: Option<nat>, text: string, origin: Option<(string, nat)>): Table
    requires Valid(t)
  {
    if id in t.cards || Landing(t, board, column).Failure? then t
    else
      var c := Landing(t, board, column).value;
      t.(cards := t.cards[id := Card(board, c, Appended(t.cards, c), 1, text, origin)])
  }

  function Edited(t: Table, id: nat, text: string, expected: Option<nat>): Table {
    if id !in t.cards || (expected.Some? && t.cards[id].version != expected.value) then t
    else t.(cards := t.cards[id := t.cards[id].(text := text, version := t.cards[id].version + 1)])
  }

  ghost function Deleted(t: Table, id: nat): Table {
    if id !in t.cards || HasDependencyRows(t, id) then t else t.(cards := t.cards - {id})
  }

  ghost function DependencyAdded(t: Table, a: nat, b: nat): Table {
    match AddDependency(t, a, b)
    case Success(deps) => t.(deps := deps)
    case Failure(_) => t
  }

  function DependencyRemoved(t: Table, a: nat, b: nat): Table {
    if a !in t.cards then t else t.(deps := t.deps - {(a, b)})
  }

  ghost function ColumnAdded(t: Table, c: nat, board: nat, wip: Option<nat>): Table
    requires Valid(t)
  {
    if c in t.columns then t
    else t.(columns := t.columns[c := Column(board, Between(LastColumnRank(t, board), []), wip, false, false)])
  }

  function Changed(column: Column, change: ColumnChange): Column {
    column.(wip := if change.wip == None then column.wip else if change.wip.value == 0 then None else change.wip,
            landing := change.landing || column.landing,
            done := if change.done == None then column.done else change.done.value)
  }

  /** Setting the landing flag of a column clears it on the rest of its board. */
  function ColumnSet(t: Table, c: nat, change: ColumnChange): Table {
    if c !in t.columns then t
    else t.(columns := map d | d in t.columns ::
                         if d == c then Changed(t.columns[c], change)
                         else if change.landing && t.columns[d].board == t.columns[c].board then t.columns[d].(landing := false)
                         else t.columns[d])
  }

  /** Only an empty column that is not the landing column can go. */
  function ColumnDeleted(t: Table, c: nat): Table {
    if c !in t.columns || InColumn(t.cards, c) != {} || t.columns[c].landing then t else t.(columns := t.columns - {c})
  }

  ghost function MoveCalled(t: Table, q: Request, expected: nat): Table
    requires Valid(t)
  {
    if q.id !in t.cards then t else t.(cards := Move(t, q, expected).1)
  }

  ghost function CompletionCalled(t: Table, id: nat): Table
    requires Valid(t)
  {
    if id !in t.cards then t else t.(cards := Complete(t, id).1)
  }

  ghost function Step(t: Table, op: Op): Table
    requires Valid(t)
  {
    match op
    case Create(id, board, column, text, origin) => Created(t, id, board, column, text, origin)
    case MoveCard(q, expected) => MoveCalled(t, q, expected)
    case Edit(id, text, expected) => Edited(t, id, text, expected)
    case Delete(id) => Deleted(t, id)
    case AddDep(a, b) => DependencyAdded(t, a, b)
    case RemoveDep(a, b) => DependencyRemoved(t, a, b)
    case CompleteEvent(id) => CompletionCalled(t, id)
    case AddColumn(c, board, wip) => ColumnAdded(t, c, board, wip)
    case SetColumn(c, change) => ColumnSet(t, c, change)
    case DeleteColumn(c) => ColumnDeleted(t, c)
  }

  /** One card at most has changed column. */
  ghost predicate Relocated(cards: Cards, final: Cards, id: nat, dest: nat) {
    && final.Keys == cards.Keys && Sound(final)
    && (forall a :: a in cards ==>
          final[a].board == cards[a].board && final[a].origin == cards[a].origin &&
          final[a].version >= cards[a].version &&
          final[a].column == if a == id then dest else cards[a].column)
  }

  lemma MovePlaces(t: Table, q: Request, expected: nat) returns (dest: nat)
    requires Valid(t) && q.id in t.cards
    ensures Relocated(t.cards, Move(t, q, expected).1, q.id, dest)
    ensures dest == if Move(t, q, expected).0.Moved? then q.dest else t.cards[q.id].column
    ensures dest in t.columns && t.columns[dest].board == t.cards[q.id].board
    ensures Move(t, q, expected).0.Moved? && t.columns[dest].done ==> !Blocked(t, q.id)
    ensures Move(t, q, expected).0.Moved? ==> Move(t, q, expected).1[q.id].version > expected
  {
    MoveKeepsTheRest(t, q, expected, q.dest, []);
    var spread, r := MoveShape(t, q, expected);
    dest := if Move(t, q, expected).0.Moved? then q.dest else t.cards[q.id].column;
  }

  lemma RelocationKeepsValid(t: Table, final: Cards, id: nat, dest: nat)
    requires Valid(t) && id in t.cards && Relocated(t.cards, final, id, dest)
    requires dest in t.columns && t.columns[dest].board == t.cards[id].board
    ensures Valid(t.(cards := final))
  {}

  lemma MoveKeepsValid(t: Table, q: Request, expected: nat)
    requires Valid(t) && q.id in t.cards
    ensures Valid(t.(cards := Move(t, q, expected).1))
  {
    var dest := MovePlaces(t, q, expected);
    RelocationKeepsValid(t, Move(t, q, expected).1, q.id, dest);
  }

  lemma CompletePlaces(t: Table, id: nat) returns (dest: nat)
    requires Valid(t) && id in t.cards
    ensures Relocated(t.cards, Complete(t, id).1, id, dest)
    ensures dest in t.columns && t.columns[dest].board == t.cards[id].board
    ensures dest == t.cards[id].column || (!IsDone(t, id) && t.columns[dest].done && !Blocked(t, id))
    ensures Complete(t, id).0 == Done ==> t.columns[dest].done
  {
    dest := t.cards[id].column;
    if !IsDone(t, id) && FirstDone(t, t.cards[id].board).Some? && !Blocked(t, id) {
      var done := FirstDone(t, t.cards[id].board).value;
      dest := MovePlaces(t, Request(id, done, None, None), t.cards[id].version);
    }
  }

  /** An appended card takes a rank above every other of its column. */
  lemma AppendIsSound(cards: Cards, id: nat, card: Card)
    requires Sound(cards) && id !in cards && card.rank == Appended(cards, card.column)
    ensures Sound(cards[id := card])
    ensures forall a :: a in cards && cards[a].column == card.column ==> Less(cards[a].rank, card.rank)
  {
    var last := LastRank(cards, card.column);
    LastRankIsStored(cards, card.column);
    BetweenIsBetween(last, []);
    forall a | a in cards && cards[a].column == card.column
      ensures Less(cards[a].rank, card.rank) && cards[a].rank != card.rank
    {
      assert a in InColumn(cards, card.column);
      if cards[a].rank != last { LessTransitive(cards[a].rank, last, card.rank); }
      LessAsymmetric(cards[a].rank, card.rank);
    }
  }

  lemma LastRankIsStored(cards: Cards, column: nat)
    requires Sound(cards)
    ensures LastRank(cards, column) == [] || WellFormed(LastRank(cards, column))
  {}

  lemma AddColumnKeepsValid(t: Table, c: nat, board: nat, wip: Option<nat>)
    requires Valid(t)
    ensures Valid(ColumnAdded(t, c, board, wip))
  {
    var last := LastColumnRank(t, board);
    BetweenIsBetween(last, []);
    forall d | d in t.columns && t.columns[d].board == board ensures t.columns[d].rank != Above(last) {
      if t.columns[d].rank != last { LessTransitive(t.columns[d].rank, last, Above(last)); }
      LessAsymmetric(t.columns[d].rank, Above(last));
    }
  }

  lemma CompleteKeepsValid(t: Table, id: nat)
    requires Valid(t) && id in t.cards
    ensures Valid(t.(cards := Complete(t, id).1))
  {
    var dest := CompletePlaces(t, id);
    RelocationKeepsValid(t, Complete(t, id).1, id, dest);
  }

  lemma NewCardKeepsPlaces(t: Table, id: nat, card: Card)
    requires Placed(t.columns, t.cards) && DepsOnBoards(t.cards, t.deps) && id !in t.cards
    requires card.column in t.columns && t.columns[card.column].board == card.board
    ensures Placed(t.columns, t.cards[id := card]) && DepsOnBoards(t.cards[id := card], t.deps)
  {}

  lemma CreateKeepsValid(t: Table, id: nat, board: nat, column: Option<nat>, text: string, origin: Option<(string, nat)>)
    requires Valid(t)
    ensures Valid(Created(t, id, board, column, text, origin))
  {
    if id !in t.cards && Landing(t, board, column).Success? {
      var c := Landing(t, board, column).value;
      var card := Card(board, c, Appended(t.cards, c), 1, text, origin);
      AppendIsSound(t.cards, id, card);
      NewCardKeepsPlaces(t, id, card);
    }
  }

  /** The same cards but for their text and version. */
  lemma EditedCardsKeepPlaces(t: Table, cards: Cards)
    requires Valid(t) && cards.Keys == t.cards.Keys
    requires forall a :: a in cards ==> cards[a] == t.cards[a].(text := cards[a].text, version := cards[a].version)
    ensures Sound(cards) && Placed(t.columns, cards) && DepsOnBoards(cards, t.deps)
  {}

  lemma EditKeepsValid(t: Table, id: nat, text: string, expected: Option<nat>)
    requires Valid(t)
    ensures Valid(Edited(t, id, text, expected))
  {
    EditedCardsKeepPlaces(t, Edited(t, id, text, expected).cards);
  }

  lemma FewerCardsSound(cards: Cards, columns: map<nat, Column>, id: nat)
    requires Sound(cards) && Placed(columns, cards)
    ensures Sound(cards - {id}) && Placed(columns, cards - {id})
  {}

  lemma FewerCardsDeps(t: Table, id: nat)
    requires DepsOnBoards(t.cards, t.deps) && !HasDependencyRows(t, id)
    ensures DepsOnBoards(t.cards - {id}, t.deps)
  {
    assert forall a, b :: (a, b) in t.deps ==> a != id && b != id;
  }

  lemma DeleteKeepsValid(t: Table, id: nat)
    requires Valid(t)
    ensures Valid(Deleted(t, id))
  {
    if !HasDependencyRows(t, id) {
      FewerCardsDeps(t, id);
      FewerCardsSound(t.cards, t.columns, id);
    }
  }

  lemma AddDependencyKeepsValid(t: Table, a: nat, b: nat)
    requires Valid(t)
    ensures Valid(DependencyAdded(t, a, b))
  {
    if AddDependency(t, a, b).Success? && (a, b) !in t.deps { AddDependencyRefusesCyclesOnly(t, a, b); }
  }

  lemma RemoveDependencyKeepsValid(t: Table, a: nat, b: nat)
    requires Valid(t)
    ensures Valid(DependencyRemoved(t, a, b))
  {
    FewerEdgesAcyclic(t.deps - {(a, b)}, t.deps);
  }

  lemma DeleteColumnKeepsValid(t: Table, c: nat)
    requires Valid(t)
    ensures Valid(ColumnDeleted(t, c))
  {
    assert forall a :: a in t.cards && t.cards[a].column == c ==> a in InColumn(t.cards, c);
  }

  /** Columns that keep their ranks and boards keep a table valid. */
  lemma SameColumnsKeepValid(t: Table, after: Table)
    requires Valid(t) && after.cards == t.cards && after.deps == t.deps && after.columns.Keys == t.columns.Keys
    requires forall c :: c in t.columns ==>
               after.columns[c].rank == t.columns[c].rank && after.columns[c].board == t.columns[c].board
    ensures Valid(after)
  {}

  lemma SetColumnKeepsValid(t: Table, c: nat, change: ColumnChange)
    requires Valid(t)
    ensures Valid(ColumnSet(t, c, change))
  {
    SameColumnsKeepValid(t, ColumnSet(t, c, change));
  }

  /** Every call keeps ranks stored and distinct per column, cards on their board, dependencies
      inside one board and without cycles. */
  lemma StepKeepsValid(t: Table, op: Op)
    requires Valid(t)
    ensures Valid(Step(t, op))
  {
    match op
    case Create(id, board, column, text, origin) => CreateKeepsValid(t, id, board, column, text, origin);
    case MoveCard(q, expected) => if q.id in t.cards { MoveKeepsValid(t, q, expected); }
    case Edit(id, text, expected) => EditKeepsValid(t, id, text, expected);
    case Delete(id) => DeleteKeepsValid(t, id);
    case AddDep(a, b) => AddDependencyKeepsValid(t, a, b);
    case RemoveDep(a, b) => RemoveDependencyKeepsValid(t, a, b);
    case CompleteEvent(id) => if id in t.cards { CompleteKeepsValid(t, id); }
    case AddColumn(c, board, wip) => AddColumnKeepsValid(t, c, board, wip);
    case SetColumn(c, change) => SetColumnKeepsValid(t, c, change);
    case DeleteColumn(c) => DeleteColumnKeepsValid(t, c);
  }

  ghost function Run(t: Table, ops: seq<Op>): Table
    requires Valid(t)
    ensures Valid(Run(t, ops))
    decreases |ops|
  {
    if ops == [] then t
    else
      StepKeepsValid(t, ops[0]);
      Run(Step(t, ops[0]), ops[1..])
  }

  lemma ReachesOnBoard(t: Table, a: nat, b: nat)
    requires Valid(t) && a in t.cards && Reaches(t.deps, a, b)
    ensures b in t.cards && t.cards[b].board == t.cards[a].board
  {
    var members := set c | c in t.cards && t.cards[c].board == t.cards[a].board;
    ReachesInClosedSet(t.deps, members, a, b);
  }

  lemma SomeCardIsReady(t: Table, stuck: nat) returns (id: nat)
    requires Valid(t) && stuck in t.cards && !IsDone(t, stuck)
    ensures id in t.cards && t.cards[id].board == t.cards[stuck].board && Reaches(t.deps, stuck, id)
    ensures !IsDone(t, id) && !Blocked(t, id)
  {
    var undone := set c | c in t.cards && !IsDone(t, c);
    assert IsPath(t.deps, [stuck]) && stuck in undone;
    id := SomeMemberWaitsForNone(t.deps, undone, [stuck]);
    assert forall dep :: dep in t.cards && !IsDone(t, dep) ==> dep in undone;
    ReachesOnBoard(t, stuck, id);
  }

  /** On every reachable board no card that is not done is stuck: it, or a card of its board it waits
      for through other cards, is not done and not blocked. */
  lemma NeverDeadlocks(t: Table, ops: seq<Op>, stuck: nat)
    requires Valid(t)
    requires stuck in Run(t, ops).cards && !IsDone(Run(t, ops), stuck)
    ensures exists id :: id in Run(t, ops).cards && Run(t, ops).cards[id].board == Run(t, ops).cards[stuck].board &&
                         Reaches(Run(t, ops).deps, stuck, id) && !IsDone(Run(t, ops), id) && !Blocked(Run(t, ops), id)
  {
    var id := SomeCardIsReady(Run(t, ops), stuck);
  }

  // ---- the done set ----

  /** Whatever a done card waits for is done. */
  ghost predicate DoneClosed(t: Table) {
    forall a, b :: (a, b) in t.deps && a in t.cards && b in t.cards && IsDone(t, a) ==> IsDone(t, b)
  }

  /** Closure under single rows is closure under chains of them. */
  lemma DoneChains(t: Table, a: nat, b: nat)
    requires Valid(t) && DoneClosed(t) && a in t.cards && IsDone(t, a) && Reaches(t.deps, a, b)
    ensures b in t.cards && IsDone(t, b)
  {
    var finished := set c | c in t.cards && IsDone(t, c);
    ReachesInClosedSet(t.deps, finished, a, b);
  }

  /** Only one card may have changed its done flag. */
  lemma OneFlagDecides(t: Table, after: Table, id: nat)
    requires DoneClosed(t) && DepsOnBoards(t.cards, t.deps) && id in t.cards && (id, id) !in t.deps
    requires after.deps == t.deps && after.cards.Keys == t.cards.Keys
    requires forall a :: a in t.cards && a != id ==> IsDone(after, a) == IsDone(t, a)
    requires IsDone(after, id) ==> !Blocked(t, id)
    ensures DoneClosed(after) <==> IsDone(after, id) || forall a :: (a, id) in t.deps ==> !IsDone(t, a)
  {}

  lemma NoSelfDependency(t: Table, id: nat)
    requires Acyclic(t.deps)
    ensures (id, id) !in t.deps
  {
    ReachesItself(t.deps, id);
  }

  lemma RelocationKeepsDoneClosedIff(t: Table, final: Cards, id: nat, dest: nat)
    requires Valid(t) && DoneClosed(t) && id in t.cards && Relocated(t.cards, final, id, dest) && dest in t.columns
    requires t.columns[dest].done ==> !Blocked(t, id)
    ensures DoneClosed(t.(cards := final)) <==>
            t.columns[dest].done || forall a :: (a, id) in t.deps ==> !IsDone(t, a)
  {
    NoSelfDependency(t, id);
    OneFlagDecides(t, t.(cards := final), id);
  }

  /** A successful move keeps the done set closed exactly when it goes to a done column or takes
      away a card no done card waits for: the gate looks one way only. */
  lemma MoveKeepsDoneClosedIff(t: Table, q: Request, expected: nat)
    requires Valid(t) && DoneClosed(t) && q.id in t.cards && Move(t, q, expected).0.Moved?
    ensures q.dest in t.columns
    ensures DoneClosed(t.(cards := Move(t, q, expected).1)) <==>
            t.columns[q.dest].done || forall a :: (a, q.id) in t.deps ==> !IsDone(t, a)
  {
    var dest := MovePlaces(t, q, expected);
    RelocationKeepsDoneClosedIff(t, Move(t, q, expected).1, q.id, dest);
  }

  /** Calls that never undo work: they leave the done columns as they are, take no card out of
      one, delete nothing, and add dependencies to unfinished cards only. */
  ghost predicate Forward(t: Table, op: Op)
    requires Valid(t)
  {
    match op
    case MoveCard(q, _) => q.id in t.cards && IsDone(t, q.id) && q.dest in t.columns ==> t.columns[q.dest].done
    case AddDep(a, _) => a in t.cards ==> !IsDone(t, a)
    case SetColumn(c, change) => c in t.columns && change.done.Some? ==> t.columns[c].done == change.done.value
    case Delete(_) => false
    case _ => true
  }

  lemma StayingKeepsDoneClosed(t: Table, final: Cards, id: nat)
    requires Valid(t) && DoneClosed(t) && id in t.cards && Relocated(t.cards, final, id, t.cards[id].column)
    ensures DoneClosed(t.(cards := final))
  {
    var after := t.(cards := final);
    forall a | a in t.cards ensures IsDone(after, a) == IsDone(t, a) {}
    SameDoneFlags(t, after);
  }

  lemma MoveOnwardsKeepsDoneClosed(t: Table, q: Request, expected: nat)
    requires Valid(t) && DoneClosed(t) && q.id in t.cards
    requires IsDone(t, q.id) && q.dest in t.columns ==> t.columns[q.dest].done
    ensures DoneClosed(t.(cards := Move(t, q, expected).1))
  {
    var dest := MovePlaces(t, q, expected);
    if Move(t, q, expected).0.Moved? {
      RelocationKeepsDoneClosedIff(t, Move(t, q, expected).1, q.id, dest);
    } else {
      StayingKeepsDoneClosed(t, Move(t, q, expected).1, q.id);
    }
  }

  lemma CompleteKeepsDoneClosed(t: Table, id: nat)
    requires Valid(t) && DoneClosed(t) && id in t.cards
    ensures DoneClosed(t.(cards := Complete(t, id).1))
  {
    var dest := CompletePlaces(t, id);
    if dest == t.cards[id].column {
      StayingKeepsDoneClosed(t, Complete(t, id).1, id);
    } else {
      RelocationKeepsDoneClosedIff(t, Complete(t, id).1, id, dest);
    }
  }

  /** Rows other than moves: no card that stays changes its done flag, and new rows start at unfinished cards. */
  lemma SameDoneFlags(t: Table, after: Table)
    requires DoneClosed(t)
    requires forall a :: a in t.cards && a in after.cards ==> IsDone(after, a) == IsDone(t, a)
    requires forall a, b :: (a, b) in after.deps ==> a in t.cards && b in t.cards
    requires forall a, b :: (a, b) in after.deps && (a, b) !in t.deps ==> !IsDone(t, a)
    ensures DoneClosed(after)
  {}

  lemma CreateKeepsDoneClosed(t: Table, id: nat, board: nat, column: Option<nat>, text: string, origin: Option<(string, nat)>)
    requires Valid(t) && DoneClosed(t)
    ensures DoneClosed(Created(t, id, board, column, text, origin))
  {
    SameDoneFlags(t, Created(t, id, board, column, text, origin));
  }

  lemma EditKeepsDoneClosed(t: Table, id: nat, text: string, expected: Option<nat>)
    requires Valid(t) && DoneClosed(t)
    ensures DoneClosed(Edited(t, id, text, expected))
  {
    SameDoneFlags(t, Edited(t, id, text, expected));
  }

  /** A new dependency of an unfinished card keeps the done set closed. */
  lemma NewDependencyKeepsDoneClosed(t: Table, a: nat, b: nat)
    requires Valid(t) && DoneClosed(t) && (a in t.cards ==> !IsDone(t, a))
    ensures DoneClosed(DependencyAdded(t, a, b))
  {
    OneRowAdded(t, a, b);
    SameDoneFlags(t, DependencyAdded(t, a, b));
  }

  lemma OneRowAdded(t: Table, a: nat, b: nat)
    ensures var after := DependencyAdded(t, a, b);
            && after.cards == t.cards && after.columns == t.columns && t.deps <= after.deps <= t.deps + {(a, b)}
            && (after.deps != t.deps ==> a in t.cards && b in t.cards)
  {}

  lemma RemovalKeepsDoneClosed(t: Table, a: nat, b: nat)
    requires DoneClosed(t)
    ensures DoneClosed(DependencyRemoved(t, a, b))
  {}

  lemma NewColumnKeepsDoneClosed(t: Table, c: nat, board: nat, wip: Option<nat>)
    requires Valid(t) && DoneClosed(t)
    ensures DoneClosed(ColumnAdded(t, c, board, wip))
  {
    SameDoneFlags(t, ColumnAdded(t, c, board, wip));
  }

  lemma LostColumnKeepsDoneClosed(t: Table, c: nat)
    requires Valid(t) && DoneClosed(t)
    ensures DoneClosed(ColumnDeleted(t, c))
  {
    assert forall a :: a in t.cards && t.cards[a].column == c ==> a in InColumn(t.cards, c);
    SameDoneFlags(t, ColumnDeleted(t, c));
  }

  lemma ColumnChangeKeepsDoneClosed(t: Table, c: nat, change: ColumnChange)
    requires Valid(t) && DoneClosed(t) && (c in t.columns && change.done.Some? ==> t.columns[c].done == change.done.value)
    ensures DoneClosed(ColumnSet(t, c, change))
  {
    SameDoneFlags(t, ColumnSet(t, c, change));
  }

  lemma ForwardStepKeepsDoneClosed(t: Table, op: Op)
    requires Valid(t) && DoneClosed(t) && Forward(t, op)
    ensures DoneClosed(Step(t, op))
  {
    match op
    case Create(id, board, column, text, origin) => CreateKeepsDoneClosed(t, id, board, column, text, origin);
    case MoveCard(q, expected) => if q.id in t.cards { MoveOnwardsKeepsDoneClosed(t, q, expected); }
    case Edit(id, text, expected) => EditKeepsDoneClosed(t, id, text, expected);
    case Delete(_) =>
    case AddDep(a, b) => NewDependencyKeepsDoneClosed(t, a, b);
    case RemoveDep(a, b) => RemovalKeepsDoneClosed(t, a, b);
    case CompleteEvent(id) => if id in t.cards { CompleteKeepsDoneClosed(t, id); }
    case AddColumn(c, board, wip) => NewColumnKeepsDoneClosed(t, c, board, wip);
    case SetColumn(c, change) => ColumnChangeKeepsDoneClosed(t, c, change);
    case DeleteColumn(c) => LostColumnKeepsDoneClosed(t, c);
  }

  ghost predicate ForwardRun(t: Table, ops: seq<Op>)
    requires Valid(t)
    decreases |ops|
  {
    ops == [] || (Forward(t, ops[0]) && (StepKeepsValid(t, ops[0]); ForwardRun(Step(t, ops[0]), ops[1..])))
  }

  /** Over every forward run, moves and completions keep the done set closed under dependencies. */
  lemma {:induction false} ForwardRunKeepsDoneClosed(t: Table, ops: seq<Op>)
    requires Valid(t) && DoneClosed(t) && ForwardRun(t, ops)
    ensures DoneClosed(Run(t, ops))
    decreases |ops|
  {
    if ops != [] {
      StepKeepsValid(t, ops[0]);
      ForwardStepKeepsDoneClosed(t, ops[0]);
      ForwardRunKeepsDoneClosed(Step(t, ops[0]), ops[1..]);
    }
  }

  // ---- completing twice ----

  /** With no anchors only the gates and the limit can refuse a move. */
  lemma AppendingSucceedsIff(t: Table, q: Request, expected: nat)
    requires Valid(t) && q.id in t.cards && q.before == None && q.after == None
    ensures Move(t, q, expected).0.Moved? <==>
            Gate(t, q, expected) == None && !AtLimit(t.columns, t.cards, q.id, q.dest)
  {
    OrderExists(t.cards - {q.id}, q.dest);
    var rest :| IsOrder(t.cards - {q.id}, q.dest, rest);
    NeighbourMoveSucceeds(t, q, expected, rest, |rest|);
  }

  lemma AppendingOutcome(t: Table, q: Request)
    requires Valid(t) && q.id in t.cards && Gate(t, q, t.cards[q.id].version) == None
    requires q.before == None && q.after == None
    ensures Move(t, q, t.cards[q.id].version).0 in {Moved, Refused(WipFull)}
  {
    OrderExists(t.cards - {q.id}, q.dest);
    var rest :| IsOrder(t.cards - {q.id}, q.dest, rest);
    SlotTries(t.columns, t.cards, q, rest, |rest|);
    SlotTriesAfterRespread(t.columns, t.cards, q, rest, |rest|);
  }

  /** A completion ends in one of three ways, and only the limit of the done column can fail it. */
  lemma CompleteOutcome(t: Table, id: nat)
    requires Valid(t) && id in t.cards
    ensures Complete(t, id).0 in {Skipped, Done, Failed(WipFull)}
    ensures Complete(t, id).0 == Skipped ==> Complete(t, id).1 == t.cards
  {
    if !IsDone(t, id) && FirstDone(t, t.cards[id].board).Some? && !Blocked(t, id) {
      AppendingOutcome(t, Request(id, FirstDone(t, t.cards[id].board).value, None, None));
    }
  }

  lemma CompletedIsDone(t: Table, id: nat)
    requires Valid(t) && id in t.cards && Complete(t, id).0 == Done
    ensures Valid(t.(cards := Complete(t, id).1)) && id in Complete(t, id).1
    ensures IsDone(t.(cards := Complete(t, id).1), id)
  {
    CompleteKeepsValid(t, id);
    var dest := CompletePlaces(t, id);
  }

  /** The request a completion makes of the move core. */
  function ToDone(id: nat, done: nat): Request {
    Request(id, done, None, None)
  }

  /** The card is ready for its done column and only the limit keeps it out. */
  ghost predicate HeldByLimit(t: Table, id: nat)
    requires Valid(t) && id in t.cards
  {
    && !IsDone(t, id) && !Blocked(t, id) && FirstDone(t, t.cards[id].board).Some?
    && AtLimit(t.columns, t.cards, id, FirstDone(t, t.cards[id].board).value)
  }

  lemma AppendingTarget(cards: Cards, id: nat, done: nat)
    requires Sound(cards)
    ensures UniqueRanks(cards - {id})
    ensures Target(cards, ToDone(id, done)) ==
            Success((LastRank(cards - {id}, done), Above(LastRank(cards - {id}, done))))
  {
    assert BoundsFor(cards, ToDone(id, done)) == Success((LastRank(cards - {id}, done), []));
  }

  lemma AboveSpreadIs(n: nat)
    ensures Above(if n == 0 then [] else Spread(n - 1)) == Spread(n) && |Spread(n)| == n / 6 + 1
  {
    if n > 0 { AboveSpread(n - 1); } else { SpreadZero(); }
    SpreadWellFormed(n);
  }

  /** What a completion held by the limit does: it fails, re-spreading the done column when the
      rank it would have taken is too long. */
  lemma HeldCompletion(t: Table, id: nat)
    requires Valid(t) && id in t.cards && HeldByLimit(t, id)
    ensures var done := FirstDone(t, t.cards[id].board).value;
            Complete(t, id) == (Failed(WipFull),
                                if Overlong(t.cards, ToDone(id, done)) then Respread(t.cards, done) else t.cards)
  {
    var done := FirstDone(t, t.cards[id].board).value;
    AppendingTarget(t.cards, id, done);
    RefusedAtLimit(t, ToDone(id, done), t.cards[id].version);
  }

  lemma FailsOnlyWhenHeld(t: Table, id: nat)
    requires Valid(t) && id in t.cards
    ensures Complete(t, id).0 == Failed(WipFull) <==> HeldByLimit(t, id)
  {
    if HeldByLimit(t, id) {
      HeldCompletion(t, id);
    } else if !IsDone(t, id) && FirstDone(t, t.cards[id].board).Some? && !Blocked(t, id) {
      AppendingSucceedsIff(t, ToDone(id, FirstDone(t, t.cards[id].board).value), t.cards[id].version);
    }
  }

  lemma OrderWithoutStranger(cards: Cards, id: nat, col: nat, s: seq<nat>)
    requires id in cards && cards[id].column != col && IsOrder(cards, col, s)
    ensures IsOrder(cards - {id}, col, s)
  {}

  lemma OrderCounts(cards: Cards, col: nat, s: seq<nat>)
    requires IsOrder(cards, col, s)
    ensures |s| == |InColumn(cards, col)|
  {
    OrderHasNoDuplicates(cards, col, s);
    DistinctCardinality(s);
    assert Elements(s) == InColumn(cards, col);
  }

  lemma RespreadLast(cards: Cards, col: nat, s: seq<nat>, spread: Cards)
    requires Sound(cards) && IsOrder(cards, col, s) && s != [] && spread == Respread(cards, col)
    ensures spread[s[|s| - 1]].rank == Spread(|s| - 1)
  {
    PositionInOrder(cards, col, s, |s| - 1);
  }

  /** The last rank of a column that has just been re-spread. */
  lemma LastAfterRespread(cards: Cards, id: nat, done: nat, spread: Cards, s: seq<nat>)
    requires Sound(cards) && id in cards && cards[id].column != done && spread == Respread(cards, done)
    requires IsOrder(cards, done, s)
    ensures Sound(spread) && UniqueRanks(spread - {id})
    ensures LastRank(spread - {id}, done) == if s == [] then [] else Spread(|s| - 1)
  {
    RespreadKeepsLayout(cards, done);
    SameLayoutKeepsOrder(cards, spread, done, done, s);
    OrderWithoutStranger(spread, id, done, s);
    LastOfOrder(spread - {id}, done, s);
    if s != [] { RespreadLast(cards, done, s, spread); }
  }

  lemma NextAfterRespread(cards: Cards, id: nat, done: nat, spread: Cards)
    requires Sound(cards) && id in cards && cards[id].column != done && spread == Respread(cards, done)
    ensures Sound(spread) && UniqueRanks(spread - {id})
    ensures |Above(LastRank(spread - {id}, done))| == |InColumn(cards, done)| / 6 + 1
  {
    OrderExists(cards, done);
    var s :| IsOrder(cards, done, s);
    OrderCounts(cards, done, s);
    LastAfterRespread(cards, id, done, spread, s);
    AboveSpreadIs(|s|);
  }

  /** Appending to a column that has just been re-spread takes the next rank of the spread. */
  lemma AppendAfterRespread(cards: Cards, id: nat, done: nat, spread: Cards)
    requires Sound(cards) && id in cards && cards[id].column != done && spread == Respread(cards, done)
    ensures Sound(spread)
    ensures Overlong(spread, ToDone(id, done)) <==> |InColumn(cards, done)| >= 288
  {
    NextAfterRespread(cards, id, done, spread);
    AppendingTarget(spread, id, done);
  }

  lemma CompleteKeepsCards(t: Table, id: nat)
    requires Valid(t) && id in t.cards
    ensures Complete(t, id).1.Keys == t.cards.Keys
  {
    var dest := CompletePlaces(t, id);
  }

  /** The table after a completion. */
  ghost function Completed(t: Table, id: nat): (after: Table)
    requires Valid(t) && id in t.cards
    ensures Valid(after) && id in after.cards
  {
    CompleteKeepsValid(t, id);
    CompleteKeepsCards(t, id);
    t.(cards := Complete(t, id).1)
  }

  /** Ready and held the same in two tables that differ by a re-spread at most. */
  lemma HeldAlike(t: Table, after: Table, id: nat)
    requires Valid(t) && Valid(after) && id in t.cards && HeldByLimit(t, id)
    requires after.columns == t.columns && after.deps == t.deps && after.cards.Keys == t.cards.Keys
    requires forall a :: a in t.cards ==>
               after.cards[a].column == t.cards[a].column && after.cards[a].board == t.cards[a].board
    ensures HeldByLimit(after, id) && FirstDone(after, after.cards[id].board) == FirstDone(t, t.cards[id].board)
  {
    var done := FirstDone(t, t.cards[id].board).value;
    assert InColumn(after.cards, done) == InColumn(t.cards, done);
    assert forall a :: a in t.cards ==> IsDone(after, a) == IsDone(t, a);
  }

  lemma HeldStaysHeld(t: Table, id: nat)
    requires Valid(t) && id in t.cards && HeldByLimit(t, id)
    ensures HeldByLimit(Completed(t, id), id)
    ensures FirstDone(Completed(t, id), Completed(t, id).cards[id].board) == FirstDone(t, t.cards[id].board)
  {
    HeldCompletion(t, id);
    RespreadKeepsLayout(t.cards, FirstDone(t, t.cards[id].board).value);
    HeldAlike(t, Completed(t, id), id);
  }

  /** A completed event stays as it is when completed again, unless the limit holds the card: then the
      second call fails as the first did. It writes again exactly when the rank was too long
      and the done column holds so many cards that even freshly spread ranks are too long. */
  lemma CompleteTwice(t: Table, id: nat)
    requires Valid(t) && id in t.cards
    ensures Complete(Completed(t, id), id).0 == if HeldByLimit(t, id) then Failed(WipFull) else Skipped
    ensures Complete(Completed(t, id), id).1 == Completed(t, id).cards <==>
            !(HeldByLimit(t, id) && var done := FirstDone(t, t.cards[id].board).value;
              Overlong(t.cards, ToDone(id, done)) && |InColumn(t.cards, done)| >= 288)
  {
    var after := Completed(t, id);
    CompleteOutcome(t, id);
    FailsOnlyWhenHeld(t, id);
    if HeldByLimit(t, id) {
      HeldTwice(t, id);
    } else if Complete(t, id).0 == Skipped {
      assert after == t;
    } else {
      CompletedIsDone(t, id);
    }
  }

  lemma HeldTwice(t: Table, id: nat)
    requires Valid(t) && id in t.cards && HeldByLimit(t, id)
    ensures Complete(Completed(t, id), id).0 == Failed(WipFull)
    ensures var done := FirstDone(t, t.cards[id].board).value;
            Complete(Completed(t, id), id).1 == Completed(t, id).cards <==>
            !(Overlong(t.cards, ToDone(id, done)) && |InColumn(t.cards, done)| >= 288)
  {
    var done := FirstDone(t, t.cards[id].board).value;
    var after := Completed(t, id);
    HeldStaysHeld(t, id);
    HeldCompletion(t, id);
    HeldCompletion(after, id);
    if Overlong(t.cards, ToDone(id, done)) {
      AppendAfterRespread(t.cards, id, done, Respread(t.cards, done));
      RespreadsRewriteIff(after.cards, done);
      RespreadRewrites(t.cards, done);
    }
  }

  lemma MoveOnwardsKeepsDone(t: Table, q: Request, expected: nat, id: nat, after: Table)
    requires Valid(t) && q.id in t.cards && id in t.cards && IsDone(t, id) && after == MoveCalled(t, q, expected)
    requires IsDone(t, q.id) && q.dest in t.columns ==> t.columns[q.dest].done
    ensures id in after.cards && IsDone(after, id)
  {
    var dest := MovePlaces(t, q, expected);
  }

  lemma CompletionKeepsDone(t: Table, e: nat, id: nat, after: Table)
    requires Valid(t) && e in t.cards && id in t.cards && IsDone(t, id) && after == CompletionCalled(t, e)
    ensures id in after.cards && IsDone(after, id)
  {
    var dest := CompletePlaces(t, e);
  }

  lemma ColumnStepKeepsDone(t: Table, op: Op, id: nat)
    requires Valid(t) && Forward(t, op) && id in t.cards && IsDone(t, id)
    requires op.AddColumn? || op.SetColumn? || op.DeleteColumn?
    ensures id in Step(t, op).cards && IsDone(Step(t, op), id)
  {
    assert id in InColumn(t.cards, t.cards[id].column);
  }

  lemma ForwardStepKeepsDone(t: Table, op: Op, id: nat)
    requires Valid(t) && Forward(t, op) && id in t.cards && IsDone(t, id)
    ensures id in Step(t, op).cards && IsDone(Step(t, op), id)
  {
    match op
    case MoveCard(q, expected) => if q.id in t.cards { MoveOnwardsKeepsDone(t, q, expected, id, Step(t, op)); }
    case CompleteEvent(e) => if e in t.cards { CompletionKeepsDone(t, e, id, Step(t, op)); }
    case AddColumn(_, _, _) => ColumnStepKeepsDone(t, op, id);
    case SetColumn(_, _) => ColumnStepKeepsDone(t, op, id);
    case DeleteColumn(_) => ColumnStepKeepsDone(t, op, id);
    case _ =>
  }

  /** Over every forward run a done card stays done, so completing its event again is a no-op. */
  lemma {:induction false} DoneStaysDone(t: Table, ops: seq<Op>, id: nat)
    requires Valid(t) && ForwardRun(t, ops) && id in t.cards && IsDone(t, id)
    ensures id in Run(t, ops).cards && IsDone(Run(t, ops), id)
    ensures Complete(Run(t, ops), id) == (Skipped, Run(t, ops).cards)
    decreases |ops|
  {
    if ops != [] {
      StepKeepsValid(t, ops[0]);
      ForwardStepKeepsDone(t, ops[0], id);
      DoneStaysDone(Step(t, ops[0]), ops[1..], id);
    }
  }

  // ---- finishing a board ----

  ghost function Unfinished(t: Table, board: nat): set<nat> {
    set id | id in t.cards && t.cards[id].board == board && !IsDone(t, id)
  }

  lemma RelocationFinishes(t: Table, board: nat, done: nat, id: nat, final: Cards)
    requires id in Unfinished(t, board) && Relocated(t.cards, final, id, done)
    requires done in t.columns && t.columns[done].done
    ensures Unfinished(t.(cards := final), board) == Unfinished(t, board) - {id}
  {
    var after := t.(cards := final);
    forall a | a in t.cards && a != id ensures IsDone(after, a) == IsDone(t, a) {}
  }

  lemma FinishingMove(t: Table, board: nat, done: nat, id: nat, final: Cards)
    requires Valid(t) && done in t.columns && t.columns[done].board == board
    requires t.columns[done].done && t.columns[done].wip == None
    requires id in Unfinished(t, board) && !Blocked(t, id)
    requires final == Move(t, ToDone(id, done), t.cards[id].version).1
    ensures Relocated(t.cards, final, id, done)
  {
    var q := ToDone(id, done);
    AppendingSucceedsIff(t, q, t.cards[id].version);
    var dest := MovePlaces(t, q, t.cards[id].version);
  }

  lemma ReadyToFinish(t: Table, board: nat) returns (id: nat)
    requires Valid(t) && Unfinished(t, board) != {}
    ensures id in Unfinished(t, board) && !Blocked(t, id)
  {
    var stuck :| stuck in Unfinished(t, board);
    id := SomeCardIsReady(t, stuck);
  }

  /** Some move brings a board that is not finished one card nearer. */
  lemma NextFinishing(t: Table, board: nat, done: nat) returns (op: Op, after: Table)
    requires Valid(t) && done in t.columns && t.columns[done].board == board
    requires t.columns[done].done && t.columns[done].wip == None && Unfinished(t, board) != {}
    ensures op.MoveCard? && op.q.dest == done && after == Step(t, op) && Valid(after)
    ensures after.columns == t.columns && after.cards.Keys == t.cards.Keys
    ensures |Unfinished(after, board)| == |Unfinished(t, board)| - 1
  {
    var id := ReadyToFinish(t, board);
    var q := ToDone(id, done);
    var final := Move(t, q, t.cards[id].version).1;
    op, after := MoveCard(q, t.cards[id].version), t.(cards := final);
    FinishingMove(t, board, done, id, final);
    RelocationFinishes(t, board, done, id, final);
    RelocationKeepsValid(t, final, id, done);
  }

  lemma RunStarts(t: Table, op: Op, rest: seq<Op>)
    requires Valid(t)
    ensures Valid(Step(t, op)) && Run(t, [op] + rest) == Run(Step(t, op), rest)
  {
    StepKeepsValid(t, op);
    assert ([op] + rest)[1..] == rest;
  }

  /** A run of moves into a done column. */
  ghost predicate MovesOnly(ops: seq<Op>, done: nat) {
    forall i :: 0 <= i < |ops| ==> ops[i].MoveCard? && ops[i].q.dest == done
  }

  ghost predicate Finished(t: Table, after: Table, board: nat) {
    after.cards.Keys == t.cards.Keys && Unfinished(after, board) == {}
  }

  lemma FinishedLater(t: Table, op: Op, after: Table, rest: seq<Op>, board: nat)
    requires Valid(t) && after == Step(t, op) && Valid(after) && after.cards.Keys == t.cards.Keys
    requires Finished(after, Run(after, rest), board)
    ensures Finished(t, Run(t, [op] + rest), board)
  {
    RunStarts(t, op, rest);
  }

  lemma MovesOnlyMore(op: Op, rest: seq<Op>, done: nat)
    requires op.MoveCard? && op.q.dest == done && MovesOnly(rest, done)
    ensures MovesOnly([op] + rest, done)
  {}

  /** From every table a call can reach, moves alone can take every card of a board into a done
      column that has no limit: the gate never stands in the way of finishing the work. */
  lemma {:induction false} BoardCanBeFinished(t: Table, board: nat, done: nat) returns (ops: seq<Op>)
    requires Valid(t) && done in t.columns && t.columns[done].board == board
    requires t.columns[done].done && t.columns[done].wip == None
    ensures MovesOnly(ops, done) && |ops| == |Unfinished(t, board)|
    ensures Finished(t, Run(t, ops), board)
    decreases |Unfinished(t, board)|
  {
    if Unfinished(t, board) == {} {
      ops := [];
    } else {
      var op, after := NextFinishing(t, board, done);
      var rest := BoardCanBeFinished(after, board, done);
      ops := [op] + rest;
      MovesOnlyMore(op, rest, done);
      FinishedLater(t, op, after, rest, board);
    }
  }

  // ---- versions ----

  lemma MoveRaisesVersions(t: Table, q: Request, expected: nat, id: nat, after: Cards)
    requires Valid(t) && q.id in t.cards && id in t.cards && after == Move(t, q, expected).1
    ensures id in after && after[id].version >= t.cards[id].version
  {
    var dest := MovePlaces(t, q, expected);
  }

  lemma CompleteRaisesVersions(t: Table, e: nat, id: nat, after: Cards)
    requires Valid(t) && e in t.cards && id in t.cards && after == Complete(t, e).1
    ensures id in after && after[id].version >= t.cards[id].version
  {
    var dest := CompletePlaces(t, e);
  }

  lemma StepRaisesVersions(t: Table, op: Op, id: nat)
    requires Valid(t) && id in t.cards && op != Delete(id)
    ensures id in Step(t, op).cards && Step(t, op).cards[id].version >= t.cards[id].version
  {
    match op
    case MoveCard(q, expected) => if q.id in t.cards { MoveRaisesVersions(t, q, expected, id, Step(t, op).cards); }
    case CompleteEvent(e) => if e in t.cards { CompleteRaisesVersions(t, e, id, Step(t, op).cards); }
    case _ =>
  }

  lemma {:induction false} RunRaisesVersions(t: Table, ops: seq<Op>, id: nat)
    requires Valid(t) && id in t.cards && Delete(id) !in ops
    ensures id in Run(t, ops).cards && Run(t, ops).cards[id].version >= t.cards[id].version
    decreases |ops|
  {
    if ops != [] {
      StepKeepsValid(t, ops[0]);
      StepRaisesVersions(t, ops[0], id);
      RunRaisesVersions(Step(t, ops[0]), ops[1..], id);
    }
  }

  /** Of two moves that read the same version, however far apart and whatever happens between
      them, at most one succeeds, unless the card is deleted in between. */
  lemma NoLostUpdate(t: Table, q: Request, expected: nat, ops: seq<Op>, later: Request)
    requires Valid(t) && q.id in t.cards && later.id == q.id && Delete(q.id) !in ops
    requires Move(t, q, expected).0.Moved?
    ensures Valid(Step(t, MoveCard(q, expected)))
    ensures var now := Run(Step(t, MoveCard(q, expected)), ops);
            q.id in now.cards && Move(now, later, expected) == (Refused(StaleVersion), now.cards)
  {
    StepKeepsValid(t, MoveCard(q, expected));
    var dest := MovePlaces(t, q, expected);
    RunRaisesVersions(Step(t, MoveCard(q, expected)), ops, q.id);
  }

  // ---- leaving a done column ----

  /** Card 1 waits for card 2; both are done. */
  function Pair(): Table {
    Table(map[1 := Column(1, [31], None, true, false), 2 := Column(1, [46], None, false, true)],
          map[1 := Card(1, 1, [31], 1, "", None), 2 := Card(1, 1, [46], 1, "", None)],
          {(1, 2)})
  }

  lemma PairIsAcyclic()
    ensures Acyclic({(1, 2)})
  {
    var deps: Edges := {(1, 2)};
    if Reaches(deps, 2, 1) { ReachesInClosedSet(deps, {2}, 2, 1); }
  }

  lemma PairRanks()
    ensures WellFormed([31]) && WellFormed([46]) && [31] != [46]
  {
    assert [31][0] != [46][0];
  }

  lemma PairIsSound()
    ensures Sound(Pair().cards)
  {
    PairRanks();
  }

  lemma PairIsRanked()
    ensures ColumnsRanked(Pair().columns)
  {
    PairRanks();
  }

  lemma PairIsPlaced()
    ensures Placed(Pair().columns, Pair().cards) && DepsOnBoards(Pair().cards, Pair().deps) && DoneClosed(Pair())
  {
    assert forall a, b :: (a, b) in Pair().deps ==> a == 1 && b == 2;
  }

  lemma PairIsValid()
    ensures Valid(Pair()) && DoneClosed(Pair())
  {
    PairIsAcyclic();
    PairIsSound();
    PairIsRanked();
    PairIsPlaced();
  }

  /** Moving card 2 out of the done column succeeds and leaves card 1 done without its dependency. */
  lemma MoveCanOpenDoneSet()
    ensures Valid(Pair()) && DoneClosed(Pair())
    ensures Move(Pair(), Request(2, 2, None, None), 1).0.Moved?
    ensures !DoneClosed(Pair().(cards := Move(Pair(), Request(2, 2, None, None), 1).1))
  {
    var q := Request(2, 2, None, None);
    PairIsValid();
    assert Gate(Pair(), q, 1) == None;
    AppendingSucceedsIff(Pair(), q, 1);
    MoveKeepsDoneClosedIff(Pair(), q, 1);
    assert (1, 2) in Pair().deps && IsDone(Pair(), 1);
  }

  // ---- the landing column ----

  lemma ChangeKeepsLanding(t: Table, c: nat, change: ColumnChange, board: nat)
    requires |LandingOf(t.columns, board)| == 1
    ensures |LandingOf(ColumnSet(t, c, change).columns, board)| == 1
  {
    var after := LandingOf(ColumnSet(t, c, change).columns, board);
    if c in t.columns && t.columns[c].board == board && change.landing {
      assert after == {c};
    } else {
      assert after == LandingOf(t.columns, board);
    }
  }

  lemma ColumnsKeepLanding(t: Table, c: nat, on: nat, wip: Option<nat>, board: nat)
    requires Valid(t)
    ensures LandingOf(ColumnAdded(t, c, on, wip).columns, board) == LandingOf(t.columns, board)
    ensures LandingOf(ColumnDeleted(t, c).columns, board) == LandingOf(t.columns, board)
  {}

  lemma CardsKeepColumns(t: Table, op: Op)
    requires Valid(t) && !op.AddColumn? && !op.SetColumn? && !op.DeleteColumn?
    ensures Step(t, op).columns == t.columns
  {}

  lemma StepKeepsLanding(t: Table, op: Op, board: nat)
    requires Valid(t) && |LandingOf(t.columns, board)| == 1
    ensures |LandingOf(Step(t, op).columns, board)| == 1
  {
    match op
    case SetColumn(c, change) => ChangeKeepsLanding(t, c, change, board);
    case AddColumn(c, on, wip) => ColumnsKeepLanding(t, c, on, wip, board);
    case DeleteColumn(c) => ColumnsKeepLanding(t, c, board, None, board);
    case _ => CardsKeepColumns(t, op);
  }

  /** A board with one landing column has exactly one after every run. */
  lemma {:induction false} OneLandingColumn(t: Table, ops: seq<Op>, board: nat)
    requires Valid(t) && |LandingOf(t.columns, board)| == 1
    ensures |LandingOf(Run(t, ops).columns, board)| == 1
    decreases |ops|
  {
    if ops != [] {
      StepKeepsValid(t, ops[0]);
      StepKeepsLanding(t, ops[0], board);
      OneLandingColumn(Step(t, ops[0]), ops[1..], board);
    }
  }

  // ---- where cards land ----

  /** The column a card lands in, flag by flag: the one asked for if the board has it; otherwise the
      leftmost of those with the landing flag, and on a board without any the leftmost of all. */
  lemma LandingIs(t: Table, board: nat, column: Option<nat>, c: nat)
    requires Valid(t)
    ensures column.Some? ==> (Landing(t, board, column) == Success(c) <==>
              c == column.value && c in t.columns && t.columns[c].board == board)
    ensures column == None && (exists d :: d in t.columns && t.columns[d].board == board && t.columns[d].landing) ==>
              (Landing(t, board, column) == Success(c) <==>
               c in t.columns && t.columns[c].board == board && t.columns[c].landing &&
               forall d :: d in t.columns && d != c && t.columns[d].board == board && t.columns[d].landing ==>
                 Less(t.columns[c].rank, t.columns[d].rank))
    ensures column == None && (forall d :: d in t.columns && t.columns[d].board == board ==> !t.columns[d].landing) ==>
              (Landing(t, board, column) == Success(c) <==>
               c in t.columns && t.columns[c].board == board &&
               forall d :: d in t.columns && d != c && t.columns[d].board == board ==>
                 Less(t.columns[c].rank, t.columns[d].rank))
  {
    var landing := LandingOf(t.columns, board);
    assert forall d :: d in t.columns && t.columns[d].board == board && t.columns[d].landing ==> d in landing;
    if column == None {
      var ids := if landing == {} then ColumnsOf(t.columns, board) else landing;
      if IsLeftmost(t.columns, ids, c) { LeftmostIs(t.columns, board, ids, c); }
    }
  }

  /** A new card takes the last place of the column it lands in, whatever its limit, in version 1,
      and no other card notices. */
  lemma CreatedComesLast(t: Table, id: nat, board: nat, column: Option<nat>, text: string,
                         origin: Option<(string, nat)>, c: nat, s: seq<nat>, after: Table)
    requires Valid(t) && id !in t.cards && Landing(t, board, column) == Success(c) && IsOrder(t.cards, c, s)
    requires after == Step(t, Create(id, board, column, text, origin))
    ensures after.columns == t.columns && after.deps == t.deps && after.cards.Keys == t.cards.Keys + {id}
    ensures forall a :: a in t.cards ==> after.cards[a] == t.cards[a]
    ensures after.cards[id] == Card(board, c, after.cards[id].rank, 1, text, origin)
    ensures IsOrder(after.cards, c, s + [id])
  {
    CreatedIs(t, id, board, column, text, origin, c, after);
    AppendComesLast(t.cards, id, after.cards[id], s);
  }

  lemma AppendComesLast(cards: Cards, id: nat, card: Card, s: seq<nat>)
    requires Sound(cards) && id !in cards && card.rank == Appended(cards, card.column)
    requires IsOrder(cards, card.column, s)
    ensures IsOrder(cards[id := card], card.column, s + [id])
  {
    AppendIsSound(cards, id, card);
    NewComesLast(cards, id, card, s);
  }

  lemma CreatedIs(t: Table, id: nat, board: nat, column: Option<nat>, text: string, origin: Option<(string, nat)>,
                  c: nat, after: Table)
    requires Valid(t) && id !in t.cards && Landing(t, board, column) == Success(c)
    requires after == Step(t, Create(id, board, column, text, origin))
    ensures id in after.cards && after == t.(cards := t.cards[id := after.cards[id]])
    ensures after.cards[id] == Card(board, c, Appended(t.cards, c), 1, text, origin)
  {}

  lemma NewComesLast(cards: Cards, id: nat, card: Card, s: seq<nat>)
    requires id !in cards && IsOrder(cards, card.column, s)
    requires forall a :: a in cards && cards[a].column == card.column ==> Less(cards[a].rank, card.rank)
    ensures IsOrder(cards[id := card], card.column, s + [id])
  {
    var after := cards[id := card];
    forall j | j in after && after[j].column == card.column ensures j in s + [id] {
      assert j != id ==> j in s;
    }
  }

  /** Over every run of a board with one landing column, a card created without a column lands in
      the column that has the flag then. */
  lemma CardsLandThere(t: Table, ops: seq<Op>, id: nat, board: nat, text: string, origin: Option<(string, nat)>) returns (c: nat)
    requires Valid(t) && |LandingOf(t.columns, board)| == 1 && id !in Run(t, ops).cards
    ensures var now := Run(t, ops);
            && c in now.columns && now.columns[c].board == board && now.columns[c].landing
            && (forall d :: d in now.columns && now.columns[d].board == board && now.columns[d].landing ==> d == c)
            && id in Step(now, Create(id, board, None, text, origin)).cards
            && Step(now, Create(id, board, None, text, origin)).cards[id].column == c
  {
    OneLandingColumn(t, ops, board);
    var now := Run(t, ops);
    c := OnlyLanding(now, board);
    LandingIs(now, board, None, c);
    OrderExists(now.cards, c);
    var s :| IsOrder(now.cards, c, s);
    CreatedComesLast(now, id, board, None, text, origin, c, s, Step(now, Create(id, board, None, text, origin)));
  }

  lemma OnlyLanding(t: Table, board: nat) returns (c: nat)
    requires |LandingOf(t.columns, board)| == 1
    ensures c in t.columns && t.columns[c].board == board && t.columns[c].landing
    ensures forall d :: d in t.columns && t.columns[d].board == board && t.columns[d].landing ==> d == c
  {
    var ids := LandingOf(t.columns, board);
    c :| c in ids;
    forall d | d in ids ensures d == c {
      SubsetCardinality({c, d}, ids);
    }
    assert forall d :: d in t.columns && t.columns[d].board == board && t.columns[d].landing ==> d in ids;
  }

  // ---- columns ----

  /** What an edit of a column leaves: its limit set, cleared by 0 or kept, its done flag set or kept, and
      the landing flag on it alone if it was asked for; everything else stays. */
  lemma ColumnEditLeaves(t: Table, c: nat, change: ColumnChange, after: Table)
    requires Valid(t) && c in t.columns && after == Step(t, SetColumn(c, change))
    ensures after.cards == t.cards && after.deps == t.deps && after.columns.Keys == t.columns.Keys
    ensures after.columns[c].rank == t.columns[c].rank && after.columns[c].board == t.columns[c].board
    ensures after.columns[c].wip ==
              if change.wip == Some(0) then None else if change.wip.Some? then change.wip else t.columns[c].wip
    ensures after.columns[c].done <==> change.done == Some(true) || (change.done == None && t.columns[c].done)
    ensures change.landing ==> forall d :: d in t.columns && t.columns[d].board == t.columns[c].board ==>
                                 (after.columns[d].landing <==> d == c)
    ensures forall d :: d in t.columns && d != c && (!change.landing || t.columns[d].board != t.columns[c].board) ==>
              after.columns[d] == t.columns[d]
    ensures forall d :: d in t.columns && d != c ==> after.columns[d].(landing := false) == t.columns[d].(landing := false)
    ensures !change.landing ==> after.columns[c].landing == t.columns[c].landing
  {}

  /** A new column stands right of every other column of its board and has neither flag. */
  lemma NewColumnComesLast(t: Table, c: nat, board: nat, wip: Option<nat>, after: Table)
    requires Valid(t) && c !in t.columns && after == Step(t, AddColumn(c, board, wip))
    ensures c in after.columns && after.columns == t.columns[c := after.columns[c]]
    ensures after.cards == t.cards && after.deps == t.deps
    ensures after.columns[c] == Column(board, after.columns[c].rank, wip, false, false)
    ensures forall d :: d in t.columns && t.columns[d].board == board ==> Less(t.columns[d].rank, after.columns[c].rank)
  {
    var last := LastColumnRank(t, board);
    BetweenIsBetween(last, []);
    forall d | d in t.columns && t.columns[d].board == board ensures Less(t.columns[d].rank, after.columns[c].rank) {
      if t.columns[d].rank != last { LessTransitive(t.columns[d].rank, last, after.columns[c].rank); }
    }
  }

  /** A column goes exactly when no card stands in it and it is not the landing column. */
  lemma ColumnGoesIff(t: Table, c: nat, after: Table)
    requires Valid(t) && c in t.columns && after == Step(t, DeleteColumn(c))
    ensures c !in after.columns <==> !t.columns[c].landing && forall a :: a in t.cards ==> t.cards[a].column != c
    ensures after.cards == t.cards && after.deps == t.deps
    ensures forall d :: d in t.columns && d != c ==> d in after.columns && after.columns[d] == t.columns[d]
  {
    assert forall a :: a in InColumn(t.cards, c) <==> a in t.cards && t.cards[a].column == c;
  }

  // ---- completing a card that is ready ----

  lemma CompletionMoves(t: Table, id: nat, c: nat)
    requires Valid(t) && id in t.cards && !IsDone(t, id) && !Blocked(t, id)
    requires FirstDone(t, t.cards[id].board) == Some(c) && Move(t, ToDone(id, c), t.cards[id].version).0.Moved?
    ensures Complete(t, id) == (Done, Move(t, ToDone(id, c), t.cards[id].version).1)
  {}

  lemma MovedToTheEnd(t: Table, id: nat, c: nat, s: seq<nat>)
    requires Valid(t) && id in t.cards && t.cards[id].column != c && IsOrder(t.cards, c, s)
    requires c in t.columns && t.columns[c].board == t.cards[id].board && !Blocked(t, id)
    requires t.columns[c].wip == None || |InColumn(t.cards, c)| < t.columns[c].wip.value
    ensures Move(t, ToDone(id, c), t.cards[id].version).0.Moved?
    ensures IsOrder(Move(t, ToDone(id, c), t.cards[id].version).1, c, s + [id])
  {
    OrderWithoutStranger(t.cards, id, c, s);
    NeighbourMoveSucceeds(t, ToDone(id, c), t.cards[id].version, s, |s|);
    NeighbourMove(t, ToDone(id, c), t.cards[id].version, s, |s|);
    assert Inserted(s, |s|, id) == s + [id];
  }

  /** A card that is not done, whose dependencies are all done and whose board's leftmost done column
      has room, is moved there by a completion, to the last place. */
  lemma ReadyCardIsCompleted(t: Table, id: nat, c: nat, s: seq<nat>)
    requires Valid(t) && id in t.cards && !t.columns[t.cards[id].column].done
    requires c in t.columns && t.columns[c].board == t.cards[id].board && t.columns[c].done
    requires forall d :: d in t.columns && d != c && t.columns[d].board == t.cards[id].board && t.columns[d].done ==>
               Less(t.columns[c].rank, t.columns[d].rank)
    requires forall dep :: (id, dep) in t.deps ==> t.columns[t.cards[dep].column].done
    requires t.columns[c].wip == None || |InColumn(t.cards, c)| < t.columns[c].wip.value
    requires IsOrder(t.cards, c, s)
    ensures Complete(t, id).0 == Done && id in Complete(t, id).1 && Complete(t, id).1[id].column == c
    ensures IsOrder(Complete(t, id).1, c, s + [id])
  {
    LeftmostIs(t.columns, t.cards[id].board, DoneOf(t.columns, t.cards[id].board), c);
    assert !IsDone(t, id) && !Blocked(t, id);
    MovedToTheEnd(t, id, c, s);
    CompletionMoves(t, id, c);
    var final := Move(t, ToDone(id, c), t.cards[id].version).1;
    assert id in s + [id];
    var i: nat :| i < |s + [id]| && (s + [id])[i] == id;
    assert final[id].column == c;
  }
}
