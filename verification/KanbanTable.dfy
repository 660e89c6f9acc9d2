/**
 The board's tables and the queries over them: cards ordered by rank inside a column,
 the last rank of a column, and the re-spread of a column.
 */
module KanbanTable {
  import opened Basics
  import opened KanbanRank

  datatype Column = Column(board: nat, rank: Rank, wip: Option<nat>, done: bool, landing: bool)

  /** `text` stands for the fields an edit may change; `origin` links a card to the event that opened it. */
  datatype Card = Card(board: nat, column: nat, rank: Rank, version: nat, text: string, origin: Option<(string, nat)>)

  type Cards = map<nat, Card>

  function InColumn(cards: Cards, col: nat): set<nat> {
    set id | id in cards && cards[id].column == col
  }

  /** The unique index on (column, rank). */
  ghost predicate UniqueRanks(cards: Cards) {
    forall a, b :: a in cards && b in cards && a != b && cards[a].column == cards[b].column ==>
                     cards[a].rank != cards[b].rank
  }

  ghost predicate StoredRanks(cards: Cards) {
    forall a :: a in cards ==> WellFormed(cards[a].rank)
  }

  /** `s` lists the cards of a column in the order a reader of the board sees them. */
  ghost predicate IsOrder(cards: Cards, col: nat, s: seq<nat>) {
    && (forall i :: 0 <= i < |s| ==> s[i] in cards && cards[s[i]].column == col)
    && (forall id :: id in cards && cards[id].column == col ==> id in s)
    && (forall i, j :: 0 <= i < j < |s| ==> Less(cards[s[i]].rank, cards[s[j]].rank))
  }

  lemma OrderHasNoDuplicates(cards: Cards, col: nat, s: seq<nat>)
    requires IsOrder(cards, col, s)
    ensures NoDuplicates(s)
  {
    forall i, j | 0 <= i < j < |s| ensures s[i] != s[j] {
      LessIrreflexive(cards[s[i]].rank);
    }
  }

  // ---- least and greatest rank of a column ----

  predicate IsFirst(cards: Cards, ids: set<nat>, m: nat) {
    m in ids && m in cards && forall j :: j in ids && j in cards ==> j == m || Less(cards[m].rank, cards[j].rank)
  }

  predicate IsLast(cards: Cards, ids: set<nat>, m: nat) {
    m in ids && m in cards && forall j :: j in ids && j in cards ==> j == m || Less(cards[j].rank, cards[m].rank)
  }

  lemma EndsExist(cards: Cards, col: nat, ids: set<nat>)
    requires UniqueRanks(cards) && ids <= InColumn(cards, col) && ids != {}
    ensures exists m :: IsFirst(cards, ids, m)
    ensures exists m :: IsLast(cards, ids, m)
  {
    var ranks := map id | id in ids :: cards[id].rank;
    assert ranks.Keys == ids;
    LeastExists(ranks);
    var f :| IsLeast(ranks, f);
    var l :| IsGreatest(ranks, l);
    assert IsFirst(cards, ids, f) && IsLast(cards, ids, l);
  }

  /** The greatest rank of a column, the absent bound when the column is empty. */
  ghost function LastRank(cards: Cards, col: nat): (r: Rank)
    requires UniqueRanks(cards)
    ensures InColumn(cards, col) == {} ==> r == []
    ensures InColumn(cards, col) != {} ==> exists m :: m in InColumn(cards, col) && cards[m].rank == r
    ensures forall m :: m in InColumn(cards, col) ==> cards[m].rank == r || Less(cards[m].rank, r)
  {
    if InColumn(cards, col) == {} then []
    else
      EndsExist(cards, col, InColumn(cards, col));
      var m :| IsLast(cards, InColumn(cards, col), m);
      cards[m].rank
  }

  lemma LastRankIs(cards: Cards, col: nat, m: nat)
    requires UniqueRanks(cards) && IsLast(cards, InColumn(cards, col), m)
    ensures LastRank(cards, col) == cards[m].rank
  {
    var r := LastRank(cards, col);
    assert m in InColumn(cards, col);
    var n :| n in InColumn(cards, col) && cards[n].rank == r;
    if r != cards[m].rank { LessAsymmetric(cards[m].rank, r); }
  }

  lemma OrderWithoutLast(cards: Cards, col: nat, s: seq<nat>)
    requires IsOrder(cards, col, s) && s != []
    ensures IsOrder(cards - {s[|s| - 1]}, col, s[..|s| - 1])
  {
    OrderHasNoDuplicates(cards, col, s);
    var n := |s| - 1;
    forall id | id in cards - {s[n]} && cards[id].column == col ensures id in s[..n] {
      var i :| 0 <= i < |s| && s[i] == id;
      assert s[..n][i] == id;
    }
  }

  lemma LastIsUnique(cards: Cards, ids: set<nat>, m: nat, n: nat)
    requires IsLast(cards, ids, m) && IsLast(cards, ids, n)
    ensures m == n
  {
    if m != n { LessAsymmetric(cards[m].rank, cards[n].rank); }
  }

  lemma OrdersEndAlike(cards: Cards, col: nat, s: seq<nat>, u: seq<nat>)
    requires IsOrder(cards, col, s) && IsOrder(cards, col, u) && s != []
    ensures u != [] && s[|s| - 1] == u[|u| - 1]
  {
    assert s[0] in u;
    OrderLastIsLast(cards, col, s);
    OrderLastIsLast(cards, col, u);
    LastIsUnique(cards, InColumn(cards, col), s[|s| - 1], u[|u| - 1]);
  }

  /** A column has exactly one order. */
  lemma {:induction false} OrderUnique(cards: Cards, col: nat, s: seq<nat>, u: seq<nat>)
    requires IsOrder(cards, col, s) && IsOrder(cards, col, u)
    ensures s == u
    decreases |s|
  {
    if s == [] {
      assert forall id :: id in u ==> id in s;
    } else {
      OrdersEndAlike(cards, col, s, u);
      OrderWithoutLast(cards, col, s);
      OrderWithoutLast(cards, col, u);
      OrderUnique(cards - {s[|s| - 1]}, col, s[..|s| - 1], u[..|u| - 1]);
      assert s == s[..|s| - 1] + [s[|s| - 1]] && u == u[..|u| - 1] + [u[|u| - 1]];
    }
  }

  lemma OrderLastIsLast(cards: Cards, col: nat, s: seq<nat>)
    requires IsOrder(cards, col, s) && s != []
    ensures IsLast(cards, InColumn(cards, col), s[|s| - 1])
  {
    forall j | j in InColumn(cards, col) && j != s[|s| - 1] ensures Less(cards[j].rank, cards[s[|s| - 1]].rank) {
      var i :| 0 <= i < |s| && s[i] == j;
    }
  }

  lemma LastOfOrder(cards: Cards, col: nat, s: seq<nat>)
    requires UniqueRanks(cards) && IsOrder(cards, col, s)
    ensures LastRank(cards, col) == if s == [] then [] else cards[s[|s| - 1]].rank
  {
    if s == [] {
      assert InColumn(cards, col) == {};
    } else {
      OrderLastIsLast(cards, col, s);
      LastRankIs(cards, col, s[|s| - 1]);
    }
  }

  lemma AppendLast(cards: Cards, col: nat, s: seq<nat>, m: nat)
    requires IsLast(cards, InColumn(cards, col), m) && IsOrder(cards - {m}, col, s)
    ensures IsOrder(cards, col, s + [m])
  {
    assert m in InColumn(cards, col);
    forall i | 0 <= i < |s| ensures Less(cards[s[i]].rank, cards[m].rank) {
      assert s[i] in InColumn(cards, col);
    }
    forall id | id in cards && cards[id].column == col ensures id in s + [m] {
      assert id != m ==> id in cards - {m};
    }
  }

  lemma {:induction false} OrderExists(cards: Cards, col: nat)
    requires UniqueRanks(cards)
    ensures exists s :: IsOrder(cards, col, s)
    decreases |cards|
  {
    var ids := InColumn(cards, col);
    if ids == {} {
      assert IsOrder(cards, col, []);
    } else {
      EndsExist(cards, col, ids);
      var m :| IsLast(cards, ids, m);
      var fewer := cards - {m};
      assert |fewer.Keys| < |cards.Keys| by { SubsetCardinality(fewer.Keys, cards.Keys); }
      OrderExists(fewer, col);
      var s :| IsOrder(fewer, col, s);
      AppendLast(cards, col, s, m);
    }
  }

  // ---- re-spreading a column ----

  ghost function Below(cards: Cards, col: nat, r: Rank): set<nat> {
    set id | id in cards && cards[id].column == col && Less(cards[id].rank, r)
  }

  /** How many cards of the column stand before a rank. */
  ghost function Position(cards: Cards, col: nat, r: Rank): nat {
    |Below(cards, col, r)|
  }

  ghost function Respread(cards: Cards, col: nat): Cards {
    map id | id in cards ::
      if cards[id].column == col
      then cards[id].(rank := Spread(Position(cards, col, cards[id].rank)), version := cards[id].version + 1)
      else cards[id]
  }

  lemma PositionRises(cards: Cards, col: nat, a: nat, r: Rank)
    requires a in InColumn(cards, col) && Less(cards[a].rank, r)
    ensures Position(cards, col, cards[a].rank) < Position(cards, col, r)
  {
    LessIrreflexive(cards[a].rank);
    forall id | id in Below(cards, col, cards[a].rank) ensures id in Below(cards, col, r) {
      LessTransitive(cards[id].rank, cards[a].rank, r);
    }
    assert a in Below(cards, col, r) && a !in Below(cards, col, cards[a].rank);
    SubsetCardinality(Below(cards, col, cards[a].rank), Below(cards, col, r));
  }

  /** The i-th card of the order has i cards before it. */
  lemma PositionInOrder(cards: Cards, col: nat, s: seq<nat>, i: nat)
    requires IsOrder(cards, col, s) && i < |s|
    ensures Position(cards, col, cards[s[i]].rank) == i
  {
    OrderHasNoDuplicates(cards, col, s);
    DistinctCardinality(s[..i]);
    forall id | id in Below(cards, col, cards[s[i]].rank) ensures id in s[..i] {
      assert id in s;
      var k :| 0 <= k < |s| && s[k] == id;
      if k >= i {
        LessIrreflexive(cards[id].rank);
        if k > i { LessAsymmetric(cards[s[i]].rank, cards[s[k]].rank); }
      }
      assert s[..i][k] == id;
    }
    assert Below(cards, col, cards[s[i]].rank) == Elements(s[..i]);
  }

  lemma RespreadKeepsColumns(cards: Cards, col: nat, c: nat)
    ensures InColumn(Respread(cards, col), c) == InColumn(cards, c)
  {}

  /** Cards `after` differ from `before` only by a re-spread of one column: same cards in the
      same columns and the same relative order; only the ranks and versions of that column move. */
  ghost predicate SameLayout(before: Cards, after: Cards, col: nat) {
    && before.Keys == after.Keys
    && (forall a :: a in before && before[a].column != col ==> after[a] == before[a])
    && (forall a :: a in before ==> after[a] == before[a].(rank := after[a].rank, version := after[a].version))
    && (forall a :: a in before ==> after[a].version >= before[a].version)
    && (forall a, b :: a in before && b in before && before[a].column == before[b].column ==>
          (Less(before[a].rank, before[b].rank) ==> Less(after[a].rank, after[b].rank)))
    && StoredRanks(after) && UniqueRanks(after)
  }

  lemma SameLayoutRefl(cards: Cards, col: nat)
    requires StoredRanks(cards) && UniqueRanks(cards)
    ensures SameLayout(cards, cards, col)
  {}

  lemma SameLayoutTrans(a: Cards, b: Cards, c: Cards, col: nat)
    requires SameLayout(a, b, col) && SameLayout(b, c, col)
    ensures SameLayout(a, c, col)
  {}

  lemma RespreadKeepsLess(cards: Cards, col: nat, a: nat, b: nat)
    requires a in cards && b in cards && cards[a].column == cards[b].column && Less(cards[a].rank, cards[b].rank)
    ensures Less(Respread(cards, col)[a].rank, Respread(cards, col)[b].rank)
  {
    if cards[a].column == col {
      PositionRises(cards, col, a, cards[b].rank);
      SpreadAscends(Position(cards, col, cards[a].rank), Position(cards, col, cards[b].rank));
    }
  }

  lemma RespreadSeparates(cards: Cards, col: nat, a: nat, b: nat)
    requires UniqueRanks(cards) && a in cards && b in cards && a != b && cards[a].column == cards[b].column
    ensures Respread(cards, col)[a].rank != Respread(cards, col)[b].rank
  {
    LessTotal(cards[a].rank, cards[b].rank);
    LessIrreflexive(Respread(cards, col)[a].rank);
    if Less(cards[a].rank, cards[b].rank) { RespreadKeepsLess(cards, col, a, b); } else { RespreadKeepsLess(cards, col, b, a); }
  }

  lemma RespreadKeepsLayout(cards: Cards, col: nat)
    requires StoredRanks(cards) && UniqueRanks(cards)
    ensures SameLayout(cards, Respread(cards, col), col)
    ensures forall a :: a in InColumn(cards, col) ==> Respread(cards, col)[a].version == cards[a].version + 1
  {
    var after := Respread(cards, col);
    forall a | a in cards ensures WellFormed(after[a].rank) {
      SpreadWellFormed(Position(cards, col, cards[a].rank));
    }
    forall a, b | a in cards && b in cards && cards[a].column == cards[b].column && Less(cards[a].rank, cards[b].rank)
      ensures Less(after[a].rank, after[b].rank)
    {
      RespreadKeepsLess(cards, col, a, b);
    }
    forall a, b | a in cards && b in cards && a != b && cards[a].column == cards[b].column
      ensures after[a].rank != after[b].rank
    {
      RespreadSeparates(cards, col, a, b);
    }
  }

  /** A re-spread, on its own or before a move takes `gone` out, keeps every column's order. */
  lemma SameLayoutSameOrder(before: Cards, after: Cards, col: nat, gone: set<nat>, c: nat, s: seq<nat>)
    requires SameLayout(before, after, col)
    ensures InColumn(before - gone, c) == InColumn(after - gone, c)
    ensures IsOrder(before - gone, c, s) ==> IsOrder(after - gone, c, s)
  {
    if IsOrder(before - gone, c, s) {
      forall i, j | 0 <= i < j < |s|
        ensures Less((after - gone)[s[i]].rank, (after - gone)[s[j]].rank)
      {
        assert s[i] in s && s[j] in s;
      }
    }
  }

  lemma SameLayoutKeepsOrder(before: Cards, after: Cards, col: nat, c: nat, s: seq<nat>)
    requires SameLayout(before, after, col) && IsOrder(before, c, s)
    ensures IsOrder(after, c, s)
  {}

  // ---- the intermediate states of a re-spread ----

  /** Decimal digits of `n`, padded with zeros to a width of at least `width`. */
  function Decimal(n: nat, width: nat): seq<int>
    decreases n, width
  {
    if n < 10 && width <= 1 then [n]
    else Decimal(n / 10, if width > 0 then width - 1 else 0) + [n % 10]
  }

  function DecimalValue(s: seq<int>): int {
    if s == [] then 0 else 10 * DecimalValue(s[..|s| - 1]) + s[|s| - 1]
  }

  lemma {:induction false} DecimalRoundTrip(n: nat, width: nat)
    ensures DecimalValue(Decimal(n, width)) == n
    decreases n, width
  {
    var s := Decimal(n, width);
    if n < 10 && width <= 1 {
      assert s[..0] == [];
    } else {
      var w: nat := if width > 0 then width - 1 else 0;
      DecimalRoundTrip(n / 10, w);
      assert s[..|s| - 1] == Decimal(n / 10, w);
    }
  }

  /** The temporary rank of the i-th card: '~', which no stored rank contains, and the index. */
  function Temp(i: nat): Rank {
    [BASE] + Decimal(i, 6)
  }

  lemma TempsDistinct(i: nat, j: nat)
    ensures Temp(i) == Temp(j) ==> i == j
    ensures !Digits(Temp(i))
  {
    DecimalRoundTrip(i, 6);
    DecimalRoundTrip(j, 6);
    assert Temp(i)[0] == BASE;
    assert Temp(i)[1..] == Decimal(i, 6) && Temp(j)[1..] == Decimal(j, 6);
  }

  /** The ranks of a column while a pass rewrites it: the cards in `written` already hold their
      new rank, the others still hold the old one. */
  ghost function Halfway(from: map<nat, Rank>, to: map<nat, Rank>, written: set<nat>): map<nat, Rank>
    requires from.Keys == to.Keys
  {
    map id | id in from :: if id in written then to[id] else from[id]
  }

  ghost predicate Injective(ranks: map<nat, Rank>) {
    forall a, b :: a in ranks && b in ranks && a != b ==> ranks[a] != ranks[b]
  }

  ghost function ColumnRanks(cards: Cards, s: seq<nat>): map<nat, Rank>
    requires forall id :: id in s ==> id in cards
  {
    map id | id in s :: cards[id].rank
  }

  ghost function IndexOf(s: seq<nat>, id: nat): (i: nat)
    requires id in s
    ensures i < |s| && s[i] == id
  {
    var i :| 0 <= i < |s| && s[i] == id;
    i
  }

  ghost function TempRanks(s: seq<nat>): (m: map<nat, Rank>)
    requires NoDuplicates(s)
    ensures m.Keys == Elements(s)
    ensures forall i :: 0 <= i < |s| ==> m[s[i]] == Temp(i)
  {
    map id | id in s :: Temp(IndexOf(s, id))
  }

  lemma HalfwayInjective(stored: map<nat, Rank>, temp: map<nat, Rank>, written: set<nat>)
    requires stored.Keys == temp.Keys && Injective(stored) && Injective(temp)
    requires forall a :: a in stored ==> Digits(stored[a]) && !Digits(temp[a])
    ensures Injective(Halfway(stored, temp, written))
  {}

  lemma HalfwayBackInjective(stored: map<nat, Rank>, temp: map<nat, Rank>, written: set<nat>)
    requires stored.Keys == temp.Keys && Injective(stored) && Injective(temp)
    requires forall a :: a in stored ==> Digits(stored[a]) && !Digits(temp[a])
    ensures Injective(Halfway(temp, stored, written))
  {}

  lemma RespreadStored(cards: Cards, col: nat)
    requires StoredRanks(cards) && UniqueRanks(cards)
    ensures StoredRanks(Respread(cards, col)) && UniqueRanks(Respread(cards, col))
    ensures Respread(cards, col).Keys == cards.Keys
    ensures forall a :: a in cards ==> Respread(cards, col)[a].column == cards[a].column
  {
    RespreadKeepsLayout(cards, col);
  }

  lemma TempRanksDistinct(s: seq<nat>)
    requires NoDuplicates(s)
    ensures Injective(TempRanks(s))
    ensures forall a :: a in TempRanks(s) ==> !Digits(TempRanks(s)[a])
  {
    forall a, b | a in s && b in s && a != b
      ensures TempRanks(s)[a] != TempRanks(s)[b] && !Digits(TempRanks(s)[a])
    {
      TempsDistinct(IndexOf(s, a), IndexOf(s, b));
    }
    forall a | a in s ensures !Digits(TempRanks(s)[a]) { TempsDistinct(IndexOf(s, a), IndexOf(s, a)); }
  }

  lemma ColumnRanksDistinct(cards: Cards, col: nat, s: seq<nat>)
    requires StoredRanks(cards) && UniqueRanks(cards)
    requires forall id :: id in s ==> id in cards && cards[id].column == col
    ensures Injective(ColumnRanks(cards, s)) && ColumnRanks(cards, s).Keys == Elements(s)
    ensures forall a :: a in s ==> Digits(ColumnRanks(cards, s)[a])
  {}

  /** The unique index holds between any two row updates of either pass, whatever the order the
      rows are written in, and however many cards the column has. */
  lemma RespreadNeverCollides(cards: Cards, col: nat, s: seq<nat>, written: set<nat>)
    requires StoredRanks(cards) && UniqueRanks(cards) && IsOrder(cards, col, s)
    ensures NoDuplicates(s)
    ensures Injective(Halfway(ColumnRanks(cards, s), TempRanks(s), written))
    ensures Injective(Halfway(TempRanks(s), ColumnRanks(Respread(cards, col), s), written))
  {
    OrderHasNoDuplicates(cards, col, s);
    RespreadStored(cards, col);
    TempRanksDistinct(s);
    ColumnRanksDistinct(cards, col, s);
    ColumnRanksDistinct(Respread(cards, col), col, s);
    HalfwayInjective(ColumnRanks(cards, s), TempRanks(s), written);
    HalfwayBackInjective(ColumnRanks(Respread(cards, col), s), TempRanks(s), written);
  }
}
