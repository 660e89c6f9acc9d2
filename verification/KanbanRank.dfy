/**
 Fractional ranks: a position is a string of base-62 digits ordered as strings, and a
 move picks a new string between its two neighbours.

 A rank is the sequence of its digit values (0 for '0' up to 61 for 'z'); the alphabet is
 in ascending code order, so comparing the strings is comparing these sequences.
 The empty sequence stands for an absent bound, as the empty string does in the code.
 */
module KanbanRank {
  import opened Basics

  type Rank = seq<int>

  const BASE := 62
  const RANK_LEN_MAX := 48

  predicate Digits(r: Rank) {
    forall i :: 0 <= i < |r| ==> 0 <= r[i] < BASE
  }

  /** The ranks the service stores: non-empty and not ending in the lowest digit. */
  predicate WellFormed(r: Rank) {
    r != [] && Digits(r) && r[|r| - 1] != 0
  }

  /** String comparison. */
  predicate Less(a: Rank, b: Rank) {
    b != [] && (a == [] || a[0] < b[0] || (a[0] == b[0] && Less(a[1..], b[1..])))
  }

  /** The digit at position `n`, an exhausted string counting as zeros. */
  function At(s: Rank, n: nat): int {
    if n < |s| then s[n] else 0
  }

  function Tail(s: Rank): Rank {
    if s == [] then [] else s[1..]
  }

  /** The two strings differ by trailing lowest digits only. */
  predicate SameUpToZeros(a: Rank, b: Rank)
    decreases |a| + |b|
  {
    (a == [] && b == []) || (At(a, 0) == At(b, 0) && SameUpToZeros(Tail(a), Tail(b)))
  }

  // ---- the order ----

  lemma {:induction false} LessIrreflexive(a: Rank)
    ensures !Less(a, a)
  {
    if a != [] { LessIrreflexive(a[1..]); }
  }

  lemma {:induction false} LessTransitive(a: Rank, b: Rank, c: Rank)
    requires Less(a, b) && Less(b, c)
    ensures Less(a, c)
  {
    if a != [] && a[0] == b[0] == c[0] { LessTransitive(a[1..], b[1..], c[1..]); }
  }

  lemma {:induction false} LessTotal(a: Rank, b: Rank)
    ensures a == b || Less(a, b) || Less(b, a)
  {
    if a != [] && b != [] && a[0] == b[0] {
      LessTotal(a[1..], b[1..]);
      assert a == [a[0]] + a[1..] && b == [b[0]] + b[1..];
    }
  }

  lemma LessAsymmetric(a: Rank, b: Rank)
    requires Less(a, b)
    ensures !Less(b, a) && a != b
  {
    LessIrreflexive(a);
    if Less(b, a) { LessTransitive(a, b, a); }
  }

  /** Distinct stored ranks never differ by trailing zeros only. */
  lemma {:induction false} WellFormedSeparable(a: Rank, b: Rank)
    requires Digits(a) && (a == [] || a[|a| - 1] != 0)
    requires Digits(b) && (b == [] || b[|b| - 1] != 0)
    requires SameUpToZeros(a, b)
    ensures a == b
    decreases |a| + |b|
  {
    if a != [] || b != [] {
      WellFormedSeparable(Tail(a), Tail(b));
      if a != [] && b != [] {
        assert a == [a[0]] + a[1..] && b == [b[0]] + b[1..];
      }
    }
  }

  ghost predicate IsLeast(ranks: map<nat, Rank>, m: nat) {
    m in ranks && forall j :: j in ranks && j != m ==> Less(ranks[m], ranks[j])
  }

  ghost predicate IsGreatest(ranks: map<nat, Rank>, m: nat) {
    m in ranks && forall j :: j in ranks && j != m ==> Less(ranks[j], ranks[m])
  }

  lemma LeastOfOneMore(ranks: map<nat, Rank>, x: nat, f: nat)
    requires x in ranks && IsLeast(ranks - {x}, f) && ranks[x] != ranks[f]
    ensures IsLeast(ranks, if Less(ranks[x], ranks[f]) then x else f)
  {
    LessTotal(ranks[x], ranks[f]);
    forall j | j in ranks && j != x && j != f
      ensures Less(ranks[f], ranks[j])
      ensures Less(ranks[x], ranks[f]) ==> Less(ranks[x], ranks[j])
    {
      assert j in ranks - {x};
      if Less(ranks[x], ranks[f]) { LessTransitive(ranks[x], ranks[f], ranks[j]); }
    }
  }

  lemma GreatestOfOneMore(ranks: map<nat, Rank>, x: nat, l: nat)
    requires x in ranks && IsGreatest(ranks - {x}, l) && ranks[x] != ranks[l]
    ensures IsGreatest(ranks, if Less(ranks[l], ranks[x]) then x else l)
  {
    LessTotal(ranks[x], ranks[l]);
    forall j | j in ranks && j != x && j != l
      ensures Less(ranks[j], ranks[l])
      ensures Less(ranks[l], ranks[x]) ==> Less(ranks[j], ranks[x])
    {
      assert j in ranks - {x};
      if Less(ranks[l], ranks[x]) { LessTransitive(ranks[j], ranks[l], ranks[x]); }
    }
  }

  /** Among rows with distinct ranks one comes first and one comes last. */
  lemma {:induction false} LeastExists(ranks: map<nat, Rank>)
    requires ranks.Keys != {}
    requires forall a, b :: a in ranks && b in ranks && a != b ==> ranks[a] != ranks[b]
    ensures exists f :: IsLeast(ranks, f)
    ensures exists l :: IsGreatest(ranks, l)
    decreases |ranks|
  {
    var x :| x in ranks;
    var rest := ranks - {x};
    if rest.Keys == {} {
      assert ranks.Keys == rest.Keys + {x};
      assert IsLeast(ranks, x) && IsGreatest(ranks, x);
    } else {
      assert |rest.Keys| < |ranks.Keys| by { SubsetCardinality(rest.Keys, ranks.Keys); }
      LeastExists(rest);
      var f :| IsLeast(rest, f);
      var l :| IsGreatest(rest, l);
      LeastOfOneMore(ranks, x, f);
      GreatestOfOneMore(ranks, x, l);
    }
  }

  // ---- rank_between ----

  /** A rank above `s` with no upper bound. */
  function Above(s: Rank): Rank {
    if s == [] then [BASE / 2]
    else if s[0] == BASE - 1 then [s[0]] + Above(s[1..])
    else [(s[0] + BASE) / 2]
  }

  /** A rank between two bounds: the shared digits, then either the midpoint digit, or,
      when the digits are adjacent, the lower one followed by a rank above what is left of it. */
  function Within(lo: Rank, hi: Rank): Rank
    requires !SameUpToZeros(lo, hi)
    decreases |lo| + |hi|
  {
    var a, b := At(lo, 0), At(hi, 0);
    if a == b then [a] + Within(Tail(lo), Tail(hi))
    else if (a + b) / 2 != a then [(a + b) / 2]
    else [a] + Above(Tail(lo))
  }

  /** What `rank_between` promises to be called with, for its loop to end. */
  predicate Separable(lo: Rank, hi: Rank) {
    hi == [] || !SameUpToZeros(lo, hi)
  }

  function Between(lo: Rank, hi: Rank): Rank
    requires Separable(lo, hi)
  {
    if hi == [] then Above(lo) else Within(lo, hi)
  }

  lemma {:induction false} AboveIsAbove(s: Rank)
    requires Digits(s)
    ensures Less(s, Above(s)) && WellFormed(Above(s))
    ensures |Above(s)| <= |s| + 1
  {
    if s != [] && s[0] == BASE - 1 {
      AboveIsAbove(s[1..]);
      assert Above(s)[1..] == Above(s[1..]);
    }
  }

  /** One digit in front of both sides changes neither their order nor what can be stored. */
  lemma PrefixedLess(d: int, a: Rank, b: Rank)
    ensures Less([d] + a, [d] + b) <==> Less(a, b)
    ensures WellFormed(a) && 0 <= d < BASE ==> WellFormed([d] + a)
  {
    assert ([d] + a)[1..] == a && ([d] + b)[1..] == b;
  }

  lemma TailLess(lo: Rank, hi: Rank)
    requires Less(lo, hi) && At(lo, 0) == At(hi, 0) && !SameUpToZeros(lo, hi)
    ensures Less(Tail(lo), Tail(hi)) && !SameUpToZeros(Tail(lo), Tail(hi))
  {
    if lo == [] {
      assert Tail(hi) != [];
    }
  }

  /** The first digits differ: the midpoint, or the lower digit with a rank above what is left. */
  lemma ApartIsWithin(lo: Rank, hi: Rank)
    requires Digits(lo) && Digits(hi) && Less(lo, hi) && !SameUpToZeros(lo, hi) && At(lo, 0) != At(hi, 0)
    ensures Less(lo, Within(lo, hi)) && Less(Within(lo, hi), hi) && WellFormed(Within(lo, hi))
    ensures |Within(lo, hi)| <= |Tail(lo)| + 2
  {
    var a, b := At(lo, 0), At(hi, 0);
    AboveIsAbove(Tail(lo));
    if (a + b) / 2 == a {
      PrefixedLess(a, Tail(lo), Above(Tail(lo)));
      if lo != [] { assert lo == [a] + Tail(lo); }
    }
  }

  lemma {:induction false} WithinIsWithin(lo: Rank, hi: Rank)
    requires Digits(lo) && Digits(hi) && Less(lo, hi) && !SameUpToZeros(lo, hi)
    ensures Less(lo, Within(lo, hi)) && Less(Within(lo, hi), hi)
    ensures WellFormed(Within(lo, hi))
    ensures |Within(lo, hi)| <= (if |lo| > |hi| then |lo| else |hi|) + 1
    decreases |lo| + |hi|
  {
    if At(lo, 0) == At(hi, 0) {
      var d := At(lo, 0);
      TailLess(lo, hi);
      WithinIsWithin(Tail(lo), Tail(hi));
      PrefixedLess(d, Tail(lo), Within(Tail(lo), Tail(hi)));
      PrefixedLess(d, Within(Tail(lo), Tail(hi)), Tail(hi));
      assert hi == [d] + Tail(hi) && (lo == [] || lo == [d] + Tail(lo));
    } else {
      ApartIsWithin(lo, hi);
    }
  }

  /** The contract of `rank_between`: strictly inside the bounds, storable, at most one
      digit longer than the longer bound. */
  lemma BetweenIsBetween(lo: Rank, hi: Rank)
    requires Digits(lo) && Digits(hi)
    requires hi == [] || (Less(lo, hi) && !SameUpToZeros(lo, hi))
    ensures Less(lo, Between(lo, hi))
    ensures hi != [] ==> Less(Between(lo, hi), hi)
    ensures WellFormed(Between(lo, hi))
    ensures |Between(lo, hi)| <= (if |lo| > |hi| then |lo| else |hi|) + 1
  {
    if hi == [] { AboveIsAbove(lo); } else { WithinIsWithin(lo, hi); }
  }

  /** Stored bounds in the right order always let `rank_between` end. */
  lemma StoredBoundsSeparable(lo: Rank, hi: Rank)
    requires lo == [] || WellFormed(lo)
    requires hi == [] || (WellFormed(hi) && Less(lo, hi))
    ensures Separable(lo, hi)
  {
    if hi != [] && SameUpToZeros(lo, hi) {
      WellFormedSeparable(lo, hi);
      LessIrreflexive(lo);
    }
  }

  function Drop(s: Rank, n: nat): Rank {
    if n < |s| then s[n..] else []
  }

  /** What the loop of `rank_between` still has to write after `n` digits. */
  function Rest(lo: Rank, hi: Rank, open: bool, n: nat): Rank
    requires open || !SameUpToZeros(Drop(lo, n), Drop(hi, n))
  {
    if open then Above(Drop(lo, n)) else Within(Drop(lo, n), Drop(hi, n))
  }

  lemma DropDigits(s: Rank, n: nat)
    ensures At(s, n) == At(Drop(s, n), 0)
    ensures Tail(Drop(s, n)) == Drop(s, n + 1)
  {}

  /** One round of the loop writes the first digit of what is left, or all of it. */
  lemma LoopRound(lo: Rank, hi: Rank, open: bool, n: nat)
    requires Digits(lo) && Digits(hi)
    requires open || !SameUpToZeros(Drop(lo, n), Drop(hi, n))
    ensures var a, b := At(lo, n), if open then BASE else At(hi, n);
            var rest := Rest(lo, hi, open, n);
            if a == b then
              !open && !SameUpToZeros(Drop(lo, n + 1), Drop(hi, n + 1)) &&
              n < |lo| + |hi| && rest == [a] + Rest(lo, hi, false, n + 1)
            else if (a + b) / 2 != a then rest == [(a + b) / 2]
            else rest == [a] + Rest(lo, hi, true, n + 1) && (open ==> n < |lo|)
  {
    DropDigits(lo, n);
    DropDigits(hi, n);
  }

  lemma Reassociate(prefix: Rank, d: int, rest: Rank)
    ensures (prefix + [d]) + rest == prefix + ([d] + rest)
  {}

  method RankBetween(lo: Rank, hi: Rank) returns (r: Rank)
    requires Digits(lo) && Digits(hi)
    requires Separable(lo, hi)
    ensures r == Between(lo, hi)
  {
    var upperUnbounded := hi == [];
    var prefix: Rank := [];
    var n := 0;
    assert Drop(lo, 0) == lo && Drop(hi, 0) == hi;
    while true
      invariant upperUnbounded || !SameUpToZeros(Drop(lo, n), Drop(hi, n))
      invariant Between(lo, hi) == prefix + Rest(lo, hi, upperUnbounded, n)
      decreases !upperUnbounded, |lo| + |hi| - n
    {
      LoopRound(lo, hi, upperUnbounded, n);
      var loCode := At(lo, n);
      var hiCode := if upperUnbounded then BASE else At(hi, n);
      if loCode == hiCode {
        Reassociate(prefix, loCode, Rest(lo, hi, false, n + 1));
        prefix := prefix + [loCode];
        n := n + 1;
        continue;
      }
      var mid := (loCode + hiCode) / 2;
      if mid != loCode {
        return prefix + [mid];
      }
      Reassociate(prefix, loCode, Rest(lo, hi, true, n + 1));
      prefix := prefix + [loCode];
      upperUnbounded := true;
      n := n + 1;
    }
  }

  // ---- where the loop does not end ----

  /** The loop of `rank_between` cut off after `rounds` rounds. */
  function Loop(lo: Rank, hi: Rank, open: bool, n: nat, prefix: Rank, rounds: nat): Option<Rank>
    decreases rounds
  {
    if rounds == 0 then None
    else
      var a, b := At(lo, n), if open then BASE else At(hi, n);
      if a == b then Loop(lo, hi, open, n + 1, prefix + [a], rounds - 1)
      else if (a + b) / 2 != a then Some(prefix + [(a + b) / 2])
      else Loop(lo, hi, true, n + 1, prefix + [a], rounds - 1)
  }

  function RunFor(lo: Rank, hi: Rank, rounds: nat): Option<Rank> {
    Loop(lo, hi, hi == [], 0, [], rounds)
  }

  lemma {:induction false} LoopStuck(lo: Rank, hi: Rank, n: nat, prefix: Rank, rounds: nat)
    requires SameUpToZeros(Drop(lo, n), Drop(hi, n))
    ensures Loop(lo, hi, false, n, prefix, rounds) == None
    decreases rounds
  {
    if rounds != 0 {
      DropDigits(lo, n);
      DropDigits(hi, n);
      LoopStuck(lo, hi, n + 1, prefix + [At(lo, n)], rounds - 1);
    }
  }

  lemma {:induction false} LoopEnds(lo: Rank, hi: Rank, open: bool, n: nat, prefix: Rank, rounds: nat)
    requires Digits(lo) && Digits(hi)
    requires open || !SameUpToZeros(Drop(lo, n), Drop(hi, n))
    requires rounds >= (if open then 0 else |lo| + |hi| + 1) + (if n <= |lo| + |hi| then |lo| + |hi| - n else 0) + 1
    ensures Loop(lo, hi, open, n, prefix, rounds) == Some(prefix + Rest(lo, hi, open, n))
    decreases rounds
  {
    LoopRound(lo, hi, open, n);
    var a, b := At(lo, n), if open then BASE else At(hi, n);
    if a == b || (a + b) / 2 == a {
      LoopEnds(lo, hi, open || a != b, n + 1, prefix + [a], rounds - 1);
      Reassociate(prefix, a, Rest(lo, hi, open || a != b, n + 1));
    }
  }

  /** The loop ends exactly when the upper bound is absent or differs from the lower one by
      more than trailing zeros, whatever their order; `lo < hi` alone is not enough. */
  lemma RankBetweenEndsIff(lo: Rank, hi: Rank)
    requires Digits(lo) && Digits(hi)
    ensures (exists rounds: nat :: RunFor(lo, hi, rounds).Some?) <==> Separable(lo, hi)
    ensures Separable(lo, hi) ==> RunFor(lo, hi, 2 * (|lo| + |hi|) + 2) == Some(Between(lo, hi))
  {
    assert Drop(lo, 0) == lo && Drop(hi, 0) == hi;
    if Separable(lo, hi) {
      var enough: nat := 2 * (|lo| + |hi|) + 2;
      LoopEnds(lo, hi, hi == [], 0, [], enough);
      assert RunFor(lo, hi, enough).Some?;
      assert [] + Between(lo, hi) == Between(lo, hi);
    } else {
      forall rounds: nat ensures RunFor(lo, hi, rounds) == None {
        LoopStuck(lo, hi, 0, [], rounds);
      }
    }
  }

  /** "A" < "A0", and the loop never ends on them. */
  lemma OrderedBoundsCanDiverge(rounds: nat)
    ensures Less([10], [10, 0]) && RunFor([10], [10, 0], rounds) == None
  {
    assert Less([10], [10, 0]) by { assert Less([10][1..], [10, 0][1..]); }
    assert SameUpToZeros(Tail([10]), Tail([10, 0])) by {
      assert SameUpToZeros(Tail(Tail([10])), Tail(Tail([10, 0])));
    }
    RankBetweenEndsIff([10], [10, 0]);
  }

  // ---- rebalance_ranks ----

  /** The six digits reached one after the other by halving the way to the top. */
  const RISING: seq<int> := [31, 46, 54, 58, 60, 61]
  /** The five digits reached one after the other by halving the way to the bottom. */
  const FALLING: seq<int> := [31, 15, 7, 3, 1]

  function Copies(d: int, n: nat): (s: Rank)
    ensures |s| == n && forall i :: 0 <= i < n ==> s[i] == d
  {
    seq(n, _ => d)
  }

  /** The i-th rank of a freshly spread column. */
  function Spread(i: nat): Rank {
    Copies(BASE - 1, i / 6) + [RISING[i % 6]]
  }

  /** The rank the i-th of a run of prepends to an empty column gets. */
  function Sink(i: nat): Rank {
    Copies(0, i / 5) + [FALLING[i % 5]]
  }

  lemma {:induction false} AboveCopies(k: nat, d: int)
    requires 0 <= d < BASE
    ensures Above(Copies(BASE - 1, k) + [d]) ==
            Copies(BASE - 1, k) + (if d == BASE - 1 then [d, BASE / 2] else [(d + BASE) / 2])
    decreases k
  {
    var s := Copies(BASE - 1, k) + [d];
    if k == 0 {
      assert s == [d] && s[1..] == [];
    } else {
      assert s[1..] == Copies(BASE - 1, k - 1) + [d];
      AboveCopies(k - 1, d);
      assert Copies(BASE - 1, k) == [BASE - 1] + Copies(BASE - 1, k - 1);
    }
  }

  /** Appending after the i-th spread rank yields the next one. */
  lemma AboveSpread(i: nat)
    ensures Above(Spread(i)) == Spread(i + 1)
    ensures WellFormed(Spread(i)) && Less(Spread(i), Spread(i + 1))
  {
    AboveCopies(i / 6, RISING[i % 6]);
    SpreadWellFormed(i);
    AboveIsAbove(Spread(i));
    if i % 6 == 5 {
      assert (i + 1) / 6 == i / 6 + 1 && (i + 1) % 6 == 0;
      assert Copies(BASE - 1, i / 6) + [61, 31] == Copies(BASE - 1, i / 6 + 1) + [31];
    } else {
      assert (i + 1) / 6 == i / 6 && (i + 1) % 6 == i % 6 + 1;
    }
  }

  lemma SpreadWellFormed(i: nat)
    ensures WellFormed(Spread(i)) && |Spread(i)| == i / 6 + 1
  {}

  lemma SpreadStep(i: nat)
    ensures Less(Spread(i), Spread(i + 1))
  {
    AboveSpread(i);
  }

  lemma {:induction false} StepwiseAscends(ranks: seq<Rank>, i: nat, j: nat)
    requires forall k :: 0 <= k < |ranks| - 1 ==> Less(ranks[k], ranks[k + 1])
    requires i < j < |ranks|
    ensures Less(ranks[i], ranks[j])
    decreases j - i
  {
    if i < j - 1 {
      StepwiseAscends(ranks, i, j - 1);
      LessTransitive(ranks[i], ranks[j - 1], ranks[j - 1 + 1]);
    } else {
      assert Less(ranks[i], ranks[i + 1]);
    }
  }

  lemma SpreadAscends(i: nat, j: nat)
    requires i < j
    ensures Less(Spread(i), Spread(j))
  {
    var ranks := seq(j + 1, k requires 0 <= k <= j => Spread(k));
    forall k | 0 <= k < |ranks| - 1 ensures Less(ranks[k], ranks[k + 1]) {
      SpreadStep(k);
    }
    StepwiseAscends(ranks, i, j);
  }

  lemma SpreadZero()
    ensures Spread(0) == Above([])
  {
    assert Copies(BASE - 1, 0) + [31] == [31];
  }

  ghost predicate IsSpread(ranks: seq<Rank>) {
    forall i :: 0 <= i < |ranks| ==> ranks[i] == Spread(i)
  }

  lemma SpreadSnoc(ranks: seq<Rank>, next: Rank)
    requires IsSpread(ranks) && next == Spread(|ranks|)
    ensures IsSpread(ranks + [next])
  {}

  lemma SpreadExtends(ranks: seq<Rank>)
    requires IsSpread(ranks)
    ensures var prev := if ranks == [] then [] else ranks[|ranks| - 1];
            Digits(prev) && IsSpread(ranks + [Between(prev, [])])
  {
    var prev := if ranks == [] then [] else ranks[|ranks| - 1];
    assert Digits(prev) && Above(prev) == Spread(|ranks|) by {
      if ranks == [] { SpreadZero(); } else { AboveSpread(|ranks| - 1); }
    }
    SpreadSnoc(ranks, Above(prev));
  }

  method RebalanceRanks(count: int) returns (ranks: seq<Rank>)
    ensures |ranks| == if count <= 0 then 0 else count
    ensures IsSpread(ranks)
  {
    ranks := [];
    if count <= 0 { return; }
    var prev: Rank := [];
    for k := 0 to count
      invariant |ranks| == k && IsSpread(ranks)
      invariant prev == if ranks == [] then [] else ranks[|ranks| - 1]
    {
      SpreadExtends(ranks);
      var next := RankBetween(prev, []);
      ranks := ranks + [next];
      prev := next;
    }
  }

  method MaxRankLen(ranks: seq<Rank>) returns (m: nat)
    ensures forall r :: r in ranks ==> |r| <= m
    ensures if ranks == [] then m == 0 else exists r :: r in ranks && |r| == m
  {
    m := 0;
    for k := 0 to |ranks|
      invariant forall i :: 0 <= i < k ==> |ranks[i]| <= m
      invariant if k == 0 then m == 0 else exists i :: 0 <= i < k && |ranks[i]| == m
    {
      if k == 0 || |ranks[k]| > m { m := |ranks[k]|; }
    }
  }

  /** A re-spread column fits the length cap exactly up to 288 cards: beyond that the
      re-spread itself writes ranks longer than the trigger. */
  lemma SpreadFitsIff(count: nat)
    ensures (forall i: nat :: i < count ==> |Spread(i)| <= RANK_LEN_MAX) <==> count <= 288
  {
    forall i: nat ensures |Spread(i)| == i / 6 + 1 { SpreadWellFormed(i); }
    if count > 288 { assert |Spread(288)| == 49; }
  }

  lemma {:induction false} WithinCopies(k: nat, d: int)
    requires 0 < d < BASE
    ensures !SameUpToZeros([], Copies(0, k) + [d])
    ensures Within([], Copies(0, k) + [d]) == Copies(0, k) + (if d == 1 then [0, BASE / 2] else [d / 2])
    decreases k
  {
    var s := Copies(0, k) + [d];
    if k == 0 {
      assert s == [d];
    } else {
      assert Tail(s) == Copies(0, k - 1) + [d];
      WithinCopies(k - 1, d);
      assert Copies(0, k) == [0] + Copies(0, k - 1);
    }
  }

  /** Prepending before the i-th sinking rank yields the next one, so a run of prepends costs
      one digit every five cards: 240 of them fit the cap and the 241st does not. */
  lemma BetweenSink(i: nat)
    ensures Separable([], Sink(i)) && Between([], Sink(i)) == Sink(i + 1)
    ensures |Sink(i)| <= RANK_LEN_MAX <==> i < 240
  {
    WithinCopies(i / 5, FALLING[i % 5]);
    if i % 5 == 4 {
      assert (i + 1) / 5 == i / 5 + 1 && (i + 1) % 5 == 0;
      assert Copies(0, i / 5) + [0, 31] == Copies(0, i / 5 + 1) + [31];
    } else {
      assert (i + 1) / 5 == i / 5 && (i + 1) % 5 == i % 5 + 1;
    }
  }
}
