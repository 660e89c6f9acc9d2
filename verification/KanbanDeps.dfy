/** The dependency graph: reachability along edges, the cycle check, and what acyclicity buys. */
module KanbanDeps {
  import opened Basics

  /** (a, b) in the set means that card a waits for card b. */
  type Edges = set<(nat, nat)>

  ghost predicate IsPath(edges: Edges, p: seq<nat>) {
    p != [] && forall i :: 0 <= i < |p| - 1 ==> (p[i], p[i + 1]) in edges
  }

  ghost predicate Reaches(edges: Edges, a: nat, b: nat) {
    exists p :: IsPath(edges, p) && p[0] == a && p[|p| - 1] == b
  }

  /** No card waits, directly or through others, for itself. */
  ghost predicate Acyclic(edges: Edges) {
    forall a, b :: (a, b) in edges ==> !Reaches(edges, b, a)
  }

  lemma ReachesItself(edges: Edges, a: nat)
    ensures Reaches(edges, a, a)
  {
    assert IsPath(edges, [a]);
  }

  lemma ReachesThrough(edges: Edges, a: nat, b: nat, c: nat)
    requires (a, b) in edges && Reaches(edges, b, c)
    ensures Reaches(edges, a, c)
  {
    var p :| IsPath(edges, p) && p[0] == b && p[|p| - 1] == c;
    assert IsPath(edges, [a] + p);
  }

  lemma {:induction false} PathInClosedSet(edges: Edges, closed: set<nat>, p: seq<nat>)
    requires forall u, v :: (u, v) in edges && u in closed ==> v in closed
    requires IsPath(edges, p) && p[0] in closed
    ensures forall i :: 0 <= i < |p| ==> p[i] in closed
  {
    if |p| > 1 {
      assert (p[0], p[1]) in edges;
      PathInClosedSet(edges, closed, p[1..]);
      assert forall i :: 1 <= i < |p| ==> p[i] == p[1..][i - 1];
    }
  }

  lemma ReachesInClosedSet(edges: Edges, closed: set<nat>, a: nat, b: nat)
    requires forall u, v :: (u, v) in edges && u in closed ==> v in closed
    requires a in closed && Reaches(edges, a, b)
    ensures b in closed
  {
    var p :| IsPath(edges, p) && p[0] == a && p[|p| - 1] == b;
    PathInClosedSet(edges, closed, p);
  }

  lemma MoreEdgesReach(edges: Edges, more: Edges, a: nat, b: nat)
    requires edges <= more && Reaches(edges, a, b)
    ensures Reaches(more, a, b)
  {
    var p :| IsPath(edges, p) && p[0] == a && p[|p| - 1] == b;
    assert IsPath(more, p);
  }

  lemma FewerEdgesAcyclic(fewer: Edges, edges: Edges)
    requires fewer <= edges && Acyclic(edges)
    ensures Acyclic(fewer)
  {
    forall a, b | (a, b) in fewer ensures !Reaches(fewer, b, a) {
      if Reaches(fewer, b, a) { MoreEdgesReach(fewer, edges, b, a); }
    }
  }

  ghost function Leaving(edges: Edges, members: set<nat>): Edges {
    set e | e in edges && e.0 in members
  }

  /** Looking only at the edges that leave one board loses nothing when edges never cross boards. */
  lemma ReachesWithin(edges: Edges, members: set<nat>, a: nat, b: nat)
    requires forall u, v :: (u, v) in edges && u in members ==> v in members
    requires a in members
    ensures Reaches(edges, a, b) <==> Reaches(Leaving(edges, members), a, b)
  {
    var own := Leaving(edges, members);
    if Reaches(edges, a, b) {
      var p :| IsPath(edges, p) && p[0] == a && p[|p| - 1] == b;
      PathInClosedSet(edges, members, p);
      assert IsPath(own, p);
    }
    if Reaches(own, a, b) { MoreEdgesReach(own, edges, a, b); }
  }

  /** A path that may use one new edge either avoids it or reaches its source and continues from its target. */
  lemma {:induction false} PathWithNewEdge(edges: Edges, c: nat, d: nat, p: seq<nat>)
    requires IsPath(edges + {(c, d)}, p)
    ensures Reaches(edges, p[0], p[|p| - 1]) || (Reaches(edges, p[0], c) && Reaches(edges, d, p[|p| - 1]))
  {
    if |p| == 1 {
      ReachesItself(edges, p[0]);
    } else {
      var rest := p[1..];
      assert (p[0], p[1]) in edges + {(c, d)};
      assert IsPath(edges + {(c, d)}, rest) by {
        assert forall i :: 0 <= i < |rest| - 1 ==> (rest[i], rest[i + 1]) == (p[i + 1], p[i + 1 + 1]);
      }
      PathWithNewEdge(edges, c, d, rest);
      if (p[0], p[1]) in edges {
        if Reaches(edges, p[1], p[|p| - 1]) {
          ReachesThrough(edges, p[0], p[1], p[|p| - 1]);
        } else {
          ReachesThrough(edges, p[0], p[1], c);
        }
      } else {
        ReachesItself(edges, c);
      }
    }
  }

  lemma {:induction false} ReachesTransitive(edges: Edges, p: seq<nat>, c: nat)
    requires IsPath(edges, p) && Reaches(edges, p[|p| - 1], c)
    ensures Reaches(edges, p[0], c)
  {
    if |p| > 1 {
      var rest := p[1..];
      assert IsPath(edges, rest) by {
        assert forall i :: 0 <= i < |rest| - 1 ==> (rest[i], rest[i + 1]) == (p[i + 1], p[i + 1 + 1]);
      }
      ReachesTransitive(edges, rest, c);
      ReachesThrough(edges, p[0], p[1], c);
    }
  }

  /** The check is exactly right: an edge keeps the graph acyclic if and only if its target
      cannot already reach its source. */
  lemma NewEdgeAcyclicIff(edges: Edges, c: nat, d: nat)
    requires Acyclic(edges)
    ensures Acyclic(edges + {(c, d)}) <==> !Reaches(edges, d, c)
  {
    var more := edges + {(c, d)};
    if Reaches(edges, d, c) {
      MoreEdgesReach(edges, more, d, c);
      assert (c, d) in more;
    } else {
      forall a, b | (a, b) in more ensures !Reaches(more, b, a) {
        if Reaches(more, b, a) {
          var p :| IsPath(more, p) && p[0] == b && p[|p| - 1] == a;
          PathWithNewEdge(edges, c, d, p);
          if (a, b) in edges && !Reaches(edges, b, a) {
            var q :| IsPath(edges, q) && q[0] == d && q[|q| - 1] == a;
            ReachesThrough(edges, a, b, c);
            ReachesTransitive(edges, q, c);
          }
        }
      }
    }
  }

  lemma NoWayBack(edges: Edges, p: seq<nat>, y: nat)
    requires Acyclic(edges) && IsPath(edges, p) && (p[|p| - 1], y) in edges
    ensures y !in p
  {
    forall i | 0 <= i < |p| ensures p[i] != y {
      assert IsPath(edges, p[i..]);
      assert Reaches(edges, p[i], p[|p| - 1]);
    }
  }

  /** In an acyclic graph every path inside a set of cards leads on to one that waits for no card of the set. */
  lemma {:induction false} SomeMemberWaitsForNone(edges: Edges, members: set<nat>, p: seq<nat>) returns (x: nat)
    requires Acyclic(edges) && IsPath(edges, p) && NoDuplicates(p) && Elements(p) <= members
    ensures x in members && forall y :: (x, y) in edges ==> y !in members
    ensures Reaches(edges, p[0], x)
    decreases |members| - |p|
  {
    x := p[|p| - 1];
    assert Reaches(edges, p[0], x);
    if y :| (x, y) in edges && y in members {
      NoWayBack(edges, p, y);
      DistinctCardinality(p + [y]);
      SubsetCardinality(Elements(p + [y]), members);
      x := SomeMemberWaitsForNone(edges, members, p + [y]);
    }
  }

  // ---- the check ----

  ghost function RowSet(rows: seq<(nat, nat)>): Edges {
    set e | e in rows
  }

  /** The successors of a node in the adjacency lists, none when it has no list. */
  function Successors(graph: map<nat, seq<nat>>, a: nat): seq<nat> {
    if a in graph then graph[a] else []
  }

  ghost predicate Represents(graph: map<nat, seq<nat>>, edges: Edges) {
    forall a: nat, b: nat :: (a, b) in edges <==> b in Successors(graph, a)
  }

  method BuildGraph(rows: seq<(nat, nat)>) returns (graph: map<nat, seq<nat>>)
    ensures Represents(graph, RowSet(rows))
  {
    graph := map[];
    for k := 0 to |rows|
      invariant Represents(graph, RowSet(rows[..k]))
    {
      var (a, b) := rows[k];
      ghost var before := graph;
      graph := graph[a := Successors(graph, a) + [b]];
      assert RowSet(rows[..k + 1]) == RowSet(rows[..k]) + {(a, b)};
      forall x: nat, y: nat ensures (x, y) in RowSet(rows[..k + 1]) <==> y in Successors(graph, x) {
        assert y in Successors(before, x) <==> (x, y) in RowSet(rows[..k]);
      }
    }
    assert rows[..|rows|] == rows;
  }

  /** What the search knows: everything seen or stacked is reachable, the goal has not been seen,
      and every edge out of a seen node leads to a seen or stacked one. */
  ghost predicate Searching(edges: Edges, start: nat, goal: nat, seen: set<nat>, stack: seq<nat>) {
    && (forall u :: u in stack || u in seen ==> Reaches(edges, start, u))
    && goal !in seen && (start in seen || start in stack)
    && (forall u, v :: u in seen && (u, v) in edges ==> v in seen || v in stack)
  }

  lemma ReachesFurther(edges: Edges, a: nat, b: nat, c: nat)
    requires Reaches(edges, a, b) && (b, c) in edges
    ensures Reaches(edges, a, c)
  {
    var p :| IsPath(edges, p) && p[0] == a && p[|p| - 1] == b;
    assert IsPath(edges, p + [c]);
  }

  lemma SearchExpands(edges: Edges, start: nat, goal: nat, seen: set<nat>, stack: seq<nat>, node: nat, next: seq<nat>)
    requires Searching(edges, start, goal, seen, stack + [node]) && node != goal
    requires forall v :: v in next <==> (node, v) in edges
    ensures Searching(edges, start, goal, seen + {node}, stack + next)
  {
    assert node in stack + [node];
    forall v | v in next ensures Reaches(edges, start, v) { ReachesFurther(edges, start, node, v); }
  }

  lemma SearchSkips(edges: Edges, start: nat, goal: nat, seen: set<nat>, stack: seq<nat>, node: nat)
    requires Searching(edges, start, goal, seen, stack + [node]) && node in seen
    ensures Searching(edges, start, goal, seen, stack)
  {}

  lemma SearchEnds(edges: Edges, start: nat, goal: nat, seen: set<nat>)
    requires Searching(edges, start, goal, seen, [])
    ensures !Reaches(edges, start, goal)
  {
    if Reaches(edges, start, goal) { ReachesInClosedSet(edges, seen, start, goal); }
  }

  /** Whether `cardId` is reachable from `dependsOnId`; nodes may sit on the stack many times. */
  method WouldCreateCycle(rows: seq<(nat, nat)>, cardId: nat, dependsOnId: nat) returns (cycle: bool)
    ensures cycle <==> Reaches(RowSet(rows), dependsOnId, cardId)
  {
    var graph := BuildGraph(rows);
    ghost var edges := RowSet(rows);
    ghost var nodes := {dependsOnId} + set e | e in edges :: e.1;
    var seen: set<nat> := {};
    var stack := [dependsOnId];
    ReachesItself(edges, dependsOnId);
    while stack != []
      invariant seen <= nodes && forall u :: u in stack ==> u in nodes
      invariant Searching(edges, dependsOnId, cardId, seen, stack)
      decreases nodes - seen, |stack|
    {
      var node := stack[|stack| - 1];
      ghost var before := stack;
      stack := stack[..|stack| - 1];
      assert before == stack + [node];
      assert node in before;
      if node == cardId { return true; }
      if node in seen {
        SearchSkips(edges, dependsOnId, cardId, seen, stack, node);
        continue;
      }
      var next := Successors(graph, node);
      SearchExpands(edges, dependsOnId, cardId, seen, stack, node, next);
      forall v | v in next ensures v in nodes { assert (node, v) in edges; }
      seen := seen + {node};
      stack := stack + next;
    }
    SearchEnds(edges, dependsOnId, cardId, seen);
    return false;
  }
}
