/** Closure of a channel under an edge relation, by a stack of channels whose edges are yet to be followed. */
module Worklist {

  type Edges = map<int, set<int>>

  /** p goes from channel to channel along edges, one step at least. */
  ghost predicate Walk(edges: Edges, p: seq<int>) {
    |p| >= 2 && forall i :: 0 <= i < |p| - 1 ==> p[i] in edges && p[i + 1] in edges[p[i]]
  }

  /** One or more steps lead from a to b. */
  ghost predicate Reachable(edges: Edges, a: int, b: int) {
    exists p :: Walk(edges, p) && p[0] == a && p[|p| - 1] == b
  }

  lemma ReachableStep(edges: Edges, a: int, b: int, c: int)
    requires a == b || Reachable(edges, a, b)
    requires b in edges && c in edges[b]
    ensures Reachable(edges, a, c)
  {
    if a == b {
      assert Walk(edges, [a, c]);
    } else {
      var p :| Walk(edges, p) && p[0] == a && p[|p| - 1] == b;
      assert Walk(edges, p + [c]);
    }
  }

  /** A set that holds the edges of a and of all its own members holds everything reachable from a. */
  lemma {:induction false} ClosedHoldsWalk(edges: Edges, a: int, s: set<int>, p: seq<int>, n: nat)
    requires forall x, y :: x in edges && (x == a || x in s) && y in edges[x] ==> y in s
    requires Walk(edges, p) && p[0] == a && 0 < n < |p|
    ensures p[n] in s
    decreases n
  {
    if n > 1 {
      ClosedHoldsWalk(edges, a, s, p, n - 1);
    }
    var x: int, y: int := p[n - 1], p[n];
    assert p[n - 1 + 1] in edges[p[n - 1]];
    assert x in edges && y in edges[x];
  }

  /** Follows edges from start until nothing new turns up; terminates on cycles too. */
  method Closure(edges: Edges, start: int) returns (seen: set<int>)
    requires start in edges && forall x :: x in edges ==> edges[x] <= edges.Keys
    ensures forall b :: b in seen <==> Reachable(edges, start, b)
  {
    seen := {};
    var walk := [start];
    while walk != []
      invariant seen <= edges.Keys
      invariant forall x :: x in walk ==> x == start || x in seen
      invariant forall x :: x in seen ==> Reachable(edges, start, x)
      invariant forall x :: (x == start || x in seen) && x !in walk ==> edges[x] <= seen
      decreases edges.Keys - seen, |walk|
    {
      var current := walk[|walk| - 1];
      ghost var before, rest := seen, walk[..|walk| - 1];
      walk := walk[..|walk| - 1];
      var todo := edges[current];
      assert todo <= edges.Keys;
      while todo != {}
        invariant todo <= edges[current] && edges[current] - todo <= seen
        invariant before <= seen <= edges.Keys && (seen == before ==> walk == rest)
        invariant rest <= walk
        invariant forall x :: x in walk ==> x == start || x in seen
        invariant forall x :: x in seen ==> Reachable(edges, start, x)
        invariant forall x :: (x == start || x in seen) && x !in walk && x != current ==> edges[x] <= seen
        decreases todo
      {
        var next :| next in todo;
        if next !in seen {
          ReachableStep(edges, start, current, next);
          seen := seen + {next};
          walk := walk + [next];
        }
        todo := todo - {next};
      }
    }
    forall b | Reachable(edges, start, b) ensures b in seen {
      var p :| Walk(edges, p) && p[0] == start && p[|p| - 1] == b;
      ClosedHoldsWalk(edges, start, seen, p, |p| - 1);
    }
  }
}
