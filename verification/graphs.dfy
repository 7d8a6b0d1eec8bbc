/** The caller-supplied graph policy of the search: which nodes follow a node,
    what an edge costs, and how far a node is estimated to be from the goal.
    In the repository these are the three methods a subclass overrides. */
module Graphs {

  /** Number.MAX_SAFE_INTEGER, the score an unscored node reads as. */
  const MaxSafeInteger: int := 9007199254740991

  /** `nodes` is the finite universe the search can reach; `cost` is partial:
      it is only defined on the edges the policy declares (the repository's test
      policy throws for anything else). */
  datatype Graph<!N> = Graph(
    nodes: set<N>,
    neighborsOf: (N, N) -> seq<N>,
    cost: (N, N) --> int,
    estimateCost: (N, N) -> int)

  /** b is returned by neighborsOf(a, goal) for a node a of the universe. */
  predicate IsEdge<N(==)>(gr: Graph<N>, goal: N, a: N, b: N) {
    a in gr.nodes && b in gr.neighborsOf(a, goal)
  }

  /** The universe is closed under neighborsOf and cost is defined on every edge. */
  ghost predicate WellFormed<N>(gr: Graph<N>, goal: N) {
    forall n, i :: n in gr.nodes && 0 <= i < |gr.neighborsOf(n, goal)| ==>
      gr.neighborsOf(n, goal)[i] in gr.nodes && gr.cost.requires(n, gr.neighborsOf(n, goal)[i])
  }

  /** Every consecutive pair of w is an edge. */
  predicate IsWalk<N(==)>(gr: Graph<N>, goal: N, w: seq<N>) {
    forall i :: 0 < i < |w| ==> IsEdge(gr, goal, w[i - 1], w[i])
  }

  /** Sum of the edge costs along a walk. */
  function PathCost<N(==)>(gr: Graph<N>, goal: N, w: seq<N>): int
    requires WellFormed(gr, goal) && IsWalk(gr, goal, w)
    decreases |w|
  {
    if |w| <= 1 then 0
    else
      assert IsEdge(gr, goal, w[|w| - 2], w[|w| - 1]);
      PathCost(gr, goal, w[..|w| - 1]) + gr.cost(w[|w| - 2], w[|w| - 1])
  }

  /** Some walk leads from `from` to `to`. */
  ghost predicate Reachable<N(!new)>(gr: Graph<N>, goal: N, from: N, to: N) {
    exists w :: IsWalk(gr, goal, w) && |w| > 0 && w[0] == from && w[|w| - 1] == to
  }

  /** No edge leaves the set c. */
  ghost predicate ClosedUnderNeighbors<N>(gr: Graph<N>, goal: N, c: set<N>) {
    forall n, i :: n in c && 0 <= i < |gr.neighborsOf(n, goal)| ==> gr.neighborsOf(n, goal)[i] in c
  }

  /** Extending a walk by one edge adds that edge's cost. */
  lemma PathCostSnoc<N>(gr: Graph<N>, goal: N, w: seq<N>, n: N)
    requires WellFormed(gr, goal) && IsWalk(gr, goal, w) && |w| > 0
    requires IsEdge(gr, goal, w[|w| - 1], n)
    ensures IsWalk(gr, goal, w + [n])
    ensures PathCost(gr, goal, w + [n]) == PathCost(gr, goal, w) + gr.cost(w[|w| - 1], n)
  {
    var v := w + [n];
    assert v[..|v| - 1] == w;
  }

  /** A walk that starts inside a set no edge leaves never leaves it. */
  lemma {:induction false} WalkStaysInside<N>(gr: Graph<N>, goal: N, c: set<N>, w: seq<N>)
    requires ClosedUnderNeighbors(gr, goal, c)
    requires IsWalk(gr, goal, w) && |w| > 0 && w[0] in c
    ensures forall i :: 0 <= i < |w| ==> w[i] in c
    decreases |w|
  {
    if |w| > 1 {
      var u := w[..|w| - 1];
      assert IsWalk(gr, goal, u);
      WalkStaysInside(gr, goal, c, u);
      assert w[|w| - 2] == u[|u| - 1];
      assert IsEdge(gr, goal, w[|w| - 2], w[|w| - 1]);
    }
  }

  /** Nothing outside a set no edge leaves is reachable from inside it. */
  lemma Unreachable<N(!new)>(gr: Graph<N>, goal: N, c: set<N>, from: N, to: N)
    requires ClosedUnderNeighbors(gr, goal, c) && from in c && to !in c
    ensures !Reachable(gr, goal, from, to)
  {
    if Reachable(gr, goal, from, to) {
      var w :| IsWalk(gr, goal, w) && |w| > 0 && w[0] == from && w[|w| - 1] == to;
      WalkStaysInside(gr, goal, c, w);
    }
  }
}
