/** Path reconstruction from the predecessor map, the `pathTo` closure of
    findPath: follow cameFrom from a node until a node without a predecessor,
    then reverse the walk. */
module Backpointers {

  /** rank strictly decreases along every predecessor link. */
  ghost predicate RankedBy<N>(cameFrom: map<N, N>, rank: map<N, nat>) {
    forall n :: n in cameFrom ==> n in rank && cameFrom[n] in rank && rank[cameFrom[n]] < rank[n]
  }

  /** The predecessor links contain no cycle: some ranking decreases along them. */
  ghost predicate Acyclic<N(!new)>(cameFrom: map<N, N>) {
    exists rank :: RankedBy(cameFrom, rank)
  }

  /** The walk n, cameFrom[n], cameFrom[cameFrom[n]], ... down to a node that has
      no predecessor; it ends because the links are acyclic. */
  function BackChain<N(==,!new)>(cameFrom: map<N, N>, n: N): (r: seq<N>)
    requires Acyclic(cameFrom)
    ensures |r| > 0 && r[0] == n && r[|r| - 1] !in cameFrom
    ensures forall i :: 0 <= i < |r| - 1 ==> r[i] in cameFrom && cameFrom[r[i]] == r[i + 1]
    decreases var rank :| RankedBy(cameFrom, rank); if n in rank then rank[n] else 0
  {
    if n in cameFrom then [n] + BackChain(cameFrom, cameFrom[n]) else [n]
  }

  function Reverse<T>(s: seq<T>): (r: seq<T>)
    ensures |r| == |s|
    ensures forall i :: 0 <= i < |s| ==> r[i] == s[|s| - 1 - i]
    decreases |s|
  {
    if s == [] then [] else Reverse(s[1..]) + [s[0]]
  }

  /** The path from a root of the predecessor links to n: it starts at a node
      without a predecessor, ends at n, and each node's predecessor is the node
      before it. */
  function PathTo<N(==,!new)>(cameFrom: map<N, N>, n: N): (r: seq<N>)
    requires Acyclic(cameFrom)
    ensures |r| > 0 && r[|r| - 1] == n && r[0] !in cameFrom
    ensures forall i :: 0 < i < |r| ==> r[i] in cameFrom && cameFrom[r[i]] == r[i - 1]
  {
    Reverse(BackChain(cameFrom, n))
  }

  /** Following the predecessor link of n extends the path to it by n. */
  lemma PathToStep<N(!new)>(cameFrom: map<N, N>, n: N)
    requires Acyclic(cameFrom) && n in cameFrom
    ensures PathTo(cameFrom, n) == PathTo(cameFrom, cameFrom[n]) + [n]
  {
    var c := BackChain(cameFrom, n);
    assert c == [n] + BackChain(cameFrom, cameFrom[n]);
    assert c[1..] == BackChain(cameFrom, cameFrom[n]);
    assert Reverse(c) == Reverse(c[1..]) + [c[0]];
  }

  /** A node without a predecessor is its own path. */
  lemma PathToRoot<N(!new)>(cameFrom: map<N, N>, n: N)
    requires Acyclic(cameFrom) && n !in cameFrom
    ensures PathTo(cameFrom, n) == [n]
  {
  }
}
