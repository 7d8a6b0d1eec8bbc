/** The invariant of findPath's while loop (lines 44-68), that one loop body
    keeps it, and what it says at the loop's two exits: the goal popped, or the
    frontier empty. */
module SearchInvariant {
  import opened Graphs
  import opened Backpointers
  import opened StableSort
  import opened AStar

  /** The frontier holds distinct, unclosed nodes of the universe. openMap is
      the frontier except start, whose entry is never set; start is the first
      node to be closed; the goal is never closed, since it is returned when
      popped. */
  ghost predicate FrontierShape<N(!new)>(gr: Graph<N>, start: N, goal: N, s: SearchState<N>) {
    && s.closedSet <= gr.nodes && goal !in s.closedSet
    && (forall i :: 0 <= i < |s.openSet| ==> s.openSet[i] in gr.nodes && s.openSet[i] !in s.closedSet)
    && Distinct(s.openSet)
    && s.openMap == Elems(s.openSet) - {start}
    && (s.closedSet == {} ==> s.openSet == [start])
    && (s.closedSet != {} ==> start in s.closedSet)
  }

  /** Exactly the discovered nodes, closed or on the frontier, carry scores,
      and every f-score is the heuristic estimate to the goal. */
  ghost predicate ScoresTracked<N(!new)>(gr: Graph<N>, goal: N, s: SearchState<N>) {
    && s.gScoreMap.Keys == s.closedSet + Elems(s.openSet)
    && s.fScoreMap.Keys == s.gScoreMap.Keys
    && (forall n :: n in s.fScoreMap ==> s.fScoreMap[n] == gr.estimateCost(n, goal))
  }

  /** n's predecessor is closed and reaches n by an edge, and g(n) is the
      predecessor's g plus that edge's cost. */
  ghost predicate LinkOk<N(!new)>(gr: Graph<N>, goal: N, s: SearchState<N>, n: N)
    requires WellFormed(gr, goal) && n in s.cameFrom
  {
    var p := s.cameFrom[n];
    && p in s.closedSet && IsEdge(gr, goal, p, n)
    && p in s.gScoreMap && n in s.gScoreMap
    && s.gScoreMap[n] == s.gScoreMap[p] + gr.cost(p, n)
  }

  /** g(start) is 0 and every other scored node has a sound predecessor link. */
  ghost predicate LinksSound<N(!new)>(gr: Graph<N>, start: N, goal: N, s: SearchState<N>)
    requires WellFormed(gr, goal)
  {
    && start in s.gScoreMap && s.gScoreMap[start] == 0
    && s.cameFrom.Keys == s.gScoreMap.Keys - {start}
    && (forall n :: n in s.cameFrom ==> LinkOk(gr, goal, s, n))
  }

  /** rank numbers the closed nodes in the order they were closed; a closed
      node was closed after its predecessor. */
  ghost predicate ClosingOrder<N>(s: SearchState<N>, rank: map<N, nat>) {
    && rank.Keys == s.closedSet
    && (forall n :: n in rank ==> rank[n] < |s.closedSet|)
    && (forall n :: n in rank && n in s.cameFrom ==> s.cameFrom[n] in rank && rank[s.cameFrom[n]] < rank[n])
  }

  /** Every neighbour of a closed node has been discovered. */
  ghost predicate Covered<N>(gr: Graph<N>, goal: N, s: SearchState<N>) {
    forall n, i :: n in s.closedSet && 0 <= i < |gr.neighborsOf(n, goal)| ==>
      gr.neighborsOf(n, goal)[i] in s.closedSet || gr.neighborsOf(n, goal)[i] in s.openSet
  }

  ghost predicate Inv<N(!new)>(gr: Graph<N>, start: N, goal: N, s: SearchState<N>)
    requires WellFormed(gr, goal)
  {
    && FrontierShape(gr, start, goal, s) && ScoresTracked(gr, goal, s)
    && LinksSound(gr, start, goal, s) && (exists rank :: ClosingOrder(s, rank))
    && Covered(gr, goal, s)
  }

  /** The state before the first iteration satisfies the invariant. */
  lemma InitInv<N(!new)>(gr: Graph<N>, start: N, goal: N)
    requires WellFormed(gr, goal) && start in gr.nodes
    ensures Inv(gr, start, goal, Init(gr, start, goal))
  {
    var s := Init(gr, start, goal);
    assert Elems(s.openSet) == {start};
    assert ClosingOrder(s, map[]);
  }

  lemma DistinctAppend<N(!new)>(a: seq<N>, b: seq<N>)
    requires Distinct(a) && Distinct(b)
    requires forall i :: 0 <= i < |b| ==> b[i] !in a
    ensures Distinct(a + b)
  {
    var q := a + b;
    forall i, j | 0 <= i < j < |q| ensures q[i] != q[j] {
      if i < |a| && j >= |a| {
        assert q[j] == b[j - |a|];
      }
    }
  }

  lemma {:induction false} DistinctCount<N(!new)>(q: seq<N>, x: N)
    requires Distinct(q)
    ensures multiset(q)[x] <= 1
    decreases |q|
  {
    if q != [] {
      assert q == [q[0]] + q[1..];
      assert Distinct(q[1..]);
      DistinctCount(q[1..], x);
      if x == q[0] {
        assert x !in q[1..];
      }
    }
  }

  lemma RepeatCount<N(!new)>(q: seq<N>, i: nat, j: nat)
    requires i < j < |q| && q[i] == q[j]
    ensures multiset(q)[q[i]] >= 2
  {
    assert q == q[..j] + [q[j]] + q[j + 1..];
    assert q[..j][i] == q[i];
  }

  /** A rearrangement of a sequence without repeats has no repeats. */
  lemma DistinctPermutation<N(!new)>(a: seq<N>, b: seq<N>)
    requires Distinct(a) && multiset(a) == multiset(b)
    ensures Distinct(b)
  {
    forall i, j | 0 <= i < j < |b| ensures b[i] != b[j] {
      if b[i] == b[j] {
        RepeatCount(b, i, j);
        DistinctCount(a, b[i]);
        assert false;
      }
    }
  }

  lemma ElemsOfPermutation<N(!new)>(a: seq<N>, b: seq<N>)
    requires multiset(a) == multiset(b)
    ensures Elems(a) == Elems(b)
  {
    forall x ensures x in a <==> x in b {
      assert x in a <==> x in multiset(a);
      assert x in b <==> x in multiset(b);
    }
  }

  /** Popping the head of a well-shaped frontier. */
  lemma PoppedShape<N(!new)>(gr: Graph<N>, start: N, goal: N, s: SearchState<N>)
    requires FrontierShape(gr, start, goal, s) && |s.openSet| > 0
    ensures Elems(s.openSet) == Elems(Popped(s).openSet) + {s.openSet[0]}
    ensures s.openSet[0] !in Popped(s).openSet
    ensures Popped(s).openMap == Elems(Popped(s).openSet) - {start}
    ensures start in s.closedSet + {s.openSet[0]}
    ensures Distinct(Popped(s).openSet)
  {
    var q := s.openSet;
    assert q == [q[0]] + q[1..];
  }

  /** The nodes the expansion of s's head pushes onto the frontier. */
  function Pushed<N(==,!new)>(gr: Graph<N>, goal: N, s: SearchState<N>): seq<N>
    requires |s.openSet| > 0
  {
    var p := Popped(s);
    NewNeighbors(p.openMap + p.closedSet + {s.openSet[0]}, gr.neighborsOf(s.openSet[0], goal))
  }

  lemma StepFrontier<N(!new)>(gr: Graph<N>, start: N, goal: N, s: SearchState<N>, t: SearchState<N>)
    requires WellFormed(gr, goal) && FrontierShape(gr, start, goal, s)
    requires |s.openSet| > 0 && s.openSet[0] != goal && s.openSet[0] in gr.nodes
    requires t.closedSet == s.closedSet + {s.openSet[0]}
    requires t.openMap == Popped(s).openMap + Elems(Pushed(gr, goal, s))
    requires multiset(t.openSet) == multiset(Popped(s).openSet + Pushed(gr, goal, s))
    ensures FrontierShape(gr, start, goal, t)
    ensures Elems(t.openSet) == Elems(Popped(s).openSet) + Elems(Pushed(gr, goal, s))
    ensures Popped(s).openMap + Popped(s).closedSet + {s.openSet[0]} == Elems(Popped(s).openSet) + t.closedSet
  {
    var c, p := s.openSet[0], Popped(s);
    var pushed := Pushed(gr, goal, s);
    var known := p.openMap + p.closedSet + {c};
    PoppedShape(gr, start, goal, s);
    assert known == Elems(p.openSet) + t.closedSet;
    var q := p.openSet + pushed;
    DistinctAppend(p.openSet, pushed);
    DistinctPermutation(q, t.openSet);
    ElemsOfPermutation(q, t.openSet);
    ElemsAppend(p.openSet, pushed);
    forall i | 0 <= i < |t.openSet| ensures t.openSet[i] in gr.nodes && t.openSet[i] !in t.closedSet {
      var x := t.openSet[i];
      assert x in Elems(q);
      if x in pushed {
        var k :| 0 <= k < |pushed| && pushed[k] == x;
        assert IsEdge(gr, goal, c, x);
      } else {
        assert x in s.openSet[1..];
      }
    }
    assert start !in Elems(pushed);
  }

  lemma StepScores<N(!new)>(gr: Graph<N>, start: N, goal: N, s: SearchState<N>, t: SearchState<N>)
    requires WellFormed(gr, goal) && ScoresTracked(gr, goal, s) && |s.openSet| > 0
    requires t.closedSet == s.closedSet + {s.openSet[0]}
    requires Elems(s.openSet) == Elems(Popped(s).openSet) + {s.openSet[0]}
    requires Elems(t.openSet) == Elems(Popped(s).openSet) + Elems(Pushed(gr, goal, s))
    requires Popped(s).openMap + Popped(s).closedSet + {s.openSet[0]} == Elems(Popped(s).openSet) + t.closedSet
    requires forall n :: n in s.closedSet || n == s.openSet[0] ==> Untouched(Popped(s), t, n)
    requires forall n :: !Untouched(Popped(s), t, n) ==> Relaxed(gr, goal, t, s.openSet[0], n)
    requires forall n :: n in Pushed(gr, goal, s) ==> n in t.gScoreMap
    ensures ScoresTracked(gr, goal, t)
  {
    var c, p := s.openSet[0], Popped(s);
    var known := p.openMap + p.closedSet + {c};
    forall n
      ensures (n in t.gScoreMap <==> n in t.closedSet + Elems(t.openSet)) && (n in t.fScoreMap <==> n in t.gScoreMap)
      ensures n in t.fScoreMap ==> t.fScoreMap[n] == gr.estimateCost(n, goal)
    {
      if !Untouched(Popped(s), t, n) {
        assert IsEdge(gr, goal, c, n);
        if n !in known {
          NewNeighborsComplete(known, gr.neighborsOf(c, goal), n);
        }
      }
    }
  }

  lemma StepLinks<N(!new)>(gr: Graph<N>, start: N, goal: N, s: SearchState<N>, t: SearchState<N>)
    requires WellFormed(gr, goal) && LinksSound(gr, start, goal, s) && |s.openSet| > 0
    requires s.openSet[0] in s.gScoreMap
    requires t.closedSet == s.closedSet + {s.openSet[0]} && start in t.closedSet
    requires forall n :: n in s.closedSet || n == s.openSet[0] ==> Untouched(Popped(s), t, n)
    requires forall n :: !Untouched(Popped(s), t, n) ==> Relaxed(gr, goal, t, s.openSet[0], n)
    ensures LinksSound(gr, start, goal, t)
  {
    var c := s.openSet[0];
    assert Untouched(Popped(s), t, start);
    forall n ensures n in t.cameFrom <==> n in t.gScoreMap && n != start {
      if !Untouched(Popped(s), t, n) {
        assert n != start;
      }
    }
    forall n | n in t.cameFrom ensures LinkOk(gr, goal, t, n) {
      if Untouched(Popped(s), t, n) {
        assert LinkOk(gr, goal, s, n);
        assert Untouched(Popped(s), t, s.cameFrom[n]);
      } else {
        assert Untouched(Popped(s), t, c);
      }
    }
  }

  lemma StepOrder<N(!new)>(gr: Graph<N>, start: N, goal: N, s: SearchState<N>, t: SearchState<N>, rank: map<N, nat>)
    requires ClosingOrder(s, rank) && |s.openSet| > 0 && s.openSet[0] !in s.closedSet
    requires s.openSet[0] in s.cameFrom ==> s.cameFrom[s.openSet[0]] in s.closedSet
    requires t.closedSet == s.closedSet + {s.openSet[0]}
    requires forall n :: n in s.closedSet || n == s.openSet[0] ==> Untouched(Popped(s), t, n)
    ensures ClosingOrder(t, rank[s.openSet[0] := |s.closedSet|])
  {
    var c := s.openSet[0];
    var rank' := rank[c := |s.closedSet|];
    forall n | n in rank' && n in t.cameFrom
      ensures t.cameFrom[n] in rank' && rank'[t.cameFrom[n]] < rank'[n]
    {
      assert Untouched(Popped(s), t, n);
    }
  }

  lemma StepCovered<N(!new)>(gr: Graph<N>, start: N, goal: N, s: SearchState<N>, t: SearchState<N>)
    requires WellFormed(gr, goal) && Covered(gr, goal, s) && |s.openSet| > 0
    requires t.closedSet == s.closedSet + {s.openSet[0]}
    requires Elems(s.openSet) == Elems(Popped(s).openSet) + {s.openSet[0]}
    requires Elems(t.openSet) == Elems(Popped(s).openSet) + Elems(Pushed(gr, goal, s))
    requires Popped(s).openMap + Popped(s).closedSet + {s.openSet[0]} == Elems(Popped(s).openSet) + t.closedSet
    ensures Covered(gr, goal, t)
  {
    var c, p := s.openSet[0], Popped(s);
    var known := p.openMap + p.closedSet + {c};
    forall n, i | n in t.closedSet && 0 <= i < |gr.neighborsOf(n, goal)|
      ensures gr.neighborsOf(n, goal)[i] in t.closedSet || gr.neighborsOf(n, goal)[i] in t.openSet
    {
      var m := gr.neighborsOf(n, goal)[i];
      if n == c && m !in known {
        NewNeighborsComplete(known, gr.neighborsOf(c, goal), m);
        assert m in Elems(t.openSet);
      } else if n != c {
        assert m in s.closedSet || m in Elems(s.openSet);
        assert m in Elems(t.openSet) || m in t.closedSet;
      } else {
        assert m in Elems(t.openSet) || m in t.closedSet;
      }
    }
  }

  /** A loop body that neither stops nor returns keeps the invariant and closes
      one more node of the universe. */
  lemma IterationKeepsInv<N(!new)>(gr: Graph<N>, start: N, goal: N, s: SearchState<N>)
    requires WellFormed(gr, goal) && Inv(gr, start, goal, s)
    requires |s.openSet| > 0 && s.openSet[0] != goal
    ensures s.openSet[0] in gr.nodes && s.openSet[0] !in s.closedSet
    ensures Inv(gr, start, goal, Expand(gr, goal, Popped(s), s.openSet[0]))
    ensures Expand(gr, goal, Popped(s), s.openSet[0]).closedSet == s.closedSet + {s.openSet[0]}
  {
    var c, p := s.openSet[0], Popped(s);
    var t := Expand(gr, goal, p, c);
    PoppedShape(gr, start, goal, s);
    ExpandOrders(gr, goal, p, c);
    StepFrontier(gr, start, goal, s, t);
    StepScores(gr, start, goal, s, t);
    StepLinks(gr, start, goal, s, t);
    var rank :| ClosingOrder(s, rank);
    if c in s.cameFrom {
      assert LinkOk(gr, goal, s, c);
    }
    StepOrder(gr, start, goal, s, t, rank);
    StepCovered(gr, start, goal, s, t);
    InvIntro(gr, start, goal, t, rank[c := |s.closedSet|]);
  }

  lemma InvIntro<N(!new)>(gr: Graph<N>, start: N, goal: N, s: SearchState<N>, rank: map<N, nat>)
    requires WellFormed(gr, goal) && FrontierShape(gr, start, goal, s) && ScoresTracked(gr, goal, s)
    requires LinksSound(gr, start, goal, s) && ClosingOrder(s, rank) && Covered(gr, goal, s)
    ensures Inv(gr, start, goal, s)
  {
  }

  lemma SubsetCard<T>(a: set<T>, b: set<T>)
    requires a <= b
    ensures |a| <= |b|
  {
    assert b == a + (b - a);
  }

  /** The discovered nodes lie in the universe, so no more of them can be
      closed than it holds, and the goal, never closed, is one more. */
  lemma ClosedBound<N(!new)>(gr: Graph<N>, start: N, goal: N, s: SearchState<N>)
    requires WellFormed(gr, goal) && Inv(gr, start, goal, s)
    ensures |s.closedSet| <= |gr.nodes|
    ensures goal in s.openSet ==> |s.closedSet| + 1 <= |gr.nodes|
  {
    SubsetCard(s.closedSet, gr.nodes);
    if goal in s.openSet {
      var i :| 0 <= i < |s.openSet| && s.openSet[i] == goal;
      SubsetCard(s.closedSet + {goal}, gr.nodes);
    }
  }

  /** With the frontier empty, every neighbour of a closed node is closed:
      the goal, which is never closed, cannot be reached from start. */
  lemma ExhaustedMeansUnreachable<N(!new)>(gr: Graph<N>, start: N, goal: N, s: SearchState<N>)
    requires WellFormed(gr, goal) && Inv(gr, start, goal, s) && |s.openSet| == 0
    ensures !Reachable(gr, goal, start, goal)
    ensures forall n :: Reachable(gr, goal, start, n) ==> n in s.closedSet
  {
    assert ClosedUnderNeighbors(gr, goal, s.closedSet);
    assert start in s.closedSet;
    Unreachable(gr, goal, s.closedSet, start, goal);
    forall n | Reachable(gr, goal, start, n) ensures n in s.closedSet {
      var w :| IsWalk(gr, goal, w) && |w| > 0 && w[0] == start && w[|w| - 1] == n;
      WalkStaysInside(gr, goal, s.closedSet, w);
    }
  }

  /** Predecessor links point to closed nodes and each closed node was closed
      after its predecessor, so the links form no cycle. */
  lemma InvAcyclic<N(!new)>(gr: Graph<N>, start: N, goal: N, s: SearchState<N>)
    requires WellFormed(gr, goal) && Inv(gr, start, goal, s)
    ensures Acyclic(s.cameFrom)
  {
    var rank :| ClosingOrder(s, rank);
    LinksAcyclic(gr, start, goal, s, rank);
  }

  lemma LinksAcyclic<N(!new)>(gr: Graph<N>, start: N, goal: N, s: SearchState<N>, rank: map<N, nat>)
    requires WellFormed(gr, goal) && LinksSound(gr, start, goal, s) && ClosingOrder(s, rank)
    ensures Acyclic(s.cameFrom)
  {
    var height := map n | n in s.gScoreMap :: if n in rank then rank[n] else |s.closedSet|;
    forall n | n in s.cameFrom
      ensures n in height && s.cameFrom[n] in height && height[s.cameFrom[n]] < height[n]
    {
      assert LinkOk(gr, goal, s, n);
    }
    assert RankedBy(s.cameFrom, height);
  }

  /** The cost of each prefix of the reconstructed path is the g-score of its
      last node. */
  lemma {:induction false} PrefixCost<N(!new)>(gr: Graph<N>, start: N, goal: N, s: SearchState<N>, path: seq<N>, k: nat)
    requires WellFormed(gr, goal) && LinksSound(gr, start, goal, s)
    requires |path| > 0 && path[0] == start && k < |path|
    requires forall i :: 0 < i < |path| ==> path[i] in s.cameFrom && s.cameFrom[path[i]] == path[i - 1]
    ensures IsWalk(gr, goal, path[..k + 1])
    ensures path[k] in s.gScoreMap && PathCost(gr, goal, path[..k + 1]) == s.gScoreMap[path[k]]
    decreases k
  {
    if k > 0 {
      PrefixCost(gr, start, goal, s, path, k - 1);
      assert LinkOk(gr, goal, s, path[k]);
      PathCostSnoc(gr, goal, path[..k], path[k]);
      assert path[..k] + [path[k]] == path[..k + 1];
    }
  }

  /** When the goal is popped, the path rebuilt from the predecessor links is a
      walk from start to the goal through closed nodes whose cost is g(goal). */
  lemma GoalPath<N(!new)>(gr: Graph<N>, start: N, goal: N, s: SearchState<N>)
    requires WellFormed(gr, goal) && Inv(gr, start, goal, s)
    requires |s.openSet| > 0 && s.openSet[0] == goal
    ensures Acyclic(s.cameFrom)
    ensures var path := PathTo(s.cameFrom, goal);
      && path[0] == start && path[|path| - 1] == goal
      && IsWalk(gr, goal, path)
      && goal in s.gScoreMap && PathCost(gr, goal, path) == s.gScoreMap[goal]
      && (forall i :: 0 <= i < |path| - 1 ==> path[i] in s.closedSet)
  {
    InvAcyclic(gr, start, goal, s);
    assert goal in Elems(s.openSet);
    RebuiltPath(gr, start, goal, s, PathTo(s.cameFrom, goal));
  }

  /** A chain of links from a node without a predecessor to the goal starts at
      start, runs through closed nodes and costs g(goal). */
  lemma RebuiltPath<N(!new)>(gr: Graph<N>, start: N, goal: N, s: SearchState<N>, path: seq<N>)
    requires WellFormed(gr, goal) && LinksSound(gr, start, goal, s) && goal in s.gScoreMap
    requires |path| > 0 && path[|path| - 1] == goal && path[0] !in s.cameFrom
    requires forall i :: 0 < i < |path| ==> path[i] in s.cameFrom && s.cameFrom[path[i]] == path[i - 1]
    ensures path[0] == start && IsWalk(gr, goal, path)
    ensures PathCost(gr, goal, path) == s.gScoreMap[goal]
    ensures forall i :: 0 <= i < |path| - 1 ==> path[i] in s.closedSet
  {
    forall i | 0 <= i < |path| - 1 ensures path[i] in s.closedSet && path[i] in s.gScoreMap {
      assert LinkOk(gr, goal, s, path[i + 1]);
    }
    assert path[0] in s.gScoreMap;
    PrefixCost(gr, start, goal, s, path, |path| - 1);
    assert path[..|path|] == path;
  }

  /** After an expansion the frontier is in ascending heuristic order: the
      f-score it is sorted by is estimateCost(n, goal) for every node on it. */
  lemma FrontierByHeuristic<N(!new)>(gr: Graph<N>, start: N, goal: N, s: SearchState<N>)
    requires WellFormed(gr, goal) && Inv(gr, start, goal, s)
    requires |s.openSet| > 0 && s.openSet[0] != goal
    ensures s.openSet[0] in gr.nodes
    ensures var t := Expand(gr, goal, Popped(s), s.openSet[0]);
      && (forall n :: n in t.openSet ==> FScore(t, n) == gr.estimateCost(n, goal))
      && SortedBy(t.openSet, n => gr.estimateCost(n, goal))
  {
    IterationKeepsInv(gr, start, goal, s);
    var c := s.openSet[0];
    var t := Expand(gr, goal, Popped(s), c);
    ExpandOrders(gr, goal, Popped(s), c);
    assert ScoresTracked(gr, goal, t);
    SortedByHeuristic(gr, goal, t);
  }

  /** A frontier sorted by stored f-score, where every stored f-score is the
      heuristic, is sorted by the heuristic. */
  lemma SortedByHeuristic<N(!new)>(gr: Graph<N>, goal: N, t: SearchState<N>)
    requires ScoresTracked(gr, goal, t) && SortedBy(t.openSet, ByFScore(t.fScoreMap))
    ensures forall n :: n in t.openSet ==> FScore(t, n) == gr.estimateCost(n, goal)
    ensures SortedBy(t.openSet, n => gr.estimateCost(n, goal))
  {
    forall n | n in t.openSet ensures FScore(t, n) == gr.estimateCost(n, goal) {
      assert n in Elems(t.openSet);
    }
    forall i, j | 0 <= i < j < |t.openSet|
      ensures gr.estimateCost(t.openSet[i], goal) <= gr.estimateCost(t.openSet[j], goal)
    {
      assert ByFScore(t.fScoreMap)(t.openSet[i]) <= ByFScore(t.fScoreMap)(t.openSet[j]);
      assert t.openSet[i] in t.openSet && t.openSet[j] in t.openSet;
    }
  }

  /** The fscore/gscore defaults are never read for a node the search has
      reached: every node on the frontier or closed has both scores recorded,
      start's g-score is 0 and every f-score is the heuristic estimate. */
  lemma ReachedNodesAreScored<N(!new)>(gr: Graph<N>, start: N, goal: N, s: SearchState<N>)
    requires WellFormed(gr, goal) && Inv(gr, start, goal, s)
    ensures forall n :: n in s.openSet || n in s.closedSet ==>
      && n in s.gScoreMap && GScore(s, n) == s.gScoreMap[n]
      && n in s.fScoreMap && FScore(s, n) == gr.estimateCost(n, goal)
    ensures GScore(s, start) == 0
  {
    forall n | n in s.openSet || n in s.closedSet
      ensures n in s.gScoreMap && n in s.fScoreMap
    {
      assert n in s.openSet ==> n in Elems(s.openSet);
    }
  }

  /** Each node is on the frontier at most once and never while closed, so the
      frontier and the closed nodes together fit in the universe. */
  lemma FrontierOnce<N(!new)>(gr: Graph<N>, start: N, goal: N, s: SearchState<N>)
    requires WellFormed(gr, goal) && Inv(gr, start, goal, s)
    ensures forall i, j :: 0 <= i < j < |s.openSet| ==> s.openSet[i] != s.openSet[j]
    ensures forall i :: 0 <= i < |s.openSet| ==> s.openSet[i] in gr.nodes && s.openSet[i] !in s.closedSet
    ensures |s.openSet| + |s.closedSet| <= |gr.nodes|
  {
    assert Distinct(s.openSet);
    DistinctCard(s.openSet);
    var open := Elems(s.openSet);
    assert open !! s.closedSet;
    assert open + s.closedSet <= gr.nodes;
    SubsetCard(open + s.closedSet, gr.nodes);
  }

  /** A sequence without repeats has as many elements as its length. */
  lemma {:induction false} DistinctCard<N(!new)>(q: seq<N>)
    requires Distinct(q)
    ensures |Elems(q)| == |q|
    decreases |q|
  {
    if q != [] {
      assert Distinct(q[1..]);
      DistinctCard(q[1..]);
      assert Elems(q) == Elems(q[1..]) + {q[0]};
      assert q[0] !in Elems(q[1..]);
    }
  }
}
