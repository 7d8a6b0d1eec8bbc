/** AStarGraph.findPath: best-first search from start to goal over a
    caller-supplied Graph. The frontier `openSet` is re-sorted after every
    expansion by the stored f-score, which the repository sets to
    estimateCost(node, goal) alone; g-scores are relaxed on strict improvement
    and closed nodes are final. One call on fresh state is modelled. */
module AStar {
  import opened Graphs
  import opened StableSort
  import opened Backpointers

  /** The per-call state: the frontier array, the nodes whose openMap entry is
      true, the nodes whose closedSet entry is true, the two score maps and the
      predecessor map. */
  datatype SearchState<N> = SearchState(
    openSet: seq<N>,
    openMap: set<N>,
    closedSet: set<N>,
    gScoreMap: map<N, int>,
    fScoreMap: map<N, int>,
    cameFrom: map<N, N>)

  /** What a call returns (`path`), with the state it leaves behind and the
      number of loop bodies it ran. */
  datatype SearchResult<N> = SearchResult(path: seq<N>, final: SearchState<N>, iterations: nat)

  /** The caller's onOpenSet hook, given the frontier and the iteration index. */
  type Hook<!N> = (seq<N>, nat) -> bool

  /** The fscore/gscore accessors: a node without a score reads as MAX_SAFE_INTEGER. */
  function Score<N(==,!new)>(scores: map<N, int>, n: N): int {
    if n in scores then scores[n] else MaxSafeInteger
  }

  /** Reading a score after `map.set`: the key just set reads back its value,
      every other key reads as before, and nothing reads as unscored once set. */
  lemma ScoreAfterSet<N(!new)>(scores: map<N, int>, k: N, v: int, n: N)
    ensures Score(scores[k := v], k) == v
    ensures n != k ==> Score(scores[k := v], n) == Score(scores, n)
    ensures Score(map[], n) == MaxSafeInteger
  {
  }

  function FScore<N(==,!new)>(s: SearchState<N>, n: N): int { Score(s.fScoreMap, n) }

  function GScore<N(==,!new)>(s: SearchState<N>, n: N): int { Score(s.gScoreMap, n) }

  /** The sort key of the frontier re-sort. */
  function ByFScore<N(==,!new)>(scores: map<N, int>): N -> int {
    n => Score(scores, n)
  }

  ghost function Elems<N(!new)>(q: seq<N>): set<N> {
    set n | n in q
  }

  ghost predicate Distinct<N(!new)>(q: seq<N>) {
    forall i, j :: 0 <= i < j < |q| ==> q[i] != q[j]
  }

  /** Node n has the same g, f and cameFrom entries (or lack of them) in s and t. */
  ghost predicate Untouched<N(!new)>(s: SearchState<N>, t: SearchState<N>, n: N) {
    && (n in s.gScoreMap <==> n in t.gScoreMap) && (n in s.gScoreMap ==> s.gScoreMap[n] == t.gScoreMap[n])
    && (n in s.fScoreMap <==> n in t.fScoreMap) && (n in s.fScoreMap ==> s.fScoreMap[n] == t.fScoreMap[n])
    && (n in s.cameFrom <==> n in t.cameFrom) && (n in s.cameFrom ==> s.cameFrom[n] == t.cameFrom[n])
  }

  /** Node n's entries in t are those recorded when reached from current. */
  ghost predicate Relaxed<N(!new)>(gr: Graph<N>, goal: N, t: SearchState<N>, current: N, n: N)
    requires WellFormed(gr, goal)
  {
    && IsEdge(gr, goal, current, n)
    && n in t.cameFrom && t.cameFrom[n] == current
    && n in t.gScoreMap && t.gScoreMap[n] == GScore(t, current) + gr.cost(current, n)
    && n in t.fScoreMap && t.fScoreMap[n] == gr.estimateCost(n, goal)
  }

  /** The state before the first iteration (lines 33-36). The openMap entry of
      start is never set, so start is in the frontier but not in openMap. */
  function Init<N(!new)>(gr: Graph<N>, start: N, goal: N): (s: SearchState<N>)
    ensures s.openSet == [start] && s.closedSet == {} && start !in s.openMap
    ensures GScore(s, start) == 0 && FScore(s, start) == gr.estimateCost(start, goal)
    ensures forall n :: n != start ==>
      GScore(s, n) == MaxSafeInteger && FScore(s, n) == MaxSafeInteger && n !in s.openMap
    ensures forall n :: n !in s.cameFrom
  {
    SearchState([start], {}, {}, map[start := 0], map[start := gr.estimateCost(start, goal)], map[])
  }

  /** Lines 61-63: record current as the predecessor of neighbor with score g. */
  function Record<N(!new)>(gr: Graph<N>, goal: N, s: SearchState<N>, neighbor: N, current: N, g: int): (t: SearchState<N>)
    ensures t.openSet == s.openSet && t.openMap == s.openMap && t.closedSet == s.closedSet
    ensures neighbor in t.cameFrom && t.cameFrom[neighbor] == current
    ensures GScore(t, neighbor) == g && FScore(t, neighbor) == gr.estimateCost(neighbor, goal)
    ensures forall n :: n != neighbor ==> Untouched(s, t, n)
  {
    s.(cameFrom := s.cameFrom[neighbor := current],
       gScoreMap := s.gScoreMap[neighbor := g],
       fScoreMap := s.fScoreMap[neighbor := gr.estimateCost(neighbor, goal)])
  }

  /** Line 53: the g-score neighbor would get through current. */
  function Tentative<N(==,!new)>(gr: Graph<N>, goal: N, s: SearchState<N>, current: N, neighbor: N): int
    requires WellFormed(gr, goal) && IsEdge(gr, goal, current, neighbor)
  {
    GScore(s, current) + gr.cost(current, neighbor)
  }

  /** Relaxing neighbor from current must change it: it is not closed, and it
      is either not yet open or its tentative g-score is strictly smaller. */
  ghost predicate Improves<N(!new)>(gr: Graph<N>, goal: N, s: SearchState<N>, current: N, neighbor: N)
    requires WellFormed(gr, goal) && IsEdge(gr, goal, current, neighbor)
  {
    && neighbor !in s.closedSet
    && (neighbor !in s.openMap || Tentative(gr, goal, s, current, neighbor) < GScore(s, neighbor))
  }

  /** One neighbour of the expanded node (lines 52-64). */
  function RelaxNeighbor<N(==,!new)>(gr: Graph<N>, goal: N, s: SearchState<N>, current: N, neighbor: N): (t: SearchState<N>)
    requires WellFormed(gr, goal) && IsEdge(gr, goal, current, neighbor)
    ensures t.closedSet == s.closedSet
    ensures neighbor in s.closedSet ==> t == s
    ensures forall n :: n != neighbor ==> Untouched(s, t, n)
    ensures !Untouched(s, t, neighbor) ==>
      (&& neighbor !in s.closedSet
       && neighbor in t.cameFrom && neighbor in t.gScoreMap && neighbor in t.fScoreMap
       && t.cameFrom[neighbor] == current
       && t.gScoreMap[neighbor] == GScore(s, current) + gr.cost(current, neighbor)
       && t.fScoreMap[neighbor] == gr.estimateCost(neighbor, goal))
    ensures neighbor in s.openMap && neighbor !in s.closedSet ==>
      t.openSet == s.openSet && t.openMap == s.openMap
      && (Untouched(s, t, neighbor) <==> GScore(s, current) + gr.cost(current, neighbor) >= GScore(s, neighbor))
    ensures neighbor !in s.openMap && neighbor !in s.closedSet ==>
      t.openSet == s.openSet + [neighbor] && t.openMap == s.openMap + {neighbor}
      && neighbor in t.gScoreMap && neighbor in t.fScoreMap && neighbor in t.cameFrom
    ensures Improves(gr, goal, s, current, neighbor) ==>
      && neighbor in t.cameFrom && neighbor in t.gScoreMap && neighbor in t.fScoreMap
      && t.cameFrom[neighbor] == current
      && t.gScoreMap[neighbor] == GScore(s, current) + gr.cost(current, neighbor)
      && t.fScoreMap[neighbor] == gr.estimateCost(neighbor, goal)
    ensures neighbor !in s.closedSet ==> GScore(t, neighbor) <= Tentative(gr, goal, s, current, neighbor)
  {
    if neighbor in s.closedSet then s
    else
      var tentative := GScore(s, current) + gr.cost(current, neighbor);
      if neighbor !in s.openMap then
        Record(gr, goal, s.(openMap := s.openMap + {neighbor}, openSet := s.openSet + [neighbor]), neighbor, current, tentative)
      else if tentative >= GScore(s, neighbor) then s
      else Record(gr, goal, s, neighbor, current, tentative)
  }

  /** The nodes of ns that a pass over ns pushes onto the frontier, given the
      nodes already open or closed: each one not yet known, once, in order. */
  function NewNeighbors<N(==,!new)>(known: set<N>, ns: seq<N>): (r: seq<N>)
    ensures forall i :: 0 <= i < |r| ==> r[i] in ns && r[i] !in known
    ensures Distinct(r)
    decreases |ns|
  {
    if ns == [] then []
    else if ns[0] in known then NewNeighbors(known, ns[1..])
    else [ns[0]] + NewNeighbors(known + {ns[0]}, ns[1..])
  }

  /** The forEach over the neighbours of the expanded node (line 51), which is
      already closed. */
  function RelaxAll<N(==,!new)>(gr: Graph<N>, goal: N, s: SearchState<N>, current: N, ns: seq<N>): (t: SearchState<N>)
    requires WellFormed(gr, goal) && current in s.closedSet
    requires forall m :: m in ns ==> IsEdge(gr, goal, current, m)
    ensures t.closedSet == s.closedSet
    ensures t.openSet == s.openSet + NewNeighbors(s.openMap + s.closedSet, ns)
    ensures t.openMap == s.openMap + Elems(NewNeighbors(s.openMap + s.closedSet, ns))
    ensures forall n :: n in NewNeighbors(s.openMap + s.closedSet, ns) ==> n in t.gScoreMap
    ensures forall n :: n in s.closedSet || n !in ns ==> Untouched(s, t, n)
    ensures forall n :: !Untouched(s, t, n) ==> Relaxed(gr, goal, t, current, n)
    ensures forall n :: n in s.openMap && n in s.gScoreMap ==>
      n in t.gScoreMap && (t.gScoreMap[n] < s.gScoreMap[n] || Untouched(s, t, n))
    ensures forall m :: m in ns && Improves(gr, goal, s, current, m) ==> Relaxed(gr, goal, t, current, m)
    ensures forall m :: m in ns && m !in s.closedSet ==> GScore(t, m) <= Tentative(gr, goal, s, current, m)
    decreases |ns|
  {
    if ns == [] then s
    else
      var s1 := RelaxNeighbor(gr, goal, s, current, ns[0]);
      var t := RelaxAll(gr, goal, s1, current, ns[1..]);
      RelaxAllStepFrontier(s, s1, t, ns);
      RelaxAllStepScores(gr, goal, s, s1, t, current, ns);
      RelaxAllStepPushed(gr, goal, s, s1, t, current, ns);
      RelaxAllStepImproves(gr, goal, s, s1, t, current, ns);
      t
  }

  /** The improvement part of RelaxAll's contract carries over one more
      neighbour: an improving neighbour ends up relaxed from current, and no
      neighbour ends above its tentative score. */
  lemma RelaxAllStepImproves<N(!new)>(gr: Graph<N>, goal: N, s: SearchState<N>, s1: SearchState<N>, t: SearchState<N>, current: N, ns: seq<N>)
    requires WellFormed(gr, goal) && current in s.closedSet && |ns| > 0
    requires forall m :: m in ns ==> IsEdge(gr, goal, current, m)
    requires s1 == RelaxNeighbor(gr, goal, s, current, ns[0])
    requires t.closedSet == s1.closedSet
    requires forall n :: n in s1.closedSet || n !in ns[1..] ==> Untouched(s1, t, n)
    requires forall n :: !Untouched(s1, t, n) ==> Relaxed(gr, goal, t, current, n)
    requires forall m :: m in ns[1..] && Improves(gr, goal, s1, current, m) ==> Relaxed(gr, goal, t, current, m)
    requires forall m :: m in ns[1..] && m !in s1.closedSet ==> GScore(t, m) <= Tentative(gr, goal, s1, current, m)
    ensures forall m :: m in ns && Improves(gr, goal, s, current, m) ==> Relaxed(gr, goal, t, current, m)
    ensures forall m :: m in ns && m !in s.closedSet ==> GScore(t, m) <= Tentative(gr, goal, s, current, m)
  {
    var x := ns[0];
    assert Untouched(s, s1, current) && Untouched(s1, t, current);
    assert GScore(s1, current) == GScore(s, current) == GScore(t, current);
    assert forall m :: m in ns ==> Tentative(gr, goal, s1, current, m) == Tentative(gr, goal, s, current, m);
    assert ns == [x] + ns[1..];
    forall m | m in ns && Improves(gr, goal, s, current, m) ensures Relaxed(gr, goal, t, current, m) {
      if m == x {
        if Untouched(s1, t, m) {
          assert Relaxed(gr, goal, t, current, m);
        }
      } else {
        assert m in ns[1..] && Untouched(s, s1, m);
        assert m in s1.openMap <==> m in s.openMap;
        assert Improves(gr, goal, s1, current, m);
      }
    }
    forall m | m in ns && m !in s.closedSet ensures GScore(t, m) <= Tentative(gr, goal, s, current, m) {
      if m !in ns[1..] {
        assert m == x && Untouched(s1, t, m);
      }
    }
  }

  /** The frontier part of RelaxAll's contract carries over one more neighbour. */
  lemma RelaxAllStepFrontier<N(!new)>(s: SearchState<N>, s1: SearchState<N>, t: SearchState<N>, ns: seq<N>)
    requires |ns| > 0 && s1.closedSet == s.closedSet
    requires ns[0] in s.openMap + s.closedSet ==> s1.openSet == s.openSet && s1.openMap == s.openMap
    requires ns[0] !in s.openMap + s.closedSet ==> s1.openSet == s.openSet + [ns[0]] && s1.openMap == s.openMap + {ns[0]}
    requires t.openSet == s1.openSet + NewNeighbors(s1.openMap + s1.closedSet, ns[1..])
    requires t.openMap == s1.openMap + Elems(NewNeighbors(s1.openMap + s1.closedSet, ns[1..]))
    ensures t.openSet == s.openSet + NewNeighbors(s.openMap + s.closedSet, ns)
    ensures t.openMap == s.openMap + Elems(NewNeighbors(s.openMap + s.closedSet, ns))
  {
    var known := s.openMap + s.closedSet;
    var pushed := if ns[0] in known then [] else [ns[0]];
    var known' := if ns[0] in known then known else known + {ns[0]};
    NewNeighborsStep(known, ns);
    assert s1.openMap + s1.closedSet == known';
    assert s1.openSet == s.openSet + pushed;
    SeqAssoc(s.openSet, pushed, NewNeighbors(known', ns[1..]));
    ElemsAppend(pushed, NewNeighbors(known', ns[1..]));
    assert s1.openMap == s.openMap + Elems(pushed);
  }

  lemma ElemsAppend<N(!new)>(a: seq<N>, b: seq<N>)
    ensures Elems(a + b) == Elems(a) + Elems(b)
  {
  }

  /** Every node of ns that is not yet known is pushed. */
  lemma {:induction false} NewNeighborsComplete<N(!new)>(known: set<N>, ns: seq<N>, m: N)
    requires m in ns && m !in known
    ensures m in NewNeighbors(known, ns)
    decreases |ns|
  {
    if ns[0] != m {
      NewNeighborsComplete(if ns[0] in known then known else known + {ns[0]}, ns[1..], m);
    }
  }

  /** Pushed nodes have a g-score once RelaxAll has run. */
  lemma RelaxAllStepPushed<N(!new)>(gr: Graph<N>, goal: N, s: SearchState<N>, s1: SearchState<N>, t: SearchState<N>, current: N, ns: seq<N>)
    requires WellFormed(gr, goal) && current in s.closedSet && |ns| > 0
    requires forall m :: m in ns ==> IsEdge(gr, goal, current, m)
    requires s1 == RelaxNeighbor(gr, goal, s, current, ns[0])
    requires forall n :: n in NewNeighbors(s1.openMap + s1.closedSet, ns[1..]) ==> n in t.gScoreMap
    requires forall n :: n in s1.openMap && n in s1.gScoreMap ==> n in t.gScoreMap
    ensures forall n :: n in NewNeighbors(s.openMap + s.closedSet, ns) ==> n in t.gScoreMap
  {
    var known := s.openMap + s.closedSet;
    NewNeighborsStep(known, ns);
    if ns[0] !in known {
      assert s1.openMap + s1.closedSet == known + {ns[0]};
    } else {
      assert s1.openMap + s1.closedSet == known;
    }
  }

  lemma NewNeighborsStep<N(!new)>(known: set<N>, ns: seq<N>)
    requires |ns| > 0
    ensures NewNeighbors(known, ns) ==
      (if ns[0] in known then [] else [ns[0]]) + NewNeighbors(if ns[0] in known then known else known + {ns[0]}, ns[1..])
  {
    if ns[0] in known {
      assert [] + NewNeighbors(known, ns[1..]) == NewNeighbors(known, ns[1..]);
    }
  }

  lemma SeqAssoc<T>(a: seq<T>, b: seq<T>, c: seq<T>)
    ensures (a + b) + c == a + (b + c)
  {
  }

  /** The score part of RelaxAll's contract carries over one more neighbour. */
  lemma RelaxAllStepScores<N(!new)>(gr: Graph<N>, goal: N, s: SearchState<N>, s1: SearchState<N>, t: SearchState<N>, current: N, ns: seq<N>)
    requires WellFormed(gr, goal) && current in s.closedSet && |ns| > 0
    requires forall m :: m in ns ==> IsEdge(gr, goal, current, m)
    requires s1 == RelaxNeighbor(gr, goal, s, current, ns[0])
    requires t.closedSet == s1.closedSet
    requires forall n :: n in s1.closedSet || n !in ns[1..] ==> Untouched(s1, t, n)
    requires forall n :: !Untouched(s1, t, n) ==> Relaxed(gr, goal, t, current, n)
    requires forall n :: n in s1.openMap && n in s1.gScoreMap ==>
      n in t.gScoreMap && (t.gScoreMap[n] < s1.gScoreMap[n] || Untouched(s1, t, n))
    ensures forall n :: n in s.closedSet || n !in ns ==> Untouched(s, t, n)
    ensures forall n :: !Untouched(s, t, n) ==> Relaxed(gr, goal, t, current, n)
    ensures forall n :: n in s.openMap && n in s.gScoreMap ==>
      n in t.gScoreMap && (t.gScoreMap[n] < s.gScoreMap[n] || Untouched(s, t, n))
  {
    assert ns == [ns[0]] + ns[1..];
    assert Untouched(s1, t, current);
    forall n | !Untouched(s, t, n) ensures Relaxed(gr, goal, t, current, n) {
      if Untouched(s1, t, n) {
        assert n == ns[0];
      }
    }
  }

  /** The loop body after the goal test (lines 50-67): close current, relax its
      neighbours, re-sort the frontier by f-score. */
  function Expand<N(==,!new)>(gr: Graph<N>, goal: N, s: SearchState<N>, current: N): (t: SearchState<N>)
    requires WellFormed(gr, goal) && current in gr.nodes
    ensures t.closedSet == s.closedSet + {current}
    ensures t.openMap == s.openMap + Elems(NewNeighbors(s.openMap + s.closedSet + {current}, gr.neighborsOf(current, goal)))
    ensures forall n :: n in NewNeighbors(s.openMap + s.closedSet + {current}, gr.neighborsOf(current, goal)) ==> n in t.gScoreMap
    ensures forall n :: n in s.closedSet || n == current ==> Untouched(s, t, n)
    ensures forall n :: !Untouched(s, t, n) ==> Relaxed(gr, goal, t, current, n)
    ensures forall n :: n in s.openMap && n in s.gScoreMap ==>
      n in t.gScoreMap && (t.gScoreMap[n] < s.gScoreMap[n] || Untouched(s, t, n))
    ensures forall m :: m in gr.neighborsOf(current, goal) && m != current && Improves(gr, goal, s, current, m) ==>
      Relaxed(gr, goal, t, current, m)
    ensures forall m :: m in gr.neighborsOf(current, goal) && m != current && m !in s.closedSet ==>
      GScore(t, m) <= Tentative(gr, goal, s, current, m)
  {
    var closed := s.(closedSet := s.closedSet + {current});
    var relaxed := RelaxAll(gr, goal, closed, current, gr.neighborsOf(current, goal));
    assert closed.openMap + closed.closedSet == s.openMap + s.closedSet + {current};
    var t := relaxed.(openSet := Sort(relaxed.openSet, ByFScore(relaxed.fScoreMap)));
    assert forall n :: Untouched(closed, relaxed, n) == Untouched(s, t, n);
    assert forall n :: Relaxed(gr, goal, relaxed, current, n) == Relaxed(gr, goal, t, current, n);
    ImprovesOnceClosed(gr, goal, s, current);
    t
  }

  /** Closing current (line 50) before the forEach changes no neighbour's
      prospect of improving, other than current's own. */
  lemma ImprovesOnceClosed<N(!new)>(gr: Graph<N>, goal: N, s: SearchState<N>, current: N)
    requires WellFormed(gr, goal) && current in gr.nodes
    ensures forall m :: m in gr.neighborsOf(current, goal) && m != current ==>
      Improves(gr, goal, s, current, m) == Improves(gr, goal, s.(closedSet := s.closedSet + {current}), current, m)
  {
  }

  /** Line 67: after an expansion the frontier is the previous frontier followed
      by the newly pushed neighbours, re-sorted stably by f-score: the same
      elements, in f-score order, equal scores in their earlier order. */
  lemma ExpandOrders<N(!new)>(gr: Graph<N>, goal: N, s: SearchState<N>, current: N)
    requires WellFormed(gr, goal) && current in gr.nodes
    ensures var t := Expand(gr, goal, s, current);
      var before := s.openSet + NewNeighbors(s.openMap + s.closedSet + {current}, gr.neighborsOf(current, goal));
      && multiset(t.openSet) == multiset(before)
      && SortedBy(t.openSet, ByFScore(t.fScoreMap))
      && forall k :: KeyFilter(t.openSet, ByFScore(t.fScoreMap), k) == KeyFilter(before, ByFScore(t.fScoreMap), k)
  {
    var closed := s.(closedSet := s.closedSet + {current});
    var relaxed := RelaxAll(gr, goal, closed, current, gr.neighborsOf(current, goal));
    assert closed.openMap + closed.closedSet == s.openMap + s.closedSet + {current};
    SortIsStable(relaxed.openSet, ByFScore(relaxed.fScoreMap));
    SortPermutesAndOrders(relaxed.openSet, ByFScore(relaxed.fScoreMap));
  }

  /** Lines 45-46: shift the head of the frontier and clear its openMap entry. */
  function Popped<N(==,!new)>(s: SearchState<N>): (t: SearchState<N>)
    requires |s.openSet| > 0
    ensures [s.openSet[0]] + t.openSet == s.openSet
    ensures s.openSet[0] !in t.openMap
    ensures forall n :: n != s.openSet[0] ==> (n in t.openMap <==> n in s.openMap)
    ensures t.closedSet == s.closedSet
    ensures t.gScoreMap == s.gScoreMap && t.fScoreMap == s.fScoreMap && t.cameFrom == s.cameFrom
  {
    s.(openSet := s.openSet[1..], openMap := s.openMap - {s.openSet[0]})
  }
}
