/** The repository's own test (lines 86-159): eight named nodes with weighted
    edges, a heuristic that is the direct edge cost when there is one and
    otherwise the cheapest outgoing edge, and a hook that always continues.
    The search from START to END returns [START, B, B1, END]. */
module Scenario {
  import opened Graphs
  import opened StableSort
  import opened Backpointers
  import opened AStar
  import opened SearchInvariant
  import opened AStarSearch

  datatype TestNode = START | A | B | C | A1 | A2 | B1 | END

  /** Object.keys(nodeCosts[n]): the row's keys in insertion order. Keys of
      an object are unique, as neighborsOf must return unique nodes, and no
      row lists its own node. */
  function Neighbors(n: TestNode): (r: seq<TestNode>)
    ensures forall i, j :: 0 <= i < j < |r| ==> r[i] != r[j]
    ensures n !in r
  {
    match n
    case START => [A, B, C]
    case A => [A1, A2]
    case A1 => [END]
    case A2 => [END]
    case B => [B1]
    case B1 => [END]
    case C => []
    case END => []
  }

  /** nodeCosts[a][b], with 0 for a missing entry (undefined is falsy). The
      table is consistent: a pair has a cost exactly when b is listed among
      a's neighbours, and every listed cost is positive. */
  function EdgeCost(a: TestNode, b: TestNode): (c: int)
    ensures c >= 0
    ensures c != 0 <==> b in Neighbors(a)
  {
    match (a, b)
    case (START, A) => 1
    case (START, B) => 3
    case (START, C) => 2
    case (A, A1) => 1
    case (A, A2) => 2
    case (A1, END) => 100
    case (A2, END) => 50
    case (B, B1) => 3
    case (B1, END) => 3
    case _ => 0
  }

  /** The reduce of mathjs.min over the row of a, starting from acc: the
      least of acc and the costs of the named edges. */
  function MinOver(a: TestNode, names: seq<TestNode>, acc: int): (m: int)
    ensures m <= acc
    ensures forall i :: 0 <= i < |names| ==> m <= EdgeCost(a, names[i])
    ensures m == acc || exists i :: 0 <= i < |names| && m == EdgeCost(a, names[i])
    decreases |names|
  {
    if names == [] then acc
    else MinOver(a, names[1..], if EdgeCost(a, names[0]) < acc then EdgeCost(a, names[0]) else acc)
  }

  /** estimateCost: `neighborCost || minNeighborCost()`. The direct edge cost
      when b is a neighbour of a; otherwise the cheapest edge out of a, or
      MAX_SAFE_INTEGER when a has none. */
  function Estimate(a: TestNode, b: TestNode): (e: int)
    ensures b in Neighbors(a) ==> e == EdgeCost(a, b)
    ensures b !in Neighbors(a) ==> forall c :: c in Neighbors(a) ==> e <= EdgeCost(a, c)
    ensures b !in Neighbors(a) ==> e == MaxSafeInteger || exists c :: c in Neighbors(a) && e == EdgeCost(a, c)
  {
    if EdgeCost(a, b) != 0 then EdgeCost(a, b) else MinOver(a, Neighbors(a), MaxSafeInteger)
  }

  /** cost throws for a pair that is not an edge; here it is undefined there. */
  const TestGraph: Graph<TestNode> := Graph(
    {START, A, B, C, A1, A2, B1, END},
    (n, goal) => Neighbors(n),
    (a, b) requires EdgeCost(a, b) != 0 => EdgeCost(a, b),
    Estimate)

  /** The test's hook logs nothing and always continues. */
  const Continue: Hook<TestNode> := (q, i) => true

  /** Every listed neighbour is a node with a defined cost. */
  lemma TestGraphWellFormed()
    ensures WellFormed(TestGraph, END)
  {
  }

  /** The test's checks on the policy itself (lines 143-146). */
  lemma PolicyValues()
    ensures TestGraph.estimateCost(START, END) == 1
    ensures TestGraph.estimateCost(START, B) == 3
    ensures TestGraph.cost.requires(A2, END) && TestGraph.cost(A2, END) == 50
    ensures TestGraph.estimateCost(A2, END) == 50
  {
  }

  // The states at the head of each loop iteration, and the intermediate
  // states of each expansion.

  const G0: map<TestNode, int> := map[START := 0]
  const F0: map<TestNode, int> := map[START := 1]
  const S0: SearchState<TestNode> := SearchState([START], {}, {}, G0, F0, map[])
  const C0: SearchState<TestNode> := SearchState([], {}, {START}, G0, F0, map[])
  const R0a: SearchState<TestNode> := SearchState([A], {A}, {START}, G0[A := 1], F0[A := 1], map[A := START])
  const R0b: SearchState<TestNode> := SearchState([A, B], {A, B}, {START}, G0[A := 1][B := 3], F0[A := 1][B := 3], map[A := START][B := START])

  const G1: map<TestNode, int> := G0[A := 1][B := 3][C := 2]
  const F1: map<TestNode, int> := F0[A := 1][B := 3][C := MaxSafeInteger]
  const P1: map<TestNode, TestNode> := map[A := START][B := START][C := START]
  const S1: SearchState<TestNode> := SearchState([A, B, C], {A, B, C}, {START}, G1, F1, P1)
  const C1: SearchState<TestNode> := SearchState([B, C], {B, C}, {START, A}, G1, F1, P1)
  const R1a: SearchState<TestNode> := SearchState([B, C, A1], {B, C, A1}, {START, A}, G1[A1 := 2], F1[A1 := 100], P1[A1 := A])

  const G2: map<TestNode, int> := G1[A1 := 2][A2 := 3]
  const F2: map<TestNode, int> := F1[A1 := 100][A2 := 50]
  const P2: map<TestNode, TestNode> := P1[A1 := A][A2 := A]
  const R1b: SearchState<TestNode> := SearchState([B, C, A1, A2], {B, C, A1, A2}, {START, A}, G2, F2, P2)
  const S2: SearchState<TestNode> := SearchState([B, A2, A1, C], {B, C, A1, A2}, {START, A}, G2, F2, P2)
  const C2: SearchState<TestNode> := SearchState([A2, A1, C], {C, A1, A2}, {START, A, B}, G2, F2, P2)

  const G3: map<TestNode, int> := G2[B1 := 6]
  const F3: map<TestNode, int> := F2[B1 := 3]
  const P3: map<TestNode, TestNode> := P2[B1 := B]
  const R2: SearchState<TestNode> := SearchState([A2, A1, C, B1], {C, A1, A2, B1}, {START, A, B}, G3, F3, P3)
  const S3: SearchState<TestNode> := SearchState([B1, A2, A1, C], {C, A1, A2, B1}, {START, A, B}, G3, F3, P3)
  const C3: SearchState<TestNode> := SearchState([A2, A1, C], {C, A1, A2}, {START, A, B, B1}, G3, F3, P3)

  const G4: map<TestNode, int> := G3[END := 9]
  const F4: map<TestNode, int> := F3[END := MaxSafeInteger]
  const P4: map<TestNode, TestNode> := P3[END := B1]
  const S4: SearchState<TestNode> := SearchState([A2, A1, C, END], {C, A1, A2, END}, {START, A, B, B1}, G4, F4, P4)
  const S5: SearchState<TestNode> := SearchState([A1, C, END], {C, A1, END}, {START, A, B, B1, A2}, G4, F4, P4)
  const S6: SearchState<TestNode> := SearchState([C, END], {C, END}, {START, A, B, B1, A2, A1}, G4, F4, P4)
  const S7: SearchState<TestNode> := SearchState([END], {END}, {START, A, B, B1, A2, A1, C}, G4, F4, P4)

  // One lemma per relaxation, sort and loop iteration keeps each proof small.

  /** A neighbour that is neither closed nor open is pushed and recorded. */
  lemma RelaxPushes<N(!new)>(gr: Graph<N>, goal: N, s: SearchState<N>, current: N, neighbor: N, g: int)
    requires WellFormed(gr, goal) && IsEdge(gr, goal, current, neighbor)
    requires neighbor !in s.closedSet && neighbor !in s.openMap
    requires g == GScore(s, current) + gr.cost(current, neighbor)
    ensures RelaxNeighbor(gr, goal, s, current, neighbor) ==
      Record(gr, goal, s.(openMap := s.openMap + {neighbor}, openSet := s.openSet + [neighbor]), neighbor, current, g)
  {
  }

  /** An open neighbour whose score would not improve is left alone. */
  lemma RelaxKeeps<N(!new)>(gr: Graph<N>, goal: N, s: SearchState<N>, current: N, neighbor: N)
    requires WellFormed(gr, goal) && IsEdge(gr, goal, current, neighbor)
    requires neighbor !in s.closedSet && neighbor in s.openMap
    requires GScore(s, current) + gr.cost(current, neighbor) >= GScore(s, neighbor)
    ensures RelaxNeighbor(gr, goal, s, current, neighbor) == s
  {
  }

  lemma Relax0a()
    requires WellFormed(TestGraph, END)
    ensures IsEdge(TestGraph, END, START, A)
    ensures RelaxNeighbor(TestGraph, END, C0, START, A) == R0a
  {
    assert A in TestGraph.neighborsOf(START, END);
    RelaxPushes(TestGraph, END, C0, START, A, 1);
    assert Estimate(A, END) == 1;
  }

  lemma Relax0b()
    requires WellFormed(TestGraph, END)
    ensures IsEdge(TestGraph, END, START, B)
    ensures RelaxNeighbor(TestGraph, END, R0a, START, B) == R0b
  {
    assert B in TestGraph.neighborsOf(START, END);
    RelaxPushes(TestGraph, END, R0a, START, B, 3);
    assert Estimate(B, END) == 3;
  }

  lemma Relax0c()
    requires WellFormed(TestGraph, END)
    ensures IsEdge(TestGraph, END, START, C)
    ensures RelaxNeighbor(TestGraph, END, R0b, START, C) == S1
  {
    assert C in TestGraph.neighborsOf(START, END);
    RelaxPushes(TestGraph, END, R0b, START, C, 2);
    assert Estimate(C, END) == MaxSafeInteger;
  }

  lemma Relax1a()
    requires WellFormed(TestGraph, END)
    ensures IsEdge(TestGraph, END, A, A1)
    ensures RelaxNeighbor(TestGraph, END, C1, A, A1) == R1a
  {
    assert A1 in TestGraph.neighborsOf(A, END);
    RelaxPushes(TestGraph, END, C1, A, A1, 2);
    assert Estimate(A1, END) == 100;
  }

  lemma Relax1b()
    requires WellFormed(TestGraph, END)
    ensures IsEdge(TestGraph, END, A, A2)
    ensures RelaxNeighbor(TestGraph, END, R1a, A, A2) == R1b
  {
    assert A2 in TestGraph.neighborsOf(A, END);
    RelaxPushes(TestGraph, END, R1a, A, A2, 3);
    assert Estimate(A2, END) == 50;
  }

  lemma Relax2()
    requires WellFormed(TestGraph, END)
    ensures IsEdge(TestGraph, END, B, B1)
    ensures RelaxNeighbor(TestGraph, END, C2, B, B1) == R2
  {
    assert B1 in TestGraph.neighborsOf(B, END);
    RelaxPushes(TestGraph, END, C2, B, B1, 6);
    assert Estimate(B1, END) == 3;
  }

  lemma Relax3()
    requires WellFormed(TestGraph, END)
    ensures IsEdge(TestGraph, END, B1, END)
    ensures RelaxNeighbor(TestGraph, END, C3, B1, END) == S4
  {
    assert END in TestGraph.neighborsOf(B1, END);
    RelaxPushes(TestGraph, END, C3, B1, END, 9);
    assert Estimate(END, END) == MaxSafeInteger;
  }

  lemma Relax4()
    requires WellFormed(TestGraph, END)
    ensures IsEdge(TestGraph, END, A2, END)
    ensures RelaxNeighbor(TestGraph, END, S5, A2, END) == S5
  {
    assert END in TestGraph.neighborsOf(A2, END);
    RelaxKeeps(TestGraph, END, S5, A2, END);
  }

  lemma Relax5()
    requires WellFormed(TestGraph, END)
    ensures IsEdge(TestGraph, END, A1, END)
    ensures RelaxNeighbor(TestGraph, END, S6, A1, END) == S6
  {
    assert END in TestGraph.neighborsOf(A1, END);
    RelaxKeeps(TestGraph, END, S6, A1, END);
  }

  lemma Sort0()
    ensures Sort([A, B, C], ByFScore(F1)) == [A, B, C]
  {
    var key := ByFScore(F1);
    assert key(A) == 1 && key(B) == 3 && key(C) == MaxSafeInteger;
    assert Sort([C], key) == [C];
    assert Insert(B, [C], key) == [B, C];
    assert Sort([B, C], key) == [B, C];
    assert Insert(A, [B, C], key) == [A, B, C];
    assert Sort([A, B, C], key) == [A, B, C];
  }

  lemma Sort1()
    ensures Sort([B, C, A1, A2], ByFScore(F2)) == [B, A2, A1, C]
  {
    var key := ByFScore(F2);
    assert key(B) == 3 && key(C) == MaxSafeInteger && key(A1) == 100 && key(A2) == 50;
    assert Sort([A2], key) == [A2];
    assert Insert(A1, [A2], key) == [A2, A1];
    assert Sort([A1, A2], key) == [A2, A1];
    assert Insert(C, [A1], key) == [A1, C];
    assert Insert(C, [A2, A1], key) == [A2, A1, C];
    assert Sort([C, A1, A2], key) == [A2, A1, C];
    assert Insert(B, [A2, A1, C], key) == [B, A2, A1, C];
    assert Sort([B, C, A1, A2], key) == [B, A2, A1, C];
  }

  lemma Sort2()
    ensures Sort([A2, A1, C, B1], ByFScore(F3)) == [B1, A2, A1, C]
  {
    var key := ByFScore(F3);
    assert key(A2) == 50 && key(A1) == 100 && key(C) == MaxSafeInteger && key(B1) == 3;
    Sort2Tail();
    assert [A2, A1, C, B1][1..] == [A1, C, B1];
    assert Insert(A2, [A1, C], key) == [A2, A1, C];
    assert Insert(A2, [B1, A1, C], key) == [B1, A2, A1, C];
  }

  lemma Sort2Tail()
    ensures Sort([A1, C, B1], ByFScore(F3)) == [B1, A1, C]
  {
    var key := ByFScore(F3);
    assert key(A1) == 100 && key(C) == MaxSafeInteger && key(B1) == 3;
    assert Sort([B1], key) == [B1];
    assert Insert(C, [B1], key) == [B1, C];
    assert Sort([C, B1], key) == [B1, C];
    assert Insert(A1, [C], key) == [A1, C];
    assert Insert(A1, [B1, C], key) == [B1, A1, C];
  }

  lemma Sort3()
    ensures Sort([A2, A1, C, END], ByFScore(F4)) == [A2, A1, C, END]
  {
    var key := ByFScore(F4);
    assert key(A2) == 50 && key(A1) == 100 && key(C) == MaxSafeInteger && key(END) == MaxSafeInteger;
    assert Sort([END], key) == [END];
    assert Insert(C, [END], key) == [C, END];
    assert Sort([C, END], key) == [C, END];
    assert Insert(A1, [C, END], key) == [A1, C, END];
    assert Sort([A1, C, END], key) == [A1, C, END];
    assert Insert(A2, [A1, C, END], key) == [A2, A1, C, END];
    assert Sort([A2, A1, C, END], key) == [A2, A1, C, END];
  }

  lemma Sort4()
    ensures Sort([A1, C, END], ByFScore(F4)) == [A1, C, END]
  {
    var key := ByFScore(F4);
    assert key(A1) == 100 && key(C) == MaxSafeInteger && key(END) == MaxSafeInteger;
    assert Sort([END], key) == [END];
    assert Insert(C, [END], key) == [C, END];
    assert Sort([C, END], key) == [C, END];
    assert Insert(A1, [C, END], key) == [A1, C, END];
    assert Sort([A1, C, END], key) == [A1, C, END];
  }

  lemma Sort5()
    ensures Sort([C, END], ByFScore(F4)) == [C, END]
  {
    var key := ByFScore(F4);
    assert key(C) == MaxSafeInteger && key(END) == MaxSafeInteger;
    assert Sort([END], key) == [END];
    assert Insert(C, [END], key) == [C, END];
    assert Sort([C, END], key) == [C, END];
  }

  /** Expand is RelaxAll over the neighbour list of the closed node, then the re-sort. */
  lemma ExpandUnfold<N(!new)>(gr: Graph<N>, goal: N, s: SearchState<N>, current: N)
    requires WellFormed(gr, goal) && current in gr.nodes
    ensures
      var closed := s.(closedSet := s.closedSet + {current});
      var relaxed := RelaxAll(gr, goal, closed, current, gr.neighborsOf(current, goal));
      Expand(gr, goal, s, current) == relaxed.(openSet := Sort(relaxed.openSet, ByFScore(relaxed.fScoreMap)))
  {
  }

  /** RelaxAll handles the first neighbour, then the rest. */
  lemma RelaxAllCons<N(!new)>(gr: Graph<N>, goal: N, s: SearchState<N>, current: N, ns: seq<N>)
    requires WellFormed(gr, goal) && current in s.closedSet && ns != []
    requires forall m :: m in ns ==> IsEdge(gr, goal, current, m)
    ensures RelaxAll(gr, goal, s, current, ns) == RelaxAll(gr, goal, RelaxNeighbor(gr, goal, s, current, ns[0]), current, ns[1..])
  {
  }

  lemma RelaxAll0From2()
    requires WellFormed(TestGraph, END)
    ensures RelaxAll(TestGraph, END, R0b, START, [C]) == S1
  {
    Relax0c();
    RelaxAllCons(TestGraph, END, R0b, START, [C]);
    assert RelaxAll(TestGraph, END, S1, START, []) == S1;
  }

  lemma RelaxAll0From1()
    requires WellFormed(TestGraph, END)
    ensures RelaxAll(TestGraph, END, R0a, START, [B, C]) == S1
  {
    Relax0b();
    RelaxAllCons(TestGraph, END, R0a, START, [B, C]);
    RelaxAll0From2();
  }

  lemma RelaxAll0()
    requires WellFormed(TestGraph, END)
    ensures RelaxAll(TestGraph, END, C0, START, [A, B, C]) == S1
  {
    Relax0a();
    RelaxAllCons(TestGraph, END, C0, START, [A, B, C]);
    RelaxAll0From1();
  }

  lemma RelaxAll1From1()
    requires WellFormed(TestGraph, END)
    ensures RelaxAll(TestGraph, END, R1a, A, [A2]) == R1b
  {
    Relax1b();
    RelaxAllCons(TestGraph, END, R1a, A, [A2]);
    assert RelaxAll(TestGraph, END, R1b, A, []) == R1b;
  }

  lemma RelaxAll1()
    requires WellFormed(TestGraph, END)
    ensures RelaxAll(TestGraph, END, C1, A, [A1, A2]) == R1b
  {
    Relax1a();
    RelaxAllCons(TestGraph, END, C1, A, [A1, A2]);
    RelaxAll1From1();
  }

  lemma RelaxAll2()
    requires WellFormed(TestGraph, END)
    ensures RelaxAll(TestGraph, END, C2, B, [B1]) == R2
  {
    Relax2();
    RelaxAllCons(TestGraph, END, C2, B, [B1]);
    assert RelaxAll(TestGraph, END, R2, B, []) == R2;
  }

  lemma RelaxAll3()
    requires WellFormed(TestGraph, END)
    ensures RelaxAll(TestGraph, END, C3, B1, [END]) == S4
  {
    Relax3();
    RelaxAllCons(TestGraph, END, C3, B1, [END]);
    assert RelaxAll(TestGraph, END, S4, B1, []) == S4;
  }

  lemma RelaxAll4()
    requires WellFormed(TestGraph, END)
    ensures RelaxAll(TestGraph, END, S5, A2, [END]) == S5
  {
    Relax4();
    RelaxAllCons(TestGraph, END, S5, A2, [END]);
    assert RelaxAll(TestGraph, END, S5, A2, []) == S5;
  }

  lemma RelaxAll5()
    requires WellFormed(TestGraph, END)
    ensures RelaxAll(TestGraph, END, S6, A1, [END]) == S6
  {
    Relax5();
    RelaxAllCons(TestGraph, END, S6, A1, [END]);
    assert RelaxAll(TestGraph, END, S6, A1, []) == S6;
  }

  lemma RelaxAll6()
    requires WellFormed(TestGraph, END)
    ensures RelaxAll(TestGraph, END, S7, C, []) == S7
  {
    assert RelaxAll(TestGraph, END, S7, C, []) == S7;
  }

  lemma Expand0()
    requires WellFormed(TestGraph, END)
    ensures START in TestGraph.nodes
    ensures Expand(TestGraph, END, Popped(S0), START) == S1
  {
    assert Popped(S0).(closedSet := Popped(S0).closedSet + {START}) == C0;
    assert TestGraph.neighborsOf(START, END) == [A, B, C];
    ExpandUnfold(TestGraph, END, Popped(S0), START);
    RelaxAll0();
    Sort0();
  }

  lemma Expand1()
    requires WellFormed(TestGraph, END)
    ensures A in TestGraph.nodes
    ensures Expand(TestGraph, END, Popped(S1), A) == S2
  {
    assert Popped(S1).(closedSet := Popped(S1).closedSet + {A}) == C1;
    assert TestGraph.neighborsOf(A, END) == [A1, A2];
    ExpandUnfold(TestGraph, END, Popped(S1), A);
    RelaxAll1();
    Sort1();
  }

  lemma Expand2()
    requires WellFormed(TestGraph, END)
    ensures B in TestGraph.nodes
    ensures Expand(TestGraph, END, Popped(S2), B) == S3
  {
    assert Popped(S2).(closedSet := Popped(S2).closedSet + {B}) == C2;
    assert TestGraph.neighborsOf(B, END) == [B1];
    ExpandUnfold(TestGraph, END, Popped(S2), B);
    RelaxAll2();
    Sort2();
  }

  lemma Expand3()
    requires WellFormed(TestGraph, END)
    ensures B1 in TestGraph.nodes
    ensures Expand(TestGraph, END, Popped(S3), B1) == S4
  {
    assert Popped(S3).(closedSet := Popped(S3).closedSet + {B1}) == C3;
    assert TestGraph.neighborsOf(B1, END) == [END];
    ExpandUnfold(TestGraph, END, Popped(S3), B1);
    RelaxAll3();
    Sort3();
  }

  lemma Expand4()
    requires WellFormed(TestGraph, END)
    ensures A2 in TestGraph.nodes
    ensures Expand(TestGraph, END, Popped(S4), A2) == S5
  {
    assert Popped(S4).(closedSet := Popped(S4).closedSet + {A2}) == S5;
    assert TestGraph.neighborsOf(A2, END) == [END];
    ExpandUnfold(TestGraph, END, Popped(S4), A2);
    RelaxAll4();
    Sort4();
  }

  lemma Expand5()
    requires WellFormed(TestGraph, END)
    ensures A1 in TestGraph.nodes
    ensures Expand(TestGraph, END, Popped(S5), A1) == S6
  {
    assert Popped(S5).(closedSet := Popped(S5).closedSet + {A1}) == S6;
    assert TestGraph.neighborsOf(A1, END) == [END];
    ExpandUnfold(TestGraph, END, Popped(S5), A1);
    RelaxAll5();
    Sort5();
  }

  lemma Expand6()
    requires WellFormed(TestGraph, END)
    ensures C in TestGraph.nodes
    ensures Expand(TestGraph, END, Popped(S6), C) == S7
  {
    assert Popped(S6).(closedSet := Popped(S6).closedSet + {C}) == S7;
    assert TestGraph.neighborsOf(C, END) == [];
    ExpandUnfold(TestGraph, END, Popped(S6), C);
    RelaxAll6();
  }

  lemma Advance0()
    requires WellFormed(TestGraph, END)
    ensures Advances(TestGraph, END, Continue, Trace[0], 0, Trace[1])
  {
    assert Trace[0] == S0 && Trace[1] == S1;
    Expand0();
  }

  lemma Advance1()
    requires WellFormed(TestGraph, END)
    ensures Advances(TestGraph, END, Continue, Trace[1], 1, Trace[2])
  {
    assert Trace[1] == S1 && Trace[2] == S2;
    Expand1();
  }

  lemma Advance2()
    requires WellFormed(TestGraph, END)
    ensures Advances(TestGraph, END, Continue, Trace[2], 2, Trace[3])
  {
    assert Trace[2] == S2 && Trace[3] == S3;
    Expand2();
  }

  lemma Advance3()
    requires WellFormed(TestGraph, END)
    ensures Advances(TestGraph, END, Continue, Trace[3], 3, Trace[4])
  {
    assert Trace[3] == S3 && Trace[4] == S4;
    Expand3();
  }

  lemma Advance4()
    requires WellFormed(TestGraph, END)
    ensures Advances(TestGraph, END, Continue, Trace[4], 4, Trace[5])
  {
    assert Trace[4] == S4 && Trace[5] == S5;
    Expand4();
  }

  lemma Advance5()
    requires WellFormed(TestGraph, END)
    ensures Advances(TestGraph, END, Continue, Trace[5], 5, Trace[6])
  {
    assert Trace[5] == S5 && Trace[6] == S6;
    Expand5();
  }

  lemma Advance6()
    requires WellFormed(TestGraph, END)
    ensures Advances(TestGraph, END, Continue, Trace[6], 6, Trace[7])
  {
    assert Trace[6] == S6 && Trace[7] == S7;
    Expand6();
  }

  /** Three links back from d reach a node without a predecessor. */
  lemma PathOfThreeLinks<N(!new)>(cameFrom: map<N, N>, a: N, b: N, c: N, d: N)
    requires Acyclic(cameFrom)
    requires d in cameFrom && cameFrom[d] == c && c in cameFrom && cameFrom[c] == b
    requires b in cameFrom && cameFrom[b] == a && a !in cameFrom
    ensures PathTo(cameFrom, d) == [a, b, c, d]
  {
    PathToRoot(cameFrom, a);
    PathToStep(cameFrom, b);
    assert PathTo(cameFrom, b) == [a, b];
    PathToStep(cameFrom, c);
    assert PathTo(cameFrom, c) == [a, b, c];
    PathToStep(cameFrom, d);
  }

  /** The final links lead back from END through B1 and B to START. */
  lemma FinalPath()
    requires Acyclic(P4)
    ensures PathTo(P4, END) == [START, B, B1, END]
  {
    assert P4[END] == B1 && P4[B1] == B && P4[B] == START && START !in P4;
    PathOfThreeLinks(P4, START, B, B1, END);
  }

  /** The head-of-loop states of the eight iterations. */
  const Trace: seq<SearchState<TestNode>> := [S0, S1, S2, S3, S4, S5, S6, S7]

  /** Each of the first seven iterations expands a node that is not END. */
  lemma TraceFrom7()
    requires WellFormed(TestGraph, END)
    ensures AdvancesFrom(TestGraph, END, Continue, Trace, 7)
  {
  }

  lemma TraceFrom6()
    requires WellFormed(TestGraph, END)
    ensures AdvancesFrom(TestGraph, END, Continue, Trace, 6)
  {
    Advance6();
    TraceFrom7();
  }

  lemma TraceFrom5()
    requires WellFormed(TestGraph, END)
    ensures AdvancesFrom(TestGraph, END, Continue, Trace, 5)
  {
    Advance5();
    TraceFrom6();
  }

  lemma TraceFrom4()
    requires WellFormed(TestGraph, END)
    ensures AdvancesFrom(TestGraph, END, Continue, Trace, 4)
  {
    Advance4();
    TraceFrom5();
  }

  lemma TraceFrom3()
    requires WellFormed(TestGraph, END)
    ensures AdvancesFrom(TestGraph, END, Continue, Trace, 3)
  {
    Advance3();
    TraceFrom4();
  }

  lemma TraceFrom2()
    requires WellFormed(TestGraph, END)
    ensures AdvancesFrom(TestGraph, END, Continue, Trace, 2)
  {
    Advance2();
    TraceFrom3();
  }

  lemma TraceFrom1()
    requires WellFormed(TestGraph, END)
    ensures AdvancesFrom(TestGraph, END, Continue, Trace, 1)
  {
    Advance1();
    TraceFrom2();
  }

  lemma TraceFrom0()
    requires WellFormed(TestGraph, END)
    ensures AdvancesFrom(TestGraph, END, Continue, Trace, 0)
  {
    Advance0();
    TraceFrom1();
  }

  /** The search follows the trace and pops END on the eighth iteration. */
  lemma SearchFollowsScenario()
    requires WellFormed(TestGraph, END)
    ensures Acyclic(Trace[7].cameFrom)
    ensures Search(TestGraph, START, END, Continue) == SearchResult(PathTo(Trace[7].cameFrom, END), Popped(Trace[7]), 8)
  {
    assert Trace[0] == Init(TestGraph, START, END);
    TraceFrom0();
    assert PopsGoal(END, Continue, Trace[7], 7);
    SearchFollowsTrace(TestGraph, START, END, Continue, Trace);
  }

  /** The search ends on the eighth iteration, popping END, with the path
      rebuilt from the final links. */
  lemma ScenarioSearch()
    requires WellFormed(TestGraph, END)
    ensures Search(TestGraph, START, END, Continue) == SearchResult([START, B, B1, END], Popped(S7), 8)
  {
    SearchFollowsScenario();
    assert Trace[7] == S7;
    FinalPath();
  }

  /** The search in the test graph from START to END returns START, B, B1, END
      after eight iterations. */
  lemma ScenarioPath()
    ensures WellFormed(TestGraph, END) && START in TestGraph.nodes
    ensures FindPath(TestGraph, START, END, Continue) == [START, B, B1, END]
    ensures Search(TestGraph, START, END, Continue).iterations == 8
  {
    TestGraphWellFormed();
    ScenarioSearch();
  }
}
