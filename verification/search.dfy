/** findPath itself (lines 32-70): the while loop as a recursive function over
    the search state, and the outcomes a call can have. */
module AStarSearch {
  import opened Graphs
  import opened Backpointers
  import opened AStar
  import opened SearchInvariant

  /** The hook lets every iteration run. */
  ghost predicate AlwaysContinue<N(!new)>(hook: Hook<N>) {
    forall q, i :: hook(q, i)
  }

  /** What a returned path promises: a walk from start to the goal whose cost
      is the goal's g-score, all of whose nodes but the goal are closed. */
  ghost predicate PathFound<N(!new)>(gr: Graph<N>, start: N, goal: N, r: SearchResult<N>)
    requires WellFormed(gr, goal)
  {
    && |r.path| > 0 && r.path[0] == start && r.path[|r.path| - 1] == goal
    && IsWalk(gr, goal, r.path)
    && goal in r.final.gScoreMap && PathCost(gr, goal, r.path) == r.final.gScoreMap[goal]
    && (forall i :: 0 <= i < |r.path| - 1 ==> r.path[i] in r.final.closedSet)
  }

  /** The loop from state s, which has run `iteration` bodies so far: stop with
      [] when the frontier is empty or the hook declines, return the rebuilt
      path when the popped node is the goal, and otherwise expand it. */
  function Run<N(==,!new)>(gr: Graph<N>, start: N, goal: N, hook: Hook<N>, s: SearchState<N>, iteration: nat): (r: SearchResult<N>)
    requires WellFormed(gr, goal) && Inv(gr, start, goal, s) && iteration == |s.closedSet|
    ensures r.path != [] ==> PathFound(gr, start, goal, r)
    ensures r.iterations <= |gr.nodes|
    ensures AlwaysContinue(hook) ==> (r.path != [] <==> Reachable(gr, goal, start, goal))
    ensures r.path == [] ==> |r.final.openSet| == 0 || !hook(r.final.openSet, r.iterations)
    ensures |s.openSet| == 0 || !hook(s.openSet, iteration) ==> r == SearchResult([], s, iteration)
    ensures AlwaysContinue(hook) && r.path == [] ==>
      forall n :: Reachable(gr, goal, start, n) ==> n in r.final.closedSet
    ensures forall n :: n in s.closedSet ==> StaysFrozen(s, r, n)
    decreases |gr.nodes - s.closedSet|
  {
    if |s.openSet| == 0 || !hook(s.openSet, iteration) then
      StopOutcome(gr, start, goal, hook, s, iteration);
      FrozenAtEnd(gr, start, goal, s, SearchResult([], s, iteration));
      SearchResult([], s, iteration)
    else if s.openSet[0] == goal then
      GoalOutcome(gr, start, goal, s, iteration);
      FrozenAtEnd(gr, start, goal, s, SearchResult(PathTo(s.cameFrom, goal), Popped(s), iteration + 1));
      SearchResult(PathTo(s.cameFrom, goal), Popped(s), iteration + 1)
    else
      ExpandOutcome(gr, start, goal, s);
      var r := Run(gr, start, goal, hook, Expand(gr, goal, Popped(s), s.openSet[0]), iteration + 1);
      FrozenThroughExpand(gr, start, goal, s, r);
      r
  }

  /** The loop stops without the goal: no more iterations than nodes, and, if
      the hook never declines, the frontier ran empty, every node reachable
      from start is closed and the goal is unreachable. */
  lemma StopOutcome<N(!new)>(gr: Graph<N>, start: N, goal: N, hook: Hook<N>, s: SearchState<N>, iteration: nat)
    requires WellFormed(gr, goal) && Inv(gr, start, goal, s) && iteration == |s.closedSet|
    requires |s.openSet| == 0 || !hook(s.openSet, iteration)
    ensures iteration <= |gr.nodes|
    ensures AlwaysContinue(hook) ==> !Reachable(gr, goal, start, goal)
    ensures AlwaysContinue(hook) ==> forall n :: Reachable(gr, goal, start, n) ==> n in s.closedSet
  {
    ClosedBound(gr, start, goal, s);
    if AlwaysContinue(hook) {
      ExhaustedMeansUnreachable(gr, start, goal, s);
    }
  }

  /** The goal is popped: the rebuilt path is what PathFound promises. */
  lemma GoalOutcome<N(!new)>(gr: Graph<N>, start: N, goal: N, s: SearchState<N>, iteration: nat)
    requires WellFormed(gr, goal) && Inv(gr, start, goal, s) && iteration == |s.closedSet|
    requires |s.openSet| > 0 && s.openSet[0] == goal
    ensures Acyclic(s.cameFrom)
    ensures iteration + 1 <= |gr.nodes|
    ensures PathFound(gr, start, goal, SearchResult(PathTo(s.cameFrom, goal), Popped(s), iteration + 1))
    ensures Reachable(gr, goal, start, goal)
  {
    ClosedBound(gr, start, goal, s);
    GoalPath(gr, start, goal, s);
    var path := PathTo(s.cameFrom, goal);
    assert IsWalk(gr, goal, path) && |path| > 0 && path[0] == start && path[|path| - 1] == goal;
  }

  /** The popped node is not the goal: the loop continues from the expanded
      state, which keeps the invariant and has one more closed node. */
  lemma ExpandOutcome<N(!new)>(gr: Graph<N>, start: N, goal: N, s: SearchState<N>)
    requires WellFormed(gr, goal) && Inv(gr, start, goal, s)
    requires |s.openSet| > 0 && s.openSet[0] != goal
    ensures s.openSet[0] in gr.nodes
    ensures Inv(gr, start, goal, Expand(gr, goal, Popped(s), s.openSet[0]))
    ensures |Expand(gr, goal, Popped(s), s.openSet[0]).closedSet| == |s.closedSet| + 1
    ensures |gr.nodes - Expand(gr, goal, Popped(s), s.openSet[0]).closedSet| < |gr.nodes - s.closedSet|
  {
    IterationKeepsInv(gr, start, goal, s);
    CloseOneMore(gr.nodes, s.closedSet, s.openSet[0]);
  }

  lemma CloseOneMore<T>(nodes: set<T>, closed: set<T>, c: T)
    requires c in nodes && c !in closed
    ensures |closed + {c}| == |closed| + 1
    ensures |nodes - (closed + {c})| < |nodes - closed|
  {
    var rest := nodes - (closed + {c});
    assert nodes - closed == rest + {c} && c !in rest;
  }

  /** n is closed in the result, off its frontier, and has the entries it had in s. */
  ghost predicate StaysFrozen<N(!new)>(s: SearchState<N>, r: SearchResult<N>, n: N) {
    n in r.final.closedSet && n !in r.final.openSet && Untouched(s, r.final, n)
  }

  /** Stopping or popping the goal changes no closed node. */
  lemma FrozenAtEnd<N(!new)>(gr: Graph<N>, start: N, goal: N, s: SearchState<N>, r: SearchResult<N>)
    requires WellFormed(gr, goal) && Inv(gr, start, goal, s)
    requires r.final == s || (|s.openSet| > 0 && r.final == Popped(s))
    ensures forall n :: n in s.closedSet ==> StaysFrozen(s, r, n)
  {
    assert FrontierShape(gr, start, goal, s);
    forall n | n in s.closedSet ensures StaysFrozen(s, r, n) {
      assert n !in s.openSet;
      if r.final != s {
        assert n !in s.openSet[1..];
      }
    }
  }

  /** What holds of the closed nodes from the expanded state on holds from s. */
  lemma FrozenThroughExpand<N(!new)>(gr: Graph<N>, start: N, goal: N, s: SearchState<N>, r: SearchResult<N>)
    requires WellFormed(gr, goal) && Inv(gr, start, goal, s)
    requires |s.openSet| > 0 && s.openSet[0] != goal && s.openSet[0] in gr.nodes
    requires var t := Expand(gr, goal, Popped(s), s.openSet[0]);
      forall n :: n in t.closedSet ==> StaysFrozen(t, r, n)
    ensures forall n :: n in s.closedSet ==> StaysFrozen(s, r, n)
  {
    var t := Expand(gr, goal, Popped(s), s.openSet[0]);
    forall n | n in s.closedSet ensures StaysFrozen(s, r, n) {
      assert n in Popped(s).closedSet;
      assert Untouched(Popped(s), t, n);
      assert StaysFrozen(t, r, n);
    }
  }

  /** A whole call on fresh state. */
  function Search<N(==,!new)>(gr: Graph<N>, start: N, goal: N, hook: Hook<N>): (r: SearchResult<N>)
    requires WellFormed(gr, goal) && start in gr.nodes
    ensures r.path != [] ==> PathFound(gr, start, goal, r)
    ensures r.iterations <= |gr.nodes|
    ensures AlwaysContinue(hook) ==> (r.path != [] <==> Reachable(gr, goal, start, goal))
    ensures r.path == [] ==> |r.final.openSet| == 0 || !hook(r.final.openSet, r.iterations)
    ensures AlwaysContinue(hook) && r.path == [] ==>
      forall n :: Reachable(gr, goal, start, n) ==> n in r.final.closedSet
  {
    InitInv(gr, start, goal);
    Run(gr, start, goal, hook, Init(gr, start, goal), 0)
  }

  /** findPath(start, goal, {onOpenSet: hook}). */
  function FindPath<N(==,!new)>(gr: Graph<N>, start: N, goal: N, hook: Hook<N>): (path: seq<N>)
    requires WellFormed(gr, goal) && start in gr.nodes
    ensures !hook([start], 0) ==> path == []
    ensures start == goal && hook([start], 0) ==> path == [start]
    ensures path != [] ==>
      && path[0] == start && path[|path| - 1] == goal && IsWalk(gr, goal, path)
      && goal in Search(gr, start, goal, hook).final.gScoreMap
      && PathCost(gr, goal, path) == Search(gr, start, goal, hook).final.gScoreMap[goal]
    ensures AlwaysContinue(hook) ==> (path != [] <==> Reachable(gr, goal, start, goal))
  {
    FirstIteration(gr, start, goal, hook);
    Search(gr, start, goal, hook).path
  }

  /** The first iteration sees the frontier [start]: the hook declining it
      gives [], and a start that is the goal is returned alone. */
  lemma FirstIteration<N(!new)>(gr: Graph<N>, start: N, goal: N, hook: Hook<N>)
    requires WellFormed(gr, goal) && start in gr.nodes
    ensures !hook([start], 0) ==> Search(gr, start, goal, hook).path == []
    ensures start == goal && hook([start], 0) ==> Search(gr, start, goal, hook).path == [start]
  {
    InitInv(gr, start, goal);
    var s := Init(gr, start, goal);
    if start == goal && hook([start], 0) {
      assert RankedBy(s.cameFrom, map[]);
      assert BackChain(s.cameFrom, start) == [start];
    }
  }

  /** Iteration i of the loop takes state s to state t by expanding a node
      that is not the goal. */
  ghost predicate Advances<N(!new)>(gr: Graph<N>, goal: N, hook: Hook<N>, s: SearchState<N>, i: nat, t: SearchState<N>)
    requires WellFormed(gr, goal)
  {
    && |s.openSet| > 0 && hook(s.openSet, i) && s.openSet[0] != goal
    && s.openSet[0] in gr.nodes && Expand(gr, goal, Popped(s), s.openSet[0]) == t
  }

  /** Every step of the trace from index j on advances. */
  ghost predicate AdvancesFrom<N(!new)>(gr: Graph<N>, goal: N, hook: Hook<N>, states: seq<SearchState<N>>, j: nat)
    requires WellFormed(gr, goal)
    decreases |states| - j
  {
    j + 1 >= |states| ||
    (Advances(gr, goal, hook, states[j], j, states[j + 1]) && AdvancesFrom(gr, goal, hook, states, j + 1))
  }

  /** The loop stops from state s at iteration i: the frontier is empty or the
      hook declines it. */
  predicate Stops<N>(hook: Hook<N>, s: SearchState<N>, i: nat) {
    |s.openSet| == 0 || !hook(s.openSet, i)
  }

  /** The loop pops the goal from state s at iteration i. */
  ghost predicate PopsGoal<N(!new)>(goal: N, hook: Hook<N>, s: SearchState<N>, i: nat) {
    |s.openSet| > 0 && hook(s.openSet, i) && s.openSet[0] == goal
  }

  /** Following a trace of states from index j: if each step advances and the
      last state pops the goal, the loop returns the path rebuilt from the last
      state's links after |states| iterations. */
  lemma {:induction false} RunFollowsTrace<N(!new)>(gr: Graph<N>, start: N, goal: N, hook: Hook<N>, states: seq<SearchState<N>>, j: nat)
    requires WellFormed(gr, goal) && j < |states|
    requires Inv(gr, start, goal, states[j]) && |states[j].closedSet| == j
    requires AdvancesFrom(gr, goal, hook, states, j)
    requires PopsGoal(goal, hook, states[|states| - 1], |states| - 1)
    ensures Acyclic(states[|states| - 1].cameFrom)
    ensures Run(gr, start, goal, hook, states[j], j) ==
      SearchResult(PathTo(states[|states| - 1].cameFrom, goal), Popped(states[|states| - 1]), |states|)
    decreases |states| - j
  {
    if j == |states| - 1 {
      GoalOutcome(gr, start, goal, states[j], j);
    } else {
      TraceStep(gr, start, goal, hook, states, j);
      RunFollowsTrace(gr, start, goal, hook, states, j + 1);
    }
  }

  /** One advancing step of a trace keeps the invariant and rewrites Run. */
  lemma TraceStep<N(!new)>(gr: Graph<N>, start: N, goal: N, hook: Hook<N>, states: seq<SearchState<N>>, j: nat)
    requires WellFormed(gr, goal) && j + 1 < |states|
    requires Inv(gr, start, goal, states[j]) && |states[j].closedSet| == j
    requires AdvancesFrom(gr, goal, hook, states, j)
    ensures Inv(gr, start, goal, states[j + 1]) && |states[j + 1].closedSet| == j + 1
    ensures AdvancesFrom(gr, goal, hook, states, j + 1)
    ensures Run(gr, start, goal, hook, states[j], j) == Run(gr, start, goal, hook, states[j + 1], j + 1)
  {
    assert Advances(gr, goal, hook, states[j], j, states[j + 1]);
    ExpandOutcome(gr, start, goal, states[j]);
  }

  /** A whole search that follows a trace from the initial state to a state
      that pops the goal. */
  lemma SearchFollowsTrace<N(!new)>(gr: Graph<N>, start: N, goal: N, hook: Hook<N>, states: seq<SearchState<N>>)
    requires WellFormed(gr, goal) && start in gr.nodes
    requires |states| > 0 && states[0] == Init(gr, start, goal)
    requires AdvancesFrom(gr, goal, hook, states, 0)
    requires PopsGoal(goal, hook, states[|states| - 1], |states| - 1)
    ensures Acyclic(states[|states| - 1].cameFrom)
    ensures Search(gr, start, goal, hook) ==
      SearchResult(PathTo(states[|states| - 1].cameFrom, goal), Popped(states[|states| - 1]), |states|)
  {
    InitInv(gr, start, goal);
    RunFollowsTrace(gr, start, goal, hook, states, 0);
  }

  /** Following a trace of states from index j: if each step advances and the
      hook declines (or the frontier is empty) at the last state, the loop
      returns [] and leaves that state as it is. */
  lemma {:induction false} RunStopsOnTrace<N(!new)>(gr: Graph<N>, start: N, goal: N, hook: Hook<N>, states: seq<SearchState<N>>, j: nat)
    requires WellFormed(gr, goal) && j < |states|
    requires Inv(gr, start, goal, states[j]) && |states[j].closedSet| == j
    requires AdvancesFrom(gr, goal, hook, states, j)
    requires Stops(hook, states[|states| - 1], |states| - 1)
    ensures Run(gr, start, goal, hook, states[j], j) == SearchResult([], states[|states| - 1], |states| - 1)
    decreases |states| - j
  {
    if j < |states| - 1 {
      TraceStep(gr, start, goal, hook, states, j);
      RunStopsOnTrace(gr, start, goal, hook, states, j + 1);
    }
  }

  /** A whole search whose hook declines after a run of expansions returns []:
      cancelling at any iteration before the goal is popped gives no path. */
  lemma SearchStopsOnTrace<N(!new)>(gr: Graph<N>, start: N, goal: N, hook: Hook<N>, states: seq<SearchState<N>>)
    requires WellFormed(gr, goal) && start in gr.nodes
    requires |states| > 0 && states[0] == Init(gr, start, goal)
    requires AdvancesFrom(gr, goal, hook, states, 0)
    requires Stops(hook, states[|states| - 1], |states| - 1)
    ensures Search(gr, start, goal, hook) == SearchResult([], states[|states| - 1], |states| - 1)
    ensures FindPath(gr, start, goal, hook) == []
  {
    InitInv(gr, start, goal);
    RunStopsOnTrace(gr, start, goal, hook, states, 0);
  }
}
