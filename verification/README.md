# AStarGraph.findPath in Dafny

This project models `AStarGraph.findPath`, the best-first graph search of
`src/astar/AStarGraph.js`, and proves what one call computes. A subclass
supplies the graph through three methods. `neighborsOf(node, goal)` lists the
successors of a node. `cost(a, b)` prices an edge. `estimateCost(node, goal)`
is the heuristic. The search behaves as follows:

- It keeps a frontier array `openSet`, starting as `[start]`.
- It keeps the flags `openMap` and `closedSet`, the scores `gScoreMap` and
  `fScoreMap`, and the predecessor map `cameFrom`.
- Each iteration first asks the caller's `onOpenSet` hook whether to go on.
- It then shifts the head of the frontier and returns `pathTo(goal)` if the
  head is the goal.
- Otherwise it closes the head and relaxes each of its neighbours that is not
  closed.
- A neighbour seen for the first time is pushed onto the frontier.
- An open neighbour is updated only when its g-score strictly improves.
- Finally the iteration re-sorts the frontier stably by f-score.

Modules, following the structure of the source:

- `Graphs`: the caller's policy (`neighborsOf`, `cost`, `estimateCost`) as a
  datatype of function values over a finite universe of nodes, plus walks,
  their costs and reachability. `cost` is a partial function defined only on
  edges, so every call the model makes to it carries a proof that the pair is
  an edge.
- `StableSort`: `Array.prototype.sort` with the f-score comparator, as a stable
  insertion sort. It proves that the result is the unique stable sort of its
  input.
- `Backpointers`: the `pathTo` closure, which follows `cameFrom` back to a node
  without a predecessor and reverses the walk.
- `AStar`: the fscore/gscore accessors, which default to
  `Number.MAX_SAFE_INTEGER`, and the neighbour relaxation, the forEach over
  neighbours and the expansion step.
- `SearchInvariant`: the loop invariant and the proof that every iteration
  keeps it.
- `AStarSearch`: the `while` loop as a recursive function, the whole call, and
  the outcomes a call can have.
- `Scenario`: the repository's own test graph, with proofs that the search
  returns `[START, B, B1, END]` after eight iterations and that the test's
  checks of the policy hold.

The stored f-score is `estimateCost(node, goal)` alone (lines 35 and 63), not
g + h. The search therefore orders the frontier by the heuristic only, and the
model follows the code in this. The repository's own description of the
algorithm as A* with f = g + h is not followed. Because of this, no optimality
of the returned path is claimed. What is proved is:

- the returned path is a walk from start to the goal;
- its summed edge cost is the goal's recorded g-score;
- it runs through closed nodes;
- with a hook that never declines, a path is returned exactly when the goal is
  reachable.

## Model

| member | source | states |
|---|---|---|
| `StableSort.SortPermutesAndOrders` | src/astar/AStarGraph.js:67 | The re-sort returns a rearrangement of the frontier (same multiset) in non-decreasing key order. |
| `StableSort.SortIsStable` | src/astar/AStarGraph.js:67 | For every key, the elements with that key appear in the sorted frontier in the same order as before the sort, as a stable `Array.prototype.sort` guarantees. |
| `StableSort.StableOrderIsUnique` | src/astar/AStarGraph.js:67 | Two sequences that are both key-sorted and agree on the order within every key class are equal. Any stable sort therefore yields exactly the model's result. |
| `Backpointers.BackChain` | src/astar/AStarGraph.js:38-41 | With acyclic links, the walk collected by the `while` loop starts at the node, steps to each node's predecessor, and stops at a node without a predecessor. |
| `Backpointers.PathTo` | src/astar/AStarGraph.js:37-43 | `pathTo(node)` ends at the node and starts at a node without a predecessor, and each later node's predecessor is the node just before it. |
| `Backpointers.PathToStep` | src/astar/AStarGraph.js:37-43 | The path to a node with a predecessor is the path to that predecessor followed by the node. |
| `AStar.ScoreAfterSet` | src/astar/AStarGraph.js:24-31 | The fscore/gscore accessors read back the value last set for a node, are unaffected by setting another node, and read `Number.MAX_SAFE_INTEGER` for a node never set. |
| `AStar.Init` | src/astar/AStarGraph.js:33-36 | Before the first iteration the frontier is `[start]` and nothing is closed or has a predecessor. g(start) is 0 and f(start) is estimateCost(start, goal). start is not marked open, since line 33 pushes it without setting `openMap`. Every other node reads `MAX_SAFE_INTEGER` for both scores. |
| `AStar.Popped` | src/astar/AStarGraph.js:45-46 | `shift` removes exactly the head: putting it back in front gives the old frontier. The head loses its open mark, every other open mark is kept, and closed nodes, scores and predecessors do not change. |
| `AStar.Record` | src/astar/AStarGraph.js:61-63 | Recording a neighbour sets its predecessor to current, its g-score to the given value and its f-score to estimateCost(neighbour, goal). No other node's entries change, and neither do the frontier or the flags. |
| `AStar.RelaxNeighbor` | src/astar/AStarGraph.js:52-64 | A closed neighbour leaves the state unchanged. Only the neighbour's entries can change, and a change records current as its predecessor, g(current) + cost as its g-score and estimateCost(neighbour, goal) as its f-score. An unseen neighbour is appended to the frontier and marked open. An open neighbour is left alone exactly when the tentative score is not strictly smaller than its g-score. A neighbour that is unseen, or whose tentative score is strictly smaller, gets exactly that score with current as predecessor. No non-closed neighbour ends above its tentative score. |
| `AStar.NewNeighbors` | src/astar/AStarGraph.js:54-56 | Each node the forEach pushes is a listed neighbour that was neither open nor closed, and it is pushed once. |
| `AStar.NewNeighborsComplete` | src/astar/AStarGraph.js:54-56 | Every listed neighbour that was neither open nor closed is pushed. |
| `AStar.RelaxAll` | src/astar/AStarGraph.js:51-66 | The forEach leaves the closed set alone. It extends the frontier by exactly the newly pushed neighbours, in listing order. It leaves closed nodes and non-neighbours untouched. Every entry it changes is an edge relaxation from current. It never raises the g-score of an open node. Every listed neighbour that is unseen, or open with a strictly smaller tentative score, ends relaxed from current with that score. No non-closed listed neighbour ends above its tentative score. |
| `AStar.Expand` | src/astar/AStarGraph.js:50-67 | An expansion adds exactly current to the closed set and never changes a closed node or current. Every entry it changes is an edge relaxation from current, and g-scores of open nodes only decrease. Each neighbour of current that is unseen, or open with a strictly smaller tentative score, is relaxed from current, and no non-closed neighbour ends above its tentative score. |
| `AStar.ExpandOrders` | src/astar/AStarGraph.js:67 | After an expansion the frontier is a permutation of the previous frontier followed by the new neighbours. It is sorted by f-score, and nodes with equal f-scores keep their previous order. |
| `SearchInvariant.InitInv` | src/astar/AStarGraph.js:33-36 | The state set up before the loop satisfies the loop invariant. |
| `SearchInvariant.IterationKeepsInv` | src/astar/AStarGraph.js:44-67 | An iteration that pops a node other than the goal keeps the invariant. The popped node is in the universe and not yet closed, and the closed set grows by exactly that node. |
| `SearchInvariant.ReachedNodesAreScored` | src/astar/AStarGraph.js:24-31 | The accessors' MAX_SAFE_INTEGER default is never read for a node on the frontier or closed. Such a node has a recorded g-score, and its f-score is its heuristic estimate. g(start) is 0. |
| `SearchInvariant.FrontierOnce` | src/astar/AStarGraph.js:50-56 | No node is on the frontier twice, no frontier node is closed, and frontier plus closed nodes fit in the universe. |
| `SearchInvariant.ClosedBound` | src/astar/AStarGraph.js:44-50 | There are never more closed nodes than the universe holds, and one fewer while the goal waits on the frontier. |
| `SearchInvariant.ExhaustedMeansUnreachable` | src/astar/AStarGraph.js:44-69 | If the frontier runs empty, every node reachable from start is closed, and the goal, never closed, cannot be reached from start. |
| `SearchInvariant.InvAcyclic` | src/astar/AStarGraph.js:37-43 | The predecessor links have no cycle, so the `pathTo` loop ends. |
| `SearchInvariant.RebuiltPath` | src/astar/AStarGraph.js:37-43 | A predecessor chain ending at the goal starts at start and is a walk through closed nodes. Its summed edge cost is g(goal). |
| `SearchInvariant.GoalPath` | src/astar/AStarGraph.js:47-48 | When the goal is popped, `pathTo(goal)` is a walk from start to the goal through closed nodes, and its cost is g(goal). |
| `SearchInvariant.FrontierByHeuristic` | src/astar/AStarGraph.js:63-67 | After an expansion, every frontier node's f-score is estimateCost(node, goal), and the frontier is ordered by that estimate. |
| `AStarSearch.StopOutcome` | src/astar/AStarGraph.js:44-69 | When the loop stops without the goal, it has run no more iterations than there are nodes. If the hook never declines, every node reachable from start is closed and the goal is unreachable. |
| `AStarSearch.GoalOutcome` | src/astar/AStarGraph.js:47-49 | Popping the goal returns a path with the promised properties, and the goal is reachable. |
| `AStarSearch.ExpandOutcome` | src/astar/AStarGraph.js:45-67 | An expansion keeps the invariant, closes one more node, and leaves fewer unclosed nodes in the universe. |
| `AStarSearch.Run` | src/astar/AStarGraph.js:44-69 | A returned path is a walk from start to the goal through closed nodes whose cost is g(goal). The loop runs no more times than there are nodes. With a hook that never declines, a path is returned iff the goal is reachable, and when none is returned every node reachable from start ends closed. `[]` is returned only when the frontier is empty or the hook declined. A loop that finds the frontier empty or the hook declining returns `[]` at once and leaves the state as it is. Closed nodes stay closed, off the frontier and unchanged. |
| `AStarSearch.Search` | src/astar/AStarGraph.js:32-69 | The same outcomes for a whole call from the initial state: a returned path is a start-to-goal walk costing g(goal), at most as many iterations as nodes, a path iff the goal is reachable under a never-declining hook, every reachable node closed when none is found, and `[]` only on an empty frontier or a declining hook. |
| `AStarSearch.FindPath` | src/astar/AStarGraph.js:32-70 | If the hook declines the first frontier `[start]`, the result is `[]`. If start is the goal, the result is `[start]`. Any non-empty result is a walk from start to the goal whose cost is the goal's g-score. With a never-declining hook, a non-empty result means the goal is reachable. |
| `AStarSearch.FirstIteration` | src/astar/AStarGraph.js:33-49 | The first iteration sees `[start]`. A declining hook yields `[]`, and a start equal to the goal is returned alone. |
| `AStarSearch.RunFollowsTrace` | src/astar/AStarGraph.js:44-67 | A run of states, each obtained from the previous by expanding its non-goal head and ending in one whose head is the goal, is exactly what the loop does: it returns `pathTo(goal)` of the last state after that many iterations. |
| `AStarSearch.SearchFollowsTrace` | src/astar/AStarGraph.js:32-69 | The same for a whole call that starts from the initial state. |
| `AStarSearch.RunStopsOnTrace` | src/astar/AStarGraph.js:44-69 | If each state of a run is the expansion of the previous one's non-goal head, and at the last state the frontier is empty or the hook declines, the loop returns `[]` with that last state after one iteration fewer than there are states. |
| `AStarSearch.SearchStopsOnTrace` | src/astar/AStarGraph.js:32-69 | A whole call whose hook declines at any iteration before the goal is popped returns `[]`, and so does `findPath`. |
| `Scenario.Neighbors` | src/astar/AStarGraph.js:112-114 | The test's `neighborsOf` lists the keys of the node's cost row. The keys are unique, as line 13 requires of neighbours, and no row lists its own node. |
| `Scenario.EdgeCost` | src/astar/AStarGraph.js:115-121 | The cost table is consistent with `neighborsOf`: a pair has a non-zero (truthy) cost exactly when the second node is listed as a neighbour of the first, and costs are never negative. |
| `Scenario.MinOver` | src/astar/AStarGraph.js:124-130 | The `reduce` with `mathjs.min` returns a value no larger than its start value or any of the named edge costs, and equal to the start value or to one of those costs. |
| `Scenario.Estimate` | src/astar/AStarGraph.js:122-132 | The test heuristic is the direct edge cost when the target is a neighbour, which is the `neighborCost ||` branch. Otherwise it is at most every outgoing edge cost and equals one of them or `MAX_SAFE_INTEGER`, the `minNeighborCost()` fallback. |
| `Scenario.TestGraphWellFormed` | src/astar/AStarGraph.js:112-121 | In the test graph every listed neighbour is a node of the graph with a defined cost. |
| `Scenario.PolicyValues` | src/astar/AStarGraph.js:143-146 | estimateCost(START, END) = 1, estimateCost(START, B) = 3, cost(A2, END) = 50 and estimateCost(A2, END) = 50. |
| `Scenario.ScenarioSearch` | src/astar/AStarGraph.js:150-158 | Searching the test graph from START to END with the always-continue hook runs eight iterations and returns `[START, B, B1, END]`. |
| `Scenario.ScenarioPath` | src/astar/AStarGraph.js:158-159 | The test graph is well-formed, and `findPath(START, END)` is `[START, B, B1, END]`. |

## Left out

- `src/ann/MapLayer.js` and `src/path/PathNode.js` are not part of this model: they are other components of the repository, not the search.
- The WeakMaps allocated by the constructor (lines 5-11) persist between calls, and a second `findPath` on the same object would see the first call's scores and flags. Only one call on fresh state is modelled.
- The throwing stubs of lines 12-23 are not modelled. The three methods are parameters of the search, and `cost` is partial, so calling it off an edge is a proof failure rather than an exception.
- Scores are unbounded integers. JavaScript Number arithmetic (floating point, precision loss above 2^53) and the comparator's subtraction `fscore(a) - fscore(b)` are modelled as exact integer arithmetic. The sort is modelled directly as a stable sort by key.
- The hook receives the frontier and the iteration index instead of the frontier and the `pathTo` closure. The state at iteration i is determined by the graph, start, goal and i, so a hook that inspects partial paths through `pathTo` is still covered as a function of the frontier and the iteration. The hook receives the live `openSet` array (line 44) and could mutate it; that aliasing is not modelled, and the model's hook only reads the frontier. The test hook's logging is output only.
- `if (neighbor)` on line 60 and the truthiness test in `pathTo` on line 39 treat falsy node values (`0`, `""`) as absent. The model assumes nodes are objects, as they are in the repository.
- Calling `findPath` without an `options` argument throws at line 34. The model always takes a hook, with the always-true hook standing for `options.onOpenSet` being absent.
- `Graphs.Graph` carries a finite universe `nodes` that contains start and is closed under `neighborsOf(., goal)`. The source needs no such bound, and on an infinite graph its loop may not terminate. The model's termination and the iteration bound rest on this universe.
- The check that `cost` is called only on non-closed neighbours is not a separate contract. The call sits inside the `neighbor !in closedSet` branch of `AStar.RelaxNeighbor`, and the partial `cost` makes every call site prove it is on an edge.
- Optimality of the returned path is not stated, because the stored f-score is the heuristic alone. The comment on line 21 asks for an admissible estimate, but the code never adds g to it.
