# Search algorithms of `searchutil.py`, modelled and verified in Dafny

This project models the search toolkit of `searchutil.py`:

- the abstract search problem: a start state, a goal test, and a successor function that returns (action, newState, cost) edges;
- the lazy-deletion priority queue `PriorityQueue`, with `update` and `removeMin`;
- `UniformCostSearch.solve`, which is Dijkstra's algorithm with backpointers;
- `DepthFirstSearch.solve`, a backtracking search that shares one history list and stops at the first goal;
- `dynamicProgramming`, a memoized future-cost recurrence followed by a reconstruction loop.

Files, one module each:

- `search_problem.dfy` (`SearchProblems`) holds the problem as a datatype `Problem(start, isGoal, succ)` of pure components. It also has the vocabulary the contracts use: paths, their cost and action column, goal-free paths, reachability, and the finiteness (`Closed`) and acyclicity (`Ranked`) assumptions.
- `priority_queue.dfy` (`PriorityQueues`) has the queue as a class. Its heap is the multiset of its (priority, state) entries and its `priorities` is a map. `DONE = -100000` is the sentinel for a finalized state. `Coherent` is the lazy-deletion invariant: a live state's recorded priority is its lowest entry and is present in the heap.
- `ucs_invariants.dfy` (`UniformCostInvariants`) has the Dijkstra invariants and the lemmas that carry them across one removal and one edge relaxation. The invariants use ghost distances, the order of finalisation and the cost of each backpointer edge.
- `uniform_cost_search.dfy` (`UniformCost`) has the search itself: the main loop, the inner loop over successors, backtracking, and the `UniformCostSearch` class.
- `depth_first_search.dfy` (`DepthFirst`) has the `DepthFirstSearch` class. Its fields are the ones the source mutates, and `history` is a field that `recurse` appends to and pops. The recursion is proved against the ghost functions `Visit`/`VisitEdges`, which describe the same traversal on values.
- `dynamic_programming.dfy` (`DynamicProgramming`) has the recurrence as the ghost function `FutureCost` (`None` where the source raises), the memoized `recurse` with its cache threaded in and out as a map, and the reconstruction `while` loop.

Caller-chosen inputs that the source leaves implicit are passed as ghost parameters:

- The states reachable from the start lie in a finite set `reach`, which is closed under successors.
- For depth-first search and dynamic programming, a ranking `rank` decreases along every edge out of `reach`, so the graph is acyclic.
- For uniform-cost search, edge costs are non-negative.

## Model

| member | source | states |
|---|---|---|
| PriorityQueues.PriorityQueue.constructor | searchutil.py:175-178 | A new queue has an empty heap and an empty priority map, and is coherent. |
| PriorityQueues.PriorityQueue.Update | searchutil.py:184-190 | Returns true exactly when the state has no recorded priority or the new one is strictly lower. On true, the map records the new priority and exactly one entry (p, state) is added to the heap. On false, neither changes. Coherence is kept for p >= DONE. A finalized state offered any p >= DONE is not updated. |
| PriorityQueues.PriorityQueue.RemoveMin | searchutil.py:194-200 | Returns None exactly when the heap holds no entry of a live state, and then leaves the heap empty. Otherwise it returns a state that was not finalized before, with one of its heap entries. That entry's priority is at most that of every live entry. The state becomes DONE and the map changes nowhere else. Only stale entries and the returned entry are dropped. Under coherence the returned priority is the state's recorded one and coherence holds afterwards. |
| PriorityQueues.MinEntryExists | searchutil.py:196 | A non-empty heap has an entry of least priority, which is what heappop yields. |
| PriorityQueues.PopLive | searchutil.py:196-199 | Popping a least entry of a live state and marking the state DONE: everything RemoveMin promises about the entry it returns and the queue it leaves. |
| PriorityQueues.SkipStale | searchutil.py:196-198 | Dropping an entry of a DONE state keeps every live entry of the original heap. |
| PriorityQueues.Drained | searchutil.py:195-200 | Once the heap is empty with every live entry kept, the original heap held no live entry. |
| PriorityQueues.FinalizeKeepsCoherent | searchutil.py:197-198 | Finalizing the state of a least live entry keeps the queue coherent. Under coherence that entry's priority is the state's recorded priority. |
| UniformCostInvariants.StartInv | searchutil.py:46-47 | After the start state is queued at priority 0, the main-loop invariant holds with nothing finalized. |
| UniformCostInvariants.AfterRemove | searchutil.py:52-59 | After the least live state u is removed: u is reachable, was not finalized before, and its priority is its distance. If u is a goal, every path from the start to a goal costs at least that priority and the backpointers lead back to the start. Otherwise the expansion invariant holds for u. |
| UniformCostInvariants.GoalPathsCostAtLeast | searchutil.py:52-59 | While the invariant holds, every path from the start to a goal costs at least the least live priority. This is Dijkstra's argument. |
| UniformCostInvariants.FrontierBound | searchutil.py:49-81 | Any path from a finalized state x to a state that is not finalized costs at least the least live priority minus x's distance. |
| UniformCostInvariants.RelaxImproves | searchutil.py:79-81 | The case where the offer improves the destination's priority: frontier, backpointers, start and relaxation facts all carry over to the updated maps. |
| UniformCostInvariants.RelaxKeeps | searchutil.py:79 | The case where the offer is refused: the edge is already relaxed. |
| UniformCostInvariants.BackpointersAfterUpdate | searchutil.py:81 | Pointing a non-finalized state's backpointer at a finalized state keeps every backpointer an edge to an earlier-finalized state, with matching distances. |
| UniformCostInvariants.ExpandDone | searchutil.py:76-81 | Once all edges of the expanded state are relaxed, the main-loop invariant holds again with its priority as the new lower bound. |
| UniformCostInvariants.DrainedMeansNoGoal | searchutil.py:52-53 | When the heap holds no live entry, no goal is reachable from the start. |
| UniformCostInvariants.NothingLiveMeansAllFinalized | searchutil.py:195-200 | Under coherence, no live entry means every recorded state is finalized. |
| UniformCost.Backtrack | searchutil.py:61-66 | Following the backpointers from the goal back to the start and reversing gives the action column of a path from the start to the goal whose cost is the goal's distance. From the start itself it gives []. |
| UniformCost.Reversed | searchutil.py:66 | `list.reverse()`: same length, element i is the list's element |s|-1-i. |
| UniformCost.OfferEdge | searchutil.py:79-81 | Offering edge e of the expanded state at pastCost + cost answers true exactly when e's destination has no recorded priority or the new cost is strictly lower. On true the destination's priority becomes that cost, exactly one entry (cost, destination) is pushed, and its backpointer becomes (action, state). On false the heap, the priorities and the backpointers are unchanged. |
| UniformCost.Relax | searchutil.py:76-81 | One turn of the loop over successors, for edge i of the expanded state: the new heap, priorities and backpointers are exactly those OfferEdge states (the `Offered` relation), and the expansion invariant advances by one edge. |
| UniformCost.Expand | searchutil.py:76-81 | The loop over all successors: the main-loop invariant holds again with the expanded state's cost as bound. Against the state before the loop, the heap only grows, no state loses its recorded priority or backpointer, and priorities only fall. Every changed priority is pastCost plus the cost of an edge out of the expanded state to that state, and every changed backpointer is (action, expanded state) for such an edge. |
| UniformCostInvariants.RelaxEdge | searchutil.py:79-81 | A turn that changes the queue and backpointers as `Offered` says keeps the expansion invariant with one more edge relaxed. |
| UniformCostInvariants.FrameStep | searchutil.py:76-81 | A turn that changes the queue and backpointers as `Offered` says stays within the frame that Expand promises. |
| UniformCost.Search | searchutil.py:42-83 | The main loop. None means no goal is reachable. Otherwise it returns a goal, the actions of a path from the start to it, and that path's cost, and no path to any goal is cheaper. A goal start gives (start, [], 0) after exploring exactly one state. The explored count is at most the number of reachable states. |
| UniformCost.UniformCostSearch.Solve | searchutil.py:33-83 | actions, totalCost and solution are set together or not at all. When unset, no goal is reachable. When set, the actions label a path from the start to the goal solution whose cost is totalCost, and no path to a goal is cheaper. A goal start gives actions [], totalCost 0 and numStatesExplored 1. numStatesExplored is at most the number of reachable states. |
| UniformCostInvariants.FewerLeft | searchutil.py:52-54 | Finalizing a state that was not finalized before shrinks the reachable states still to be finalized and adds one to the count of finalized states. |
| UniformCostInvariants.CountedWithin | searchutil.py:54 | The finalized states all lie in the reachable set, so there are no more of them than reachable states. |
| DepthFirst.Visit | searchutil.py:114-142 | The reference traversal of recurse on values. It only appends to the expanded states and never lowers the explored count, and a recorded solution is never replaced. |
| DepthFirst.VisitEdges | searchutil.py:137-142 | The reference for the first k turns of the loop over successors, with the same monotonicity. |
| DepthFirst.BranchingSnoc | searchutil.py:135-136 | Expanding one more state adds its branching factor to the size sum. |
| DepthFirst.EdgesIdle | searchutil.py:115 | Once a solution is recorded, the rest of the loop over successors changes nothing. |
| DepthFirst.VisitConsistent | searchutil.py:114-142 | recurse keeps its bookkeeping: actions and totalCost are set exactly with solution, every expanded state is a non-goal state, size equals the sum of the successor-list lengths of the expanded states, and numStatesExplored counts the expanded states plus the solution. |
| DepthFirst.EdgesConsistent | searchutil.py:137-142 | The same bookkeeping (set-together result fields, non-goal expanded states, size as their branching sum, the explored count) is kept through the loop over successors. |
| DepthFirst.VisitSound | searchutil.py:114-133 | A solution found by recurse(state, pastCost, history) is a goal reached from state by a path that meets no earlier goal. The recorded actions are those of history followed by the path's, and the recorded cost is pastCost plus the path's cost. |
| DepthFirst.EdgesSound | searchutil.py:137-142 | A solution found in the loop over successors is found through one of the edges, so the same holds with that edge prepended. |
| DepthFirst.VisitComplete | searchutil.py:114-142 | When recurse finds nothing, no goal is reachable from state on an acyclic graph. |
| DepthFirst.EdgesComplete | searchutil.py:137-142 | When the first k turns of the loop find nothing, no goal is reachable through the first k successors. |
| DepthFirst.CollectActions | searchutil.py:120-122 | The loop over history collects exactly the action column of history. |
| DepthFirst.DepthFirstSearch.Recurse | searchutil.py:114-142 | Called with history a path from the start to state and pastCost its cost. The shared history is the same on exit as on entry, and the fields change as Visit says. When a solution was already recorded, the call changes nothing. |
| DepthFirst.DepthFirstSearch.FollowAll | searchutil.py:137-142 | Called with history a path from the start to state and pastCost its cost, the loop over successors leaves history as it found it and changes the fields as VisitEdges says. |
| DepthFirst.DepthFirstSearch.Follow | searchutil.py:140-142 | Called with history a path from the start to state and pastCost its cost. Append the edge, which extends that path to the edge's destination at the added cost, recurse into the destination, pop: history is restored and the fields change as Visit of that destination with the extended history. |
| DepthFirst.DepthFirstSearch.Solve | searchutil.py:99-143 | The fields are the traversal from the start with cost 0 and an empty history, and the bookkeeping is consistent: the result fields are set together, every expanded state is a non-goal state, size is their branching sum and numStatesExplored counts them plus the solution. A solution is a goal reached by a path that meets no earlier goal, labelled by actions and costing totalCost. No solution means no goal is reachable. A goal start gives actions [], totalCost 0 and numStatesExplored 1. |
| DynamicProgramming.FutureCost | searchutil.py:151-160 | The reference recurrence, with None where the source raises. A non-goal state without successors fails, as min of an empty sequence raises. |
| DynamicProgramming.Cheapest | searchutil.py:157-159 | The reference min over the first k candidates: a picked entry is one of those k edges. Equal costs keep the earliest edge, and a failing candidate fails the min. |
| DynamicProgramming.CheapestFails | searchutil.py:157-159 | The min over the first k candidates fails exactly when there is no candidate or some candidate's future cost fails. |
| DynamicProgramming.CheapestPicks | searchutil.py:157-159 | When it succeeds, the min over the first k candidates is one of those edges with its future cost, and is no dearer than any of them. |
| DynamicProgramming.Recurrence | searchutil.py:151-160 | A goal has future cost 0. A non-goal state's future cost exists exactly when it has successors and all of theirs exist, and it is then the least cost + futureCost(newState) over its edges, achieved by one of them. |
| DynamicProgramming.FutureCostOptimal | searchutil.py:150-160 | The future cost is a lower bound on every path from the state that stops at its first goal. |
| DynamicProgramming.DeadEndFails | searchutil.py:157-159 | A non-goal state without successors, reachable without passing a goal, makes the computation fail (min of an empty sequence). |
| DynamicProgramming.FailureWitness | searchutil.py:151-160 | A failing computation exhibits such a dead end. |
| DynamicProgramming.FailsIffDeadEnd | searchutil.py:151-160 | The computation fails exactly when such a dead end is reachable. |
| DynamicProgramming.Recurse | searchutil.py:151-160 | The memoized recurse returns the future cost (None where the source raises). It keeps every cached key and the cache invariant, under which each entry is the min over the state's candidates. On equal costs that is the earliest cheapest edge, not Python's lexicographic tuple `min` (see the MinCandidate line under Left out). A non-goal state with a future cost ends up cached. |
| DynamicProgramming.MinCandidate | searchutil.py:157-159 | The min over the generator of candidates, recursing once per edge in order: the first cheapest candidate, or None when there is no edge or a recursive call fails. |
| DynamicProgramming.Offer | searchutil.py:158-159 | One candidate of the min: a strictly cheaper candidate replaces the best so far, and a failing recursive call fails the whole min. |
| DynamicProgramming.Abandon | searchutil.py:157-159 | One failing future cost among the candidates makes the whole min fail. |
| DynamicProgramming.FollowEntry | searchutil.py:167-169 | A cached entry is an edge out of its state to a state whose future cost is the entry's future cost minus the edge cost, and that state is a goal or cached. |
| DynamicProgramming.AvoidsSnoc | searchutil.py:166-169 | Extending a goal-free path by an edge out of a non-goal state keeps it goal-free. |
| DynamicProgramming.DynamicProgramming | searchutil.py:147-171 | Fails exactly when a dead end is reachable from the start without passing a goal. Otherwise the reconstructed history is a path from the start to a goal that meets no earlier goal, its costs sum to the returned totalCost, and no such path is cheaper. With non-negative costs no path from the start to any goal is cheaper, so a successful result has uniform-cost search's optimal cost. |
| SearchProblems.FirstGoalNoDearer | searchutil.py:151-153 | With non-negative costs, every path to a goal has a prefix that stops at its first goal and costs no more. This is why stopping at the first goal, as the base case of recurse does, loses nothing. |

## Left out

- Printing and the `verbose` levels (`__init__`, the `print` statements, `DepthFirstSearch.stats`) are left out: they are output only, and `stats` only returns `numStatesExplored`, which the model keeps as a field.
- Python's `heapq` binary heap is a multiset. A pop yields some entry of least priority. The heap's tie-break between equal priorities, which compares the states, is not modelled.
- `removeMin`'s `(None, None)` result and the `state == None` test of `solve` are modelled as `Option`, so a state that is itself `None` is not considered.
- UniformCost.Search, UniformCost.UniformCostSearch.Solve: the contracts assume non-negative edge costs. With negative costs the source is not modelled. `update` accepts any priority strictly below the recorded one (searchutil.py:186), and a finalized state's recorded priority is `DONE` (searchutil.py:198). So an offer below `DONE` to a finalized state re-opens it, and that state can be returned again. With a self-loop of cost -200000 at a start state that is not a goal, the `while True` at searchutil.py:49 never ends. `PriorityQueue.Update` is modelled as written, including this case.
- UniformCost.Search, UniformCost.Expand, UniformCost.Relax, UniformCost.OfferEdge: the single `solve` method is split into its main loop, its inner loop over successors and one turn of that loop, whose queue and backpointer writes are a method of their own. `Solve` writes the result fields once at the end rather than resetting them first.
- DepthFirst.DepthFirstSearch.FollowAll, DepthFirst.DepthFirstSearch.Follow: the loop of `recurse` and one turn of it are separate methods. Together they do what the loop body does.
- DynamicProgramming.MinCandidate, DynamicProgramming.Offer: ties in `min` are broken in favour of the earliest edge. Python compares the whole tuple `(futureCost, action, newState, cost)`, so it prefers the smallest action, then newState, then cost; actions of an arbitrary type have no order here. The future cost returned does not depend on this choice. The order in which the lazily evaluated generator calls `recurse` is kept.
- DynamicProgramming.Recurse: the exceptions are not modelled as exceptions. The `ValueError` of `min` over an empty sequence, and its propagation out of outer calls, is `None`. The partially filled cache left behind by an exception is returned but is not used afterwards.
- DynamicProgramming.DynamicProgramming and uniform-cost search agree on the total cost only when dynamic programming succeeds. With a dead end reachable from the start without a goal, `min` over no candidates raises `ValueError` (searchutil.py:157-159). The model then returns `None`, even when uniform-cost search finds a goal along another edge.
- Termination on cyclic or infinite graphs, and Python's recursion-depth limit for depth-first search and dynamic programming, are left out. The model needs a finite closed set `reach` and, for those two, an acyclic `rank`.
- Floating-point costs are left out; costs are integers.
- The commented-out best-path tracking in depth-first search is left out.
- The calls into the problem (`startState`, `isGoal`, `succAndCost`) are taken to be pure and deterministic. They are components of the `Problem` datatype.
- `SearchProblem` and `SearchAlgorithm` have only `NotImplementedError` bodies. They appear only as the shape of `Problem` and of the classes' fields.
