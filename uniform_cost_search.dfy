/**
 * Uniform-cost search (Dijkstra's algorithm) over the lazy-deletion queue,
 * proved with the invariants of `UniformCostInvariants`.
 */
module UniformCost {
  import opened SearchProblems
  import opened PriorityQueues
  import opened UniformCostInvariants

  /**
   * Walks the backpointers from `goal` back to `start` collecting actions, then
   * reverses them: the result labels a path from `start` to `goal` whose cost
   * is the goal's priority.
   */
  method Backtrack<S(==,!new), A(==,!new)>(p: Problem<S, A>, start: S, goal: S, prio: map<S, int>, backpointers: map<S, (A, S)>,
                                 ghost dist: map<S, int>, ghost order: map<S, nat>, ghost n: nat, ghost bpCost: map<S, int>)
    returns (actions: seq<A>, ghost path: seq<Edge<S, A>>)
    requires BackpointersOk(p, start, prio, dist, order, n, backpointers, bpCost)
    requires start in prio && prio[start] == DONE && dist[start] == 0
    requires goal in prio && prio[goal] == DONE
    ensures IsPath(p, start, path, goal)
    ensures actions == Actions(path)
    ensures Cost(path) == dist[goal]
    ensures goal == start ==> actions == []
  {
    var reversed: seq<A> := [];
    var state := goal;
    path := [];
    while state != start
      invariant state in prio && prio[state] == DONE
      invariant IsPath(p, state, path, goal)
      invariant Cost(path) == dist[goal] - dist[state]
      invariant Reversed(reversed) == Actions(path)
      invariant state in order && goal in order && order[state] <= order[goal]
      invariant reversed != [] ==> order[state] < order[goal]
      decreases order[state]
    {
      var (action, prevState) := backpointers[state];
      assert prevState == Predecessor(backpointers, state);
      ghost var e := Edge(action, state, bpCost[state]);
      assert ([e] + path)[1..] == path;
      assert Actions([e] + path) == [action] + Actions(path);
      assert (reversed + [action])[..|reversed|] == reversed;
      reversed := reversed + [action];
      path := [e] + path;
      state := prevState;
    }
    actions := Reversed(reversed);
  }

  /** Python's in-place `list.reverse()`, as a function of the list. */
  function Reversed<T>(s: seq<T>): (r: seq<T>)
    ensures |r| == |s|
    ensures forall i :: 0 <= i < |s| ==> r[i] == s[|s| - 1 - i]
    decreases |s|
  {
    if s == [] then [] else [s[|s| - 1]] + Reversed(s[..|s| - 1])
  }

  /**
   * `update(newState, pastCost + cost)` for edge `e` of `state` and, when that
   * answers true (a better way to the successor was found), the backpointer
   * write: the change `Offered` describes.
   */
  method OfferEdge<S(==,!new), A(==,!new)>(frontier: PriorityQueue<S>, state: S, e: Edge<S, A>, newCost: int,
                                 backpointers0: map<S, (A, S)>)
    returns (updated: bool, backpointers: map<S, (A, S)>)
    requires frontier.Valid()
    modifies frontier
    ensures frontier.Valid()
    ensures updated == Improves(e, newCost, old(frontier.priorities))
    ensures updated ==> frontier.priorities == old(frontier.priorities)[e.dest := newCost]
                        && frontier.heap == old(frontier.heap) + multiset{(newCost, e.dest)}
                        && backpointers == backpointers0[e.dest := (e.action, state)]
    ensures !updated ==> frontier.priorities == old(frontier.priorities) && frontier.heap == old(frontier.heap)
                         && backpointers == backpointers0
    ensures old(Coherent(frontier.heap, frontier.priorities)) && newCost >= DONE ==> Coherent(frontier.heap, frontier.priorities)
  {
    updated := frontier.Update(e.dest, newCost);
    backpointers := backpointers0;
    if updated {
      // found a better way to reach e.dest: update its backpointer
      backpointers := backpointers0[e.dest := (e.action, state)];
    }
  }

  /**
   * One turn of the inner loop of `solve`: `update(newState, pastCost + cost)`
   * for edge `i` of the just-finalized `state` and, when that answers true (a
   * better way to the successor was found), the backpointer write. The change
   * is the one `Offered` describes, and the expansion invariant advances by one
   * edge, the ghost distances and backpointer costs moving with the backpointer.
   */
  method Relax<S(==,!new), A(==,!new)>(problem: Problem<S, A>, ghost reach: set<S>, frontier: PriorityQueue<S>, state: S,
                             pastCost: int, i: nat, e: Edge<S, A>, backpointers0: map<S, (A, S)>, ghost dist0: map<S, int>,
                             ghost order: map<S, nat>, ghost n: nat, ghost bpCost0: map<S, int>)
    returns (updated: bool, backpointers: map<S, (A, S)>, ghost dist: map<S, int>, ghost bpCost: map<S, int>)
    requires Closed(problem, reach) && NonNegative(problem, reach)
    requires frontier.Valid()
    requires ExpandInv(problem, reach, frontier.heap, frontier.priorities, dist0, order, n, backpointers0, bpCost0, state, i)
    requires i < |problem.succ(state)| && e == problem.succ(state)[i] && dist0[state] == pastCost
    modifies frontier
    ensures frontier.Valid()
    ensures Offered(e, state, pastCost + e.cost, updated,
                    old(frontier.heap), old(frontier.priorities), backpointers0,
                    frontier.heap, frontier.priorities, backpointers)
    ensures ExpandInv(problem, reach, frontier.heap, frontier.priorities, dist, order, n, backpointers, bpCost, state, i + 1)
    ensures dist[state] == pastCost
  {
    var newCost := pastCost + e.cost;
    updated, backpointers := OfferEdge(frontier, state, e, newCost, backpointers0);
    dist, bpCost := RelaxEdge(problem, reach, old(frontier.heap), old(frontier.priorities), dist0, order, n, backpointers0,
                              bpCost0, state, i, e, newCost, updated, frontier.heap, frontier.priorities, backpointers);
  }

  /**
   * The inner loop of `solve`: relaxes every edge out of the just-finalized
   * `state`; afterwards the main loop's invariant holds again with `state`'s
   * priority as the bound.
   */
  method Expand<S(==,!new), A(==,!new)>(problem: Problem<S, A>, ghost reach: set<S>, frontier: PriorityQueue<S>, state: S,
                              pastCost: int, backpointers0: map<S, (A, S)>, ghost dist0: map<S, int>,
                              ghost order: map<S, nat>, ghost n: nat, ghost bpCost0: map<S, int>)
    returns (backpointers: map<S, (A, S)>, ghost dist: map<S, int>, ghost bpCost: map<S, int>)
    requires Closed(problem, reach) && NonNegative(problem, reach)
    requires frontier.Valid()
    requires ExpandInv(problem, reach, frontier.heap, frontier.priorities, dist0, order, n, backpointers0, bpCost0, state, 0)
    requires dist0[state] == pastCost
    modifies frontier
    ensures frontier.Valid()
    ensures SearchInv(problem, reach, frontier.heap, frontier.priorities, dist, pastCost, order, n, backpointers, bpCost)
    ensures ExpandFrame(problem, state, pastCost, old(frontier.heap), old(frontier.priorities), backpointers0,
                        frontier.heap, frontier.priorities, backpointers)
  {
    backpointers, dist, bpCost := backpointers0, dist0, bpCost0;
    var successors := problem.succ(state);
    FrameStart(problem, state, pastCost, frontier.heap, frontier.priorities, backpointers);
    for i := 0 to |successors|
      invariant frontier.Valid()
      invariant ExpandInv(problem, reach, frontier.heap, frontier.priorities, dist, order, n, backpointers, bpCost, state, i)
      invariant dist[state] == pastCost
      invariant ExpandFrame(problem, state, pastCost, old(frontier.heap), old(frontier.priorities), backpointers0,
                            frontier.heap, frontier.priorities, backpointers)
    {
      ghost var heapB, prioB, bpB := frontier.heap, frontier.priorities, backpointers;
      var e := successors[i];
      var updated;
      updated, backpointers, dist, bpCost := Relax(problem, reach, frontier, state, pastCost, i, e, backpointers, dist, order, n, bpCost);
      FrameStep(problem, state, pastCost, i, e, updated, old(frontier.heap), old(frontier.priorities), backpointers0,
                heapB, prioB, bpB, frontier.heap, frontier.priorities, backpointers);
    }
    ExpandDone(problem, reach, frontier.heap, frontier.priorities, dist, order, n, backpointers, bpCost, state);
  }

  /**
   * `actions` label a path from the start to the goal `goal` whose cost is
   * `cost`, and no path from the start to any goal is cheaper.
   */
  ghost predicate CheapestSolution<S(!new), A(!new)>(problem: Problem<S, A>, goal: S, actions: seq<A>, cost: int)
  {
    && problem.isGoal(goal)
    && (exists path :: IsPath(problem, problem.start, path, goal) && Actions(path) == actions && Cost(path) == cost)
    && GoalCostsAtLeast(problem, cost)
  }

  /**
   * The main loop of `solve`: removes states in order of priority, stops at
   * the first goal and backtracks from it, and otherwise expands the removed
   * state. Returns the goal with its actions and cost, or `None` once the
   * queue runs dry, together with the number of states removed.
   */
  method Search<S(==,!new), A(==,!new)>(problem: Problem<S, A>, ghost reach: set<S>)
    returns (found: Option<(S, seq<A>, int)>, explored: nat)
    requires Closed(problem, reach) && NonNegative(problem, reach)
    ensures found.None? ==> NoGoalReachable(problem)
    ensures found.Some? ==> CheapestSolution(problem, found.value.0, found.value.1, found.value.2)
    ensures problem.isGoal(problem.start) ==> found == Some((problem.start, [], 0)) && explored == 1
    ensures explored <= |reach|
  {
    var frontier := new PriorityQueue<S>();
    var backpointers: map<S, (A, S)> := map[];
    explored := 0;

    var startState := problem.start;
    var _ := frontier.Update(startState, 0);
    StartInv(problem, reach, frontier.heap, frontier.priorities);
    ghost var dist: map<S, int> := map[startState := 0];
    ghost var order: map<S, nat> := map[];
    ghost var bpCost: map<S, int> := map[];
    ghost var last: int := 0;

    while true
      invariant frontier.Valid()
      invariant SearchInv(problem, reach, frontier.heap, frontier.priorities, dist, last, order, explored,
                          backpointers, bpCost)
      invariant problem.isGoal(startState) && explored > 0 ==> false
      invariant order.Keys <= reach && |order.Keys| == explored
      decreases reach - order.Keys
    {
      ghost var heap0, prio0 := frontier.heap, frontier.priorities;
      var r := frontier.RemoveMin();
      if r.None? {
        DrainedMeansNoGoal(problem, heap0, prio0, dist);
        CountedWithin(order.Keys, reach);
        break;
      }
      var (state, pastCost) := r.value;
      ghost var order0, n0 := order, explored;
      AfterRemove(problem, reach, heap0, prio0, dist, last, order0, n0, backpointers, bpCost,
                  frontier.heap, frontier.priorities, state, pastCost);
      order := order[state := n0];
      explored := explored + 1;

      // check whether the goal is reached; if so, extract the solution
      if problem.isGoal(state) {
        var acts, path := Backtrack(problem, startState, state, frontier.priorities, backpointers,
                                    dist, order, explored, bpCost);
        found := Some((state, acts, pastCost));
        CountedWithin(order.Keys, reach);
        return;
      }

      // expand from state to its successors, updating the frontier with each new state
      backpointers, dist, bpCost := Expand(problem, reach, frontier, state, pastCost, backpointers,
                                           dist, order, explored, bpCost);
      last := pastCost;
    }
    found := None;
  }

  class UniformCostSearch<S(==,!new), A(==,!new)> {
    /** The actions from the start to the goal found, or `None` when no path was found. */
    var actions: Option<seq<A>>
    /** The cost of that path, or `None`. */
    var totalCost: Option<int>
    var numStatesExplored: nat
    /** The goal state reached, or `None`. */
    var solution: Option<S>

    /**
     * Runs uniform-cost search on `problem`, whose states reachable from the
     * start lie in the finite set `reach` and whose edge costs are non-negative.
     * On success the recorded actions label a path from the start to a goal
     * whose cost is the recorded total and no path to a goal is cheaper; when
     * nothing is recorded no goal is reachable at all.
     */
    method Solve(problem: Problem<S, A>, ghost reach: set<S>)
      requires Closed(problem, reach) && NonNegative(problem, reach)
      modifies this
      ensures actions.Some? <==> totalCost.Some?
      ensures actions.Some? <==> solution.Some?
      ensures actions.None? ==> NoGoalReachable(problem)
      ensures actions.Some? ==>
        && problem.isGoal(solution.value)
        && (exists path :: IsPath(problem, problem.start, path, solution.value)
                           && Actions(path) == actions.value && Cost(path) == totalCost.value)
        && GoalCostsAtLeast(problem, totalCost.value)
      ensures problem.isGoal(problem.start) ==>
        actions == Some([]) && totalCost == Some(0) && solution == Some(problem.start) && numStatesExplored == 1
      ensures numStatesExplored <= |reach|
    {
      var found, explored := Search(problem, reach);
      numStatesExplored := explored;
      if found.Some? {
        var (goal, acts, cost) := found.value;
        solution, actions, totalCost := Some(goal), Some(acts), Some(cost);
      } else {
        solution, actions, totalCost := None, None, None;
      }
    }
  }
}
