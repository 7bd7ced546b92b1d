/**
 * Backtracking depth-first search: one shared `history` of edges grows before
 * each recursive call and shrinks after it, the search stops at the first goal
 * it meets, and `size` sums the branching factors of the states it expands.
 * The recursion is proved against the ghost functions `Visit`/`VisitEdges`,
 * which describe the same traversal on values; the graph seen from the start
 * is finite and acyclic (`Closed` and `Ranked`).
 */
module DepthFirst {
  import opened SearchProblems

  /**
   * The fields `recurse` updates: the goal found, its actions and cost, the
   * number of calls that found no solution yet, `size`, and (for the proofs)
   * the states expanded so far, in order.
   */
  datatype Progress<S, A> = Progress(solution: Option<S>, actions: Option<seq<A>>, totalCost: Option<int>,
                                     explored: nat, size: nat, expanded: seq<S>)

  /** What `solve` starts from. */
  function Initial<S, A>(): Progress<S, A>
  {
    Progress(None, None, None, 0, 0, [])
  }

  /**
   * `recurse(state, pastCost, history)` on values: nothing once a solution is
   * recorded; otherwise count the state, record the solution if it is a goal,
   * and else add its branching factor and visit its successors in order.
   */
  ghost function Visit<S(!new), A(!new)>(p: Problem<S, A>, reach: set<S>, rank: S -> nat, state: S, pastCost: int,
                                         history: seq<Edge<S, A>>, st: Progress<S, A>): (r: Progress<S, A>)
    requires Closed(p, reach) && Ranked(p, reach, rank) && state in reach
    ensures st.expanded <= r.expanded && st.explored <= r.explored
    ensures st.solution.Some? ==> r.solution == st.solution
    decreases rank(state), 1, 0
  {
    if st.solution.Some? then st
    else if p.isGoal(state) then
      st.(explored := st.explored + 1, solution := Some(state), actions := Some(Actions(history)),
          totalCost := Some(pastCost))
    else
      var st1 := st.(explored := st.explored + 1, size := st.size + |p.succ(state)|,
                     expanded := st.expanded + [state]);
      VisitEdges(p, reach, rank, state, pastCost, history, |p.succ(state)|, st1)
  }

  /** The first `k` turns of `recurse`'s loop over the successors of `state`: append, recurse, pop. */
  ghost function VisitEdges<S(!new), A(!new)>(p: Problem<S, A>, reach: set<S>, rank: S -> nat, state: S, pastCost: int,
                                              history: seq<Edge<S, A>>, k: nat, st: Progress<S, A>): (r: Progress<S, A>)
    requires Closed(p, reach) && Ranked(p, reach, rank) && state in reach && k <= |p.succ(state)|
    ensures st.expanded <= r.expanded && st.explored <= r.explored
    ensures st.solution.Some? ==> r.solution == st.solution
    decreases rank(state), 0, k
  {
    if k == 0 then st
    else
      var e := p.succ(state)[k - 1];
      assert e in p.succ(state);
      Visit(p, reach, rank, e.dest, pastCost + e.cost, history + [e],
            VisitEdges(p, reach, rank, state, pastCost, history, k - 1, st))
  }

  /** The sum of the branching factors of `states`. */
  function Branching<S, A>(p: Problem<S, A>, states: seq<S>): (r: nat)
    ensures states == [] ==> r == 0
  {
    if states == [] then 0 else Branching(p, states[..|states| - 1]) + |p.succ(states[|states| - 1])|
  }

  /**
   * The bookkeeping `recurse` keeps: actions and cost are recorded exactly with
   * the solution, `size` is the branching sum of the expanded states, which are
   * all non-goal states, and every counted state was either expanded or is the
   * solution.
   */
  ghost predicate Consistent<S, A>(p: Problem<S, A>, st: Progress<S, A>)
  {
    && (forall s :: s in st.expanded ==> !p.isGoal(s))
    && (st.solution.Some? <==> st.actions.Some?)
    && (st.solution.Some? <==> st.totalCost.Some?)
    && st.size == Branching(p, st.expanded)
    && st.explored == |st.expanded| + (if st.solution.Some? then 1 else 0)
  }

  lemma BranchingSnoc<S, A>(p: Problem<S, A>, states: seq<S>, v: S)
    ensures Branching(p, states + [v]) == Branching(p, states) + |p.succ(v)|
  {
    assert (states + [v])[..|states|] == states;
  }

  /** Once a solution is recorded, visiting any number of successors changes nothing. */
  lemma {:induction false} EdgesIdle<S(!new), A(!new)>(p: Problem<S, A>, reach: set<S>, rank: S -> nat, state: S,
                                                      pastCost: int, history: seq<Edge<S, A>>, k: nat, st: Progress<S, A>)
    requires Closed(p, reach) && Ranked(p, reach, rank) && state in reach && k <= |p.succ(state)|
    requires st.solution.Some?
    ensures VisitEdges(p, reach, rank, state, pastCost, history, k, st) == st
    decreases k
  {
    if k > 0 {
      EdgesIdle(p, reach, rank, state, pastCost, history, k - 1, st);
    }
  }

  /** `recurse` keeps the bookkeeping consistent. */
  lemma {:induction false} VisitConsistent<S(!new), A(!new)>(p: Problem<S, A>, reach: set<S>, rank: S -> nat, state: S,
                                                            pastCost: int, history: seq<Edge<S, A>>, st: Progress<S, A>)
    requires Closed(p, reach) && Ranked(p, reach, rank) && state in reach
    requires Consistent(p, st)
    ensures Consistent(p, Visit(p, reach, rank, state, pastCost, history, st))
    decreases rank(state), 1, 0
  {
    if st.solution.None? && !p.isGoal(state) {
      BranchingSnoc(p, st.expanded, state);
      var st1 := st.(explored := st.explored + 1, size := st.size + |p.succ(state)|,
                     expanded := st.expanded + [state]);
      EdgesConsistent(p, reach, rank, state, pastCost, history, |p.succ(state)|, st1);
    }
  }

  lemma {:induction false} EdgesConsistent<S(!new), A(!new)>(p: Problem<S, A>, reach: set<S>, rank: S -> nat, state: S,
                                                            pastCost: int, history: seq<Edge<S, A>>, k: nat, st: Progress<S, A>)
    requires Closed(p, reach) && Ranked(p, reach, rank) && state in reach && k <= |p.succ(state)|
    requires Consistent(p, st)
    ensures Consistent(p, VisitEdges(p, reach, rank, state, pastCost, history, k, st))
    decreases rank(state), 0, k
  {
    if k > 0 {
      var e := p.succ(state)[k - 1];
      assert e in p.succ(state);
      EdgesConsistent(p, reach, rank, state, pastCost, history, k - 1, st);
      VisitConsistent(p, reach, rank, e.dest, pastCost + e.cost, history + [e],
                      VisitEdges(p, reach, rank, state, pastCost, history, k - 1, st));
    }
  }

  /**
   * A solution found by `recurse(state, pastCost, history)` is a goal reached
   * from `state` by a path that meets no earlier goal; the recorded actions are
   * those of `history` followed by the path's, and the recorded cost is
   * `pastCost` plus the path's cost.
   */
  ghost predicate FoundVia<S(!new), A(!new)>(p: Problem<S, A>, state: S, pastCost: int, history: seq<Edge<S, A>>,
                                             st: Progress<S, A>)
  {
    && st.solution.Some? && p.isGoal(st.solution.value)
    && exists path :: && IsPath(p, state, path, st.solution.value) && AvoidsGoals(p, state, path)
                      && st.actions == Some(Actions(history + path))
                      && st.totalCost == Some(pastCost + Cost(path))
  }

  lemma {:induction false} VisitSound<S(!new), A(!new)>(p: Problem<S, A>, reach: set<S>, rank: S -> nat, state: S,
                                                       pastCost: int, history: seq<Edge<S, A>>, st: Progress<S, A>)
    requires Closed(p, reach) && Ranked(p, reach, rank) && state in reach
    requires st.solution.None?
    requires Visit(p, reach, rank, state, pastCost, history, st).solution.Some?
    ensures FoundVia(p, state, pastCost, history, Visit(p, reach, rank, state, pastCost, history, st))
    decreases rank(state), 1, 0
  {
    if p.isGoal(state) {
      assert IsPath(p, state, [], state) && AvoidsGoals(p, state, []);
      assert history + [] == history;
    } else {
      var st1 := st.(explored := st.explored + 1, size := st.size + |p.succ(state)|,
                     expanded := st.expanded + [state]);
      EdgesSound(p, reach, rank, state, pastCost, history, |p.succ(state)|, st1);
    }
  }

  /** A solution found in the loop over the successors of the non-goal `state` is one found through one of them. */
  lemma {:induction false} EdgesSound<S(!new), A(!new)>(p: Problem<S, A>, reach: set<S>, rank: S -> nat, state: S,
                                                       pastCost: int, history: seq<Edge<S, A>>, k: nat, st: Progress<S, A>)
    requires Closed(p, reach) && Ranked(p, reach, rank) && state in reach && k <= |p.succ(state)|
    requires !p.isGoal(state) && st.solution.None?
    requires VisitEdges(p, reach, rank, state, pastCost, history, k, st).solution.Some?
    ensures FoundVia(p, state, pastCost, history, VisitEdges(p, reach, rank, state, pastCost, history, k, st))
    decreases rank(state), 0, k
  {
    var e := p.succ(state)[k - 1];
    assert e in p.succ(state);
    var mid := VisitEdges(p, reach, rank, state, pastCost, history, k - 1, st);
    if mid.solution.Some? {
      EdgesSound(p, reach, rank, state, pastCost, history, k - 1, st);
      assert Visit(p, reach, rank, e.dest, pastCost + e.cost, history + [e], mid) == mid;
    } else {
      VisitSound(p, reach, rank, e.dest, pastCost + e.cost, history + [e], mid);
      var r := Visit(p, reach, rank, e.dest, pastCost + e.cost, history + [e], mid);
      var path :| && IsPath(p, e.dest, path, r.solution.value) && AvoidsGoals(p, e.dest, path)
                  && r.actions == Some(Actions(history + [e] + path))
                  && r.totalCost == Some(pastCost + e.cost + Cost(path));
      var path' := [e] + path;
      assert path'[0] == e && path'[1..] == path;
      assert history + [e] + path == history + path';
      assert IsPath(p, state, path', r.solution.value) && AvoidsGoals(p, state, path');
    }
  }

  /** `recurse(state, …)` finding nothing means no goal is reachable from `state`. */
  lemma {:induction false} VisitComplete<S(!new), A(!new)>(p: Problem<S, A>, reach: set<S>, rank: S -> nat, state: S,
                                                          pastCost: int, history: seq<Edge<S, A>>, st: Progress<S, A>)
    requires Closed(p, reach) && Ranked(p, reach, rank) && state in reach
    requires st.solution.None?
    requires Visit(p, reach, rank, state, pastCost, history, st).solution.None?
    ensures forall path, t :: IsPath(p, state, path, t) ==> !p.isGoal(t)
    decreases rank(state), 1, 0
  {
    var st1 := st.(explored := st.explored + 1, size := st.size + |p.succ(state)|,
                   expanded := st.expanded + [state]);
    EdgesComplete(p, reach, rank, state, pastCost, history, |p.succ(state)|, st1);
    forall path, t | IsPath(p, state, path, t) ensures !p.isGoal(t) {
      if path != [] {
        var j :| 0 <= j < |p.succ(state)| && p.succ(state)[j] == path[0];
        assert IsPath(p, p.succ(state)[j].dest, path[1..], t);
      }
    }
  }

  /** Nothing found in the first `k` turns of the loop: no goal is reachable through the first `k` successors. */
  lemma {:induction false} EdgesComplete<S(!new), A(!new)>(p: Problem<S, A>, reach: set<S>, rank: S -> nat, state: S,
                                                          pastCost: int, history: seq<Edge<S, A>>, k: nat, st: Progress<S, A>)
    requires Closed(p, reach) && Ranked(p, reach, rank) && state in reach && k <= |p.succ(state)|
    requires st.solution.None?
    requires VisitEdges(p, reach, rank, state, pastCost, history, k, st).solution.None?
    ensures forall j, path, t :: 0 <= j < k && IsPath(p, p.succ(state)[j].dest, path, t) ==> !p.isGoal(t)
    decreases rank(state), 0, k
  {
    if k > 0 {
      var e := p.succ(state)[k - 1];
      assert e in p.succ(state);
      var mid := VisitEdges(p, reach, rank, state, pastCost, history, k - 1, st);
      assert mid.solution.None?;
      EdgesComplete(p, reach, rank, state, pastCost, history, k - 1, st);
      VisitComplete(p, reach, rank, e.dest, pastCost + e.cost, history + [e], mid);
    }
  }

  /** The action column of `history`, collected by the loop of `recurse`'s base case. */
  method CollectActions<S, A>(history: seq<Edge<S, A>>) returns (actions: seq<A>)
    ensures |actions| == |history|
    ensures forall i :: 0 <= i < |history| ==> actions[i] == history[i].action
  {
    actions := [];
    for i := 0 to |history|
      invariant |actions| == i
      invariant forall j :: 0 <= j < i ==> actions[j] == history[j].action
    {
      actions := actions + [history[i].action];
    }
  }

  class DepthFirstSearch<S(==,!new), A(==,!new)> {
    var solution: Option<S>
    var actions: Option<seq<A>>
    var totalCost: Option<int>
    var numStatesExplored: nat
    /** The sum of the lengths of the successor lists of the expanded states. */
    var size: nat
    /** The list of edges shared by all calls of `recurse`. */
    var history: seq<Edge<S, A>>
    /** The states expanded so far, in order. */
    ghost var expanded: seq<S>

    ghost function Snapshot(): Progress<S, A>
      reads this
    {
      Progress(solution, actions, totalCost, numStatesExplored, size, expanded)
    }

    /**
     * `recurse(state, pastCost, history)`: leaves the shared history as it found
     * it and updates the other fields as `Visit` does.
     */
    method Recurse(problem: Problem<S, A>, ghost reach: set<S>, ghost rank: S -> nat, state: S, pastCost: int)
      requires Closed(problem, reach) && Ranked(problem, reach, rank) && state in reach
      requires IsPath(problem, problem.start, history, state) && pastCost == Cost(history)
      modifies this
      ensures history == old(history)
      ensures Snapshot() == Visit(problem, reach, rank, state, pastCost, old(history), old(Snapshot()))
      ensures old(solution).Some? ==> Snapshot() == old(Snapshot())
      decreases rank(state), 1
    {
      if solution.None? {
        numStatesExplored := numStatesExplored + 1;
        // base case
        if problem.isGoal(state) {
          solution := Some(state);
          var acts := CollectActions(history);
          assert acts == Actions(history);
          actions := Some(acts);
          totalCost := Some(pastCost);
          return;
        }
        // recursive case
        var successors := problem.succ(state);
        size := size + |successors|;
        expanded := expanded + [state];
        FollowAll(problem, reach, rank, state, pastCost);
      }
    }

    /** The loop of `recurse` over the successors of `state`. */
    method FollowAll(problem: Problem<S, A>, ghost reach: set<S>, ghost rank: S -> nat, state: S, pastCost: int)
      requires Closed(problem, reach) && Ranked(problem, reach, rank) && state in reach
      requires IsPath(problem, problem.start, history, state) && pastCost == Cost(history)
      modifies this
      ensures history == old(history)
      ensures Snapshot() == VisitEdges(problem, reach, rank, state, pastCost, old(history), |problem.succ(state)|,
                                       old(Snapshot()))
      decreases rank(state), 0, |problem.succ(state)| + 1
    {
      var successors := problem.succ(state);
      for i := 0 to |successors|
        invariant history == old(history)
        invariant IsPath(problem, problem.start, history, state) && pastCost == Cost(history)
        invariant Snapshot() == VisitEdges(problem, reach, rank, state, pastCost, old(history), i, old(Snapshot()))
      {
        Follow(problem, reach, rank, state, pastCost, i);
      }
    }

    /**
     * One turn of `recurse`'s loop over the successors of `state`: append edge
     * `i` to the history, recurse into its destination, pop the edge again.
     */
    method Follow(problem: Problem<S, A>, ghost reach: set<S>, ghost rank: S -> nat, state: S, pastCost: int, i: nat)
      requires Closed(problem, reach) && Ranked(problem, reach, rank) && state in reach && i < |problem.succ(state)|
      requires IsPath(problem, problem.start, history, state) && pastCost == Cost(history)
      modifies this
      ensures history == old(history)
      ensures var e := problem.succ(state)[i];
              e.dest in reach &&
              Snapshot() == Visit(problem, reach, rank, e.dest, pastCost + e.cost, old(history) + [e], old(Snapshot()))
      decreases rank(state), 0, i
    {
      var e := problem.succ(state)[i];
      assert e in problem.succ(state);
      PathSnoc(problem, problem.start, history, state, e);
      history := history + [e];
      Recurse(problem, reach, rank, e.dest, pastCost + e.cost);
      assert history[..|history| - 1] == old(history);
      history := history[..|history| - 1];
    }

    /**
     * `solve`: resets the fields and runs `recurse` from the start state with
     * cost 0 and an empty history. A recorded solution is a goal reached from
     * the start by a path that meets no earlier goal, labelled by the recorded
     * actions and costing the recorded total; no recorded solution means no
     * goal is reachable at all.
     */
    method Solve(problem: Problem<S, A>, ghost reach: set<S>, ghost rank: S -> nat)
      requires Closed(problem, reach) && Ranked(problem, reach, rank)
      modifies this
      ensures Snapshot() == Visit(problem, reach, rank, problem.start, 0, [], Initial())
      ensures history == []
      ensures Consistent(problem, Snapshot())
      ensures solution.Some? ==>
        && problem.isGoal(solution.value)
        && exists path :: && IsPath(problem, problem.start, path, solution.value)
                          && AvoidsGoals(problem, problem.start, path)
                          && actions == Some(Actions(path)) && totalCost == Some(Cost(path))
      ensures solution.None? ==> NoGoalReachable(problem)
      ensures problem.isGoal(problem.start) ==>
        solution == Some(problem.start) && actions == Some([]) && totalCost == Some(0) && numStatesExplored == 1
    {
      solution, actions, totalCost := None, None, None;
      numStatesExplored := 0;
      size := 0;
      history := [];
      expanded := [];
      assert IsPath(problem, problem.start, history, problem.start);
      Recurse(problem, reach, rank, problem.start, 0);
      ghost var st := Visit(problem, reach, rank, problem.start, 0, [], Initial());
      VisitConsistent(problem, reach, rank, problem.start, 0, [], Initial());
      if st.solution.Some? {
        VisitSound(problem, reach, rank, problem.start, 0, [], Initial());
        var path :| && IsPath(problem, problem.start, path, st.solution.value)
                    && AvoidsGoals(problem, problem.start, path)
                    && st.actions == Some(Actions([] + path)) && st.totalCost == Some(0 + Cost(path));
        assert [] + path == path;
      } else {
        VisitComplete(problem, reach, rank, problem.start, 0, [], Initial());
      }
    }
  }
}
