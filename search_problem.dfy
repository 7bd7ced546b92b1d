/**
 * The search-problem interface shared by every solver: a start state, a goal
 * test and a successor enumeration returning (action, new state, cost) edges,
 * together with the vocabulary of paths that the solvers' contracts use.
 */
module SearchProblems {

  datatype Option<T> = None | Some(value: T)

  /** One edge out of a state: the action labelling it, the state it leads to and its cost. */
  datatype Edge<S, A> = Edge(action: A, dest: S, cost: int)

  /**
   * A search problem: `startState`, `isGoal` and `succAndCost` of the source's
   * abstract interface, as three pure components.
   */
  datatype Problem<!S, A> = Problem(start: S, isGoal: S -> bool, succ: S -> seq<Edge<S, A>>)

  /** `path` is a sequence of edges leading from `from` to `to`, each taken out of the state the previous one reached. */
  ghost predicate IsPath<S(!new), A(!new)>(p: Problem<S, A>, from: S, path: seq<Edge<S, A>>, to: S)
    decreases |path|
  {
    if path == [] then from == to
    else path[0] in p.succ(from) && IsPath(p, path[0].dest, path[1..], to)
  }

  /** The state a path starting at `from` ends in. */
  function End<S(!new), A(!new)>(from: S, path: seq<Edge<S, A>>): S
  {
    if path == [] then from else path[|path| - 1].dest
  }

  /** The sum of the costs along a path. */
  function Cost<S(!new), A(!new)>(path: seq<Edge<S, A>>): int
    decreases |path|
  {
    if path == [] then 0 else path[0].cost + Cost(path[1..])
  }

  /** The action column of a path. */
  function Actions<S(!new), A(!new)>(path: seq<Edge<S, A>>): (r: seq<A>)
    ensures |r| == |path|
    ensures forall i :: 0 <= i < |path| ==> r[i] == path[i].action
  {
    seq(|path|, i requires 0 <= i < |path| => path[i].action)
  }

  /** No state before the end of the path is a goal (the path stops at the first goal it meets). */
  ghost predicate AvoidsGoals<S(!new), A(!new)>(p: Problem<S, A>, from: S, path: seq<Edge<S, A>>)
    decreases |path|
  {
    path == [] || (!p.isGoal(from) && AvoidsGoals(p, path[0].dest, path[1..]))
  }

  /** No path from the start state ends in a goal. */
  ghost predicate NoGoalReachable<S(!new), A(!new)>(p: Problem<S, A>)
  {
    forall path, t :: IsPath(p, p.start, path, t) ==> !p.isGoal(t)
  }

  /** Every path from the start state to a goal costs at least `c`. */
  ghost predicate GoalCostsAtLeast<S(!new), A(!new)>(p: Problem<S, A>, c: int)
  {
    forall path, t :: IsPath(p, p.start, path, t) && p.isGoal(t) ==> c <= Cost(path)
  }

  /** `reach` holds the start state and every successor of its members: the finite part of the space a search can see. */
  ghost predicate Closed<S(!new), A(!new)>(p: Problem<S, A>, reach: set<S>)
  {
    && p.start in reach
    && forall u, e :: u in reach && e in p.succ(u) ==> e.dest in reach
  }

  /** Every edge out of a state of `reach` has a non-negative cost. */
  ghost predicate NonNegative<S(!new), A(!new)>(p: Problem<S, A>, reach: set<S>)
  {
    forall u, e :: u in reach && e in p.succ(u) ==> e.cost >= 0
  }

  /** `rank` strictly decreases along every edge out of `reach`: the graph seen from `reach` is acyclic. */
  ghost predicate Ranked<S(!new), A(!new)>(p: Problem<S, A>, reach: set<S>, rank: S -> nat)
  {
    forall u, e :: u in reach && e in p.succ(u) ==> rank(e.dest) < rank(u)
  }

  /** Extending a path by one edge out of its last state gives a path to that edge's destination. */
  lemma {:induction false} PathSnoc<S(!new), A(!new)>(p: Problem<S, A>, from: S, path: seq<Edge<S, A>>, mid: S, e: Edge<S, A>)
    requires IsPath(p, from, path, mid) && e in p.succ(mid)
    ensures IsPath(p, from, path + [e], e.dest)
    ensures Cost(path + [e]) == Cost(path) + e.cost
    ensures Actions(path + [e]) == Actions(path) + [e.action]
    decreases |path|
  {
    if path == [] {
      assert [e][1..] == [];
    } else {
      assert (path + [e])[1..] == path[1..] + [e];
      PathSnoc(p, path[0].dest, path[1..], mid, e);
    }
  }

  /** A path ends in the state `End` names. */
  lemma {:induction false} PathEnd<S(!new), A(!new)>(p: Problem<S, A>, from: S, path: seq<Edge<S, A>>, to: S)
    requires IsPath(p, from, path, to)
    ensures End(from, path) == to
    decreases |path|
  {
    if path != [] {
      PathEnd(p, path[0].dest, path[1..], to);
      if |path| > 1 {
        assert path[1..][|path| - 2] == path[|path| - 1];
      }
    }
  }

  /** A path inside a set with non-negative edge costs has a non-negative cost. */
  lemma {:induction false} CostNonNegative<S(!new), A(!new)>(p: Problem<S, A>, reach: set<S>, from: S, path: seq<Edge<S, A>>, to: S)
    requires Closed(p, reach) && NonNegative(p, reach) && from in reach && IsPath(p, from, path, to)
    ensures Cost(path) >= 0
    decreases |path|
  {
    if path != [] {
      CostNonNegative(p, reach, path[0].dest, path[1..], to);
    }
  }

  /**
   * With non-negative costs, a path to a goal is never cheaper than the part of
   * it that stops at the first goal it meets: cutting it there gives a path
   * that avoids earlier goals and costs no more.
   */
  lemma {:induction false} FirstGoalNoDearer<S(!new), A(!new)>(p: Problem<S, A>, reach: set<S>, from: S,
                                                              path: seq<Edge<S, A>>, t: S)
    requires Closed(p, reach) && NonNegative(p, reach) && from in reach
    requires IsPath(p, from, path, t) && p.isGoal(t)
    ensures exists pre, g :: IsPath(p, from, pre, g) && p.isGoal(g) && AvoidsGoals(p, from, pre) && Cost(pre) <= Cost(path)
    decreases |path|
  {
    if p.isGoal(from) {
      CostNonNegative(p, reach, from, path, t);
      var pre: seq<Edge<S, A>> := [];
      assert IsPath(p, from, pre, from) && AvoidsGoals(p, from, pre) && Cost(pre) == 0;
    } else {
      var e := path[0];
      FirstGoalNoDearer(p, reach, e.dest, path[1..], t);
      var rest, g :| IsPath(p, e.dest, rest, g) && p.isGoal(g) && AvoidsGoals(p, e.dest, rest) && Cost(rest) <= Cost(path[1..]);
      var pre := [e] + rest;
      assert pre[0] == e && pre[1..] == rest;
      assert IsPath(p, from, pre, g) && AvoidsGoals(p, from, pre) && Cost(pre) <= Cost(path);
    }
  }
}
