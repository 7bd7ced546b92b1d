/**
 * Dynamic programming over an acyclic search graph: the memoized future cost
 * of a state (0 at a goal, otherwise the cheapest `cost + futureCost(newState)`
 * over its edges), cached with the edge achieving it, followed by the
 * reconstruction of the solution along the cached edges. The source's `min` of
 * an empty sequence raises; here that failure, and its propagation through the
 * recursion, is the `None` of an `Option`.
 */
module DynamicProgramming {
  import opened SearchProblems

  /** A cache entry: (futureCost, best action, newState, cost), as the source stores it. */
  type Entry<S, A> = (int, A, S, int)

  /**
   * The future cost of `state`, or `None` when computing it fails because a
   * non-goal state without successors is met on the way.
   */
  ghost function FutureCost<S(!new), A(!new)>(p: Problem<S, A>, reach: set<S>, rank: S -> nat, state: S): (r: Option<int>)
    requires Closed(p, reach) && Ranked(p, reach, rank) && state in reach
    ensures !p.isGoal(state) && p.succ(state) == [] ==> r.None?
    decreases rank(state), 1, 0
  {
    if p.isGoal(state) then Some(0)
    else
      match Cheapest(p, reach, rank, state, |p.succ(state)|)
      case None => None
      case Some(entry) => Some(entry.0)
  }

  /** The future cost of the destination of edge `j` out of `state`. */
  ghost function ChildCost<S(!new), A(!new)>(p: Problem<S, A>, reach: set<S>, rank: S -> nat, state: S, j: nat): Option<int>
    requires Closed(p, reach) && Ranked(p, reach, rank) && state in reach && j < |p.succ(state)|
    decreases rank(state), 0, 0
  {
    assert p.succ(state)[j] in p.succ(state);
    FutureCost(p, reach, rank, p.succ(state)[j].dest)
  }

  /**
   * `min` over the first `k` candidates `(cost + futureCost(newState), action,
   * newState, cost)`, taken in the order the edges are listed, keeping the
   * earliest of equally cheap ones; `None` when there is no candidate or one of
   * the future costs fails.
   */
  ghost function Cheapest<S(!new), A(!new)>(p: Problem<S, A>, reach: set<S>, rank: S -> nat, state: S, k: nat)
    : (r: Option<Entry<S, A>>)
    requires Closed(p, reach) && Ranked(p, reach, rank) && state in reach && k <= |p.succ(state)|
    ensures r.Some? ==> exists j :: 0 <= j < k && p.succ(state)[j] == Edge(r.value.1, r.value.2, r.value.3)
    decreases rank(state), 0, k
  {
    if k == 0 then None
    else
      var e := p.succ(state)[k - 1];
      var fc := ChildCost(p, reach, rank, state, k - 1);
      var prev := Cheapest(p, reach, rank, state, k - 1);
      if fc.None? || (k > 1 && prev.None?) then None
      else if k == 1 || e.cost + fc.value < prev.value.0 then Some((e.cost + fc.value, e.action, e.dest, e.cost))
      else prev
  }

  /** The `min` over the first `k` candidates fails exactly when there is none or one of their future costs fails. */
  lemma {:induction false} CheapestFails<S(!new), A(!new)>(p: Problem<S, A>, reach: set<S>, rank: S -> nat, state: S, k: nat)
    requires Closed(p, reach) && Ranked(p, reach, rank) && state in reach && k <= |p.succ(state)|
    ensures Cheapest(p, reach, rank, state, k).None? <==>
              k == 0 || exists j :: 0 <= j < k && ChildCost(p, reach, rank, state, j).None?
    decreases k
  {
    if k > 0 {
      var e := p.succ(state)[k - 1];
      var fc := ChildCost(p, reach, rank, state, k - 1);
      var prev := Cheapest(p, reach, rank, state, k - 1);
      assert Cheapest(p, reach, rank, state, k) ==
        if fc.None? || (k > 1 && prev.None?) then None
        else if k == 1 || e.cost + fc.value < prev.value.0 then Some((e.cost + fc.value, e.action, e.dest, e.cost))
        else prev;
      if k > 1 {
        CheapestFails(p, reach, rank, state, k - 1);
      }
      if fc.None? {
        assert ChildCost(p, reach, rank, state, k - 1).None?;
        assert exists j :: 0 <= j < k && ChildCost(p, reach, rank, state, j).None?;
        assert Cheapest(p, reach, rank, state, k).None?;
      } else if k > 1 && Cheapest(p, reach, rank, state, k - 1).None? {
        assert Cheapest(p, reach, rank, state, k) == None;
        var j :| 0 <= j < k - 1 && ChildCost(p, reach, rank, state, j).None?;
        assert 0 <= j < k && ChildCost(p, reach, rank, state, j).None?;
      } else {
        assert Cheapest(p, reach, rank, state, k).Some?;
        forall j | 0 <= j < k ensures ChildCost(p, reach, rank, state, j).Some? {
          if j < k - 1 {
            assert !(0 <= j < k - 1 && ChildCost(p, reach, rank, state, j).None?);
          }
        }
      }
    }
  }

  /**
   * The candidate the `min` over the first `k` candidates picks is one of those
   * edges with its future cost, and is no dearer than any of them.
   */
  lemma {:induction false} CheapestPicks<S(!new), A(!new)>(p: Problem<S, A>, reach: set<S>, rank: S -> nat, state: S, k: nat)
    requires Closed(p, reach) && Ranked(p, reach, rank) && state in reach && k <= |p.succ(state)|
    requires Cheapest(p, reach, rank, state, k).Some?
    ensures var entry := Cheapest(p, reach, rank, state, k).value;
            && (exists j :: && 0 <= j < k && p.succ(state)[j] == Edge(entry.1, entry.2, entry.3)
                            && ChildCost(p, reach, rank, state, j) == Some(entry.0 - entry.3))
            && (forall j :: 0 <= j < k ==> && ChildCost(p, reach, rank, state, j).Some?
                                           && entry.0 <= p.succ(state)[j].cost + ChildCost(p, reach, rank, state, j).value)
    decreases k
  {
    var entry := Cheapest(p, reach, rank, state, k).value;
    var e := p.succ(state)[k - 1];
    var fc := ChildCost(p, reach, rank, state, k - 1);
    assert fc.Some?;
    if k == 1 {
      assert entry == (e.cost + fc.value, e.action, e.dest, e.cost);
      assert p.succ(state)[k - 1] == Edge(entry.1, entry.2, entry.3);
    } else {
      var prev := Cheapest(p, reach, rank, state, k - 1);
      assert prev.Some?;
      CheapestPicks(p, reach, rank, state, k - 1);
      if e.cost + fc.value < prev.value.0 {
        assert entry == (e.cost + fc.value, e.action, e.dest, e.cost);
        assert p.succ(state)[k - 1] == Edge(entry.1, entry.2, entry.3);
      } else {
        assert entry == prev.value;
        var j :| && 0 <= j < k - 1 && p.succ(state)[j] == Edge(entry.1, entry.2, entry.3)
                 && ChildCost(p, reach, rank, state, j) == Some(entry.0 - entry.3);
        assert 0 <= j < k;
      }
    }
  }

  /**
   * The recurrence of `recurse`: a non-goal state's future cost exists exactly
   * when it has successors and all of theirs exist, and it is then the least
   * `cost + futureCost(newState)` over its edges.
   */
  lemma Recurrence<S(!new), A(!new)>(p: Problem<S, A>, reach: set<S>, rank: S -> nat, state: S)
    requires Closed(p, reach) && Ranked(p, reach, rank) && state in reach
    ensures p.isGoal(state) ==> FutureCost(p, reach, rank, state) == Some(0)
    ensures !p.isGoal(state) ==>
      (FutureCost(p, reach, rank, state).Some? <==>
         |p.succ(state)| > 0 && forall e :: e in p.succ(state) ==> FutureCost(p, reach, rank, e.dest).Some?)
    ensures !p.isGoal(state) && FutureCost(p, reach, rank, state).Some? ==>
      var v := FutureCost(p, reach, rank, state).value;
      && (exists e :: e in p.succ(state) && FutureCost(p, reach, rank, e.dest) == Some(v - e.cost))
      && (forall e :: e in p.succ(state) ==> v <= e.cost + FutureCost(p, reach, rank, e.dest).value)
  {
    if !p.isGoal(state) {
      var succs := p.succ(state);
      CheapestFails(p, reach, rank, state, |succs|);
      if Cheapest(p, reach, rank, state, |succs|).Some? {
        CheapestPicks(p, reach, rank, state, |succs|);
      }
      forall e | e in succs ensures exists j :: 0 <= j < |succs| && succs[j] == e {
        var j :| 0 <= j < |succs| && succs[j] == e;
      }
      if FutureCost(p, reach, rank, state).Some? {
        var entry := Cheapest(p, reach, rank, state, |succs|).value;
        var j :| 0 <= j < |succs| && succs[j] == Edge(entry.1, entry.2, entry.3)
                 && ChildCost(p, reach, rank, state, j) == Some(entry.0 - entry.3);
        assert succs[j] in succs;
      } else if |succs| > 0 {
        var j :| 0 <= j < |succs| && ChildCost(p, reach, rank, state, j).None?;
        assert succs[j] in succs;
      }
    }
  }

  /** A future cost is a lower bound: no path from `state` that stops at its first goal is cheaper. */
  lemma {:induction false} FutureCostOptimal<S(!new), A(!new)>(p: Problem<S, A>, reach: set<S>, rank: S -> nat, state: S,
                                                              path: seq<Edge<S, A>>, t: S)
    requires Closed(p, reach) && Ranked(p, reach, rank) && state in reach
    requires FutureCost(p, reach, rank, state).Some?
    requires IsPath(p, state, path, t) && p.isGoal(t) && AvoidsGoals(p, state, path)
    ensures FutureCost(p, reach, rank, state).value <= Cost(path)
    decreases |path|
  {
    if path != [] {
      Recurrence(p, reach, rank, state);
      var e := path[0];
      FutureCostOptimal(p, reach, rank, e.dest, path[1..], t);
    }
  }

  /** A non-goal state without successors, reached from `state` by a path that meets no goal. */
  ghost predicate DeadEndReachable<S(!new), A(!new)>(p: Problem<S, A>, state: S)
  {
    exists path, t :: IsPath(p, state, path, t) && AvoidsGoals(p, state, path) && !p.isGoal(t) && p.succ(t) == []
  }

  /** Meeting a dead end makes the future cost fail. */
  lemma {:induction false} DeadEndFails<S(!new), A(!new)>(p: Problem<S, A>, reach: set<S>, rank: S -> nat, state: S,
                                                         path: seq<Edge<S, A>>, t: S)
    requires Closed(p, reach) && Ranked(p, reach, rank) && state in reach
    requires IsPath(p, state, path, t) && AvoidsGoals(p, state, path) && !p.isGoal(t) && p.succ(t) == []
    ensures FutureCost(p, reach, rank, state).None?
    decreases |path|
  {
    Recurrence(p, reach, rank, state);
    if path != [] {
      DeadEndFails(p, reach, rank, path[0].dest, path[1..], t);
    }
  }

  /** A failing future cost comes from a dead end. */
  lemma {:induction false} FailureWitness<S(!new), A(!new)>(p: Problem<S, A>, reach: set<S>, rank: S -> nat, state: S)
    returns (path: seq<Edge<S, A>>, t: S)
    requires Closed(p, reach) && Ranked(p, reach, rank) && state in reach
    requires FutureCost(p, reach, rank, state).None?
    ensures IsPath(p, state, path, t) && AvoidsGoals(p, state, path) && !p.isGoal(t) && p.succ(t) == []
    decreases rank(state)
  {
    Recurrence(p, reach, rank, state);
    if p.succ(state) == [] {
      path, t := [], state;
    } else {
      var e :| e in p.succ(state) && FutureCost(p, reach, rank, e.dest).None?;
      var rest;
      rest, t := FailureWitness(p, reach, rank, e.dest);
      path := [e] + rest;
      assert path[0] == e && path[1..] == rest;
    }
  }

  /** The future cost fails exactly when a dead end is reachable without passing a goal. */
  lemma FailsIffDeadEnd<S(!new), A(!new)>(p: Problem<S, A>, reach: set<S>, rank: S -> nat, state: S)
    requires Closed(p, reach) && Ranked(p, reach, rank) && state in reach
    ensures FutureCost(p, reach, rank, state).None? <==> DeadEndReachable(p, state)
  {
    if FutureCost(p, reach, rank, state).None? {
      var path, t := FailureWitness(p, reach, rank, state);
    } else if DeadEndReachable(p, state) {
      var path, t :| IsPath(p, state, path, t) && AvoidsGoals(p, state, path) && !p.isGoal(t) && p.succ(t) == [];
      DeadEndFails(p, reach, rank, state, path, t);
    }
  }

  /**
   * The memo table: every cached state is a non-goal state of `reach` whose
   * entry is the candidate `min` picks, and the state that entry leads to is a
   * goal or cached as well.
   */
  ghost predicate CacheOk<S(!new), A(!new)>(p: Problem<S, A>, reach: set<S>, rank: S -> nat, cache: map<S, Entry<S, A>>)
    requires Closed(p, reach) && Ranked(p, reach, rank)
  {
    forall s :: s in cache ==>
      && s in reach && !p.isGoal(s)
      && Cheapest(p, reach, rank, s, |p.succ(s)|) == Some(cache[s])
      && (!p.isGoal(cache[s].2) ==> cache[s].2 in cache)
  }

  /**
   * `recurse(state)` with the memo table passed in and out: returns the future
   * cost of `state` (`None` where the source raises), keeps every cached entry
   * and the table's invariant, and caches `state` when it is not a goal and its
   * future cost exists.
   */
  method Recurse<S(==,!new), A(==,!new)>(p: Problem<S, A>, ghost reach: set<S>, ghost rank: S -> nat, state: S,
                                         cache0: map<S, Entry<S, A>>)
    returns (r: Option<int>, cache: map<S, Entry<S, A>>)
    requires Closed(p, reach) && Ranked(p, reach, rank) && state in reach
    requires CacheOk(p, reach, rank, cache0)
    ensures r == FutureCost(p, reach, rank, state)
    ensures CacheOk(p, reach, rank, cache) && cache0.Keys <= cache.Keys
    ensures r.Some? && !p.isGoal(state) ==> state in cache
    decreases rank(state), 1
  {
    // base case
    if p.isGoal(state) {
      return Some(0), cache0;
    }
    // recursive case
    cache := cache0;
    if state !in cache {
      var best: Option<Entry<S, A>>;
      best, cache := MinCandidate(p, reach, rank, state, cache);
      if best.None? {
        return None, cache;
      }
      CheapestPicks(p, reach, rank, state, |p.succ(state)|);
      cache := cache[state := best.value];
    }
    r := Some(cache[state].0);
  }

  /**
   * The `min(...)` of `recurse`: walks the edges of `state` in order, recursing
   * into each destination, and keeps the first cheapest candidate; `None` when
   * there is no edge or a recursive call fails.
   */
  method MinCandidate<S(==,!new), A(==,!new)>(p: Problem<S, A>, ghost reach: set<S>, ghost rank: S -> nat, state: S,
                                              cache0: map<S, Entry<S, A>>)
    returns (best: Option<Entry<S, A>>, cache: map<S, Entry<S, A>>)
    requires Closed(p, reach) && Ranked(p, reach, rank) && state in reach
    requires CacheOk(p, reach, rank, cache0)
    ensures best == Cheapest(p, reach, rank, state, |p.succ(state)|)
    ensures CacheOk(p, reach, rank, cache) && cache0.Keys <= cache.Keys
    ensures forall j :: 0 <= j < |p.succ(state)| && best.Some? && !p.isGoal(p.succ(state)[j].dest) ==>
              p.succ(state)[j].dest in cache
    decreases rank(state), 0
  {
    var successors := p.succ(state);
    best := None;
    cache := cache0;
    for i := 0 to |successors|
      invariant CacheOk(p, reach, rank, cache) && cache0.Keys <= cache.Keys
      invariant best == Cheapest(p, reach, rank, state, i)
      invariant i > 0 ==> best.Some?
      invariant forall j :: 0 <= j < i && !p.isGoal(successors[j].dest) ==> successors[j].dest in cache
    {
      var failed;
      failed, best, cache := Offer(p, reach, rank, state, i, best, cache);
      if failed {
        // the exception raised by the recursive call propagates out of `min`
        return None, cache;
      }
    }
  }

  /**
   * One candidate of the `min(...)`: recurses into the destination of edge `i`
   * and keeps the new candidate if it is strictly cheaper than `best0`; fails
   * when the recursive call does.
   */
  method Offer<S(==,!new), A(==,!new)>(p: Problem<S, A>, ghost reach: set<S>, ghost rank: S -> nat, state: S, i: nat,
                                       best0: Option<Entry<S, A>>, cache0: map<S, Entry<S, A>>)
    returns (failed: bool, best: Option<Entry<S, A>>, cache: map<S, Entry<S, A>>)
    requires Closed(p, reach) && Ranked(p, reach, rank) && state in reach && i < |p.succ(state)|
    requires CacheOk(p, reach, rank, cache0)
    requires best0 == Cheapest(p, reach, rank, state, i) && (i > 0 ==> best0.Some?)
    ensures CacheOk(p, reach, rank, cache) && cache0.Keys <= cache.Keys
    ensures failed ==> Cheapest(p, reach, rank, state, |p.succ(state)|).None?
    ensures !failed ==> best == Cheapest(p, reach, rank, state, i + 1) && best.Some?
    ensures !failed && !p.isGoal(p.succ(state)[i].dest) ==> p.succ(state)[i].dest in cache
    decreases rank(state), 0, 0
  {
    var e := p.succ(state)[i];
    assert e in p.succ(state);
    var futureCost;
    futureCost, cache := Recurse(p, reach, rank, e.dest, cache0);
    failed := futureCost.None?;
    if failed {
      Abandon(p, reach, rank, state, i + 1);
      best := None;
    } else {
      var candidate := (e.cost + futureCost.value, e.action, e.dest, e.cost);
      Keep(p, reach, rank, state, i, futureCost.value);
      if best0.None? || candidate.0 < best0.value.0 {
        best := Some(candidate);
      } else {
        best := best0;
      }
    }
  }

  /** How one more successor with future cost `fc` changes the cheapest candidate. */
  lemma Keep<S(!new), A(!new)>(p: Problem<S, A>, reach: set<S>, rank: S -> nat, state: S, i: nat, fc: int)
    requires Closed(p, reach) && Ranked(p, reach, rank) && state in reach && i < |p.succ(state)|
    requires ChildCost(p, reach, rank, state, i) == Some(fc)
    requires i > 0 ==> Cheapest(p, reach, rank, state, i).Some?
    ensures var e := p.succ(state)[i];
            var prev := Cheapest(p, reach, rank, state, i);
            Cheapest(p, reach, rank, state, i + 1) ==
              if prev.None? || e.cost + fc < prev.value.0 then Some((e.cost + fc, e.action, e.dest, e.cost)) else prev
  {
  }

  /** One failing future cost among the first `k` edges makes the whole `min` fail. */
  lemma {:induction false} Abandon<S(!new), A(!new)>(p: Problem<S, A>, reach: set<S>, rank: S -> nat, state: S, k: nat)
    requires Closed(p, reach) && Ranked(p, reach, rank) && state in reach && 0 < k <= |p.succ(state)|
    requires ChildCost(p, reach, rank, state, k - 1).None?
    ensures Cheapest(p, reach, rank, state, |p.succ(state)|).None?
  {
    CheapestFails(p, reach, rank, state, |p.succ(state)|);
  }

  /**
   * `dynamicProgramming(problem)`: the future cost of the start state and the
   * edges found by following the cached best edges from the start to a goal;
   * `None` where the source raises, which happens exactly when a dead end is
   * reachable without passing a goal. Otherwise the edges form a path from the
   * start to a goal that meets no earlier goal, their costs sum to the returned
   * total, and no such path is cheaper.
   */
  method DynamicProgramming<S(==,!new), A(==,!new)>(p: Problem<S, A>, ghost reach: set<S>, ghost rank: S -> nat)
    returns (r: Option<(int, seq<Edge<S, A>>)>)
    requires Closed(p, reach) && Ranked(p, reach, rank)
    ensures r.None? <==> DeadEndReachable(p, p.start)
    ensures r.Some? ==>
      var (totalCost, history) := r.value;
      && IsPath(p, p.start, history, End(p.start, history)) && p.isGoal(End(p.start, history))
      && AvoidsGoals(p, p.start, history)
      && Cost(history) == totalCost
      && forall path, t :: IsPath(p, p.start, path, t) && p.isGoal(t) && AvoidsGoals(p, p.start, path) ==>
                           totalCost <= Cost(path)
    ensures r.Some? && NonNegative(p, reach) ==> GoalCostsAtLeast(p, r.value.0)
  {
    FailsIffDeadEnd(p, reach, rank, p.start);
    var futureCost, cache := Recurse(p, reach, rank, p.start, map[]);
    if futureCost.None? {
      return None;
    }
    var totalCost := futureCost.value;
    forall path, t | IsPath(p, p.start, path, t) && p.isGoal(t) && AvoidsGoals(p, p.start, path)
      ensures totalCost <= Cost(path)
    {
      FutureCostOptimal(p, reach, rank, p.start, path, t);
    }
    if NonNegative(p, reach) {
      // a goal path that passes an earlier goal costs at least its first-goal prefix
      forall path, t | IsPath(p, p.start, path, t) && p.isGoal(t)
        ensures totalCost <= Cost(path)
      {
        FirstGoalNoDearer(p, reach, p.start, path, t);
        var pre, g :| IsPath(p, p.start, pre, g) && p.isGoal(g) && AvoidsGoals(p, p.start, pre) && Cost(pre) <= Cost(path);
        FutureCostOptimal(p, reach, rank, p.start, pre, g);
      }
    }

    // reconstruct the solution
    var state := p.start;
    var history: seq<Edge<S, A>> := [];
    while !p.isGoal(state)
      invariant state in reach && FutureCost(p, reach, rank, state).Some?
      invariant IsPath(p, p.start, history, state) && AvoidsGoals(p, p.start, history)
      invariant Cost(history) + FutureCost(p, reach, rank, state).value == totalCost
      invariant !p.isGoal(state) ==> state in cache
      decreases rank(state)
    {
      var (_, action, newState, cost) := cache[state];
      var e := Edge(action, newState, cost);
      FollowEntry(p, reach, rank, cache, state);
      AvoidsSnoc(p, p.start, history, state, e);
      PathSnoc(p, p.start, history, state, e);
      history := history + [e];
      state := newState;
    }
    PathEnd(p, p.start, history, state);
    r := Some((totalCost, history));
  }

  /** The cached entry of `state` is an edge out of it to a state whose future cost makes up the difference. */
  lemma FollowEntry<S(!new), A(!new)>(p: Problem<S, A>, reach: set<S>, rank: S -> nat, cache: map<S, Entry<S, A>>, state: S)
    requires Closed(p, reach) && Ranked(p, reach, rank) && CacheOk(p, reach, rank, cache) && state in cache
    ensures var entry := cache[state];
      && Edge(entry.1, entry.2, entry.3) in p.succ(state) && entry.2 in reach && rank(entry.2) < rank(state)
      && FutureCost(p, reach, rank, state) == Some(entry.0)
      && FutureCost(p, reach, rank, entry.2) == Some(entry.0 - entry.3)
      && (!p.isGoal(entry.2) ==> entry.2 in cache)
  {
    var entry := cache[state];
    CheapestPicks(p, reach, rank, state, |p.succ(state)|);
    var j :| 0 <= j < |p.succ(state)| && p.succ(state)[j] == Edge(entry.1, entry.2, entry.3)
             && ChildCost(p, reach, rank, state, j) == Some(entry.0 - entry.3);
    assert p.succ(state)[j] in p.succ(state);
  }

  /** Extending a goal-free path by an edge out of a non-goal state keeps it goal-free. */
  lemma {:induction false} AvoidsSnoc<S(!new), A(!new)>(p: Problem<S, A>, from: S, path: seq<Edge<S, A>>, mid: S, e: Edge<S, A>)
    requires IsPath(p, from, path, mid) && AvoidsGoals(p, from, path) && !p.isGoal(mid)
    ensures AvoidsGoals(p, from, path + [e])
    decreases |path|
  {
    if path != [] {
      assert (path + [e])[1..] == path[1..] + [e];
      AvoidsSnoc(p, path[0].dest, path[1..], mid, e);
    } else {
      assert [e][1..] == [];
    }
  }
}
