/**
 * The invariants of uniform-cost search and the lemmas that carry them
 * through one removal and one relaxation.
 *
 * The proof keeps three ghost maps beside the real frontier and backpointers:
 * `dist`, the priority each discovered state was last given (frozen once the
 * state is finalized, where the queue itself forgets it behind `DONE`);
 * `order`, the position at which each finalized state was removed; and
 * `bpCost`, the cost of the edge each backpointer stands for.
 */
module UniformCostInvariants {
  import opened SearchProblems
  import opened PriorityQueues

  /** Every edge of `es` out of `u` leads to a discovered state whose priority is at most `dist[u]` plus the edge's cost. */
  ghost predicate RelaxedEdges<S(!new), A(!new)>(dist: map<S, int>, u: S, es: seq<Edge<S, A>>)
    requires u in dist
  {
    forall e :: e in es ==> e.dest in dist && dist[e.dest] <= dist[u] + e.cost
  }

  /** The queue's side of the invariant: coherence, ghost priorities that agree with the live ones, and monotone finalization. */
  ghost predicate FrontierOk<S(!new)>(reach: set<S>, heap: multiset<(int, S)>, prio: map<S, int>, dist: map<S, int>, last: int)
  {
    && Coherent(heap, prio)
    && dist.Keys == prio.Keys
    && prio.Keys <= reach
    && (forall v :: v in prio && prio[v] != DONE ==> dist[v] == prio[v])
    && (forall v :: v in prio && prio[v] == DONE ==> dist[v] <= last)
    && (forall e :: e in heap ==> last <= e.0)
    && last >= 0
  }

  /** The predecessor a backpointer names. */
  ghost function Predecessor<S(!new), A(!new)>(bp: map<S, (A, S)>, v: S): S
    requires v in bp
  {
    bp[v].1
  }

  /**
   * Each discovered state other than the start has a backpointer (action,
   * predecessor) to a finalized predecessor along an edge whose cost accounts
   * for its priority; a finalized state's predecessor was finalized earlier.
   */
  ghost predicate BackpointersOk<S(!new), A(!new)>(p: Problem<S, A>, start: S, prio: map<S, int>, dist: map<S, int>,
                                       order: map<S, nat>, n: nat, bp: map<S, (A, S)>, bpCost: map<S, int>)
  {
    && dist.Keys == prio.Keys
    && order.Keys == FinalizedOf(prio)
    && (forall v :: v in order ==> order[v] < n)
    && bp.Keys == prio.Keys - {start}
    && bpCost.Keys == bp.Keys
    && (forall v {:trigger Predecessor(bp, v)} :: v in bp ==>
          && Predecessor(bp, v) in prio && prio[Predecessor(bp, v)] == DONE
          && Edge(bp[v].0, v, bpCost[v]) in p.succ(Predecessor(bp, v))
          && dist[Predecessor(bp, v)] + bpCost[v] == dist[v])
    && (forall v {:trigger Predecessor(bp, v)} :: v in bp && prio[v] == DONE ==> order[Predecessor(bp, v)] < order[v])
  }

  /** Until the start state is removed it is the queue's only entry; it keeps priority 0. */
  ghost predicate StartOk<S(!new)>(start: S, heap: multiset<(int, S)>, prio: map<S, int>, dist: map<S, int>)
  {
    && start in prio && start in dist && dist[start] == 0
    && (prio[start] != DONE ==> prio == map[start := 0] && heap == multiset{(0, start)})
  }

  /** No finalized state is a goal: the search would have stopped at it. */
  ghost predicate NoGoalFinalized<S(!new), A(!new)>(p: Problem<S, A>, prio: map<S, int>)
  {
    forall v :: v in prio && prio[v] == DONE ==> !p.isGoal(v)
  }

  /** Every finalized state other than `u` (all of them, when `u` is not finalized) has its edges relaxed. */
  ghost predicate RelaxedExcept<S(!new), A(!new)>(p: Problem<S, A>, prio: map<S, int>, dist: map<S, int>, u: S)
  {
    forall v :: v in prio && prio[v] == DONE && v != u && v in dist ==> RelaxedEdges(dist, v, p.succ(v))
  }

  /** Offering edge `e` at cost `q` improves on the queue: its destination is new or `q` is strictly lower. */
  ghost predicate Improves<S(!new), A(!new)>(e: Edge<S, A>, q: int, prio: map<S, int>)
  {
    e.dest !in prio || q < prio[e.dest]
  }

  /**
   * What one turn of the loop over successors does to the queue and the
   * backpointers: offering edge `e` of `u` at cost `q` answers `updated`
   * exactly when the destination is new or `q` is strictly lower, and then
   * lowers the destination's priority to `q`, pushes `(q, e.dest)` and points
   * the destination's backpointer at `u`; otherwise nothing changes.
   */
  ghost predicate Offered<S(!new), A(!new)>(e: Edge<S, A>, u: S, q: int, updated: bool,
                                           heap: multiset<(int, S)>, prio: map<S, int>, bp: map<S, (A, S)>,
                                           heap': multiset<(int, S)>, prio': map<S, int>, bp': map<S, (A, S)>)
  {
    && updated == Improves(e, q, prio)
    && (updated ==> prio' == prio[e.dest := q] && heap' == heap + multiset{(q, e.dest)}
                    && bp' == bp[e.dest := (e.action, u)])
    && (!updated ==> prio' == prio && heap' == heap && bp' == bp)
  }

  /**
   * What expanding `u` at cost `pastCost` may change: the heap only grows, no
   * priority is lost or raised, and every priority or backpointer that changed
   * belongs to the destination of an edge `e` out of `u`, with priority
   * `pastCost + e.cost` and backpointer `(e.action, u)`.
   */
  ghost predicate ExpandFrame<S(!new), A(!new)>(p: Problem<S, A>, u: S, pastCost: int,
                                               heap: multiset<(int, S)>, prio: map<S, int>, bp: map<S, (A, S)>,
                                               heap': multiset<(int, S)>, prio': map<S, int>, bp': map<S, (A, S)>)
  {
    && heap <= heap'
    && prio.Keys <= prio'.Keys
    && (forall s :: s in prio ==> prio'[s] <= prio[s])
    && (forall s :: s in prio' && (s !in prio || prio'[s] != prio[s]) ==>
          exists e :: e in p.succ(u) && e.dest == s && prio'[s] == pastCost + e.cost)
    && bp.Keys <= bp'.Keys
    && (forall s :: s in bp' && (s !in bp || bp'[s] != bp[s]) ==>
          exists e :: e in p.succ(u) && e.dest == s && bp'[s] == (e.action, u))
  }

  /** Nothing changed yet: the frame holds between a state and itself. */
  lemma FrameStart<S(!new), A(!new)>(p: Problem<S, A>, u: S, pastCost: int,
                                    heap: multiset<(int, S)>, prio: map<S, int>, bp: map<S, (A, S)>)
    ensures ExpandFrame(p, u, pastCost, heap, prio, bp, heap, prio, bp)
  {
  }

  /** One more turn, offering edge `i` of `u` at `pastCost` plus its cost, stays within the frame of the expansion. */
  lemma FrameStep<S(!new), A(!new)>(p: Problem<S, A>, u: S, pastCost: int, i: nat, e: Edge<S, A>, updated: bool,
                                   heap0: multiset<(int, S)>, prio0: map<S, int>, bp0: map<S, (A, S)>,
                                   heap: multiset<(int, S)>, prio: map<S, int>, bp: map<S, (A, S)>,
                                   heap': multiset<(int, S)>, prio': map<S, int>, bp': map<S, (A, S)>)
    requires i < |p.succ(u)| && e == p.succ(u)[i]
    requires ExpandFrame(p, u, pastCost, heap0, prio0, bp0, heap, prio, bp)
    requires Offered(e, u, pastCost + e.cost, updated, heap, prio, bp, heap', prio', bp')
    ensures ExpandFrame(p, u, pastCost, heap0, prio0, bp0, heap', prio', bp')
  {
    assert e in p.succ(u);
    if updated {
      forall s | s in prio' && (s !in prio0 || prio'[s] != prio0[s])
        ensures exists f :: f in p.succ(u) && f.dest == s && prio'[s] == pastCost + f.cost
      {
        if s != e.dest {
          assert prio'[s] == prio[s];
        }
      }
      forall s | s in bp' && (s !in bp0 || bp'[s] != bp0[s])
        ensures exists f :: f in p.succ(u) && f.dest == s && bp'[s] == (f.action, u)
      {
        if s != e.dest {
          assert bp'[s] == bp[s];
        }
      }
    }
  }

  /** The loop invariant at the head of the main loop. */
  ghost predicate SearchInv<S(!new), A(!new)>(p: Problem<S, A>, reach: set<S>, heap: multiset<(int, S)>, prio: map<S, int>,
                                  dist: map<S, int>, last: int, order: map<S, nat>, n: nat,
                                  bp: map<S, (A, S)>, bpCost: map<S, int>)
  {
    && FrontierOk(reach, heap, prio, dist, last)
    && BackpointersOk(p, p.start, prio, dist, order, n, bp, bpCost)
    && StartOk(p.start, heap, prio, dist)
    && NoGoalFinalized(p, prio)
    && (forall v :: v in prio && prio[v] == DONE && v in dist ==> RelaxedEdges(dist, v, p.succ(v)))
  }

  /** The loop invariant while the edges of the just-finalized state `u` are being relaxed. */
  ghost predicate ExpandInv<S(!new), A(!new)>(p: Problem<S, A>, reach: set<S>, heap: multiset<(int, S)>, prio: map<S, int>,
                                  dist: map<S, int>, order: map<S, nat>, n: nat,
                                  bp: map<S, (A, S)>, bpCost: map<S, int>, u: S, i: nat)
  {
    && u in prio && prio[u] == DONE && u in reach && u in dist
    && i <= |p.succ(u)|
    && FrontierOk(reach, heap, prio, dist, dist[u])
    && BackpointersOk(p, p.start, prio, dist, order, n, bp, bpCost)
    && StartOk(p.start, heap, prio, dist)
    && NoGoalFinalized(p, prio)
    && RelaxedExcept(p, prio, dist, u)
    && RelaxedEdges(dist, u, p.succ(u)[..i])
  }

  /**
   * The Dijkstra bound: when every finalized state is relaxed and `d` is at
   * most every live priority, any path from a finalized state `x` to a state
   * that is not finalized costs at least `d - dist[x]`.
   */
  lemma {:induction false} FrontierBound<S(!new), A(!new)>(p: Problem<S, A>, reach: set<S>, prio: map<S, int>, dist: map<S, int>,
                                               d: int, x: S, path: seq<Edge<S, A>>, t: S)
    requires Closed(p, reach) && NonNegative(p, reach)
    requires dist.Keys == prio.Keys && prio.Keys <= reach
    requires forall v :: v in prio && prio[v] == DONE && v in dist ==> RelaxedEdges(dist, v, p.succ(v))
    requires forall v :: v in prio && prio[v] != DONE ==> d <= dist[v]
    requires x in prio && prio[x] == DONE
    requires IsPath(p, x, path, t) && !(t in prio && prio[t] == DONE)
    ensures dist[x] + Cost(path) >= d
    decreases |path|
  {
    var e := path[0];
    assert RelaxedEdges(dist, x, p.succ(x));
    assert e.dest in dist && dist[e.dest] <= dist[x] + e.cost;
    if prio[e.dest] == DONE {
      FrontierBound(p, reach, prio, dist, d, e.dest, path[1..], t);
    } else {
      CostNonNegative(p, reach, e.dest, path[1..], t);
    }
  }

  /** With a coherent queue, a heap with no live entry means every discovered state is finalized. */
  lemma NothingLiveMeansAllFinalized<S(!new)>(heap: multiset<(int, S)>, prio: map<S, int>)
    requires Coherent(heap, prio) && !HasLive(heap, prio)
    ensures FinalizedOf(prio) == prio.Keys
  {
  }

  /**
   * The state removed next, with priority `d`, is cheapest: every path from the
   * start to a goal costs at least `d`.
   */
  lemma GoalPathsCostAtLeast<S(!new), A(!new)>(p: Problem<S, A>, reach: set<S>, heap: multiset<(int, S)>, prio: map<S, int>,
                                   dist: map<S, int>, last: int, order: map<S, nat>, n: nat,
                                   bp: map<S, (A, S)>, bpCost: map<S, int>, u: S, d: int)
    requires Closed(p, reach) && NonNegative(p, reach)
    requires SearchInv(p, reach, heap, prio, dist, last, order, n, bp, bpCost)
    requires (d, u) in heap
    requires forall e :: e in heap && prio[e.1] != DONE ==> d <= e.0
    ensures GoalCostsAtLeast(p, d)
  {
    forall path, t | IsPath(p, p.start, path, t) && p.isGoal(t) ensures d <= Cost(path) {
      if prio[p.start] == DONE {
        forall v | v in prio && prio[v] != DONE ensures d <= dist[v] {
          assert (prio[v], v) in heap;
        }
        FrontierBound(p, reach, prio, dist, d, p.start, path, t);
      } else {
        assert d == 0;
        CostNonNegative(p, reach, p.start, path, t);
      }
    }
  }

  /** A path that starts in a set closed under successors and free of goals reaches no goal. */
  lemma {:induction false} NoGoalBeyond<S(!new), A(!new)>(p: Problem<S, A>, fin: set<S>, x: S, path: seq<Edge<S, A>>, t: S)
    requires forall v, e :: v in fin && e in p.succ(v) ==> e.dest in fin
    requires forall v :: v in fin ==> !p.isGoal(v)
    requires x in fin && IsPath(p, x, path, t)
    ensures !p.isGoal(t)
    decreases |path|
  {
    if path != [] {
      NoGoalBeyond(p, fin, path[0].dest, path[1..], t);
    }
  }

  /** Lowering the priority of a state that is not finalized keeps the frontier invariant. */
  lemma FrontierAfterUpdate<S(!new)>(reach: set<S>, heap: multiset<(int, S)>, prio: map<S, int>, dist: map<S, int>, last: int,
                               v: S, q: int)
    requires FrontierOk(reach, heap, prio, dist, last)
    requires v in reach && q >= last && !(v in prio && prio[v] == DONE)
    requires Coherent(heap + multiset{(q, v)}, prio[v := q])
    ensures FrontierOk(reach, heap + multiset{(q, v)}, prio[v := q], dist[v := q], last)
  {
    forall e | e in heap + multiset{(q, v)} ensures last <= e.0 {
      if e != (q, v) {
        assert e in heap;
      }
    }
  }

  /** Pointing a state that is not finalized back at the expanded state `u` keeps the backpointer invariant. */
  lemma BackpointersAfterUpdate<S(!new), A(!new)>(p: Problem<S, A>, prio: map<S, int>, dist: map<S, int>, order: map<S, nat>, n: nat,
                                      bp: map<S, (A, S)>, bpCost: map<S, int>, u: S, e: Edge<S, A>, q: int)
    requires BackpointersOk(p, p.start, prio, dist, order, n, bp, bpCost)
    requires u in prio && prio[u] == DONE && e in p.succ(u)
    requires e.dest != p.start && !(e.dest in prio && prio[e.dest] == DONE)
    requires q == dist[u] + e.cost && q != DONE
    ensures BackpointersOk(p, p.start, prio[e.dest := q], dist[e.dest := q], order, n,
                           bp[e.dest := (e.action, u)], bpCost[e.dest := e.cost])
  {
    assert FinalizedOf(prio[e.dest := q]) == FinalizedOf(prio);
    var bp' := bp[e.dest := (e.action, u)];
    forall v | v in bp' && v != e.dest
      ensures Predecessor(bp', v) == Predecessor(bp, v)
    {
    }
  }

  /** Lowering the priority of a state other than `x` keeps the edges out of `x` relaxed. */
  lemma RelaxedAfterLowering<S(!new), A(!new)>(dist: map<S, int>, v: S, q: int, x: S, es: seq<Edge<S, A>>)
    requires x in dist && x != v && RelaxedEdges(dist, x, es)
    requires v in dist ==> q <= dist[v]
    ensures RelaxedEdges(dist[v := q], x, es)
  {
  }

  /** The states removed so far all lie in `reach`, so there are at most `|reach|` of them. */
  lemma CountedWithin<S>(removed: set<S>, reach: set<S>)
    requires removed <= reach
    ensures |removed| <= |reach|
  {
    assert reach == removed + (reach - removed);
  }

  /** The first `i + 1` successors are the first `i` followed by successor `i`: one more edge relaxed. */
  lemma TakeOneMore<T>(s: seq<T>, i: nat)
    requires i < |s|
    ensures s[..i + 1] == s[..i] + [s[i]]
  {
  }

  /** A lowered priority for a state that is not finalized keeps the start state's facts and the finalized set. */
  lemma StartAfterUpdate<S(!new), A(!new)>(p: Problem<S, A>, heap: multiset<(int, S)>, prio: map<S, int>, dist: map<S, int>,
                               u: S, v: S, q: int)
    requires StartOk(p.start, heap, prio, dist) && NoGoalFinalized(p, prio)
    requires u in prio && prio[u] == DONE && v != p.start && q != DONE
    ensures StartOk(p.start, heap + multiset{(q, v)}, prio[v := q], dist[v := q]) && NoGoalFinalized(p, prio[v := q])
  {
  }

  /** Lowering the priority of a state other than `u` keeps the relaxed edges relaxed and extends `u`'s by edge `i`. */
  lemma RelaxedAfterUpdate<S(!new), A(!new)>(p: Problem<S, A>, prio: map<S, int>, dist: map<S, int>, u: S, i: nat, q: int)
    requires u in dist && i < |p.succ(u)|
    requires RelaxedExcept(p, prio, dist, u) && RelaxedEdges(dist, u, p.succ(u)[..i])
    requires var e := p.succ(u)[i];
      && e.dest != u && q == dist[u] + e.cost && (e.dest in dist ==> q <= dist[e.dest])
      && !(e.dest in prio && prio[e.dest] == DONE) && q != DONE
    ensures var v := p.succ(u)[i].dest;
      RelaxedExcept(p, prio[v := q], dist[v := q], u) && RelaxedEdges(dist[v := q], u, p.succ(u)[..i + 1])
  {
    var e := p.succ(u)[i];
    var dist' := dist[e.dest := q];
    forall v | v in prio[e.dest := q] && prio[e.dest := q][v] == DONE && v != u && v in dist'
      ensures RelaxedEdges(dist', v, p.succ(v))
    {
      RelaxedAfterLowering(dist, e.dest, q, v, p.succ(v));
    }
    RelaxedAfterLowering(dist, e.dest, q, u, p.succ(u)[..i]);
    TakeOneMore(p.succ(u), i);
    forall f | f in p.succ(u)[..i + 1] ensures f.dest in dist' && dist'[f.dest] <= dist'[u] + f.cost {
      if f !in p.succ(u)[..i] {
        assert f == e;
      }
    }
  }

  /**
   * A successful `Update(e.dest, q)` for edge `i` of `u`, turning the queue into
   * `heap'`/`prio'`, with the backpointer of `e.dest` moved to `u`, keeps the
   * expansion invariant.
   */
  lemma RelaxImproves<S(!new), A(!new)>(p: Problem<S, A>, reach: set<S>,
                            heap: multiset<(int, S)>, prio: map<S, int>, dist: map<S, int>,
                            order: map<S, nat>, n: nat, bp: map<S, (A, S)>, bpCost: map<S, int>, u: S, i: nat,
                            e: Edge<S, A>, q: int,
                            heap': multiset<(int, S)>, prio': map<S, int>, dist': map<S, int>,
                            bp': map<S, (A, S)>, bpCost': map<S, int>)
    requires Closed(p, reach) && NonNegative(p, reach)
    requires ExpandInv(p, reach, heap, prio, dist, order, n, bp, bpCost, u, i)
    requires i < |p.succ(u)| && e == p.succ(u)[i] && q == dist[u] + e.cost
    requires e.dest !in prio || q < prio[e.dest]
    requires heap' == heap + multiset{(q, e.dest)} && prio' == prio[e.dest := q] && dist' == dist[e.dest := q]
    requires bp' == bp[e.dest := (e.action, u)] && bpCost' == bpCost[e.dest := e.cost]
    requires Coherent(heap', prio')
    ensures ExpandInv(p, reach, heap', prio', dist', order, n, bp', bpCost', u, i + 1)
    ensures u in dist' && dist'[u] == dist[u]
  {
    assert e in p.succ(u);
    assert e.cost >= 0 && e.dest in reach;
    assert !(e.dest in prio && prio[e.dest] == DONE);
    assert e.dest != p.start;
    FrontierAfterUpdate(reach, heap, prio, dist, dist[u], e.dest, q);
    BackpointersAfterUpdate(p, prio, dist, order, n, bp, bpCost, u, e, q);
    StartAfterUpdate(p, heap, prio, dist, u, e.dest, q);
    RelaxedAfterUpdate(p, prio, dist, u, i, q);
    assert u != e.dest;
  }

  /** A failed `Update(e.dest, dist[u] + e.cost)`, which leaves the queue as `heap'`/`prio'` were, finds the edge relaxed already. */
  lemma RelaxKeeps<S(!new), A(!new)>(p: Problem<S, A>, reach: set<S>,
                         heap: multiset<(int, S)>, prio: map<S, int>, dist: map<S, int>,
                         order: map<S, nat>, n: nat, bp: map<S, (A, S)>, bpCost: map<S, int>, u: S, i: nat,
                         heap': multiset<(int, S)>, prio': map<S, int>)
    requires Closed(p, reach) && NonNegative(p, reach)
    requires ExpandInv(p, reach, heap, prio, dist, order, n, bp, bpCost, u, i)
    requires i < |p.succ(u)|
    requires var e := p.succ(u)[i]; e.dest in prio && prio[e.dest] <= dist[u] + e.cost
    requires heap' == heap && prio' == prio
    ensures ExpandInv(p, reach, heap', prio', dist, order, n, bp, bpCost, u, i + 1)
  {
    var e := p.succ(u)[i];
    assert e in p.succ(u);
    assert e.cost >= 0;
    assert e.dest in dist && dist[e.dest] <= dist[u] + e.cost;
    TakeOneMore(p.succ(u), i);
  }

  /**
   * One turn of the loop over successors of `u`, as `Offered` describes it for
   * its edge `i`, `e`, at cost `q`, which is `dist[u]` plus the edge's, keeps the
   * expansion invariant with one more edge relaxed; the ghost distances and
   * backpointer costs move with the backpointer.
   */
  lemma RelaxEdge<S(!new), A(!new)>(p: Problem<S, A>, reach: set<S>,
                                   heap: multiset<(int, S)>, prio: map<S, int>, dist: map<S, int>,
                                   order: map<S, nat>, n: nat, bp: map<S, (A, S)>, bpCost: map<S, int>, u: S, i: nat,
                                   e: Edge<S, A>, q: int, updated: bool,
                                   heap': multiset<(int, S)>, prio': map<S, int>, bp': map<S, (A, S)>)
    returns (dist': map<S, int>, bpCost': map<S, int>)
    requires Closed(p, reach) && NonNegative(p, reach)
    requires ExpandInv(p, reach, heap, prio, dist, order, n, bp, bpCost, u, i)
    requires i < |p.succ(u)| && e == p.succ(u)[i] && q == dist[u] + e.cost
    requires Offered(e, u, q, updated, heap, prio, bp, heap', prio', bp')
    requires Coherent(heap', prio')
    ensures ExpandInv(p, reach, heap', prio', dist', order, n, bp', bpCost', u, i + 1)
    ensures u in dist' && dist'[u] == dist[u]
  {
    if updated {
      dist', bpCost' := dist[e.dest := q], bpCost[e.dest := e.cost];
      RelaxImproves(p, reach, heap, prio, dist, order, n, bp, bpCost, u, i, e, q, heap', prio', dist', bp', bpCost');
    } else {
      dist', bpCost' := dist, bpCost;
      RelaxKeeps(p, reach, heap, prio, dist, order, n, bp, bpCost, u, i, heap', prio');
    }
  }

  /** Finalizing the removed state `u`, of priority `d`, keeps the frontier invariant with `d` as the new bound. */
  lemma FrontierAfterRemove<S(!new)>(reach: set<S>, heap: multiset<(int, S)>, prio: map<S, int>, dist: map<S, int>, last: int,
                               heap1: multiset<(int, S)>, u: S, d: int)
    requires FrontierOk(reach, heap, prio, dist, last)
    requires u in prio && prio[u] != DONE && d == prio[u] && (d, u) in heap
    requires Coherent(heap1, prio[u := DONE]) && forall e :: e in heap1 ==> d <= e.0
    ensures FrontierOk(reach, heap1, prio[u := DONE], dist, d)
  {
  }

  /** Finalizing `u` as the `n`-th removed state keeps the backpointer invariant. */
  lemma BackpointersAfterRemove<S(!new), A(!new)>(p: Problem<S, A>, prio: map<S, int>, dist: map<S, int>, order: map<S, nat>, n: nat,
                                      bp: map<S, (A, S)>, bpCost: map<S, int>, u: S)
    requires BackpointersOk(p, p.start, prio, dist, order, n, bp, bpCost)
    requires u in prio && prio[u] != DONE
    ensures BackpointersOk(p, p.start, prio[u := DONE], dist, order[u := n], n + 1, bp, bpCost)
  {
    assert FinalizedOf(prio[u := DONE]) == FinalizedOf(prio) + {u};
    assert u in bp ==> Predecessor(bp, u) != u;
  }

  /** The state removed next is in the searched set and not yet finalized; at the first removal it is the start. */
  lemma RemoveFacts<S(!new), A(!new)>(p: Problem<S, A>, reach: set<S>, heap: multiset<(int, S)>, prio: map<S, int>,
                          dist: map<S, int>, last: int, order: map<S, nat>, n: nat,
                          bp: map<S, (A, S)>, bpCost: map<S, int>, u: S, d: int)
    requires SearchInv(p, reach, heap, prio, dist, last, order, n, bp, bpCost)
    requires u in prio && prio[u] != DONE && d == prio[u]
    ensures u in reach && u !in order && u in dist && dist[u] == d
    ensures n == 0 ==> u == p.start && d == 0
  {
    if n == 0 {
      assert order == map[];
      assert p.start !in FinalizedOf(prio);
    }
  }

  /**
   * Finalizing one more state of the searched set shrinks the set still to be
   * finalized and, since that state was not finalized before, adds one to the count.
   */
  lemma FewerLeft<S>(reach: set<S>, order: map<S, nat>, u: S, k: nat)
    requires u in reach && u !in order
    ensures reach - order[u := k].Keys < reach - order.Keys
    ensures order.Keys <= reach ==> order[u := k].Keys <= reach
    ensures |order[u := k].Keys| == |order.Keys| + 1
  {
    assert u in reach - order.Keys;
    assert order[u := k].Keys == order.Keys + {u};
  }

  /** Finalizing a goal state as the `n`-th removed: its backpointer chain leads back to a finalized start state. */
  lemma RemoveGoal<S(!new), A(!new)>(p: Problem<S, A>, reach: set<S>, heap: multiset<(int, S)>, prio: map<S, int>,
                         dist: map<S, int>, last: int, order: map<S, nat>, n: nat,
                         bp: map<S, (A, S)>, bpCost: map<S, int>, u: S)
    requires SearchInv(p, reach, heap, prio, dist, last, order, n, bp, bpCost)
    requires u in prio && prio[u] != DONE
    ensures BackpointersOk(p, p.start, prio[u := DONE], dist, order[u := n], n + 1, bp, bpCost)
    ensures p.start in prio[u := DONE] && prio[u := DONE][p.start] == DONE && dist[p.start] == 0
  {
    BackpointersAfterRemove(p, prio, dist, order, n, bp, bpCost, u);
    assert prio[p.start] != DONE ==> u == p.start;
  }

  /**
   * Removing the live state `u` with its priority `d`, the least live one,
   * and finalizing it as the `n`-th: when `u` is not a goal its expansion can start.
   */
  lemma RemoveStep<S(!new), A(!new)>(p: Problem<S, A>, reach: set<S>, heap: multiset<(int, S)>, prio: map<S, int>,
                         dist: map<S, int>, last: int, order: map<S, nat>, n: nat,
                         bp: map<S, (A, S)>, bpCost: map<S, int>, heap1: multiset<(int, S)>, u: S, d: int)
    requires SearchInv(p, reach, heap, prio, dist, last, order, n, bp, bpCost)
    requires u in prio && prio[u] != DONE && d == prio[u] && (d, u) in heap && !p.isGoal(u)
    requires Coherent(heap1, prio[u := DONE]) && forall e :: e in heap1 ==> d <= e.0
    ensures ExpandInv(p, reach, heap1, prio[u := DONE], dist, order[u := n], n + 1, bp, bpCost, u, 0)
  {
    assert last <= d;
    FrontierAfterRemove(reach, heap, prio, dist, last, heap1, u, d);
    BackpointersAfterRemove(p, prio, dist, order, n, bp, bpCost, u);
    assert prio[p.start] != DONE ==> u == p.start;
  }

  /** Once every edge of `u` is relaxed, the main loop's invariant holds again with `u`'s priority as the bound. */
  lemma ExpandDone<S(!new), A(!new)>(p: Problem<S, A>, reach: set<S>, heap: multiset<(int, S)>, prio: map<S, int>,
                         dist: map<S, int>, order: map<S, nat>, n: nat, bp: map<S, (A, S)>, bpCost: map<S, int>, u: S)
    requires ExpandInv(p, reach, heap, prio, dist, order, n, bp, bpCost, u, |p.succ(u)|)
    ensures SearchInv(p, reach, heap, prio, dist, dist[u], order, n, bp, bpCost)
  {
    assert p.succ(u)[..|p.succ(u)|] == p.succ(u);
  }

  /** The queue holding just the start state at priority 0, and nothing finalized, satisfies the main loop's invariant. */
  lemma StartInv<S(!new), A(!new)>(p: Problem<S, A>, reach: set<S>, heap: multiset<(int, S)>, prio: map<S, int>)
    requires p.start in reach && heap == multiset{(0, p.start)} && prio == map[p.start := 0]
    ensures SearchInv(p, reach, heap, prio, map[p.start := 0], 0, map[], 0, map[], map[])
  {
    assert FinalizedOf(prio) == {};
  }

  /**
   * What one removal of the main loop establishes: the removed live state `u`,
   * of priority `d` and finalized as the `n`-th, lies in `reach` and was not
   * finalized before, so fewer states are left; a goal is reached at least
   * cost and its backpointer chain reaches the finalized start, and any other
   * state can be expanded.
   */
  lemma AfterRemove<S(!new), A(!new)>(p: Problem<S, A>, reach: set<S>, heap: multiset<(int, S)>, prio: map<S, int>,
                          dist: map<S, int>, last: int, order: map<S, nat>, n: nat,
                          bp: map<S, (A, S)>, bpCost: map<S, int>,
                          heap1: multiset<(int, S)>, prio1: map<S, int>, u: S, d: int)
    requires Closed(p, reach) && NonNegative(p, reach)
    requires SearchInv(p, reach, heap, prio, dist, last, order, n, bp, bpCost)
    requires Popped(heap, prio, heap1, prio1, u, d)
    ensures u in reach && u !in order && dist[u] == d
    ensures reach - order[u := n].Keys < reach - order.Keys
    ensures n == 0 ==> u == p.start
    ensures order.Keys <= reach && |order.Keys| == n ==> order[u := n].Keys <= reach && |order[u := n].Keys| == n + 1
    ensures p.isGoal(u) ==>
      && GoalCostsAtLeast(p, d)
      && BackpointersOk(p, p.start, prio1, dist, order[u := n], n + 1, bp, bpCost)
      && p.start in prio1 && prio1[p.start] == DONE && dist[p.start] == 0
    ensures !p.isGoal(u) ==> ExpandInv(p, reach, heap1, prio1, dist, order[u := n], n + 1, bp, bpCost, u, 0)
  {
    RemoveFacts(p, reach, heap, prio, dist, last, order, n, bp, bpCost, u, d);
    FewerLeft(reach, order, u, n);
    if p.isGoal(u) {
      GoalPathsCostAtLeast(p, reach, heap, prio, dist, last, order, n, bp, bpCost, u, d);
      RemoveGoal(p, reach, heap, prio, dist, last, order, n, bp, bpCost, u);
    } else {
      RemoveStep(p, reach, heap, prio, dist, last, order, n, bp, bpCost, heap1, u, d);
    }
  }

  /**
   * A queue left with no live entry, where every finalized state is relaxed
   * and none is a goal, means that no goal is reachable.
   */
  lemma DrainedMeansNoGoal<S(!new), A(!new)>(p: Problem<S, A>, heap: multiset<(int, S)>, prio: map<S, int>, dist: map<S, int>)
    requires Coherent(heap, prio) && !HasLive(heap, prio)
    requires dist.Keys == prio.Keys && p.start in prio && NoGoalFinalized(p, prio)
    requires forall v :: v in prio && prio[v] == DONE && v in dist ==> RelaxedEdges(dist, v, p.succ(v))
    ensures NoGoalReachable(p)
  {
    NothingLiveMeansAllFinalized(heap, prio);
    var fin := FinalizedOf(prio);
    forall path, t | IsPath(p, p.start, path, t) ensures !p.isGoal(t) {
      NoGoalBeyond(p, fin, p.start, path, t);
    }
  }
}
