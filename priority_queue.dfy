/**
 * The decrease-key min-queue with lazy deletion that uniform-cost search runs on.
 * `update` never edits the heap in place: it pushes a fresh (priority, state)
 * entry and records the best priority in a side map; `removeMin` throws away
 * entries whose state is already finalized and marks the state it returns as
 * finalized by overwriting its recorded priority with the sentinel `DONE`.
 * The binary heap is modelled as the multiset of its entries; a pop yields
 * some entry of least priority (the tie-break between states is left open).
 */
module PriorityQueues {
  import opened SearchProblems

  /** The sentinel priority that marks a finalized state. */
  const DONE: int := -100000

  /** The states whose recorded priority is the sentinel: those `removeMin` has already returned. */
  ghost function FinalizedOf<S(!new)>(priorities: map<S, int>): set<S>
  {
    set s | s in priorities && priorities[s] == DONE
  }

  /** Every heap entry belongs to a state with a recorded priority. */
  ghost predicate Tracked<S(!new)>(heap: multiset<(int, S)>, priorities: map<S, int>)
  {
    forall e :: e in heap ==> e.1 in priorities
  }

  /**
   * The lazy-deletion invariant: a state whose recorded priority is not `DONE`
   * has a heap entry at exactly that priority, and none of its entries is lower.
   */
  ghost predicate Coherent<S(!new)>(heap: multiset<(int, S)>, priorities: map<S, int>)
  {
    && Tracked(heap, priorities)
    && (forall s :: s in priorities && priorities[s] != DONE ==> (priorities[s], s) in heap)
    && (forall e :: e in heap && priorities[e.1] != DONE ==> priorities[e.1] <= e.0)
  }

  /** The heap holds an entry for a state that is not finalized. */
  ghost predicate HasLive<S(!new)>(heap: multiset<(int, S)>, priorities: map<S, int>)
    requires Tracked(heap, priorities)
  {
    exists e :: e in heap && priorities[e.1] != DONE
  }

  /** A non-empty heap has an entry of least priority. */
  lemma {:induction false} MinEntryExists<S(!new)>(heap: multiset<(int, S)>)
    requires |heap| > 0
    ensures exists e :: e in heap && forall f :: f in heap ==> e.0 <= f.0
    decreases |heap|
  {
    var x :| x in heap;
    var rest := heap - multiset{x};
    assert forall f :: f in heap && f != x ==> f in rest;
    if |rest| == 0 {
      assert forall f :: f in heap ==> x.0 <= f.0;
    } else {
      MinEntryExists(rest);
      var y :| y in rest && forall f :: f in rest ==> y.0 <= f.0;
      if x.0 <= y.0 {
        assert forall f :: f in heap ==> x.0 <= f.0;
      } else {
        assert forall f :: f in heap ==> y.0 <= f.0;
      }
    }
  }

  /** Dropping entries and overwriting recorded priorities keeps every entry tracked. */
  lemma TrackedShrinks<S(!new)>(heap0: multiset<(int, S)>, prio0: map<S, int>, heap1: multiset<(int, S)>, prio1: map<S, int>)
    requires Tracked(heap0, prio0) && heap1 <= heap0 && prio0.Keys <= prio1.Keys
    ensures Tracked(heap1, prio1)
  {
    forall e | e in heap1 ensures e.1 in prio1 {
      assert e in heap0;
    }
  }

  /**
   * Finalizing the state of a least live entry keeps the queue coherent, and
   * under coherence that entry's priority is the state's recorded one.
   */
  lemma FinalizeKeepsCoherent<S(!new)>(heap0: multiset<(int, S)>, prio0: map<S, int>, heap1: multiset<(int, S)>, s: S, p: int)
    requires Coherent(heap0, prio0)
    requires (p, s) in heap0 && prio0[s] != DONE
    requires forall e :: e in heap0 && prio0[e.1] != DONE ==> p <= e.0
    requires heap1 <= heap0
    requires forall e :: e in heap0 && prio0[e.1] != DONE && e != (p, s) ==> e in heap1
    ensures p == prio0[s]
    ensures Coherent(heap1, prio0[s := DONE])
  {
    assert prio0[s] <= p;
    assert (prio0[s], s) in heap0;
  }

  /**
   * What `removeMin` promises when it returns `s` with priority `p`, taking the
   * queue from `(heap0, prio0)` to `(heap1, prio1)`: `s` was live and `(p, s)`
   * is one of its entries, of least priority among the live entries and no
   * higher than any entry left; `s` is now finalized and the map changes
   * nowhere else; only stale entries and the popped one are dropped; and under
   * coherence `p` is the priority recorded for `s` and coherence is kept.
   */
  ghost predicate Popped<S(!new)>(heap0: multiset<(int, S)>, prio0: map<S, int>, heap1: multiset<(int, S)>, prio1: map<S, int>, s: S, p: int)
  {
    && s in prio0 && prio0[s] != DONE
    && (p, s) in heap0
    && heap1 <= heap0
    && prio1 == prio0[s := DONE]
    && Tracked(heap1, prio1)
    && (forall e :: e in heap0 && e.1 in prio0 && prio0[e.1] != DONE ==> p <= e.0)
    && (forall e :: e in heap1 ==> p <= e.0)
    && (forall e :: e in heap0 && e.1 in prio0 && prio0[e.1] != DONE && e != (p, s) ==> e in heap1)
    && (Coherent(heap0, prio0) ==> p == prio0[s] && Coherent(heap1, prio1))
  }

  /** Every entry of `heap0` that belongs to a live state is still in `heap`. */
  ghost predicate LiveKept<S(!new)>(heap0: multiset<(int, S)>, prio: map<S, int>, heap: multiset<(int, S)>)
  {
    forall e :: e in heap0 && e.1 in prio && prio[e.1] != DONE ==> e in heap
  }

  /**
   * Popping a least entry `(p, s)` of a live state from `before`, which still
   * holds every live entry of `heap0`, and finalizing `s`: what `removeMin`
   * promises about the entry it returns and the queue it leaves.
   */
  lemma PopLive<S(!new)>(heap0: multiset<(int, S)>, prio0: map<S, int>, before: multiset<(int, S)>, s: S, p: int)
    requires Tracked(heap0, prio0) && before <= heap0 && LiveKept(heap0, prio0, before)
    requires (p, s) in before && prio0[s] != DONE
    requires forall f :: f in before ==> p <= f.0
    ensures HasLive(heap0, prio0)
    ensures Popped(heap0, prio0, before - multiset{(p, s)}, prio0[s := DONE], s, p)
  {
    var heap1 := before - multiset{(p, s)};
    forall e | e in heap0 && prio0[e.1] != DONE && e != (p, s) ensures e in heap1 {
      assert e in before;
    }
    TrackedShrinks(heap0, prio0, heap1, prio0[s := DONE]);
    if Coherent(heap0, prio0) {
      FinalizeKeepsCoherent(heap0, prio0, heap1, s, p);
    }
  }

  /** Dropping an entry of a finalized state keeps every live entry of `heap0`. */
  lemma SkipStale<S(!new)>(heap0: multiset<(int, S)>, prio: map<S, int>, before: multiset<(int, S)>, e: (int, S))
    requires Tracked(heap0, prio) && before <= heap0 && LiveKept(heap0, prio, before)
    requires e in before && prio[e.1] == DONE
    ensures before - multiset{e} <= heap0 && LiveKept(heap0, prio, before - multiset{e})
    ensures Tracked(before - multiset{e}, prio)
  {
    forall f | f in heap0 && f.1 in prio && prio[f.1] != DONE ensures f in before - multiset{e} {
      assert f in before && f != e;
    }
    TrackedShrinks(heap0, prio, before - multiset{e}, prio);
  }

  /** Once no live entry is left, the heap never held one. */
  lemma Drained<S(!new)>(heap0: multiset<(int, S)>, prio: map<S, int>, heap: multiset<(int, S)>)
    requires Tracked(heap0, prio) && LiveKept(heap0, prio, heap) && heap == multiset{}
    ensures !HasLive(heap0, prio)
  {
    forall e | e in heap0 ensures prio[e.1] == DONE {
      assert e !in heap;
    }
  }

  class PriorityQueue<S(==,!new)> {
    /** The binary heap of (priority, state) entries, stale ones included. */
    var heap: multiset<(int, S)>
    /** The best known priority of each state, `DONE` once it is finalized. */
    var priorities: map<S, int>

    ghost predicate Valid()
      reads this
    {
      Tracked(heap, priorities)
    }

    /** The states `removeMin` has already returned. */
    ghost function Finalized(): set<S>
      reads this
    {
      FinalizedOf(priorities)
    }

    constructor ()
      ensures Valid() && Coherent(heap, priorities)
      ensures heap == multiset{} && priorities == map[]
    {
      heap := multiset{};
      priorities := map[];
    }

    /**
     * Records `newPriority` for `state` and pushes one entry for it exactly when
     * the state has no recorded priority or `newPriority` is strictly lower;
     * otherwise nothing changes.
     */
    method Update(state: S, newPriority: int) returns (updated: bool)
      requires Valid()
      modifies this
      ensures Valid()
      ensures updated <==> state !in old(priorities) || newPriority < old(priorities)[state]
      ensures updated ==> priorities == old(priorities)[state := newPriority]
                          && heap == old(heap) + multiset{(newPriority, state)}
      ensures !updated ==> priorities == old(priorities) && heap == old(heap)
      ensures old(Coherent(heap, priorities)) && newPriority >= DONE ==> Coherent(heap, priorities)
      ensures state in old(Finalized()) && newPriority >= DONE ==> !updated
    {
      if state !in priorities || newPriority < priorities[state] {
        priorities := priorities[state := newPriority];
        heap := heap + multiset{(newPriority, state)};
        updated := true;
      } else {
        updated := false;
      }
    }

    /**
     * Pops entries, skipping those of finalized states, and finalizes the state
     * of the first live entry, returning it with that entry's priority; `None`
     * when the heap holds no entry of a live state.
     */
    method RemoveMin() returns (r: Option<(S, int)>)
      requires Valid()
      modifies this
      ensures Valid()
      ensures r.None? <==> !HasLive(old(heap), old(priorities))
      ensures r.None? ==> heap == multiset{} && priorities == old(priorities)
      ensures r.Some? ==> Popped(old(heap), old(priorities), heap, priorities, r.value.0, r.value.1)
    {
      while |heap| > 0
        invariant Valid()
        invariant heap <= old(heap)
        invariant priorities == old(priorities)
        invariant LiveKept(old(heap), priorities, heap)
        decreases |heap|
      {
        MinEntryExists(heap);
        var entry :| entry in heap && forall f :: f in heap ==> entry.0 <= f.0;
        var (priority, state) := entry;
        if priorities[state] != DONE {
          PopLive(old(heap), old(priorities), heap, state, priority);
          heap := heap - multiset{(priority, state)};
          priorities := priorities[state := DONE];
          r := Some((state, priority));
          return;
        }
        SkipStale(old(heap), priorities, heap, entry);
        heap := heap - multiset{entry};
      }
      Drained(old(heap), priorities, heap);
      r := None;
    }
  }
}
