/**
  Pools limit how many edges run at once. `PoolState` and the functions on it are the specification,
  the class `Pool` is the object that the plan updates in place.
 */
module Pools {
  import opened BuildGraph

  /** The element of a set of edges that an ordered set yields first. */
  function MinOf(s: set<EdgeId>): (m: EdgeId)
    requires s != {}
    ensures m in s && forall x | x in s :: m <= x
  {
    MinExists(s);
    var m :| m in s && forall x | x in s :: m <= x;
    m
  }

  lemma MinExists(s: set<EdgeId>)
    requires s != {}
    ensures exists m :: m in s && forall x | x in s :: m <= x
  {
    var m := Least(s);
  }

  lemma {:induction false} Least(s: set<EdgeId>) returns (m: EdgeId)
    requires s != {}
    ensures m in s && forall x | x in s :: m <= x
  {
    m :| m in s;
    var rest := s - {m};
    if rest != {} {
      var other := Least(rest);
      forall x | x in s ensures x == m || other <= x {
        assert x == m || x in rest;
      }
      m := if other < m then other else m;
    } else {
      forall x | x in s ensures x == m {
        assert x !in rest;
      }
    }
  }

  /** `depth` 0 means unlimited; `use` counts the slots taken, `delayed` the edges waiting for one. */
  datatype PoolState = PoolState(depth: int, use: int, delayed: set<EdgeId>)

  function Occupied(p: PoolState): PoolState {
    if p.depth != 0 then p.(use := p.use + 1) else p
  }

  function Vacated(p: PoolState): PoolState {
    if p.depth != 0 then p.(use := p.use - 1) else p
  }

  /** Hand out slots to delayed edges, least first, until the pool is full. */
  function RetrieveReady(p: PoolState): (PoolState, set<EdgeId>)
    decreases p.delayed
  {
    if p.delayed == {} || p.use + 1 > p.depth then
      (p, {})
    else
      var m := MinOf(p.delayed);
      var r := RetrieveReady(Occupied(p.(delayed := p.delayed - {m})));
      (r.0, r.1 + {m})
  }

  /** A new edge enters the pool: an unlimited pool lets it through, a limited one lets through what fits. */
  function Admit(p: PoolState, e: EdgeId): (PoolState, set<EdgeId>) {
    if p.depth != 0 then RetrieveReady(p.(delayed := p.delayed + {e})) else (Occupied(p), {e})
  }

  /** A pool whose accounting makes sense: an unlimited pool never delays, a limited one is never overfull. */
  predicate Sane(p: PoolState) {
    && 0 <= p.depth
    && (p.depth == 0 ==> p.use == 0 && p.delayed == {})
    && p.use <= p.depth
  }

  /**
    Retrieval moves edges from the waiting set to the runnable set without losing or duplicating any,
    counts each one, never overfills the pool, and stops only when nobody waits or the pool is full.
   */
  lemma {:induction false} RetrieveReadyConserves(p: PoolState)
    requires Sane(p)
    ensures var (q, got) := RetrieveReady(p);
      && got <= p.delayed && q.delayed == p.delayed - got
      && q.depth == p.depth && q.use == p.use + |got|
      && Sane(q)
      && (q.delayed != {} ==> q.use == q.depth)
    decreases p.delayed
  {
    if p.delayed == {} || p.use + 1 > p.depth {
    } else {
      var m := MinOf(p.delayed);
      var p1 := Occupied(p.(delayed := p.delayed - {m}));
      RetrieveReadyConserves(p1);
      var r := RetrieveReady(p1);
      assert |r.1 + {m}| == |r.1| + 1;
    }
  }

  /** Edges leave the waiting set in order: everything handed out is smaller than everything left. */
  lemma {:induction false} RetrieveReadyTakesLeast(p: PoolState, x: EdgeId, y: EdgeId)
    requires Sane(p)
    requires x in RetrieveReady(p).1 && y in RetrieveReady(p).0.delayed
    ensures x < y
    decreases p.delayed
  {
    var m := MinOf(p.delayed);
    var p1 := Occupied(p.(delayed := p.delayed - {m}));
    RetrieveReadyConserves(p1);
    if x != m {
      RetrieveReadyTakesLeast(p1, x, y);
    }
  }

  class Pool {
    const depth: int
    var currentUse: int
    var delayed: set<EdgeId>

    constructor (depth: int)
      ensures View() == PoolState(depth, 0, {})
    {
      this.depth := depth;
      currentUse := 0;
      delayed := {};
    }

    ghost function View(): PoolState
      reads this
    {
      PoolState(depth, currentUse, delayed)
    }

    predicate ShouldDelayEdge() {
      depth != 0
    }

    method EdgeScheduled()
      modifies this
      ensures View() == Occupied(old(View()))
    {
      if depth != 0 {
        currentUse := currentUse + 1;
      }
    }

    method EdgeFinished()
      modifies this
      ensures View() == Vacated(old(View()))
    {
      if depth != 0 {
        currentUse := currentUse - 1;
      }
    }

    method DelayEdge(e: EdgeId)
      requires depth != 0
      modifies this
      ensures View() == old(View()).(delayed := old(delayed) + {e})
    {
      delayed := delayed + {e};
    }

    method RetrieveReadyEdges(readyQueue: set<EdgeId>) returns (queue: set<EdgeId>)
      modifies this
      ensures View() == RetrieveReady(old(View())).0
      ensures queue == readyQueue + RetrieveReady(old(View())).1
    {
      queue := readyQueue;
      while delayed != {} && currentUse + 1 <= depth
        invariant RetrieveReady(View()).0 == RetrieveReady(old(View())).0
        invariant queue + RetrieveReady(View()).1 == readyQueue + RetrieveReady(old(View())).1
        decreases delayed
      {
        var e := MinOf(delayed);
        queue := queue + {e};
        delayed := delayed - {e};
        EdgeScheduled();
      }
    }
  }
}
