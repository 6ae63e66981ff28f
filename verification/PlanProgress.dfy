/**
  Whole operations of the plan keep its invariant, and a plan with nothing left to run is never stuck.
 */
module PlanProgress {
  import opened BuildGraph
  import opened Pools
  import opened PlanSpec
  import opened PlanInvariant
  import opened BuildTrace

  ghost function ElementsOf(es: seq<EdgeId>): set<EdgeId> {
    set x | x in es
  }

  ghost function ReadersOf(g: Graph, nodes: seq<NodeId>): set<EdgeId> {
    set n, x | n in nodes && x in g.OutEdges(n) :: x
  }

  lemma WeakenPending(g: Graph, base: set<EdgeId>, s: PlanState, pending: set<EdgeId>, pending': set<EdgeId>)
    requires Inv(g, base, s, pending, {}) && pending <= pending'
    ensures Inv(g, base, s, pending', {})
  {
    hide CountersOk, QueuesOk, PoolsOk, TraceOk;
  }

  /** An edge that has been looked at need not be looked at again. */
  lemma SettlePending(g: Graph, base: set<EdgeId>, s: PlanState, pending: set<EdgeId>, pending': set<EdgeId>, x: EdgeId)
    requires Inv(g, base, s, pending, {}) && pending <= pending' + {x}
    requires x !in s.want || s.want[x] == WantToFinish || !g.AllInputsReady(s.outputsReady, x)
    ensures Inv(g, base, s, pending', {})
  {
    hide CountersOk, QueuesOk, PoolsOk, TraceOk;
  }

  /** The out-edges of an edge's outputs include all its dependents. */
  lemma DependentsAreReaders(g: Graph, e: EdgeId)
    requires g.Wired()
    ensures Dependents(g, e) <= ReadersOf(g, g.Outputs(e))
  {
    forall x | x in Dependents(g, e) ensures x in ReadersOf(g, g.Outputs(e)) {
      var i :| i in g.Inputs(x) && g.InEdge(i) == Some(e);
      assert i in g.Outputs(e) && x in g.OutEdges(i);
    }
  }

  /** Propagation leaves the runners alone and only adds to what is ready and to the history. */
  ghost predicate Carries(s: PlanState, r: PlanState) {
    && r.running == s.running && r.failed == s.failed && r.dirty == s.dirty && r.unwanted == s.unwanted
    && s.outputsReady <= r.outputsReady && OnlyCompletes(s.trace, r.trace)
    && forall e | e in r.want :: e in s.want && (r.want[e] == WantNothing <==> s.want[e] == WantNothing)
  }

  lemma CarriesTrans(s: PlanState, m: PlanState, r: PlanState)
    requires Carries(s, m) && Carries(m, r)
    ensures Carries(s, r)
  {
  }

  lemma CarriesKeys(s: PlanState, r: PlanState)
    requires Carries(s, r)
    ensures r.want.Keys <= s.want.Keys
  {
  }

  /**
    Finishing an edge, with all the propagation it triggers, keeps the invariant: whatever became ready has
    been scheduled or passed over, and no runner other than the edge's own is affected.
   */
  lemma {:induction false} EdgeSucceededKeeps(g: Graph, base: set<EdgeId>, s: PlanState, e: EdgeId, pending: set<EdgeId>)
    requires g.Wired() && Inv(g, base, s, pending, {})
    requires MayFinish(s, e) && g.AllInputsReady(s.outputsReady, e)
    ensures Inv(g, base, EdgeSucceeded(g, s, e), pending, {})
    ensures Carries(s.(running := s.running - {e}, outputsReady := s.outputsReady + {e}, trace := s.trace + [Completed(e)]),
                    EdgeSucceeded(g, s, e))
    decreases |s.want.Keys|, 0, 0
  {
    hide CountersOk, QueuesOk, PoolsOk, DepsOk, TraceOk;
    var s1 := Retire(g, s, e);
    RetireKeeps(g, base, s, e, pending);
    RetireFrame(g, s, e);
    ReleaseEffect(g, s, e);
    DependentsAreReaders(g, e);
    var readers := ReadersOf(g, g.Outputs(e));
    WeakenPending(g, base, s1, pending + Dependents(g, e), pending + readers);
    assert e in s.want.Keys && s1.want.Keys == s.want.Keys - {e};
    NodesFinishedKeeps(g, base, s1, g.Outputs(e), pending);
  }

  lemma {:induction false} NodesFinishedKeeps(g: Graph, base: set<EdgeId>, s: PlanState, nodes: seq<NodeId>, pending: set<EdgeId>)
    requires g.Wired() && Inv(g, base, s, pending + ReadersOf(g, nodes), {})
    ensures Inv(g, base, NodesFinished(g, s, nodes), pending, {}) && Carries(s, NodesFinished(g, s, nodes))
    decreases |s.want.Keys|, 2, |nodes|
  {
    if nodes == [] {
      hide Inv;
      assert pending + ReadersOf(g, nodes) == pending;
    } else {
      hide Carries, Inv;
      var edges := g.OutEdges(nodes[0]);
      var rest := pending + ReadersOf(g, nodes[1..]);
      assert pending + ReadersOf(g, nodes) <= rest + ElementsOf(edges) by {
        forall x | x in ReadersOf(g, nodes) ensures x in rest + ElementsOf(edges) {
          var n :| n in nodes && x in g.OutEdges(n);
          assert n == nodes[0] || n in nodes[1..];
        }
      }
      WeakenPending(g, base, s, pending + ReadersOf(g, nodes), rest + ElementsOf(edges));
      CheckOutEdgesKeeps(g, base, s, edges, rest);
      var s1 := CheckOutEdges(g, s, edges);
      CarriesKeys(s, s1);
      SubsetIsSmaller(s1.want.Keys, s.want.Keys);
      NodesFinishedKeeps(g, base, s1, nodes[1..], pending);
      CarriesTrans(s, s1, NodesFinished(g, s, nodes));
    }
  }

  lemma {:induction false} CheckOutEdgesKeeps(g: Graph, base: set<EdgeId>, s: PlanState, edges: seq<EdgeId>, pending: set<EdgeId>)
    requires g.Wired() && Inv(g, base, s, pending + ElementsOf(edges), {})
    ensures Inv(g, base, CheckOutEdges(g, s, edges), pending, {}) && Carries(s, CheckOutEdges(g, s, edges))
    decreases |s.want.Keys|, 1, |edges|
  {
    if edges == [] {
      hide Inv;
      assert pending + ElementsOf(edges) == pending;
    } else {
      hide Carries, Inv;
      var rest := pending + ElementsOf(edges[1..]);
      assert pending + ElementsOf(edges) <= rest + {edges[0]};
      EdgeMaybeReadyKeeps(g, base, s, edges[0], pending + ElementsOf(edges), rest);
      var s1 := EdgeMaybeReady(g, s, edges[0]);
      CarriesKeys(s, s1);
      SubsetIsSmaller(s1.want.Keys, s.want.Keys);
      CheckOutEdgesKeeps(g, base, s1, edges[1..], pending);
      CarriesTrans(s, s1, CheckOutEdges(g, s, edges));
    }
  }

  lemma {:induction false} EdgeMaybeReadyKeeps(g: Graph, base: set<EdgeId>, s: PlanState, e: EdgeId, pending: set<EdgeId>,
                                               rest: set<EdgeId>)
    requires g.Wired() && Inv(g, base, s, pending, {}) && pending <= rest + {e}
    ensures Inv(g, base, EdgeMaybeReady(g, s, e), rest, {}) && Carries(s, EdgeMaybeReady(g, s, e))
    decreases |s.want.Keys|, 0, 1
  {
    hide CountersOk, QueuesOk, PoolsOk, DepsOk, TraceOk;
    if e !in s.want || !g.AllInputsReady(s.outputsReady, e) {
      SettlePending(g, base, s, pending, rest, e);
    } else if s.want[e] != WantNothing {
      ScheduleSettles(g, base, s, e, pending, rest);
    } else {
      PassOverMayFinish(g, s, e);
      EdgeSucceededKeeps(g, base, s, e, pending);
      SettlePending(g, base, EdgeSucceeded(g, s, e), pending, rest, e);
    }
  }

  lemma ScheduleSettles(g: Graph, base: set<EdgeId>, s: PlanState, e: EdgeId, pending: set<EdgeId>, rest: set<EdgeId>)
    requires Inv(g, base, s, pending, {}) && pending <= rest + {e}
    requires e in s.want && s.want[e] != WantNothing && g.AllInputsReady(s.outputsReady, e)
    ensures Inv(g, base, ScheduleWork(g, s, e), rest, {}) && Carries(s, ScheduleWork(g, s, e))
  {
    hide CountersOk, QueuesOk, PoolsOk, DepsOk, TraceOk;
    ScheduleKeeps(g, base, s, e, pending, {});
    ScheduleFrame(g, s, e);
    WeakenPending(g, base, ScheduleWork(g, s, e), pending - {e}, rest);
  }

  lemma PassOverMayFinish(g: Graph, s: PlanState, e: EdgeId)
    requires QueuesOk(g, s) && e in s.want && s.want[e] == WantNothing
    ensures MayFinish(s, e) && s.running - {e} == s.running
  {
    assert e !in Scheduled(s.want);
  }

  // ----- A plan is never stuck -----

  /** While no slot is taken, no edge waits for one. */
  lemma IdlePoolsDelayNothing(g: Graph, pools: map<PoolId, PoolState>)
    requires PoolsOk(g, pools, {})
    ensures Delayed(pools) == {}
  {
    forall p | p in pools ensures pools[p].delayed == {} {
      assert PoolOk(g, p, pools[p], {});
      assert InPool(g, {}, p) == {};
    }
  }

  /**
    With no command failed, nothing ready and nothing running, the plan has nothing left in it: by induction
    on the rank of an edge, everything that feeds it is done, so it would have been scheduled.
   */
  lemma {:induction false} NothingLeft(g: Graph, base: set<EdgeId>, s: PlanState, t: Topology, e: EdgeId)
    requires Inv(g, base, s, {}, {}) && t.Sorts(g) && e in t.rank
    requires s.ready == {} && s.running == {} && s.failed == {}
    ensures e !in s.want
    decreases t.rank[e]
  {
    forall d | g.Feeds(d, e) ensures d !in s.want {
      NothingLeft(g, base, s, t, d);
    }
    assert Scheduled(s.want) == {} by {
      assert s.ready + s.running == {};
      IdlePoolsDelayNothing(g, s.pools);
    }
    if e in s.want {
      forall i | i in g.Inputs(e) ensures g.NodeReady(s.outputsReady, i) {
        if g.InEdge(i).Some? {
          assert g.Feeds(g.InEdge(i).value, e);
        }
      }
    }
  }

  /** The exit the program calls a bug cannot be taken: a plan that still wants something can make progress. */
  lemma NeverStuck(g: Graph, base: set<EdgeId>, s: PlanState, t: Topology)
    requires Inv(g, base, s, {}, {}) && t.Sorts(g) && s.want.Keys <= t.rank.Keys
    requires s.wantedEdges > 0 && s.failed == {} && s.running == {}
    ensures s.ready != {}
  {
    var e :| e in Wanted(s.want);
    if s.ready == {} {
      NothingLeft(g, base, s, t, e);
    }
  }

  // ----- What a finished build has done -----

  /**
    When nothing more is to be done, every command the plan ever wanted has run to completion or was
    un-wanted because restat showed it unnecessary.
   */
  lemma NothingMoreToDo(g: Graph, base: set<EdgeId>, s: PlanState, e: EdgeId)
    requires Inv(g, base, s, {}, {}) && !s.MoreToDo()
    requires e in s.everWanted && !g.IsPhony(e)
    ensures e in s.unwanted || (e in s.finished && e in s.outputsReady && e in StartedIn(s.trace))
    ensures s.failed == {} || s.commandEdges == 0
  {
    var busy := NonPhony(g, Wanted(s.want) + s.finished);
    if s.wantedEdges <= 0 {
      assert Wanted(s.want) == {};
      assert Scheduled(s.want) <= Wanted(s.want);
    } else {
      assert busy == {};
      assert e !in busy;
    }
  }
}
