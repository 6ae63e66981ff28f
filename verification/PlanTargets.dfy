/**
  Adding targets to a plan establishes its invariant, given what a dependency scan leaves behind.
 */
module PlanTargets {
  import opened BuildGraph
  import opened Pools
  import opened PlanSpec
  import opened PlanInvariant

  /**
    What the dependency scan guarantees of the edges it visited (`dom`): they are closed under what feeds
    them, and one whose outputs are not ready has an unready input or nothing but dirty outputs.
   */
  ghost predicate Scanned(g: Graph, done: set<EdgeId>, dirty: set<NodeId>, dom: set<EdgeId>) {
    forall e | e in dom ::
      && e in g.edges
      && (forall d | g.Feeds(d, e) :: d in dom)
      && (e !in done ==> !g.AllInputsReady(done, e) || forall o | o in g.Outputs(e) :: o in dirty)
  }

  /** The edge that makes `n`, if any, has been visited. */
  ghost predicate Visited(g: Graph, dom: set<EdgeId>, n: NodeId) {
    g.InEdge(n).Some? ==> g.InEdge(n).value in dom
  }

  /** What makes `n` needs no work or is in the plan. */
  ghost predicate Covered(g: Graph, s: PlanState, n: NodeId) {
    g.InEdge(n).Some? ==> g.InEdge(n).value in s.outputsReady || g.InEdge(n).value in s.want
  }

  lemma Settle(g: Graph, base: set<EdgeId>, s: PlanState, open: set<EdgeId>, x: EdgeId)
    requires Inv(g, base, s, {x}, open)
    requires x !in s.want || s.want[x] == WantToFinish || !g.AllInputsReady(s.outputsReady, x)
    ensures Inv(g, base, s, {}, open)
  {
    hide CountersOk, QueuesOk, PoolsOk, TraceOk;
  }

  /** An edge entered without being wanted, whose readiness and inputs are still to be looked at. */
  lemma EnterKeeps(g: Graph, base: set<EdgeId>, s: PlanState, e: EdgeId, open: set<EdgeId>)
    requires Inv(g, base, s, {}, open)
    requires e !in s.want && e !in s.outputsReady && e in g.edges
    ensures Inv(g, base, s.(want := s.want[e := WantNothing]), {e}, open + {e})
  {
    hide LegalTrace, HistoryOk, PoolsOk, Partition, Owned, RemoteQueueOk, Counts;
    var want := s.want[e := WantNothing];
    assert Wanted(want) == Wanted(s.want);
    assert Scheduled(want) == Scheduled(s.want);
  }

  /** An edge that becomes wanted is counted. */
  lemma BecomeWantedKeeps(g: Graph, base: set<EdgeId>, s: PlanState, e: EdgeId, pending: set<EdgeId>, open: set<EdgeId>)
    requires Inv(g, base, s, pending, open)
    requires e in s.want && s.want[e] == WantNothing
    ensures Inv(g, base, EdgeWanted(g, s.(want := s.want[e := WantToStart]), e), pending, open)
  {
    hide LegalTrace, HistoryOk, PoolsOk, Partition, Owned, RemoteQueueOk, Counts;
    var want := s.want[e := WantToStart];
    assert Scheduled(want) == Scheduled(s.want);
    BecomeWantedCounts(g, s, e);
  }

  lemma BecomeWantedCounts(g: Graph, s: PlanState, e: EdgeId)
    requires CountersOk(g, s) && s.want.Keys !! s.outputsReady
    requires e in s.want && s.want[e] == WantNothing
    ensures CountersOk(g, EdgeWanted(g, s.(want := s.want[e := WantToStart]), e))
  {
    var want1 := s.want[e := WantToStart];
    assert Wanted(want1) == Wanted(s.want) + {e} && e !in Wanted(s.want);
    assert e !in s.finished;
    OneMoreEver(Wanted(s.want), s.finished, s.unwanted, e);
    OneMoreCounts(g, s.wantedEdges, s.commandEdges, s.remoteEdges, Wanted(s.want), s.finished, e);
  }

  lemma OneMoreCounts(g: Graph, wantedEdges: int, commandEdges: int, remoteEdges: int, wanted: set<EdgeId>,
                      finished: set<EdgeId>, e: EdgeId)
    requires Counts(g, wantedEdges, commandEdges, remoteEdges, wanted, finished) && e !in wanted && e !in finished
    ensures Counts(g, wantedEdges + 1, commandEdges + (if g.IsPhony(e) then 0 else 1),
                   remoteEdges + (if g.IsRemote(e) then 1 else 0), wanted + {e}, finished)
  {
    OneMoreCounted(g, wanted, finished, e);
  }

  lemma OneMoreEver(wanted: set<EdgeId>, finished: set<EdgeId>, unwanted: set<EdgeId>, e: EdgeId)
    ensures wanted + finished + unwanted + {e} == wanted + {e} + finished + unwanted
  {
  }

  lemma OneMoreCounted(g: Graph, wanted: set<EdgeId>, finished: set<EdgeId>, e: EdgeId)
    requires e !in wanted + finished
    ensures |NonPhony(g, wanted + {e} + finished)| == |NonPhony(g, wanted + finished)| + (if g.IsPhony(e) then 0 else 1)
    ensures |RemoteOnes(g, wanted + {e} + finished)| == |RemoteOnes(g, wanted + finished)| + (if g.IsRemote(e) then 1 else 0)
  {
    assert wanted + {e} + finished == wanted + finished + {e};
    OneMoreNonPhony(g, wanted + finished, e);
    OneMoreRemote(g, wanted + finished, e);
  }

  lemma OneMoreNonPhony(g: Graph, es: set<EdgeId>, e: EdgeId)
    requires e !in es
    ensures |NonPhony(g, es + {e})| == |NonPhony(g, es)| + (if g.IsPhony(e) then 0 else 1)
  {
    hide Graph.IsPhony;
    if g.IsPhony(e) {
      assert NonPhony(g, es + {e}) == NonPhony(g, es);
    } else {
      assert NonPhony(g, es + {e}) == NonPhony(g, es) + {e};
    }
  }

  lemma OneMoreRemote(g: Graph, es: set<EdgeId>, e: EdgeId)
    requires e !in es
    ensures |RemoteOnes(g, es + {e})| == |RemoteOnes(g, es)| + (if g.IsRemote(e) then 1 else 0)
  {
    hide Graph.IsRemote;
    if g.IsRemote(e) {
      assert RemoteOnes(g, es + {e}) == RemoteOnes(g, es) + {e};
    } else {
      assert RemoteOnes(g, es + {e}) == RemoteOnes(g, es);
    }
  }

  /** What entering an edge touches. */
  lemma EnlistFrame(g: Graph, s: PlanState, n: NodeId, e: EdgeId)
    ensures var r := Enlist(g, s, n, e);
      r == s.(want := r.want, ready := r.ready, readyRemote := r.readyRemote, pools := r.pools,
              wantedEdges := r.wantedEdges, commandEdges := r.commandEdges, remoteEdges := r.remoteEdges,
              everWanted := r.everWanted)
    ensures n in s.dirty ==> Enlist(g, s, n, e).want[e] != WantNothing
  {
  }

  /** Entering an edge for one of its outputs keeps the invariant; a new edge joins the open ones. */
  lemma EnlistKeeps(g: Graph, base: set<EdgeId>, s: PlanState, n: NodeId, e: EdgeId, open: set<EdgeId>, dom: set<EdgeId>)
    requires g.Wired() && Inv(g, base, s, {}, open) && Scanned(g, s.outputsReady, s.dirty, dom)
    requires g.InEdge(n) == Some(e) && e in dom && e !in s.outputsReady
    ensures Inv(g, base, Enlist(g, s, n, e), {}, if e in s.want then open else open + {e})
  {
    hide CountersOk, QueuesOk, PoolsOk, TraceOk, Enlist;
    var open1 := if e in s.want then open else open + {e};
    var s1 := if e in s.want then s else s.(want := s.want[e := WantNothing]);
    if e !in s.want {
      EnterKeeps(g, base, s, e, open);
    }
    EnlistTail(g, base, s1, n, e, open1, dom);
    EnlistTwice(g, s, n, e);
  }

  lemma EnlistTwice(g: Graph, s: PlanState, n: NodeId, e: EdgeId)
    ensures Enlist(g, s, n, e) == Enlist(g, if e in s.want then s else s.(want := s.want[e := WantNothing]), n, e)
  {
  }

  lemma EnlistTail(g: Graph, base: set<EdgeId>, s: PlanState, n: NodeId, e: EdgeId, open: set<EdgeId>, dom: set<EdgeId>)
    requires g.Wired() && Inv(g, base, s, {e}, open) && Scanned(g, s.outputsReady, s.dirty, dom)
    requires e in s.want && g.InEdge(n) == Some(e) && e in dom && e !in s.outputsReady
    requires s.want[e] == WantToStart ==> Inv(g, base, s, {}, open)
    ensures Inv(g, base, Enlist(g, s, n, e), {}, open)
  {
    hide CountersOk, QueuesOk, PoolsOk, DepsOk, TraceOk;
    if n in s.dirty && s.want[e] == WantNothing {
      BecomeWantedKeeps(g, base, s, e, {e}, open);
      var s2 := EdgeWanted(g, s.(want := s.want[e := WantToStart]), e);
      if g.AllInputsReady(s.outputsReady, e) {
        ScheduleKeeps(g, base, s2, e, {e}, open);
        assert {e} - {e} == {};
      } else {
        Settle(g, base, s2, open, e);
      }
    } else if s.want[e] == WantNothing {
      assert n in g.Outputs(e);
      Settle(g, base, s, open, e);
    } else if s.want[e] == WantToFinish {
      Settle(g, base, s, open, e);
    }
  }

  /** Once all inputs of an open edge are covered it can be closed. */
  lemma CloseKeeps(g: Graph, base: set<EdgeId>, s: PlanState, e: EdgeId, open: set<EdgeId>)
    requires Inv(g, base, s, {}, open + {e})
    requires forall i | i in g.Inputs(e) :: Covered(g, s, i)
    ensures Inv(g, base, s, {}, open)
  {
    hide CountersOk, QueuesOk, PoolsOk, TraceOk;
    forall x, d | x in s.want && x !in open && g.Feeds(d, x) && d !in s.outputsReady
      ensures d in s.want
    {
      if x == e {
        var i :| i in g.Inputs(e) && g.InEdge(i) == Some(d);
        assert Covered(g, s, i);
      }
    }
  }

  /** Adding a target only adds to the plan. */
  ghost predicate Extends(s: PlanState, r: PlanState) {
    && s.want.Keys <= r.want.Keys
    && r.outputsReady == s.outputsReady && r.dirty == s.dirty
    && r.running == s.running && r.failed == s.failed && r.finished == s.finished && r.trace == s.trace
    && s.everWanted <= r.everWanted
  }

  /**
    Adding a node, unless a source file is missing, keeps the invariant and leaves whatever makes the node
    either ready or in the plan, and wanted if the node is dirty.
   */
  lemma {:induction false} AddSubTargetKeeps(g: Graph, base: set<EdgeId>, s: PlanState, n: NodeId, open: set<EdgeId>,
                                             dom: set<EdgeId>)
    requires g.Wired() && Inv(g, base, s, {}, open) && Scanned(g, s.outputsReady, s.dirty, dom)
    requires s.want.Keys <= dom && Visited(g, dom, n)
    ensures var r := AddSubTarget(g, s, n);
      && Extends(s, r.s) && r.s.want.Keys <= dom
      && (r.missing.None? ==> Inv(g, base, r.s, {}, open) && Covered(g, r.s, n))
    decreases g.edges.Keys - s.want.Keys, 1, 0
  {
    hide Inv, Enlist;
    if g.InEdge(n).Some? && g.InEdge(n).value !in s.outputsReady {
      var e := g.InEdge(n).value;
      var s1 := Enlist(g, s, n, e);
      EnlistKeeps(g, base, s, n, e, open, dom);
      EnlistFrame(g, s, n, e);
      EnlistOnlyAdds(g, s, n, e);
      if e !in s.want {
        assert e in g.edges.Keys - s.want.Keys;
        forall i | i in g.Inputs(e) ensures Visited(g, dom, i) {
          if g.InEdge(i).Some? { assert g.Feeds(g.InEdge(i).value, e); }
        }
        AddInputsKeeps(g, base, s1, g.Inputs(e), open + {e}, dom);
        var r := AddInputs(g, s1, g.Inputs(e));
        if r.missing.None? {
          CloseKeeps(g, base, r.s, e, open);
        }
      }
    }
  }

  lemma EnlistOnlyAdds(g: Graph, s: PlanState, n: NodeId, e: EdgeId)
    ensures s.everWanted <= Enlist(g, s, n, e).everWanted
  {
  }

  lemma {:induction false} AddInputsKeeps(g: Graph, base: set<EdgeId>, s: PlanState, ins: seq<NodeId>, open: set<EdgeId>,
                                          dom: set<EdgeId>)
    requires g.Wired() && Inv(g, base, s, {}, open) && Scanned(g, s.outputsReady, s.dirty, dom)
    requires s.want.Keys <= dom && forall i | i in ins :: Visited(g, dom, i)
    ensures var r := AddInputs(g, s, ins);
      && Extends(s, r.s) && r.s.want.Keys <= dom
      && (r.missing.None? ==> Inv(g, base, r.s, {}, open) && forall i | i in ins :: Covered(g, r.s, i))
    decreases g.edges.Keys - s.want.Keys, 2, |ins|
  {
    hide Inv;
    if ins != [] {
      AddSubTargetKeeps(g, base, s, ins[0], open, dom);
      var r := AddSubTarget(g, s, ins[0]);
      if r.missing.None? {
        MoreWantedMeansFewerLeft(g, s, r.s);
        AddInputsKeeps(g, base, r.s, ins[1..], open, dom);
        assert Covered(g, AddInputs(g, r.s, ins[1..]).s, ins[0]);
      }
    }
  }

  /** A missing file is a dirty source file that something in the plan, or the target itself, reads. */
  lemma {:induction false} MissingIsDirtySource(g: Graph, s: PlanState, n: NodeId)
    requires g.Wired()
    ensures var r := AddSubTarget(g, s, n);
      r.missing.Some? ==> g.InEdge(r.missing.value).None? && r.missing.value in s.dirty
    decreases g.edges.Keys - s.want.Keys, 1, 0
  {
    if g.InEdge(n).Some? && g.InEdge(n).value !in s.outputsReady {
      var e := g.InEdge(n).value;
      EnlistFrame(g, s, n, e);
      if e !in s.want {
        assert e in g.edges.Keys - s.want.Keys;
        MissingInputIsDirtySource(g, Enlist(g, s, n, e), g.Inputs(e));
      }
    }
  }

  lemma {:induction false} MissingInputIsDirtySource(g: Graph, s: PlanState, ins: seq<NodeId>)
    requires g.Wired()
    ensures var r := AddInputs(g, s, ins);
      && r.s.dirty == s.dirty && r.s.unwanted == s.unwanted
      && (r.missing.Some? ==> g.InEdge(r.missing.value).None? && r.missing.value in s.dirty)
    decreases g.edges.Keys - s.want.Keys, 2, |ins|
  {
    if ins != [] {
      MissingIsDirtySource(g, s, ins[0]);
      var r := AddSubTarget(g, s, ins[0]);
      MoreWantedMeansFewerLeft(g, s, r.s);
      AddSubTargetKeepsDirty(g, s, ins[0]);
      MissingInputIsDirtySource(g, r.s, ins[1..]);
    }
  }

  lemma {:induction false} AddSubTargetKeepsDirty(g: Graph, s: PlanState, n: NodeId)
    requires g.Wired()
    ensures var r := AddSubTarget(g, s, n); r.s.dirty == s.dirty && r.s.unwanted == s.unwanted
    decreases g.edges.Keys - s.want.Keys, 1, 0
  {
    if g.InEdge(n).Some? && g.InEdge(n).value !in s.outputsReady {
      var e := g.InEdge(n).value;
      EnlistFrame(g, s, n, e);
      if e !in s.want {
        assert e in g.edges.Keys - s.want.Keys;
        MissingInputIsDirtySource(g, Enlist(g, s, n, e), g.Inputs(e));
      }
    }
  }

  // ----- What the plan contains -----

  /** An input is provided for: a source file that is there, or made by an edge done or planned, and wanted if dirty. */
  ghost predicate Provided(g: Graph, s: PlanState, n: NodeId) {
    match g.InEdge(n)
    case None => n !in s.dirty
    case Some(d) => d in s.outputsReady || (d in s.want && (n in s.dirty ==> d in s.everWanted))
  }

  /**
    The plan wants only edges with a dirty output, and all inputs of its edges are provided for, save those of the
    edges still `open`.
   */
  ghost predicate Planned(g: Graph, s: PlanState, open: set<EdgeId>) {
    && (forall e | e in s.want && s.want[e] != WantNothing :: e in s.everWanted)
    && (forall e | e in s.everWanted :: exists o | o in g.Outputs(e) :: o in s.dirty)
    && (forall x, i | x in s.want && x !in open && i in g.Inputs(x) :: Provided(g, s, i))
  }

  ghost predicate Adds(s: PlanState, r: PlanState) {
    && s.want.Keys <= r.want.Keys && s.everWanted <= r.everWanted && r.dirty == s.dirty && r.outputsReady == s.outputsReady
  }

  lemma EnlistWants(g: Graph, s: PlanState, n: NodeId, e: EdgeId)
    requires e in s.want && s.want[e] != WantNothing ==> e in s.everWanted
    ensures var r := Enlist(g, s, n, e);
      && Adds(s, r) && r.want.Keys == s.want.Keys + {e}
      && (forall x | x in s.want && x != e :: r.want[x] == s.want[x])
      && r.everWanted == s.everWanted + (if n in s.dirty then {e} else {})
      && (r.want[e] != WantNothing ==> e in r.everWanted)
  {
    hide Graph.AllInputsReady, PlanState.PoolAt;
  }

  lemma EnlistPlans(g: Graph, s: PlanState, n: NodeId, e: EdgeId, open: set<EdgeId>)
    requires g.Wired() && Planned(g, s, open) && g.InEdge(n) == Some(e)
    ensures var r := Enlist(g, s, n, e);
      && Planned(g, r, if e in s.want then open else open + {e}) && Adds(s, r)
      && e in r.want && (n in s.dirty ==> e in r.everWanted)
  {
    hide Enlist;
    EnlistWants(g, s, n, e);
    var r := Enlist(g, s, n, e);
    var open1 := if e in s.want then open else open + {e};
    assert n in g.Outputs(e);
    forall x, i | x in r.want && x !in open1 && i in g.Inputs(x) ensures Provided(g, r, i) {
      assert Provided(g, s, i);
    }
  }

  /** Adding a target provides for it and for all that the new edges of the plan read. */
  lemma {:induction false} AddSubTargetPlans(g: Graph, s: PlanState, n: NodeId, open: set<EdgeId>)
    requires g.Wired() && Planned(g, s, open)
    ensures var r := AddSubTarget(g, s, n);
      Adds(s, r.s) && (r.missing.None? ==> Planned(g, r.s, open) && Provided(g, r.s, n))
    decreases g.edges.Keys - s.want.Keys, 1, 0
  {
    hide Enlist;
    if g.InEdge(n).Some? && g.InEdge(n).value !in s.outputsReady {
      var e := g.InEdge(n).value;
      var s1 := Enlist(g, s, n, e);
      EnlistPlans(g, s, n, e, open);
      if e !in s.want {
        assert e in g.edges.Keys - s.want.Keys;
        AddInputsPlans(g, s1, g.Inputs(e), open + {e});
      }
    }
  }

  lemma {:induction false} AddInputsPlans(g: Graph, s: PlanState, ins: seq<NodeId>, open: set<EdgeId>)
    requires g.Wired() && Planned(g, s, open)
    ensures var r := AddInputs(g, s, ins);
      Adds(s, r.s) && (r.missing.None? ==> Planned(g, r.s, open) && forall i | i in ins :: Provided(g, r.s, i))
    decreases g.edges.Keys - s.want.Keys, 2, |ins|
  {
    if ins != [] {
      hide Planned;
      AddSubTargetPlans(g, s, ins[0], open);
      var r := AddSubTarget(g, s, ins[0]);
      if r.missing.None? {
        MoreWantedMeansFewerLeft(g, s, r.s);
        AddInputsPlans(g, r.s, ins[1..], open);
        assert Provided(g, AddInputs(g, r.s, ins[1..]).s, ins[0]);
      }
    }
  }
}
