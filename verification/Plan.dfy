/**
  The build plan as the program keeps it: an object whose methods update it in place. Every method is proved
  equal to its specification in `PlanSpec`.
 */
module Plan {
  import opened BuildGraph
  import opened Pools
  import opened DirtySpec
  import opened DirtyScan
  import S = PlanSpec

  class Plan {
    const state: State
    const pools: map<PoolId, Pool>
    var want: map<EdgeId, S.Want>
    var ready: set<EdgeId>
    var readyRemote: set<EdgeId>
    var commandEdges: int
    var remoteEdges: int
    var wantedEdges: int
    ghost var running: set<EdgeId>
    ghost var failed: set<EdgeId>
    ghost var finished: set<EdgeId>
    ghost var unwanted: set<EdgeId>
    ghost var everWanted: set<EdgeId>
    ghost var released: set<EdgeId>
    ghost var trace: seq<S.Event>

    constructor (state: State, pools: map<PoolId, Pool>)
      ensures this.state == state && this.pools == pools
      ensures View() == S.PlanState(map[], {}, {}, 0, 0, 0, state.outputsReady, state.dirty, PoolViews(),
                                    {}, {}, {}, {}, {}, {}, [])
    {
      this.state, this.pools := state, pools;
      want, ready, readyRemote := map[], {}, {};
      commandEdges, remoteEdges, wantedEdges := 0, 0, 0;
      running, failed, finished, unwanted, everWanted, released, trace := {}, {}, {}, {}, {}, {}, [];
    }

    ghost function PoolViews(): map<PoolId, PoolState>
      reads pools.Values
    {
      map p | p in pools :: pools[p].View()
    }

    ghost function View(): S.PlanState
      reads this, state, pools.Values
    {
      S.PlanState(want, ready, readyRemote, commandEdges, remoteEdges, wantedEdges,
                  state.outputsReady, state.dirty, PoolViews(),
                  running, failed, finished, unwanted, everWanted, released, trace)
    }

    /** Every edge has a pool of its own kind, and no two names share a pool object. */
    ghost predicate PoolsFit() {
      && (forall e | e in state.g.edges :: state.g.PoolOf(e) in pools)
      && (forall p, q | p in pools && q in pools && p != q :: pools[p] != pools[q])
    }

    /** The plan knows edges of the graph only. */
    ghost predicate Shape()
      reads this
    {
      state.g.Wired() && PoolsFit() && want.Keys <= state.g.edges.Keys
    }

    lemma HasPool(e: EdgeId)
      requires PoolsFit() && e in state.g.edges
      ensures state.g.PoolOf(e) in pools
    {
    }

    predicate MoreToDo()
      reads this
    {
      wantedEdges > 0 && commandEdges > 0
    }

    method EdgeWanted(e: EdgeId)
      modifies this
      ensures View() == S.EdgeWanted(state.g, old(View()), e)
      ensures want == old(want)
    {
      hide PoolViews;
      wantedEdges := wantedEdges + 1;
      if !state.g.IsPhony(e) {
        commandEdges := commandEdges + 1;
      }
      if state.g.IsRemote(e) {
        remoteEdges := remoteEdges + 1;
      }
      everWanted := everWanted + {e};
    }

    /** The views of the pools after one of them changed. */
    twostate lemma OnePoolChanged(id: PoolId)
      requires PoolsFit() && id in pools
      requires forall p | p in pools && p != id :: pools[p].View() == old(pools[p].View())
      ensures PoolViews() == old(PoolViews())[id := pools[id].View()]
      ensures id in old(PoolViews()) && old(PoolViews())[id] == old(pools[id].View())
    {
    }

    method ScheduleWork(e: EdgeId)
      requires Shape() && e in want
      modifies this, pools.Values
      ensures Shape() && View() == S.ScheduleWork(state.g, old(View()), e)
    {
      hide Admit, Graph.Wired, PoolsFit, PoolViews;
      if want[e] == S.WantToFinish {
        return;
      }
      HasPool(e);
      want := want[e := S.WantToFinish];
      var admitted := AdmitToPool(e);
      ready := ready + admitted;
      readyRemote := readyRemote + S.RemoteOnes(state.g, admitted);
    }

    /** Pass an edge through its pool. */
    method AdmitToPool(e: EdgeId) returns (admitted: set<EdgeId>)
      requires PoolsFit() && state.g.PoolOf(e) in pools
      modifies pools.Values
      ensures var id := state.g.PoolOf(e);
        && id in old(PoolViews())
        && PoolViews() == old(PoolViews())[id := Admit(old(PoolViews())[id], e).0]
        && admitted == Admit(old(PoolViews())[id], e).1
    {
      hide Graph.PoolOf, PoolViews, RetrieveReady;
      var pool := pools[state.g.PoolOf(e)];
      if pool.ShouldDelayEdge() {
        pool.DelayEdge(e);
        admitted := pool.RetrieveReadyEdges({});
      } else {
        pool.EdgeScheduled();
        admitted := {e};
      }
      OnePoolChanged(state.g.PoolOf(e));
    }

    /** Enter one edge on behalf of one of its outputs. */
    method Enlist(n: NodeId, e: EdgeId)
      requires Shape() && e in state.g.edges
      modifies this, pools.Values
      ensures Shape() && View() == S.Enlist(state.g, old(View()), n, e)
    {
      hide Graph.AllInputsReady, Graph.Wired, PoolsFit, PoolViews, S.EdgeWanted, S.ScheduleWork;
      if e !in want {
        want := want[e := S.WantNothing];
      }
      ghost var s1 := View();
      assert s1 == if e in old(want) then old(View()) else old(View()).(want := want);
      if n in state.dirty && want[e] == S.WantNothing {
        want := want[e := S.WantToStart];
        EdgeWanted(e);
        var inputsReady := state.AllInputsReady(e);
        if inputsReady {
          ScheduleWork(e);
        }
      }
    }

    /** Add a node and all it depends on; the result is a missing source file, if one was met. */
    method AddSubTarget(n: NodeId) returns (missing: Option<NodeId>)
      requires Shape()
      modifies this, pools.Values
      ensures Shape()
      ensures S.AddResult(View(), missing) == S.AddSubTarget(state.g, old(View()), n)
      decreases state.g.edges.Keys - want.Keys
    {
      hide PoolViews;
      match state.g.InEdge(n)
      case None =>
        return if n in state.dirty then Some(n) else None;
      case Some(e) =>
        if e in state.outputsReady {
          return None;
        }
        var known := e in want;
        Enlist(n, e);
        if known {
          return None;
        }
        ghost var s1 := View();
        assert e in old(state.g.edges.Keys - want.Keys);
        var ins := state.g.Inputs(e);
        for k := 0 to |ins|
          invariant Shape() && s1.want.Keys <= want.Keys
          invariant S.AddInputs(state.g, View(), ins[k..]) == S.AddInputs(state.g, s1, ins)
        {
          assert ins[k..][1..] == ins[k + 1..];
          missing := AddSubTarget(ins[k]);
          if missing.Some? {
            return;
          }
        }
        return None;
    }

    /** Pop the first edge a runner may take. The caller hands it over. */
    method FindWork(onlyRemote: bool) returns (found: Option<EdgeId>)
      modifies this
      ensures (View(), found) == S.FindWork(old(View()), onlyRemote)
      ensures want == old(want)
    {
      hide PoolViews;
      var e;
      if onlyRemote {
        if readyRemote == {} {
          return None;
        }
        e := MinOf(readyRemote);
      } else {
        if ready == {} {
          return None;
        }
        e := MinOf(ready);
      }
      ready := ready - {e};
      readyRemote := readyRemote - {e};
      running := running + {e};
      trace := trace + [S.Started(e, onlyRemote)];
      return Some(e);
    }

    /** Give a slot of a pool back, if one was taken, and let delayed edges through. */
    method FreeSlot(id: PoolId, taken: bool) returns (queue: set<EdgeId>)
      requires PoolsFit() && id in pools
      modifies pools.Values
      ensures id in old(PoolViews())
      ensures var p := old(PoolViews())[id];
        var (q, got) := RetrieveReady(if taken then Vacated(p) else p);
        PoolViews() == old(PoolViews())[id := q] && queue == old(ready) + got
    {
      hide PoolViews, RetrieveReady;
      var pool := pools[id];
      if taken {
        pool.EdgeFinished();
      }
      queue := pool.RetrieveReadyEdges(ready);
      OnePoolChanged(id);
    }

    /** Give back the slot of an edge that ran and let delayed edges of its pool through. */
    method Release(e: EdgeId)
      requires Shape() && e in want
      modifies this, pools.Values
      ensures Shape() && View() == S.Release(state.g, old(View()), e)
    {
      hide Graph.PoolOf, Graph.Wired, PoolsFit, PoolViews, RetrieveReady;
      HasPool(e);
      var id := state.g.PoolOf(e);
      var taken := want[e] != S.WantNothing;
      ghost var p := PoolViews();
      ready := FreeSlot(id, taken);
      released := released + RetrieveReady(if taken then Vacated(p[id]) else p[id]).1;
      if taken {
        running := running - {e};
      }
    }

    /** An edge is done, successfully or not. */
    method EdgeFinished(e: EdgeId, succeeded: bool)
      requires Shape() && e in want
      modifies this, state`outputsReady, pools.Values
      ensures Shape()
      ensures View() == if succeeded then S.EdgeSucceeded(state.g, old(View()), e) else S.EdgeFailed(state.g, old(View()), e)
      decreases |want.Keys|, 0, 0
    {
      hide Graph.Wired, PoolsFit, PoolViews, S.Release, S.Retire;
      if !succeeded {
        Fail(e);
        return;
      }
      Retire(e);
      ghost var s1 := View();
      assert want.Keys == old(want.Keys) - {e};
      var outs := state.g.Outputs(e);
      for k := 0 to |outs|
        invariant Shape() && want.Keys <= s1.want.Keys
        invariant S.NodesFinished(state.g, View(), outs[k..]) == S.NodesFinished(state.g, s1, outs)
      {
        assert outs[k..][1..] == outs[k + 1..];
        S.SubsetIsSmaller(want.Keys, s1.want.Keys);
        NodeFinished(outs[k]);
      }
    }

    method Fail(e: EdgeId)
      requires Shape() && e in want
      modifies this, pools.Values
      ensures Shape() && View() == S.EdgeFailed(state.g, old(View()), e)
    {
      hide S.Release, PoolViews;
      Release(e);
      failed := failed + {e};
      trace := trace + [S.Failed(e)];
    }

    /** Take a finished edge out of the plan and mark its outputs ready. */
    method Retire(e: EdgeId)
      requires Shape() && e in want
      modifies this, state`outputsReady, pools.Values
      ensures Shape() && View() == S.Retire(state.g, old(View()), e)
      ensures want == old(want) - {e}
    {
      hide Graph.IsPhony, Graph.PoolOf, Graph.Wired, PoolsFit, PoolViews, S.Release;
      var directly := want[e] != S.WantNothing;
      Release(e);
      if directly {
        wantedEdges := wantedEdges - 1;
        finished := finished + {e};
      }
      want := want - {e};
      state.outputsReady := state.outputsReady + {e};
      trace := trace + [S.Completed(e)];
    }

    /** A node is up to date: see to the edges that use it. */
    method NodeFinished(n: NodeId)
      requires Shape()
      modifies this, state`outputsReady, pools.Values
      ensures Shape() && View() == S.CheckOutEdges(state.g, old(View()), state.g.OutEdges(n))
      decreases |want.Keys|, 1, 0
    {
      hide PoolViews;
      var edges := state.g.OutEdges(n);
      for k := 0 to |edges|
        invariant Shape() && want.Keys <= old(want.Keys)
        invariant S.CheckOutEdges(state.g, View(), edges[k..]) == S.CheckOutEdges(state.g, old(View()), edges)
      {
        assert edges[k..][1..] == edges[k + 1..];
        S.SubsetIsSmaller(want.Keys, old(want.Keys));
        if edges[k] in want {
          EdgeMaybeReady(edges[k]);
        }
      }
    }

    /** Schedule an edge whose inputs have become ready, or pass over it if it is not wanted itself. */
    method EdgeMaybeReady(e: EdgeId)
      requires Shape() && e in want
      modifies this, state`outputsReady, pools.Values
      ensures Shape() && View() == S.EdgeMaybeReady(state.g, old(View()), e)
      decreases |want.Keys|, 0, 1
    {
      hide PoolViews;
      var inputsReady := state.AllInputsReady(e);
      if inputsReady {
        if want[e] != S.WantNothing {
          ScheduleWork(e);
        } else {
          EdgeFinished(e, true);
        }
      }
    }

    /** What cleaning may rely on about the disk and the logs. */
    ghost function VerdictsOf(w: World): S.Verdicts
      reads state
    {
      S.Verdicts(state.depsMissing, OutOfDate(state.g, w))
    }

    /** Whether every regular input of an edge is clean. */
    method RegularInputsClean(e: EdgeId) returns (clean: bool)
      ensures clean == forall i | i in state.g.RegularInputs(e) :: i !in state.dirty
    {
      var ins := state.g.RegularInputs(e);
      for k := 0 to |ins|
        invariant forall j | 0 <= j < k :: ins[j] !in state.dirty
      {
        if ins[k] in state.dirty {
          return false;
        }
      }
      return true;
    }

    /** The time stamp of the newest regular input. */
    method MostRecentInput(w: World, e: EdgeId) returns (newest: Option<int>)
      ensures newest == Newest(w, state.g.RegularInputs(e))
    {
      var ins := state.g.RegularInputs(e);
      newest := None;
      for k := 0 to |ins|
        invariant newest == Newest(w, ins[..k])
      {
        NewestNext(w, ins, k);
        if newest.None? || w.Stat(ins[k]) > newest.value {
          newest := Some(w.Stat(ins[k]));
        }
      }
      assert ins[..|ins|] == ins;
    }

    /** Whether restat makes it unnecessary to run `e`. */
    method NeedsNoRun(scan: DependencyScan, e: EdgeId) returns (b: bool)
      requires Shape() && scan.state == state
      ensures b == S.Cleanable(state.g, View(), VerdictsOf(scan.world), e)
    {
      hide PoolViews, Newest, AnyOutputDirty;
      if e !in want || want[e] == S.WantNothing || e in state.depsMissing {
        return false;
      }
      var clean := RegularInputsClean(e);
      if !clean {
        return false;
      }
      var newest := MostRecentInput(scan.world, e);
      var outputsDirty := scan.RecomputeOutputsDirty(e, newest);
      return !outputsDirty;
    }

    /** A node turned out unchanged: mark it clean and un-want what no longer needs to run. */
    method CleanNode(scan: DependencyScan, ghost t: Topology, n: NodeId)
      requires Shape() && scan.state == state
      requires t.Sorts(state.g) && want.Keys <= t.rank.Keys && t.NodeRank(state.g, n) <= t.top
      modifies this, state`dirty
      ensures Shape() && want.Keys == old(want.Keys)
      ensures View() == S.CleanNode(state.g, t, old(View()), VerdictsOf(scan.world), n)
      decreases t.top - t.NodeRank(state.g, n), 1
    {
      hide PoolViews, S.CleanNodes, S.Cleanable;
      assert state.g.Wired();
      state.dirty := state.dirty - {n};
      assert Shape();
      ghost var s0 := View();
      ghost var v := VerdictsOf(scan.world);
      var edges := state.g.OutEdges(n);
      OutEdgesRead(n);
      assert edges[0..] == edges;
      for k := 0 to |edges|
        invariant Shape() && want.Keys == old(want.Keys) && VerdictsOf(scan.world) == v
        invariant S.CleanOutEdges(state.g, t, View(), v, n, edges[k..]) == S.CleanOutEdges(state.g, t, s0, v, n, edges)
      {
        assert edges[k..][1..] == edges[k + 1..] && edges[k] == edges[k..][0];
        assert S.CleanOutEdges(state.g, t, View(), v, n, edges[k..])
          == S.CleanOutEdges(state.g, t, AfterOutEdge(t, View(), v, n, edges[k]), v, n, edges[k + 1..]);
        CleanOutEdge(scan, t, n, edges[k]);
      }
    }

    lemma OutEdgesRead(n: NodeId)
      requires state.g.Wired()
      ensures forall e | e in state.g.OutEdges(n) :: n in state.g.Inputs(e)
    {
    }

    /** One turn of the loop over out-edges. */
    ghost function AfterOutEdge(t: Topology, s: S.PlanState, v: S.Verdicts, n: NodeId, e: EdgeId): (r: S.PlanState)
      requires state.g.Wired() && t.Sorts(state.g) && s.want.Keys <= t.rank.Keys
      requires t.NodeRank(state.g, n) <= t.top && n in state.g.Inputs(e)
      ensures r.want.Keys == s.want.Keys
    {
      if S.Cleanable(state.g, s, v, e) then
        InputsRankBelow(state.g, t, e, n);
        S.Unwant(state.g, S.CleanNodes(state.g, t, s, v, e, state.g.Outputs(e)), e)
      else s
    }

    /** Un-want an edge whose inputs have all turned out clean, after its outputs. */
    method CleanOutEdge(scan: DependencyScan, ghost t: Topology, n: NodeId, e: EdgeId)
      requires Shape() && scan.state == state
      requires t.Sorts(state.g) && want.Keys <= t.rank.Keys && t.NodeRank(state.g, n) <= t.top
      requires n in state.g.Inputs(e)
      modifies this, state`dirty
      ensures Shape() && want.Keys == old(want.Keys) && VerdictsOf(scan.world) == old(VerdictsOf(scan.world))
      ensures View() == AfterOutEdge(t, old(View()), VerdictsOf(scan.world), n, e)
      decreases t.top - t.NodeRank(state.g, n), 0
    {
      hide Graph.Wired, OutOfDate, PoolViews, S.CleanNodes, S.Unwant, Topology.NodeRank, Topology.Sorts;
      assert View().want == want;
      assert state.g.Wired();
      var skip := NeedsNoRun(scan, e);
      if skip {
        assert e in want;
        InputsRankBelow(state.g, t, e, n);
        CleanOutputs(scan, t, e);
        Unwant(e);
      }
    }

    method CleanOutputs(scan: DependencyScan, ghost t: Topology, e: EdgeId)
      requires Shape() && scan.state == state
      requires t.Sorts(state.g) && want.Keys <= t.rank.Keys && e in t.rank
      modifies this, state`dirty
      ensures Shape() && want.Keys == old(want.Keys)
      ensures View() == S.CleanNodes(state.g, t, old(View()), VerdictsOf(scan.world), e, state.g.Outputs(e))
      decreases t.top - t.rank[e] - 1, 2
    {
      hide Graph.Wired, OutOfDate, PoolViews, S.CleanNode, Topology.NodeRank, Topology.Sorts;
      assert state.g.Wired();
      OutputsMade(e);
      assert View().want == want;
      ghost var s0 := View();
      ghost var v := VerdictsOf(scan.world);
      var outs := state.g.Outputs(e);
      for k := 0 to |outs|
        invariant Shape() && want.Keys == old(want.Keys)
        invariant VerdictsOf(scan.world) == v && View().want == want
        invariant S.CleanNodes(state.g, t, View(), v, e, outs[k..]) == S.CleanNodes(state.g, t, s0, v, e, outs)
      {
        assert outs[k..][1..] == outs[k + 1..] && outs[k] == outs[k..][0];
        RankOfOutput(t, e, outs[k]);
        assert S.CleanNodes(state.g, t, View(), v, e, outs[k..])
          == S.CleanNodes(state.g, t, S.CleanNode(state.g, t, View(), v, outs[k]), v, e, outs[k + 1..]);
        CleanNode(scan, t, outs[k]);
        assert View().want == want;
      }
    }

    lemma OutputsMade(e: EdgeId)
      requires state.g.Wired()
      ensures forall n | n in state.g.Outputs(e) :: state.g.InEdge(n) == Some(e)
    {
    }

    lemma RankOfOutput(t: Topology, e: EdgeId, n: NodeId)
      requires state.g.Wired() && t.Sorts(state.g) && e in t.rank && n in state.g.Outputs(e)
      ensures t.NodeRank(state.g, n) <= t.top && t.NodeRank(state.g, n) == t.rank[e] + 1
    {
    }

    method Unwant(e: EdgeId)
      requires e in want
      modifies this
      ensures want == old(want)[e := S.WantNothing]
      ensures View() == S.Unwant(state.g, old(View()), e)
    {
      hide Graph.IsPhony, Graph.IsRemote, PoolViews;
      want := want[e := S.WantNothing];
      wantedEdges := wantedEdges - 1;
      if !state.g.IsPhony(e) {
        commandEdges := commandEdges - 1;
      }
      if state.g.IsRemote(e) {
        remoteEdges := remoteEdges - 1;
      }
      unwanted := unwanted + {e};
    }

    /** Clean the outputs that a finished restat command left as they were. */
    method Restat(scan: DependencyScan, ghost t: Topology, e: EdgeId, untouched: set<NodeId>)
      requires Shape() && scan.state == state
      requires t.Sorts(state.g) && want.Keys <= t.rank.Keys && e in t.rank
      modifies this, state`dirty
      ensures Shape() && want.Keys == old(want.Keys)
      ensures View() == S.Restat(state.g, t, old(View()), VerdictsOf(scan.world), e, state.g.Outputs(e), untouched)
    {
      hide Graph.Outputs, Graph.PoolOf, Graph.Wired, OutOfDate, PoolViews, S.RestatOne, Topology.Sorts;
      assert View().want == want;
      assert state.g.Wired();
      ghost var s0 := View();
      ghost var v := VerdictsOf(scan.world);
      var outs := state.g.Outputs(e);
      for k := 0 to |outs|
        invariant Shape() && want.Keys == old(want.Keys)
        invariant VerdictsOf(scan.world) == v && View().want == want
        invariant S.Restat(state.g, t, View(), v, e, outs[k..], untouched) == S.Restat(state.g, t, s0, v, e, outs, untouched)
      {
        assert outs[k..][1..] == outs[k + 1..] && outs[k] == outs[k..][0];
        assert S.Restat(state.g, t, View(), v, e, outs[k..], untouched)
          == S.Restat(state.g, t, S.RestatOne(state.g, t, View(), v, e, outs[k], untouched), v, e, outs[k + 1..], untouched);
        RestatOne(scan, t, e, outs[k], untouched);
        assert View().want == want;
      }
    }

    /** A command succeeded: apply restat, then finish the edge. */
    method CommandSucceeded(scan: DependencyScan, ghost t: Topology, e: EdgeId, untouched: set<NodeId>)
      requires Shape() && scan.state == state && e in want
      requires t.Sorts(state.g) && want.Keys <= t.rank.Keys && e in t.rank
      modifies this, state`dirty, state`outputsReady, pools.Values
      ensures Shape()
      ensures View() == S.CommandSucceeded(state.g, t, old(View()), old(VerdictsOf(scan.world)), e, untouched)
    {
      hide PoolViews, S.Restat, S.EdgeSucceeded, Graph.Wired, Topology.Sorts;
      Restat(scan, t, e, untouched);
      EdgeFinished(e, true);
    }

    method RestatOne(scan: DependencyScan, ghost t: Topology, e: EdgeId, n: NodeId, untouched: set<NodeId>)
      requires Shape() && scan.state == state
      requires t.Sorts(state.g) && want.Keys <= t.rank.Keys && e in t.rank && n in state.g.Outputs(e)
      modifies this, state`dirty
      ensures Shape() && want.Keys == old(want.Keys)
      ensures View() == S.RestatOne(state.g, t, old(View()), VerdictsOf(scan.world), e, n, untouched)
    {
      hide PoolViews, S.CleanNode;
      assert state.g.InEdge(n) == Some(e);
      if n in untouched {
        CleanNode(scan, t, n);
      }
    }
  }

  /** What restat takes into account of an edge, without reference to how it is computed. */
  lemma OutOfDateMeans(g: Graph, w: World, e: EdgeId)
    requires g.Wired() && e in g.edges
    ensures e in OutOfDate(g, w) <==>
      exists o | o in g.Outputs(e) ::
        if g.edges[e].phony then g.edges[e].inputs == [] && w.Stat(o) == 0 else exists why :: HasDefect(g, w, e, o, why)
  {
    hide HasDefect, Newest, OutputDirty;
    forall o | o in g.Outputs(e)
      ensures OutputDirty(g, w, e, Newest(w, g.RegularInputs(e)), o) <==>
        if g.edges[e].phony then g.edges[e].inputs == [] && w.Stat(o) == 0 else exists why :: HasDefect(g, w, e, o, why)
    {
      OutOfDateExactlyWhen(g, w, e, o);
    }
  }

  /** The edges one of whose outputs is out of date with respect to the newest regular input. */
  ghost function OutOfDate(g: Graph, w: World): set<EdgeId> {
    set e | e in g.edges && AnyOutputDirty(g, w, e, Newest(w, g.RegularInputs(e)))
  }
}
