/**
  Restat: what cleaning a node does to the plan. It un-wants an edge only if it has not been scheduled, and it
  leaves no edge wanted that the cleaning made unnecessary.
 */
module PlanRestat {
  import opened BuildGraph
  import opened Pools
  import opened PlanSpec
  import opened PlanInvariant

  /**
    From `s` to `r` some nodes became clean and some edges of rank `low` and above, all of them not yet
    scheduled and found up to date, were un-wanted. Nothing else changed.
   */
  ghost predicate Cleaned(g: Graph, t: Topology, v: Verdicts, s: PlanState, r: PlanState, low: nat) {
    && r == s.(want := r.want, dirty := r.dirty, unwanted := r.unwanted, wantedEdges := r.wantedEdges,
               commandEdges := r.commandEdges, remoteEdges := r.remoteEdges)
    && r.dirty <= s.dirty && s.unwanted <= r.unwanted
    && OnlyUnwants(g, t, v, s.want, r.want, r.dirty, low)
    && forall e | e in r.unwanted && e !in s.unwanted :: Unneeded(g, v, r.dirty, e)
  }

  /** The dependencies of the edge are known, its regular inputs are clean and none of its outputs is out of date. */
  ghost predicate Unneeded(g: Graph, v: Verdicts, dirty: set<NodeId>, e: EdgeId) {
    && e !in v.depsMissing && e !in v.outputsDirty
    && forall i | i in g.RegularInputs(e) :: i !in dirty
  }

  /** Whatever was un-wanted need not run. */
  ghost predicate Excused(g: Graph, v: Verdicts, dirty: set<NodeId>, unwanted: set<EdgeId>) {
    forall e | e in unwanted :: Unneeded(g, v, dirty, e)
  }

  lemma CleanedIsExcused(g: Graph, t: Topology, v: Verdicts, s: PlanState, r: PlanState, low: nat)
    requires Cleaned(g, t, v, s, r, low) && Excused(g, v, s.dirty, s.unwanted)
    ensures Excused(g, v, r.dirty, r.unwanted)
  {
    hide OnlyUnwants;
  }

  ghost predicate OnlyUnwants(g: Graph, t: Topology, v: Verdicts, want: map<EdgeId, Want>, want': map<EdgeId, Want>,
                              dirty: set<NodeId>, low: nat) {
    && want'.Keys == want.Keys
    && (forall e | e in want && want'[e] != want[e] ::
          && want[e] == WantToStart && want'[e] == WantNothing
          && e in t.rank && low <= t.rank[e] && Unneeded(g, v, dirty, e))
  }

  /** The edge was wanted and not scheduled, and is un-wanted now. */
  predicate Unwanted(s: PlanState, r: PlanState, e: EdgeId) {
    && e in s.want && s.want[e] == WantToStart
    && e in r.unwanted && (e in r.want ==> r.want[e] == WantNothing)
  }

  /** Only the nodes `roots` and outputs of edges un-wanted in the same step became clean; those roots did. */
  ghost predicate CleansOnly(g: Graph, s: PlanState, r: PlanState, roots: set<NodeId>) {
    && r.dirty <= s.dirty && roots !! r.dirty
    && forall n | n in s.dirty && n !in r.dirty && n !in roots ::
         g.InEdge(n).Some? && Unwanted(s, r, g.InEdge(n).value)
  }

  lemma CleansOnlyTrans(g: Graph, t: Topology, v: Verdicts, s: PlanState, m: PlanState, r: PlanState, low: nat, high: nat,
                        a: set<NodeId>, b: set<NodeId>, both: set<NodeId>)
    requires Cleaned(g, t, v, s, m, low) && Cleaned(g, t, v, m, r, high)
    requires CleansOnly(g, s, m, a) && CleansOnly(g, m, r, b) && both == a + b
    ensures CleansOnly(g, s, r, both)
  {
    forall n | n in s.dirty && n !in r.dirty && n !in both
      ensures g.InEdge(n).Some? && Unwanted(s, r, g.InEdge(n).value)
    {
      if n !in m.dirty {
        UnwantedStays(g, t, v, s, m, r, high, g.InEdge(n).value);
      } else {
        UnwantedBefore(g, t, v, s, m, r, low, g.InEdge(n).value);
      }
    }
  }

  lemma UnwantedStays(g: Graph, t: Topology, v: Verdicts, s: PlanState, m: PlanState, r: PlanState, low: nat, e: EdgeId)
    requires Unwanted(s, m, e) && Cleaned(g, t, v, m, r, low)
    ensures Unwanted(s, r, e)
  {
  }

  lemma UnwantedBefore(g: Graph, t: Topology, v: Verdicts, s: PlanState, m: PlanState, r: PlanState, low: nat, e: EdgeId)
    requires Cleaned(g, t, v, s, m, low) && Unwanted(m, r, e)
    ensures Unwanted(s, r, e)
  {
  }

  /** No reader of a node cleaned between `s` and `r` is still wanted without need. */
  ghost predicate Thorough(g: Graph, v: Verdicts, s: PlanState, r: PlanState) {
    forall e, m | m in s.dirty && m !in r.dirty && m in g.Inputs(e) :: !Cleanable(g, r, v, e)
  }

  lemma CleanedTrans(g: Graph, t: Topology, v: Verdicts, s: PlanState, m: PlanState, r: PlanState, low: nat, high: nat)
    requires Cleaned(g, t, v, s, m, low) && Cleaned(g, t, v, m, r, high) && low <= high
    ensures Cleaned(g, t, v, s, r, low)
  {
    forall e | e in s.want && r.want[e] != s.want[e]
      ensures && s.want[e] == WantToStart && r.want[e] == WantNothing
              && e in t.rank && low <= t.rank[e] && Unneeded(g, v, r.dirty, e)
    {
      if m.want[e] == s.want[e] {
        assert r.want[e] != m.want[e];
      }
    }
  }

  /** An edge that needs to run still does, unless a later cleaning reached it, and then it was seen to. */
  lemma StillNeeded(g: Graph, t: Topology, v: Verdicts, s: PlanState, r: PlanState, low: nat, e: EdgeId)
    requires Cleaned(g, t, v, s, r, low) && Thorough(g, v, s, r)
    requires !Cleanable(g, s, v, e)
    ensures !Cleanable(g, r, v, e)
  {
    assert forall i | i in g.RegularInputs(e) :: i in g.Inputs(e);
  }

  lemma ThoroughTrans(g: Graph, t: Topology, v: Verdicts, s: PlanState, m: PlanState, r: PlanState, low: nat)
    requires Thorough(g, v, s, m) && Thorough(g, v, m, r)
    requires m.dirty <= s.dirty && Cleaned(g, t, v, m, r, low)
    ensures Thorough(g, v, s, r)
  {
    forall e, n | n in s.dirty && n !in r.dirty && n in g.Inputs(e) ensures !Cleanable(g, r, v, e) {
      if n !in m.dirty {
        StillNeeded(g, t, v, m, r, low, e);
      }
    }
  }

  /** Un-wanting an edge that was not scheduled keeps the invariant. */
  lemma UnwantKeeps(g: Graph, base: set<EdgeId>, s: PlanState, e: EdgeId)
    requires Inv(g, base, s, {}, {}) && e in s.want && s.want[e] == WantToStart
    ensures Inv(g, base, Unwant(g, s, e), {}, {})
  {
    hide CountersOk, QueuesOk, PoolsOk, TraceOk;
    UnwantKeepsCounters(g, s, e);
    UnwantKeepsQueues(g, s, e);
    UnwantKeepsTrace(g, base, s, e);
    UnwantKeepsPools(g, s, e);
  }

  lemma UnwantKeepsCounters(g: Graph, s: PlanState, e: EdgeId)
    requires CountersOk(g, s) && s.want.Keys !! s.outputsReady
    requires e in s.want && s.want[e] == WantToStart
    ensures CountersOk(g, Unwant(g, s, e))
  {
    hide Counts;
    assert Wanted(s.want[e := WantNothing]) == Wanted(s.want) - {e};
    assert e in Wanted(s.want) && e !in s.finished;
    OneLessCounted(g, s.wantedEdges, s.commandEdges, s.remoteEdges, Wanted(s.want), s.finished, e);
  }

  lemma UnwantKeepsQueues(g: Graph, s: PlanState, e: EdgeId)
    requires QueuesOk(g, s) && e in s.want && s.want[e] == WantToStart
    ensures QueuesOk(g, Unwant(g, s, e))
  {
    hide Partition, Owned, RemoteQueueOk;
    assert Scheduled(s.want[e := WantNothing]) == Scheduled(s.want);
  }

  lemma UnwantKeepsTrace(g: Graph, base: set<EdgeId>, s: PlanState, e: EdgeId)
    requires TraceOk(g, base, s) && e in s.want
    ensures TraceOk(g, base, Unwant(g, s, e))
  {
  }

  lemma UnwantKeepsPools(g: Graph, s: PlanState, e: EdgeId)
    requires PoolsOk(g, s.pools, s.ready + s.running) && e in s.want
    ensures var r := Unwant(g, s, e); PoolsOk(g, r.pools, r.ready + r.running)
  {
  }

  lemma OneLessCounted(g: Graph, wantedEdges: int, commandEdges: int, remoteEdges: int, wanted: set<EdgeId>,
                       finished: set<EdgeId>, e: EdgeId)
    requires Counts(g, wantedEdges, commandEdges, remoteEdges, wanted, finished) && e in wanted && e !in finished
    ensures Counts(g, wantedEdges - 1, commandEdges - (if g.IsPhony(e) then 0 else 1),
                   remoteEdges - (if g.IsRemote(e) then 1 else 0), wanted - {e}, finished)
  {
    var before, after := wanted + finished, wanted - {e} + finished;
    assert after == before - {e};
    assert NonPhony(g, after) == NonPhony(g, before) - {e};
    assert RemoteOnes(g, after) == RemoteOnes(g, before) - {e};
  }

  /** The edge that makes `n` is still to run, so nothing that reads `n` has been scheduled. */
  ghost predicate NotYetMade(g: Graph, s: PlanState, n: NodeId) {
    g.InEdge(n).Some? && g.InEdge(n).value !in s.outputsReady
  }

  /**
    Cleaning a node keeps the invariant, un-wants only edges that are not scheduled and that nothing makes
    dirty any more, and is thorough: no reader of a cleaned node is wanted without need.
   */
  lemma {:induction false} CleanNodeKeeps(g: Graph, base: set<EdgeId>, t: Topology, s: PlanState, v: Verdicts, n: NodeId)
    requires g.Wired() && t.Sorts(g) && s.want.Keys <= t.rank.Keys && t.NodeRank(g, n) <= t.top
    requires Inv(g, base, s, {}, {}) && NotYetMade(g, s, n)
    ensures var r := CleanNode(g, t, s, v, n);
      && Inv(g, base, r, {}, {}) && Cleaned(g, t, v, s, r, t.NodeRank(g, n)) && Thorough(g, v, s, r)
      && CleansOnly(g, s, r, {n})
      && (forall e | e in g.OutEdges(n) :: !Cleanable(g, r, v, e))
    decreases t.top - t.NodeRank(g, n), 2, 0
  {
    hide Inv, Cleanable, Unneeded;
    var s0 := s.(dirty := s.dirty - {n});
    CleanedIsClean(g, base, s, n);
    CleanOutEdgesKeeps(g, base, t, s0, v, n, g.OutEdges(n));
    var r := CleanNode(g, t, s, v, n);
    assert Cleaned(g, t, v, s, s0, t.NodeRank(g, n));
    CleanedTrans(g, t, v, s, s0, r, t.NodeRank(g, n), t.NodeRank(g, n));
    CleansOnlyTrans(g, t, v, s, s0, r, t.NodeRank(g, n), t.NodeRank(g, n), {n}, {}, {n});
    forall e, m | m in s.dirty && m !in r.dirty && m in g.Inputs(e) ensures !Cleanable(g, r, v, e) {
      if m == n {
        assert e in g.OutEdges(n);
      }
    }
  }

  lemma CleanedIsClean(g: Graph, base: set<EdgeId>, s: PlanState, n: NodeId)
    requires Inv(g, base, s, {}, {})
    ensures Inv(g, base, s.(dirty := s.dirty - {n}), {}, {})
  {
    hide Counts, Partition, Owned, RemoteQueueOk, ReleasedOk, PoolsOk, DepsOk, LegalTrace, HistoryOk;
  }

  lemma {:induction false} CleanOutEdgesKeeps(g: Graph, base: set<EdgeId>, t: Topology, s: PlanState, v: Verdicts, n: NodeId,
                                              edges: seq<EdgeId>)
    requires g.Wired() && t.Sorts(g) && s.want.Keys <= t.rank.Keys && t.NodeRank(g, n) <= t.top
    requires Inv(g, base, s, {}, {}) && NotYetMade(g, s, n)
    requires forall e | e in edges :: n in g.Inputs(e)
    ensures var r := CleanOutEdges(g, t, s, v, n, edges);
      && Inv(g, base, r, {}, {}) && Cleaned(g, t, v, s, r, t.NodeRank(g, n)) && Thorough(g, v, s, r)
      && r.dirty <= s.dirty && CleansOnly(g, s, r, {})
      && (forall e | e in edges :: !Cleanable(g, r, v, e))
    decreases t.top - t.NodeRank(g, n), 1, |edges|
  {
    hide Inv, Cleanable, Cleaned, CleansOnly, Thorough;
    if edges == [] {
      NothingCleaned(g, t, v, s, t.NodeRank(g, n));
    } else {
      var low := t.NodeRank(g, n);
      var e := edges[0];
      CleanOneEdgeKeeps(g, base, t, s, v, n, e);
      var s1 := CleanOneEdge(g, t, s, v, n, e);
      CleanedFacts(g, t, v, s, s1, low);
      CleanOutEdgesKeeps(g, base, t, s1, v, n, edges[1..]);
      var r := CleanOutEdges(g, t, s1, v, n, edges[1..]);
      CleanedTrans(g, t, v, s, s1, r, low, low);
      ThoroughTrans(g, t, v, s, s1, r, low);
      CleansOnlyTrans(g, t, v, s, s1, r, low, low, {}, {}, {});
      StillNeeded(g, t, v, s1, r, low, e);
      CleanedFacts(g, t, v, s1, r, low);
    }
  }

  lemma NothingCleaned(g: Graph, t: Topology, v: Verdicts, s: PlanState, low: nat)
    ensures Cleaned(g, t, v, s, s, low) && Thorough(g, v, s, s) && CleansOnly(g, s, s, {})
  {
  }

  lemma CleanedFacts(g: Graph, t: Topology, v: Verdicts, s: PlanState, r: PlanState, low: nat)
    requires Cleaned(g, t, v, s, r, low)
    ensures r.want.Keys == s.want.Keys && r.outputsReady == s.outputsReady && r.dirty <= s.dirty
    ensures r.running == s.running && r.failed == s.failed && r.trace == s.trace
  {
  }

  /** One turn of the loop over out-edges. */
  ghost function CleanOneEdge(g: Graph, t: Topology, s: PlanState, v: Verdicts, n: NodeId, e: EdgeId): PlanState
    requires g.Wired() && t.Sorts(g) && s.want.Keys <= t.rank.Keys
    requires t.NodeRank(g, n) <= t.top && n in g.Inputs(e)
  {
    if Cleanable(g, s, v, e) then Unwant(g, CleanNodes(g, t, s, v, e, g.Outputs(e)), e) else s
  }

  lemma {:induction false} CleanOneEdgeKeeps(g: Graph, base: set<EdgeId>, t: Topology, s: PlanState, v: Verdicts, n: NodeId,
                                             e: EdgeId)
    requires g.Wired() && t.Sorts(g) && s.want.Keys <= t.rank.Keys && t.NodeRank(g, n) <= t.top
    requires Inv(g, base, s, {}, {}) && NotYetMade(g, s, n) && n in g.Inputs(e)
    ensures var r := CleanOneEdge(g, t, s, v, n, e);
      && Inv(g, base, r, {}, {}) && Cleaned(g, t, v, s, r, t.NodeRank(g, n)) && Thorough(g, v, s, r)
      && CleansOnly(g, s, r, {}) && !Cleanable(g, r, v, e)
    decreases t.top - t.NodeRank(g, n), 1, 0
  {
    hide CleansOnly, NotYetMade, Pool.View;
    var low := t.NodeRank(g, n);
    if Cleanable(g, s, v, e) {
      InputsRankBelow(g, t, e, n);
      assert e in s.want && s.want[e] != WantNothing;
      UnscheduledReader(g, base, s, n, e);
      CleanNodesKeeps(g, base, t, s, v, e, g.Outputs(e));
      var m := CleanNodes(g, t, s, v, e, g.Outputs(e));
      UntouchedBelow(g, t, v, s, m, t.rank[e] + 1, e);
      UnwantKeeps(g, base, m, e);
      UnwantIsCleaned(g, t, v, s, m, e, low);
      OutputsOfUnwanted(g, t, v, s, m, e);
      assert !Cleanable(g, Unwant(g, m, e), v, e);
    } else {
      NothingCleaned(g, t, v, s, low);
    }
  }

  /** Un-wanting an edge accounts for its outputs being clean. */
  lemma OutputsOfUnwanted(g: Graph, t: Topology, v: Verdicts, s: PlanState, m: PlanState, e: EdgeId)
    requires g.Wired() && e in t.rank && Cleaned(g, t, v, s, m, t.rank[e] + 1)
    requires CleansOnly(g, s, m, NodesOf(g.Outputs(e)))
    requires e in s.want && s.want[e] == WantToStart && e in m.want
    ensures CleansOnly(g, s, Unwant(g, m, e), {})
  {
    var r := Unwant(g, m, e);
    forall n | n in s.dirty && n !in r.dirty ensures g.InEdge(n).Some? && Unwanted(s, r, g.InEdge(n).value) {
      if n in NodesOf(g.Outputs(e)) {
        MakerOf(g, e, n);
      } else {
        assert Unwanted(s, m, g.InEdge(n).value);
      }
    }
  }

  lemma MakerOf(g: Graph, e: EdgeId, n: NodeId)
    requires g.Wired() && n in g.Outputs(e)
    ensures g.InEdge(n) == Some(e)
  {
  }

  function NodesOf(nodes: seq<NodeId>): set<NodeId> {
    set n | n in nodes
  }

  lemma UnscheduledReader(g: Graph, base: set<EdgeId>, s: PlanState, n: NodeId, e: EdgeId)
    requires Inv(g, base, s, {}, {}) && NotYetMade(g, s, n) && n in g.Inputs(e)
    requires e in s.want && s.want[e] != WantNothing
    ensures s.want[e] == WantToStart && e !in s.outputsReady
  {
    hide CountersOk, QueuesOk, PoolsOk, TraceOk;
    assert !g.NodeReady(s.outputsReady, n);
  }

  lemma UntouchedBelow(g: Graph, t: Topology, v: Verdicts, s: PlanState, m: PlanState, low: nat, e: EdgeId)
    requires Cleaned(g, t, v, s, m, low) && e in s.want && e in t.rank && t.rank[e] < low
    ensures e in m.want && m.want[e] == s.want[e]
  {
  }

  lemma UnwantIsCleaned(g: Graph, t: Topology, v: Verdicts, s: PlanState, m: PlanState, e: EdgeId, low: nat)
    requires e in t.rank && low <= t.rank[e]
    requires Cleaned(g, t, v, s, m, t.rank[e] + 1) && Thorough(g, v, s, m)
    requires Cleanable(g, s, v, e) && e in m.want && m.want[e] == WantToStart
    ensures Cleaned(g, t, v, s, Unwant(g, m, e), low) && Thorough(g, v, s, Unwant(g, m, e))
  {
    var r := Unwant(g, m, e);
    assert Cleaned(g, t, v, m, r, low);
    CleanedTrans(g, t, v, s, m, m, t.rank[e] + 1, t.rank[e] + 1);
    assert Cleaned(g, t, v, s, m, low);
    CleanedTrans(g, t, v, s, m, r, low, low);
    ThoroughTrans(g, t, v, s, m, r, low);
  }

  lemma {:induction false} CleanNodesKeeps(g: Graph, base: set<EdgeId>, t: Topology, s: PlanState, v: Verdicts, e: EdgeId,
                                           nodes: seq<NodeId>)
    requires g.Wired() && t.Sorts(g) && s.want.Keys <= t.rank.Keys && e in t.rank
    requires forall n | n in nodes :: n in g.Outputs(e)
    requires Inv(g, base, s, {}, {}) && e !in s.outputsReady
    ensures var r := CleanNodes(g, t, s, v, e, nodes);
      && Inv(g, base, r, {}, {}) && Cleaned(g, t, v, s, r, t.rank[e] + 1) && Thorough(g, v, s, r)
      && CleansOnly(g, s, r, NodesOf(nodes))
    decreases t.top - t.rank[e] - 1, 3, |nodes|
  {
    hide Inv, Cleaned, CleansOnly, Thorough, Cleanable;
    var low := t.rank[e] + 1;
    if nodes == [] {
      assert NodesOf(nodes) == {};
      NothingCleaned(g, t, v, s, low);
    } else {
      CleanNodeKeeps(g, base, t, s, v, nodes[0]);
      var s1 := CleanNode(g, t, s, v, nodes[0]);
      CleanedFacts(g, t, v, s, s1, low);
      CleanNodesKeeps(g, base, t, s1, v, e, nodes[1..]);
      var r := CleanNodes(g, t, s1, v, e, nodes[1..]);
      CleanedTrans(g, t, v, s, s1, r, low, low);
      ThoroughTrans(g, t, v, s, s1, r, low);
      CleansOnlyTrans(g, t, v, s, s1, r, low, low, {nodes[0]}, NodesOf(nodes[1..]), NodesOf(nodes));
    }
  }

  /**
    Restat of a finished command keeps the invariant and does not touch anything scheduled. The outputs that the command
    left untouched are clean afterwards, and nothing else becomes clean but outputs of edges that restat un-wants.
   */
  lemma {:induction false} RestatKeeps(g: Graph, base: set<EdgeId>, t: Topology, s: PlanState, v: Verdicts, e: EdgeId,
                                       outs: seq<NodeId>, untouched: set<NodeId>)
    requires g.Wired() && t.Sorts(g) && s.want.Keys <= t.rank.Keys && e in t.rank
    requires forall n | n in outs :: n in g.Outputs(e)
    requires Inv(g, base, s, {}, {}) && e !in s.outputsReady
    ensures var r := Restat(g, t, s, v, e, outs, untouched);
      && Inv(g, base, r, {}, {}) && Cleaned(g, t, v, s, r, t.rank[e] + 1) && Thorough(g, v, s, r)
      && CleansOnly(g, s, r, NodesOf(outs) * untouched)
      && (NodesOf(outs) * untouched == {} ==> r == s)
    decreases |outs|
  {
    hide Inv, Cleaned, CleansOnly, Thorough, Cleanable;
    var low := t.rank[e] + 1;
    NothingCleaned(g, t, v, s, low);
    if outs == [] {
      assert NodesOf(outs) * untouched == {};
    } else {
      if outs[0] in untouched {
        CleanNodeKeeps(g, base, t, s, v, outs[0]);
      }
      var s1 := if outs[0] in untouched then CleanNode(g, t, s, v, outs[0]) else s;
      var first := if outs[0] in untouched then {outs[0]} else {};
      var more := NodesOf(outs[1..]) * untouched;
      assert NodesOf(outs) * untouched == first + more;
      CleanedFacts(g, t, v, s, s1, low);
      RestatKeeps(g, base, t, s1, v, e, outs[1..], untouched);
      var r := Restat(g, t, s1, v, e, outs[1..], untouched);
      CleansOnlyTrans(g, t, v, s, s1, r, low, low, first, more, first + more);
      CleanedTrans(g, t, v, s, s1, r, low, low);
      ThoroughTrans(g, t, v, s, s1, r, low);
      CleanedFacts(g, t, v, s1, r, low);
    }
  }
}
