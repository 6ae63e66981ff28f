/**
  What each operation of the build plan does, as a function from plan state to plan state.
  The class `Plan` is proved against these functions; the invariants are proved about them.
 */
module PlanSpec {
  import opened BuildGraph
  import opened Pools

  /** What the plan wants of an edge it knows about. */
  datatype Want = WantNothing | WantToStart | WantToFinish

  /** What happened to an edge. `Started` says which runner took it, `Completed` that its outputs became ready. */
  datatype Event =
    | Started(edge: EdgeId, remotely: bool)
    | Completed(edge: EdgeId)
    | Failed(edge: EdgeId)

  /**
    The plan, the flags on nodes and edges that it reads and writes (`outputsReady`, `dirty`), and the pools.
    The last seven fields are history: which edges a runner has, which failed, which wanted ones finished,
    which were un-wanted, which were ever wanted, which a finishing edge let out of their pool, and everything that
    happened.
   */
  datatype PlanState = PlanState(
    want: map<EdgeId, Want>,
    ready: set<EdgeId>,
    readyRemote: set<EdgeId>,
    commandEdges: int,
    remoteEdges: int,
    wantedEdges: int,
    outputsReady: set<EdgeId>,
    dirty: set<NodeId>,
    pools: map<PoolId, PoolState>,
    running: set<EdgeId>,
    failed: set<EdgeId>,
    finished: set<EdgeId>,
    unwanted: set<EdgeId>,
    everWanted: set<EdgeId>,
    released: set<EdgeId>,
    trace: seq<Event>)
  {
    function PoolAt(p: PoolId): PoolState {
      if p in pools then pools[p] else PoolState(0, 0, {})
    }

    /** Whether there is still something to run. */
    predicate MoreToDo() {
      wantedEdges > 0 && commandEdges > 0
    }
  }

  function RemoteOnes(g: Graph, s: set<EdgeId>): set<EdgeId> {
    set e | e in s && g.IsRemote(e)
  }

  /** Count an edge as wanted. */
  function EdgeWanted(g: Graph, s: PlanState, e: EdgeId): PlanState {
    s.(wantedEdges := s.wantedEdges + 1,
       commandEdges := s.commandEdges + (if g.IsPhony(e) then 0 else 1),
       remoteEdges := s.remoteEdges + (if g.IsRemote(e) then 1 else 0),
       everWanted := s.everWanted + {e})
  }

  /** Make a wanted edge a candidate for running, through its pool. */
  function ScheduleWork(g: Graph, s: PlanState, e: EdgeId): PlanState
    requires e in s.want
  {
    if s.want[e] == WantToFinish then
      s
    else
      var id := g.PoolOf(e);
      var (q, got) := Admit(s.PoolAt(id), e);
      s.(want := s.want[e := WantToFinish], pools := s.pools[id := q], ready := s.ready + got,
         readyRemote := s.readyRemote + RemoteOnes(g, got))
  }

  /** A plan after trying to add a target, and the first missing source file found, if any. */
  datatype AddResult = AddResult(s: PlanState, missing: Option<NodeId>)

  /** Add a node and all it depends on. */
  function AddSubTarget(g: Graph, s: PlanState, n: NodeId): (r: AddResult)
    requires g.Wired()
    ensures s.want.Keys <= r.s.want.Keys
    ensures g.InEdge(n).Some? ==> r.s.want.Keys <= s.want.Keys + g.edges.Keys
    decreases g.edges.Keys - s.want.Keys, 1, 0
  {
    match g.InEdge(n)
    case None => AddResult(s, if n in s.dirty then Some(n) else None)
    case Some(e) =>
      if e in s.outputsReady then
        AddResult(s, None)
      else
        var s1 := Enlist(g, s, n, e);
        if e in s.want then
          AddResult(s1, None)
        else
          AddInputs(g, s1, g.Inputs(e))
  }

  function AddInputs(g: Graph, s: PlanState, ins: seq<NodeId>): (r: AddResult)
    requires g.Wired()
    ensures s.want.Keys <= r.s.want.Keys
    ensures r.s.want.Keys <= s.want.Keys + g.edges.Keys
    decreases g.edges.Keys - s.want.Keys, 2, |ins|
  {
    if ins == [] then
      AddResult(s, None)
    else
      var r := AddSubTarget(g, s, ins[0]);
      if r.missing.Some? then r
      else
        MoreWantedMeansFewerLeft(g, s, r.s);
        AddInputs(g, r.s, ins[1..])
  }

  /** The part of `AddSubTarget` before the inputs: enter the edge and want it if the node is dirty. */
  function Enlist(g: Graph, s: PlanState, n: NodeId, e: EdgeId): (r: PlanState)
    ensures r.want.Keys == s.want.Keys + {e}
  {
    var s1 := if e in s.want then s else s.(want := s.want[e := WantNothing]);
    if n in s.dirty && s1.want[e] == WantNothing then
      var s2 := EdgeWanted(g, s1.(want := s1.want[e := WantToStart]), e);
      if g.AllInputsReady(s.outputsReady, e) then ScheduleWork(g, s2, e) else s2
    else
      s1
  }

  lemma MoreWantedMeansFewerLeft(g: Graph, s: PlanState, s': PlanState)
    requires s.want.Keys <= s'.want.Keys
    ensures g.edges.Keys - s'.want.Keys <= g.edges.Keys - s.want.Keys
  {
  }

  /** Pop an edge to run: the least ready edge, or the least one the remote runner may take. */
  function FindWork(s: PlanState, onlyRemote: bool): (r: (PlanState, Option<EdgeId>)) {
    var queue := if onlyRemote then s.readyRemote else s.ready;
    if queue == {} then
      (s, None)
    else
      var e := MinOf(queue);
      (s.(ready := s.ready - {e}, readyRemote := s.readyRemote - {e},
          running := s.running + {e}, trace := s.trace + [Started(e, onlyRemote)]), Some(e))
  }

  /** Give back the pool slot of an edge that ran, and let delayed edges of its pool through. */
  function Release(g: Graph, s: PlanState, e: EdgeId): (r: PlanState)
    requires e in s.want
    ensures r.want == s.want
  {
    var id := g.PoolOf(e);
    var directly := s.want[e] != WantNothing;
    var p := s.PoolAt(id);
    var (q, got) := RetrieveReady(if directly then Vacated(p) else p);
    s.(pools := s.pools[id := q], ready := s.ready + got, released := s.released + got,
       running := if directly then s.running - {e} else s.running)
  }

  /** An edge whose command failed keeps its place in `want`, so the build never counts as done. */
  function EdgeFailed(g: Graph, s: PlanState, e: EdgeId): PlanState
    requires e in s.want
  {
    var s1 := Release(g, s, e);
    s1.(failed := s1.failed + {e}, trace := s1.trace + [Failed(e)])
  }

  /** Strike a finished edge off the plan and mark its outputs ready. */
  function Retire(g: Graph, s: PlanState, e: EdgeId): (r: PlanState)
    requires e in s.want
    ensures r.want == s.want - {e}
  {
    var directly := s.want[e] != WantNothing;
    var s1 := Release(g, s, e);
    s1.(want := s1.want - {e},
        wantedEdges := s1.wantedEdges - (if directly then 1 else 0),
        outputsReady := s1.outputsReady + {e},
        finished := if directly then s1.finished + {e} else s1.finished,
        trace := s1.trace + [Completed(e)])
  }

  /** An edge is done: retire it and propagate readiness through the graph. */
  function EdgeSucceeded(g: Graph, s: PlanState, e: EdgeId): (r: PlanState)
    requires e in s.want
    ensures r.want.Keys < s.want.Keys
    decreases |s.want.Keys|, 0, 0
  {
    var s1 := Retire(g, s, e);
    assert e in s.want.Keys && s1.want.Keys == s.want.Keys - {e};
    NodesFinished(g, s1, g.Outputs(e))
  }

  function NodesFinished(g: Graph, s: PlanState, nodes: seq<NodeId>): (r: PlanState)
    ensures r.want.Keys <= s.want.Keys
    decreases |s.want.Keys|, 2, |nodes|
  {
    if nodes == [] then s
    else
      var s1 := CheckOutEdges(g, s, g.OutEdges(nodes[0]));
      SubsetIsSmaller(s1.want.Keys, s.want.Keys);
      NodesFinished(g, s1, nodes[1..])
  }

  function CheckOutEdges(g: Graph, s: PlanState, edges: seq<EdgeId>): (r: PlanState)
    ensures r.want.Keys <= s.want.Keys
    decreases |s.want.Keys|, 1, |edges|
  {
    if edges == [] then s
    else
      var s1 := EdgeMaybeReady(g, s, edges[0]);
      SubsetIsSmaller(s1.want.Keys, s.want.Keys);
      CheckOutEdges(g, s1, edges[1..])
  }

  /** If an edge of the plan has become ready, schedule it, or pass over it when it is not wanted itself. */
  function EdgeMaybeReady(g: Graph, s: PlanState, e: EdgeId): (r: PlanState)
    ensures r.want.Keys <= s.want.Keys
    decreases |s.want.Keys|, 0, 1
  {
    if e in s.want && g.AllInputsReady(s.outputsReady, e) then
      if s.want[e] != WantNothing then ScheduleWork(g, s, e) else EdgeSucceeded(g, s, e)
    else s
  }

  lemma SubsetIsSmaller(a: set<EdgeId>, b: set<EdgeId>)
    requires a <= b
    ensures |a| <= |b|
  {
    assert b == a + (b - a);
  }

  /** What `CleanNode` learns from the disk and the logs, fixed while it runs. */
  datatype Verdicts = Verdicts(depsMissing: set<EdgeId>, outputsDirty: set<EdgeId>)

  /** An edge `CleanNode` will take off the list of things to build. */
  predicate Cleanable(g: Graph, s: PlanState, v: Verdicts, e: EdgeId) {
    && e in s.want && s.want[e] != WantNothing
    && e !in v.depsMissing
    && (forall i | i in g.RegularInputs(e) :: i !in s.dirty)
    && e !in v.outputsDirty
  }

  function Unwant(g: Graph, s: PlanState, e: EdgeId): PlanState
    requires e in s.want
  {
    s.(want := s.want[e := WantNothing],
       wantedEdges := s.wantedEdges - 1,
       commandEdges := s.commandEdges - (if g.IsPhony(e) then 0 else 1),
       remoteEdges := s.remoteEdges - (if g.IsRemote(e) then 1 else 0),
       unwanted := s.unwanted + {e})
  }

  /** Restat found a node unchanged: mark it clean and un-want what no longer needs to run. */
  function CleanNode(g: Graph, ghost t: Topology, s: PlanState, v: Verdicts, n: NodeId): (r: PlanState)
    requires g.Wired() && t.Sorts(g) && s.want.Keys <= t.rank.Keys
    requires t.NodeRank(g, n) <= t.top
    ensures r.want.Keys == s.want.Keys
    decreases t.top - t.NodeRank(g, n), 2, 0
  {
    CleanOutEdges(g, t, s.(dirty := s.dirty - {n}), v, n, g.OutEdges(n))
  }

  function CleanOutEdges(g: Graph, ghost t: Topology, s: PlanState, v: Verdicts, ghost n: NodeId, edges: seq<EdgeId>)
    : (r: PlanState)
    requires g.Wired() && t.Sorts(g) && s.want.Keys <= t.rank.Keys
    requires t.NodeRank(g, n) <= t.top
    requires forall e | e in edges :: n in g.Inputs(e)
    ensures r.want.Keys == s.want.Keys
    decreases t.top - t.NodeRank(g, n), 1, |edges|
  {
    if edges == [] then s
    else
      var e := edges[0];
      var s1 := if Cleanable(g, s, v, e) then
                  InputsRankBelow(g, t, e, n);
                  Unwant(g, CleanNodes(g, t, s, v, e, g.Outputs(e)), e)
                else s;
      CleanOutEdges(g, t, s1, v, n, edges[1..])
  }

  function CleanNodes(g: Graph, ghost t: Topology, s: PlanState, v: Verdicts, ghost e: EdgeId, nodes: seq<NodeId>)
    : (r: PlanState)
    requires g.Wired() && t.Sorts(g) && s.want.Keys <= t.rank.Keys
    requires e in t.rank
    requires forall n | n in nodes :: n in g.Outputs(e)
    ensures r.want.Keys == s.want.Keys
    decreases t.top - t.rank[e] - 1, 3, |nodes|
  {
    if nodes == [] then s
    else CleanNodes(g, t, CleanNode(g, t, s, v, nodes[0]), v, e, nodes[1..])
  }

  /** Apply restat to the outputs of a finished command that it left unchanged. */
  function Restat(g: Graph, ghost t: Topology, s: PlanState, v: Verdicts, ghost e: EdgeId, outs: seq<NodeId>,
                  untouched: set<NodeId>): (r: PlanState)
    requires g.Wired() && t.Sorts(g) && s.want.Keys <= t.rank.Keys
    requires e in t.rank
    requires forall n | n in outs :: n in g.Outputs(e)
    ensures r.want.Keys == s.want.Keys
    decreases |outs|
  {
    if outs == [] then s
    else
      Restat(g, t, RestatOne(g, t, s, v, e, outs[0], untouched), v, e, outs[1..], untouched)
  }

  function RestatOne(g: Graph, ghost t: Topology, s: PlanState, v: Verdicts, ghost e: EdgeId, n: NodeId,
                     untouched: set<NodeId>): (r: PlanState)
    requires g.Wired() && t.Sorts(g) && s.want.Keys <= t.rank.Keys
    requires e in t.rank && n in g.Outputs(e)
    ensures r.want.Keys == s.want.Keys
  {
    assert g.InEdge(n) == Some(e);
    if n in untouched then CleanNode(g, t, s, v, n) else s
  }

  /** A command succeeded: apply restat to the outputs it left as they were, then finish the edge. */
  function CommandSucceeded(g: Graph, ghost t: Topology, s: PlanState, v: Verdicts, e: EdgeId, untouched: set<NodeId>)
    : PlanState
    requires g.Wired() && t.Sorts(g) && s.want.Keys <= t.rank.Keys && e in t.rank && e in s.want
  {
    EdgeSucceeded(g, Restat(g, t, s, v, e, g.Outputs(e), untouched), e)
  }
}
