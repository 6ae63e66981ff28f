/**
  The static part of a ninja build graph: edges (commands), nodes (files) and how they are wired.

  An `EdgeId` stands for the address of an `Edge` object. The sets of edges in the program are
  ordered by address, so "the first element of a set" is its least id.
 */
module BuildGraph {
  type EdgeId = nat
  type NodeId = nat
  type PoolId = nat

  datatype Option<+T> = None | Some(value: T)

  /** One build statement. The last `orderOnly` inputs are the order-only ones. */
  datatype EdgeInfo = EdgeInfo(
    inputs: seq<NodeId>,
    outputs: seq<NodeId>,
    orderOnly: nat,
    phony: bool,
    remote: bool,
    restat: bool,
    generator: bool,
    commandHash: int,
    pool: PoolId)

  datatype Graph = Graph(
    edges: map<EdgeId, EdgeInfo>,
    inEdges: map<NodeId, EdgeId>,
    outEdges: map<NodeId, seq<EdgeId>>)
  {
    function Inputs(e: EdgeId): seq<NodeId> {
      if e in edges then edges[e].inputs else []
    }

    function Outputs(e: EdgeId): seq<NodeId> {
      if e in edges then edges[e].outputs else []
    }

    /** The inputs whose state decides whether the edge is dirty: all but the order-only ones. */
    function RegularInputs(e: EdgeId): seq<NodeId> {
      var ins := Inputs(e);
      if e in edges && edges[e].orderOnly <= |ins| then ins[..|ins| - edges[e].orderOnly] else []
    }

    predicate IsPhony(e: EdgeId) {
      e in edges && edges[e].phony
    }

    predicate IsRemote(e: EdgeId) {
      e in edges && edges[e].remote
    }

    function PoolOf(e: EdgeId): PoolId {
      if e in edges then edges[e].pool else 0
    }

    /** The edge that makes a node, if any. */
    function InEdge(n: NodeId): Option<EdgeId> {
      if n in inEdges then Some(inEdges[n]) else None
    }

    /** The edges that use a node, in registration order and with repetitions. */
    function OutEdges(n: NodeId): seq<EdgeId> {
      if n in outEdges then outEdges[n] else []
    }

    /** `d` makes some input of `e`. */
    predicate Feeds(d: EdgeId, e: EdgeId) {
      exists i | i in Inputs(e) :: InEdge(i) == Some(d)
    }

    /** A node is ready when nothing makes it, or what makes it is done. */
    predicate NodeReady(done: set<EdgeId>, n: NodeId) {
      match InEdge(n)
      case None => true
      case Some(d) => d in done
    }

    predicate AllInputsReady(done: set<EdgeId>, e: EdgeId) {
      forall i | i in Inputs(e) :: NodeReady(done, i)
    }

    /** What loading a manifest establishes: the two directions of every link agree. */
    ghost predicate Wired() {
      && (forall n | n in inEdges :: inEdges[n] in edges && n in Outputs(inEdges[n]))
      && (forall e, o | e in edges && o in Outputs(e) :: InEdge(o) == Some(e))
      && (forall n, e :: e in OutEdges(n) <==> n in Inputs(e))
      && (forall e | e in edges :: edges[e].orderOnly <= |edges[e].inputs|)
    }
  }

  /** A numbering of some edges in which every edge comes after the edges that feed it. */
  datatype Topology = Topology(rank: map<EdgeId, nat>, top: nat) {
    ghost predicate Sorts(g: Graph) {
      forall e | e in rank ::
        && e in g.edges
        && rank[e] < top
        && forall d | g.Feeds(d, e) :: d in rank && rank[d] < rank[e]
    }

    /** Zero for a source file, otherwise one more than the rank of the edge that makes the node. */
    function NodeRank(g: Graph, n: NodeId): nat {
      match g.InEdge(n)
      case None => 0
      case Some(d) => if d in rank then rank[d] + 1 else 0
    }
  }

  /** Inputs rank at or below the edge that reads them. */
  lemma InputsRankBelow(g: Graph, t: Topology, e: EdgeId, n: NodeId)
    requires t.Sorts(g) && e in t.rank && n in g.Inputs(e)
    ensures t.NodeRank(g, n) <= t.rank[e]
  {
    match g.InEdge(n)
    case None =>
    case Some(d) =>
      assert g.Feeds(d, e);
  }
}
