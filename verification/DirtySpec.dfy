/**
  When an edge is dirty and when its outputs are ready: the plain definition, by recursion over the graph,
  and the invariant of the scan that computes it.
 */
module DirtySpec {
  import opened BuildGraph

  datatype LogEntry = LogEntry(mtime: int, commandHash: int)

  /**
    What the scan reads from outside. A missing file has time stamp 0 and an unreadable one -1. `lostDeps` are
    edges whose recorded dependencies are missing or stale, `badDeps` those whose dependency file is malformed.
   */
  datatype World = World(
    mtimes: map<NodeId, int>,
    log: Option<map<NodeId, LogEntry>>,
    lostDeps: set<EdgeId>,
    badDeps: set<EdgeId>)
  {
    function Stat(n: NodeId): int {
      if n in mtimes then mtimes[n] else 0
    }
  }

  /** The newest time stamp among some files. */
  function Newest(w: World, nodes: seq<NodeId>): Option<int> {
    if nodes == [] then None
    else
      var last := w.Stat(nodes[|nodes| - 1]);
      match Newest(w, nodes[..|nodes| - 1])
      case None => Some(last)
      case Some(m) => if last > m then Some(last) else Some(m)
  }

  /** `newest` is the time stamp of the newest regular input. */
  predicate OutputDirty(g: Graph, w: World, e: EdgeId, newest: Option<int>, o: NodeId)
    requires e in g.edges
  {
    var info := g.edges[e];
    var mtime := w.Stat(o);
    if info.phony then
      info.inputs == [] && mtime == 0
    else if mtime == 0 then
      true
    else if newest.Some? && mtime < newest.value
            && (if info.restat && w.log.Some? && o in w.log.value then w.log.value[o].mtime else mtime) < newest.value then
      true
    else if w.log.None? then
      false
    else if o in w.log.value then
      || (!info.generator && w.log.value[o].commandHash != info.commandHash)
      || (newest.Some? && w.log.value[o].mtime < newest.value)
    else
      !info.generator
  }

  predicate AnyOutputDirty(g: Graph, w: World, e: EdgeId, newest: Option<int>)
    requires e in g.edges
  {
    exists o | o in g.Outputs(e) :: OutputDirty(g, w, e, newest, o)
  }

  // ----- The plain definition -----

  /** A source file is dirty when missing, a built file when the edge that makes it is dirty. */
  ghost predicate NodeDirty(g: Graph, w: World, t: Topology, n: NodeId)
    requires t.Sorts(g)
    decreases t.NodeRank(g, n), 0
  {
    match g.InEdge(n)
    case None => w.Stat(n) == 0
    case Some(d) => d in t.rank && EdgeDirty(g, w, t, d)
  }

  /** An edge is dirty when its dependencies are unknown, a regular input is dirty, or an output is out of date. */
  ghost predicate EdgeDirty(g: Graph, w: World, t: Topology, e: EdgeId)
    requires t.Sorts(g) && e in t.rank
    decreases t.rank[e], 1
  {
    || e in w.lostDeps
    || (exists i | i in g.RegularInputs(e) :: InputsRankBelow(g, t, e, i); NodeDirty(g, w, t, i))
    || AnyOutputDirty(g, w, e, Newest(w, g.RegularInputs(e)))
  }

  /** Outputs are ready when everything below is ready and the edge has nothing to do. */
  ghost predicate EdgeReady(g: Graph, w: World, t: Topology, e: EdgeId)
    requires t.Sorts(g) && e in t.rank
    decreases t.rank[e]
  {
    && (forall d | g.Feeds(d, e) :: EdgeReady(g, w, t, d))
    && (EdgeDirty(g, w, t, e) ==> g.IsPhony(e) && g.Inputs(e) == [])
  }

  // ----- The scan's state and its invariant -----

  datatype VisitMark = VisitInStack | VisitDone

  /** `mark` omits edges not visited, `mtime` files not examined; `order` lists finished edges in order. */
  datatype ScanState = ScanState(
    mark: map<EdgeId, VisitMark>,
    outputsReady: set<EdgeId>,
    dirty: set<NodeId>,
    mtime: map<NodeId, int>,
    stack: seq<NodeId>,
    order: seq<EdgeId>)
  {
    ghost predicate Done(e: EdgeId) {
      e in mark && mark[e] == VisitDone
    }

    ghost predicate InStack(e: EdgeId) {
      e in mark && mark[e] == VisitInStack
    }
  }

  /** The state of `n` has been settled. */
  ghost predicate Known(g: Graph, s: ScanState, n: NodeId) {
    match g.InEdge(n)
    case None => n in s.mtime
    case Some(d) => s.Done(d)
  }

  /** Each node is an input of the edge that makes the one before it. */
  ghost predicate IsPath(g: Graph, p: seq<NodeId>) {
    forall k | 0 <= k < |p| - 1 :: g.InEdge(p[k]).Some? && p[k + 1] in g.Inputs(g.InEdge(p[k]).value)
  }

  /** The same judgement as `EdgeDirty`, from the flags of the inputs. */
  ghost predicate LocallyDirty(g: Graph, w: World, dirty: set<NodeId>, e: EdgeId)
    requires e in g.edges
  {
    || e in w.lostDeps
    || (exists i | i in g.RegularInputs(e) :: i in dirty)
    || AnyOutputDirty(g, w, e, Newest(w, g.RegularInputs(e)))
  }

  ghost predicate LocallyReady(g: Graph, w: World, done: set<EdgeId>, dirty: set<NodeId>, e: EdgeId)
    requires e in g.edges
  {
    && g.AllInputsReady(done, e)
    && (LocallyDirty(g, w, dirty, e) ==> g.IsPhony(e) && g.Inputs(e) == [])
  }

  /** The stack is a path, its edges are distinct and exactly those marked as on it. */
  ghost predicate StackOk(g: Graph, mark: map<EdgeId, VisitMark>, stack: seq<NodeId>) {
    && IsPath(g, stack)
    && (forall k | 0 <= k < |stack| ::
          g.InEdge(stack[k]).Some? && g.InEdge(stack[k]).value in mark && mark[g.InEdge(stack[k]).value] == VisitInStack)
    && (forall j, k | 0 <= j < k < |stack| :: g.InEdge(stack[j]) != g.InEdge(stack[k]))
    && (forall e | e in mark && mark[e] == VisitInStack :: OnStack(g, stack, e))
  }

  /** Some stacked node is an output of `e`. */
  ghost predicate OnStack(g: Graph, stack: seq<NodeId>, e: EdgeId) {
    exists k | 0 <= k < |stack| :: g.InEdge(stack[k]) == Some(e)
  }

  /** Finished edges are listed once each, after everything that feeds them. */
  ghost predicate OrderOk(g: Graph, mark: map<EdgeId, VisitMark>, order: seq<EdgeId>) {
    && (forall k | 0 <= k < |order| :: order[k] in g.edges && order[k] in mark && mark[order[k]] == VisitDone)
    && (forall e | e in mark && mark[e] == VisitDone :: e in order)
    && (forall j, k | 0 <= j < k < |order| :: order[j] != order[k])
    && (forall k, d | 0 <= k < |order| && g.Feeds(d, order[k]) :: d in order[..k])
  }

  /** The flags of a finished edge and its outputs follow from the flags of its inputs. */
  ghost predicate Settled(g: Graph, w: World, s: ScanState, e: EdgeId)
    requires e in g.edges
  {
    && (forall i | i in g.Inputs(e) :: Known(g, s, i))
    && (forall o | o in g.Outputs(e) :: o in s.mtime && (o in s.dirty <==> LocallyDirty(g, w, s.dirty, e)))
    && (e in s.outputsReady <==> LocallyReady(g, w, s.outputsReady, s.dirty, e))
  }

  ghost predicate FilesOk(g: Graph, w: World, mtime: map<NodeId, int>, dirty: set<NodeId>) {
    && (forall n | n in mtime :: mtime[n] == w.Stat(n) && mtime[n] != -1)
    && (forall n | g.InEdge(n).None? :: n in dirty <==> n in mtime && w.Stat(n) == 0)
  }

  ghost predicate ScanInv(g: Graph, w: World, s: ScanState) {
    && s.mark.Keys <= g.edges.Keys
    && StackOk(g, s.mark, s.stack)
    && OrderOk(g, s.mark, s.order)
    && (forall e | s.Done(e) :: Settled(g, w, s, e))
    && (forall n | n in s.dirty && g.InEdge(n).Some? :: s.Done(g.InEdge(n).value))
    && s.outputsReady <= s.mark.Keys
    && FilesOk(g, w, s.mtime, s.dirty)
  }

  /** What a successful visit may change: it finishes more edges and examines more files, nothing else. */
  ghost predicate Grown(g: Graph, s: ScanState, r: ScanState) {
    && r.stack == s.stack
    && s.mark.Keys <= r.mark.Keys
    && (forall e | e in s.mark :: r.mark[e] == s.mark[e] && (e in r.outputsReady <==> e in s.outputsReady))
    && (forall e | e in r.mark && e !in s.mark :: r.mark[e] == VisitDone)
    && s.order <= r.order
    && s.mtime.Keys <= r.mtime.Keys
    && (forall n | Known(g, s, n) :: n in r.dirty <==> n in s.dirty)
  }

  lemma GrownTrans(g: Graph, a: ScanState, b: ScanState, c: ScanState)
    requires Grown(g, a, b) && Grown(g, b, c)
    ensures Grown(g, a, c)
  {
    forall n | Known(g, a, n) ensures Known(g, b, n) {
      KnownStays(g, a, b, n);
    }
  }

  lemma KnownStays(g: Graph, s: ScanState, r: ScanState, n: NodeId)
    requires Grown(g, s, r) && Known(g, s, n)
    ensures Known(g, r, n)
    ensures forall d | g.InEdge(n) == Some(d) :: d in r.outputsReady <==> d in s.outputsReady
    ensures n in r.dirty <==> n in s.dirty
  {
  }

  // ----- Consequences of the invariant -----

  /** The position of finished edges gives a topology. */
  ghost function RankOf(order: seq<EdgeId>): (t: Topology) {
    Topology(map e | e in order :: IndexOf(order, e), |order|)
  }

  ghost function IndexOf(order: seq<EdgeId>, e: EdgeId): (k: nat)
    requires e in order
    ensures k < |order| && order[k] == e
  {
    var k :| 0 <= k < |order| && order[k] == e;
    k
  }

  lemma OrderIsTopology(g: Graph, mark: map<EdgeId, VisitMark>, order: seq<EdgeId>)
    requires OrderOk(g, mark, order)
    ensures RankOf(order).Sorts(g)
  {
    var t := RankOf(order);
    forall e, d | e in t.rank && g.Feeds(d, e) ensures d in t.rank && t.rank[d] < t.rank[e] {
      var k := IndexOf(order, e);
      assert d in order[..k];
      var j :| 0 <= j < k && order[j] == d;
      assert IndexOf(order, d) == j;
    }
  }

  /**
    The scan computes the plain definition: at every finished edge its flags are the recursive judgement, for
    whatever topology covers the edge. The order of visits and the split into calls do not matter.
   */
  lemma {:induction false} ScanAgrees(g: Graph, w: World, s: ScanState, t: Topology, e: EdgeId)
    requires g.Wired() && ScanInv(g, w, s) && t.Sorts(g) && e in t.rank && s.Done(e)
    ensures forall o | o in g.Outputs(e) :: o in s.dirty <==> EdgeDirty(g, w, t, e)
    ensures e in s.outputsReady <==> EdgeReady(g, w, t, e)
    decreases t.rank[e]
  {
    assert Settled(g, w, s, e);
    forall d | g.Feeds(d, e) ensures s.Done(d) && d in t.rank && (d in s.outputsReady <==> EdgeReady(g, w, t, d)) {
      var i :| i in g.Inputs(e) && g.InEdge(i) == Some(d);
      assert Known(g, s, i);
      ScanAgrees(g, w, s, t, d);
    }
    forall i | i in g.Inputs(e) ensures i in s.dirty <==> NodeDirty(g, w, t, i) {
      assert Known(g, s, i);
      match g.InEdge(i)
      case None =>
      case Some(d) =>
        assert g.Feeds(d, e) && i in g.Outputs(d);
        ScanAgrees(g, w, s, t, d);
    }
    assert forall i | i in g.RegularInputs(e) :: i in g.Inputs(e);
    assert LocallyDirty(g, w, s.dirty, e) <==> EdgeDirty(g, w, t, e);
    ReadyByFeeders(g, s.outputsReady, e);
  }

  lemma ReadyByFeeders(g: Graph, done: set<EdgeId>, e: EdgeId)
    ensures g.AllInputsReady(done, e) <==> forall d | g.Feeds(d, e) :: d in done
  {
    forall i | i in g.Inputs(e) && g.InEdge(i).Some? ensures g.Feeds(g.InEdge(i).value, e) {}
    if forall d | g.Feeds(d, e) :: d in done {
      forall i | i in g.Inputs(e) ensures g.NodeReady(done, i) {}
    }
  }

  /** Two scans of the same graph and world agree wherever both went. */
  lemma ScansAgree(g: Graph, w: World, s1: ScanState, s2: ScanState, e: EdgeId)
    requires g.Wired() && ScanInv(g, w, s1) && ScanInv(g, w, s2) && s1.Done(e) && s2.Done(e)
    ensures e in s1.outputsReady <==> e in s2.outputsReady
    ensures forall o | o in g.Outputs(e) :: o in s1.dirty <==> o in s2.dirty
  {
    var t := RankOf(s1.order);
    OrderIsTopology(g, s1.mark, s1.order);
    assert e in t.rank;
    ScanAgrees(g, w, s1, t, e);
    ScanAgrees(g, w, s2, t, e);
  }

  // ----- What the judgement comes to -----

  /** Some input that is not order-only is newer than `time`. */
  ghost predicate InputNewer(g: Graph, w: World, e: EdgeId, time: int)
    requires e in g.edges
  {
    var info := g.edges[e];
    exists k | 0 <= k < |info.inputs| - info.orderOnly :: time < w.Stat(info.inputs[k])
  }

  /** The log knows the output. */
  ghost predicate Logged(w: World, o: NodeId) {
    w.log.Some? && o in w.log.value
  }

  /** Why an output of an edge with a command is out of date. */
  datatype Defect = Absent | OlderThanInput | LogOlderThanInput | CommandChanged | NeverLogged

  ghost predicate HasDefect(g: Graph, w: World, e: EdgeId, o: NodeId, why: Defect)
    requires e in g.edges
  {
    var info := g.edges[e];
    match why
    case Absent => w.Stat(o) == 0
    case OlderThanInput =>
      InputNewer(g, w, e, w.Stat(o)) && !(info.restat && Logged(w, o) && !InputNewer(g, w, e, w.log.value[o].mtime))
    case LogOlderThanInput => Logged(w, o) && InputNewer(g, w, e, w.log.value[o].mtime)
    case CommandChanged => Logged(w, o) && !info.generator && w.log.value[o].commandHash != info.commandHash
    case NeverLogged => w.log.Some? && o !in w.log.value && !info.generator
  }

  lemma {:induction false} NewestIsNewest(w: World, nodes: seq<NodeId>, time: int)
    ensures Newest(w, nodes).None? <==> nodes == []
    ensures Newest(w, nodes).Some? && time < Newest(w, nodes).value <==>
            exists k | 0 <= k < |nodes| :: time < w.Stat(nodes[k])
    decreases |nodes|
  {
    if nodes != [] {
      NewestIsNewest(w, nodes[..|nodes| - 1], time);
      assert nodes == nodes[..|nodes| - 1] + [nodes[|nodes| - 1]];
    }
  }

  lemma NewerThanNewest(g: Graph, w: World, e: EdgeId, time: int)
    requires e in g.edges && g.edges[e].orderOnly <= |g.edges[e].inputs|
    ensures var newest := Newest(w, g.RegularInputs(e)); newest.Some? && time < newest.value <==> InputNewer(g, w, e, time)
  {
    hide Newest;
    var info := g.edges[e];
    NewestIsNewest(w, g.RegularInputs(e), time);
    assert forall k | 0 <= k < |info.inputs| - info.orderOnly :: g.RegularInputs(e)[k] == info.inputs[k];
  }

  /**
    An output of an edge with a command is out of date exactly when it has one of the defects; one of a phony edge
    exactly when it is missing and the edge has no inputs.
   */
  lemma OutOfDateExactlyWhen(g: Graph, w: World, e: EdgeId, o: NodeId)
    requires e in g.edges && g.edges[e].orderOnly <= |g.edges[e].inputs|
    ensures var dirty, info := OutputDirty(g, w, e, Newest(w, g.RegularInputs(e)), o), g.edges[e];
      && (info.phony ==> (dirty <==> info.inputs == [] && w.Stat(o) == 0))
      && (!info.phony ==> (dirty <==> exists why :: HasDefect(g, w, e, o, why)))
  {
    hide InputNewer, Newest;
    var info := g.edges[e];
    NewerThanNewest(g, w, e, w.Stat(o));
    if Logged(w, o) {
      NewerThanNewest(g, w, e, w.log.value[o].mtime);
    }
    forall why: Defect | !info.phony && HasDefect(g, w, e, o, why)
      ensures OutputDirty(g, w, e, Newest(w, g.RegularInputs(e)), o)
    {
    }
    if !info.phony && OutputDirty(g, w, e, Newest(w, g.RegularInputs(e)), o) {
      assert || HasDefect(g, w, e, o, Absent) || HasDefect(g, w, e, o, OlderThanInput)
             || HasDefect(g, w, e, o, LogOlderThanInput) || HasDefect(g, w, e, o, CommandChanged)
             || HasDefect(g, w, e, o, NeverLogged);
    }
  }

  /** The dependencies of the edge are unknown, or an input that is not order-only is dirty. */
  ghost predicate InputsSpoil(g: Graph, w: World, dirty: set<NodeId>, e: EdgeId)
    requires e in g.edges
  {
    var info := g.edges[e];
    e in w.lostDeps || exists k | 0 <= k < |info.inputs| - info.orderOnly :: info.inputs[k] in dirty
  }

  /**
    What the flags of the scan mean, without reference to how they are computed. All outputs of an edge get the same
    flag: dirty when the inputs spoil them, or when one of them is itself missing, too old or made by another command.
   */
  lemma ScanFinds(g: Graph, w: World, s: ScanState, e: EdgeId, o: NodeId)
    requires g.Wired() && ScanInv(g, w, s) && s.Done(e) && o in g.Outputs(e)
    ensures InputsSpoil(g, w, s.dirty, e) ==> o in s.dirty
    ensures !g.edges[e].phony && w.Stat(o) == 0 ==> o in s.dirty
    ensures (&& !g.edges[e].phony && InputNewer(g, w, e, w.Stat(o))
             && !(g.edges[e].restat && Logged(w, o) && !InputNewer(g, w, e, w.log.value[o].mtime))) ==> o in s.dirty
    ensures !g.edges[e].phony && Logged(w, o) && InputNewer(g, w, e, w.log.value[o].mtime) ==> o in s.dirty
    ensures (&& !g.edges[e].phony && !g.edges[e].generator && Logged(w, o)
             && w.log.value[o].commandHash != g.edges[e].commandHash) ==> o in s.dirty
    ensures !g.edges[e].phony && !g.edges[e].generator && w.log.Some? && o !in w.log.value ==> o in s.dirty
    ensures g.edges[e].phony && g.edges[e].inputs == [] && w.Stat(o) == 0 ==> o in s.dirty
    ensures o in s.dirty ==>
      || InputsSpoil(g, w, s.dirty, e)
      || (g.edges[e].phony && g.edges[e].inputs == [] && exists p | p in g.Outputs(e) :: w.Stat(p) == 0)
      || (!g.edges[e].phony && exists p, why | p in g.Outputs(e) :: HasDefect(g, w, e, p, why))
    ensures forall p | p in g.Outputs(e) :: p in s.dirty <==> o in s.dirty
  {
    hide InputNewer, Logged, Newest, OutputDirty, StackOk, OrderOk, FilesOk;
    assert Settled(g, w, s, e);
    var info := g.edges[e];
    assert forall k | 0 <= k < |info.inputs| - info.orderOnly :: g.RegularInputs(e)[k] == info.inputs[k];
    forall p | p in g.Outputs(e)
      ensures var out := OutputDirty(g, w, e, Newest(w, g.RegularInputs(e)), p);
        && (info.phony ==> (out <==> info.inputs == [] && w.Stat(p) == 0))
        && (!info.phony ==> (out <==> exists why :: HasDefect(g, w, e, p, why)))
    {
      OutOfDateExactlyWhen(g, w, e, p);
    }
    if !info.phony {
      assert forall why :: HasDefect(g, w, e, o, why) ==> o in s.dirty;
      assert HasDefect(g, w, e, o, Absent) <==> w.Stat(o) == 0;
      assert HasDefect(g, w, e, o, CommandChanged) ==> o in s.dirty;
      assert HasDefect(g, w, e, o, NeverLogged) ==> o in s.dirty;
      assert HasDefect(g, w, e, o, OlderThanInput) ==> o in s.dirty;
      assert HasDefect(g, w, e, o, LogOlderThanInput) ==> o in s.dirty;
    }
  }

  /** A source file is dirty exactly when it is missing, and a finished edge is ready exactly when it has nothing to do. */
  lemma ScanFindsReady(g: Graph, w: World, s: ScanState, e: EdgeId, o: NodeId)
    requires g.Wired() && ScanInv(g, w, s) && s.Done(e) && o in g.Outputs(e)
    ensures e in s.outputsReady <==>
      && (forall k | 0 <= k < |g.edges[e].inputs| && g.edges[e].inputs[k] in g.inEdges ::
            g.inEdges[g.edges[e].inputs[k]] in s.outputsReady)
      && (o in s.dirty ==> g.edges[e].phony && g.edges[e].inputs == [])
    ensures forall k | 0 <= k < |g.edges[e].inputs| && g.edges[e].inputs[k] !in g.inEdges ::
              g.edges[e].inputs[k] in s.dirty <==> w.Stat(g.edges[e].inputs[k]) == 0
  {
    hide LocallyDirty, StackOk, OrderOk;
    assert Settled(g, w, s, e);
    forall k | 0 <= k < |g.edges[e].inputs| ensures g.edges[e].inputs[k] in g.Inputs(e) && Known(g, s, g.edges[e].inputs[k]) {
    }
  }

  // ----- Cycles -----

  /** A path that comes back to the edge it started from. */
  ghost predicate IsCycle(g: Graph, p: seq<NodeId>) {
    |p| >= 2 && IsPath(g, p) && p[0] == p[|p| - 1]
  }

  /** Some path leads from `n` to a node on a cycle. */
  ghost predicate CycleReachable(g: Graph, n: NodeId) {
    exists p, c :: IsPath(g, p) && |p| >= 1 && p[0] == n && IsCycle(g, c) && p[|p| - 1] == c[0]
  }

  /** Along a path from a finished edge every edge is finished, and earlier than the one before. */
  lemma {:induction false} PathDescends(g: Graph, w: World, s: ScanState, p: seq<NodeId>, k: nat)
    requires g.Wired() && ScanInv(g, w, s) && IsPath(g, p) && k < |p| && Known(g, s, p[0])
    ensures Known(g, s, p[k])
    ensures k > 0 && g.InEdge(p[k]).Some? ==>
              && g.InEdge(p[0]).Some? && g.InEdge(p[k]).value in s.order && g.InEdge(p[0]).value in s.order
              && IndexOf(s.order, g.InEdge(p[k]).value) < IndexOf(s.order, g.InEdge(p[0]).value)
    decreases k
  {
    if k > 0 {
      PathDescends(g, w, s, p, k - 1);
      var e := g.InEdge(p[k - 1]).value;
      assert Settled(g, w, s, e);
      assert Known(g, s, p[k]);
      if g.InEdge(p[k]).Some? {
        var d := g.InEdge(p[k]).value;
        assert g.Feeds(d, e);
        OrderIsTopology(g, s.mark, s.order);
        assert RankOf(s.order).rank[d] < RankOf(s.order).rank[e];
      }
    }
  }

  /** After a successful visit no cycle is reachable. */
  lemma NoCycleFromKnown(g: Graph, w: World, s: ScanState, n: NodeId)
    requires g.Wired() && ScanInv(g, w, s) && Known(g, s, n)
    ensures !CycleReachable(g, n)
  {
    hide ScanInv;
    forall p, c | IsPath(g, p) && |p| >= 1 && p[0] == n && IsCycle(g, c) && p[|p| - 1] == c[0]
      ensures false
    {
      PathDescends(g, w, s, p, |p| - 1);
      PathDescends(g, w, s, c, |c| - 1);
    }
  }
}
