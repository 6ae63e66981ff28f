/**
  The dependency scan: a depth-first walk with an explicit stack that marks edges, examines files and sets the
  `dirty` and `outputsReady` flags.
 */
module DirtyScan {
  import opened BuildGraph
  import opened DirtySpec

  // ----- Steps of a visit, on values -----

  ghost function Enter(s: ScanState, n: NodeId, e: EdgeId): ScanState {
    s.(mark := s.mark[e := VisitInStack], outputsReady := s.outputsReady + {e}, stack := s.stack + [n])
  }

  ghost function Leave(g: Graph, s: ScanState, e: EdgeId, dirty: bool): ScanState
    requires |s.stack| > 0
  {
    s.(mark := s.mark[e := VisitDone],
       dirty := if dirty then s.dirty + NodesOf(g.Outputs(e)) else s.dirty,
       outputsReady := if dirty && !(g.IsPhony(e) && g.Inputs(e) == []) then s.outputsReady - {e} else s.outputsReady,
       stack := s.stack[..|s.stack| - 1],
       order := s.order + [e])
  }

  function NodesOf(ns: seq<NodeId>): set<NodeId> {
    set n | n in ns
  }

  /** `n` may be visited next: it is the root, or an input of the edge on top of the stack. */
  ghost predicate MayVisit(g: Graph, s: ScanState, n: NodeId) {
    s.stack != [] ==>
      && g.InEdge(s.stack[|s.stack| - 1]).Some?
      && n in g.Inputs(g.InEdge(s.stack[|s.stack| - 1]).value)
  }

  lemma EnterKeeps(g: Graph, w: World, s: ScanState, n: NodeId, e: EdgeId)
    requires g.Wired() && ScanInv(g, w, s) && MayVisit(g, s, n) && g.InEdge(n) == Some(e) && e !in s.mark
    ensures ScanInv(g, w, Enter(s, n, e))
  {
    hide StackOk, Settled;
    var r := Enter(s, n, e);
    EnterKeepsStack(g, s, n, e);
    EnterKeepsOrder(g, s, e);
    forall x | r.Done(x) ensures Settled(g, w, r, x) {
      assert Settled(g, w, s, x);
      SettledStays(g, w, s, r, x);
    }
  }

  lemma EnterKeepsStack(g: Graph, s: ScanState, n: NodeId, e: EdgeId)
    requires StackOk(g, s.mark, s.stack) && MayVisit(g, s, n) && g.InEdge(n) == Some(e) && e !in s.mark
    ensures StackOk(g, s.mark[e := VisitInStack], s.stack + [n])
  {
    hide Graph.InEdge, Graph.Inputs;
    var stack := s.stack + [n];
    assert stack[|s.stack|] == n && forall k | 0 <= k < |s.stack| :: stack[k] == s.stack[k];
    assert IsPath(g, stack);
    forall x: EdgeId | OnStack(g, s.stack, x) ensures OnStack(g, stack, x) {
      var k :| 0 <= k < |s.stack| && g.InEdge(s.stack[k]) == Some(x);
      assert g.InEdge(stack[k]) == Some(x);
    }
    assert OnStack(g, stack, e);
  }

  lemma EnterKeepsOrder(g: Graph, s: ScanState, e: EdgeId)
    requires OrderOk(g, s.mark, s.order) && e !in s.mark
    ensures OrderOk(g, s.mark[e := VisitInStack], s.order)
  {
  }

  /** A finished edge stays settled while others are worked on. */
  lemma SettledStays(g: Graph, w: World, s: ScanState, r: ScanState, x: EdgeId)
    requires x in g.edges && Settled(g, w, s, x) && g.Wired() && s.Done(x)
    requires forall e | s.Done(e) :: r.Done(e) && (e in r.outputsReady <==> e in s.outputsReady)
    requires s.mtime.Keys <= r.mtime.Keys
    requires forall n | Known(g, s, n) :: n in r.dirty <==> n in s.dirty
    ensures Settled(g, w, r, x)
  {
    assert forall i | i in g.RegularInputs(x) :: i in g.Inputs(x);
    forall i | i in g.Inputs(x) ensures Known(g, r, i) && (i in r.dirty <==> i in s.dirty)
                                        && (g.NodeReady(r.outputsReady, i) <==> g.NodeReady(s.outputsReady, i)) {
      assert Known(g, s, i);
    }
    forall o | o in g.Outputs(x) ensures Known(g, s, o) {
      assert g.InEdge(o) == Some(x);
    }
  }

  /** Examining the file behind an output. */
  lemma StatKeeps(g: Graph, w: World, s: ScanState, n: NodeId)
    requires g.Wired() && ScanInv(g, w, s) && g.InEdge(n).Some? && w.Stat(n) != -1
    ensures ScanInv(g, w, s.(mtime := s.mtime[n := w.Stat(n)]))
    ensures Grown(g, s, s.(mtime := s.mtime[n := w.Stat(n)]))
  {
    hide StackOk, OrderOk;
    var r := s.(mtime := s.mtime[n := w.Stat(n)]);
    forall x | r.Done(x) ensures Settled(g, w, r, x) {
      assert Settled(g, w, s, x);
      SettledStays(g, w, s, r, x);
    }
  }

  /** Examining a source file and judging it. */
  lemma LeafKeeps(g: Graph, w: World, s: ScanState, n: NodeId)
    requires g.Wired() && ScanInv(g, w, s) && g.InEdge(n).None? && w.Stat(n) != -1 && n !in s.mtime
    ensures ScanInv(g, w, VisitLeaf(w, s, n)) && Grown(g, s, VisitLeaf(w, s, n)) && Known(g, VisitLeaf(w, s, n), n)
  {
    hide StackOk, OrderOk, Settled, FilesOk;
    var r := VisitLeaf(w, s, n);
    LeafGrown(g, w, s, n);
    LeafKeepsFiles(g, w, s, n);
    forall x | r.Done(x) ensures Settled(g, w, r, x) {
      assert Settled(g, w, s, x);
      SettledStays(g, w, s, r, x);
    }
  }

  ghost function VisitLeaf(w: World, s: ScanState, n: NodeId): ScanState {
    s.(mtime := s.mtime[n := w.Stat(n)], dirty := if w.Stat(n) == 0 then s.dirty + {n} else s.dirty - {n})
  }

  lemma LeafGrown(g: Graph, w: World, s: ScanState, n: NodeId)
    requires g.InEdge(n).None? && n !in s.mtime
    ensures Grown(g, s, VisitLeaf(w, s, n))
  {
  }

  lemma LeafKeepsFiles(g: Graph, w: World, s: ScanState, n: NodeId)
    requires FilesOk(g, w, s.mtime, s.dirty) && g.InEdge(n).None? && w.Stat(n) != -1
    ensures var r := VisitLeaf(w, s, n); FilesOk(g, w, r.mtime, r.dirty)
  {
  }

  /** What the visit of the inputs of `e` has established when the edge is about to be left. */
  ghost predicate ReadyToLeave(g: Graph, w: World, s: ScanState, n: NodeId, e: EdgeId, dirty: bool) {
    && |s.stack| > 0 && s.stack[|s.stack| - 1] == n && g.InEdge(n) == Some(e) && s.InStack(e)
    && e in g.edges
    && (forall i | i in g.Inputs(e) :: Known(g, s, i))
    && (forall o | o in g.Outputs(e) :: o in s.mtime)
    && (e in s.outputsReady <==> g.AllInputsReady(s.outputsReady, e))
    && (dirty <==> LocallyDirty(g, w, s.dirty, e))
  }

  /** Leaving settles the edge itself. */
  lemma LeaveSettles(g: Graph, w: World, s: ScanState, n: NodeId, e: EdgeId, dirty: bool)
    requires g.Wired() && ScanInv(g, w, s) && ReadyToLeave(g, w, s, n, e, dirty)
    ensures Settled(g, w, Leave(g, s, e, dirty), e)
    ensures forall x | Known(g, s, x) :: x in Leave(g, s, e, dirty).dirty <==> x in s.dirty
  {
    hide AnyOutputDirty, Leave, Newest, ScanInv;
    var r := Leave(g, s, e, dirty);
    forall x | Known(g, s, x) ensures x in r.dirty <==> x in s.dirty {
      LeaveKeepsKnown(g, s, n, e, dirty, x);
    }
    assert forall i | i in g.RegularInputs(e) :: i in g.Inputs(e);
    forall i | i in g.Inputs(e)
      ensures Known(g, r, i) && (i in r.dirty <==> i in s.dirty)
              && (g.NodeReady(r.outputsReady, i) <==> g.NodeReady(s.outputsReady, i)) {
      LeaveKeepsKnown(g, s, n, e, dirty, i);
    }
    assert LocallyDirty(g, w, r.dirty, e) <==> dirty;
    forall o | o in g.Outputs(e) ensures o in r.mtime && (o in r.dirty <==> dirty) {
      LeaveMarksOutput(g, w, s, n, e, dirty, o);
    }
    assert g.AllInputsReady(r.outputsReady, e) <==> g.AllInputsReady(s.outputsReady, e);
    LeaveMarksEdge(g, s, e, dirty);
  }

  /** Leaving an edge does not touch what was known before. */
  lemma LeaveKeepsKnown(g: Graph, s: ScanState, n: NodeId, e: EdgeId, dirty: bool, x: NodeId)
    requires g.Wired() && |s.stack| > 0 && s.InStack(e) && Known(g, s, x)
    ensures var r := Leave(g, s, e, dirty);
      && Known(g, r, x) && (x in r.dirty <==> x in s.dirty)
      && (g.NodeReady(r.outputsReady, x) <==> g.NodeReady(s.outputsReady, x))
  {
    assert x in g.Outputs(e) ==> g.InEdge(x) == Some(e);
  }

  lemma LeaveMarksOutput(g: Graph, w: World, s: ScanState, n: NodeId, e: EdgeId, dirty: bool, o: NodeId)
    requires g.Wired() && ScanInv(g, w, s) && ReadyToLeave(g, w, s, n, e, dirty) && o in g.Outputs(e)
    ensures var r := Leave(g, s, e, dirty); o in r.mtime && (o in r.dirty <==> dirty)
  {
    hide AnyOutputDirty, LocallyDirty, Newest, Settled, StackOk, OrderOk, FilesOk;
    assert g.InEdge(o) == Some(e);
  }

  lemma LeaveMarksEdge(g: Graph, s: ScanState, e: EdgeId, dirty: bool)
    requires |s.stack| > 0
    ensures e in Leave(g, s, e, dirty).outputsReady
       <==> e in s.outputsReady && !(dirty && !(g.IsPhony(e) && g.Inputs(e) == []))
  {
  }

  lemma LeaveKeepsStack(g: Graph, s: ScanState, n: NodeId, e: EdgeId, mark': map<EdgeId, VisitMark>)
    requires StackOk(g, s.mark, s.stack) && |s.stack| > 0 && s.stack[|s.stack| - 1] == n && g.InEdge(n) == Some(e)
    requires mark' == s.mark[e := VisitDone]
    ensures StackOk(g, mark', s.stack[..|s.stack| - 1])
  {
    var stack' := s.stack[..|s.stack| - 1];
    forall x: EdgeId | x != e && OnStack(g, s.stack, x) ensures OnStack(g, stack', x) {
      var k :| 0 <= k < |s.stack| && g.InEdge(s.stack[k]) == Some(x);
      assert g.InEdge(stack'[k]) == Some(x);
    }
  }

  lemma LeaveKeepsOrder(g: Graph, s: ScanState, e: EdgeId, mark': map<EdgeId, VisitMark>)
    requires OrderOk(g, s.mark, s.order) && s.InStack(e) && e in g.edges
    requires forall i | i in g.Inputs(e) :: Known(g, s, i)
    requires mark' == s.mark[e := VisitDone]
    ensures OrderOk(g, mark', s.order + [e])
  {
    var order' := s.order + [e];
    forall k: nat, d: EdgeId | k < |order'| && g.Feeds(d, order'[k]) ensures d in order'[..k] {
      if k < |s.order| {
        assert order'[..k] == s.order[..k];
        assert g.Feeds(d, s.order[k]);
      } else {
        assert k == |s.order| && order'[..k] == s.order;
        var i :| i in g.Inputs(e) && g.InEdge(i) == Some(d);
        assert Known(g, s, i);
      }
    }
  }

  lemma LeaveKeepsFiles(g: Graph, w: World, s: ScanState, e: EdgeId, dirty: bool)
    requires g.Wired() && FilesOk(g, w, s.mtime, s.dirty) && |s.stack| > 0
    ensures FilesOk(g, w, s.mtime, Leave(g, s, e, dirty).dirty)
  {
    assert forall o | o in g.Outputs(e) :: g.InEdge(o) == Some(e);
  }

  lemma LeaveKeeps(g: Graph, w: World, s: ScanState, n: NodeId, e: EdgeId, dirty: bool)
    requires g.Wired() && ScanInv(g, w, s) && ReadyToLeave(g, w, s, n, e, dirty)
    ensures |s.stack| > 0
    ensures ScanInv(g, w, Leave(g, s, e, dirty)) && Leave(g, s, e, dirty).Done(e)
  {
    hide Graph.Outputs, Graph.Wired, Known, Leave, LocallyDirty, OrderOk, Settled, StackOk;
    var r := Leave(g, s, e, dirty);
    LeaveDoes(g, s, e, dirty);
    LeaveSettles(g, w, s, n, e, dirty);
    LeaveKeepsFiles(g, w, s, e, dirty);
    LeaveKeepsStack(g, s, n, e, r.mark);
    LeaveKeepsOrder(g, s, e, r.mark);
    assert forall x | s.Done(x) || x == e :: x in g.edges;
    assert forall x | s.Done(x) :: x != e;
    forall x | r.Done(x) ensures Settled(g, w, r, x) {
      if x != e {
        assert s.Done(x) && Settled(g, w, s, x);
        SettledStays(g, w, s, r, x);
      }
    }
  }

  /** What leaving changes. */
  lemma LeaveDoes(g: Graph, s: ScanState, e: EdgeId, dirty: bool)
    requires g.Wired() && |s.stack| > 0 && s.InStack(e) && s.outputsReady <= s.mark.Keys
    requires forall n | n in s.dirty && g.InEdge(n).Some? :: s.Done(g.InEdge(n).value)
    ensures var r := Leave(g, s, e, dirty);
      && r.mark == s.mark[e := VisitDone] && r.stack == s.stack[..|s.stack| - 1] && r.order == s.order + [e]
      && r.mtime == s.mtime && r.Done(e) && r.outputsReady <= r.mark.Keys
      && (forall x | x != e :: (r.Done(x) <==> s.Done(x)) && (x in r.outputsReady <==> x in s.outputsReady))
      && (forall n | n in r.dirty && g.InEdge(n).Some? :: r.Done(g.InEdge(n).value))
  {
    assert forall o | o in g.Outputs(e) && g.InEdge(o).Some? :: e !in g.edges || g.InEdge(o) == Some(e);
  }

  lemma LeaveGrown(g: Graph, w: World, s: ScanState, m: ScanState, n: NodeId, e: EdgeId, dirty: bool)
    requires g.Wired() && g.InEdge(n) == Some(e) && e !in s.mark
    requires ScanInv(g, w, m) && ReadyToLeave(g, w, m, n, e, dirty) && Grown(g, Enter(s, n, e), WithReady(m, e))
    ensures Grown(g, s, Leave(g, m, e, dirty))
  {
    hide Leave, LocallyDirty, ScanInv, Settled;
    LeaveGrownMarks(g, s, m, n, e, dirty) by { hide Grown; assert m.InStack(e); }
    forall x | Known(g, s, x) ensures x in Leave(g, m, e, dirty).dirty <==> x in s.dirty {
      LeaveGrownNode(g, s, m, n, e, dirty, x);
    }
  }

  lemma LeaveGrownMarks(g: Graph, s: ScanState, m: ScanState, n: NodeId, e: EdgeId, dirty: bool)
    requires e !in s.mark && m.InStack(e) && |m.stack| > 0 && Grown(g, Enter(s, n, e), WithReady(m, e))
    ensures var r := Leave(g, m, e, dirty);
      && r.stack == s.stack && s.mark.Keys <= r.mark.Keys && s.order <= r.order && s.mtime.Keys <= r.mtime.Keys
      && (forall x | x in s.mark :: r.mark[x] == s.mark[x] && (x in r.outputsReady <==> x in s.outputsReady))
      && (forall x | x in r.mark && x !in s.mark :: r.mark[x] == VisitDone)
  {
    hide Known;
    var before, after := Enter(s, n, e), WithReady(m, e);
    assert before.stack[..|s.stack|] == s.stack;
    assert forall x | x in s.mark :: x in before.mark && before.mark[x] == s.mark[x];
  }

  lemma LeaveGrownNode(g: Graph, s: ScanState, m: ScanState, n: NodeId, e: EdgeId, dirty: bool, x: NodeId)
    requires g.Wired() && e !in s.mark && m.InStack(e) && |m.stack| > 0 && Grown(g, Enter(s, n, e), WithReady(m, e))
    requires Known(g, s, x)
    ensures x in Leave(g, m, e, dirty).dirty <==> x in s.dirty
  {
    hide Grown, Leave;
    assert Known(g, Enter(s, n, e), x);
    KnownStays(g, Enter(s, n, e), WithReady(m, e), x);
    assert Known(g, m, x);
    LeaveKeepsKnown(g, m, n, e, dirty, x);
  }

  /** The state apart from the ready flag of `e`, which belongs to the visit in progress. */
  ghost function WithReady(s: ScanState, e: EdgeId): ScanState {
    s.(outputsReady := s.outputsReady + {e})
  }

  /** Reaching an edge that is on the stack closes a genuine cycle, reachable from the root of the walk. */
  lemma StackedEdgeIsCycle(g: Graph, w: World, s: ScanState, n: NodeId, e: EdgeId, start: nat)
    requires ScanInv(g, w, s) && MayVisit(g, s, n) && g.InEdge(n) == Some(e)
    requires start < |s.stack| && g.InEdge(s.stack[start]) == Some(e)
    ensures var path := s.stack[start..][0 := n] + [n];
      IsCycle(g, path) && CycleReachable(g, s.stack[0])
  {
    hide OrderOk, Settled, FilesOk;
    var path := s.stack[start..][0 := n] + [n];
    var root := s.stack + [n];
    forall k | 0 <= k < |path| - 1
      ensures g.InEdge(path[k]).Some? && path[k + 1] in g.Inputs(g.InEdge(path[k]).value)
    {
      assert g.InEdge(path[k]) == g.InEdge(s.stack[start + k]);
      assert path[k + 1] == root[start + k + 1];
    }
    assert IsPath(g, root) && root[0] == s.stack[0] && root[|root| - 1] == path[0];
  }

  // ----- The loop over the inputs of an edge -----

  ghost function TimeOf(w: World, n: Option<NodeId>): Option<int> {
    if n.None? then None else Some(w.Stat(n.value))
  }

  function Min(a: nat, b: nat): nat {
    if a < b then a else b
  }

  /**
    After the first `k` inputs of `e`: `dirty` is the judgement so far, and while it is negative `mostRecent` is
    the newest of the regular inputs seen. `s0` is the state when the loop was entered.
   */
  ghost predicate Progress(g: Graph, w: World, s0: ScanState, s: ScanState, n: NodeId, e: EdgeId, k: nat, dirty: bool,
                           mostRecent: Option<NodeId>) {
    var ins, regular := g.Inputs(e), g.RegularInputs(e);
    && g.Wired() && ScanInv(g, w, s) && Grown(g, s0, WithReady(s, e))
    && |s.stack| > 0 && s.stack[|s.stack| - 1] == n && g.InEdge(n) == Some(e) && s.InStack(e)
    && k <= |ins|
    && (forall o | o in g.Outputs(e) :: o in s.mtime)
    && (forall j | 0 <= j < k :: Known(g, s, ins[j]))
    && (e in s.outputsReady <==> forall j | 0 <= j < k :: g.NodeReady(s.outputsReady, ins[j]))
    && Judged(w, s.dirty, s.mtime.Keys, regular, e, Min(k, |regular|), dirty, mostRecent)
  }

  /** The judgement from the first `k` regular inputs. */
  ghost predicate Judged(w: World, dirtyNodes: set<NodeId>, examined: set<NodeId>, regular: seq<NodeId>, e: EdgeId, k: nat,
                         dirty: bool, mostRecent: Option<NodeId>)
    requires k <= |regular|
  {
    && (dirty <==> e in w.lostDeps || SomeDirty(dirtyNodes, regular, k))
    && (!dirty ==> TimeOf(w, mostRecent) == Newest(w, regular[..k]))
    && (mostRecent.Some? ==> mostRecent.value in examined)
  }

  lemma JudgedStep(w: World, dirtyNodes: set<NodeId>, examined: set<NodeId>, regular: seq<NodeId>, e: EdgeId, k: nat,
                   dirty: bool, mostRecent: Option<NodeId>, dirty': bool, mostRecent': Option<NodeId>)
    requires k < |regular| && Judged(w, dirtyNodes, examined, regular, e, k, dirty, mostRecent)
    requires regular[k] in examined
    requires dirty' == (dirty || regular[k] in dirtyNodes)
    requires mostRecent' == if regular[k] !in dirtyNodes
                               && (mostRecent.None? || w.Stat(regular[k]) > w.Stat(mostRecent.value))
                            then Some(regular[k]) else mostRecent
    ensures Judged(w, dirtyNodes, examined, regular, e, k + 1, dirty', mostRecent')
  {
    hide SomeDirty, Newest;
    SomeDirtyNext(dirtyNodes, regular, k);
    NewestNext(w, regular, k);
  }

  ghost predicate SomeDirty(dirty: set<NodeId>, nodes: seq<NodeId>, k: nat)
    requires k <= |nodes|
  {
    exists j :: 0 <= j < k && nodes[j] in dirty
  }

  lemma SomeDirtySame(dirty: set<NodeId>, dirty': set<NodeId>, nodes: seq<NodeId>, k: nat)
    requires k <= |nodes| && forall j | 0 <= j < k :: nodes[j] in dirty <==> nodes[j] in dirty'
    ensures SomeDirty(dirty, nodes, k) <==> SomeDirty(dirty', nodes, k)
  {
  }

  lemma SomeDirtyNext(dirty: set<NodeId>, nodes: seq<NodeId>, k: nat)
    requires k < |nodes|
    ensures SomeDirty(dirty, nodes, k + 1) <==> SomeDirty(dirty, nodes, k) || nodes[k] in dirty
  {
    if SomeDirty(dirty, nodes, k) {
      var j :| 0 <= j < k && nodes[j] in dirty;
      assert 0 <= j < k + 1;
    }
    if nodes[k] in dirty {
      assert 0 <= k < k + 1;
    }
  }

  lemma NewestNext(w: World, nodes: seq<NodeId>, k: nat)
    requires k < |nodes|
    ensures var before, now := Newest(w, nodes[..k]), w.Stat(nodes[k]);
      Newest(w, nodes[..k + 1]) == if before.None? || now > before.value then Some(now) else before
  {
    assert nodes[..k + 1][..k] == nodes[..k];
  }

  lemma ProgressStart(g: Graph, w: World, s0: ScanState, s: ScanState, n: NodeId, e: EdgeId, dirty: bool)
    requires g.Wired() && ScanInv(g, w, s) && Grown(g, s0, s) && e in s.outputsReady
    requires |s.stack| > 0 && s.stack[|s.stack| - 1] == n && g.InEdge(n) == Some(e) && s.InStack(e)
    requires forall o | o in g.Outputs(e) :: o in s.mtime
    requires dirty <==> e in w.lostDeps
    ensures Progress(g, w, s0, s, n, e, 0, dirty, None)
  {
    hide ScanInv, Grown;
    assert WithReady(s, e) == s;
  }

  lemma ProgressFacts(g: Graph, w: World, s0: ScanState, s: ScanState, n: NodeId, e: EdgeId, k: nat, dirty: bool,
                      mostRecent: Option<NodeId>)
    requires Progress(g, w, s0, s, n, e, k, dirty, mostRecent) && k < |g.Inputs(e)|
    ensures g.Wired() && ScanInv(g, w, s) && MayVisit(g, s, g.Inputs(e)[k]) && s.stack != []
    ensures s.stack == s0.stack && s0.mark.Keys <= s.mark.Keys && s.mark.Keys <= g.edges.Keys
    ensures mostRecent.Some? ==> mostRecent.value in s.mtime
  {
  }

  /** Visiting the next input keeps what is known of the earlier ones. */
  lemma ProgressVisit(g: Graph, w: World, s0: ScanState, s: ScanState, r: ScanState, n: NodeId, e: EdgeId, k: nat,
                      dirty: bool, mostRecent: Option<NodeId>)
    requires Progress(g, w, s0, s, n, e, k, dirty, mostRecent) && k < |g.Inputs(e)|
    requires ScanInv(g, w, r) && Grown(g, s, r) && Known(g, r, g.Inputs(e)[k])
    ensures Progress(g, w, s0, r, n, e, k, dirty, mostRecent)
    ensures Known(g, r, g.Inputs(e)[k])
    ensures mostRecent.Some? ==> mostRecent.value in r.mtime && r.mtime[mostRecent.value] == w.Stat(mostRecent.value)
    ensures g.Inputs(e)[k] in r.mtime && r.mtime[g.Inputs(e)[k]] == w.Stat(g.Inputs(e)[k])
  {
    hide Graph.InEdge, Graph.Inputs, Graph.Outputs, Graph.Wired, Known, Newest, ScanInv, SomeDirty, TimeOf,
      WithReady, World.Stat;
    var ins, regular := g.Inputs(e), g.RegularInputs(e);
    forall j | 0 <= j < k ensures Known(g, r, ins[j]) && (ins[j] in r.dirty <==> ins[j] in s.dirty)
                                  && (g.NodeReady(r.outputsReady, ins[j]) <==> g.NodeReady(s.outputsReady, ins[j])) {
      KnownStays(g, s, r, ins[j]);
      assert g.NodeReady(r.outputsReady, ins[j]) <==> g.NodeReady(s.outputsReady, ins[j]);
    }
    assert forall j | 0 <= j < Min(k, |regular|) :: regular[j] == ins[j] && j < k;
    assert Min(k, |regular|) <= |regular|;
    ProgressGrown(g, s0, s, r, e);
    JudgedSame(w, s.dirty, s.mtime.Keys, r.dirty, r.mtime.Keys, regular, e, Min(k, |regular|), dirty, mostRecent);
    assert mostRecent.Some? ==> mostRecent.value in s.mtime;
    ProgressExamined(g, w, s, r, ins[k], mostRecent);
    assert e in s.mark && (e in r.outputsReady <==> e in s.outputsReady);
  }

  lemma JudgedSame(w: World, dirtyNodes: set<NodeId>, examined: set<NodeId>, dirtyNodes': set<NodeId>, examined': set<NodeId>,
                   regular: seq<NodeId>, e: EdgeId, k: nat, dirty: bool, mostRecent: Option<NodeId>)
    requires k <= |regular| && Judged(w, dirtyNodes, examined, regular, e, k, dirty, mostRecent)
    requires (forall j | 0 <= j < k :: regular[j] in dirtyNodes <==> regular[j] in dirtyNodes') && examined <= examined'
    ensures Judged(w, dirtyNodes', examined', regular, e, k, dirty, mostRecent)
  {
    hide SomeDirty, Newest;
    SomeDirtySame(dirtyNodes, dirtyNodes', regular, k);
  }

  lemma ProgressExamined(g: Graph, w: World, s: ScanState, r: ScanState, i: NodeId, mostRecent: Option<NodeId>)
    requires g.Wired() && ScanInv(g, w, r) && Grown(g, s, r) && Known(g, r, i)
    requires mostRecent.Some? ==> mostRecent.value in s.mtime
    ensures mostRecent.Some? ==> mostRecent.value in r.mtime && r.mtime[mostRecent.value] == w.Stat(mostRecent.value)
    ensures i in r.mtime && r.mtime[i] == w.Stat(i)
  {
    hide ScanInv;
    KnownIsExamined(g, w, r, i);
    ExaminedIsStat(g, w, r);
  }

  lemma ExaminedIsStat(g: Graph, w: World, s: ScanState)
    requires ScanInv(g, w, s)
    ensures forall n | n in s.mtime :: s.mtime[n] == w.Stat(n)
  {
    hide StackOk, OrderOk, Settled;
  }

  lemma ProgressGrown(g: Graph, s0: ScanState, s: ScanState, r: ScanState, e: EdgeId)
    requires Grown(g, s0, WithReady(s, e)) && Grown(g, s, r) && s.InStack(e)
    ensures Grown(g, s0, WithReady(r, e)) && r.InStack(e) && r.stack == s.stack
    ensures forall n | n in s.mtime :: n in r.mtime
  {
    GrownWithReady(g, s, r, e);
    GrownTrans(g, s0, WithReady(s, e), WithReady(r, e));
  }

  lemma GrownWithReady(g: Graph, s: ScanState, r: ScanState, e: EdgeId)
    requires Grown(g, s, r) && e in s.mark
    ensures Grown(g, WithReady(s, e), WithReady(r, e))
  {
    forall x | Known(g, WithReady(s, e), x) ensures x in r.dirty <==> x in s.dirty {
      assert Known(g, s, x);
    }
  }

  lemma KnownIsExamined(g: Graph, w: World, s: ScanState, n: NodeId)
    requires g.Wired() && ScanInv(g, w, s) && Known(g, s, n)
    ensures n in s.mtime && s.mtime[n] == w.Stat(n)
  {
    hide StackOk, OrderOk, LocallyDirty, LocallyReady;
    if g.InEdge(n).Some? {
      assert Settled(g, w, s, g.InEdge(n).value);
    }
  }

  /** Taking one input into account. */
  lemma ProgressStep(g: Graph, w: World, s0: ScanState, s: ScanState, r: ScanState, n: NodeId, e: EdgeId, k: nat,
                     dirty: bool, mostRecent: Option<NodeId>, dirty': bool, mostRecent': Option<NodeId>)
    requires Progress(g, w, s0, s, n, e, k, dirty, mostRecent) && k < |g.Inputs(e)|
    requires Known(g, s, g.Inputs(e)[k])
    requires r == s.(outputsReady := if g.NodeReady(s.outputsReady, g.Inputs(e)[k]) then s.outputsReady
                                     else s.outputsReady - {e})
    requires dirty' == (dirty || (k < |g.RegularInputs(e)| && g.Inputs(e)[k] in s.dirty))
    requires var i := g.Inputs(e)[k];
      mostRecent' == if k < |g.RegularInputs(e)| && i !in s.dirty
                        && (mostRecent.None? || w.Stat(i) > w.Stat(mostRecent.value)) then Some(i) else mostRecent
    ensures Progress(g, w, s0, r, n, e, k + 1, dirty', mostRecent')
  {
    hide Graph.Wired, Grown, Judged, Known, ScanInv, World.Stat;
    var ins, regular := g.Inputs(e), g.RegularInputs(e);
    KnownIsExamined(g, w, s, ins[k]);
    FlagKeeps(g, w, s, e, r);
    assert WithReady(r, e) == WithReady(s, e);
    ReadyFlagStep(g, s, r, e, ins, k);
    if k < |regular| {
      assert regular[k] == ins[k];
      JudgedStep(w, s.dirty, s.mtime.Keys, regular, e, k, dirty, mostRecent, dirty', mostRecent');
    }
  }

  lemma ReadyFlagStep(g: Graph, s: ScanState, r: ScanState, e: EdgeId, ins: seq<NodeId>, k: nat)
    requires k < |ins| && s.InStack(e)
    requires forall j | 0 <= j < k + 1 :: Known(g, s, ins[j])
    requires e in s.outputsReady <==> forall j | 0 <= j < k :: g.NodeReady(s.outputsReady, ins[j])
    requires r == s.(outputsReady := if g.NodeReady(s.outputsReady, ins[k]) then s.outputsReady else s.outputsReady - {e})
    ensures forall j | 0 <= j < k + 1 :: Known(g, r, ins[j])
    ensures e in r.outputsReady <==> forall j | 0 <= j < k + 1 :: g.NodeReady(r.outputsReady, ins[j])
  {
    forall j | 0 <= j < k + 1
      ensures Known(g, r, ins[j]) && (g.NodeReady(r.outputsReady, ins[j]) <==> g.NodeReady(s.outputsReady, ins[j])) {
      assert Known(g, s, ins[j]);
    }
  }

  /** The ready flag of an edge on the stack is free to change. */
  lemma FlagKeeps(g: Graph, w: World, s: ScanState, e: EdgeId, r: ScanState)
    requires g.Wired() && ScanInv(g, w, s) && s.InStack(e) && (r == s || r == s.(outputsReady := s.outputsReady - {e}))
    ensures ScanInv(g, w, r)
  {
    hide StackOk, OrderOk, FilesOk, LocallyDirty, LocallyReady;
    forall x | r.Done(x) ensures Settled(g, w, r, x) {
      assert Settled(g, w, s, x);
      SettledStays(g, w, s, r, x);
    }
  }

  lemma ProgressEnd(g: Graph, w: World, s0: ScanState, s: ScanState, n: NodeId, e: EdgeId, dirty: bool,
                    mostRecent: Option<NodeId>)
    requires Progress(g, w, s0, s, n, e, |g.Inputs(e)|, dirty, mostRecent)
    ensures g.Wired() && ScanInv(g, w, s) && Grown(g, s0, WithReady(s, e)) && e in g.edges
    ensures mostRecent.Some? ==> mostRecent.value in s.mtime && s.mtime[mostRecent.value] == w.Stat(mostRecent.value)
    ensures !dirty ==> TimeOf(w, mostRecent) == Newest(w, g.RegularInputs(e))
    ensures dirty ==> ReadyToLeave(g, w, s, n, e, dirty)
    ensures !dirty ==> ReadyToLeave(g, w, s, n, e, AnyOutputDirty(g, w, e, Newest(w, g.RegularInputs(e))))
  {
    hide AnyOutputDirty, Grown, Judged, Known, LocallyDirty, Newest, ReadyToLeave, Settled, StackOk, OrderOk, TimeOf,
      Graph.AllInputsReady, Graph.NodeReady, Graph.Wired;
    var regular := g.RegularInputs(e);
    AllInputsSeen(g, s, e);
    assert Judged(w, s.dirty, s.mtime.Keys, regular, e, |regular|, dirty, mostRecent);
    JudgedEnd(w, s.dirty, s.mtime.Keys, regular, e, dirty, mostRecent);
    JudgedIsLocal(g, w, s.dirty, e, dirty);
    LeavesReady(g, w, s, n, e, if dirty then true else AnyOutputDirty(g, w, e, Newest(w, regular)));
  }

  lemma JudgedIsLocal(g: Graph, w: World, dirtyNodes: set<NodeId>, e: EdgeId, dirty: bool)
    requires e in g.edges
    requires dirty <==> e in w.lostDeps || exists i | i in g.RegularInputs(e) :: i in dirtyNodes
    ensures LocallyDirty(g, w, dirtyNodes, e) <==> dirty || AnyOutputDirty(g, w, e, Newest(w, g.RegularInputs(e)))
  {
    hide AnyOutputDirty, Newest;
  }

  lemma LeavesReady(g: Graph, w: World, s: ScanState, n: NodeId, e: EdgeId, dirty: bool)
    requires g.Wired() && ScanInv(g, w, s) && |s.stack| > 0 && s.stack[|s.stack| - 1] == n && g.InEdge(n) == Some(e)
    requires s.InStack(e) && e in g.edges && (forall o | o in g.Outputs(e) :: o in s.mtime)
    requires forall i | i in g.Inputs(e) :: Known(g, s, i)
    requires (e in s.outputsReady <==> g.AllInputsReady(s.outputsReady, e)) && (dirty <==> LocallyDirty(g, w, s.dirty, e))
    ensures ReadyToLeave(g, w, s, n, e, dirty)
  {
    hide ScanInv, Known, LocallyDirty, Graph.AllInputsReady;
  }

  lemma AllInputsSeen(g: Graph, s: ScanState, e: EdgeId)
    requires forall j | 0 <= j < |g.Inputs(e)| :: Known(g, s, g.Inputs(e)[j])
    ensures forall i | i in g.Inputs(e) :: Known(g, s, i)
    ensures g.AllInputsReady(s.outputsReady, e)
       <==> forall j | 0 <= j < |g.Inputs(e)| :: g.NodeReady(s.outputsReady, g.Inputs(e)[j])
  {
    hide Known;
    var ins := g.Inputs(e);
    assert forall i | i in ins :: exists j :: 0 <= j < |ins| && ins[j] == i;
  }

  lemma JudgedEnd(w: World, dirtyNodes: set<NodeId>, examined: set<NodeId>, regular: seq<NodeId>, e: EdgeId, dirty: bool,
                  mostRecent: Option<NodeId>)
    requires Judged(w, dirtyNodes, examined, regular, e, |regular|, dirty, mostRecent)
    ensures mostRecent.Some? ==> mostRecent.value in examined
    ensures dirty <==> e in w.lostDeps || exists i | i in regular :: i in dirtyNodes
    ensures !dirty ==> TimeOf(w, mostRecent) == Newest(w, regular)
  {
    hide Newest, TimeOf;
    assert regular[..|regular|] == regular;
    assert forall i | i in regular :: exists j :: 0 <= j < |regular| && regular[j] == i;
  }

  // ----- The scan itself -----

  /** The mutable part of the graph. An edge absent from `mark` has not been visited. */
  class State {
    const g: Graph
    var outputsReady: set<EdgeId>
    var dirty: set<NodeId>
    var mtime: map<NodeId, int>
    var mark: map<EdgeId, VisitMark>
    var depsMissing: set<EdgeId>

    constructor (g: Graph)
      ensures this.g == g
      ensures outputsReady == {} && dirty == {} && mtime == map[] && mark == map[] && depsMissing == {}
    {
      this.g := g;
      outputsReady, dirty, mtime, mark, depsMissing := {}, {}, map[], map[], {};
    }

    /** Whether everything the inputs of an edge come from is ready. */
    method AllInputsReady(e: EdgeId) returns (ready: bool)
      ensures ready == g.AllInputsReady(outputsReady, e)
    {
      var ins := g.Inputs(e);
      for k := 0 to |ins|
        invariant forall j | 0 <= j < k :: g.NodeReady(outputsReady, ins[j])
      {
        var d := g.InEdge(ins[k]);
        if d.Some? && d.value !in outputsReady {
          assert !g.NodeReady(outputsReady, ins[k]);
          return false;
        }
      }
      return true;
    }
  }

  datatype ScanResult =
    | ScanOk
    | StatFailed(node: NodeId)
    | DepsBroken(edge: EdgeId)
    | Cycle(path: seq<NodeId>)

  class DependencyScan {
    const state: State
    const world: World
    var stack: seq<NodeId>
    ghost var order: seq<EdgeId>

    constructor (state: State, world: World)
      ensures this.state == state && this.world == world && stack == [] && order == []
    {
      this.state, this.world := state, world;
      stack, order := [], [];
    }

    ghost function View(): ScanState
      reads this, state
    {
      ScanState(state.mark, state.outputsReady, state.dirty, state.mtime, stack, order)
    }

    ghost predicate Valid()
      reads this, state
    {
      state.g.Wired() && ScanInv(state.g, world, View())
    }

    /** Whether any output of the edge is out of date. */
    method RecomputeOutputsDirty(e: EdgeId, newest: Option<int>) returns (dirty: bool)
      requires e in state.g.edges
      ensures dirty == AnyOutputDirty(state.g, world, e, newest)
    {
      var outs := state.g.Outputs(e);
      for k := 0 to |outs|
        invariant forall j | 0 <= j < k :: !OutputDirty(state.g, world, e, newest, outs[j])
      {
        if OutputDirty(state.g, world, e, newest, outs[k]) {
          return true;
        }
      }
      return false;
    }

    /** Find the edge on the stack and report the cycle, starting from the node that closed it. */
    method VerifyDAG(n: NodeId) returns (r: ScanResult)
      requires Valid() && MayVisit(state.g, View(), n)
      requires state.g.InEdge(n).Some?
      modifies this`stack
      ensures r.ScanOk? ==> stack == old(stack) && !View().InStack(state.g.InEdge(n).value)
      ensures !r.ScanOk? ==> && r.Cycle? && IsCycle(state.g, r.path) && r.path[0] == n
                             && old(stack) != [] && CycleReachable(state.g, old(stack)[0])
    {
      var e := state.g.InEdge(n).value;
      if e !in state.mark || state.mark[e] != VisitInStack {
        return ScanOk;
      }
      hide OrderOk, Settled, FilesOk, IsPath;
      var start := 0;
      assert OnStack(state.g, stack, e);
      while state.g.InEdge(stack[start]) != Some(e)
        invariant 0 <= start < |stack|
        invariant exists k :: start <= k < |stack| && state.g.InEdge(stack[k]) == Some(e)
        decreases |stack| - start
      {
        start := start + 1;
      }
      StackedEdgeIsCycle(state.g, world, View(), n, e, start);
      stack := stack[start := n];
      assert stack[start..] == old(stack)[start..][0 := n];
      return Cycle(stack[start..] + [stack[start]]);
    }

    /** Visit the file of every output. */
    method StatOutputs(e: EdgeId) returns (r: ScanResult)
      requires Valid() && e in state.g.edges
      modifies state`mtime
      ensures Valid() && Grown(state.g, old(View()), View())
      ensures r.ScanOk? || (r.StatFailed? && world.Stat(r.node) == -1)
      ensures r.ScanOk? ==> forall o | o in state.g.Outputs(e) :: o in state.mtime
      ensures View() == old(View()).(mtime := state.mtime)
    {
      hide ScanInv, Grown;
      var outs := state.g.Outputs(e);
      GrownRefl(state.g, View());
      for k := 0 to |outs|
        invariant Valid() && Grown(state.g, old(View()), View())
        invariant View() == old(View()).(mtime := state.mtime)
        invariant forall j | 0 <= j < k :: outs[j] in state.mtime
      {
        if outs[k] !in state.mtime {
          if world.Stat(outs[k]) == -1 {
            return StatFailed(outs[k]);
          }
          ghost var s := View();
          StatKeeps(state.g, world, s, outs[k]);
          state.mtime := state.mtime[outs[k] := world.Stat(outs[k])];
          GrownTrans(state.g, old(View()), s, View());
        }
      }
      return ScanOk;
    }

    /**
      Scan a target. Unless a file or a dependency record cannot be read, the scan fails exactly when a cycle is
      reachable from the target, and what it then reports is a cycle.
     */
    method RecomputeDirty(n: NodeId) returns (r: ScanResult)
      requires Valid() && stack == []
      modifies this, state
      ensures r.ScanOk? ==> Valid() && stack == [] && Grown(state.g, old(View()), View()) && Known(state.g, View(), n)
      ensures r.ScanOk? ==> !CycleReachable(state.g, n)
      ensures r.Cycle? ==> CycleReachable(state.g, n) && IsCycle(state.g, r.path)
      ensures r.StatFailed? ==> world.Stat(r.node) == -1
      ensures r.DepsBroken? ==> r.edge in world.badDeps
    {
      hide ScanInv, CycleReachable, IsCycle;
      r := Visit(n);
      if r.ScanOk? {
        NoCycleFromKnown(state.g, world, View(), n);
      }
    }

    /**
      Visit a node and everything below it. On success the node is known, the invariant holds and nothing known
      before has changed; a reported cycle is a cycle, and it is reachable from where the walk began.
     */
    method Visit(n: NodeId) returns (r: ScanResult)
      requires Valid() && MayVisit(state.g, View(), n)
      modifies this, state
      ensures r.ScanOk? ==> Valid() && Grown(state.g, old(View()), View()) && Known(state.g, View(), n)
      ensures Explains(r, if old(stack) == [] then n else old(stack)[0])
      decreases state.g.edges.Keys - state.mark.Keys, 2
    {
      GrownRefl(state.g, View());
      match state.g.InEdge(n)
      case None =>
        r := VisitSource(n);
      case Some(e) =>
        if e in state.mark && state.mark[e] == VisitDone {
          return ScanOk;
        }
        r := VerifyDAG(n);
        if r.ScanOk? {
          r := VisitEdge(n, e);
        }
    }

    /** A failed visit names a genuine reason. */
    ghost predicate Explains(r: ScanResult, root: NodeId)
    {
      match r
      case ScanOk => true
      case StatFailed(n) => world.Stat(n) == -1
      case DepsBroken(e) => e in world.badDeps
      case Cycle(p) => IsCycle(state.g, p) && CycleReachable(state.g, root)
    }

    /** A node that nothing makes is dirty when it is missing. */
    method VisitSource(n: NodeId) returns (r: ScanResult)
      requires Valid() && state.g.InEdge(n).None?
      modifies state
      ensures r.ScanOk? ==> Valid() && Grown(state.g, old(View()), View()) && Known(state.g, View(), n)
      ensures Explains(r, n) && !r.Cycle?
    {
      hide ScanInv, Grown;
      GrownRefl(state.g, View());
      if n in state.mtime {
        return ScanOk;
      }
      if world.Stat(n) == -1 {
        return StatFailed(n);
      }
      LeafKeeps(state.g, world, View(), n);
      state.mtime := state.mtime[n := world.Stat(n)];
      state.dirty := if world.Stat(n) == 0 then state.dirty + {n} else state.dirty - {n};
      return ScanOk;
    }

    /** The first visit of an edge: push it, look below, judge it, pop it. */
    method VisitEdge(n: NodeId, e: EdgeId) returns (r: ScanResult)
      requires Valid() && MayVisit(state.g, View(), n) && state.g.InEdge(n) == Some(e) && e !in state.mark
      modifies this, state
      ensures r.ScanOk? ==> Valid() && Grown(state.g, old(View()), View()) && Known(state.g, View(), n)
      ensures Explains(r, if old(stack) == [] then n else old(stack)[0])
      decreases state.g.edges.Keys - state.mark.Keys, 1
    {
      hide ScanInv, Grown, ReadyToLeave, IsCycle, CycleReachable;
      ghost var s0 := View();
      EnterKeeps(state.g, world, s0, n, e);
      assert e in state.g.edges;
      FewerLeft(state.g.edges.Keys, state.mark, e, VisitInStack);
      state.mark := state.mark[e := VisitInStack];
      stack := stack + [n];
      state.outputsReady := state.outputsReady + {e};
      state.depsMissing := state.depsMissing - {e};
      assert View() == Enter(s0, n, e);
      hide Enter, Leave;
      var dirty;
      r, dirty := VisitInputs(n, e);
      if r.ScanOk? {
        LeaveKeeps(state.g, world, View(), n, e, dirty);
        LeaveGrown(state.g, world, s0, View(), n, e, dirty);
        LeaveEdge(e, dirty);
      }
    }

    /** Judge the outputs and pop the edge. */
    method LeaveEdge(e: EdgeId, dirty: bool)
      requires stack != []
      modifies this, state
      ensures View() == Leave(state.g, old(View()), e, dirty)
    {
      if dirty {
        state.dirty := state.dirty + NodesOf(state.g.Outputs(e));
      }
      if dirty && !(state.g.IsPhony(e) && state.g.Inputs(e) == []) {
        state.outputsReady := state.outputsReady - {e};
      }
      state.mark := state.mark[e := VisitDone];
      stack := stack[..|stack| - 1];
      order := order + [e];
    }

    /** Take the flags of one visited input into account. */
    method AccountInput(e: EdgeId, i: NodeId, regular: bool, dirty: bool, mostRecent: Option<NodeId>)
      returns (dirty': bool, mostRecent': Option<NodeId>)
      requires i in state.mtime && (mostRecent.Some? ==> mostRecent.value in state.mtime)
      modifies state`outputsReady
      ensures View() == old(View()).(outputsReady :=
                if state.g.NodeReady(old(state.outputsReady), i) then old(state.outputsReady)
                else old(state.outputsReady) - {e})
      ensures dirty' == (dirty || (regular && i in state.dirty))
      ensures mostRecent' == if regular && i !in state.dirty
                                && (mostRecent.None? || state.mtime[i] > state.mtime[mostRecent.value])
                             then Some(i) else mostRecent
    {
      dirty', mostRecent' := dirty, mostRecent;
      var d := state.g.InEdge(i);
      if d.Some? && d.value !in state.outputsReady {
        state.outputsReady := state.outputsReady - {e};
      }
      if regular {
        if i in state.dirty {
          dirty' := true;
        } else if mostRecent.None? || state.mtime[i] > state.mtime[mostRecent.value] {
          mostRecent' := Some(i);
        }
      }
    }

    /** Examine the outputs and the recorded dependencies of an edge on the stack, and visit its inputs. */
    method VisitInputs(ghost n: NodeId, e: EdgeId) returns (r: ScanResult, dirty: bool)
      requires Valid() && stack != [] && stack[|stack| - 1] == n && state.g.InEdge(n) == Some(e)
      requires View().InStack(e) && e in state.outputsReady
      modifies this, state
      ensures r.ScanOk? ==> Valid() && Grown(state.g, old(View()), WithReady(View(), e))
      ensures r.ScanOk? ==> ReadyToLeave(state.g, world, View(), n, e, dirty)
      ensures Explains(r, old(stack)[0])
      decreases state.g.edges.Keys - state.mark.Keys, 3
    {
      hide ScanInv, Grown, Progress, ReadyToLeave, IsCycle, CycleReachable;
      ghost var s0 := View();
      r := StatOutputs(e);
      dirty := false;
      if !r.ScanOk? {
        return;
      }
      if e in world.badDeps {
        r := DepsBroken(e);
        return;
      }
      if e in world.lostDeps {
        dirty := true;
        state.depsMissing := state.depsMissing + {e};
      }
      var ins := state.g.Inputs(e);
      var regular := |state.g.RegularInputs(e)|;
      var mostRecent: Option<NodeId> := None;
      ProgressStart(state.g, world, s0, View(), n, e, dirty);
      for k := 0 to |ins|
        invariant r.ScanOk? && Progress(state.g, world, s0, View(), n, e, k, dirty, mostRecent)
      {
        ghost var s1 := View();
        ProgressFacts(state.g, world, s0, s1, n, e, k, dirty, mostRecent);
        r := Visit(ins[k]);
        if !r.ScanOk? {
          return;
        }
        ghost var s2 := View();
        ProgressVisit(state.g, world, s0, s1, s2, n, e, k, dirty, mostRecent);
        ghost var dirty0, mostRecent0 := dirty, mostRecent;
        dirty, mostRecent := AccountInput(e, ins[k], k < regular, dirty, mostRecent);
        ProgressStep(state.g, world, s0, s2, View(), n, e, k, dirty0, mostRecent0, dirty, mostRecent);
      }
      dirty := JudgeOutputs(s0, n, e, dirty, mostRecent);
    }

    /** With all inputs seen and none of them dirty, the outputs are compared with the newest input. */
    method JudgeOutputs(ghost s0: ScanState, ghost n: NodeId, e: EdgeId, dirty: bool, mostRecent: Option<NodeId>)
      returns (r: bool)
      requires Progress(state.g, world, s0, View(), n, e, |state.g.Inputs(e)|, dirty, mostRecent)
      ensures Valid() && Grown(state.g, s0, WithReady(View(), e)) && ReadyToLeave(state.g, world, View(), n, e, r)
    {
      hide AnyOutputDirty, Grown, Newest, Progress, ReadyToLeave, ScanInv, TimeOf;
      ProgressEnd(state.g, world, s0, View(), n, e, dirty, mostRecent);
      r := dirty;
      if !dirty {
        var newest := if mostRecent.None? then None else Some(state.mtime[mostRecent.value]);
        TimeIs(world, mostRecent, newest);
        r := RecomputeOutputsDirty(e, newest);
      }
    }
  }

  lemma FewerLeft(edges: set<EdgeId>, mark: map<EdgeId, VisitMark>, e: EdgeId, m: VisitMark)
    requires e in edges && e !in mark
    ensures e in edges - mark.Keys && edges - mark[e := m].Keys == edges - mark.Keys - {e}
  {
  }

  lemma TimeIs(w: World, n: Option<NodeId>, time: Option<int>)
    requires time == if n.None? then None else Some(w.Stat(n.value))
    ensures TimeOf(w, n) == time
  {
  }

  lemma GrownRefl(g: Graph, s: ScanState)
    ensures Grown(g, s, s)
  {
  }
}
