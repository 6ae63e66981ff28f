/**
  The builder: it scans and adds targets, then runs the main build loop against two command runners, a local one
  and a remote one, whose behaviour is arbitrary.
 */
module Builder {
  import opened BuildGraph
  import opened Pools
  import opened DirtySpec
  import opened DirtyScan
  import opened Plan
  import opened PlanInvariant
  import opened BuildTrace
  import S = PlanSpec
  import PlanProgress
  import PlanTargets
  import PlanRestat

  // ----- From the scan to the plan -----

  ghost function DoneEdges(s: ScanState): set<EdgeId> {
    set e | e in s.mark && s.mark[e] == VisitDone
  }

  /** The scan establishes what adding targets relies on. */
  lemma ScanServesPlan(g: Graph, w: World, s: ScanState)
    requires g.Wired() && ScanInv(g, w, s)
    ensures PlanTargets.Scanned(g, s.outputsReady, s.dirty, DoneEdges(s))
    ensures RankOf(s.order).Sorts(g) && RankOf(s.order).rank.Keys == DoneEdges(s)
  {
    OrderIsTopology(g, s.mark, s.order);
    forall e | e in DoneEdges(s)
      ensures && e in g.edges
              && (forall d | g.Feeds(d, e) :: d in DoneEdges(s))
              && (e !in s.outputsReady ==>
                    !g.AllInputsReady(s.outputsReady, e) || forall o | o in g.Outputs(e) :: o in s.dirty)
    {
      assert Settled(g, w, s, e);
      forall d | g.Feeds(d, e) ensures d in DoneEdges(s) {
        var i :| i in g.Inputs(e) && g.InEdge(i) == Some(d);
        assert Known(g, s, i);
      }
    }
  }

  /** Scanning one more target leaves the plan made so far in order. */
  lemma RescanKeeps(g: Graph, w: World, s0: ScanState, s1: ScanState, p0: S.PlanState, p1: S.PlanState)
    requires g.Wired() && ScanInv(g, w, s0) && Grown(g, s0, s1)
    requires Inv(g, s0.outputsReady, p0, {}, {}) && p0.outputsReady == s0.outputsReady && p0.trace == []
    requires p0.want.Keys <= DoneEdges(s0)
    requires p1 == p0.(outputsReady := s1.outputsReady, dirty := s1.dirty)
    ensures Inv(g, s1.outputsReady, p1, {}, {})
  {
    hide ScanInv, Counts, Partition, Owned;
    ReadyStays(g, w, s0, s1);
    RescanKeepsDeps(g, w, s0, s1, p0.want);
    assert p1.finished == {} by { assert StartedIn([]) == {}; }
    assert CompletedIn([]) == {};
  }

  lemma ReadyStays(g: Graph, w: World, s0: ScanState, s1: ScanState)
    requires ScanInv(g, w, s0) && Grown(g, s0, s1)
    ensures s0.outputsReady <= s1.outputsReady
  {
    hide StackOk, OrderOk, Settled, FilesOk, Known;
  }

  lemma RescanKeepsDeps(g: Graph, w: World, s0: ScanState, s1: ScanState, want: map<EdgeId, S.Want>)
    requires g.Wired() && ScanInv(g, w, s0) && Grown(g, s0, s1)
    requires want.Keys <= DoneEdges(s0) && DepsOk(g, want, s0.outputsReady, {}, {})
    ensures DepsOk(g, want, s1.outputsReady, {}, {})
  {
    hide ScanInv;
    ScanServesPlan(g, w, s0);
    forall e | e in want ensures e !in s1.outputsReady {
      assert e in DoneEdges(s0);
    }
    forall e, d | e in want && g.Feeds(d, e) ensures d in s1.outputsReady <==> d in s0.outputsReady {
      assert e in DoneEdges(s0);
      assert d in DoneEdges(s0);
    }
    forall e | e in want ensures g.AllInputsReady(s1.outputsReady, e) <==> g.AllInputsReady(s0.outputsReady, e) {
      ReadyByFeeders(g, s0.outputsReady, e);
      ReadyByFeeders(g, s1.outputsReady, e);
    }
  }

  /** What was planned stays provided for when more is scanned. */
  lemma RescanKeepsPlanned(g: Graph, w: World, s0: ScanState, s1: ScanState, p0: S.PlanState, p1: S.PlanState)
    requires g.Wired() && ScanInv(g, w, s0) && ScanInv(g, w, s1) && Grown(g, s0, s1)
    requires PlanTargets.Planned(g, p0, {}) && p0.outputsReady == s0.outputsReady && p0.dirty == s0.dirty
    requires p0.want.Keys <= DoneEdges(s0) && p0.everWanted <= p0.want.Keys
    requires p1 == p0.(outputsReady := s1.outputsReady, dirty := s1.dirty)
    ensures PlanTargets.Planned(g, p1, {})
  {
    ReadyStays(g, w, s0, s1);
    forall x, i | x in p0.want && i in g.Inputs(x) ensures PlanTargets.Provided(g, p1, i) {
      ScannedStays(g, w, s0, s1, x, i);
      assert PlanTargets.Provided(g, p0, i);
    }
    forall e | e in p1.everWanted ensures exists o | o in g.Outputs(e) :: o in p1.dirty {
      var o :| o in g.Outputs(e) && o in p0.dirty;
      ScannedStays(g, w, s0, s1, e, o);
    }
  }

  /** The flags of what a scan has settled are not changed by a further scan. */
  lemma ScannedStays(g: Graph, w: World, s0: ScanState, s1: ScanState, x: EdgeId, n: NodeId)
    requires g.Wired() && ScanInv(g, w, s0) && Grown(g, s0, s1) && x in DoneEdges(s0)
    requires n in g.Inputs(x) || n in g.Outputs(x)
    ensures n in s1.dirty <==> n in s0.dirty
  {
    hide StackOk, OrderOk, FilesOk, LocallyDirty, LocallyReady;
    assert Settled(g, w, s0, x);
    assert Known(g, s0, n);
  }

  /** Before anything ran, what was ever wanted is in the plan. */
  lemma WantedIsPlanned(g: Graph, base: set<EdgeId>, s: S.PlanState)
    requires Inv(g, base, s, {}, {}) && s.trace == [] && s.unwanted == {}
    ensures s.everWanted <= s.want.Keys
  {
    hide QueuesOk, PoolsOk, DepsOk, LegalTrace;
    assert s.finished == {} by { assert StartedIn([]) == {}; assert CompletedIn([]) == {}; }
  }

  // ----- A finished command -----

  lemma RunningIsScheduled(g: Graph, base: set<EdgeId>, s: S.PlanState, e: EdgeId)
    requires Inv(g, base, s, {}, {}) && e in s.running
    ensures e in s.want && s.want[e] == S.WantToFinish && g.AllInputsReady(s.outputsReady, e) && e !in s.outputsReady
    ensures MayFinish(s, e) && e in g.edges
  {
    hide CountersOk, PoolsOk, TraceOk;
    assert e in Scheduled(s.want);
  }

  lemma CommandSucceededKeeps(g: Graph, base: set<EdgeId>, t: Topology, s: S.PlanState, v: S.Verdicts, e: EdgeId,
                              untouched: set<NodeId>)
    requires g.Wired() && t.Sorts(g) && s.want.Keys <= t.rank.Keys
    requires Inv(g, base, s, {}, {}) && e in s.running && e in s.want && e in t.rank
    ensures var r := S.CommandSucceeded(g, t, s, v, e, untouched);
      && Inv(g, base, r, {}, {}) && r.running == s.running - {e} && r.failed == s.failed
      && r.want.Keys <= s.want.Keys && OnlyCompletes(s.trace + [S.Completed(e)], r.trace)
      && (PlanRestat.Excused(g, v, s.dirty, s.unwanted) ==> PlanRestat.Excused(g, v, r.dirty, r.unwanted))
      && PlanRestat.CleansOnly(g, s, r, PlanRestat.NodesOf(g.Outputs(e)) * untouched)
      && (PlanRestat.NodesOf(g.Outputs(e)) * untouched == {} ==> r.dirty == s.dirty && r.unwanted == s.unwanted)
  {
    hide Inv, PlanRestat.Excused, PlanRestat.NodesOf;
    RunningIsScheduled(g, base, s, e);
    PlanRestat.RestatKeeps(g, base, t, s, v, e, g.Outputs(e), untouched);
    var m := S.Restat(g, t, s, v, e, g.Outputs(e), untouched);
    PlanRestat.CleanedFacts(g, t, v, s, m, t.rank[e] + 1);
    if PlanRestat.Excused(g, v, s.dirty, s.unwanted) {
      PlanRestat.CleanedIsExcused(g, t, v, s, m, t.rank[e] + 1);
    }
    RunningIsScheduled(g, base, m, e);
    PlanProgress.EdgeSucceededKeeps(g, base, m, e, {});
  }

  lemma CompletesFromHere(before: seq<S.Event>, e: EdgeId, after: seq<S.Event>)
    requires OnlyCompletes(before + [S.Completed(e)], after)
    ensures OnlyCompletes(before, after)
  {
    CompletesOne(before, S.Completed(e));
    CompletesTrans(before, before + [S.Completed(e)], after);
  }

  // ----- The builder -----

  /** What a runner reports of a command: `aborted` means the disk or a log failed while finishing it. */
  datatype CommandResult = CommandResult(edge: EdgeId, success: bool, times: map<NodeId, int>, aborted: bool)
  {
    /** The time stamp of an output after the command; a missing file has 0. */
    function TimeOf(n: NodeId): int {
      if n in times then times[n] else 0
    }

    /** The command succeeded but could not be accounted for. */
    ghost predicate Spoilt() {
      success && aborted
    }
  }

  /**
    What the environment does in one turn of the loop. Reports about edges a runner does not have are ignored,
    and a local runner with nothing to do always accepts a command.
   */
  datatype Turn = Turn(
    remoteAccepts: bool, remoteStarts: bool, remoteDone: Option<CommandResult>,
    localAccepts: bool, localStarts: bool, localDone: Option<CommandResult>)

  datatype Outcome =
    | Continue
    | Succeeded
    | StartFailed
    | FinishFailed
    | Interrupted
    | SubcommandsFailed
    | CannotMakeProgress
    | Stuck

  datatype TargetResult =
    | TargetAdded
    | TargetUpToDate
    | ScanFailed(why: ScanResult)
    | MissingSource(node: NodeId)

  class Builder {
    const state: State
    const plan: Plan
    const scan: DependencyScan
    const allowed: nat
    var failuresAllowed: nat
    var pendingCommands: int
    var pendingRemote: int
    var localEdges: set<EdgeId>
    var remoteEdges: set<EdgeId>
    ghost var base: set<EdgeId>
    ghost var topology: Topology

    /** A builder over a new plan and a new scan of the same graph. */
    constructor (plan: Plan, scan: DependencyScan, allowed: nat)
      requires plan.state == scan.state && plan.Shape()
      requires scan.View() == ScanState(map[], {}, {}, map[], [], [])
      requires plan.View() == S.PlanState(map[], {}, {}, 0, 0, 0, {}, {}, plan.PoolViews(), {}, {}, {}, {}, {}, {}, [])
      requires forall p | p in plan.pools ::
        plan.pools[p].View() == PoolState(plan.pools[p].depth, 0, {}) && plan.pools[p].depth >= 0
      ensures Planning() && this.plan == plan && this.scan == scan && this.allowed == allowed
    {
      this.plan, this.scan, state := plan, scan, plan.state;
      this.allowed, failuresAllowed := allowed, allowed;
      pendingCommands, pendingRemote, localEdges, remoteEdges := 0, 0, {}, {};
      base, topology := {}, Topology(map[], 0);
      new;
      hide Inv, ScanInv, Sane, Plan.PoolViews;
      EmptyPoolViews(plan);
      EmptyPlanInv(state.g, plan.View());
      EmptyScanInv(state.g, scan.world, scan.View());
    }

    /** The parts belong together. */
    ghost predicate Linked()
      reads plan
    {
      && plan.state == state && scan.state == state && plan.Shape()
    }

    /** What restat judges by: the dependencies that could not be loaded and the outputs that are out of date. */
    ghost function Verdicts(): S.Verdicts
      reads state
    {
      S.Verdicts(state.depsMissing, OutOfDate(state.g, scan.world))
    }

    /** What restat un-wanted had no need to run: its regular inputs are clean and its outputs up to date. */
    ghost predicate Excused()
      reads plan, state
    {
      PlanRestat.Excused(state.g, Verdicts(), state.dirty, plan.unwanted)
    }

    /** Targets may be added. */
    ghost predicate Planning()
      reads this, plan, scan, state, plan.pools.Values
    {
      && Linked() && scan.Valid() && scan.stack == []
      && Inv(state.g, state.outputsReady, plan.View(), {}, {})
      && plan.trace == [] && plan.unwanted == {}
      && plan.want.Keys <= DoneEdges(scan.View())
      && PlanTargets.Planned(state.g, plan.View(), {})
    }

    /** The build is under way. */
    ghost predicate Building()
      reads this, plan, scan, state, plan.pools.Values
    {
      && Linked()
      && Inv(state.g, base, plan.View(), {}, {})
      && topology.Sorts(state.g) && plan.want.Keys <= topology.rank.Keys
      && RunnersOk(plan.running, localEdges, remoteEdges, pendingCommands, pendingRemote)
      && Excused()
      && Budgeted(allowed, failuresAllowed, plan.trace)
      && HandedOut(state.g, plan.trace, localEdges, remoteEdges)
      && failuresAllowed <= allowed && (failuresAllowed == allowed && allowed > 0 ==> plan.failed == {})
    }

    /**
      Add a target: scan it, and unless it is up to date enter it in the plan. A target whose scan succeeds has no
      cycle below it.
     */
    method AddTarget(n: NodeId) returns (r: TargetResult)
      requires Planning()
      modifies scan, state, plan, plan.pools.Values
      ensures r.TargetAdded? || r.TargetUpToDate? ==> Planning() && !CycleReachable(state.g, n)
      ensures r.TargetAdded? ==> PlanTargets.Provided(state.g, plan.View(), n)
      ensures r.ScanFailed? ==>
        match r.why
        case ScanOk => false
        case Cycle(path) => CycleReachable(state.g, n) && IsCycle(state.g, path)
        case StatFailed(file) => scan.world.Stat(file) == -1
        case DepsBroken(e) => e in scan.world.badDeps
      ensures r.TargetUpToDate? ==> state.g.InEdge(n).Some? && state.g.InEdge(n).value in state.outputsReady
      ensures r.MissingSource? ==> state.g.InEdge(r.node).None? && r.node in state.dirty
    {
      hide CycleReachable, Graph.Wired, Grown, Inv, Plan.PoolViews, PlanTargets.Covered, PlanTargets.Planned,
        PlanTargets.Provided, ScanInv;
      ghost var s0, p0 := scan.View(), plan.View();
      var scanned := scan.RecomputeDirty(n);
      if !scanned.ScanOk? {
        return ScanFailed(scanned);
      }
      RescanKeeps(state.g, scan.world, s0, scan.View(), p0, plan.View());
      WantedIsPlanned(state.g, s0.outputsReady, p0);
      RescanKeepsPlanned(state.g, scan.world, s0, scan.View(), p0, plan.View());
      DoneStays(state.g, s0, scan.View());
      var e := state.g.InEdge(n);
      if e.Some? && e.value in state.outputsReady {
        return TargetUpToDate;
      }
      ghost var s1, p1 := scan.View(), plan.View();
      ScanServesPlan(state.g, scan.world, s1);
      PlanTargets.AddSubTargetKeeps(state.g, state.outputsReady, p1, n, {}, DoneEdges(s1));
      PlanTargets.MissingIsDirtySource(state.g, p1, n);
      PlanTargets.AddSubTargetPlans(state.g, p1, n, {});
      PlanTargets.AddSubTargetKeepsDirty(state.g, p1, n);
      var missing := plan.AddSubTarget(n);
      assert S.AddSubTarget(state.g, p1, n).s == plan.View();
      if missing.Some? {
        return MissingSource(missing.value);
      }
      return TargetAdded;
    }

    /** The scan has left an order of the edges planned, and nothing runs or was un-wanted. */
    lemma BuildMayBegin()
      requires Planning()
      ensures RankOf(scan.order).Sorts(state.g) && plan.want.Keys <= RankOf(scan.order).rank.Keys
      ensures plan.running == {} && plan.failed == {} && Excused()
    {
      hide Inv, ScanInv, Plan.PoolViews;
      ScanServesPlan(state.g, scan.world, scan.View());
      NothingRunsYet(state.g, state.outputsReady, plan.View());
    }

    /** Start building what was planned. */
    method BeginBuild()
      requires Planning()
      modifies this
      ensures Building() && unchanged(plan, scan, state) && base == state.outputsReady
    {
      hide Graph.Wired, Inv, Plan.PoolViews, Plan.Shape, PlanRestat.Excused, RankOf, ScanInv, Topology.Sorts;
      BuildMayBegin();
      failuresAllowed := allowed;
      pendingCommands, pendingRemote, localEdges, remoteEdges := 0, 0, {}, {};
      base := state.outputsReady;
      topology := RankOf(scan.order);
    }

    /** The outputs that a command with restat left as the scan had found them. */
    function Untouched(result: CommandResult): set<NodeId>
      requires result.edge in state.g.edges
      reads state
    {
      set o | o in state.g.Outputs(result.edge) && state.g.edges[result.edge].restat
              && o in state.mtime && state.mtime[o] == result.TimeOf(o)
    }

    /**
      A command has come back from a runner: account for it in the plan. Exactly the outputs that a command with restat
      left alone are found clean, and further outputs of edges that need not run any more.
     */
    method FinishCommand(result: CommandResult) returns (ok: bool)
      requires Linked() && Inv(state.g, base, plan.View(), {}, {})
      requires topology.Sorts(state.g) && plan.want.Keys <= topology.rank.Keys
      requires result.edge in plan.running && result.edge in state.g.edges && Excused()
      modifies plan, state`dirty, state`outputsReady, plan.pools.Values
      ensures Linked() && Inv(state.g, base, plan.View(), {}, {})
      ensures ok == !result.Spoilt()
      ensures !ok ==> plan.View() == old(plan.View())
      ensures ok ==> Finishes(old(plan.trace), result, plan.trace)
      ensures ok && result.success ==>
        forall o | o in state.g.Outputs(result.edge) && state.g.edges[result.edge].restat
                   && o in state.mtime && state.mtime[o] == result.TimeOf(o) :: o !in state.dirty
      ensures ok && result.success ==>
        forall n | n in old(state.dirty) && n !in state.dirty ::
          || (n in state.g.Outputs(result.edge) && state.g.edges[result.edge].restat
              && n in state.mtime && state.mtime[n] == result.TimeOf(n))
          || (state.g.InEdge(n).Some? && PlanRestat.Unwanted(old(plan.View()), plan.View(), state.g.InEdge(n).value))
      ensures state.dirty <= old(state.dirty)
      ensures !result.success || !state.g.edges[result.edge].restat ==>
        state.dirty == old(state.dirty) && plan.unwanted == old(plan.unwanted)
      ensures ok ==> plan.want.Keys <= topology.rank.Keys && Excused()
      ensures ok ==> plan.running == old(plan.running) - {result.edge}
      ensures ok ==> plan.failed == if result.success then old(plan.failed) else old(plan.failed) + {result.edge}
    {
      hide Inv, Plan.PoolViews, Topology.Sorts, Graph.Wired, PlanRestat.Excused;
      if !result.success {
        FinishFailure(result.edge);
        return true;
      }
      if result.aborted {
        return false;
      }
      var untouched := Untouched(result);
      assert PlanRestat.NodesOf(state.g.Outputs(result.edge)) * untouched == untouched;
      FinishSuccess(result.edge, untouched);
      return true;
    }

    method FinishFailure(e: EdgeId)
      requires Linked() && Inv(state.g, base, plan.View(), {}, {}) && e in plan.running && Excused()
      modifies plan, state`outputsReady, plan.pools.Values
      ensures Linked() && Inv(state.g, base, plan.View(), {}, {}) && plan.want.Keys == old(plan.want.Keys) && Excused()
      ensures plan.running == old(plan.running) - {e} && plan.failed == old(plan.failed) + {e}
      ensures plan.trace == old(plan.trace) + [S.Failed(e)] && plan.unwanted == old(plan.unwanted)
      ensures state.dirty == old(state.dirty)
    {
      hide Inv, Plan.PoolViews, S.EdgeFailed, S.EdgeSucceeded, PlanRestat.Excused;
      ghost var s := plan.View();
      RunningIsScheduled(state.g, base, s, e);
      EdgeFailedKeeps(state.g, base, s, e);
      FailedAdds(state.g, s, e);
      plan.EdgeFinished(e, false);
      assert plan.View() == S.EdgeFailed(state.g, s, e);
    }

    method FinishSuccess(e: EdgeId, untouched: set<NodeId>)
      requires Linked() && Inv(state.g, base, plan.View(), {}, {}) && e in plan.running && Excused()
      requires topology.Sorts(state.g) && plan.want.Keys <= topology.rank.Keys
      modifies plan, state`dirty, state`outputsReady, plan.pools.Values
      ensures Linked() && Inv(state.g, base, plan.View(), {}, {}) && plan.want.Keys <= topology.rank.Keys && Excused()
      ensures plan.running == old(plan.running) - {e} && plan.failed == old(plan.failed)
      ensures OnlyCompletes(old(plan.trace) + [S.Completed(e)], plan.trace)
      ensures var roots := PlanRestat.NodesOf(state.g.Outputs(e)) * untouched;
        && PlanRestat.CleansOnly(state.g, old(plan.View()), plan.View(), roots)
        && (roots == {} ==> state.dirty == old(state.dirty) && plan.unwanted == old(plan.unwanted))
    {
      hide Inv, Plan.PoolViews, S.CommandSucceeded, Topology.Sorts, Graph.Wired, PlanRestat.CleansOnly, PlanRestat.Excused,
        PlanRestat.NodesOf;
      ghost var s := plan.View();
      RunningIsScheduled(state.g, base, s, e);
      CommandSucceededKeeps(state.g, base, topology, s, plan.VerdictsOf(scan.world), e, untouched);
      plan.CommandSucceeded(scan, topology, e, untouched);
    }

    /** What one of the runners may be given. */
    ghost function Queue(onlyRemote: bool): set<EdgeId>
      reads plan
    {
      if onlyRemote then plan.readyRemote else plan.ready
    }

    /** Pop an edge for one of the runners. A phony edge is finished on the spot, any other is handed over. */
    method StartOne(onlyRemote: bool, starts: bool) returns (r: StartResult)
      requires Building() && failuresAllowed > 0
      modifies this, plan, state`outputsReady, plan.pools.Values
      ensures r != CouldNotStart ==> Building()
      ensures Linked() && Inv(state.g, base, plan.View(), {}, {})
      ensures r == NothingToStart <==> old(Queue(onlyRemote)) == {}
      ensures r == NothingToStart ==> unchanged(this) && plan.View() == old(plan.View())
      ensures r != NothingToStart ==>
        OnlyCompletes(old(plan.trace) + [S.Started(MinOf(old(Queue(onlyRemote))), onlyRemote)], plan.trace)
      ensures r == CouldNotStart <==>
        old(Queue(onlyRemote)) != {} && !starts && !state.g.IsPhony(MinOf(old(Queue(onlyRemote))))
      ensures failuresAllowed == old(failuresAllowed) && Budgeted(allowed, failuresAllowed, plan.trace)
      ensures if r == NothingToStart then plan.trace == old(plan.trace) else old(plan.trace) < plan.trace
    {
      hide Budgeted, HandedOut, Inv, OnlyCompletes, RunnersOk, Plan.PoolViews, Plan.Shape, Topology.Sorts,
        PlanRestat.Excused;
      ghost var running, before := plan.running, plan.trace;
      var found := PopOne(onlyRemote);
      if found.None? {
        return NothingToStart;
      }
      ghost var start := S.Started(found.value, onlyRemote);
      CompletesNone(plan.trace);
      assert plan.running - {found.value} == running;
      NoRunnerHas(running, localEdges, remoteEdges, pendingCommands, pendingRemote, found.value);
      if state.g.IsPhony(found.value) {
        FinishPhony(found.value);
        StartKeepsBudget(allowed, failuresAllowed, before, start, plan.trace);
        HandedOutStays(state.g, before, localEdges, remoteEdges, plan.trace, localEdges, remoteEdges);
        return HandedOver;
      }
      StartKeepsBudget(allowed, failuresAllowed, before, start, plan.trace);
      if !starts {
        return CouldNotStart;
      }
      HandedOutOne(state.g, before, localEdges, remoteEdges, found.value, onlyRemote);
      HandOver(onlyRemote, found.value);
      return HandedOver;
    }

    /** Give a popped edge to a runner. */
    method HandOver(toRemote: bool, e: EdgeId)
      requires Linked() && Inv(state.g, base, plan.View(), {}, {}) && e !in localEdges + remoteEdges
      requires RunnersOk(plan.running - {e}, localEdges, remoteEdges, pendingCommands, pendingRemote) && e in plan.running
      modifies this`localEdges, this`remoteEdges, this`pendingCommands, this`pendingRemote
      ensures Linked() && plan.View() == old(plan.View())
      ensures RunnersOk(plan.running, localEdges, remoteEdges, pendingCommands, pendingRemote)
      ensures toRemote ==> localEdges == old(localEdges) && remoteEdges == old(remoteEdges) + {e}
      ensures !toRemote ==> localEdges == old(localEdges) + {e} && remoteEdges == old(remoteEdges)
    {
      hide *;
      RunnerTakes(plan.running, localEdges, remoteEdges, pendingCommands, pendingRemote, e);
      if toRemote {
        remoteEdges := remoteEdges + {e};
        pendingRemote := pendingRemote + 1;
      } else {
        localEdges := localEdges + {e};
        pendingCommands := pendingCommands + 1;
      }
    }

    /** Pop an edge; no runner has it yet. */
    method PopOne(onlyRemote: bool) returns (found: Option<EdgeId>)
      requires Linked() && Inv(state.g, base, plan.View(), {}, {})
      modifies plan
      ensures Linked() && Inv(state.g, base, plan.View(), {}, {})
      ensures plan.want == old(plan.want) && plan.failed == old(plan.failed) && plan.unwanted == old(plan.unwanted)
      ensures found.None? <==> old(Queue(onlyRemote)) == {}
      ensures found.None? ==> plan.View() == old(plan.View())
      ensures found.Some? ==> found.value == MinOf(old(Queue(onlyRemote)))
      ensures found.Some? ==> plan.trace == old(plan.trace) + [S.Started(found.value, onlyRemote)]
      ensures found.Some? ==> plan.running == old(plan.running) + {found.value} && found.value !in old(plan.running)
    {
      hide Inv, Plan.PoolViews, S.FindWork;
      FindWorkKeeps(state.g, base, plan.View(), onlyRemote);
      FindWorkRuns(state.g, base, plan.View(), onlyRemote);
      found := plan.FindWork(onlyRemote);
    }

    /** A phony edge has no command: popping it finishes it. */
    method FinishPhony(e: EdgeId)
      requires Linked() && Inv(state.g, base, plan.View(), {}, {}) && e in plan.running
      modifies plan, state`outputsReady, plan.pools.Values
      ensures Linked() && Inv(state.g, base, plan.View(), {}, {}) && plan.want.Keys <= old(plan.want.Keys)
      ensures plan.running == old(plan.running) - {e} && plan.failed == old(plan.failed)
      ensures plan.unwanted == old(plan.unwanted) && OnlyCompletes(old(plan.trace), plan.trace)
    {
      hide Inv, OnlyCompletes, Plan.PoolViews, S.EdgeSucceeded;
      RunningIsScheduled(state.g, base, plan.View(), e);
      PlanProgress.EdgeSucceededKeeps(state.g, base, plan.View(), e, {});
      CompletesFromHere(plan.trace, e, S.EdgeSucceeded(state.g, plan.View(), e).trace);
      plan.EdgeFinished(e, true);
    }

    /** A runner has finished a command it had. */
    method ReapOne(fromRemote: bool, result: CommandResult) returns (ok: bool)
      requires Building() && result.edge in (if fromRemote then remoteEdges else localEdges)
      modifies this, plan, state`dirty, state`outputsReady, plan.pools.Values
      ensures ok ==> Building()
      ensures Linked() && Inv(state.g, base, plan.View(), {}, {})
      ensures ok == !result.Spoilt()
      ensures if ok then old(plan.trace) < plan.trace else plan.trace == old(plan.trace) && plan.running == old(plan.running)
      ensures ok ==> Finishes(old(plan.trace), result, plan.trace) && plan.running == old(plan.running) - {result.edge}
      ensures Budgeted(allowed, failuresAllowed, plan.trace) && StartsNothing(old(plan.trace), plan.trace)
    {
      hide Budgeted, CommandResult.TimeOf, Finishes, HandedOut, Inv, OnlyCompletes, RunnersOk, StartsNothing,
        Plan.PoolViews, Plan.Shape, Topology.Sorts, PlanRestat.Excused, PlanRestat.Unwanted;
      ghost var before, left, local, remote := plan.trace, failuresAllowed, localEdges, remoteEdges;
      TakeBack(fromRemote, result.edge);
      ok := FinishCommand(result);
      if !ok {
        CompletesNone(before);
        return;
      }
      ReapedWithinBudget(allowed, left, before, result, plan.trace);
      HandedOutStays(state.g, before, local, remote, plan.trace, localEdges, remoteEdges);
      if !result.success && failuresAllowed > 0 {
        failuresAllowed := failuresAllowed - 1;
      }
    }

    lemma RunningIsInGraph(e: EdgeId)
      requires Inv(state.g, base, plan.View(), {}, {}) && e in plan.running
      ensures e in state.g.edges
    {
      hide Inv, Plan.PoolViews;
      RunningIsScheduled(state.g, base, plan.View(), e);
    }

    /** The runner no longer has the edge; the plan has yet to be told. */
    method TakeBack(fromRemote: bool, e: EdgeId)
      requires Linked() && Inv(state.g, base, plan.View(), {}, {}) && e in (if fromRemote then remoteEdges else localEdges)
      requires RunnersOk(plan.running, localEdges, remoteEdges, pendingCommands, pendingRemote)
      modifies this`localEdges, this`remoteEdges, this`pendingCommands, this`pendingRemote
      ensures Linked() && plan.View() == old(plan.View())
      ensures RunnersOk(plan.running - {e}, localEdges, remoteEdges, pendingCommands, pendingRemote)
      ensures localEdges <= old(localEdges) && remoteEdges <= old(remoteEdges)
      ensures e in plan.running && e in state.g.edges
    {
      hide *;
      RunnerReturns(plan.running, localEdges, remoteEdges, pendingCommands, pendingRemote, e);
      RunningIsInGraph(e);
      if fromRemote {
        remoteEdges := remoteEdges - {e};
        pendingRemote := pendingRemote - 1;
      } else {
        localEdges := localEdges - {e};
        pendingCommands := pendingCommands - 1;
      }
    }

    /** The remote runner is offered a command and there is one for it. */
    ghost predicate StartsRemote(turn: Turn)
      reads this, plan
    {
      failuresAllowed > 0 && turn.remoteAccepts && plan.readyRemote != {}
    }

    /** The local runner is offered a command and there is one for it. */
    ghost predicate StartsLocal(turn: Turn)
      reads this, plan
    {
      failuresAllowed > 0 && (turn.localAccepts || localEdges == {}) && plan.ready != {}
    }

    /**
      One turn of the main loop. Whatever the environment does, the exit the program calls a bug is not taken. The
      clauses say when each of the other exits is taken, and what is started: nothing once no failures are left,
      otherwise the first edge of a queue that has one, for the remote runner first.
     */
    method Step(turn: Turn) returns (o: Outcome)
      requires Building()
      modifies this, plan, state`dirty, state`outputsReady, plan.pools.Values
      ensures o == Continue || o == Succeeded || o == SubcommandsFailed || o == CannotMakeProgress ==> Building()
      ensures Linked() && Inv(state.g, base, plan.View(), {}, {}) && Budgeted(allowed, failuresAllowed, plan.trace)
      ensures o != Stuck
      ensures o == Succeeded <==> !old(plan.View().MoreToDo())
      ensures o == SubcommandsFailed <==>
        old(plan.View().MoreToDo() && failuresAllowed == 0 && localEdges == {}) && !Reports(turn.remoteDone, old(remoteEdges))
      ensures o == CannotMakeProgress <==>
        old(plan.View().MoreToDo() && 0 < failuresAllowed < allowed && plan.running == {} && plan.ready == {})
      ensures o == Interrupted <==>
        && old(plan.View().MoreToDo() && !StartsRemote(turn)) && !Reports(turn.remoteDone, old(remoteEdges))
        && old(!StartsLocal(turn) && localEdges != {}) && !Reports(turn.localDone, old(localEdges))
      ensures old(failuresAllowed) == 0 ==>
        StartsNothing(old(plan.trace), plan.trace) && plan.running <= old(plan.running)
      ensures old(plan.View().MoreToDo() && StartsRemote(turn)) ==>
        && OnlyCompletes(old(plan.trace) + [S.Started(MinOf(old(plan.readyRemote)), true)], plan.trace)
        && o == (if turn.remoteStarts || state.g.IsPhony(MinOf(old(plan.readyRemote))) then Continue else StartFailed)
      ensures old(plan.View().MoreToDo() && !StartsRemote(turn)) && Reports(turn.remoteDone, old(remoteEdges)) ==>
        && o == (if turn.remoteDone.value.Spoilt() then FinishFailed else Continue)
        && (o == Continue ==> Finishes(old(plan.trace), turn.remoteDone.value, plan.trace))
      ensures
        old(plan.View().MoreToDo() && !StartsRemote(turn) && StartsLocal(turn)) && !Reports(turn.remoteDone, old(remoteEdges)) ==>
        && OnlyCompletes(old(plan.trace) + [S.Started(MinOf(old(plan.ready)), false)], plan.trace)
        && o == (if turn.localStarts || state.g.IsPhony(MinOf(old(plan.ready))) then Continue else StartFailed)
      ensures
        && old(plan.View().MoreToDo() && !StartsRemote(turn) && !StartsLocal(turn))
        && !Reports(turn.remoteDone, old(remoteEdges)) && Reports(turn.localDone, old(localEdges)) ==>
        && o == (if turn.localDone.value.Spoilt() then FinishFailed else Continue)
        && (o == Continue ==> Finishes(old(plan.trace), turn.localDone.value, plan.trace))
      ensures o == Succeeded || o == SubcommandsFailed || o == CannotMakeProgress || o == Interrupted ==>
        plan.trace == old(plan.trace)
      ensures plan.trace == old(plan.trace) && o != FinishFailed ==>
        plan.View() == old(plan.View()) && failuresAllowed == old(failuresAllowed)
    {
      hide Budgeted, Building, Finishes, Inv, Linked, MinOf, OnlyCompletes, Plan.PoolViews, StartsNothing;
      Standing();
      CompletesNone(plan.trace);
      if !plan.MoreToDo() {
        return Succeeded;
      }
      if failuresAllowed != 0 && turn.remoteAccepts {
        var r := StartOne(true, turn.remoteStarts);
        if r != NothingToStart {
          return if r == HandedOver then Continue else StartFailed;
        }
      }
      if turn.remoteDone.Some? && turn.remoteDone.value.edge in remoteEdges {
        var ok := ReapOne(true, turn.remoteDone.value);
        return if ok then Continue else FinishFailed;
      }
      if failuresAllowed != 0 && (turn.localAccepts || localEdges == {}) {
        var r := StartOne(false, turn.localStarts);
        if r != NothingToStart {
          return if r == HandedOver then Continue else StartFailed;
        }
      }
      if pendingCommands != 0 {
        if turn.localDone.None? || turn.localDone.value.edge !in localEdges {
          return Interrupted;
        }
        var ok := ReapOne(false, turn.localDone.value);
        return if ok then Continue else FinishFailed;
      }
      if failuresAllowed != 0 && pendingRemote != 0 {
        return Continue;
      }
      if failuresAllowed == 0 {
        return SubcommandsFailed;
      }
      if failuresAllowed < allowed {
        return CannotMakeProgress;
      }
      NotStuck();
      return Stuck;
    }

    /** The counts of pending commands, and what can be started remotely can be started locally. */
    lemma Standing()
      requires Building()
      ensures (pendingCommands != 0 <==> localEdges != {}) && (pendingRemote != 0 <==> remoteEdges != {})
      ensures plan.running == localEdges + remoteEdges && plan.readyRemote <= plan.ready && failuresAllowed <= allowed
      ensures Linked() && Inv(state.g, base, plan.View(), {}, {}) && Budgeted(allowed, failuresAllowed, plan.trace)
    {
      hide Budgeted, HandedOut, Inv, Plan.PoolViews, Plan.Shape, Topology.Sorts, Graph.Wired, PlanRestat.Excused;
      RemoteIsReady(state.g, base, plan.View());
    }

    /** As long as nothing failed, there is something to start or to wait for. */
    lemma NotStuck()
      requires Building() && plan.MoreToDo() && plan.running == {} && failuresAllowed == allowed > 0
      ensures plan.ready != {}
    {
      hide Budgeted, HandedOut, Inv, RunnersOk, Plan.PoolViews, Plan.Shape, Topology.Sorts, PlanRestat.Excused;
      PlanProgress.NeverStuck(state.g, base, plan.View(), topology);
    }

    /**
      Any run of the main loop, for any behaviour of the runners over any number of turns. It never gets stuck,
      events always come in a legal order, and a successful build has run every command it ever wanted, except
      those restat showed unnecessary.
     */
    method Build(turns: seq<Turn>) returns (o: Outcome)
      requires Planning()
      modifies this, plan, state`dirty, state`outputsReady, plan.pools.Values
      ensures o != Stuck && LegalTrace(state.g, base, plan.trace) && WithinBudget(allowed, plan.trace)
      ensures o == SubcommandsFailed ==> Failures(plan.trace) >= allowed
      ensures o == CannotMakeProgress ==> 0 < Failures(plan.trace) < allowed
      ensures o == Continue || o == Succeeded || o == SubcommandsFailed || o == CannotMakeProgress ==> Building()
      ensures o == Succeeded ==> forall e | e in plan.everWanted && !state.g.IsPhony(e) ::
                || (e in plan.finished && e in state.outputsReady && e in StartedIn(plan.trace))
                || PlanRestat.Unneeded(state.g, Verdicts(), state.dirty, e)
    {
      hide Budgeted, Building, Finishes, Inv, LegalTrace, Linked, OnlyCompletes, StartsNothing, Plan.PoolViews, StartsLocal,
        StartsRemote, PlanRestat.Unneeded;
      BeginBuild();
      Standing();
      o := Continue;
      for k := 0 to |turns|
        invariant o == Continue && Building()
        invariant Linked() && Inv(state.g, base, plan.View(), {}, {}) && Budgeted(allowed, failuresAllowed, plan.trace)
      {
        o := Step(turns[k]);
        if o != Continue {
          break;
        }
      }
      InvHasLegalTrace(state.g, base, plan.View());
      BudgetMeans(allowed, failuresAllowed, plan.trace);
      if o == Succeeded {
        AllDone();
      }
    }

    /** What a build with nothing more to do has done. */
    lemma AllDone()
      requires Building() && !plan.MoreToDo()
      ensures forall e | e in plan.everWanted && !state.g.IsPhony(e) ::
                || (e in plan.finished && e in state.outputsReady && e in StartedIn(plan.trace))
                || PlanRestat.Unneeded(state.g, Verdicts(), state.dirty, e)
    {
      hide Budgeted, HandedOut, Inv, RunnersOk, Plan.PoolViews, Plan.Shape, Topology.Sorts, PlanRestat.Unneeded;
      forall e | e in plan.everWanted && !state.g.IsPhony(e)
        ensures (e in plan.finished && e in state.outputsReady && e in StartedIn(plan.trace))
             || PlanRestat.Unneeded(state.g, Verdicts(), state.dirty, e)
      {
        PlanProgress.NothingMoreToDo(state.g, base, plan.View(), e);
      }
    }
  }

  /** Each running edge is with one runner, and the pending counts are right. */
  ghost predicate RunnersOk(running: set<EdgeId>, local: set<EdgeId>, remote: set<EdgeId>, pendingCommands: int,
                            pendingRemote: int) {
    && running == local + remote && local !! remote
    && pendingCommands == |local| && pendingRemote == |remote|
  }

  lemma NoRunnerHas(running: set<EdgeId>, local: set<EdgeId>, remote: set<EdgeId>, pendingCommands: int,
                    pendingRemote: int, e: EdgeId)
    requires RunnersOk(running, local, remote, pendingCommands, pendingRemote) && e !in running
    ensures e !in local + remote
  {
  }

  lemma RunnerTakes(running: set<EdgeId>, local: set<EdgeId>, remote: set<EdgeId>, pendingCommands: int,
                    pendingRemote: int, e: EdgeId)
    requires RunnersOk(running - {e}, local, remote, pendingCommands, pendingRemote) && e in running
    ensures RunnersOk(running, local + {e}, remote, pendingCommands + 1, pendingRemote)
    ensures RunnersOk(running, local, remote + {e}, pendingCommands, pendingRemote + 1)
  {
  }

  lemma RunnerReturns(running: set<EdgeId>, local: set<EdgeId>, remote: set<EdgeId>, pendingCommands: int,
                      pendingRemote: int, e: EdgeId)
    requires RunnersOk(running, local, remote, pendingCommands, pendingRemote)
    ensures e in local ==> RunnersOk(running - {e}, local - {e}, remote, pendingCommands - 1, pendingRemote)
    ensures e in remote ==> RunnersOk(running - {e}, local, remote - {e}, pendingCommands, pendingRemote - 1)
    ensures e in local || e in remote ==> e in running
  {
  }

  /** What a command that came back adds to the history. */
  ghost predicate Finishes(before: seq<S.Event>, result: CommandResult, after: seq<S.Event>) {
    if result.success then OnlyCompletes(before + [S.Completed(result.edge)], after) else after == before + [S.Failed(result.edge)]
  }

  /** A command that came back starts nothing, and counts if it failed. */
  lemma ReapedWithinBudget(allowed: nat, left: nat, before: seq<S.Event>, result: CommandResult, after: seq<S.Event>)
    requires Budgeted(allowed, left, before) && Finishes(before, result, after)
    ensures Budgeted(allowed, if result.success || left == 0 then left else left - 1, after)
    ensures StartsNothing(before, after) && before < after
  {
    hide Failures, WithinBudget;
    if result.success {
      CompletesFromHere(before, result.edge, after);
      CompletesKeepBudget(allowed, before, after);
    } else {
      FailureKeepsBudget(allowed, left, before, S.Failed(result.edge));
    }
  }

  /** A runner reports a command that it has. */
  ghost predicate Reports(done: Option<CommandResult>, has: set<EdgeId>) {
    done.Some? && done.value.edge in has
  }

  lemma RemoteIsReady(g: Graph, base: set<EdgeId>, s: S.PlanState)
    requires Inv(g, base, s, {}, {})
    ensures s.readyRemote <= s.ready
  {
    hide CountersOk, PoolsOk, DepsOk, TraceOk;
  }

  datatype StartResult = NothingToStart | HandedOver | CouldNotStart

  lemma FindWorkRuns(g: Graph, base: set<EdgeId>, s: S.PlanState, onlyRemote: bool)
    requires Inv(g, base, s, {}, {})
    ensures var (r, found) := S.FindWork(s, onlyRemote);
      && r.want == s.want && r.failed == s.failed && r.unwanted == s.unwanted
      && (found.None? <==> (if onlyRemote then s.readyRemote else s.ready) == {})
      && (found.None? ==> r == s)
      && (found.Some? ==> found.value == MinOf(if onlyRemote then s.readyRemote else s.ready))
      && (found.Some? ==> r.trace == s.trace + [S.Started(found.value, onlyRemote)])
      && (found.Some? ==> r.running == s.running + {found.value} && found.value !in s.running)
  {
    hide CountersOk, PoolsOk, DepsOk, TraceOk;
  }

  lemma InvHasLegalTrace(g: Graph, base: set<EdgeId>, s: S.PlanState)
    requires Inv(g, base, s, {}, {})
    ensures LegalTrace(g, base, s.trace)
  {
    hide CountersOk, QueuesOk, PoolsOk, DepsOk, LegalTrace;
  }

  lemma DoneStays(g: Graph, s: ScanState, r: ScanState)
    requires Grown(g, s, r)
    ensures DoneEdges(s) <= DoneEdges(r)
  {
  }

  lemma NothingRunsYet(g: Graph, base: set<EdgeId>, s: S.PlanState)
    requires Inv(g, base, s, {}, {}) && s.trace == []
    ensures s.running == {} && s.failed == {}
  {
    hide CountersOk, QueuesOk, PoolsOk, DepsOk;
    assert StartedIn([]) == {};
  }

  lemma FailedAdds(g: Graph, s: S.PlanState, e: EdgeId)
    requires e in s.want
    ensures var r := S.EdgeFailed(g, s, e);
      && r.failed == s.failed + {e} && r.want == s.want && r.dirty == s.dirty && r.unwanted == s.unwanted
      && r.trace == s.trace + [S.Failed(e)]
  {
  }

  lemma EmptyPoolViews(plan: Plan)
    requires forall p | p in plan.pools ::
      plan.pools[p].View() == PoolState(plan.pools[p].depth, 0, {}) && plan.pools[p].depth >= 0
    ensures forall p | p in plan.PoolViews() ::
              Sane(plan.PoolViews()[p]) && plan.PoolViews()[p].use == 0 && plan.PoolViews()[p].delayed == {}
  {
  }

  lemma EmptyScanInv(g: Graph, w: World, s: ScanState)
    requires s == ScanState(map[], {}, {}, map[], [], [])
    ensures ScanInv(g, w, s)
  {
  }

  lemma EmptyPlanInv(g: Graph, s: S.PlanState)
    requires s == S.PlanState(map[], {}, {}, 0, 0, 0, {}, {}, s.pools, {}, {}, {}, {}, {}, {}, [])
    requires forall p | p in s.pools :: Sane(s.pools[p]) && s.pools[p].use == 0 && s.pools[p].delayed == {}
    ensures Inv(g, {}, s, {}, {})
  {
    assert Wanted(s.want) == {} && Scheduled(s.want) == {};
    assert NonPhony(g, {}) == {} && S.RemoteOnes(g, {}) == {};
    assert Delayed(s.pools) == {};
    forall p | p in s.pools ensures PoolOk(g, p, s.pools[p], {}) {
      assert InPool(g, {}, p) == {};
    }
  }
}
