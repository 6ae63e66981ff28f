/**
  The invariant of the build plan, and the proof that each primitive step keeps it.

  `pending` is the set of edges whose readiness has yet to be re-examined while a completion is being
  propagated, `open` the set of edges whose inputs are still being entered while a target is being added.
  Between operations both are empty.
 */
module PlanInvariant {
  import opened BuildGraph
  import opened Pools
  import opened PlanSpec

  ghost function Wanted(want: map<EdgeId, Want>): set<EdgeId> {
    set e | e in want && want[e] != WantNothing
  }

  ghost function NonPhony(g: Graph, es: set<EdgeId>): set<EdgeId> {
    set e | e in es && !g.IsPhony(e)
  }

  ghost function Scheduled(want: map<EdgeId, Want>): set<EdgeId> {
    set e | e in want && want[e] == WantToFinish
  }

  /** The edges waiting in some pool. */
  ghost function Delayed(pools: map<PoolId, PoolState>): set<EdgeId> {
    set p, e | p in pools && e in pools[p].delayed :: e
  }

  ghost function InPool(g: Graph, es: set<EdgeId>, p: PoolId): set<EdgeId> {
    set e | e in es && g.PoolOf(e) == p
  }

  /** The counters count what their names say. */
  ghost predicate CountersOk(g: Graph, s: PlanState) {
    && Counts(g, s.wantedEdges, s.commandEdges, s.remoteEdges, Wanted(s.want), s.finished)
    && s.finished <= s.outputsReady
    && s.everWanted == Wanted(s.want) + s.finished + s.unwanted
  }

  ghost predicate Counts(g: Graph, wantedEdges: int, commandEdges: int, remoteEdges: int, wanted: set<EdgeId>,
                         finished: set<EdgeId>) {
    && wantedEdges == |wanted|
    && commandEdges == |NonPhony(g, wanted + finished)|
    && remoteEdges == |RemoteOnes(g, wanted + finished)|
  }

  /** Every delayed edge waits in its own pool. */
  ghost predicate Owned(g: Graph, pools: map<PoolId, PoolState>) {
    forall p, e | p in pools && e in pools[p].delayed :: g.PoolOf(e) == p
  }

  /** The scheduled edges are exactly the ready, running, failed and delayed ones, each in one place only. */
  ghost predicate Partition(scheduled: set<EdgeId>, ready: set<EdgeId>, running: set<EdgeId>, failed: set<EdgeId>,
                            delayed: set<EdgeId>) {
    && scheduled == ready + running + failed + delayed
    && ready !! running !! failed !! delayed
  }

  ghost predicate QueuesOk(g: Graph, s: PlanState) {
    && Partition(Scheduled(s.want), s.ready, s.running, s.failed, Delayed(s.pools))
    && Owned(g, s.pools)
    && RemoteQueueOk(g, s.ready, s.readyRemote, s.released)
    && ReleasedOk(s.want, s.outputsReady, s.ready + s.running + s.failed, s.released)
  }

  /**
    The remote runner chooses among the ready edges it can take, except those that a finishing edge let out of their
    pool: these are left to the local runner.
   */
  ghost predicate RemoteQueueOk(g: Graph, ready: set<EdgeId>, readyRemote: set<EdgeId>, released: set<EdgeId>) {
    readyRemote == RemoteOnes(g, ready) - released
  }

  /** An edge that was let out of its pool is ready, running, failed or done. */
  ghost predicate ReleasedOk(want: map<EdgeId, Want>, done: set<EdgeId>, places: set<EdgeId>, released: set<EdgeId>) {
    forall e | e in released :: if e in want then e in places else e in done
  }

  ghost predicate PoolOk(g: Graph, p: PoolId, ps: PoolState, busy: set<EdgeId>) {
    && Sane(ps)
    && (ps.depth != 0 ==> ps.use == |InPool(g, busy, p)|)
    && (ps.delayed != {} ==> ps.use == ps.depth)
  }

  /** A limited pool counts exactly its ready and running edges, and delays edges only while full. */
  ghost predicate PoolsOk(g: Graph, pools: map<PoolId, PoolState>, busy: set<EdgeId>) {
    forall p | p in pools :: PoolOk(g, p, pools[p], busy)
  }

  /** The three facts that keep a plan from getting stuck. `done` is the set of edges with outputs ready. */
  ghost predicate DepsOk(g: Graph, want: map<EdgeId, Want>, done: set<EdgeId>, pending: set<EdgeId>,
                         open: set<EdgeId>) {
    && want.Keys !! done
    && want.Keys <= g.edges.Keys
    && (forall e, d | e in want && e !in open && g.Feeds(d, e) && d !in done :: d in want)
    && (forall e | e in want && want[e] != WantToFinish && e !in pending :: !g.AllInputsReady(done, e))
    && (forall e | e in want && want[e] == WantToFinish :: g.AllInputsReady(done, e))
  }

  ghost function StartedIn(tr: seq<Event>): set<EdgeId> {
    set k | 0 <= k < |tr| && tr[k].Started? :: tr[k].edge
  }

  ghost function CompletedIn(tr: seq<Event>): set<EdgeId> {
    set k | 0 <= k < |tr| && tr[k].Completed? :: tr[k].edge
  }

  /**
    The order of events is legal: an edge starts at most once and completes at most once, and both happen
    only after everything that feeds it was ready at the outset (`base`) or has completed.
   */
  ghost predicate LegalTrace(g: Graph, base: set<EdgeId>, tr: seq<Event>) {
    && InputsFirst(g, base, tr)
    && NoRepeats(tr)
    && (forall k | 0 <= k < |tr| && tr[k].Completed? :: tr[k].edge !in base)
    && (forall k | 0 <= k < |tr| && tr[k].Started? && tr[k].remotely :: g.IsRemote(tr[k].edge))
  }

  ghost predicate InputsFirst(g: Graph, base: set<EdgeId>, tr: seq<Event>) {
    forall k | 0 <= k < |tr| && !tr[k].Failed? :: g.AllInputsReady(base + CompletedIn(tr[..k]), tr[k].edge)
  }

  /** Nothing happens twice, nothing starts after it completed, and a failed edge neither starts nor completes again. */
  ghost predicate NoRepeats(tr: seq<Event>) {
    forall j, k | 0 <= j < k < |tr| && tr[j].edge == tr[k].edge :: MayFollow(tr[j], tr[k])
  }

  /** Whether `after` may follow `before` for the same edge. */
  ghost predicate MayFollow(before: Event, after: Event) {
    match before
    case Started(_, _) => !after.Started?
    case Completed(_) => after.Failed?
    case Failed(_) => after.Failed?
  }

  ghost function FailedIn(tr: seq<Event>): set<EdgeId> {
    set k | 0 <= k < |tr| && tr[k].Failed? :: tr[k].edge
  }

  ghost predicate TraceOk(g: Graph, base: set<EdgeId>, s: PlanState) {
    && LegalTrace(g, base, s.trace)
    && HistoryOk(base, s.trace, s.outputsReady, s.running, s.failed, s.finished)
  }

  /** The sets of edges agree with what happened. */
  ghost predicate HistoryOk(base: set<EdgeId>, tr: seq<Event>, done: set<EdgeId>, running: set<EdgeId>,
                            failed: set<EdgeId>, finished: set<EdgeId>) {
    && done == base + CompletedIn(tr)
    && StartedIn(tr) == running + failed + finished
    && FailedIn(tr) == failed
  }

  ghost predicate Inv(g: Graph, base: set<EdgeId>, s: PlanState, pending: set<EdgeId>, open: set<EdgeId>) {
    && CountersOk(g, s)
    && QueuesOk(g, s)
    && PoolsOk(g, s.pools, s.ready + s.running)
    && DepsOk(g, s.want, s.outputsReady, pending, open)
    && TraceOk(g, base, s)
  }

  // ----- small facts -----

  lemma ExtendTrace(tr: seq<Event>, ev: Event)
    ensures StartedIn(tr + [ev]) == StartedIn(tr) + (if ev.Started? then {ev.edge} else {})
    ensures CompletedIn(tr + [ev]) == CompletedIn(tr) + (if ev.Completed? then {ev.edge} else {})
    ensures FailedIn(tr + [ev]) == FailedIn(tr) + (if ev.Failed? then {ev.edge} else {})
  {
    var tr' := tr + [ev];
    assert tr'[|tr|] == ev;
    assert forall k | 0 <= k < |tr| :: tr'[k] == tr[k];
    forall e | e in StartedIn(tr) ensures e in StartedIn(tr') {
      var k :| 0 <= k < |tr| && tr[k].Started? && tr[k].edge == e;
      assert tr'[k].edge == e;
    }
    forall e | e in CompletedIn(tr) ensures e in CompletedIn(tr') {
      var k :| 0 <= k < |tr| && tr[k].Completed? && tr[k].edge == e;
      assert tr'[k].edge == e;
    }
    forall e | e in FailedIn(tr) ensures e in FailedIn(tr') {
      var k :| 0 <= k < |tr| && tr[k].Failed? && tr[k].edge == e;
      assert tr'[k].edge == e;
    }
  }

  /** What it takes for one more event to be legal. */
  lemma LegalTraceExtends(g: Graph, base: set<EdgeId>, tr: seq<Event>, ev: Event)
    requires LegalTrace(g, base, tr)
    requires !ev.Failed? ==> g.AllInputsReady(base + CompletedIn(tr), ev.edge) && ev.edge !in FailedIn(tr)
    requires ev.Started? ==> ev.edge !in StartedIn(tr) && ev.edge !in CompletedIn(tr)
    requires ev.Started? && ev.remotely ==> g.IsRemote(ev.edge)
    requires ev.Completed? ==> ev.edge !in base && ev.edge !in CompletedIn(tr)
    ensures LegalTrace(g, base, tr + [ev])
  {
    var tr' := tr + [ev];
    InputsFirstExtends(g, base, tr, ev);
    NoRepeatsExtends(tr, ev);
    assert forall k | 0 <= k < |tr| :: tr'[k] == tr[k];
    assert tr'[|tr|] == ev;
  }

  lemma InputsFirstExtends(g: Graph, base: set<EdgeId>, tr: seq<Event>, ev: Event)
    requires InputsFirst(g, base, tr)
    requires !ev.Failed? ==> g.AllInputsReady(base + CompletedIn(tr), ev.edge)
    ensures InputsFirst(g, base, tr + [ev])
  {
    hide Graph.AllInputsReady, CompletedIn;
    var tr' := tr + [ev];
    assert forall k | 0 <= k < |tr| :: tr'[k] == tr[k] && tr'[..k] == tr[..k];
    assert tr'[|tr|] == ev && tr'[..|tr|] == tr;
  }

  lemma NoRepeatsExtends(tr: seq<Event>, ev: Event)
    requires NoRepeats(tr)
    requires !ev.Failed? ==> ev.edge !in FailedIn(tr)
    requires ev.Started? ==> ev.edge !in StartedIn(tr) && ev.edge !in CompletedIn(tr)
    requires ev.Completed? ==> ev.edge !in CompletedIn(tr)
    ensures NoRepeats(tr + [ev])
  {
    var tr' := tr + [ev];
    forall j, k | 0 <= j < k < |tr'| && tr'[j].edge == tr'[k].edge ensures MayFollow(tr'[j], tr'[k]) {
      assert tr'[j] == tr[j];
      if k < |tr| {
        assert tr'[k] == tr[k];
      } else {
        assert tr[j].Started? ==> tr[j].edge in StartedIn(tr);
        assert tr[j].Completed? ==> tr[j].edge in CompletedIn(tr);
        assert tr[j].Failed? ==> tr[j].edge in FailedIn(tr);
      }
    }
  }

  lemma ReadyIsMonotone(g: Graph, done: set<EdgeId>, done': set<EdgeId>, e: EdgeId)
    requires done <= done' && g.AllInputsReady(done, e)
    ensures g.AllInputsReady(done', e)
  {
    forall i | i in g.Inputs(e) ensures g.NodeReady(done', i) {
      assert g.NodeReady(done, i);
    }
  }

  // ----- Pools -----

  /** Replacing one pool's waiting set changes the overall waiting set accordingly. */
  lemma DelayedUpdate(g: Graph, pools: map<PoolId, PoolState>, id: PoolId, q: PoolState)
    requires Owned(g, pools)
    requires forall e | e in q.delayed :: g.PoolOf(e) == id
    ensures Owned(g, pools[id := q])
    ensures Delayed(pools[id := q]) == q.delayed + (Delayed(pools) - (if id in pools then pools[id].delayed else {}))
  {
    var pools' := pools[id := q];
    forall e | e in Delayed(pools')
      ensures e in q.delayed + (Delayed(pools) - (if id in pools then pools[id].delayed else {}))
    {
      var p :| p in pools' && e in pools'[p].delayed;
      if p != id {
        assert p in pools && e in pools[p].delayed && g.PoolOf(e) == p;
        assert e in Delayed(pools);
      }
    }
    forall e | e in q.delayed + (Delayed(pools) - (if id in pools then pools[id].delayed else {}))
      ensures e in Delayed(pools')
    {
      if e in q.delayed {
        assert id in pools' && e in pools'[id].delayed;
      } else {
        var p :| p in pools && e in pools[p].delayed;
        assert p in pools' && e in pools'[p].delayed;
      }
    }
  }

  /** Edges of one pool joining or leaving do not concern the other pools. */
  lemma OtherPoolsOk(g: Graph, pools: map<PoolId, PoolState>, busy: set<EdgeId>, busy': set<EdgeId>, id: PoolId)
    requires forall p | p in pools && p != id :: PoolOk(g, p, pools[p], busy)
    requires forall e | e in busy && e !in busy' :: g.PoolOf(e) == id
    requires forall e | e in busy' && e !in busy :: g.PoolOf(e) == id
    ensures forall p | p in pools && p != id :: PoolOk(g, p, pools[p], busy')
  {
    forall p | p in pools && p != id ensures PoolOk(g, p, pools[p], busy') {
      assert PoolOk(g, p, pools[p], busy);
      assert InPool(g, busy, p) == InPool(g, busy', p);
    }
  }

  lemma OwnPoolOk(g: Graph, busy: set<EdgeId>, id: PoolId, p: PoolState, q: PoolState, got: set<EdgeId>)
    requires p.depth != 0 ==> p.use == |InPool(g, busy, id)|
    requires forall e | e in got :: g.PoolOf(e) == id
    requires busy !! got
    requires Sane(q) && q.depth == p.depth && q.use == p.use + |got| && (q.delayed != {} ==> q.use == q.depth)
    ensures PoolOk(g, id, q, busy + got)
  {
    assert InPool(g, busy + got, id) == InPool(g, busy, id) + got;
  }

  /**
    Handing out the free slots of pool `p` keeps the accounting of all pools right; the edges handed
    out are added to the busy ones.
   */
  lemma RetrieveKeepsPools(g: Graph, pools: map<PoolId, PoolState>, busy: set<EdgeId>, id: PoolId, p: PoolState)
    requires forall i | i in pools && i != id :: PoolOk(g, i, pools[i], busy)
    requires Sane(p) && (p.depth != 0 ==> p.use == |InPool(g, busy, id)|)
    requires forall e | e in p.delayed :: g.PoolOf(e) == id
    requires busy !! p.delayed
    ensures var (q, got) := RetrieveReady(p);
      && PoolsOk(g, pools[id := q], busy + got)
      && got <= p.delayed && q.delayed == p.delayed - got
  {
    RetrieveReadyConserves(p);
    var (q, got) := RetrieveReady(p);
    OwnPoolOk(g, busy, id, p, q, got);
    OtherPoolsOk(g, pools, busy, busy + got, id);
  }

  // ----- ScheduleWork -----

  /** A new edge enters its limited pool, and whatever fits leaves it. */
  lemma DelayKeepsPlaces(g: Graph, s: PlanState, e: EdgeId)
    requires Owned(g, s.pools) && PoolsOk(g, s.pools, s.ready + s.running) && s.PoolAt(g.PoolOf(e)).depth != 0
    requires Partition(Scheduled(s.want), s.ready, s.running, s.failed, Delayed(s.pools))
    requires e !in Scheduled(s.want)
    ensures var id := g.PoolOf(e);
      var p := s.PoolAt(id);
      var (q, got) := RetrieveReady(p.(delayed := p.delayed + {e}));
      var pools' := s.pools[id := q];
      && PoolsOk(g, pools', s.ready + got + s.running)
      && Owned(g, pools')
      && Partition(Scheduled(s.want) + {e}, s.ready + got, s.running, s.failed, Delayed(pools'))
  {
    var id := g.PoolOf(e);
    var p := s.PoolAt(id);
    var p1 := p.(delayed := p.delayed + {e});
    var (q, got) := RetrieveReady(p1);
    assert s.ready + got + s.running == s.ready + s.running + got;
    assert Sane(p1) by { assert PoolOk(g, id, p, s.ready + s.running); }
    RetrieveReadyConserves(p1);
    DelayKeepsPools(g, s, e);
    DelayKeepsWaiting(g, s.pools, id, p.delayed + {e}, got, q);
    DelayKeepsPartition(Scheduled(s.want), s.ready, s.running, s.failed, Delayed(s.pools), e, p.delayed, got);
  }

  lemma DelayKeepsPools(g: Graph, s: PlanState, e: EdgeId)
    requires Owned(g, s.pools) && PoolsOk(g, s.pools, s.ready + s.running) && s.PoolAt(g.PoolOf(e)).depth != 0
    requires s.ready + s.running !! Delayed(s.pools)
    requires e !in s.ready + s.running
    ensures var id := g.PoolOf(e);
      var p := s.PoolAt(id);
      var (q, got) := RetrieveReady(p.(delayed := p.delayed + {e}));
      PoolsOk(g, s.pools[id := q], s.ready + s.running + got)
  {
    var id := g.PoolOf(e);
    var p := s.PoolAt(id);
    assert PoolOk(g, id, p, s.ready + s.running);
    assert forall x | x in p.delayed :: x in Delayed(s.pools);
    RetrieveKeepsPools(g, s.pools, s.ready + s.running, id, p.(delayed := p.delayed + {e}));
  }

  /** The waiting edges after pool `id`, whose waiting set is to be `waiting`, has let some of them go. */
  lemma DelayKeepsWaiting(g: Graph, pools: map<PoolId, PoolState>, id: PoolId, waiting: set<EdgeId>, got: set<EdgeId>,
                          q: PoolState)
    requires Owned(g, pools) && q.delayed == waiting - got
    requires forall x | x in waiting :: g.PoolOf(x) == id
    ensures Owned(g, pools[id := q])
    ensures var old_ := if id in pools then pools[id].delayed else {};
      Delayed(pools[id := q]) == (waiting - got) + (Delayed(pools) - old_) && old_ <= Delayed(pools)
  {
    DelayedUpdate(g, pools, id, q);
  }

  lemma DelayKeepsPartition(scheduled: set<EdgeId>, ready: set<EdgeId>, running: set<EdgeId>, failed: set<EdgeId>,
                            delayed: set<EdgeId>, e: EdgeId, waiting: set<EdgeId>, got: set<EdgeId>)
    requires Partition(scheduled, ready, running, failed, delayed)
    requires e !in scheduled && waiting <= delayed && got <= waiting + {e}
    ensures Partition(scheduled + {e}, ready + got, running, failed, (waiting + {e} - got) + (delayed - waiting))
  {
  }

  lemma ReleaseKeepsPartition(scheduled: set<EdgeId>, ready: set<EdgeId>, running: set<EdgeId>, failed: set<EdgeId>,
                              delayed: set<EdgeId>, e: EdgeId, waiting: set<EdgeId>, got: set<EdgeId>)
    requires Partition(scheduled, ready, running, failed, delayed)
    requires e in scheduled ==> e in running
    requires waiting <= delayed && got <= waiting
    ensures Partition(scheduled - {e}, ready + got, running - {e}, failed, (waiting - got) + (delayed - waiting))
  {
  }

  /** A new edge of an unlimited pool is ready at once. */
  lemma AdmitKeepsPlaces(g: Graph, s: PlanState, e: EdgeId)
    requires Owned(g, s.pools) && PoolsOk(g, s.pools, s.ready + s.running) && s.PoolAt(g.PoolOf(e)).depth == 0
    requires Partition(Scheduled(s.want), s.ready, s.running, s.failed, Delayed(s.pools))
    requires e !in Scheduled(s.want)
    ensures var id := g.PoolOf(e);
      var pools' := s.pools[id := s.PoolAt(id)];
      && PoolsOk(g, pools', s.ready + {e} + s.running)
      && Owned(g, pools')
      && Partition(Scheduled(s.want) + {e}, s.ready + {e}, s.running, s.failed, Delayed(pools'))
  {
    hide Owned, Partition, PlanState.PoolAt;
    var id := g.PoolOf(e);
    var p := s.PoolAt(id);
    var busy := s.ready + s.running;
    UnlimitedPool(g, s, id);
    DelayedUpdate(g, s.pools, id, p);
    assert s.ready + {e} + s.running == busy + {e};
    assert forall i | i in s.pools && i != id :: PoolOk(g, i, s.pools[i], busy);
    OtherPoolsOk(g, s.pools, busy, busy + {e}, id);
    assert PoolsOk(g, s.pools[id := p], busy + {e});
    AdmitKeepsPartition(Scheduled(s.want), s.ready, s.running, s.failed, Delayed(s.pools), e);
  }

  /** An unlimited pool delays nothing. */
  lemma UnlimitedPool(g: Graph, s: PlanState, id: PoolId)
    requires PoolsOk(g, s.pools, s.ready + s.running) && s.PoolAt(id).depth == 0
    ensures s.PoolAt(id) == PoolState(0, 0, {}) && (id in s.pools ==> s.pools[id] == s.PoolAt(id))
    ensures Sane(s.PoolAt(id))
  {
    hide InPool;
    assert id in s.pools ==> PoolOk(g, id, s.pools[id], s.ready + s.running);
  }

  lemma AdmitKeepsPartition(scheduled: set<EdgeId>, ready: set<EdgeId>, running: set<EdgeId>, failed: set<EdgeId>,
                            delayed: set<EdgeId>, e: EdgeId)
    requires Partition(scheduled, ready, running, failed, delayed) && e !in scheduled
    ensures Partition(scheduled + {e}, ready + {e}, running, failed, {} + (delayed - {}))
  {
  }

  /** What scheduling touches. */
  lemma ScheduleFrame(g: Graph, s: PlanState, e: EdgeId)
    requires e in s.want
    ensures var r := ScheduleWork(g, s, e);
      && r.want == s.want[e := WantToFinish]
      && r == s.(want := r.want, ready := r.ready, readyRemote := r.readyRemote, pools := r.pools)
  {
  }

  /** What scheduling makes ready: some of the edges that wait in the pool, and perhaps the edge itself. */
  lemma AdmittedFrom(g: Graph, s: PlanState, e: EdgeId)
    requires e in s.want && s.want[e] != WantToFinish && PoolsOk(g, s.pools, s.ready + s.running)
    ensures var got := Admit(s.PoolAt(g.PoolOf(e)), e).1;
      && ScheduleWork(g, s, e).ready == s.ready + got
      && got <= Delayed(s.pools) + {e}
  {
    var p := s.PoolAt(g.PoolOf(e));
    assert g.PoolOf(e) in s.pools ==> PoolOk(g, g.PoolOf(e), p, s.ready + s.running);
    assert forall x | x in p.delayed :: x in Delayed(s.pools);
    if p.depth != 0 {
      RetrieveReadyConserves(p.(delayed := p.delayed + {e}));
    }
  }

  /** An edge that is delayed or not yet scheduled was not let out of a pool. */
  lemma NotReleased(g: Graph, s: PlanState, e: EdgeId)
    requires QueuesOk(g, s) && e in s.want && (s.want[e] != WantToFinish || e in Delayed(s.pools))
    ensures e !in s.released && e !in s.ready + s.running + s.failed
  {
    assert e in Scheduled(s.want) <==> s.want[e] == WantToFinish;
  }

  lemma ScheduleKeepsRemote(g: Graph, s: PlanState, e: EdgeId)
    requires e in s.want && QueuesOk(g, s) && PoolsOk(g, s.pools, s.ready + s.running)
    ensures var r := ScheduleWork(g, s, e);
      && RemoteQueueOk(g, r.ready, r.readyRemote, r.released)
      && ReleasedOk(r.want, r.outputsReady, r.ready + r.running + r.failed, r.released)
  {
    hide Admit, Owned, PoolsOk;
    ScheduleFrame(g, s, e);
    if s.want[e] != WantToFinish {
      AdmittedFrom(g, s, e);
      var got := Admit(s.PoolAt(g.PoolOf(e)), e).1;
      forall x | x in got ensures x !in s.released {
        assert x in s.want by { assert x == e || x in Scheduled(s.want); }
        NotReleased(g, s, x);
      }
      assert RemoteOnes(g, s.ready + got) == RemoteOnes(g, s.ready) + RemoteOnes(g, got);
    }
  }

  /** The remote runner is offered every remote edge that scheduling makes ready, and loses none. */
  lemma ScheduleOffersRemote(g: Graph, s: PlanState, e: EdgeId)
    requires e in s.want && QueuesOk(g, s) && PoolsOk(g, s.pools, s.ready + s.running)
    ensures var r := ScheduleWork(g, s, e);
      && s.ready <= r.ready && s.readyRemote <= r.readyRemote
      && (forall x | x in r.ready && x !in s.ready && g.IsRemote(x) :: x in r.readyRemote)
      && (forall x | x in r.readyRemote && x !in s.readyRemote :: x in r.ready && x !in s.ready && g.IsRemote(x))
  {
    hide Admit, PoolsOk, Partition, Owned;
    ScheduleFrame(g, s, e);
    ScheduleKeepsRemote(g, s, e);
    if s.want[e] != WantToFinish {
      AdmittedFrom(g, s, e);
      forall x | x in ScheduleWork(g, s, e).ready && x !in s.ready ensures x !in s.released {
        AdmittedIsNew(g, s, e, x);
      }
    }
  }

  lemma AdmittedIsNew(g: Graph, s: PlanState, e: EdgeId, x: EdgeId)
    requires e in s.want && s.want[e] != WantToFinish && QueuesOk(g, s) && (x in Delayed(s.pools) || x == e)
    ensures x !in s.released
  {
    assert x in s.want by { assert x == e || x in Scheduled(s.want); }
    NotReleased(g, s, x);
  }

  /**
    In every state of a plan the remote runner is offered exactly the ready remote edges that no finishing edge let out
    of their pool; so its request finds nothing exactly if there is none of these, and otherwise the first of them.
   */
  lemma RemoteRequestFinds(g: Graph, base: set<EdgeId>, s: PlanState, pending: set<EdgeId>, open: set<EdgeId>)
    requires Inv(g, base, s, pending, open)
    ensures forall x | x in s.ready && g.IsRemote(x) :: x in s.readyRemote <==> x !in s.released
    ensures var found := FindWork(s, true).1;
      && (found.None? <==> forall x | x in s.ready && g.IsRemote(x) :: x in s.released)
      && (found.Some? ==>
            && found.value in s.ready && g.IsRemote(found.value) && found.value !in s.released
            && forall x | x in s.ready && g.IsRemote(x) && x !in s.released :: found.value <= x)
  {
    hide CountersOk, PoolsOk, DepsOk, TraceOk, Partition, Owned, ReleasedOk;
    assert forall x :: x in s.readyRemote <==> x in s.ready && g.IsRemote(x) && x !in s.released;
  }

  /** The local runner is offered every ready edge, and gets the first of them. */
  lemma LocalRequestFinds(s: PlanState)
    ensures var found := FindWork(s, false).1;
      && (found.None? <==> s.ready == {})
      && (found.Some? ==> found.value in s.ready && forall x | x in s.ready :: found.value <= x)
  {
  }

  lemma ScheduleKeepsPlaces(g: Graph, s: PlanState, e: EdgeId)
    requires e in s.want && QueuesOk(g, s) && PoolsOk(g, s.pools, s.ready + s.running)
    ensures var r := ScheduleWork(g, s, e); QueuesOk(g, r) && PoolsOk(g, r.pools, r.ready + r.running)
  {
    hide ReleasedOk, RemoteQueueOk;
    if s.want[e] != WantToFinish {
      ScheduleFrame(g, s, e);
      assert Scheduled(s.want[e := WantToFinish]) == Scheduled(s.want) + {e} && e !in Scheduled(s.want);
      ScheduleKeepsRemote(g, s, e);
      if s.PoolAt(g.PoolOf(e)).depth != 0 {
        DelayKeepsPlaces(g, s, e);
      } else {
        AdmitKeepsPlaces(g, s, e);
      }
    }
  }

  lemma ScheduleKeepsCounters(g: Graph, s: PlanState, e: EdgeId)
    requires e in s.want && s.want[e] != WantNothing && CountersOk(g, s)
    ensures CountersOk(g, ScheduleWork(g, s, e))
  {
    ScheduleFrame(g, s, e);
    assert Wanted(ScheduleWork(g, s, e).want) == Wanted(s.want);
  }

  lemma ScheduleKeepsDeps(g: Graph, s: PlanState, e: EdgeId, pending: set<EdgeId>, open: set<EdgeId>)
    requires DepsOk(g, s.want, s.outputsReady, pending, open) && e in s.want && g.AllInputsReady(s.outputsReady, e)
    ensures DepsOk(g, ScheduleWork(g, s, e).want, s.outputsReady, pending - {e}, open)
  {
    ScheduleFrame(g, s, e);
  }

  lemma ScheduleKeepsTrace(g: Graph, base: set<EdgeId>, s: PlanState, e: EdgeId)
    requires TraceOk(g, base, s) && e in s.want
    ensures TraceOk(g, base, ScheduleWork(g, s, e))
  {
    ScheduleFrame(g, s, e);
  }

  lemma ScheduleKeeps(g: Graph, base: set<EdgeId>, s: PlanState, e: EdgeId, pending: set<EdgeId>, open: set<EdgeId>)
    requires Inv(g, base, s, pending, open)
    requires e in s.want && s.want[e] != WantNothing && g.AllInputsReady(s.outputsReady, e)
    ensures Inv(g, base, ScheduleWork(g, s, e), pending - {e}, open)
    ensures var r := ScheduleWork(g, s, e); r.want.Keys == s.want.Keys && r.outputsReady == s.outputsReady
  {
    hide CountersOk, QueuesOk, PoolsOk, DepsOk, TraceOk;
    ScheduleFrame(g, s, e);
    ScheduleKeepsPlaces(g, s, e);
    ScheduleKeepsCounters(g, s, e);
    ScheduleKeepsDeps(g, s, e, pending, open);
    ScheduleKeepsTrace(g, base, s, e);
  }

  // ----- FindWork -----

  /** Popping an edge moves it from the ready to the running ones. */
  lemma FindWorkKeepsPlaces(g: Graph, s: PlanState, onlyRemote: bool)
    requires QueuesOk(g, s) && PoolsOk(g, s.pools, s.ready + s.running)
    ensures var (r, found) := FindWork(s, onlyRemote);
      && QueuesOk(g, r) && PoolsOk(g, r.pools, r.ready + r.running)
      && (found.Some? ==> found.value in s.ready && (onlyRemote ==> g.IsRemote(found.value)))
  {
    var (r, found) := FindWork(s, onlyRemote);
    if found.Some? {
      var e := found.value;
      assert e in s.ready;
      assert s.ready + s.running == r.ready + r.running;
      assert Scheduled(r.want) == Scheduled(s.want);
    }
  }

  lemma FindWorkKeepsTrace(g: Graph, base: set<EdgeId>, s: PlanState, onlyRemote: bool)
    requires TraceOk(g, base, s) && QueuesOk(g, s) && s.want.Keys !! s.outputsReady && s.finished <= s.outputsReady
    requires forall e | e in s.want && s.want[e] == WantToFinish :: g.AllInputsReady(s.outputsReady, e)
    ensures TraceOk(g, base, FindWork(s, onlyRemote).0)
  {
    var (r, found) := FindWork(s, onlyRemote);
    if found.Some? {
      var e := found.value;
      assert e in s.ready;
      assert e in Scheduled(s.want);
      ExtendTrace(s.trace, Started(e, onlyRemote));
      LegalTraceExtends(g, base, s.trace, Started(e, onlyRemote));
    }
  }

  lemma FindWorkKeeps(g: Graph, base: set<EdgeId>, s: PlanState, onlyRemote: bool)
    requires Inv(g, base, s, {}, {})
    ensures var (r, found) := FindWork(s, onlyRemote);
      && Inv(g, base, r, {}, {})
      && (found.Some? ==>
            && found.value in s.ready && found.value in r.running && found.value in r.want
            && r.want[found.value] == WantToFinish
            && (onlyRemote ==> g.IsRemote(found.value)))
  {
    var (r, found) := FindWork(s, onlyRemote);
    FindWorkFrame(s, onlyRemote);
    FindWorkKeepsPlaces(g, s, onlyRemote);
    assert s.want.Keys !! s.outputsReady && s.finished <= s.outputsReady;
    assert forall e | e in s.want && s.want[e] == WantToFinish :: g.AllInputsReady(s.outputsReady, e);
    FindWorkKeepsTrace(g, base, s, onlyRemote);
    assert CountersOk(g, r);
    assert found.Some? ==> found.value in Scheduled(s.want);
  }

  /** What popping an edge touches. */
  lemma FindWorkFrame(s: PlanState, onlyRemote: bool)
    ensures var (r, found) := FindWork(s, onlyRemote);
      && r == s.(ready := r.ready, readyRemote := r.readyRemote, running := r.running, trace := r.trace)
      && (found.Some? ==> found.value in r.running)
  {
  }

  // ----- Release, EdgeFailed, Retire -----

  /** An edge may finish if a runner has it, or if the plan passes over it. */
  ghost predicate MayFinish(s: PlanState, e: EdgeId) {
    && e in s.want
    && (s.want[e] == WantNothing || (s.want[e] == WantToFinish && e in s.running))
  }

  /** The pool of a finishing edge before its free slots are handed out. */
  lemma VacatedPoolOk(g: Graph, s: PlanState, e: EdgeId)
    requires MayFinish(s, e) && PoolsOk(g, s.pools, s.ready + s.running)
    requires Partition(Scheduled(s.want), s.ready, s.running, s.failed, Delayed(s.pools))
    ensures var id := g.PoolOf(e);
      var p := s.PoolAt(id);
      var p1 := if s.want[e] != WantNothing then Vacated(p) else p;
      Sane(p1) && (p1.depth != 0 ==> p1.use == |InPool(g, s.ready + (s.running - {e}), id)|)
  {
    var id := g.PoolOf(e);
    assert id in s.pools ==> PoolOk(g, id, s.pools[id], s.ready + s.running);
    var before := InPool(g, s.ready + s.running, id);
    var after := InPool(g, s.ready + (s.running - {e}), id);
    if s.want[e] != WantNothing {
      assert e in before && after == before - {e};
    } else {
      assert e !in Scheduled(s.want);
      assert after == before;
    }
  }

  /** What a release does to the pools and the runnable edges. */
  lemma ReleaseEffect(g: Graph, s: PlanState, e: EdgeId)
    requires MayFinish(s, e) && QueuesOk(g, s)
    ensures var id := g.PoolOf(e);
      var p := s.PoolAt(id);
      var (q, got) := RetrieveReady(if s.want[e] != WantNothing then Vacated(p) else p);
      Release(g, s, e)
        == s.(pools := s.pools[id := q], ready := s.ready + got, running := s.running - {e}, released := s.released + got)
  {
    if s.want[e] == WantNothing {
      assert e !in Scheduled(s.want);
      assert s.running - {e} == s.running;
    }
  }

  /** After the release a directly wanted edge is in no place at all. */
  lemma ReleaseKeepsPlaces(g: Graph, s: PlanState, e: EdgeId)
    requires MayFinish(s, e) && QueuesOk(g, s) && PoolsOk(g, s.pools, s.ready + s.running)
    ensures var r := Release(g, s, e);
      && Partition(Scheduled(s.want) - {e}, r.ready, r.running, r.failed, Delayed(r.pools))
      && Owned(g, r.pools)
      && PoolsOk(g, r.pools, r.ready + r.running)
      && RemoteQueueOk(g, r.ready, r.readyRemote, r.released)
      && ReleasedOk(s.want, s.outputsReady, r.ready + r.running + r.failed + {e}, r.released)
  {
    hide ReleasedOk, RemoteQueueOk;
    var id := g.PoolOf(e);
    var p := s.PoolAt(id);
    var (q, got) := RetrieveReady(if s.want[e] != WantNothing then Vacated(p) else p);
    ReleaseEffect(g, s, e);
    ReleaseKeepsRemote(g, s, e);
    ReleaseKeepsPools(g, s, e);
    assert s.ready + got + (s.running - {e}) == s.ready + (s.running - {e}) + got;
    ReleaseKeepsWaiting(g, s, e);
  }

  /** What a finishing edge lets out of its pool is withheld from the remote runner. */
  lemma ReleaseKeepsRemote(g: Graph, s: PlanState, e: EdgeId)
    requires MayFinish(s, e) && QueuesOk(g, s) && PoolsOk(g, s.pools, s.ready + s.running)
    ensures var r := Release(g, s, e);
      && RemoteQueueOk(g, r.ready, r.readyRemote, r.released)
      && ReleasedOk(s.want, s.outputsReady, r.ready + r.running + r.failed + {e}, r.released)
      && r.released - s.released <= r.ready - s.ready
  {
    hide Owned, Partition, QueuesOk, ReleasedOk, RemoteQueueOk, PoolsOk;
    ReleaseEffect(g, s, e);
    LetOutWaited(g, s, e);
    var p := s.PoolAt(g.PoolOf(e));
    var got := RetrieveReady(if s.want[e] != WantNothing then Vacated(p) else p).1;
    LetOut(g, s, e, got);
  }

  lemma LetOutWaited(g: Graph, s: PlanState, e: EdgeId)
    requires MayFinish(s, e) && QueuesOk(g, s) && PoolsOk(g, s.pools, s.ready + s.running)
    ensures var p := s.PoolAt(g.PoolOf(e));
      RetrieveReady(if s.want[e] != WantNothing then Vacated(p) else p).1 <= Delayed(s.pools)
  {
    hide Owned, Partition, ReleasedOk, RemoteQueueOk, PoolsOk;
    var p := s.PoolAt(g.PoolOf(e));
    VacatedPoolOk(g, s, e);
    RetrieveReadyConserves(if s.want[e] != WantNothing then Vacated(p) else p);
    assert forall x | x in p.delayed :: x in Delayed(s.pools);
  }

  lemma LetOut(g: Graph, s: PlanState, e: EdgeId, got: set<EdgeId>)
    requires QueuesOk(g, s) && got <= Delayed(s.pools)
    ensures got !! s.ready
    ensures RemoteQueueOk(g, s.ready + got, s.readyRemote, s.released + got)
    ensures ReleasedOk(s.want, s.outputsReady, s.ready + got + (s.running - {e}) + s.failed + {e}, s.released + got)
  {
    hide Delayed, Owned;
    forall x | x in got ensures x in s.want && x !in s.ready {
      assert x in Scheduled(s.want);
    }
  }

  lemma ReleaseKeepsWaiting(g: Graph, s: PlanState, e: EdgeId)
    requires MayFinish(s, e) && QueuesOk(g, s) && PoolsOk(g, s.pools, s.ready + s.running)
    ensures var id := g.PoolOf(e);
      var p := s.PoolAt(id);
      var (q, got) := RetrieveReady(if s.want[e] != WantNothing then Vacated(p) else p);
      && Partition(Scheduled(s.want) - {e}, s.ready + got, s.running - {e}, s.failed, Delayed(s.pools[id := q]))
      && Owned(g, s.pools[id := q])
  {
    var id := g.PoolOf(e);
    var p := s.PoolAt(id);
    var p1 := if s.want[e] != WantNothing then Vacated(p) else p;
    var (q, got) := RetrieveReady(p1);
    VacatedPoolOk(g, s, e);
    RetrieveReadyConserves(p1);
    DelayKeepsWaiting(g, s.pools, id, p.delayed, got, q);
    assert e in Scheduled(s.want) ==> e in s.running;
    ReleaseKeepsPartition(Scheduled(s.want), s.ready, s.running, s.failed, Delayed(s.pools), e, p.delayed, got);
  }

  lemma ReleaseKeepsPools(g: Graph, s: PlanState, e: EdgeId)
    requires MayFinish(s, e) && QueuesOk(g, s) && PoolsOk(g, s.pools, s.ready + s.running)
    ensures var id := g.PoolOf(e);
      var p := s.PoolAt(id);
      var (q, got) := RetrieveReady(if s.want[e] != WantNothing then Vacated(p) else p);
      PoolsOk(g, s.pools[id := q], s.ready + (s.running - {e}) + got)
  {
    var id := g.PoolOf(e);
    var p := s.PoolAt(id);
    var busy1 := s.ready + (s.running - {e});
    VacatedPoolOk(g, s, e);
    assert forall x | x in p.delayed :: x in Delayed(s.pools);
    OtherPoolsOk(g, s.pools, s.ready + s.running, busy1, id);
    RetrieveKeepsPools(g, s.pools, busy1, id, if s.want[e] != WantNothing then Vacated(p) else p);
  }

  lemma EdgeFailedKeeps(g: Graph, base: set<EdgeId>, s: PlanState, e: EdgeId)
    requires Inv(g, base, s, {}, {}) && e in s.running && MayFinish(s, e)
    ensures Inv(g, base, EdgeFailed(g, s, e), {}, {})
    ensures EdgeFailed(g, s, e).running == s.running - {e}
  {
    hide CountersOk, QueuesOk, PoolsOk, DepsOk, TraceOk;
    ReleaseEffect(g, s, e);
    FailureKeepsPlaces(g, s, e);
    FailureKeepsTrace(g, base, s, e);
    FailureKeepsDeps(g, s, e);
  }

  lemma FailureKeepsDeps(g: Graph, s: PlanState, e: EdgeId)
    requires MayFinish(s, e) && CountersOk(g, s) && DepsOk(g, s.want, s.outputsReady, {}, {})
    ensures CountersOk(g, EdgeFailed(g, s, e))
    ensures DepsOk(g, EdgeFailed(g, s, e).want, EdgeFailed(g, s, e).outputsReady, {}, {})
  {
    var r := EdgeFailed(g, s, e);
    assert r == s.(pools := r.pools, ready := r.ready, running := r.running, failed := r.failed, released := r.released,
                   trace := r.trace);
  }

  lemma FailureKeepsPlaces(g: Graph, s: PlanState, e: EdgeId)
    requires MayFinish(s, e) && e in s.running && QueuesOk(g, s) && PoolsOk(g, s.pools, s.ready + s.running)
    ensures var r := EdgeFailed(g, s, e); QueuesOk(g, r) && PoolsOk(g, r.pools, r.ready + r.running)
  {
    ReleaseEffect(g, s, e);
    ReleaseKeepsPlaces(g, s, e);
    assert e in Scheduled(s.want);
    assert Scheduled(EdgeFailed(g, s, e).want) == Scheduled(s.want);
  }

  lemma FailureKeepsTrace(g: Graph, base: set<EdgeId>, s: PlanState, e: EdgeId)
    requires MayFinish(s, e) && e in s.running && TraceOk(g, base, s) && QueuesOk(g, s)
    ensures TraceOk(g, base, EdgeFailed(g, s, e))
  {
    ReleaseEffect(g, s, e);
    ExtendTrace(s.trace, Failed(e));
    LegalTraceExtends(g, base, s.trace, Failed(e));
  }

  /** The edges that may become ready when `e` is retired. */
  ghost function Dependents(g: Graph, e: EdgeId): set<EdgeId> {
    set x | x in g.edges && g.Feeds(e, x)
  }

  lemma RetireKeepsPlaces(g: Graph, s: PlanState, e: EdgeId)
    requires MayFinish(s, e) && QueuesOk(g, s) && PoolsOk(g, s.pools, s.ready + s.running)
    ensures var r := Retire(g, s, e); QueuesOk(g, r) && PoolsOk(g, r.pools, r.ready + r.running)
  {
    ReleaseEffect(g, s, e);
    ReleaseKeepsPlaces(g, s, e);
    assert Scheduled(Retire(g, s, e).want) == Scheduled(s.want) - {e};
  }

  /** What retiring touches. */
  lemma RetireFrame(g: Graph, s: PlanState, e: EdgeId)
    requires e in s.want
    ensures var r := Retire(g, s, e);
      r == s.(want := s.want - {e},
              wantedEdges := s.wantedEdges - (if s.want[e] != WantNothing then 1 else 0),
              outputsReady := s.outputsReady + {e},
              finished := if s.want[e] != WantNothing then s.finished + {e} else s.finished,
              trace := s.trace + [Completed(e)],
              pools := r.pools, ready := r.ready, running := r.running, released := r.released)
  {
  }

  lemma FinishedStillCounts(g: Graph, wantedEdges: int, commandEdges: int, remoteEdges: int, wanted: set<EdgeId>,
                            finished: set<EdgeId>, e: EdgeId)
    requires Counts(g, wantedEdges, commandEdges, remoteEdges, wanted, finished) && e in wanted
    ensures Counts(g, wantedEdges - 1, commandEdges, remoteEdges, wanted - {e}, finished + {e})
    ensures (wanted - {e}) + (finished + {e}) == wanted + finished
  {
    assert (wanted - {e}) + (finished + {e}) == wanted + finished;
  }

  lemma RetireKeepsCounters(g: Graph, s: PlanState, e: EdgeId)
    requires e in s.want && CountersOk(g, s)
    ensures CountersOk(g, Retire(g, s, e))
  {
    hide Counts;
    RetireFrame(g, s, e);
    assert Wanted(s.want - {e}) == Wanted(s.want) - {e};
    if s.want[e] != WantNothing {
      FinishedStillCounts(g, s.wantedEdges, s.commandEdges, s.remoteEdges, Wanted(s.want), s.finished, e);
    } else {
      assert Wanted(s.want) - {e} == Wanted(s.want);
    }
  }

  lemma RetireKeepsDeps(g: Graph, s: PlanState, e: EdgeId, pending: set<EdgeId>)
    requires MayFinish(s, e) && DepsOk(g, s.want, s.outputsReady, pending, {})
    ensures DepsOk(g, s.want - {e}, s.outputsReady + {e}, pending + Dependents(g, e), {})
  {
    var want, done := s.want - {e}, s.outputsReady + {e};
    forall x | x in want && want[x] != WantToFinish && x !in pending + Dependents(g, e)
      ensures !g.AllInputsReady(done, x)
    {
      var i :| i in g.Inputs(x) && !g.NodeReady(s.outputsReady, i);
      assert !g.Feeds(e, x);
      assert !g.NodeReady(done, i);
    }
    forall x | x in want && want[x] == WantToFinish
      ensures g.AllInputsReady(done, x)
    {
      ReadyIsMonotone(g, s.outputsReady, done, x);
    }
  }

  lemma RetireKeepsTrace(g: Graph, base: set<EdgeId>, s: PlanState, e: EdgeId)
    requires MayFinish(s, e) && TraceOk(g, base, s) && QueuesOk(g, s)
    requires s.want.Keys !! s.outputsReady && g.AllInputsReady(s.outputsReady, e)
    ensures TraceOk(g, base, Retire(g, s, e))
  {
    assert e in s.failed ==> e in Scheduled(s.want);
    ExtendTrace(s.trace, Completed(e));
    LegalTraceExtends(g, base, s.trace, Completed(e));
  }

  /** Retiring an edge keeps the invariant, with its dependents still to be looked at. */
  lemma RetireKeeps(g: Graph, base: set<EdgeId>, s: PlanState, e: EdgeId, pending: set<EdgeId>)
    requires Inv(g, base, s, pending, {})
    requires MayFinish(s, e) && g.AllInputsReady(s.outputsReady, e)
    ensures Inv(g, base, Retire(g, s, e), pending + Dependents(g, e), {})
  {
    hide QueuesOk, PoolsOk, TraceOk;
    RetireFrame(g, s, e);
    RetireKeepsPlaces(g, s, e);
    RetireKeepsCounters(g, s, e);
    RetireKeepsDeps(g, s, e, pending);
    RetireKeepsTrace(g, base, s, e);
  }
}
