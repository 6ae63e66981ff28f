/**
  The history of a build: what adds which events, and how many commands may still fail.
 */
module BuildTrace {
  import opened BuildGraph
  import opened PlanSpec

  /** Only completions were added. */
  ghost predicate OnlyCompletes(before: seq<Event>, after: seq<Event>) {
    before <= after && forall k | |before| <= k < |after| :: after[k].Completed?
  }

  /** Nothing was started. */
  ghost predicate StartsNothing(before: seq<Event>, after: seq<Event>) {
    before <= after && forall k | |before| <= k < |after| :: !after[k].Started?
  }

  /** How often a command failed. */
  function Failures(tr: seq<Event>): nat {
    if tr == [] then 0 else Failures(tr[..|tr| - 1]) + (if tr[|tr| - 1].Failed? then 1 else 0)
  }

  /** Nothing was started after as many failures as are allowed. */
  ghost predicate WithinBudget(allowed: nat, tr: seq<Event>) {
    forall k | 0 <= k < |tr| && tr[k].Started? :: Failures(tr[..k]) < allowed
  }

  /** How many more commands may fail. */
  function FailuresLeft(allowed: nat, tr: seq<Event>): nat {
    if Failures(tr) < allowed then allowed - Failures(tr) else 0
  }

  /** Nothing was started beyond the failures allowed, and `left` more commands may fail. */
  ghost predicate Budgeted(allowed: nat, left: nat, tr: seq<Event>) {
    WithinBudget(allowed, tr) && left == FailuresLeft(allowed, tr)
  }

  /** Each edge is with the runner that it was started for, and none of them is phony. */
  ghost predicate HandedOut(g: Graph, tr: seq<Event>, local: set<EdgeId>, remote: set<EdgeId>) {
    && (forall e | e in local :: Started(e, false) in tr && !g.IsPhony(e))
    && (forall e | e in remote :: Started(e, true) in tr && !g.IsPhony(e))
  }

  lemma HandedOutStays(g: Graph, tr: seq<Event>, local: set<EdgeId>, remote: set<EdgeId>, tr': seq<Event>,
                       local': set<EdgeId>, remote': set<EdgeId>)
    requires HandedOut(g, tr, local, remote) && tr <= tr' && local' <= local && remote' <= remote
    ensures HandedOut(g, tr', local', remote')
  {
    forall ev | ev in tr ensures ev in tr' {
      var k :| 0 <= k < |tr| && tr[k] == ev;
      assert tr'[k] == ev;
    }
  }

  lemma HandedOutOne(g: Graph, tr: seq<Event>, local: set<EdgeId>, remote: set<EdgeId>, e: EdgeId, toRemote: bool)
    requires HandedOut(g, tr, local, remote) && !g.IsPhony(e)
    ensures toRemote ==> HandedOut(g, tr + [Started(e, true)], local, remote + {e})
    ensures !toRemote ==> HandedOut(g, tr + [Started(e, false)], local + {e}, remote)
  {
    HandedOutStays(g, tr, local, remote, tr + [Started(e, toRemote)], local, remote);
  }

  lemma CompletesTrans(a: seq<Event>, b: seq<Event>, c: seq<Event>)
    requires OnlyCompletes(a, b) && OnlyCompletes(b, c)
    ensures OnlyCompletes(a, c)
  {
  }

  lemma CompletesOne(tr: seq<Event>, ev: Event)
    requires ev.Completed?
    ensures OnlyCompletes(tr, tr + [ev])
  {
  }

  lemma CompletesNone(tr: seq<Event>)
    ensures OnlyCompletes(tr, tr) && StartsNothing(tr, tr)
  {
  }

  /** With none left as many have failed as may; with some left but not all, some have failed. */
  lemma BudgetMeans(allowed: nat, left: nat, tr: seq<Event>)
    requires Budgeted(allowed, left, tr)
    ensures WithinBudget(allowed, tr)
    ensures (left == 0 <==> Failures(tr) >= allowed) && (0 < left < allowed <==> 0 < Failures(tr) < allowed)
  {
    hide Failures, WithinBudget;
  }

  /** One more event, which is a start only while failures are left. */
  lemma OneMoreEvent(allowed: nat, tr: seq<Event>, ev: Event)
    requires WithinBudget(allowed, tr) && (ev.Started? ==> FailuresLeft(allowed, tr) > 0)
    ensures WithinBudget(allowed, tr + [ev])
    ensures Failures(tr + [ev]) == Failures(tr) + (if ev.Failed? then 1 else 0)
  {
    hide Failures;
    var tr' := tr + [ev];
    FailuresOfLast(tr, ev);
    assert forall k | 0 <= k < |tr| :: tr'[k] == tr[k] && tr'[..k] == tr[..k];
    assert tr'[..|tr|] == tr;
  }

  lemma FailuresOfLast(tr: seq<Event>, ev: Event)
    ensures Failures(tr + [ev]) == Failures(tr) + (if ev.Failed? then 1 else 0)
  {
    assert (tr + [ev])[..|tr|] == tr;
  }

  /** Completions change nothing about failures. */
  lemma {:induction false} CompletesKeepBudget(allowed: nat, before: seq<Event>, after: seq<Event>)
    requires OnlyCompletes(before, after) && WithinBudget(allowed, before)
    ensures WithinBudget(allowed, after) && Failures(after) == Failures(before)
    ensures StartsNothing(before, after)
    decreases |after|
  {
    if after != before {
      var last := after[..|after| - 1];
      CompletesKeepBudget(allowed, before, last);
      OneMoreEvent(allowed, last, after[|after| - 1]);
      assert last + [after[|after| - 1]] == after;
    }
  }

  /** A start while failures are left, and completions after it, stay within the budget. */
  lemma StartKeepsBudget(allowed: nat, left: nat, before: seq<Event>, start: Event, after: seq<Event>)
    requires Budgeted(allowed, left, before) && left > 0 && start.Started? && OnlyCompletes(before + [start], after)
    ensures Budgeted(allowed, left, after) && before < after
  {
    hide Failures, OnlyCompletes;
    OneMoreEvent(allowed, before, start);
    CompletesKeepBudget(allowed, before + [start], after);
    CompletesExtend(before + [start], after);
  }

  lemma CompletesExtend(before: seq<Event>, after: seq<Event>)
    requires OnlyCompletes(before, after)
    ensures before <= after && StartsNothing(before, after)
  {
  }

  /** A failure uses up one of those left. */
  lemma FailureKeepsBudget(allowed: nat, left: nat, before: seq<Event>, failure: Event)
    requires Budgeted(allowed, left, before) && failure.Failed?
    ensures Budgeted(allowed, if left > 0 then left - 1 else 0, before + [failure])
    ensures StartsNothing(before, before + [failure])
  {
    hide Failures;
    OneMoreEvent(allowed, before, failure);
  }

  /** In a history within its budget no start comes after the last failure that is allowed. */
  lemma NoStartAfterLastFailure(allowed: nat, tr: seq<Event>, j: nat, k: nat)
    requires WithinBudget(allowed, tr) && j <= k < |tr| && Failures(tr[..j]) >= allowed
    ensures !tr[k].Started?
  {
    FailuresGrow(tr, j, k);
  }

  lemma {:induction false} FailuresGrow(tr: seq<Event>, j: nat, k: nat)
    requires j <= k <= |tr|
    ensures Failures(tr[..j]) <= Failures(tr[..k])
    decreases k
  {
    if j < k {
      FailuresGrow(tr, j, k - 1);
      assert tr[..k][..k - 1] == tr[..k - 1];
    }
  }
}
