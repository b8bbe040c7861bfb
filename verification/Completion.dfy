/** When a run completes: failures that recovery can mend cost cycles, but do not keep it from finishing, and any
    other failure is final. */
module Completion {
  import opened Digraphs
  import opened Schemas
  import opened Sequences
  import opened DagMutator
  import opened DagProgress
  import opened DagInvariants
  import opened AgencyTheory
  import opened Batches
  import opened Replanning
  import opened Runs
  import opened RunSafety
  import opened Scopes
  import opened Wrappers
  import W = Worktrees

  /** The number of unfinished nodes. */
  ghost function Open(s: DagState): int {
    |s| - |Finished(s)|
  }

  /** Nothing ever throws, and executions fail only in the listed cycles and nodes. */
  ghost predicate FailsOnlyIn(r: RunSetting, bad: set<(nat, string)>) {
    forall cycle: nat, k: string ::
      && Quiet(r.oracle(cycle, k))
      && ((cycle, k) !in bad ==> Smooth(r.oracle(cycle, k), r.maxToolIterations))
  }

  // ---- Replanning mends a DAG ----

  /** A DAG that could be worked off if it were not for the failed nodes in todo. */
  ghost predicate Mendable(s: DagState, todo: set<string>) {
    && AcyclicDag(s) && NoDangling(s) && DependencyClosed(s)
    && (forall k | k in s :: InOrder(s[k]) || k in todo)
    && (forall k | k in todo :: k in s && s[k].status == ReplanRequired && s[k].deps != [])
  }

  /** No node has lost its dependencies, and no new node has come without any. */
  ghost predicate RootsKept(s0: DagState, s: DagState) {
    forall k | k in s && s[k].deps == [] :: k in s0 && s0[k].deps == []
  }

  lemma MendOne(s0: DagState, s: DagState, t: string, id: string, n: NodeState, todo: set<string>)
    requires Mendable(s, todo) && t in todo && id !in s && n.status == Planned
    ensures Mendable(InsertedBefore(s, t, id, n), todo - {t})
    ensures RootsKept(s0, s) ==> RootsKept(s0, InsertedBefore(s, t, id, n))
  {
    var s' := InsertedBefore(s, t, id, n);
    InsertBeforePreservesMeaning(s, t, id, n);
    RecoveryKeepsClosure(s, t, id, n);
    assert s'[t].deps == [id] && s'[id].deps == s[t].deps;
  }

  lemma MendingCounts(s: DagState, t: string, id: string, n: NodeState)
    requires t in s && id !in s && s[t].status != Succeeded && n.status == Planned
    ensures Finished(InsertedBefore(s, t, id, n)) == Finished(s) && |InsertedBefore(s, t, id, n)| == |s| + 1
  {
    var s' := InsertedBefore(s, t, id, n);
    assert s'.Keys == s.Keys + {id} && |s'| == |s'.Keys|;
  }

  /** What replanning goes through: each node in todo is still to be replanned. */
  ghost predicate Mending(s0: DagState, r: RunSetting, scope: Scope, p: RunState, todo: set<string>) {
    && Mendable(p.dag, todo) && RootsKept(s0, p.dag) && !p.raised && p.rejected == None
    && (r.managed ==> |p.bound| <= r.maxActive && Served(p.dag, p.bound, scope))
  }

  lemma RecoveryMends(s0: DagState, r: RunSetting, scope: Scope, p: RunState, k: string, kind: FailureKind,
                      todo: set<string>)
    requires Mending(s0, r, scope, p, todo) && k in todo && HasRecovery(kind)
    requires AfterReplan(p, k, kind, r).rejected == None
    ensures var q := AfterReplan(p, k, kind, r);
      && Mending(s0, r, scope, q, todo - {k}) && Finished(q.dag) == Finished(p.dag)
      && |q.dag| == |p.dag| + 1 && q.counter == p.counter + 1 && q.executed == p.executed && q.batch == p.batch
  {
    var id, n := RecoveryId(p.counter + 1, kind, k), RecoveryNode(p.dag, r.dagId, k);
    assert id !in p.dag;
    MendOne(s0, p.dag, k, id, n, todo);
    MendingCounts(p.dag, k, id, n);
    if r.managed {
      RecoveryStaysServed(p.dag, p.bound, k, id, n, scope);
    }
  }

  lemma RestOf(failed: seq<string>)
    requires failed != [] && NoDuplicates(failed)
    ensures NoDuplicates(failed[1..]) && Members(failed[1..]) == Members(failed) - {failed[0]}
  {
    assert failed == [failed[0]] + failed[1..];
  }

  lemma RefusalStays(p: RunState, failed: seq<string>, cycle: nat, r: RunSetting)
    ensures p.rejected.Some? ==> ReplannedInOrder(p, failed, cycle, r).rejected.Some?
  {
  }

  /** Replanning all failed nodes of a batch leaves a DAG that can be worked off, if they have dependencies,
      their failures have recoveries, and no insertion is refused. */
  lemma {:induction false} ReplannedIsWorkable(s0: DagState, r: RunSetting, scope: Scope, p: RunState,
                                               failed: seq<string>, cycle: nat)
    requires Mending(s0, r, scope, p, Members(failed)) && NoDuplicates(failed)
    requires forall k | k in failed :: HasRecovery(r.oracle(cycle, k).failure)
    requires ReplannedInOrder(p, failed, cycle, r).rejected == None
    ensures var q := ReplannedInOrder(p, failed, cycle, r);
      && Workable(q.dag) && Mending(s0, r, scope, q, {}) && Finished(q.dag) == Finished(p.dag)
      && |q.dag| == |p.dag| + |failed| && q.counter == p.counter + |failed| && q.executed == p.executed
    decreases |failed|
  {
    if failed == [] {
      assert Members(failed) == {};
    } else {
      var k := failed[0];
      var next := AfterReplan(p, k, r.oracle(cycle, k).failure, r);
      RefusalStays(next, failed[1..], cycle, r);
      RestOf(failed);
      RecoveryMends(s0, r, scope, p, k, r.oracle(cycle, k).failure, Members(failed));
      ReplannedIsWorkable(s0, r, scope, next, failed[1..], cycle);
    }
  }

  // ---- One cycle ----

  /** The failures that the first n cycles can have met. */
  ghost function Used(bad: set<(nat, string)>, n: nat): set<(nat, string)> {
    set b | b in bad && b.0 <= n
  }

  lemma UsedAreBad(bad: set<(nat, string)>, n: nat)
    ensures |Used(bad, n)| <= |bad|
  {
    assert bad == Used(bad, n) + (bad - Used(bad, n));
  }

  lemma {:induction false} Met(bad: set<(nat, string)>, before: nat, now: nat, failed: seq<string>)
    returns (met: set<(nat, string)>)
    requires now == before + 1 && NoDuplicates(failed)
    ensures forall b :: b in met <==> b in Used(bad, before) || (b.0 == now && b.1 in failed)
    ensures |met| == |Used(bad, before)| + |failed|
    decreases |failed|
  {
    if failed == [] {
      met := Used(bad, before);
    } else {
      var k, rest := failed[0], failed[1..];
      assert failed == [k] + rest;
      met := Met(bad, before, now, rest);
      assert (now, k) !in met;
      met := met + {(now, k)};
    }
  }

  lemma {:induction false} FailuresAreUsed(bad: set<(nat, string)>, before: nat, now: nat, failed: seq<string>)
    requires now == before + 1 && NoDuplicates(failed) && forall k | k in failed :: (now, k) in bad
    ensures |Used(bad, before)| + |failed| <= |Used(bad, now)|
  {
    var met := Met(bad, before, now, failed);
    assert met <= Used(bad, now);
    assert |Used(bad, now)| == |met| + |Used(bad, now) - met|;
  }

  lemma {:induction false} FailedOnce(s: DagState, batch: seq<string>)
    requires NoDuplicates(batch)
    ensures NoDuplicates(FailedIn(s, batch))
  {
    if batch != [] {
      var init, last := batch[..|batch| - 1], batch[|batch| - 1];
      FailedOnce(s, init);
      assert last !in FailedIn(s, init) by { FailedInHolds(s, init, last); }
    }
  }

  lemma FinishedAfter(s: DagState, t: DagState, ids: set<string>, failed: set<string>)
    requires AllReady(s, ids) && t.Keys == s.Keys && failed <= ids
    requires forall k | k in s && k !in ids :: t[k] == s[k]
    requires forall k | k in ids :: t[k].status == if k in failed then ReplanRequired else Succeeded
    ensures |Finished(t)| == |Finished(s)| + |ids| - |failed|
  {
    var done := ids - failed;
    assert Finished(t) == Finished(s) + done && Finished(s) !! done;
    assert ids == done + failed;
  }

  /** The nodes of a batch either failed or count as finished afterwards. */
  lemma BatchCounts(s: DagState, t: DagState, batch: seq<string>)
    requires NoDuplicates(batch) && AllReady(s, Members(batch)) && t.Keys == s.Keys
    requires forall k | k in s && k !in Members(batch) :: t[k] == s[k]
    requires forall k | k in Members(batch) :: t[k].status in {Succeeded, ReplanRequired}
    ensures var failed := FailedIn(t, batch);
      && NoDuplicates(failed) && |Finished(t)| == |Finished(s)| + |batch| - |failed|
      && forall k :: k in Members(failed) <==> k in Members(batch) && t[k].status == ReplanRequired
  {
    var failed := FailedIn(t, batch);
    FailedOnce(t, batch);
    forall k
      ensures k in Members(failed) <==> k in Members(batch) && t[k].status == ReplanRequired
    {
      FailedInHolds(t, batch, k);
    }
    DistinctKeysCount(batch, Members(batch));
    DistinctKeysCount(failed, Members(failed));
    FinishedAfter(s, t, Members(batch), Members(failed));
  }

  /** A promoted DAG with everything ready for a batch. */
  ghost predicate OnTheWay(s0: DagState, r: RunSetting, scope: Scope, p: RunState) {
    && Workable(p.dag) && Mending(s0, r, scope, p, {})
  }

  lemma PromotionStaysOnTheWay(s0: DagState, r: RunSetting, scope: Scope, p: RunState)
    requires OnTheWay(s0, r, scope, p)
    ensures OnTheWay(s0, r, scope, p.(dag := Promoted(p.dag))) && Finished(Promoted(p.dag)) == Finished(p.dag)
    ensures |Promoted(p.dag)| == |p.dag|
  {
    PromotedIsWorkable(p.dag);
    assert Promoted(p.dag).Keys == p.dag.Keys;
    if r.managed {
      PromotionStaysServed(p.dag, p.bound, scope);
    }
  }

  /** t is s after a batch in which only listed executions failed. */
  ghost predicate EndedCalmly(s: DagState, t: DagState, ids: set<string>, bad: set<(nat, string)>, cycle: nat) {
    && t.Keys == s.Keys && ids <= s.Keys && (forall k | k in s && k !in ids :: t[k] == s[k])
    && forall k | k in ids ::
      t[k].status == Succeeded || (t[k].status == ReplanRequired && (cycle, k) in bad)
  }

  /** How a batch of a quiet run ends. */
  lemma BatchEndsCalmly(s0: DagState, r: RunSetting, scope: Scope, bad: set<(nat, string)>, p: RunState, q: RunState,
                        m: Moment, cycle: nat)
    requires OnTheWay(s0, r, scope, p) && BatchStep(p, q, m, cycle, r) && FailsOnlyIn(r, bad)
    ensures var ids := Members(BatchOf(p, r));
      AllReady(p.dag, ids) && EndedCalmly(p.dag, m.dag, ids, bad, cycle) && OnlyStatuses(p.dag, m.dag)
    ensures !m.raised && m.waiting == m.running == {} && DependencyClosed(m.dag)
    ensures r.managed ==> |m.bound| <= r.maxActive && Served(m.dag, m.bound, scope)
  {
    var ids, c := Members(BatchOf(p, r)), InCycle(r, cycle);
    BatchIsReady(p, r);
    BatchFits(p, r, cycle);
    assert QuietFor(ids, c);
    QuietBatchEndsCalmly(p.dag, p.bindings, m, ids, c);
    SubsetSize(m.bound, p.bound + Requirements(p.dag, ids));
    if r.managed {
      BatchStaysServed(p.dag, p.bindings, m, ids, scope, c);
    }
  }

  /** The replanner, if there is one, never hands out a taken id while it mends the listed failures. */
  ghost predicate IdsLast(s0: DagState, c0: nat, r: RunSetting, bad: set<(nat, string)>) {
    bad != {} && r.replans ==> FreshIds(s0, c0) && LegibleUpTo(c0 + |bad|)
  }

  /** A failure that recovery mends: there is a replanner, the failure has a recovery, and the recovery node will
      have something to wait for. */
  ghost predicate Mends(s: DagState, k: string, cycle: nat, r: RunSetting) {
    r.replans && k in s && s[k].deps != [] && HasRecovery(r.oracle(cycle, k).failure)
  }

  ghost predicate AllMend(s: DagState, failed: seq<string>, cycle: nat, r: RunSetting) {
    forall k | k in failed :: Mends(s, k, cycle, r)
  }

  lemma FailuresAreListed(s: DagState, t: DagState, bad: set<(nat, string)>, batch: seq<string>, cycle: nat)
    requires EndedCalmly(s, t, Members(batch), bad, cycle)
    ensures forall k :: k in FailedIn(t, batch) <==> k in Members(batch) && k in t && t[k].status == ReplanRequired
    ensures forall k | k in FailedIn(t, batch) :: (cycle, k) in bad
  {
    forall k
      ensures k in FailedIn(t, batch) <==> k in Members(batch) && k in t && t[k].status == ReplanRequired
    {
      FailedInHolds(t, batch, k);
    }
  }

  lemma FailuresAreToMend(s0: DagState, s: DagState, t: DagState, bad: set<(nat, string)>, batch: seq<string>,
                          cycle: nat, r: RunSetting)
    requires Mendable(s, {}) && RootsKept(s0, s) && OnlyStatuses(s, t) && DependencyClosed(t)
    requires EndedCalmly(s, t, Members(batch), bad, cycle) && AllMend(t, FailedIn(t, batch), cycle, r)
    ensures Mendable(t, Members(FailedIn(t, batch))) && RootsKept(s0, t)
  {
    FailuresAreListed(s, t, bad, batch, cycle);
    SameDependencies(s, t);
  }

  /** After a quiet batch whose failures recovery mends, they are what is left to be mended. */
  lemma BatchIsMendable(s0: DagState, r: RunSetting, scope: Scope, bad: set<(nat, string)>, p: RunState, q: RunState,
                        m: Moment, cycle: nat)
    requires OnTheWay(s0, r, scope, p) && BatchStep(p, q, m, cycle, r) && FailsOnlyIn(r, bad)
    requires AllMend(q.dag, FailedIn(q.dag, BatchOf(p, r)), cycle, r)
    ensures Mending(s0, r, scope, q, Members(FailedIn(q.dag, BatchOf(p, r))))
  {
    BatchEndsCalmly(s0, r, scope, bad, p, q, m, cycle);
    FailuresAreToMend(s0, p.dag, m.dag, bad, BatchOf(p, r), cycle, r);
  }

  lemma CalmBatchCounts(s: DagState, t: DagState, batch: seq<string>, bad: set<(nat, string)>, cycle: nat)
    requires NoDuplicates(batch) && AllReady(s, Members(batch)) && EndedCalmly(s, t, Members(batch), bad, cycle)
    ensures var failed := FailedIn(t, batch);
      && NoDuplicates(failed) && |t| == |s| && |Finished(t)| == |Finished(s)| + |batch| - |failed|
      && forall k | k in failed :: (cycle, k) in bad
  {
    FailuresAreListed(s, t, bad, batch, cycle);
    BatchCounts(s, t, batch);
    assert |t| == |t.Keys| == |s.Keys|;
  }

  /** What a quiet batch does to the counts. */
  lemma BatchAdvances(s0: DagState, r: RunSetting, scope: Scope, bad: set<(nat, string)>, p: RunState, q: RunState,
                      m: Moment, cycle: nat)
    requires OnTheWay(s0, r, scope, p) && BatchStep(p, q, m, cycle, r) && FailsOnlyIn(r, bad)
    ensures var batch := BatchOf(p, r);
      var failed := FailedIn(q.dag, batch);
      && 1 <= |batch| <= r.maxParallel && NoDuplicates(failed) && |q.dag| == |p.dag| && !q.raised
      && |Finished(q.dag)| == |Finished(p.dag)| + |batch| - |failed|
      && forall k | k in failed :: (cycle, k) in bad
  {
    BatchIsReady(p, r);
    BatchEndsCalmly(s0, r, scope, bad, p, q, m, cycle);
    CalmBatchCounts(p.dag, m.dag, BatchOf(p, r), bad, cycle);
  }

  lemma {:induction false} CounterIsBounded(p: RunState, failed: seq<string>, cycle: nat, r: RunSetting)
    ensures ReplannedInOrder(p, failed, cycle, r).counter <= p.counter + |failed|
    decreases |failed|
  {
    if failed != [] && p.rejected == None {
      CounterIsBounded(AfterReplan(p, failed[0], r.oracle(cycle, failed[0]).failure, r), failed[1..], cycle, r);
    }
  }

  /** Recovery after a quiet batch, if no insertion is refused. */
  lemma RecoveryStaysOnTheWay(s0: DagState, r: RunSetting, scope: Scope, b: RunState, q: RunState,
                              ending: Option<Ending>, batch: seq<string>, cycle: nat)
    requires RecoverStep(b, q, ending, batch, cycle, r) && Mending(s0, r, scope, b, Members(FailedIn(b.dag, batch)))
    requires NoDuplicates(FailedIn(b.dag, batch)) && AllMend(b.dag, FailedIn(b.dag, batch), cycle, r)
    ensures q.rejected == None ==>
      && ending == None && OnTheWay(s0, r, scope, q) && Finished(q.dag) == Finished(b.dag)
      && |q.dag| == |b.dag| + |FailedIn(b.dag, batch)| && q.executed == b.executed
    ensures q.counter <= b.counter + |FailedIn(b.dag, batch)|
  {
    var failed := FailedIn(b.dag, batch);
    if failed == [] {
      assert Members(failed) == {};
    } else {
      assert Mends(b.dag, failed[0], cycle, r);
      CounterIsBounded(b, failed, cycle, r);
      if q.rejected == None {
        ReplannedIsWorkable(s0, r, scope, b, failed, cycle);
      }
    }
  }

  /** Where a run is that has met some of the failures: it is no further from its end than they account for, and
      no more than most nodes have been finished. */
  ghost predicate OnTrack(s0: DagState, c0: nat, r: RunSetting, scope: Scope, met: nat, most: nat, p: RunState) {
    && OnTheWay(s0, r, scope, p) && p.counter <= c0 + met
    && Open(p.dag) + p.executed <= Open(s0) + 2 * met && |Finished(p.dag)| <= |Finished(s0)| + most
  }

  /** Recovery does not mend some failure in the batch of p. */
  ghost predicate LosesIn(p: RunState, m: Moment, cycle: nat, r: RunSetting) {
    !AllMend(m.dag, FailedIn(m.dag, BatchOf(p, r)), cycle, r)
  }

  /** A cycle that runs a batch: n nodes are executed, f of them fail. */
  lemma WorkCounts(s0: DagState, r: RunSetting, scope: Scope, bad: set<(nat, string)>, p: RunState, q: RunState,
                   m: Moment, ending: Option<Ending>, before: nat, cycle: nat) returns (n: nat, f: nat)
    requires OnTheWay(s0, r, scope, p) && WorkStep(p, q, m, ending, cycle, r) && BatchOf(p, r) != []
    requires cycle == before + 1
    requires FailsOnlyIn(r, bad)
    ensures n == |BatchOf(p, r)| && f == |FailedIn(m.dag, BatchOf(p, r))| && 1 <= n <= r.maxParallel
    ensures |Used(bad, before)| + f <= |Used(bad, cycle)| && q.counter <= p.counter + f
  {
    var batch := BatchOf(p, r);
    var b := AfterBatch(p, m, Members(batch));
    BatchAdvances(s0, r, scope, bad, p, b, m, cycle);
    var failed := FailedIn(b.dag, batch);
    n, f := |batch|, |failed|;
    FailuresAreUsed(bad, before, cycle, failed);
    CounterIsBounded(b, failed, cycle, r);
  }

  lemma WorkStaysOnTheWay(s0: DagState, c0: nat, r: RunSetting, scope: Scope, bad: set<(nat, string)>, p: RunState,
                          q: RunState, m: Moment, ending: Option<Ending>, cycle: nat)
    requires OnTheWay(s0, r, scope, p) && WorkStep(p, q, m, ending, cycle, r) && BatchOf(p, r) != []
    requires FailsOnlyIn(r, bad) && IdsLast(s0, c0, r, bad) && !LosesIn(p, m, cycle, r)
    ensures bad == {} || !r.replans ==> q.rejected == None
    ensures var n, f := |BatchOf(p, r)|, |FailedIn(m.dag, BatchOf(p, r))|;
      q.rejected == None ==>
        && ending == None && OnTheWay(s0, r, scope, q) && q.executed == p.executed + 1
        && |Finished(q.dag)| == |Finished(p.dag)| + n - f && Open(q.dag) == Open(p.dag) - n + 2 * f
  {
    var batch := BatchOf(p, r);
    var b := AfterBatch(p, m, Members(batch));
    BatchIsMendable(s0, r, scope, bad, p, b, m, cycle);
    BatchAdvances(s0, r, scope, bad, p, b, m, cycle);
    var failed := FailedIn(b.dag, batch);
    assert failed != [] ==> (cycle, failed[0]) in bad;
    RecoveryStaysOnTheWay(s0, r, scope, b, q, ending, batch, cycle);
  }

  /** Recovery does not mend some failure in the cycle that goes from p to d. */
  ghost predicate Loses(p: RunState, d: Round, r: RunSetting) {
    LosesIn(p.(dag := Promoted(p.dag)), d.m, d.cycle, r)
  }

  lemma WorkStaysOnTrack(s0: DagState, c0: nat, r: RunSetting, scope: Scope, bad: set<(nat, string)>, p: RunState,
                         q: RunState, m: Moment, ending: Option<Ending>, before: nat, cycle: nat, most: nat)
    requires OnTrack(s0, c0, r, scope, |Used(bad, before)|, most, p) && WorkStep(p, q, m, ending, cycle, r)
    requires BatchOf(p, r) != []
    requires FailsOnlyIn(r, bad) && IdsLast(s0, c0, r, bad) && !LosesIn(p, m, cycle, r)
    requires cycle == before + 1
    requires bad != {} && r.replans && q.counter <= c0 + |bad| ==> q.rejected == None
    ensures OnTrack(s0, c0, r, scope, |Used(bad, cycle)|, most + r.maxParallel, q)
  {
    UsedAreBad(bad, cycle);
    var n, f := WorkCounts(s0, r, scope, bad, p, q, m, ending, before, cycle);
    WorkStaysOnTheWay(s0, c0, r, scope, bad, p, q, m, ending, cycle);
  }

  lemma PromotionStaysOnTrack(s0: DagState, c0: nat, r: RunSetting, scope: Scope, met: nat, most: nat, p: RunState)
    requires OnTrack(s0, c0, r, scope, met, most, p)
    ensures OnTrack(s0, c0, r, scope, met, most, p.(dag := Promoted(p.dag)))
  {
    PromotionStaysOnTheWay(s0, r, scope, p);
  }

  /** One cycle of a run that is on track. */
  lemma RoundStaysOnTrack(s0: DagState, c0: nat, r: RunSetting, scope: Scope, bad: set<(nat, string)>, p: RunState,
                          d: Round, before: nat, cycle: nat, most: nat)
    requires OnTrack(s0, c0, r, scope, |Used(bad, before)|, most, p) && IsRound(p, d, r) && d.cycle == cycle
    requires cycle == before + 1
    requires FailsOnlyIn(r, bad) && IdsLast(s0, c0, r, bad) && !Loses(p, d, r)
    requires bad != {} && r.replans && d.after.counter <= c0 + |bad| ==> d.after.rejected == None
    ensures OnTrack(s0, c0, r, scope, |Used(bad, cycle)|, most + r.maxParallel, d.after)
  {
    var promoted := p.(dag := Promoted(p.dag));
    PromotionStaysOnTrack(s0, c0, r, scope, |Used(bad, before)|, most, p);
    if BatchOf(promoted, r) == [] {
      FailuresAreUsed(bad, before, cycle, []);
    } else {
      WorkStaysOnTrack(s0, c0, r, scope, bad, promoted, d.after, d.m, d.ending, before, cycle, most);
    }
  }

  // ---- Whole runs ----

  /** What completion relies on beside the DAG itself: only the listed failures, ids for their recoveries, and
      worktrees that the layout of the requirements provides for. */
  ghost predicate Provided(s0: DagState, b0: W.Bindings, c0: nat, r: RunSetting, scope: Scope,
                           bad: set<(nat, string)>) {
    && r.maxParallel >= 1 && FailsOnlyIn(r, bad) && IdsLast(s0, c0, r, bad)
    && (r.managed ==> r.maxActive >= 1 && |b0| <= r.maxActive && Served(s0, b0.Keys, scope))
  }

  ghost predicate CanComplete(s0: DagState, b0: W.Bindings, c0: nat, r: RunSetting, scope: Scope,
                              bad: set<(nat, string)>) {
    Workable(s0) && Provided(s0, b0, c0, r, scope, bad)
  }

  /** The replanner is never refused while it has met listed failures only. */
  lemma NothingIsRefused(s0: DagState, b0: W.Bindings, c0: nat, r: RunSetting, scope: Scope, bad: set<(nat, string)>,
                         p: RunState)
    requires Safe(s0, b0, c0, p, r) && CanComplete(s0, b0, c0, r, scope, bad)
    ensures bad != {} && r.replans && p.counter <= c0 + |bad| ==> p.rejected == None
  {
  }

  /** limit * cycles */
  function Most(limit: nat, cycles: nat): nat {
    if cycles == 0 then 0 else Most(limit, cycles - 1) + limit
  }

  lemma MostGrows(limit: nat, n: nat, next: nat)
    requires next == n + 1
    ensures Most(limit, next) == Most(limit, n) + limit
  {
  }

  lemma {:induction false} MostIsProduct(limit: nat, cycles: nat)
    ensures Most(limit, cycles) == limit * cycles
  {
    if cycles > 0 {
      MostIsProduct(limit, cycles - 1);
      assert limit * cycles == limit * (cycles - 1) + limit;
    }
  }

  /** Safe and on track after n cycles. */
  ghost predicate WellAfter(s0: DagState, b0: W.Bindings, c0: nat, r: RunSetting, scope: Scope,
                            bad: set<(nat, string)>, n: nat, p: RunState) {
    Safe(s0, b0, c0, p, r) && OnTrack(s0, c0, r, scope, |Used(bad, n)|, Most(r.maxParallel, n), p)
  }

  lemma StaysWell(s0: DagState, b0: W.Bindings, c0: nat, r: RunSetting, scope: Scope, bad: set<(nat, string)>,
                  p: RunState, d: Round, n: nat, next: nat)
    requires CanComplete(s0, b0, c0, r, scope, bad) && WellAfter(s0, b0, c0, r, scope, bad, n, p)
    requires IsRound(p, d, r) && d.cycle == next && next == n + 1 && !Loses(p, d, r)
    ensures WellAfter(s0, b0, c0, r, scope, bad, next, d.after)
  {
    RoundIsSafe(s0, b0, c0, p, d, r);
    NothingIsRefused(s0, b0, c0, r, scope, bad, d.after);
    MostGrows(r.maxParallel, n, next);
    RoundStaysOnTrack(s0, c0, r, scope, bad, p, d, n, next, Most(r.maxParallel, n));
  }

  /** Recovery mends every failure of the first n cycles. */
  ghost predicate NothingLost(start: RunState, rounds: seq<Round>, n: nat, r: RunSetting)
    requires n <= |rounds|
  {
    forall i | 0 <= i < n :: !Loses(Reached(start, rounds, i), rounds[i], r)
  }

  lemma {:induction false} RunStaysWell(s0: DagState, order: seq<string>, b0: W.Bindings, c0: nat, rounds: seq<Round>,
                                        n: nat, r: RunSetting, scope: Scope, bad: set<(nat, string)>)
    requires IsRun(StartOfRun(s0, order, b0, c0), rounds, r) && CanComplete(s0, b0, c0, r, scope, bad)
    requires n <= |rounds| && NothingLost(StartOfRun(s0, order, b0, c0), rounds, n, r)
    ensures WellAfter(s0, b0, c0, r, scope, bad, n, Reached(StartOfRun(s0, order, b0, c0), rounds, n))
    decreases n
  {
    var start := StartOfRun(s0, order, b0, c0);
    if n == 0 {
      StartIsSafe(s0, order, b0, c0, r);
      assert OnTheWay(s0, r, scope, start);
    } else {
      var before := n - 1;
      RunStaysWell(s0, order, b0, c0, rounds, before, r, scope, bad);
      RoundOf(start, rounds, before, n, r);
      StaysWell(s0, b0, c0, r, scope, bad, Reached(start, rounds, before), rounds[before], before, n);
    }
  }

  /** A run on its way finds a batch until everything is finished. */
  lemma AlwaysSchedulable(s0: DagState, r: RunSetting, scope: Scope, p: RunState)
    requires OnTheWay(s0, r, scope, p) && Promoted(p.dag) == p.dag && Listed(p) && !AllFinished(p.dag)
    requires r.maxParallel >= 1 && (r.managed ==> r.maxActive >= 1)
    ensures BatchOf(p, r) != []
  {
    var ready := ReadyIn(p.dag, p.order);
    if r.managed {
      var k := NeverStarved(p.dag, p.bound, scope, r.maxActive);
      assert k in ready;
      var i :| 0 <= i < |ready| && ready[i] == k;
      var c := CandidatesOf(ready, p.dag);
      assert c[i] == W.Candidate(k, p.dag[k].refs) && c[i] in c;
      AdmissionIsNotEmpty(c, r.maxParallel, p.bound, W.Slots(p.bound, r.maxActive), c[i]);
    } else {
      var k := SomeNodeIsReady(p.dag);
      assert k in ready;
    }
  }

  /** How a run with F failures at most ends: when all is finished or the cycles are used up, never otherwise; in
      no more than two cycles for every failure beside one for every unfinished node; and no sooner than the
      size of the batches allows. */
  ghost predicate Completes(s0: DagState, rounds: seq<Round>, end: RunState, maxCycles: int, r: RunSetting,
                            scope: Scope, failures: nat) {
    && (maxCycles >= Open(s0) + 2 * failures ==> AllFinished(end.dag))
    && (AllFinished(end.dag) || |rounds| >= maxCycles) && !end.raised && end.rejected == None
    && |rounds| <= Open(s0) + 2 * failures + 1
    && (AllFinished(end.dag) ==> Open(s0) <= r.maxParallel * |rounds|)
    && (r.managed ==> |end.bound| <= r.maxActive && Served(end.dag, end.bound, scope))
  }

  lemma EndsWell(s0: DagState, r: RunSetting, scope: Scope, ending: Ending, p: RunState, cycles: nat, maxCycles: int)
    requires OnTheWay(s0, r, scope, p) && EndsAs(ending, p, cycles, maxCycles, r)
    requires r.maxParallel >= 1 && (r.managed ==> r.maxActive >= 1)
    ensures ending == OutOfCycles || (ending == NothingSchedulable && AllFinished(p.dag))
    ensures cycles <= p.executed + 1 && (ending == OutOfCycles ==> p.executed == cycles >= maxCycles)
  {
    assert forall k | k in p.dag :: InOrder(p.dag[k]);
    if ending == NothingSchedulable && !AllFinished(p.dag) {
      AlwaysSchedulable(s0, r, scope, p);
    }
  }

  /** A run in which recovery mends every failure completes. */
  lemma RunCompletes(s0: DagState, order: seq<string>, b0: W.Bindings, c0: nat, rounds: seq<Round>, ending: Ending,
                     maxCycles: int, r: RunSetting, scope: Scope, bad: set<(nat, string)>)
    requires IsRun(StartOfRun(s0, order, b0, c0), rounds, r) && EndedBy(ending, rounds, maxCycles)
    requires CanComplete(s0, b0, c0, r, scope, bad) && NothingLost(StartOfRun(s0, order, b0, c0), rounds, |rounds|, r)
    ensures ending in {OutOfCycles, NothingSchedulable}
    ensures Completes(s0, rounds, EndOf(StartOfRun(s0, order, b0, c0), rounds), maxCycles, r, scope, |bad|)
  {
    var start, end := StartOfRun(s0, order, b0, c0), EndOf(StartOfRun(s0, order, b0, c0), rounds);
    RunStaysWell(s0, order, b0, c0, rounds, |rounds|, r, scope, bad);
    HowRunsEnd(start, rounds, ending, maxCycles, r);
    EndsWell(s0, r, scope, ending, end, |rounds|, maxCycles);
    UsedAreBad(bad, |rounds|);
    MostIsProduct(r.maxParallel, |rounds|);
    FinishedCounts(end.dag);
    SubsetSize(s0.Keys, end.dag.Keys);
  }

  // ---- Exactly when: a failure that nothing mends ----

  /** A failure that recovery does not mend leaves the DAG stuck. */
  lemma LossSticks(b: RunState, q: RunState, ending: Option<Ending>, batch: seq<string>, cycle: nat, r: RunSetting)
    requires RecoverStep(b, q, ending, batch, cycle, r) && b.rejected == None && (r.replans ==> q.rejected == None)
    requires NoDuplicates(FailedIn(b.dag, batch)) && !AllMend(b.dag, FailedIn(b.dag, batch), cycle, r)
    ensures Stuck(q.dag)
  {
    var failed := FailedIn(b.dag, batch);
    var k :| k in failed && !Mends(b.dag, k, cycle, r);
    FailedInHolds(b.dag, batch, k);
    if r.replans && HasRecovery(r.oracle(cycle, k).failure) {
      var id := ReplannedNodesWait(b, failed, cycle, r, k);
      assert id in q.dag && !InOrder(q.dag[id]);
    } else {
      if r.replans {
        LeftAlone(b, failed, cycle, r, k);
      }
      assert k in q.dag && !InOrder(q.dag[k]);
    }
  }

  lemma LossIsStuck(s0: DagState, b0: W.Bindings, c0: nat, r: RunSetting, scope: Scope, bad: set<(nat, string)>,
                    p: RunState, d: Round, n: nat, next: nat)
    requires CanComplete(s0, b0, c0, r, scope, bad) && WellAfter(s0, b0, c0, r, scope, bad, n, p)
    requires IsRound(p, d, r) && d.cycle == next && next == n + 1 && Loses(p, d, r)
    ensures Stuck(d.after.dag)
  {
    var promoted := p.(dag := Promoted(p.dag));
    PromotionStaysOnTheWay(s0, r, scope, p);
    var batch := BatchOf(promoted, r);
    var b := AfterBatch(promoted, d.m, Members(batch));
    var many, f := WorkCounts(s0, r, scope, bad, promoted, d.after, d.m, d.ending, n, next);
    BatchAdvances(s0, r, scope, bad, promoted, b, d.m, next);
    RoundIsSafe(s0, b0, c0, p, d, r);
    UsedAreBad(bad, next);
    NothingIsRefused(s0, b0, c0, r, scope, bad, d.after);
    LossSticks(b, d.after, d.ending, batch, next, r);
  }

  lemma {:induction false} First(holds: int -> bool, n: nat) returns (i: nat)
    requires exists j :: 0 <= j < n && holds(j)
    ensures i < n && holds(i) && forall j | 0 <= j < i :: !holds(j)
  {
    i := n - 1;
    if exists j :: 0 <= j < i && holds(j) {
      i := First(holds, i);
    }
  }

  lemma FirstLoss(start: RunState, rounds: seq<Round>, n: nat, r: RunSetting) returns (i: nat)
    requires n <= |rounds| && !NothingLost(start, rounds, n, r)
    ensures i < n && NothingLost(start, rounds, i, r) && Loses(Reached(start, rounds, i), rounds[i], r)
  {
    var fails := (i: int) => 0 <= i < |rounds| && Loses(Reached(start, rounds, i), rounds[i], r);
    var j :| 0 <= j < n && Loses(Reached(start, rounds, j), rounds[j], r);
    assert fails(j);
    i := First(fails, n);
    forall k | 0 <= k < i
      ensures !Loses(Reached(start, rounds, k), rounds[k], r)
    {
      assert !fails(k);
    }
  }

  /** A run with a failure that recovery does not mend never finishes, however many cycles it has. */
  lemma LossIsFinal(s0: DagState, order: seq<string>, b0: W.Bindings, c0: nat, rounds: seq<Round>, r: RunSetting,
                    scope: Scope, bad: set<(nat, string)>)
    requires IsRun(StartOfRun(s0, order, b0, c0), rounds, r) && CanComplete(s0, b0, c0, r, scope, bad)
    requires !NothingLost(StartOfRun(s0, order, b0, c0), rounds, |rounds|, r)
    ensures !AllFinished(EndOf(StartOfRun(s0, order, b0, c0), rounds).dag)
  {
    var start := StartOfRun(s0, order, b0, c0);
    var i := FirstLoss(start, rounds, |rounds|, r);
    var next := i + 1;
    RunStaysWell(s0, order, b0, c0, rounds, i, r, scope, bad);
    RoundOf(start, rounds, i, next, r);
    LossIsStuck(s0, b0, c0, r, scope, bad, Reached(start, rounds, i), rounds[i], i, next);
    StuckIsForever(start, rounds, next, |rounds|, r);
  }

  /** In a run that throws nothing and has cycles to spare, everything is finished at the end if and only if every
      node was ready, succeeded or waiting for others at the start, and recovery has mended every failure. */
  lemma CompletesIff(s0: DagState, order: seq<string>, b0: W.Bindings, c0: nat, rounds: seq<Round>, ending: Ending,
                     maxCycles: int, r: RunSetting, scope: Scope, bad: set<(nat, string)>)
    requires IsRun(StartOfRun(s0, order, b0, c0), rounds, r) && EndedBy(ending, rounds, maxCycles)
    requires AcyclicDag(s0) && NoDangling(s0) && DependencyClosed(s0)
    requires Provided(s0, b0, c0, r, scope, bad) && maxCycles >= Open(s0) + 2 * |bad|
    ensures AllFinished(EndOf(StartOfRun(s0, order, b0, c0), rounds).dag) <==>
            !Stuck(s0) && NothingLost(StartOfRun(s0, order, b0, c0), rounds, |rounds|, r)
  {
    if Stuck(s0) {
      StuckIsForever(StartOfRun(s0, order, b0, c0), rounds, 0, |rounds|, r);
    } else if NothingLost(StartOfRun(s0, order, b0, c0), rounds, |rounds|, r) {
      RunCompletes(s0, order, b0, c0, rounds, ending, maxCycles, r, scope, bad);
    } else {
      LossIsFinal(s0, order, b0, c0, rounds, r, scope, bad);
    }
  }

  // ---- What decides it before the run ----

  /** A node without dependencies is safe when it is finished, or never in the list of failures. */
  ghost predicate RootsSpared(s0: DagState, bad: set<(nat, string)>, p: RunState) {
    forall k | k in s0 && s0[k].deps == [] :: IsDone(p.dag, k) || forall c :: (c, k) !in bad
  }

  /** Every listed failure has a recovery, and somebody to see to it. */
  ghost predicate HaveRecoveries(r: RunSetting, bad: set<(nat, string)>) {
    forall b | b in bad :: r.replans && HasRecovery(r.oracle(b.0, b.1).failure)
  }

  lemma SparedIsMended(s0: DagState, s: DagState, t: DagState, r: RunSetting, bad: set<(nat, string)>, p: RunState,
                       batch: seq<string>, cycle: nat)
    requires HaveRecoveries(r, bad)
    requires RootsKept(s0, s) && RootsSpared(s0, bad, p) && AllReady(s, Members(batch)) && OnlyStatuses(s, t)
    requires EndedCalmly(s, t, Members(batch), bad, cycle) && s == Promoted(p.dag)
    ensures AllMend(t, FailedIn(t, batch), cycle, r)
  {
    FailuresAreListed(s, t, bad, batch, cycle);
    forall k | k in FailedIn(t, batch)
      ensures Mends(t, k, cycle, r)
    {
      assert (cycle, k) in bad && !IsDone(s, k);
    }
  }

  lemma SparedRootsHold(s0: DagState, r: RunSetting, scope: Scope, bad: set<(nat, string)>, p: RunState, d: Round)
    requires OnTheWay(s0, r, scope, p) && IsRound(p, d, r) && FailsOnlyIn(r, bad) && RootsSpared(s0, bad, p)
    requires HaveRecoveries(r, bad)
    ensures !Loses(p, d, r)
  {
    var promoted := p.(dag := Promoted(p.dag));
    PromotionStaysOnTheWay(s0, r, scope, p);
    var batch := BatchOf(promoted, r);
    if batch != [] {
      BatchEndsCalmly(s0, r, scope, bad, promoted, AfterBatch(promoted, d.m, Members(batch)), d.m, d.cycle);
      SparedIsMended(s0, promoted.dag, d.m.dag, r, bad, p, batch, d.cycle);
    }
  }

  lemma SparedStay(s0: DagState, r: RunSetting, bad: set<(nat, string)>, p: RunState, d: Round)
    requires IsRound(p, d, r) && RootsSpared(s0, bad, p)
    ensures RootsSpared(s0, bad, d.after)
  {
    RoundKeepsDagSafe(p, d, r);
  }

  lemma NothingLostYet(start: RunState, rounds: seq<Round>, before: nat, n: nat, r: RunSetting)
    requires n == before + 1 && n <= |rounds| && NothingLost(start, rounds, before, r)
    requires !Loses(Reached(start, rounds, before), rounds[before], r)
    ensures NothingLost(start, rounds, n, r)
  {
    forall i | 0 <= i < n
      ensures !Loses(Reached(start, rounds, i), rounds[i], r)
    {
      assert i == before || i < before;
    }
  }

  /** Once every node without dependencies is spared, recovery mends every failure, if all have recoveries. */
  lemma {:induction false} SparedRootsLoseNothing(s0: DagState, order: seq<string>, b0: W.Bindings, c0: nat,
                                                  rounds: seq<Round>, from: nat, n: nat, r: RunSetting, scope: Scope,
                                                  bad: set<(nat, string)>)
    requires IsRun(StartOfRun(s0, order, b0, c0), rounds, r) && CanComplete(s0, b0, c0, r, scope, bad)
    requires from <= n <= |rounds| && HaveRecoveries(r, bad)
    requires NothingLost(StartOfRun(s0, order, b0, c0), rounds, from, r)
    requires RootsSpared(s0, bad, Reached(StartOfRun(s0, order, b0, c0), rounds, from))
    ensures NothingLost(StartOfRun(s0, order, b0, c0), rounds, n, r)
    ensures RootsSpared(s0, bad, Reached(StartOfRun(s0, order, b0, c0), rounds, n))
    decreases n
  {
    if from < n {
      var start, before := StartOfRun(s0, order, b0, c0), n - 1;
      SparedRootsLoseNothing(s0, order, b0, c0, rounds, from, before, r, scope, bad);
      RunStaysWell(s0, order, b0, c0, rounds, before, r, scope, bad);
      RoundOf(start, rounds, before, n, r);
      SparedRootsHold(s0, r, scope, bad, Reached(start, rounds, before), rounds[before]);
      SparedStay(s0, r, bad, Reached(start, rounds, before), rounds[before]);
      NothingLostYet(start, rounds, before, n, r);
    }
  }
}
