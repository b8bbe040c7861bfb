/** Safety of whole runs: for all answers, all interleavings and any DAG. */
module RunSafety {
  import opened Digraphs
  import opened Schemas
  import opened Sequences
  import opened DagMutator
  import opened DagProgress
  import opened DagInvariants
  import opened AgencyTheory
  import opened Batches
  import opened Replanning
  import opened Runs
  import opened Wrappers
  import W = Worktrees

  ghost predicate LegibleUpTo(counter: nat) {
    forall c: nat | c <= counter :: Legible(c)
  }

  /** k is planned and waits for nothing, so it is never promoted. */
  ghost predicate StalledAt(s: DagState, k: string) {
    k in s && s[k].status == Planned && s[k].deps == []
  }

  /** A planned node without dependencies is never promoted. */
  ghost predicate StalledStay(s: DagState, s': DagState) {
    forall k | StalledAt(s, k) :: k in s' && s'[k] == s[k]
  }

  ghost predicate SafeDag(s0: DagState, s: DagState) {
    Evolves(s0, s) && (DependencyClosed(s0) ==> DependencyClosed(s)) && StalledStay(s0, s)
  }

  /** A node that is neither planned nor ready when the run starts is left as it is: run_dag replans the
      nodes of its own batches only, so what it finds in REPLAN_REQUIRED stays there. */
  ghost predicate OutOfPlayStay(s0: DagState, p: RunState) {
    forall k | k in s0 && s0[k].status != Planned && s0[k].status != Ready ::
      k !in p.batch && k in p.dag && p.dag[k] == s0[k]
  }

  ghost predicate SafeWorktrees(b0: W.Bindings, p: RunState, r: RunSetting) {
    && (r.managed && |b0| <= r.maxActive ==> |p.bound| <= r.maxActive)
    && (!r.managed || |b0| <= r.maxActive ==> !p.starved)
  }

  ghost predicate SafeRecovery(s0: DagState, c0: nat, p: RunState) {
    && p.counter >= c0 && (FreshIds(s0, c0) && LegibleUpTo(p.counter) ==> FreshIds(p.dag, p.counter))
    && (AcyclicDag(s0) && NoDangling(s0) ==>
          && p.rejected in {None, Some(DuplicateId)}
          && (FreshIds(s0, c0) && LegibleUpTo(p.counter) ==> p.rejected == None))
  }

  ghost predicate Safe(s0: DagState, b0: W.Bindings, c0: nat, p: RunState, r: RunSetting) {
    SafeDag(s0, p.dag) && OutOfPlayStay(s0, p) && SafeWorktrees(b0, p, r) && SafeRecovery(s0, c0, p)
  }

  lemma PromotionChangesStatuses(s: DagState)
    ensures OnlyStatuses(s, Promoted(s)) && Promoted(s).Keys == s.Keys && StalledStay(s, Promoted(s))
  {
  }

  lemma SafeDagExtends(s0: DagState, s: DagState, s': DagState)
    requires SafeDag(s0, s) && SafeDag(s, s')
    ensures SafeDag(s0, s')
  {
    EvolvesTransitive(s0, s, s');
  }

  lemma PromotionKeepsDagSafe(s: DagState)
    ensures SafeDag(s, Promoted(s))
  {
    PromotionChangesStatuses(s);
    StatusesEvolve(s, Promoted(s));
    if DependencyClosed(s) {
      PromotionKeepsClosure(s);
    }
  }

  lemma PromotionIsSafe(s0: DagState, b0: W.Bindings, c0: nat, p: RunState, q: RunState, r: RunSetting)
    requires Safe(s0, b0, c0, p, r) && PromoteStep(p, q)
    ensures Safe(s0, b0, c0, q, r)
  {
    PromotionKeepsDagSafe(p.dag);
    SafeDagExtends(s0, p.dag, q.dag);
  }

  lemma BatchKeepsDagSafe(p: RunState, m: Moment, ids: set<string>, c: Setting)
    requires AllReady(p.dag, ids) && BatchInvariant(p.dag, p.bindings, m, ids, c)
    ensures SafeDag(p.dag, m.dag) && m.dag.Keys == p.dag.Keys
    ensures forall k | k in p.dag && k !in ids :: k in m.dag && m.dag[k] == p.dag[k]
  {
    StatusesEvolve(p.dag, m.dag);
  }

  lemma BatchKeepsWorktreesSafe(b0: W.Bindings, p: RunState, q: RunState, m: Moment, cycle: nat, r: RunSetting)
    requires SafeWorktrees(b0, p, r) && BatchStep(p, q, m, cycle, r)
    ensures SafeWorktrees(b0, q, r)
  {
    BatchIsReady(p, r);
    if !r.managed || |b0| <= r.maxActive {
      BatchFits(p, r, cycle);
      SubsetSize(m.bound, p.bound + Requirements(p.dag, Members(BatchOf(p, r))));
    }
  }

  lemma BatchKeepsRecoverySafe(s0: DagState, c0: nat, p: RunState, m: Moment, ids: set<string>)
    requires SafeRecovery(s0, c0, p) && m.dag.Keys == p.dag.Keys
    ensures SafeRecovery(s0, c0, AfterBatch(p, m, ids))
  {
  }

  lemma BatchKeepsOutOfPlay(s0: DagState, p: RunState, m: Moment, ids: set<string>)
    requires OutOfPlayStay(s0, p) && AllReady(p.dag, ids)
    requires forall k | k in p.dag && k !in ids :: k in m.dag && m.dag[k] == p.dag[k]
    ensures OutOfPlayStay(s0, AfterBatch(p, m, ids))
  {
  }

  lemma BatchIsSafe(s0: DagState, b0: W.Bindings, c0: nat, p: RunState, q: RunState, m: Moment, cycle: nat,
                    r: RunSetting)
    requires Safe(s0, b0, c0, p, r) && BatchStep(p, q, m, cycle, r)
    ensures Safe(s0, b0, c0, q, r)
  {
    var ids := Members(BatchOf(p, r));
    BatchIsReady(p, r);
    BatchKeepsDagSafe(p, m, ids, InCycle(r, cycle));
    SafeDagExtends(s0, p.dag, m.dag);
    BatchKeepsWorktreesSafe(b0, p, q, m, cycle, r);
    BatchKeepsOutOfPlay(s0, p, m, ids);
    BatchKeepsRecoverySafe(s0, c0, p, m, ids);
  }

  lemma RecoveryIsSafe(s: DagState, t: string, id: string, n: NodeState)
    requires t in s && s[t].status == ReplanRequired && n.status == Planned
    requires AddVerdict(s, n.dagId, id, n.(deps := s[t].deps)) == Applied
    ensures Evolves(s, InsertedBefore(s, t, id, n)) && StalledStay(s, InsertedBefore(s, t, id, n))
    ensures DependencyClosed(s) ==> DependencyClosed(InsertedBefore(s, t, id, n))
  {
    InsertedBeforeAcyclic(s, t, id, n);
    RecoveryEvolves(s, t, id, n);
    if DependencyClosed(s) {
      RecoveryKeepsClosure(s, t, id, n);
    }
  }

  lemma ReplanKeepsDagSafe(s0: DagState, p: RunState, q: RunState, failed: string, kind: FailureKind, r: RunSetting)
    requires SafeDag(s0, p.dag) && ReplanStep(p, q, failed, kind, r)
    ensures SafeDag(s0, q.dag)
  {
    var id, n := RecoveryId(p.counter + 1, kind, failed), RecoveryNode(p.dag, r.dagId, failed);
    if RecoveryVerdict(p.dag, r.dagId, failed, id) == Applied {
      RecoveryIsSafe(p.dag, failed, id, n);
      SafeDagExtends(s0, p.dag, q.dag);
    }
  }

  lemma ReplanLeavesOthers(p: RunState, q: RunState, failed: string, kind: FailureKind, r: RunSetting)
    requires ReplanStep(p, q, failed, kind, r)
    ensures q.batch == p.batch && q.bound == p.bound && q.starved == p.starved
    ensures forall k | k in p.dag && k !in p.batch :: k in q.dag && q.dag[k] == p.dag[k]
  {
  }

  lemma ReplanKeepsIdsFresh(p: RunState, q: RunState, failed: string, kind: FailureKind, r: RunSetting)
    requires ReplanStep(p, q, failed, kind, r) && LegibleUpTo(q.counter)
    requires LegibleUpTo(p.counter) ==> FreshIds(p.dag, p.counter)
    ensures FreshIds(q.dag, q.counter)
  {
    assert Legible(p.counter + 1);
    InsertionKeepsIdsFresh(p.dag, p.counter, failed, kind, RecoveryNode(p.dag, r.dagId, failed));
  }

  lemma ReplanIsRefusedOnTakenId(p: RunState, q: RunState, failed: string, kind: FailureKind, r: RunSetting)
    requires ReplanStep(p, q, failed, kind, r) && AcyclicDag(p.dag) && NoDangling(p.dag)
    ensures q.rejected in {p.rejected, Some(DuplicateId)}
    ensures Legible(p.counter + 1) && FreshIds(p.dag, p.counter) ==> q.rejected == p.rejected
  {
    var id := RecoveryId(p.counter + 1, kind, failed);
    ReplanFailsOnlyOnTakenId(p.dag, r.dagId, failed, id);
    if Legible(p.counter + 1) && FreshIds(p.dag, p.counter) {
      assert id !in p.dag;
    }
  }

  lemma ReplanKeepsRecoverySafe(s0: DagState, c0: nat, p: RunState, q: RunState, failed: string, kind: FailureKind,
                                r: RunSetting)
    requires Evolves(s0, p.dag) && SafeRecovery(s0, c0, p) && ReplanStep(p, q, failed, kind, r)
    ensures SafeRecovery(s0, c0, q)
  {
    if FreshIds(s0, c0) && LegibleUpTo(q.counter) {
      assert Legible(p.counter + 1) && FreshIds(p.dag, p.counter);
      ReplanKeepsIdsFresh(p, q, failed, kind, r);
    }
    if AcyclicDag(s0) && NoDangling(s0) {
      ReplanIsRefusedOnTakenId(p, q, failed, kind, r);
    }
  }

  lemma ReplanIsSafe(s0: DagState, b0: W.Bindings, c0: nat, p: RunState, q: RunState, failed: string,
                     kind: FailureKind, r: RunSetting)
    requires Safe(s0, b0, c0, p, r) && ReplanStep(p, q, failed, kind, r)
    ensures Safe(s0, b0, c0, q, r)
  {
    assert SafeDag(s0, q.dag) by { ReplanKeepsDagSafe(s0, p, q, failed, kind, r); }
    assert SafeRecovery(s0, c0, q) by { ReplanKeepsRecoverySafe(s0, c0, p, q, failed, kind, r); }
    assert OutOfPlayStay(s0, q) by { ReplanLeavesOthers(p, q, failed, kind, r); }
  }

  /** Promotion, batches and recovery keep a run safe. */
  lemma RunsStaySafe(s0: DagState, b0: W.Bindings, c0: nat, r: RunSetting, keeps: RunState -> bool)
    requires forall p :: keeps(p) <==> Safe(s0, b0, c0, p, r)
    ensures RunsKeep(keeps, r)
  {
    forall p, q | keeps(p) && PromoteStep(p, q)
      ensures keeps(q)
    {
      PromotionIsSafe(s0, b0, c0, p, q, r);
    }
    forall p, q, m, cycle | keeps(p) && BatchStep(p, q, m, cycle, r)
      ensures keeps(q)
    {
      BatchIsSafe(s0, b0, c0, p, q, m, cycle, r);
    }
    forall p, q, failed, kind | keeps(p) && ReplanStep(p, q, failed, kind, r)
      ensures keeps(q)
    {
      ReplanIsSafe(s0, b0, c0, p, q, failed, kind, r);
    }
  }

  lemma UnchangedIsSafe(s: DagState)
    ensures SafeDag(s, s)
  {
    NothingChanged(s);
    StatusesEvolve(s, s);
  }

  lemma StartIsSafe(s0: DagState, order: seq<string>, b0: W.Bindings, c0: nat, r: RunSetting)
    ensures Safe(s0, b0, c0, StartOfRun(s0, order, b0, c0), r)
  {
    UnchangedIsSafe(s0);
  }

  /** Whatever the answers and the interleavings: a run is safe after every one of its cycles. */
  lemma RunIsSafeThroughout(s0: DagState, order: seq<string>, b0: W.Bindings, c0: nat, rounds: seq<Round>, i: nat,
                            r: RunSetting)
    requires IsRun(StartOfRun(s0, order, b0, c0), rounds, r) && i <= |rounds|
    ensures Safe(s0, b0, c0, Reached(StartOfRun(s0, order, b0, c0), rounds, i), r)
  {
    var keeps := (p: RunState) => Safe(s0, b0, c0, p, r);
    RunsStaySafe(s0, b0, c0, r, keeps);
    StartIsSafe(s0, order, b0, c0, r);
    RunKeepsThroughout(StartOfRun(s0, order, b0, c0), rounds, 0, i, r, keeps);
  }

  lemma RoundIsSafe(s0: DagState, b0: W.Bindings, c0: nat, p: RunState, d: Round, r: RunSetting)
    requires Safe(s0, b0, c0, p, r) && IsRound(p, d, r)
    ensures Safe(s0, b0, c0, d.after, r)
  {
    var keeps := (p: RunState) => Safe(s0, b0, c0, p, r);
    RunsStaySafe(s0, b0, c0, r, keeps);
    RoundKeeps(p, d, r, keeps);
  }

  /** Safety of the DAG alone, from any state of a run on. */
  lemma DagStaysSafe(s: DagState, r: RunSetting, keeps: RunState -> bool)
    requires forall p :: keeps(p) <==> SafeDag(s, p.dag)
    ensures RunsKeep(keeps, r)
  {
    forall p, q | keeps(p) && PromoteStep(p, q)
      ensures keeps(q)
    {
      PromotionKeepsDagSafe(p.dag);
      SafeDagExtends(s, p.dag, q.dag);
    }
    forall p, q, m, cycle | keeps(p) && BatchStep(p, q, m, cycle, r)
      ensures keeps(q)
    {
      BatchIsReady(p, r);
      BatchKeepsDagSafe(p, m, Members(BatchOf(p, r)), InCycle(r, cycle));
      SafeDagExtends(s, p.dag, q.dag);
    }
    forall p, q, failed, kind | keeps(p) && ReplanStep(p, q, failed, kind, r)
      ensures keeps(q)
    {
      ReplanKeepsDagSafe(s, p, q, failed, kind, r);
    }
  }

  lemma RoundKeepsDagSafe(p: RunState, d: Round, r: RunSetting)
    requires IsRound(p, d, r)
    ensures SafeDag(p.dag, d.after.dag)
  {
    var s := p.dag;
    var keeps := (q: RunState) => SafeDag(s, q.dag);
    UnchangedIsSafe(s);
    DagStaysSafe(s, r, keeps);
    RoundKeeps(p, d, r, keeps);
  }

  // ---- No success without acceptance ----

  /** The execution of k in a cycle was accepted, by the verifier within its budget or, if an exception followed,
      by the cognitive runtime's own. */
  ghost predicate AcceptedIn(k: string, cycle: nat, r: RunSetting) {
    var a := r.oracle(cycle, k);
    if a.crash == NoCrash then a.accepted && (a.toolRounds == 0 || a.toolRounds <= r.maxToolIterations)
    else a.crash == AfterCognition(VerifiedByItself)
  }

  lemma BatchSuccessIsEarned(p: RunState, b: RunState, m: Moment, cycle: nat, r: RunSetting, k: string)
    requires BatchStep(p, b, m, cycle, r) && IsDone(b.dag, k) && !IsDone(p.dag, k)
    ensures k in Members(BatchOf(p, r)) && AcceptedIn(k, cycle, r)
  {
    BatchIsReady(p, r);
    SuccessInBatch(p.dag, m, Members(BatchOf(p, r)), k, InCycle(r, cycle));
  }

  lemma {:induction false} ReplanningFinishesNothing(p: RunState, failed: seq<string>, cycle: nat, r: RunSetting,
                                                     k: string)
    ensures IsDone(ReplannedInOrder(p, failed, cycle, r).dag, k) ==> IsDone(p.dag, k)
    decreases |failed|
  {
    if failed != [] && p.rejected == None {
      ReplanningFinishesNothing(AfterReplan(p, failed[0], r.oracle(cycle, failed[0]).failure, r), failed[1..], cycle,
                                r, k);
    }
  }

  lemma WorkSuccessIsEarned(p: RunState, q: RunState, m: Moment, ending: Option<Ending>, cycle: nat, r: RunSetting,
                            k: string)
    requires WorkStep(p, q, m, ending, cycle, r) && IsDone(q.dag, k) && !IsDone(p.dag, k)
    ensures k in Members(BatchOf(p, r)) && AcceptedIn(k, cycle, r)
  {
    var batch := BatchOf(p, r);
    var b := AfterBatch(p, m, Members(batch));
    ReplanningFinishesNothing(b, FailedIn(b.dag, batch), cycle, r, k);
    BatchSuccessIsEarned(p, b, m, cycle, r, k);
  }

  /** Whatever has succeeded by some cycle of a run had succeeded when it began, or was accepted in one of its
      cycles. */
  lemma {:induction false} SuccessIsEarned(start: RunState, rounds: seq<Round>, n: nat, r: RunSetting, k: string)
    returns (cycle: nat)
    requires IsRun(start, rounds, r) && n <= |rounds| && IsDone(Reached(start, rounds, n).dag, k)
    ensures IsDone(start.dag, k) || (1 <= cycle <= n && AcceptedIn(k, cycle, r))
    decreases n
  {
    cycle := n;
    if n > 0 {
      var before := n - 1;
      RoundOf(start, rounds, before, n, r);
      var p := Reached(start, rounds, before);
      if IsDone(p.dag, k) {
        cycle := SuccessIsEarned(start, rounds, before, r, k);
      } else {
        WorkSuccessIsEarned(p.(dag := Promoted(p.dag)), rounds[before].after, rounds[before].m, rounds[before].ending,
                            n, r, k);
      }
    }
  }

  /** In a cycle that no exception cuts short: a node of the batch succeeds exactly if it is accepted within its
      budget and, where a branch has to be integrated, that succeeds too, given what git has done for it in earlier
      cycles; otherwise it awaits replanning. */
  lemma RoundOutcome(p: RunState, d: Round, r: RunSetting, k: string)
    requires IsRound(p, d, r) && !d.m.raised
    requires var promoted := p.(dag := Promoted(p.dag));
      var ids := Members(BatchOf(promoted, r));
      k in ids && k in promoted.dag && Uncontested(promoted.dag, ids, k) && r.oracle(d.cycle, k).crash == NoCrash
    ensures k in p.dag && k in d.m.dag && d.m.dag[k].status in {Succeeded, ReplanRequired}
    ensures var a, refs, before := r.oracle(d.cycle, k), p.dag[k].refs, p.bindings;
      d.m.dag[k].status == Succeeded <==>
        && (a.toolRounds == 0 || a.toolRounds <= r.maxToolIterations) && a.accepted
        && (r.managed && W.EndsWithVerify(k) && |refs| == 1 ==>
              && (a.git.commit.Some? || (refs[0] in before && before[refs[0]].verifiedCommit.Some?))
              && (a.git.integrate.Some? || (refs[0] in before && before[refs[0]].integratedCommit.Some?))
              && a.git.removed && a.git.callbackOk)
  {
    var promoted := p.(dag := Promoted(p.dag));
    BatchIsReady(promoted, r);
    AcceptedAndIntegrated(promoted.dag, p.bindings, d.m, Members(BatchOf(promoted, r)), k, InCycle(r, d.cycle));
  }

  // ---- A stalled run ----

  ghost predicate Stalled(s: DagState) {
    exists k :: StalledAt(s, k)
  }

  /** Recovery work for a failed node stalls the DAG exactly when that node has no dependencies (or the DAG was
      stalled before): the recovery node takes over the dependencies, and one that is planned without any is
      never promoted. */
  lemma RecoveryStallsIff(s: DagState, dagId: nat, failed: string, id: string)
    requires failed in s && id !in s && s[failed].status == ReplanRequired
    ensures Stalled(InsertedBefore(s, failed, id, RecoveryNode(s, dagId, failed))) <==>
            Stalled(s) || s[failed].deps == []
  {
    var t := InsertedBefore(s, failed, id, RecoveryNode(s, dagId, failed));
    assert t[id].deps == s[failed].deps && t[id].status == Planned && t[failed].deps == [id] && [id] != [];
    forall k
      ensures StalledAt(t, k) <==> StalledAt(s, k) || (k == id && s[failed].deps == [])
    {
    }
    assert s[failed].deps == [] ==> StalledAt(t, id);
    assert forall k | StalledAt(s, k) :: StalledAt(t, k);
  }

  // ---- What a run never takes up again ----

  /** Some node is neither ready nor succeeded, and does not wait for anything. */
  ghost predicate Stuck(s: DagState) {
    exists k :: k in s && !InOrder(s[k])
  }

  lemma BatchLeavesStuck(p: RunState, b: RunState, m: Moment, cycle: nat, r: RunSetting, k: string)
    requires BatchStep(p, b, m, cycle, r) && k in p.dag && !InOrder(p.dag[k])
    ensures k in b.dag && b.dag[k] == p.dag[k] && k !in FailedIn(b.dag, BatchOf(p, r))
  {
    BatchIsReady(p, r);
    BatchKeepsDagSafe(p, m, Members(BatchOf(p, r)), InCycle(r, cycle));
    FailedInHolds(b.dag, BatchOf(p, r), k);
    assert k in BatchOf(p, r) ==> k in Members(BatchOf(p, r));
  }

  lemma RoundLeavesStuck(p: RunState, d: Round, r: RunSetting, k: string)
    requires IsRound(p, d, r) && k in p.dag && !InOrder(p.dag[k])
    ensures k in d.after.dag && d.after.dag[k] == p.dag[k]
  {
    var promoted := p.(dag := Promoted(p.dag));
    var batch := BatchOf(promoted, r);
    if batch != [] {
      var b := AfterBatch(promoted, d.m, Members(batch));
      BatchLeavesStuck(promoted, b, d.m, d.cycle, r, k);
      LeftAlone(b, FailedIn(b.dag, batch), d.cycle, r, k);
    }
  }

  /** run_dag replans the nodes of its own batches only, and only in the cycle in which they failed: a node that is
      neither ready nor succeeded nor waiting for others after some cycle is left as it is by every later one. */
  lemma {:induction false} StuckStays(start: RunState, rounds: seq<Round>, i: nat, j: nat, r: RunSetting, k: string)
    requires IsRun(start, rounds, r) && i <= j <= |rounds|
    requires k in Reached(start, rounds, i).dag && !InOrder(Reached(start, rounds, i).dag[k])
    ensures k in Reached(start, rounds, j).dag && Reached(start, rounds, j).dag[k] == Reached(start, rounds, i).dag[k]
    decreases j
  {
    if i < j {
      var before := j - 1;
      StuckStays(start, rounds, i, before, r, k);
      RoundOf(start, rounds, before, j, r);
      RoundLeavesStuck(Reached(start, rounds, before), rounds[before], r, k);
    }
  }

  /** So a DAG that is stuck after some cycle of a run is never finished, whatever happens. */
  lemma StuckIsForever(start: RunState, rounds: seq<Round>, i: nat, j: nat, r: RunSetting)
    requires IsRun(start, rounds, r) && i <= j <= |rounds| && Stuck(Reached(start, rounds, i).dag)
    ensures Stuck(Reached(start, rounds, j).dag) && !AllFinished(Reached(start, rounds, j).dag)
  {
    var k :| k in Reached(start, rounds, i).dag && !InOrder(Reached(start, rounds, i).dag[k]);
    StuckStays(start, rounds, i, j, r, k);
  }
}
