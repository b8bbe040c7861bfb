/** From a contract to a finished run: the planner, the worktrees and the run loop together. */
module PlannedRuns {
  import Decimal
  import opened Digraphs
  import opened Schemas
  import opened Sequences
  import opened DagProgress
  import opened DagInvariants
  import opened AgencyTheory
  import opened Batches
  import opened Planner
  import opened Replanning
  import opened Runs
  import opened RunSafety
  import opened Scopes
  import opened Completion
  import opened Agency
  import opened Wrappers
  import W = Worktrees

  // ---- A plan can be completed ----

  /** The verification nodes of a plan, and no other of its nodes, are recognised by their ids. */
  ghost predicate Recognisable(names: Names, n: nat) {
    && !W.EndsWithVerify(names.architecture) && !W.EndsWithVerify(names.integration)
    && forall i, stage | 1 <= i <= n :: W.EndsWithVerify(names.stage(i, stage)) <==> stage == Verify
  }

  lemma PlannedNamesAreRecognisable(slug: Slug, reqs: seq<string>)
    ensures Recognisable(NamesFor(slug, reqs), |reqs|)
  {
    var names := NamesFor(slug, reqs);
    assert "eng_000_architecture"[19] == 'e' && "eng_900_integration"[18] == 'n' && "_verify"[6] == 'y';
    forall i: nat, stage | 1 <= i <= |reqs|
      ensures W.EndsWithVerify(names.stage(i, stage)) <==> stage == Verify
    {
      var id := names.stage(i, stage);
      var head := "eng_" + Decimal.Pad3(i) + "_" + slug(reqs[i - 1]);
      assert id == head + Suffix(stage);
      if stage == Verify {
        assert id[|id| - 7..] == "_verify";
      } else {
        assert id[|id| - 1] == Suffix(stage)[|Suffix(stage)| - 1];
        assert |id| >= 7 ==> id[|id| - 7..][6] == id[|id| - 1];
      }
    }
  }

  /** How a plan lays out its requirements: with one requirement all nodes share its worktree, and with several
      the chains come after the architecture node. */
  function PlanScope(names: Names, reqs: seq<string>): Scope
    requires reqs != []
  {
    if |reqs| == 1 then OneRequirement(reqs[0], names.integration) else SharedHub(names.architecture)
  }

  lemma ChainIsOnHub(s: DagState, names: Names, reqs: seq<string>, i: nat, stage: Stage)
    requires PlanShaped(s, names, reqs) && Recognisable(names, |reqs|) && 1 <= i <= |reqs|
    ensures names.stage(i, stage) in s && OnHub(s, names.architecture, names.stage(i, stage))
  {
    var k, v := names.stage(i, stage), names.stage(i, Verify);
    assert StageShaped(s[k], names, reqs, i, stage) && StageShaped(s[v], names, reqs, i, Verify);
    ChainsAreOrdered(s, names, reqs, i, stage);
    ChainsAreOrdered(s, names, reqs, i, Verify);
    assert Verifies(s, v, k);
    if stage != Analyze {
      var before := if stage == Verify then Implement else Analyze;
      assert StageShaped(s[names.stage(i, before)], names, reqs, i, before);
    }
  }

  lemma PlanIsLaid(s: DagState, names: Names, reqs: seq<string>)
    requires reqs != [] && PlanShaped(s, names, reqs) && Recognisable(names, |reqs|)
    ensures Laid(s, PlanScope(names, reqs))
  {
    if |reqs| == 1 {
      forall k | k in s
        ensures RequirementOf(s[k]) == Some(reqs[0])
        ensures (k != names.integration ==> Reach(EdgesOf(s), names.integration, k))
      {
        if k != names.integration {
          IntegrationLast(s, names, reqs, k);
        }
        if k != names.architecture && k != names.integration {
          var i, stage :| 1 <= i <= 1 && k == names.stage(i, stage);
          assert StageShaped(s[k], names, reqs, i, stage);
        }
      }
    } else {
      forall k | k in s && RequirementOf(s[k]).Some?
        ensures OnHub(s, names.architecture, k)
      {
        var i, stage :| 1 <= i <= |reqs| && k == names.stage(i, stage);
        ChainIsOnHub(s, names, reqs, i, stage);
      }
    }
  }

  lemma PlanWaits(s: DagState, names: Names, reqs: seq<string>)
    requires PlanShaped(s, names, reqs) && reqs != []
    requires forall x | x in s :: s[x].status == if x == names.architecture then Ready else Planned
    ensures forall x | x in s :: InOrder(s[x]) && (s[x].deps == [] <==> x == names.architecture)
  {
    forall x | x in s
      ensures InOrder(s[x]) && (s[x].deps == [] <==> x == names.architecture)
    {
      if x != names.architecture && x != names.integration {
        var i, stage :| 1 <= i <= |reqs| && x == names.stage(i, stage);
        assert StageShaped(s[x], names, reqs, i, stage);
      }
    }
  }

  lemma PlanIdBegins(s: DagState, slug: Slug, reqs: seq<string>, x: string)
    requires PlanShaped(s, NamesFor(slug, reqs), reqs) && x in s
    ensures x != [] && x[0] == 'e'
  {
    var names := NamesFor(slug, reqs);
    if x == names.architecture {
    } else if x == names.integration {
    } else {
      var i, stage :| 1 <= i <= |reqs| && x == names.stage(i, stage);
      StageIdIsNumbered(i, slug(reqs[i - 1]), stage);
      assert NumberedId(i, slug(reqs[i - 1]) + Suffix(stage))[0] == 'e';
    }
  }

  /** No id of a plan is an id that a replanner hands out. */
  lemma PlanLeavesRecoveryIds(s: DagState, slug: Slug, reqs: seq<string>)
    requires PlanShaped(s, NamesFor(slug, reqs), reqs)
    ensures FreshIds(s, 0)
  {
    forall c: nat, kind, failed | c > 0 && Legible(c)
      ensures RecoveryId(c, kind, failed) !in s
    {
      var id := RecoveryId(c, kind, failed);
      var rest := RecoveryIdShape(c, kind, failed);
      assert id[0] == "recovery_"[0];
      if id in s {
        PlanIdBegins(s, slug, reqs, id);
      }
    }
  }

  /** A plan before its first cycle: only the architecture node is ready, and only it waits for nothing. */
  ghost predicate PlannedStart(s: DagState, names: Names, reqs: seq<string>) {
    && reqs != [] && Workable(s) && Served(s, {}, PlanScope(names, reqs)) && FreshIds(s, 0)
    && names.architecture in s && !W.EndsWithVerify(names.architecture)
    && (forall x | x in s :: s[x].status == if x == names.architecture then Ready else Planned)
    && (forall x | x in s :: s[x].deps == [] <==> x == names.architecture)
  }

  lemma ShapedPlanStarts(s: DagState, names: Names, reqs: seq<string>)
    requires reqs != [] && PlanShaped(s, names, reqs) && Recognisable(names, |reqs|) && AcyclicDag(s) && NoDangling(s)
    requires FreshIds(s, 0) && forall x | x in s :: s[x].status == if x == names.architecture then Ready else Planned
    ensures PlannedStart(s, names, reqs)
  {
    PlanWaits(s, names, reqs);
    PlanIsLaid(s, names, reqs);
    assert DependencyClosed(s);
    assert BoundPending(s, {});
  }

  /** The DAG that the planner makes, with no worktree taken yet, can be completed. */
  lemma PlanStarts(dagId: nat, slug: Slug, reqs: seq<string>)
    requires reqs != []
    ensures PlannedStart(PlanState(dagId, NamesFor(slug, reqs), reqs), NamesFor(slug, reqs), reqs)
  {
    var names := NamesFor(slug, reqs);
    NamesAreDistinct(slug, reqs);
    PlannedNamesAreRecognisable(slug, reqs);
    PlanIsAcyclic(dagId, names, reqs);
    PlanIsShaped(dagId, names, reqs);
    PlanLeavesRecoveryIds(PlanState(dagId, names, reqs), slug, reqs);
    ShapedPlanStarts(PlanState(dagId, names, reqs), names, reqs);
  }

  // ---- The first cycle decides ----

  /** The execution of the architecture node ends with an accepted result. */
  predicate Accepts(oracle: Oracle, maxToolIterations: int, architecture: string) {
    WithinBudget(oracle(1, architecture), maxToolIterations) && oracle(1, architecture).accepted
  }

  lemma NothingIsPromotedFirst(s: DagState, names: Names, reqs: seq<string>)
    requires PlannedStart(s, names, reqs)
    ensures Promoted(s) == s
  {
    forall k | k in s
      ensures !Promotable(s, k)
    {
      if s[k].deps != [] {
        var d := s[k].deps[0];
        assert d in s[k].deps && !IsDone(s, d);
      }
    }
  }

  lemma FirstBatchIsArchitecture(p: RunState, r: RunSetting, names: Names, reqs: seq<string>)
    requires PlannedStart(p.dag, names, reqs) && Listed(p) && OnTheWay(p.dag, r, PlanScope(names, reqs), p)
    requires r.maxParallel >= 1 && (r.managed ==> r.maxActive >= 1) && Promoted(p.dag) == p.dag
    ensures BatchOf(p, r) != [] && Members(BatchOf(p, r)) == {names.architecture}
  {
    AlwaysSchedulable(p.dag, r, PlanScope(names, reqs), p);
    BatchIsReady(p, r);
    assert BatchOf(p, r)[0] in Members(BatchOf(p, r));
  }

  lemma AcceptanceDecides(n: NodeState, status: TaskNodeStatus, k: string, c: Setting)
    requires c.cycle == 1 && Ended(n, status, k, c) && n.status == Ready && status in {Succeeded, ReplanRequired}
    requires Quiet(c.oracle(1, k)) && !W.EndsWithVerify(k)
    ensures status == Succeeded <==> Accepts(c.oracle, c.maxToolIterations, k)
  {
  }

  lemma EndedAfter(p: RunState, m: Moment, q: RunState, r: RunSetting, k: string)
    requires BatchStep(p, q, m, 1, r) && k in Members(BatchOf(p, r)) && m.waiting == m.running == {}
    ensures k in p.dag && k in m.dag && Ended(p.dag[k], m.dag[k].status, k, InCycle(r, 1))
  {
    assert k in Members(BatchOf(p, r)) - m.waiting - m.running;
  }

  lemma ArchitectureEnds(p: RunState, m: Moment, q: RunState, r: RunSetting, k: string, bad: set<(nat, string)>,
                         scope: Scope)
    requires OnTheWay(p.dag, r, scope, p) && BatchStep(p, q, m, 1, r) && FailsOnlyIn(r, bad)
    requires Members(BatchOf(p, r)) == {k} && !W.EndsWithVerify(k)
    ensures k in m.dag && m.dag[k].deps == p.dag[k].deps && m.dag[k].status in {Succeeded, ReplanRequired}
    ensures m.dag[k].status == Succeeded <==> Accepts(r.oracle, r.maxToolIterations, k)
    ensures forall x | x in FailedIn(m.dag, BatchOf(p, r)) :: x == k && m.dag[k].status == ReplanRequired
    ensures m.dag[k].status == ReplanRequired ==> k in FailedIn(m.dag, BatchOf(p, r))
  {
    var batch := BatchOf(p, r);
    BatchIsReady(p, r);
    BatchEndsCalmly(p.dag, r, scope, bad, p, q, m, 1);
    FailuresAreListed(p.dag, m.dag, bad, batch, 1);
    assert k in Members(batch);
    assert batch == [] || batch[0] in Members(batch);
    EndedAfter(p, m, q, r, k);
    AcceptanceDecides(p.dag[k], m.dag[k].status, k, InCycle(r, 1));
  }

  lemma ArchitectureIsRoot(m: Moment, batch: seq<string>, k: string, r: RunSetting)
    requires k in m.dag && m.dag[k].deps == []
    requires forall x | x in FailedIn(m.dag, batch) :: x == k && m.dag[k].status == ReplanRequired
    requires m.dag[k].status == ReplanRequired ==> k in FailedIn(m.dag, batch)
    ensures AllMend(m.dag, FailedIn(m.dag, batch), 1, r) <==> m.dag[k].status != ReplanRequired
    ensures m.dag[k].status != ReplanRequired ==> FailedIn(m.dag, batch) == []
  {
    assert FailedIn(m.dag, batch) != [] ==> FailedIn(m.dag, batch)[0] in FailedIn(m.dag, batch);
  }

  lemma FirstWork(p: RunState, q: RunState, m: Moment, ending: Option<Ending>, r: RunSetting, k: string,
                  bad: set<(nat, string)>, scope: Scope)
    requires OnTheWay(p.dag, r, scope, p) && WorkStep(p, q, m, ending, 1, r) && FailsOnlyIn(r, bad)
    requires BatchOf(p, r) != [] && Members(BatchOf(p, r)) == {k} && !W.EndsWithVerify(k) && k in p.dag
    requires p.dag[k].deps == []
    ensures LosesIn(p, m, 1, r) <==> !Accepts(r.oracle, r.maxToolIterations, k)
    ensures Accepts(r.oracle, r.maxToolIterations, k) ==> IsDone(q.dag, k)
  {
    var batch := BatchOf(p, r);
    var b := AfterBatch(p, m, Members(batch));
    ArchitectureEnds(p, m, b, r, k, bad, scope);
    ArchitectureIsRoot(m, batch, k, r);
    BatchEndsCalmly(p.dag, r, scope, bad, p, b, m, 1);
  }

  lemma FirstRound(p: RunState, d: Round, r: RunSetting, names: Names, reqs: seq<string>, bad: set<(nat, string)>)
    requires PlannedStart(p.dag, names, reqs) && OnTheWay(p.dag, r, PlanScope(names, reqs), p) && FailsOnlyIn(r, bad)
    requires r.maxParallel >= 1 && (r.managed ==> r.maxActive >= 1) && IsRound(p, d, r) && d.cycle == 1
    ensures Loses(p, d, r) <==> !Accepts(r.oracle, r.maxToolIterations, names.architecture)
    ensures Accepts(r.oracle, r.maxToolIterations, names.architecture) ==> IsDone(d.after.dag, names.architecture)
  {
    NothingIsPromotedFirst(p.dag, names, reqs);
    assert p.(dag := Promoted(p.dag)) == p;
    FirstBatchIsArchitecture(p, r, names, reqs);
    FirstWork(p, d.after, d.m, d.ending, r, names.architecture, bad, PlanScope(names, reqs));
  }

  /** Whatever else fails for a reason with a recovery: a run of a plan has a failure that nothing mends exactly when
      the architecture's only execution, in the first cycle, is not accepted. */
  lemma ArchitectureDecides(start: RunState, rounds: seq<Round>, r: RunSetting, names: Names, reqs: seq<string>,
                            bad: set<(nat, string)>)
    requires start == StartOfRun(start.dag, start.order, map[], 0) && IsRun(start, rounds, r) && rounds != []
    requires PlannedStart(start.dag, names, reqs) && CanComplete(start.dag, map[], 0, r, PlanScope(names, reqs), bad)
    requires HaveRecoveries(r, bad)
    ensures NothingLost(start, rounds, |rounds|, r) <==> Accepts(r.oracle, r.maxToolIterations, names.architecture)
  {
    var scope := PlanScope(names, reqs);
    RoundOf(start, rounds, 0, 1, r);
    assert OnTheWay(start.dag, r, scope, start);
    assert Reached(start, rounds, 0) == start;
    FirstRound(start, rounds[0], r, names, reqs, bad);
    if Accepts(r.oracle, r.maxToolIterations, names.architecture) {
      NothingLostYet(start, rounds, 0, 1, r);
      assert RootsSpared(start.dag, bad, Reached(start, rounds, 1));
      SparedRootsLoseNothing(start.dag, start.order, map[], 0, rounds, 1, |rounds|, r, scope, bad);
    }
  }

  // ---- A run of a plan ----

  /** Nothing throws, and executions fail only in the listed cycles and nodes, each with a recovery. The ids of
      that many recoveries can be told apart. */
  ghost predicate FailsOnly(oracle: Oracle, maxToolIterations: int, bad: set<(nat, string)>) {
    && LegibleUpTo(|bad|)
    && forall cycle: nat, k: string ::
      && Quiet(oracle(cycle, k))
      && ((cycle, k) !in bad ==> Smooth(oracle(cycle, k), maxToolIterations))
      && ((cycle, k) in bad ==> HasRecovery(oracle(cycle, k).failure))
  }

  /** What a run of a plan of n requirements comes to, with so many failures at most. */
  ghost predicate PlanKept(n: nat, failures: nat, maxParallel: nat, maxCycles: int, out: RunOutcome, accepted: bool) {
    if accepted then
      && out.Result? && (maxCycles >= 3 * n + 2 + 2 * failures ==> out.complete)
      && out.cycles <= 3 * n + 3 + 2 * failures
      && (out.complete ==> 3 * n + 2 <= maxParallel * out.cycles)
      && out.cycles <= if maxCycles < 0 then 0 else maxCycles
    else out.Result? ==> !out.complete
  }

  lemma PlanOutcome(runtime: EngineeringAgencyRuntime, start: RunState, r: RunSetting, names: Names,
                    reqs: seq<string>, bad: set<(nat, string)>, maxCycles: int, out: RunOutcome, ending: Ending,
                    rounds: seq<Round>, end: RunState)
    requires runtime.Promises(start, r, maxCycles, out, ending, rounds, end) && PlannedStart(start.dag, names, reqs)
    requires start == StartOfRun(start.dag, start.order, map[], 0) && |start.dag| == 3 * |reqs| + 2
    requires r.managed && r.replans && r.maxActive >= 1 && r.maxParallel >= 1
    requires FailsOnly(r.oracle, r.maxToolIterations, bad)
    ensures PlanKept(|reqs|, |bad|, r.maxParallel, maxCycles, out,
                     Accepts(r.oracle, r.maxToolIterations, names.architecture))
    ensures out.Result? && out.complete ==> end.bound == if |reqs| == 1 then {reqs[0]} else {}
    ensures |end.bound| <= r.maxActive
  {
    var scope := PlanScope(names, reqs);
    assert Finished(start.dag) == {} && CanComplete(start.dag, map[], 0, r, scope, bad);
    assert runtime.Decided(start, r, maxCycles, out, rounds, end, scope, bad);
    assert Safe(start.dag, map[], 0, Reached(start, rounds, |rounds|), r);
    assert names.architecture in start.dag && !AllFinished(start.dag);
    if rounds != [] {
      ArchitectureDecides(start, rounds, r, names, reqs, bad);
    }
    if AllFinished(end.dag) {
      WorktreesAtCompletion(end.dag, end.bound, scope);
    }
  }

  /** A runtime with a worktree manager and a replanner of its own. */
  method Assemble(maxToolIterations: int, maxParallel: nat, maxActive: nat)
    returns (runtime: EngineeringAgencyRuntime, manager: W.RequirementWorktreeManager)
    requires maxActive >= 1
    ensures fresh(runtime) && fresh(manager) && runtime.worktrees == manager && manager.maxActive == maxActive
    ensures runtime.replanner != null && fresh(runtime.replanner)
    ensures runtime.maxToolIterations == maxToolIterations && runtime.maxParallelNodes == maxParallel
    ensures runtime.Bound() == {} && runtime.Counter() == 0
  {
    manager := new W.RequirementWorktreeManager(maxActive);
    var replanner := new AdaptiveEngineeringReplanner();
    runtime := new EngineeringAgencyRuntime(maxToolIterations, maxParallel, manager, replanner);
  }

  /** A run of a plan that starts with no worktree taken and no recovery tried. */
  method RunPlan(runtime: EngineeringAgencyRuntime, dag: TaskDAG, ghost s: DagState, ghost names: Names,
                 ghost reqs: seq<string>, maxCycles: int, oracle: Oracle, ghost bad: set<(nat, string)>)
    returns (out: RunOutcome)
    requires runtime.worktrees != null && runtime.replanner != null && runtime.Bound() == {} && runtime.Counter() == 0
    requires runtime.worktrees.maxActive >= 1 && runtime.maxParallelNodes >= 1
    requires FailsOnly(oracle, runtime.maxToolIterations, bad) && names.architecture == "eng_000_architecture"
    requires dag.Valid() && dag.View() == s && PlannedStart(s, names, reqs) && |s| == 3 * |reqs| + 2
    modifies dag, dag.nodes.Values, runtime.worktrees, runtime.replanner
    ensures PlanKept(|reqs|, |bad|, runtime.maxParallelNodes, maxCycles, out,
                     Accepts(oracle, runtime.maxToolIterations, "eng_000_architecture"))
    ensures out.Result? && out.complete ==> runtime.Bound() == if |reqs| == 1 then {reqs[0]} else {}
    ensures |runtime.Bound()| <= runtime.worktrees.maxActive
  {
    ghost var start, r := StartOfRun(s, dag.order, map[], 0), runtime.RunSettingOf(dag.dagId, oracle);
    ghost var ending, rounds, end;
    out, ending, rounds, end := runtime.RunDag(dag, maxCycles, oracle);
    PlanOutcome(runtime, start, r, names, reqs, bad, maxCycles, out, ending, rounds, end);
  }

  method Prepare(dagId: nat, reqs: seq<string>, acceptanceCriteria: seq<string>, slug: Slug, ghost names: Names)
    returns (dag: TaskDAG, ghost s: DagState)
    requires reqs != [] && acceptanceCriteria != [] && names == NamesFor(slug, reqs)
    ensures fresh(dag) && dag.Valid() && forall k | k in dag.nodes :: fresh(dag.nodes[k])
    ensures dag.View() == s && PlannedStart(s, names, reqs) && |s| == 3 * |reqs| + 2
  {
    var planned := PlanContract(dagId, reqs, acceptanceCriteria, slug);
    dag, s := planned.dag, planned.dag.View();
    assert |s| == |s.Keys| == |dag.nodes.Keys|;
    PlanStarts(dagId, slug, reqs);
  }

  lemma PlanVerdict(n: nat, bad: set<(nat, string)>, maxParallel: nat, maxCycles: int, out: RunOutcome,
                    oracle: Oracle, maxToolIterations: int, k: string)
    requires PlanKept(n, |bad|, maxParallel, maxCycles, out, Accepts(oracle, maxToolIterations, k))
    requires FailsOnly(oracle, maxToolIterations, bad)
    ensures maxCycles >= 3 * n + 2 + 2 * |bad| ==>
            (out.Result? && out.complete <==> Accepts(oracle, maxToolIterations, k))
    ensures !Accepts(oracle, maxToolIterations, k) ==> !(out.Result? && out.complete)
    ensures Accepts(oracle, maxToolIterations, k) ==> out.Result? && out.cycles <= 3 * n + 3 + 2 * |bad|
    ensures maxParallel == 1 && bad == {} ==> out.Result? && (out.complete <==> maxCycles >= 3 * n + 2)
  {
    assert bad == {} ==> Smooth(oracle(1, k), maxToolIterations);
  }

  /** Total completion. Whatever the requirements (repeated ids included), the worktree capacity and the batch
      size: if nothing goes wrong, 3n + 2 cycles complete the plan of n requirements, and every execution that
      fails for a reason with a recovery costs two more at most; except the architecture's execution in the first
      cycle: if that is not accepted, no number of cycles completes the plan. At most one more cycle is ever begun
      (and finds nothing to do). With one node at a time and no failures the plan is complete if and only if there
      are 3n + 2 cycles: the default of 128 is enough for 42 requirements and for no more. At completion every
      worktree has been given back, unless there is one requirement only. */
  method PlanAndRun(dagId: nat, reqs: seq<string>, acceptanceCriteria: seq<string>, slug: Slug, maxActive: nat,
                    maxParallel: nat, maxToolIterations: int, maxCycles: int, oracle: Oracle,
                    ghost bad: set<(nat, string)>)
    returns (out: RunOutcome, stillBound: set<string>)
    requires reqs != [] && acceptanceCriteria != [] && maxActive >= 1 && maxParallel >= 1
    requires FailsOnly(oracle, maxToolIterations, bad)
    ensures maxCycles >= 3 * |reqs| + 2 + 2 * |bad| ==>
      (out.Result? && out.complete <==> Accepts(oracle, maxToolIterations, "eng_000_architecture"))
    ensures !Accepts(oracle, maxToolIterations, "eng_000_architecture") ==> !(out.Result? && out.complete)
    ensures Accepts(oracle, maxToolIterations, "eng_000_architecture") ==>
            out.Result? && out.cycles <= 3 * |reqs| + 3 + 2 * |bad|
    ensures maxParallel == 1 && bad == {} ==> out.Result? && (out.complete <==> maxCycles >= 3 * |reqs| + 2)
    ensures out.Result? && out.complete ==> stillBound == if |reqs| == 1 then {reqs[0]} else {}
    ensures |stillBound| <= maxActive
  {
    ghost var names := NamesFor(slug, reqs);
    var runtime, manager := Assemble(maxToolIterations, maxParallel, maxActive);
    var dag;
    ghost var s;
    dag, s := Prepare(dagId, reqs, acceptanceCriteria, slug, names);
    out := RunPlan(runtime, dag, s, names, reqs, maxCycles, oracle, bad);
    stillBound := manager.bindings.Keys;
    PlanVerdict(|reqs|, bad, maxParallel, maxCycles, out, oracle, maxToolIterations, names.architecture);
  }
}
