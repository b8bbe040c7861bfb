/** The engineering run loop (engineering/agency.py): ready nodes in batches, recovery insertion, and
    bounded cycles. Checkpoints, audit records and model traffic are not part of this model. */
module Agency {
  import opened Schemas
  import opened Sequences
  import opened DagMutator
  import opened DagProgress
  import opened AgencyTheory
  import opened Batches
  import opened Replanning
  import opened Runs
  import opened RunSafety
  import opened Scopes
  import opened Completion
  import opened Reporting
  import opened Wrappers
  import W = Worktrees

  datatype RunOutcome = CyclicGraph | Raised | Result(cycles: nat, complete: bool, blocked: seq<string>)

  class EngineeringAgencyRuntime {
    const maxToolIterations: int
    const maxParallelNodes: nat
    const worktrees: W.RequirementWorktreeManager?
    const replanner: AdaptiveEngineeringReplanner?

    constructor (maxToolIterations: int, maxParallelNodes: nat, worktrees: W.RequirementWorktreeManager?,
                 replanner: AdaptiveEngineeringReplanner?)
      ensures this.maxToolIterations == maxToolIterations && this.maxParallelNodes == maxParallelNodes
      ensures this.worktrees == worktrees && this.replanner == replanner
    {
      this.maxToolIterations := maxToolIterations;
      this.maxParallelNodes := maxParallelNodes;
      this.worktrees := worktrees;
      this.replanner := replanner;
    }

    /** The requirements that hold a worktree. */
    ghost function Bound(): set<string>
      reads worktrees
    {
      if worktrees == null then {} else worktrees.bindings.Keys
    }

    ghost function Bindings(): W.Bindings
      reads worktrees
    {
      if worktrees == null then map[] else worktrees.bindings
    }

    /** How many recoveries have been tried. */
    ghost function Counter(): nat
      reads replanner
    {
      if replanner == null then 0 else replanner.counter
    }

    function SettingOf(cycle: nat, oracle: Oracle): Setting {
      Setting(cycle, oracle, maxToolIterations, worktrees != null, if worktrees == null then 0 else worktrees.maxActive)
    }

    // ---- The two halves of a node's execution ----

    method AcquireFor(k: string, refs: seq<string>, created: bool) returns (begun: bool, starved: bool)
      modifies worktrees
      ensures var r, before := W.SingleRequirement(refs), old(Bindings());
        if worktrees == null || r == None then begun && !starved && Bindings() == before
        else if r.value in before then begun && !starved && Bindings() == W.Joined(before, r.value, k)
        else if |before| >= worktrees.maxActive then !begun && starved && Bindings() == before
        else !starved && begun == created && Bindings() == if created then W.Joined(before, r.value, k) else before
    {
      if worktrees == null {
        return true, false;
      }
      var r := worktrees.AcquireForNode(W.Candidate(k, refs), created);
      begun := r != W.CapacityReached && r != W.WorktreeNotCreated;
      starved := r == W.CapacityReached;
    }

    /** The moment after the worktree of k was asked for. */
    ghost function Acquired(p: Moment, k: string, bindings: W.Bindings, begun: bool, starved: bool): Moment
      requires k in p.dag
    {
      if begun then
        p.(dag := p.dag[k := p.dag[k].(status := CognitiveWork)], bindings := bindings,
           waiting := p.waiting - {k}, running := p.running + {k})
      else
        p.(bindings := bindings, waiting := p.waiting - {k}, raised := true, starved := p.starved || starved)
    }

    lemma AcquiringBegins(p: Moment, k: string, bindings: W.Bindings, acquired: bool, starved: bool, c: Setting)
      requires k in p.waiting && k in p.dag
      requires var r, created := W.SingleRequirement(p.dag[k].refs), c.oracle(c.cycle, k).worktreeCreated;
        if !c.managed || r == None then acquired && !starved && bindings == p.bindings
        else if r.value in p.bindings then acquired && !starved && bindings == W.Joined(p.bindings, r.value, k)
        else if |p.bindings| >= c.maxActive then !acquired && starved && bindings == p.bindings
        else
          && !starved && acquired == created
          && bindings == if created then W.Joined(p.bindings, r.value, k) else p.bindings
      ensures var begun := acquired && c.oracle(c.cycle, k).crash != BeforeCognition;
        BeginStep(p, Acquired(p, k, bindings, begun, starved), k, c)
    {
      assert |p.bindings| == |p.bindings.Keys|;
    }

    /** Cognition begins, if nothing has stood in its way. */
    method StartCognition(dag: TaskDAG, k: string, begun: bool, ghost s: DagState)
      requires dag.Valid() && dag.View() == s && k in s
      modifies dag.nodes[k]
      ensures dag.View() == if begun then s[k := s[k].(status := CognitiveWork)] else s
      ensures Bindings() == old(Bindings())
    {
      if begun {
        dag.SetStatus(k, CognitiveWork);
      }
    }

    /** The worktree of k is asked for; begun says whether cognition begins. */
    method AskForWorktree(k: string, refs: seq<string>, cycle: nat, oracle: Oracle, ghost p: Moment)
      returns (begun: bool, starved: bool)
      requires k in p.waiting && k in p.dag && refs == p.dag[k].refs && Bindings() == p.bindings
      modifies worktrees
      ensures BeginStep(p, Acquired(p, k, Bindings(), begun, starved), k, SettingOf(cycle, oracle))
      ensures begun ==> !starved
    {
      var a := oracle(cycle, k);
      var acquired;
      acquired, starved := AcquireFor(k, refs, a.worktreeCreated);
      begun := acquired && a.crash != BeforeCognition;
      AcquiringBegins(p, k, Bindings(), acquired, starved, SettingOf(cycle, oracle));
    }

    /** The worktree of k is asked for; unless an exception comes first, cognition begins. */
    method BeginNode(dag: TaskDAG, k: string, cycle: nat, oracle: Oracle, ghost p: Moment)
      returns (begun: bool, starved: bool, ghost q: Moment)
      requires dag.Valid() && k in p.waiting && k in p.dag && dag.View() == p.dag && Bindings() == p.bindings
      modifies dag.nodes[k], worktrees
      ensures BeginStep(p, q, k, SettingOf(cycle, oracle)) && dag.View() == q.dag && Bindings() == q.bindings
      ensures q.waiting == p.waiting - {k} && q.running == p.running + if begun then {k} else {}
      ensures q.raised == (p.raised || !begun) && q.starved == (p.starved || starved)
    {
      begun, starved := AskForWorktree(k, dag.nodes[k].requirementRefs, cycle, oracle, p);
      q := Acquired(p, k, Bindings(), begun, starved);
      StartCognition(dag, k, begun, p.dag);
    }

    /** Rounds of tool calls and follow-up cognition; says how many rounds are still asked for. */
    method ToolLoop(dag: TaskDAG, k: string, rounds: nat) returns (left: nat)
      requires dag.Valid() && k in dag.nodes && dag.View()[k].status == CognitiveWork
      modifies dag.nodes[k]
      ensures dag.View() == old(dag.View())
      ensures left == 0 <==> rounds == 0 || rounds <= maxToolIterations
    {
      ghost var s := dag.View();
      left := rounds;
      var iterations := 0;
      while left > 0 && iterations < maxToolIterations
        invariant dag.View() == s && left <= rounds && iterations == rounds - left
        invariant iterations == 0 || iterations <= maxToolIterations
      {
        iterations := iterations + 1;
        dag.SetStatus(k, Executing);
        dag.SetStatus(k, CognitiveWork);
        assert dag.View() == s;
        left := left - 1;
      }
    }

    method Integrate(k: string, refs: seq<string>, git: W.GitAnswers) returns (ok: bool)
      requires worktrees != null && |refs| == 1
      modifies worktrees
      ensures Bindings() == W.Finalised(old(Bindings()), refs[0], git)
      ensures ok == !IntegrationRaises(refs[0], old(Bindings()), git)
    {
      var r := worktrees.FinalizeVerifiedRequirement(W.Candidate(k, refs), git);
      ok := r != W.Raised;
    }

    /** What settling does to a status and to the bindings. */
    ghost predicate Outcome(k: string, refs: seq<string>, a: Attempt, status: TaskNodeStatus, before: W.Bindings,
                            after: W.Bindings) {
      && status == StatusLeft(k, refs, a, maxToolIterations, worktrees != null, before)
      && after == BindingsLeft(k, refs, a, maxToolIterations, worktrees != null, before)
    }

    /** The verifier's decision and, for an accepted verification node, the integration of its branch. */
    method VerifyAndIntegrate(k: string, refs: seq<string>, a: Attempt) returns (status: TaskNodeStatus)
      requires a.crash == NoCrash && WithinBudget(a, maxToolIterations)
      modifies worktrees
      ensures Outcome(k, refs, a, status, old(Bindings()), Bindings())
    {
      status := ReplanRequired;
      if a.accepted {
        status := Succeeded;
        if worktrees != null && W.EndsWithVerify(k) && |refs| == 1 {
          var ok := Integrate(k, refs, a.git);
          if !ok {
            status := ReplanRequired;
          }
        }
      }
    }

    method FinishWith(dag: TaskDAG, k: string, status: TaskNodeStatus, ghost s: DagState, ghost now: TaskNodeStatus)
      requires dag.Valid() && k in s && dag.View() == s[k := s[k].(status := now)]
      modifies dag.nodes[k]
      ensures dag.View() == s[k := s[k].(status := status)]
    {
      dag.SetStatus(k, status);
      assert s[k := s[k].(status := now)][k := s[k].(status := status)] == s[k := s[k].(status := status)];
    }

    /** A node whose calls are done goes through the verifier to its final status. */
    method VerifyNode(dag: TaskDAG, k: string, refs: seq<string>, a: Attempt, ghost s: DagState)
      returns (status: TaskNodeStatus)
      requires dag.Valid() && dag.View() == s && k in s && a.crash == NoCrash && WithinBudget(a, maxToolIterations)
      modifies dag.nodes[k], worktrees
      ensures dag.View() == s[k := s[k].(status := status)]
      ensures Outcome(k, refs, a, status, old(Bindings()), Bindings())
    {
      dag.SetStatus(k, Verifying);
      ghost var verifying := dag.View();
      status := VerifyAndIntegrate(k, refs, a);
      assert dag.View() == verifying;
      FinishWith(dag, k, status, s, Verifying);
    }

    /** From the model's first answer to the node's final status, when nothing throws. */
    method SettleCalmly(dag: TaskDAG, k: string, a: Attempt, ghost s: DagState) returns (status: TaskNodeStatus)
      requires dag.Valid() && dag.View() == s && k in s && s[k].status == CognitiveWork && a.crash == NoCrash
      modifies dag.nodes[k], worktrees
      ensures dag.View() == s[k := s[k].(status := status)]
      ensures Outcome(k, s[k].refs, a, status, old(Bindings()), Bindings())
    {
      var refs := dag.nodes[k].requirementRefs;
      var left := ToolLoop(dag, k, a.toolRounds);
      if left == 0 {
        status := VerifyNode(dag, k, refs, a, s);
      } else {
        status := ReplanRequired;
        dag.SetStatus(k, status);
      }
    }

    method Settle(dag: TaskDAG, k: string, a: Attempt, ghost s: DagState) returns (threw: bool, status: TaskNodeStatus)
      requires dag.Valid() && dag.View() == s && k in s && s[k].status == CognitiveWork && a.crash != BeforeCognition
      modifies dag.nodes[k], worktrees
      ensures dag.View() == s[k := s[k].(status := status)] && threw == (a.crash != NoCrash)
      ensures Outcome(k, s[k].refs, a, status, old(Bindings()), Bindings())
      ensures match a.crash
        case NoCrash => status in {Succeeded, ReplanRequired}
        case InCouncil => status == Blocked
        case AfterCognition(ToolsProposed) => status == ToolProposed
        case AfterCognition(VerifiedByItself) => status == Succeeded
        case AfterCognition(RejectedByItself) => status == ReplanRequired
        case InTool => status == Executing
        case InVerification | AfterCognition(Unverified) => status == Verifying
        case _ => status == CognitiveWork
      ensures !threw ==>
        (status == Succeeded <==>
          && (a.toolRounds == 0 || a.toolRounds <= maxToolIterations) && a.accepted
          && (worktrees != null && W.EndsWithVerify(k) && |s[k].refs| == 1 && s[k].refs[0] in old(Bindings()) ==>
                var b := old(Bindings())[s[k].refs[0]];
                && (b.verifiedCommit.Some? || a.git.commit.Some?) && (b.integratedCommit.Some? || a.git.integrate.Some?)
                && a.git.removed && a.git.callbackOk))
    {
      threw := a.crash != NoCrash;
      if threw {
        status := CrashStatus(a.crash);
        dag.SetStatus(k, status);
      } else {
        status := SettleCalmly(dag, k, a, s);
      }
    }

    method SettleNode(dag: TaskDAG, k: string, cycle: nat, oracle: Oracle, ghost p: Moment)
      returns (threw: bool, ghost q: Moment)
      requires dag.Valid() && k in p.running && k in p.dag && dag.View() == p.dag && Bindings() == p.bindings
      requires p.dag[k].status == CognitiveWork && oracle(cycle, k).crash != BeforeCognition
      modifies dag.nodes[k], worktrees
      ensures SettleStep(p, q, k, SettingOf(cycle, oracle)) && dag.View() == q.dag && Bindings() == q.bindings
      ensures q.waiting == p.waiting && q.running == p.running - {k} && q.raised == (p.raised || threw)
      ensures q.starved == p.starved
    {
      var status;
      threw, status := Settle(dag, k, oracle(cycle, k), p.dag);
      q := p.(dag := dag.View(), bindings := Bindings(), running := p.running - {k}, raised := p.raised || threw);
    }

    /** asyncio.gather over the batch: at every turn any coroutine that has not ended may take its step, and
        once one of them has thrown, the loop may be left at any turn, whatever the others are doing.
        Whatever every step keeps holds at every turn, so also when the loop is left. */
    method Interleave(dag: TaskDAG, batch: seq<string>, cycle: nat, oracle: Oracle, ghost keeps: Moment -> bool)
      returns (raised: bool, starved: bool, ghost m: Moment, ghost trace: seq<Moment>)
      requires dag.Valid() && keeps(StartOf(dag.View(), Bindings(), Members(batch)))
      requires StepsKeep(keeps, SettingOf(cycle, oracle))
      modifies dag.nodes.Values, worktrees
      ensures m.dag == dag.View() && m.bindings == Bindings() && m.raised == raised && m.starved == starved
      ensures (m.raised || m.waiting == m.running == {}) && keeps(m)
      ensures Traced(trace, StartOf(old(dag.View()), old(Bindings()), Members(batch)), m, SettingOf(cycle, oracle))
    {
      var waiting, running := set k | k in batch, {};
      raised, starved := false, false;
      m := StartOf(dag.View(), Bindings(), waiting);
      ghost var start, c := m, SettingOf(cycle, oracle);
      trace := [m];
      assert waiting == Members(batch);
      while waiting + running != {}
        invariant m == Moment(dag.View(), Bindings(), waiting, running, raised, starved)
        invariant keeps(m) && Traced(trace, start, m, c)
        decreases waiting, running
      {
        var leave: bool := *;
        if raised && leave {
          return;
        }
        var k :| k in waiting + running;
        assert AtHand(m, k, c);
        ghost var p := m;
        var ok, out;
        if k in waiting {
          ok, out, m := BeginNode(dag, k, cycle, oracle, m);
          waiting, running := waiting - {k}, running + if ok then {k} else {};
        } else {
          var threw;
          threw, m := SettleNode(dag, k, cycle, oracle, m);
          running, ok, out := running - {k}, !threw, false;
        }
        raised, starved := raised || !ok, starved || out;
        TraceGrows(trace, start, p, m, k, c);
        trace := trace + [m];
      }
    }

    method RunBatch(dag: TaskDAG, batch: seq<string>, cycle: nat, oracle: Oracle)
      returns (raised: bool, starved: bool, ghost m: Moment, ghost trace: seq<Moment>)
      requires dag.Valid() && AllReady(dag.View(), Members(batch))
      modifies dag.nodes.Values, worktrees
      ensures m.dag == dag.View() && m.bindings == Bindings() && m.raised == raised && m.starved == starved
      ensures (m.raised || m.waiting == m.running == {}) && Counter() == old(Counter())
      ensures BatchInvariant(old(dag.View()), old(Bindings()), m, Members(batch), SettingOf(cycle, oracle))
      ensures Traced(trace, StartOf(old(dag.View()), old(Bindings()), Members(batch)), m, SettingOf(cycle, oracle))
    {
      ghost var s, b, ids, c := dag.View(), Bindings(), Members(batch), SettingOf(cycle, oracle);
      ghost var keeps := InvariantFor(s, b, ids, c);
      raised, starved, m, trace := Interleave(dag, batch, cycle, oracle, keeps);
      assert keeps(m);
    }

    // ---- The run loop ----

    function RunSettingOf(dagId: nat, oracle: Oracle): RunSetting {
      RunSetting(dagId, oracle, maxToolIterations, worktrees != null,
                 if worktrees == null then 0 else worktrees.maxActive,
                 maxParallelNodes, replanner != null)
    }

    /** p describes the objects as they are now. */
    ghost predicate Describes(p: RunState, dag: TaskDAG)
      reads dag`nodes, dag`order, dag.nodes.Values, worktrees, replanner
    {
      p.dag == dag.View() && p.order == dag.order && p.bindings == Bindings() && p.counter == Counter()
    }

    method Candidates(dag: TaskDAG, ready: seq<string>) returns (c: seq<W.Candidate>)
      requires dag.Valid() && forall k | k in ready :: k in dag.nodes
      ensures c == CandidatesOf(ready, dag.View())
    {
      c := [];
      for i := 0 to |ready|
        invariant c == CandidatesOf(ready[..i], dag.View())
      {
        assert ready[..i + 1][..i] == ready[..i];
        c := c + [W.Candidate(ready[i], dag.nodes[ready[i]].requirementRefs)];
      }
      assert ready[..|ready|] == ready;
    }

    method SelectAdmitted(candidates: seq<W.Candidate>) returns (selected: seq<W.Candidate>)
      requires worktrees != null
      ensures selected == W.Admit(candidates, maxParallelNodes, Bound(), W.Slots(Bound(), worktrees.maxActive)).nodes
    {
      selected := worktrees.SelectSchedulable(candidates, maxParallelNodes);
      if maxParallelNodes < 1 {
        W.AdmittedFits(candidates, 0, Bound(), W.Slots(Bound(), worktrees.maxActive));
      }
    }

    method SelectBatch(dag: TaskDAG, ready: seq<string>, ghost oracle: Oracle) returns (batch: seq<string>)
      requires dag.Valid() && forall k | k in ready :: k in dag.nodes
      ensures batch == Selected(ready, dag.View(), Bound(), RunSettingOf(dag.dagId, oracle))
      ensures worktrees == null ==> batch <= ready
      ensures worktrees == null ==> |batch| == if |ready| <= maxParallelNodes then |ready| else maxParallelNodes
    {
      if worktrees != null {
        var candidates := Candidates(dag, ready);
        var selected := SelectAdmitted(candidates);
        batch := IdsOf(selected);
      } else {
        batch := if |ready| <= maxParallelNodes then ready else ready[..maxParallelNodes];
      }
    }

    ghost function Replanned(p: RunState, s: DagState, order: seq<string>, counter: nat, r: ReplanResult): RunState {
      p.(dag := s, order := order, counter := counter, rejected := if r.MutationError? then Some(r.reason) else None)
    }

    lemma ReplanningSteps(p: RunState, s: DagState, order: seq<string>, counter: nat, r: ReplanResult, failed: string,
                          kind: FailureKind, c: RunSetting)
      requires p.rejected == None
      requires !Replannable(p.dag, failed, kind) ==>
               r == NoRecovery && s == p.dag && order == p.order && counter == p.counter
      requires Replannable(p.dag, failed, kind) ==>
        && counter == p.counter + 1
        && var id := RecoveryId(counter, kind, failed);
        var verdict := RecoveryVerdict(p.dag, c.dagId, failed, id);
        if verdict == Applied
        then r == Inserted(id) && s == InsertedBefore(p.dag, failed, id, RecoveryNode(p.dag, c.dagId, failed)) &&
             order == p.order + [id]
        else r == MutationError(verdict) && s == p.dag && order == p.order
      ensures Replanned(p, s, order, counter, r) == AfterReplan(p, failed, kind, c)
      ensures r.NoRecovery? <==> counter == p.counter
    {
      var q := Replanned(p, s, order, counter, r);
      if !Replannable(p.dag, failed, kind) {
        assert q == p;
      } else {
        var verdict := RecoveryVerdict(p.dag, c.dagId, failed, RecoveryId(counter, kind, failed));
        if verdict == Applied {
          assert q == p.(counter := p.counter + 1, order := order, dag := s);
        } else {
          assert q == p.(counter := p.counter + 1, rejected := Some(verdict));
        }
      }
    }

    /** Replans one failed node. */
    method ReplanOne(dag: TaskDAG, failed: string, kind: FailureKind, ghost oracle: Oracle, ghost p: RunState)
      returns (inserted: bool, refused: bool, ghost q: RunState)
      requires dag.Valid() && replanner != null && Describes(p, dag) && p.rejected == None
      modifies dag, dag.nodes.Values, replanner
      ensures dag.Valid() && Grown(dag) && Describes(q, dag)
      ensures q == AfterReplan(p, failed, kind, RunSettingOf(dag.dagId, oracle))
      ensures q.counter >= p.counter && refused == q.rejected.Some?
      ensures inserted <==> q.counter != p.counter && !refused
    {
      var r := replanner.Replan(dag, failed, kind);
      inserted, refused := r.Inserted?, r.MutationError?;
      ghost var s, order, counter := dag.View(), dag.order, Counter();
      assert Bindings() == p.bindings by {
        assert worktrees != null ==> worktrees.bindings == old(worktrees.bindings);
      }
      q := Replanned(p, s, order, counter, r);
      ReplanningSteps(p, s, order, counter, r, failed, kind, RunSettingOf(dag.dagId, oracle));
    }

    /** Replans the failed nodes of a batch, in order, and counts the insertions. */
    method ReplanAll(dag: TaskDAG, failed: seq<string>, cycle: nat, oracle: Oracle, ghost p: RunState)
      returns (inserted: nat, refused: bool, ghost q: RunState)
      requires dag.Valid() && replanner != null && Describes(p, dag) && p.rejected == None
      modifies dag, dag.nodes.Values, replanner
      ensures dag.Valid() && Grown(dag) && Describes(q, dag)
      ensures q == ReplannedInOrder(p, failed, cycle, RunSettingOf(dag.dagId, oracle))
      ensures refused == q.rejected.Some? && (!refused ==> (inserted == 0 <==> q.counter == p.counter))
    {
      ghost var r := RunSettingOf(dag.dagId, oracle);
      inserted, refused, q := 0, false, p;
      for i := 0 to |failed|
        invariant dag.Valid() && Grown(dag) && Describes(q, dag) && q.rejected == None
        invariant ReplannedInOrder(q, failed[i..], cycle, r) == ReplannedInOrder(p, failed, cycle, r)
        invariant q.counter >= p.counter && (inserted == 0 <==> q.counter == p.counter)
      {
        ghost var now := q;
        var done;
        assert failed[i..][1..] == failed[i + 1..];
        done, refused, q := ReplanOne(dag, failed[i], oracle(cycle, failed[i]).failure, oracle, now);
        assert ReplannedInOrder(now, failed[i..], cycle, r) == ReplannedInOrder(q, failed[i + 1..], cycle, r);
        if refused {
          return;
        }
        inserted := inserted + if done then 1 else 0;
      }
    }

    /** The ids of the batch whose run ended in REPLAN_REQUIRED. */
    method FailedOf(dag: TaskDAG, batch: seq<string>) returns (failed: seq<string>)
      requires dag.Valid() && forall k | k in batch :: k in dag.nodes
      ensures failed == FailedIn(dag.View(), batch)
    {
      failed := [];
      ghost var s := dag.View();
      for i := 0 to |batch|
        invariant failed == FailedIn(s, batch[..i])
      {
        assert batch[..i + 1][..i] == batch[..i];
        assert dag.nodes[batch[i]].status == s[batch[i]].status;
        if dag.nodes[batch[i]].status == ReplanRequired {
          failed := failed + [batch[i]];
        }
      }
      assert batch[..|batch|] == batch;
    }

    method ExecuteBatch(dag: TaskDAG, batch: seq<string>, cycle: nat, oracle: Oracle, ghost p: RunState)
      returns (raised: bool, ghost m: Moment, ghost q: RunState)
      requires dag.Valid() && Describes(p, dag) && AllReady(p.dag, Members(batch)) && !p.raised
      requires batch == BatchOf(p, RunSettingOf(dag.dagId, oracle)) && batch != []
      modifies dag.nodes.Values, worktrees
      ensures Describes(q, dag) && BatchStep(p, q, m, cycle, RunSettingOf(dag.dagId, oracle))
      ensures q == AfterBatch(p, m, Members(batch)) && q.raised == raised && q.dag.Keys == p.dag.Keys
    {
      assert Listed(p);
      var starved;
      ghost var trace;
      raised, starved, m, trace := RunBatch(dag, batch, cycle, oracle);
      q := AfterBatch(p, m, Members(batch));
      BatchIsStep(p, m, batch, cycle, RunSettingOf(dag.dagId, oracle));
    }

    /** The end of a cycle: recovery for the nodes that need replanning. */
    method Recover(dag: TaskDAG, batch: seq<string>, cycle: nat, oracle: Oracle, ghost p: RunState)
      returns (ending: Option<Ending>, ghost q: RunState)
      requires dag.Valid() && Describes(p, dag) && p.rejected == None && Members(batch) <= p.dag.Keys
      modifies dag, dag.nodes.Values, replanner
      ensures dag.Valid() && Grown(dag) && Describes(q, dag)
      ensures RecoverStep(p, q, ending, batch, cycle, RunSettingOf(dag.dagId, oracle))
    {
      var failed := FailedOf(dag, batch);
      if failed == [] {
        return None, p;
      }
      if replanner == null {
        return Some(Unrecovered), p;
      }
      var inserted, refused;
      inserted, refused, q := ReplanAll(dag, failed, cycle, oracle, p);
      ending := if refused then Some(Aborted) else if inserted == 0 then Some(Unrecovered) else None;
    }

    /** The batch of a cycle, and recovery for its failed nodes. */
    method WorkOn(dag: TaskDAG, batch: seq<string>, cycle: nat, oracle: Oracle, ghost p: RunState)
      returns (ending: Option<Ending>, ghost m: Moment, ghost q: RunState)
      requires dag.Valid() && Describes(p, dag) && AllReady(p.dag, Members(batch)) && !p.raised && p.rejected == None
      requires batch == BatchOf(p, RunSettingOf(dag.dagId, oracle)) && batch != []
      modifies dag, dag.nodes.Values, worktrees, replanner
      ensures dag.Valid() && Grown(dag) && Describes(q, dag)
      ensures WorkStep(p, q, m, ending, cycle, RunSettingOf(dag.dagId, oracle))
    {
      var raised;
      raised, m, q := ExecuteBatch(dag, batch, cycle, oracle, p);
      if raised {
        return Some(Aborted), m, q;
      }
      ending, q := Recover(dag, batch, cycle, oracle, q);
    }

    /** A cycle after promotion. */
    method RunCycle(dag: TaskDAG, ready: seq<string>, cycle: nat, oracle: Oracle, ghost p: RunState)
      returns (ending: Option<Ending>, ghost m: Moment, ghost q: RunState)
      requires dag.Valid() && Describes(p, dag) && ready == ReadyIn(p.dag, p.order) && !p.raised && p.rejected == None
      modifies dag, dag.nodes.Values, worktrees, replanner
      ensures dag.Valid() && Grown(dag) && Describes(q, dag)
      ensures WorkStep(p, q, m, ending, cycle, RunSettingOf(dag.dagId, oracle))
    {
      var batch := SelectBatch(dag, ready, oracle);
      assert Listed(p);
      BatchIsReady(p, RunSettingOf(dag.dagId, oracle));
      if batch == [] {
        return Some(NothingSchedulable), StartOf(p.dag, p.bindings, {}), p;
      }
      ending, m, q := WorkOn(dag, batch, cycle, oracle, p);
    }

    /** Promotion, then the rest of the cycle. */
    method OneRound(dag: TaskDAG, cycle: nat, oracle: Oracle, ghost p: RunState)
      returns (ending: Option<Ending>, ghost round: Round)
      requires dag.Valid() && Describes(p, dag) && !p.raised && p.rejected == None
      modifies dag, dag.nodes.Values, worktrees, replanner
      ensures dag.Valid() && Grown(dag) && Describes(round.after, dag)
      ensures IsRound(p, round, RunSettingOf(dag.dagId, oracle)) && round.cycle == cycle && round.ending == ending
    {
      ghost var promoted := p.(dag := Promoted(p.dag));
      var ready := ReadyNodes(dag);
      ghost var m, q;
      ending, m, q := RunCycle(dag, ready, cycle, oracle, promoted);
      round := Round(cycle, m, ending, q);
    }

    /** One cycle more of a run. */
    method ExtendRun(dag: TaskDAG, cycle: nat, oracle: Oracle, ghost start: RunState, ghost rounds: seq<Round>)
      returns (ending: Option<Ending>, ghost longer: seq<Round>)
      requires dag.Valid() && Describes(EndOf(start, rounds), dag) && cycle == |rounds| + 1
      requires start.executed == 0 && !start.raised && start.rejected == None
      requires GoesOn(start, rounds, RunSettingOf(dag.dagId, oracle))
      modifies dag, dag.nodes.Values, worktrees, replanner
      ensures dag.Valid() && Grown(dag) && Describes(EndOf(start, longer), dag) && |longer| == cycle
      ensures IsRun(start, longer, RunSettingOf(dag.dagId, oracle)) && longer[|longer| - 1].ending == ending
    {
      ghost var r, p := RunSettingOf(dag.dagId, oracle), EndOf(start, rounds);
      RunningIsUnbroken(start, rounds, |rounds|, r);
      ghost var round;
      ending, round := OneRound(dag, cycle, oracle, p);
      longer := rounds + [round];
      RunExtends(start, rounds, longer, p, round, r);
    }

    /** The loop of run_dag goes through a run as defined above. */
    method RunLoop(dag: TaskDAG, maxCycles: int, oracle: Oracle, ghost start: RunState)
      returns (ending: Ending, cycles: nat, ghost rounds: seq<Round>)
      requires dag.Valid() && Describes(start, dag) && start.executed == 0 && !start.raised && start.rejected == None
      modifies dag, dag.nodes.Values, worktrees, replanner
      ensures dag.Valid() && Describes(EndOf(start, rounds), dag)
      ensures cycles == |rounds| <= (if maxCycles < 0 then 0 else maxCycles)
      ensures IsRun(start, rounds, RunSettingOf(dag.dagId, oracle)) && EndedBy(ending, rounds, maxCycles)
    {
      cycles, rounds := 0, [];
      while cycles < maxCycles
        invariant dag.Valid() && Grown(dag) && Describes(EndOf(start, rounds), dag)
        invariant cycles == |rounds| <= (if maxCycles < 0 then 0 else maxCycles)
        invariant GoesOn(start, rounds, RunSettingOf(dag.dagId, oracle))
        decreases maxCycles - cycles
      {
        cycles := cycles + 1;
        var next;
        next, rounds := ExtendRun(dag, cycles, oracle, start, rounds);
        if next.Some? {
          return next.value, cycles, rounds;
        }
      }
      ending := OutOfCycles;
    }

    function Report(dag: TaskDAG, cycles: nat): (out: RunOutcome)
      requires dag.Valid()
      reads dag, dag.nodes.Values
      ensures out.Result? && out.cycles == cycles && out.blocked == BlockedIn(dag.View(), dag.order)
      ensures out.complete <==> dag.View() != map[] && AllFinished(dag.View())
    {
      Result(cycles, Complete(dag), BlockedAmong(dag, dag.order))
    }

    /** An exception leaves the loop, or its end is reported. */
    ghost predicate Reports(out: RunOutcome, ending: Ending, cycles: nat, end: RunState) {
      if ending == Aborted then out == Raised
      else
        && out.Result? && out.cycles == cycles && out.blocked == BlockedIn(end.dag, end.order)
        && (out.complete <==> end.dag != map[] && AllFinished(end.dag))
    }

    /** What decides whether a run with these failures completes: a failure that recovery does not mend. */
    ghost predicate Decided(start: RunState, r: RunSetting, maxCycles: int, out: RunOutcome, rounds: seq<Round>,
                            end: RunState, scope: Scope, bad: set<(nat, string)>) {
      if NothingLost(start, rounds, |rounds|, r)
      then out.Result? && Completes(start.dag, rounds, end, maxCycles, r, scope, |bad|)
      else !AllFinished(end.dag)
    }

    /** What the end of a run of an acyclic DAG promises, given its start: that it went through a run as defined,
        cycle by cycle, was safe after each of them for all answers and all interleavings, reports its end
        honestly, and completes when whatever fails has a recovery, unless a node without dependencies fails. */
    ghost predicate Promises(start: RunState, r: RunSetting, maxCycles: int, out: RunOutcome, ending: Ending,
                             rounds: seq<Round>, end: RunState) {
      && IsRun(start, rounds, r) && EndedBy(ending, rounds, maxCycles) && end == EndOf(start, rounds)
      && |rounds| <= (if maxCycles < 0 then 0 else maxCycles) && Reports(out, ending, |rounds|, end)
      && (forall i | 0 <= i <= |rounds| :: Safe(start.dag, start.bindings, start.counter, Reached(start, rounds, i), r))
      && (forall scope, bad | CanComplete(start.dag, start.bindings, start.counter, r, scope, bad) ::
            Decided(start, r, maxCycles, out, rounds, end, scope, bad))
    }

    lemma PromisesMet(start: RunState, r: RunSetting, maxCycles: int, out: RunOutcome, ending: Ending,
                      rounds: seq<Round>, end: RunState)
      requires start == StartOfRun(start.dag, start.order, start.bindings, start.counter)
      requires IsRun(start, rounds, r) && EndedBy(ending, rounds, maxCycles) && end == EndOf(start, rounds)
      requires |rounds| <= (if maxCycles < 0 then 0 else maxCycles) && Reports(out, ending, |rounds|, end)
      ensures Promises(start, r, maxCycles, out, ending, rounds, end)
    {
      forall i | 0 <= i <= |rounds|
        ensures Safe(start.dag, start.bindings, start.counter, Reached(start, rounds, i), r)
      {
        RunIsSafeThroughout(start.dag, start.order, start.bindings, start.counter, rounds, i, r);
      }
      forall scope, bad | CanComplete(start.dag, start.bindings, start.counter, r, scope, bad)
        ensures Decided(start, r, maxCycles, out, rounds, end, scope, bad)
      {
        if NothingLost(start, rounds, |rounds|, r) {
          RunCompletes(start.dag, start.order, start.bindings, start.counter, rounds, ending, maxCycles, r, scope, bad);
        } else {
          LossIsFinal(start.dag, start.order, start.bindings, start.counter, rounds, r, scope, bad);
        }
      }
    }

    /** Runs a DAG: the graph is refused exactly when it has a cycle, and otherwise the run keeps its
        promises. */
    method RunDag(dag: TaskDAG, maxCycles: int, oracle: Oracle)
      returns (out: RunOutcome, ghost ending: Ending, ghost rounds: seq<Round>, ghost end: RunState)
      requires dag.Valid()
      modifies dag, dag.nodes.Values, worktrees, replanner
      ensures dag.Valid() && Describes(end, dag)
      ensures out == CyclicGraph <==> !AcyclicDag(old(dag.View()))
      ensures out == CyclicGraph ==> dag.View() == old(dag.View()) && Bindings() == old(Bindings())
      ensures out != CyclicGraph ==>
        Promises(StartOfRun(old(dag.View()), old(dag.order), old(Bindings()), old(Counter())),
                 RunSettingOf(dag.dagId, oracle), maxCycles, out, ending, rounds, end)
    {
      ghost var start := StartOfRun(dag.View(), dag.order, Bindings(), Counter());
      var acyclic := dag.ValidateAcyclic();
      assert Describes(start, dag);
      if !acyclic {
        return CyclicGraph, OutOfCycles, [], start;
      }
      var cycles, how;
      how, cycles, rounds := RunLoop(dag, maxCycles, oracle, start);
      ending, end := how, EndOf(start, rounds);
      out := if how == Aborted then Raised else Report(dag, cycles);
      PromisesMet(start, RunSettingOf(dag.dagId, oracle), maxCycles, out, ending, rounds, end);
    }
  }
}
