# Universal Brain: engineering runtime model

Universal Brain turns an alignment contract into a graph of tasks, runs the graph with models and tools, and repairs it
while it runs. This project models the parts of it in which state changes step by step, in the form the source has
(classes whose methods change fields, loops, and pure functions where the source computes), and proves what they keep.

* **The task graph and its run** (`Digraphs`, `Schemas`, `DagMutator`, `DagProgress`, `DagInvariants`, `Replanning`,
  `Planner`, `Worktrees`, `AgencyTheory`, `Batches`, `Runs`, `RunSafety`, `Scopes`, `Completion`, `Reporting`, `Agency`,
  `PlannedRuns`, `Checkpointing`, `MissionRuntime`).
  Nodes and graphs are heap objects; their values are `NodeState` and `DagState`, and all theory is about those. One
  batch is a set of coroutines that take their steps in any order. Git, verifier, models, tools and failure
  classification are functions from the cycle and the node to their answers, and every theorem is for all of them
  unless it says which of them go wrong. A run is a sequence of specified cycles, and what it keeps is a predicate on
  run states that each of its three kinds of steps (promotion, batch, replan) preserves.
* **The code index** (`CodeGraph`, `MultiRepo`): an index *represents* a set of files; build and refresh both end in an
  index that represents the current ones, and that determines every answer.
* **Leases and quotas** (`DistributedLeases`, `AgentLeases`, `Quota`): a step function per registry, runs as sequences of
  timed steps, and trace properties over all of them; the classes refine the steps.
* **Deadlock detection, message framing, event replay, escalation** (`Dependencies`, `LspFraming`, `Websocket`,
  `Escalation`), with `Decimal` and `PyText` for numbers and strings as Python prints and reads them,
  and `Sequences` and `Wrappers` for lists without repetition, sorted lists and optional values.

## What the proofs found

Each of these is proved, as a lemma or in a contract, with a concrete input or an exact condition.

* A plan of a single requirement leaves its worktree bound after completion, because the integration node cites that one
  requirement too (`Scopes.WorktreesAtCompletion`). The default of 128 cycles completes 42 requirements run one at a time
  without failures, and no more (`PlannedRuns.PlanAndRun`).
* Recovery cannot help a node without dependencies: replanning it leaves planned work that is never promoted
  (`RunSafety.RecoveryStallsIff`). Such a failure, one without a recovery, and any without a replanner is final, even if
  the run goes on for other nodes; a run that throws nothing completes exactly if there is none (`Completion.CompletesIff`).
  A plan has one node without dependencies, the architecture node, and completes exactly if that is accepted at its
  first execution, provided that failures have recoveries (`PlannedRuns.PlanAndRun`).
* `run_dag` saves its checkpoint before it replans. What an exception leaves behind is never saved, so recovery resets
  nothing in a checkpoint of a run that began without transient nodes (`Checkpointing.SavedIsNeverReset`); but a
  checkpoint of a cycle in which a node failed can never be resumed to completion
  (`Checkpointing.SavedFailureIsNotResumed`). Which checkpoints can is `Checkpointing.ResumedRunCompletesIff`.
* Each mutation of the plan can by itself leave a started node ahead of unfinished work; the exact conditions are
  `DagInvariants.AddNodeKeepsClosureIff`, `DagInvariants.InsertBeforeKeepsClosureIff` and
  `DagInvariants.InsertAfterKeepsClosureIff`.
* Recovery ids never collide within one replanner, but a fresh replanner starts counting again, and then a due replan
  fails exactly if the id is taken (`Replanning.ReplanFailsOnlyOnTakenId`).
* Restored bindings above `max_active` can meet the capacity error that admission is there to prevent, exactly if a
  verification node is admitted together with another node of its requirement (`Worktrees.AdmissionIsContradictedIff`).
* A failing `add_dependency` leaves its edge in the graph (`Dependencies.DependencyCoordinator.AddDependency`).
* `release` can tell an expired lease from none, unlike every other operation (`DistributedLeases.ReleaseObservesExpiry`).
* Reconfiguring a route forgets its attempts, and keeps the quota exactly if there are none in the current window
  (`Quota.ReconfiguringKeepsQuotaIff`).
* A readable file that is not UTF-8 is reported as changed by every refresh (`CodeGraph.SecondRefreshIsQuiet`). The counts
  of a refresh are net, and true exactly if nothing is lost or nothing gained (`CodeGraph.CountsAreTrueIff`).
* A client whose cursor is from before a restart of the gateway loses events without being told, unless the buffer has
  already dropped an event after its cursor, or its cursor is ahead of the new log and nothing is buffered
  (`Websocket.RestartIsNoticedIff`).
* A router decision that names a route twice can get it tried twice (`Escalation.OfferDecidesRepeats`).
* A scheduler restarted on an existing controller lets two leases of a task have authority exactly if some lease of its
  epoch or a later one is still active (`AgentLeases.RestartKeepsAuthorityIff`).

## Model

| member | source | states |
|---|---|---|
| `Schemas.TaskDAG.ValidateAcyclic` | src/universal_brain/executive/schemas.py:115-136 | the three-colour DFS terminates and answers true exactly when no node reaches itself along dependencies, dangling ids being leaves; it changes nothing |
| `Schemas.TaskDAG.Dfs` | src/universal_brain/executive/schemas.py:119-130 | one DFS call: a refusal means there is a cycle; otherwise the node is black, the grey nodes are as before, and nothing black lies on a cycle or leads outside the black nodes |
| `DagMutator.FreshNodeClosesNoCycle` | src/universal_brain/engineering/planning.py:142-154 | in an acyclic graph without dangling ids, a new node that depends on known nodes only closes no cycle: the check inside add_node cannot fire on such a graph |
| `DagMutator.AddNode` | src/universal_brain/engineering/planning.py:142-154 | each refusal exactly when its own check fails and those before it do not: another graph's node, a known id, an unknown dependency, a cycle; success puts exactly the node and adds one to the version; every refusal leaves nodes, order and version as they were |
| `DagMutator.PutIfAcyclic` | src/universal_brain/engineering/planning.py:150-153 | put, check, and take back when the check fails: the graph is the old one plus the node if that is acyclic, else the old one |
| `DagMutator.RewiringIsExact` | src/universal_brain/engineering/planning.py:156-179 | node by node: insert_before gives the new node the target's dependencies and leaves the target planned, one version on and waiting for it alone; insert_after redirects every dependency on the target, one for one, and plans exactly those dependents again, one version on; no other node changes |
| `DagMutator.InsertedBeforeAcyclic` | src/universal_brain/engineering/planning.py:156-166 | if add_node accepted the node, pointing the target at it keeps the graph acyclic, so the re-check at the end cannot fire |
| `DagMutator.InsertBeforePreservesMeaning` | src/universal_brain/engineering/planning.py:156-166 | insert_before leaves the transitive dependency relation among the old nodes exactly as it was, in both directions, and keeps the graph acyclic and without dangling ids |
| `DagMutator.InsertedAfterAcyclic` | src/universal_brain/engineering/planning.py:168-179 | the same for insert_after: redirecting the dependents keeps the graph acyclic |
| `DagMutator.InsertAfterPreservesMeaning` | src/universal_brain/engineering/planning.py:168-179 | insert_after leaves the transitive dependency relation among the old nodes exactly as it was, in both directions, and keeps the graph acyclic and without dangling ids |
| `DagMutator.InsertBefore` | src/universal_brain/engineering/planning.py:156-166 | the verdict is add_node's verdict on the copied node; success is exactly the rewired graph, acyclic, two versions on; a refusal changes nothing; a cycle is never reported by the re-check |
| `DagMutator.InsertAfter` | src/universal_brain/engineering/planning.py:168-179 | the same for insert_after, with every dependent redirected, planned again and one version on |
| `DagProgress.ReadyNodes` | src/universal_brain/engineering/planning.py:206-220 | promotes in place exactly the planned nodes that have dependencies, all succeeded, and returns the ready nodes in dictionary order |
| `DagProgress.PromotionIsExact` | src/universal_brain/engineering/planning.py:206-220 | the answer is, in dictionary order, the nodes that were ready and the planned ones that have dependencies, all in the graph and succeeded; these change their status to ready, and nothing else changes |
| `DagProgress.ClosedHoldsDescendants` | src/universal_brain/engineering/planning.py:189-195 | a set that is closed under dependents of the roots and of its members holds every node that depends on a root, directly or not |
| `DagProgress.Search` | src/universal_brain/engineering/planning.py:187-195 | the breadth-first search ends and finds exactly the nodes that depend on a root along at least one edge |
| `DagProgress.InvalidateDescendants` | src/universal_brain/engineering/planning.py:181-203 | exactly those nodes, sorted and each once; each of them that had not failed is planned again, one version on, a failed one and every other node stays exactly as it was; the graph's version moves only if there are any |
| `DagInvariants.PromotionKeepsClosure` | src/universal_brain/engineering/planning.py:206-220 | promotion keeps: every node that is ready, at work, to be replanned or succeeded has all its dependencies succeeded |
| `DagInvariants.WorkKeepsClosure` | src/universal_brain/engineering/agency.py:261-263 | no status that an execution leaves on a started node breaks that invariant, unless it takes a success back |
| `DagInvariants.RecoveryKeepsClosure` | src/universal_brain/engineering/replanning.py:124-125 | inserting recovery work before a node that is not succeeded keeps the invariant |
| `DagInvariants.RecoveryEvolves` | src/universal_brain/engineering/replanning.py:124-125 | and keeps every node, every success and every transitive dependency |
| `DagInvariants.AddNodeKeepsClosureIff` | src/universal_brain/engineering/planning.py:142-154 | adding a node, in whatever status, keeps the dependency invariant exactly when it counts as started only with all its dependencies succeeded |
| `DagInvariants.InsertBeforeKeepsClosureIff` | src/universal_brain/engineering/planning.py:156-166 | insert_before keeps it exactly when the new node counts as started only with the target's dependencies succeeded, and nothing that has started depends on the target, which is planned again even if it had succeeded |
| `DagInvariants.InsertAfterKeepsClosureIff` | src/universal_brain/engineering/planning.py:168-179 | insert_after keeps it exactly when the new node, in whatever status, counts as started only after a target that has succeeded, and no node that has started depends on a dependent of the target without depending on the target itself |
| `Decimal.PaddedIsInjective` | src/universal_brain/engineering/replanning.py:88 | three-digit padding with a separator behind it can be read back, so two numbers never give the same prefix |
| `Replanning.RecoveryIdsAreDistinct` | src/universal_brain/engineering/replanning.py:87-88 | two recoveries of one replanner never get the same id, whatever failed and however it failed, truncation to 120 characters included |
| `Replanning.InsertionKeepsIdsFresh` | src/universal_brain/engineering/replanning.py:87-125 | if no id still to be handed out is taken, that stays so after an insertion |
| `Replanning.ReplanFailsOnlyOnTakenId` | src/universal_brain/engineering/replanning.py:79-126 | on an acyclic graph without dangling ids, a replan that is due is refused exactly when its id is taken already |
| `Replanning.InsertRecovery` | src/universal_brain/engineering/replanning.py:111-125 | the recovery node takes over the failed node's requirements and dependencies and the failed node waits for it alone; a refusal changes nothing; setting the status again afterwards has no effect |
| `Replanning.RecoveryIsExact` | src/universal_brain/engineering/replanning.py:111-125 | an insertion adds one planned node of the first version with the requirements and dependencies of the failed one, which waits for it alone, planned again and one version on; no other node changes |
| `Replanning.RecoveryIdsRead` | src/universal_brain/engineering/replanning.py:87-88 | an id is the beginning of recovery_, the number padded to three digits, the kind and the failed node's id, at most 120 characters of it |
| `Replanning.AdaptiveEngineeringReplanner.Replan` | src/universal_brain/engineering/replanning.py:79-126 | nothing happens exactly if the node is unknown, does not await replanning, or failed in a tool or for an unknown reason; otherwise the counter moves by one and the graph is exactly the insertion, or unchanged with the mutator's error |
| `Planner.NamesAreDistinct` | src/universal_brain/engineering/planning.py:59-62 | all node ids of a plan are pairwise different, those of the architecture and integration nodes included, for every number of requirements and any slug function, repeated requirement ids included |
| `Planner.StageIdsRead` | src/universal_brain/engineering/planning.py:59-102 | what the ids of the three stages look like, their suffixes included, on which finalisation depends |
| `Planner.PlanIsShaped` | src/universal_brain/engineering/planning.py:42-118 | the plan is the architecture node, a chain analyse, implement, verify for each requirement, and the integration node after all verifications; only the architecture node is ready, and every node belongs to the plan's graph in its first version |
| `Planner.PlanIsAcyclic` | src/universal_brain/engineering/planning.py:127-129 | the plan is acyclic and without dangling ids, so the planner's own check cannot fail; nothing in it has started ahead of its dependencies |
| `Planner.ChainsAreOrdered` | src/universal_brain/engineering/planning.py:64-102 | the architecture node precedes every node of a chain, and the stages of a chain follow one another |
| `Planner.IntegrationLast` | src/universal_brain/engineering/planning.py:105-118 | the integration node follows every other node |
| `Planner.ChainsAreIndependent` | src/universal_brain/engineering/planning.py:26-28 | nodes of different requirements are unordered, in every direction |
| `Planner.PlanCitesContract` | src/universal_brain/engineering/planning.py:39-112 | every node cites requirements of the contract, at least one, and only those |
| `Planner.PlanContract` | src/universal_brain/engineering/planning.py:31-129 | the two refusals; otherwise exactly that plan with 3n + 2 nodes in the source's dictionary order; the cycle error is never raised |
| `Worktrees.AdmittedFits` | src/universal_brain/engineering/worktrees.py:97-121 | an admitted batch respects the limit and the free slots, reserves only requirements that are not bound, each for an admitted node, and every admitted node has its worktree |
| `Worktrees.PassedOverForCause` | src/universal_brain/engineering/worktrees.py:109-120 | a node is passed over only when the batch is full or when it needs a new worktree and all slots are reserved |
| `Worktrees.FirstComeFirstServed` | src/universal_brain/engineering/worktrees.py:109-121 | whether a node is admitted is decided, for good, by those admitted before it: exactly if the batch has room and the node has no single requirement, or that has a worktree or was given one in this batch, or a slot is left |
| `Worktrees.AdmitKeepsOrder` | src/universal_brain/engineering/worktrees.py:109-121 | admission keeps the order of the ready list |
| `Worktrees.AdmitsOnce` | src/universal_brain/engineering/worktrees.py:109-121 | no node is admitted twice |
| `Worktrees.AdmissionIsNeverContradicted` | src/universal_brain/engineering/worktrees.py:67-121 | while the bindings do not exceed max_active, every interleaving of acquisitions and removals by admitted nodes, in any order and number, avoids the capacity error and stays within max_active |
| `Worktrees.VerifySuffix` | src/universal_brain/engineering/agency.py:268 | the nodes that finalise are those whose id is some text followed by _verify |
| `Worktrees.AdmissionIsContradictedIff` | src/universal_brain/engineering/worktrees.py:67-138 | exactly when some order of steps of an admitted batch meets the capacity error, each node acquiring once and only verification nodes giving a worktree back after that: when more than max_active requirements are bound and an admitted verification node shares its requirement with another admitted node |
| `Worktrees.OvercommittedAdmissionCanFail` | src/universal_brain/engineering/worktrees.py:129-138 | such a batch exists: a verification and a recovery node of its requirement, with two requirements restored and room for one |
| `Worktrees.RequirementWorktreeManager.AcquireForNode` | src/universal_brain/engineering/worktrees.py:67-89 | the four cases in the source's order with the exact new bindings; a failed git call binds nothing |
| `Worktrees.RequirementWorktreeManager.SelectSchedulable` | src/universal_brain/engineering/worktrees.py:97-121 | the loop selects exactly what the admission function of the facts above admits; a limit below one selects nothing |
| `Worktrees.RequirementWorktreeManager.FinalizeVerifiedRequirement` | src/universal_brain/engineering/worktrees.py:140-174 | commit and integration happen once each however often it is retried; a failure keeps the steps taken and the binding; the binding goes exactly when all steps succeed, even if the callback then fails; other bindings are untouched |
| `AgencyTheory.SomeNodeIsReady` | src/universal_brain/engineering/planning.py:206-220 | in an acyclic, closed graph in which every planned node has dependencies and everything is planned, ready or succeeded, promotion leaves a ready node as long as something is unfinished |
| `AgencyTheory.AdmissionIsNotEmpty` | src/universal_brain/engineering/worktrees.py:97-121 | if some candidate can be admitted, admission admits something |
| `Batches.StepKeepsClosure` | src/universal_brain/engineering/agency.py:175-288 | no step of any coroutine of a batch, in any interleaving, starts work ahead of its dependencies or takes a success back |
| `Batches.StepStaysAdmitted` | src/universal_brain/engineering/agency.py:178-179 | at every moment of a batch the bound requirements are among those that admission counted, and the capacity error does not occur |
| `Batches.IntegrationDecides` | src/universal_brain/engineering/agency.py:261-275 | in every interleaving, from the step in which a node settles without an exception: it has succeeded, to the end of the batch, exactly if its tool rounds fit the budget, it is accepted and, where it is a verification node whose single requirement is bound, there is a commit and an integration, on record or made now, the worktree is removed and the callback returns; otherwise it needs replanning to the end of the batch |
| `Batches.AcceptedAndIntegrated` | src/universal_brain/engineering/agency.py:261-275 | of a batch that nothing threw in, for every interleaving: a node without an exception of its own, and whose requirement no other node of the batch finalises, has succeeded exactly if accepted within its budget and, as a verification node, integrated, given what was on record before the batch; otherwise it needs replanning |
| `Batches.StepKeepsPending` | src/universal_brain/engineering/agency.py:261-275 | if nothing throws, at every moment a bound requirement has a verification still to come, and a worktree is given back when it is done |
| `Batches.StepKeepsInvariant` | src/universal_brain/engineering/agency.py:297-315 | all of this together, for every step of every interleaving of the selected nodes' coroutines |
| `Batches.SmoothBatchSucceeds` | src/universal_brain/engineering/agency.py:315-316 | a batch in which nothing goes wrong ends with all its nodes succeeded and no exception |
| `Batches.QuietBatchEndsCalmly` | src/universal_brain/engineering/agency.py:315-316 | a batch in which nothing throws ends with every node succeeded or, if something went wrong for it, awaiting replanning |
| `Batches.BatchRaisesIff` | src/universal_brain/engineering/agency.py:315-316 | a batch whose worktrees fit and can be created raises exactly if some execution in it throws |
| `Batches.StragglersKeepInvariant` | src/universal_brain/engineering/agency.py:315 | when gather has left a batch at its first exception, whatever the other coroutines still do keeps the batch invariant |
| `Agency.EngineeringAgencyRuntime.AcquireFor` | src/universal_brain/engineering/agency.py:178-179 | what acquiring a node's worktree does to the bindings, without a manager too |
| `Agency.EngineeringAgencyRuntime.ToolLoop` | src/universal_brain/engineering/agency.py:201-247 | the tool loop ends within its budget, with calls left over exactly when the model asks for more rounds than the budget, and leaves the node at cognitive work |
| `Agency.EngineeringAgencyRuntime.BeginNode` | src/universal_brain/engineering/agency.py:175-199 | the first part of an execution is the specified step: a worktree is acquired or not, and an exception before cognition leaves the node ready with its worktree bound |
| `Agency.EngineeringAgencyRuntime.Settle` | src/universal_brain/engineering/agency.py:187-288 | the status an execution leaves: one for each exception point; without an exception, succeeded exactly if the tool rounds fit the budget, the verifier accepts and, where a verification node's single requirement is bound, commit, integration, removal and callback all succeed, and to be replanned otherwise; and exactly what that does to the bindings |
| `Agency.EngineeringAgencyRuntime.Interleave` | src/universal_brain/engineering/agency.py:297-315 | gather ends, for every interleaving, at the end of all coroutines or at any later moment once one of them has thrown; whatever every single step keeps holds there, and the moments in between are a chain of such steps |
| `Agency.EngineeringAgencyRuntime.RunBatch` | src/universal_brain/engineering/agency.py:315-316 | a batch is a chain of steps that ends in a state that satisfies the batch invariant of its start |
| `Agency.EngineeringAgencyRuntime.SelectBatch` | src/universal_brain/engineering/agency.py:306-311 | the batch is what admission selects from the ready list; without a manager it is the first max_parallel_nodes of it |
| `Agency.EngineeringAgencyRuntime.ReplanAll` | src/universal_brain/engineering/agency.py:333-345 | the failed nodes are replanned in order, exactly as specified, until an insertion is refused; none was inserted exactly when the replanner's counter has not moved |
| `Agency.EngineeringAgencyRuntime.RunCycle` | src/universal_brain/engineering/agency.py:303-345 | a cycle after promotion is one specified step: the batch that is selected, its execution, recovery for its failed nodes in order, and the right way to go on or to end |
| `Agency.EngineeringAgencyRuntime.RunLoop` | src/universal_brain/engineering/agency.py:301-345 | the loop goes through a run in the sense of that step, cycle by cycle, and ends exactly where a cycle ends it or the cycles are used up |
| `Runs.UnrecoveredForCause` | src/universal_brain/engineering/agency.py:333-345 | a cycle gives up on recovery exactly when some node of its batch failed and there is no replanner or no such failure has a recovery; then nothing was changed |
| `Runs.FailedInKeepsOrder` | src/universal_brain/engineering/agency.py:333-345 | failed nodes are replanned in the order of their batch |
| `Runs.ReplannedNodesWait` | src/universal_brain/engineering/replanning.py:111-125 | unless an insertion is refused, every failed node of the batch whose failure has a recovery waits for a new node alone, which has its requirements and dependencies, however many nodes are replanned together |
| `Runs.RunningIsUnbroken` | src/universal_brain/engineering/agency.py:301-345 | as long as a run goes on, every cycle has run a batch and nothing has cut it short |
| `Runs.ExceptionEndsRun` | src/universal_brain/engineering/agency.py:315-345 | an exception in a batch ends the run there and then, with nothing replanned any more; without one, only a refused insertion does |
| `Runs.HowRunsEnd` | src/universal_brain/engineering/agency.py:301-345 | what each way to end means: cycles used up, nothing ready that may start after promotion, a node left awaiting replanning, an exception or a refused insertion |
| `Agency.EngineeringAgencyRuntime.RunDag` | src/universal_brain/engineering/agency.py:290-359 | a cyclic graph is refused untouched; otherwise, for all answers and interleavings, the run is a run in the sense of RunLoop and safe after each of its cycles: nodes, successes and transitive dependencies are never lost, nothing starts ahead of its dependencies, the capacity error does not occur within capacity, insertions fail only on a taken id, nodes that were neither planned nor ready stay as they were; the report is true; and if nothing throws, it completes if recovery mends every failure, and otherwise never |
| `Agency.EngineeringAgencyRuntime.Report` | src/universal_brain/engineering/agency.py:347-359 | complete exactly when there are nodes and all have succeeded; the blocked nodes in dictionary order |
| `Reporting.BlockedIsExact` | src/universal_brain/engineering/agency.py:347-359 | reported as blocked, in dictionary order, is exactly what is blocked, failed or to be replanned, or was left with proposed tools or in verification |
| `Runs.SelectedIsReady` | src/universal_brain/engineering/agency.py:303-313 | a batch consists of ready nodes, each once, at most max_parallel_nodes |
| `RunSafety.BatchIsSafe` | src/universal_brain/engineering/agency.py:315-316 | a batch keeps the safety of the run since its start |
| `RunSafety.ReplanIsSafe` | src/universal_brain/engineering/agency.py:339-342 | so does a replan, refused or not |
| `RunSafety.RoundOutcome` | src/universal_brain/engineering/agency.py:315-332 | the same for the batch of any cycle of a run, given the bindings that the cycle finds: a node whose integration raised needs replanning at the end of that batch |
| `RunSafety.SuccessIsEarned` | src/universal_brain/engineering/agency.py:261-275 | whatever a run leaves succeeded, and had not found so, was accepted in one of its cycles |
| `RunSafety.RecoveryStallsIff` | src/universal_brain/engineering/planning.py:214 | inserting recovery work leaves a planned node without dependencies, which is never promoted, exactly when the failed node has no dependencies or there was one already |
| `RunSafety.StuckStays` | src/universal_brain/engineering/agency.py:333-345 | a node that is neither ready nor succeeded nor waiting for others after some cycle is left as it is by every later one: run_dag replans only nodes of its own batches, in the cycle in which they fail |
| `RunSafety.StuckIsForever` | src/universal_brain/engineering/agency.py:333-345 | so a run with such a node after one of its cycles is never finished, whatever happens |
| `Scopes.NeverStarved` | src/universal_brain/engineering/worktrees.py:97-121 | worktree capacity never deadlocks a graph whose requirements are laid out like a plan's, recoveries included: some ready node needs no new worktree, or there is room for one |
| `Scopes.BatchStaysServed` | src/universal_brain/engineering/agency.py:315-316 | a batch in which nothing throws keeps that layout, and every bound requirement keeps a node to come that gives its worktree back |
| `Scopes.RecoveryStaysServed` | src/universal_brain/engineering/replanning.py:111-125 | so does inserting recovery work |
| `Completion.AlwaysSchedulable` | src/universal_brain/engineering/agency.py:303-313 | a run whose failures have been mended always finds a batch until everything is finished, for any capacity and batch size of at least one |
| `Completion.ReplannedIsWorkable` | src/universal_brain/engineering/agency.py:333-345 | replanning all failed nodes of a batch leaves a graph that can be worked off, with one node more and one recovery more for each, if they have dependencies, their failures have recoveries and no insertion is refused |
| `Completion.RunCompletes` | src/universal_brain/engineering/agency.py:301-345 | with at most F failures, all mended by recovery, the run completes within the number of unfinished nodes plus 2F cycles, begins at most one more, throws nothing and has no insertion refused; finishing takes at least the number of unfinished nodes divided by the batch size |
| `Completion.LossIsFinal` | src/universal_brain/engineering/agency.py:333-345 | a failure that recovery does not mend, because there is no replanner, the failure has no recovery or the node no dependencies, is final: the run never finishes, however many cycles it has, and whatever else in the batch is recovered |
| `Completion.CompletesIff` | src/universal_brain/engineering/agency.py:290-359 | a run that throws nothing and has that many cycles completes if and only if every node was ready, succeeded or planned with dependencies at the start, and recovery has mended every failure |
| `Completion.SparedRootsLoseNothing` | src/universal_brain/engineering/agency.py:301-345 | once every node without dependencies is finished or not among the executions that can fail, and those have recoveries, recovery mends every failure; it makes no new node without dependencies |
| `Scopes.WorktreesAtCompletion` | src/universal_brain/engineering/worktrees.py:168-169 | at completion of a plan all worktrees have been given back, unless there is one requirement only: then its worktree is bound again by the integration node and stays |
| `Runs.RunKeepsThroughout` | src/universal_brain/engineering/agency.py:301-345 | what promotion, batches and recovery keep, and what holds after some cycle of a run, holds after every later one |
| `RunSafety.RunIsSafeThroughout` | src/universal_brain/engineering/agency.py:301-345 | every state that a run reaches is safe in the sense of RunDag, for all answers and interleavings |
| `PlannedRuns.ArchitectureDecides` | src/universal_brain/engineering/agency.py:301-345 | in a run of a plan whose failures have recoveries, one that recovery does not mend occurs exactly when the architecture node's execution in the first cycle is not accepted |
| `PlannedRuns.PlanAndRun` | src/universal_brain/engineering/agency.py:290-359 | total completion: for n requirements, at most F failures that have recoveries, and 3n + 2 + 2F cycles, the planner's graph completes if and only if the architecture node is accepted at its only execution, for every capacity and batch size of at least one; at most one more, idle cycle is begun; one node at a time and without failures it completes if and only if there are 3n + 2 cycles; what stays bound |
| `Checkpointing.RecoveryKeepsRunInvariant` | src/universal_brain/engineering/checkpointing.py:212-219 | recovery keeps the run's dependency invariant, the graph and every success |
| `Checkpointing.ResetNodesAreNotResumed` | src/universal_brain/engineering/agency.py:333-345 | a node that is not ready, succeeded or waiting for others when a run begins after a recovery, reset by it or saved like that, stays as it is after every cycle of the run |
| `Checkpointing.ResumedRunCompletesIff` | src/universal_brain/engineering/agency.py:290-359 | a run after a recovery that throws nothing and has cycles to spare completes if and only if every node was saved ready, succeeded or planned with dependencies, and recovery mends whatever fails in the run itself |
| `Checkpointing.SmoothlyResumedCompletesIff` | src/universal_brain/engineering/agency.py:290-359 | if nothing goes wrong in that run, what was saved decides alone |
| `Checkpointing.SavedIsNeverReset` | src/universal_brain/engineering/agency.py:315-332 | recovery changes nothing in any checkpoint that a run saves, if the run began with no node in a transient status: the save comes after a batch that ended without an exception |
| `Checkpointing.SavedFailureIsNotResumed` | src/universal_brain/engineering/agency.py:326-345 | a checkpoint of a cycle in which a node failed is saved before the replanner sees the failure, and no run after its recovery ever finishes, although the run that saved it may |
| `Checkpointing.Recover` | src/universal_brain/engineering/checkpointing.py:192-219 | fails closed, without a change to the graph, at the first of: no readable checkpoint, another workspace digest, a worktree that is missing or has another digest; otherwise exactly the nodes saved between their lease and their verdict need replanning, one version on, and no other node changes |
| `Checkpointing.ResetIsExact` | src/universal_brain/engineering/checkpointing.py:203-219 | the report lists exactly those nodes, in dictionary order |
| `MissionRuntime.ReadinessRulesDiffer` | src/universal_brain/intelligence/mission_runtime.py:296-306 | the mission runtime's readiness differs from the mutator's exactly at planned nodes without dependencies, which it does promote |
| `MissionRuntime.RefreshIsExact` | src/universal_brain/intelligence/mission_runtime.py:296-306 | exactly the planned nodes whose dependencies, if any, are all in the graph and have succeeded become ready, and nothing else changes |
| `MissionRuntime.RefreshReadyNodes` | src/universal_brain/intelligence/mission_runtime.py:296-306 | promotes in place exactly the planned nodes whose dependencies have all succeeded; a dangling dependency blocks |
| `MissionRuntime.RefreshKeepsClosure` | src/universal_brain/intelligence/mission_runtime.py:296-306 | and keeps the dependency invariant |
| `MissionRuntime.CycleKeeps` | src/universal_brain/intelligence/mission_runtime.py:318-329 | a cycle keeps the invariant for all answers, and finishes at least one more node when all is accepted |
| `MissionRuntime.MissionCognitiveRuntime.ExecuteAll` | src/universal_brain/intelligence/mission_runtime.py:324-325 | the ready nodes are executed one after the other up to the first that throws, and no further |
| `MissionRuntime.MissionCognitiveRuntime.WorkCycle` | src/universal_brain/intelligence/mission_runtime.py:320-325 | a cycle is exactly: refresh, list the ready nodes in dictionary order, execute them |
| `MissionRuntime.WorkedUpToIsAmong` | src/universal_brain/intelligence/mission_runtime.py:324-325 | executing different nodes one after the other gives each its own answer and touches no other |
| `MissionRuntime.CycleIsExact` | src/universal_brain/intelligence/mission_runtime.py:318-329 | in a cycle a ready node gets the status of its own execution exactly if no ready node before it in dictionary order throws; every other node stays as the refresh left it |
| `MissionRuntime.CycleStopsForCause` | src/universal_brain/intelligence/mission_runtime.py:318-329 | a cycle is idle exactly if nothing is ready after the refresh, and throws exactly if the execution of some ready node does |
| `MissionRuntime.RunIsItsCycles` | src/universal_brain/intelligence/mission_runtime.py:318-332 | a run is a chain of such cycles, and ends at max_cycles or with the first that throws, is idle or has no verifier to go to |
| `MissionRuntime.SuccessIsEarned` | src/universal_brain/intelligence/mission_runtime.py:258-271 | every node that a run leaves succeeded, and had not found so, was accepted by a verifier in one of its cycles |
| `MissionRuntime.MissionCognitiveRuntime.ExecuteNode` | src/universal_brain/intelligence/mission_runtime.py:227-294 | a node ends succeeded exactly if there is a verifier, nothing throws, no tools are proposed and the answer is accepted, and to be replanned exactly if it is rejected instead; each other status exactly in its own case |
| `MissionRuntime.MissionCognitiveRuntime.RunDag` | src/universal_brain/intelligence/mission_runtime.py:308-352 | refuses exactly cyclic graphs; otherwise statuses, cycles and exception are exactly the specified function of the answers; keeps the dependency invariant, every success and the graph for all answers; whatever it leaves succeeded, and had not found so, was accepted by a verifier; completes within as many cycles as there are unfinished nodes if all is accepted; reports completion and the blocked nodes truly |
| `Dependencies.StackCycle` | src/universal_brain/autonomy/dependencies.py:60-63 | the stretch of the search path from a node on the stack back to it is a genuine cycle |
| `Dependencies.NewEdgeClosesCycle` | src/universal_brain/autonomy/dependencies.py:29-34 | in a graph without deadlock, a new wait closes a cycle exactly when the required node is the blocked one or already waits for it |
| `Dependencies.DependencyCoordinator.CheckForDeadlocks` | src/universal_brain/autonomy/dependencies.py:41-76 | raises exactly when the wait graph has a cycle, and what it reports starts and ends at the same node with an edge between every two neighbours |
| `Dependencies.DependencyCoordinator.AddDependency` | src/universal_brain/autonomy/dependencies.py:29-34 | the edge is recorded in any case; a normal return means the whole graph is acyclic; on an acyclic graph the error is foreseeable before the call |
| `Dependencies.DependencyCoordinator.RemoveDependency` | src/universal_brain/autonomy/dependencies.py:36-39 | removes exactly that edge |
| `DistributedLeases.RunStaysConsistent` | src/universal_brain/engineering/distributed_leases.py:60-87 | every stored lease carries its task's current generation, after any sequence of operations |
| `DistributedLeases.AcquireGrants` | src/universal_brain/engineering/distributed_leases.py:47-87 | an acquisition is granted exactly for ids that are not blank and at least five seconds, if nobody else holds the task; a new lease has the next generation and passes the fence exactly until its time is over; a refusal changes nothing |
| `DistributedLeases.HeartbeatExtends` | src/universal_brain/engineering/distributed_leases.py:89-113 | a heartbeat is granted exactly to the holder of a lease that has not expired, whose token then passes exactly until the granted time, at least five seconds, is over; the holder of an expired lease loses it, and nobody else changes anything |
| `DistributedLeases.ReleaseFrees` | src/universal_brain/engineering/distributed_leases.py:115-124 | after a release by the holder no token of the task passes, nothing is found, and any worker that asks for at least five seconds gets the task with the next generation; other tasks keep their leases |
| `DistributedLeases.ReleaseIsGuarded` | src/universal_brain/engineering/distributed_leases.py:115-124 | nobody but the holder can release, and where nothing is stored there is nothing to do |
| `DistributedLeases.FenceIsExact` | src/universal_brain/engineering/distributed_leases.py:126-138 | the fence passes exactly for the holder of a stored lease of the current generation that has not expired, and changes nothing |
| `DistributedLeases.LookupsFindLive` | src/universal_brain/engineering/distributed_leases.py:140-160 | looking up and listing find exactly the leases that have not expired |
| `DistributedLeases.FenceLossIsPermanent` | src/universal_brain/engineering/distributed_leases.py:126-138 | over any operations with a clock that does not go back, a granted token that once does not pass validate_fence never passes again |
| `DistributedLeases.TokenPassesLaterIff` | src/universal_brain/engineering/distributed_leases.py:126-138 | exactly which tokens that do not pass now can pass after some operations: those of a generation that has not been granted yet, for ids that are not blank |
| `DistributedLeases.FreshGrantIsNewer` | src/universal_brain/engineering/distributed_leases.py:73-87 | a grant either returns the holder's own running lease unchanged or has a generation that no earlier lease of the task had; either way it passes the fence |
| `DistributedLeases.GuardedOperationsAreOrdered` | src/universal_brain/engineering/distributed_leases.py:126-138 | operations that pass the fence occur in the order of their generations, and one generation has one holder for ever |
| `DistributedLeases.LazyExpiryIsUnobservable` | src/universal_brain/engineering/distributed_leases.py:60-178 | two registries that differ in expired leases only answer every operation of every sequence alike, up to the wording of a refused heartbeat, except exactly a release that finds in one of them, and not in the other, an expired lease its token does not hold |
| `DistributedLeases.ReleaseObservesExpiry` | src/universal_brain/engineering/distributed_leases.py:115-124 | release is the exception: it answers differently exactly when an expired lease is still stored and the token does not hold it |
| `DistributedLeases.DurableWorkerLeaseStore.AcquireLease` | src/universal_brain/engineering/distributed_leases.py:47-87 | the new registry and the answer are those of the step that the facts above are about, argument checks included |
| `DistributedLeases.DurableWorkerLeaseStore.HeartbeatLease` | src/universal_brain/engineering/distributed_leases.py:89-113 | likewise: an expired lease is dropped and refused, a live one is extended by at least five seconds |
| `DistributedLeases.DurableWorkerLeaseStore.ReleaseLease` | src/universal_brain/engineering/distributed_leases.py:115-124 | likewise |
| `DistributedLeases.DurableWorkerLeaseStore.CheckFence` | src/universal_brain/engineering/distributed_leases.py:126-138 | likewise, and the registry stays as it is |
| `DistributedLeases.DurableWorkerLeaseStore.GetLease` | src/universal_brain/engineering/distributed_leases.py:140-151 | likewise |
| `DistributedLeases.DurableWorkerLeaseStore.ListLeases` | src/universal_brain/engineering/distributed_leases.py:153-160 | likewise, and the running leases are listed in the order of their task ids |
| `CodeGraph.RepresentationIsUnique` | src/universal_brain/engineering/code_graph.py:237-279 | two indexes of the same files have the same digests and symbols, and the same references as often |
| `CodeGraph.ReplacedRepresents` | src/universal_brain/engineering/code_graph.py:297-323 | replacing one file in an index of some files gives an index of the files with that one replaced, or removed when it cannot be read or decoded |
| `CodeGraph.SecondRefreshIsQuiet` | src/universal_brain/engineering/code_graph.py:254-260 | an index of the current files has nothing deleted, and what it finds changed is exactly the readable files that cannot be decoded |
| `CodeGraph.Build` | src/universal_brain/engineering/code_graph.py:237-242 | build indexes exactly the files that can be read and decoded |
| `CodeGraph.Refresh` | src/universal_brain/engineering/code_graph.py:244-279 | refresh turns an index of the old files into an index of the current ones; the delta lists changed, deleted and unchanged files exactly and sorted, and counts how many more or fewer symbols and references there are, not how many came and went |
| `CodeGraph.CountsAreTrueIff` | src/universal_brain/engineering/code_graph.py:264-279 | the delta counts the symbols, and the references, that came and went exactly when none went or none came |
| `CodeGraph.RefreshAgainstRebuild` | src/universal_brain/engineering/code_graph.py:237-279 | incremental equals rebuild: for any two file systems, refreshing the index built before and building afresh after give the same digests, symbols and multiset of references |
| `CodeGraph.AnswersAgree` | src/universal_brain/engineering/code_graph.py:77-126 | indexes of the same files give the same impact sets for every depth, and the same affected tests |
| `CodeGraph.CodeGraphIndex.FilesImpactedBy` | src/universal_brain/engineering/code_graph.py:77-103 | exactly the changed files and the files reachable from them by at most max_depth definition-to-reference steps, sorted |
| `CodeGraph.CodeGraphIndex.AffectedTests` | src/universal_brain/engineering/code_graph.py:105-126 | sorted; a file is listed exactly if it is a test file and a changed file reaches it within six definition-to-reference steps, or it refers to a name defined in a changed file, or it defines a symbol and shares a stem with a changed file |
| `CodeGraph.ImpactedTestsAreAffected` | src/universal_brain/engineering/code_graph.py:105-126 | so every test file among the files impacted within six steps is listed |
| `CodeGraph.DeepImpactIsClosure` | src/universal_brain/engineering/code_graph.py:77-103 | a depth of at least the number of files gives the full transitive closure |
| `Digraphs.BallIsBoundedReach` | src/universal_brain/engineering/code_graph.py:84-102 | n rounds of frontier expansion find exactly what lies within n edges of the start |
| `Digraphs.DeepBallIsClosure` | src/universal_brain/engineering/multirepo.py:37-52 | a search at least as deep as there are nodes is unbounded reachability |
| `MultiRepo.MultiRepositoryGraph.Downstream` | src/universal_brain/engineering/multirepo.py:37-52 | exactly the other repositories with a dependency path of at most max_depth edges, sorted, and all that depend on the repository when max_depth is at least the number of repositories |
| `Quota.SpacingBoundsWindows` | src/universal_brain/intelligence/quota.py:51-57 | if any m + 1 attempts in a row span at least a window, then every window, wherever it ends, holds at most m |
| `Quota.PruningRemembers` | src/universal_brain/intelligence/quota.py:51-57 | what pruning keeps is exactly what the complete history holds in the window that ends now |
| `Quota.CheckIsExact` | src/universal_brain/intelligence/quota.py:59-87 | a route that is not cooling down is refused for its request quota exactly when the complete history holds max_requests attempts in the window |
| `Quota.ReasonIsExact` | src/universal_brain/intelligence/quota.py:59-87 | the answer in terms of what was recorded and charged: rate-limited exactly while now is before the end of the cooldown; otherwise the first limit that the attempts within the window, with one more and the tokens estimated, would break; none exactly if no limit is |
| `Quota.ChargingAddsUp` | src/universal_brain/intelligence/quota.py:93-100 | usage is charged once and in full: the sums over all events grow by exactly the tokens reported, negative ones as nothing, and only the latest event changes |
| `Quota.CooldownEndsOnTime` | src/universal_brain/intelligence/quota.py:51-107 | whatever is checked, attempted and charged meanwhile, a route marked as rate-limited is refused for that reason exactly until the pause asked for is over, or the policy's own if none or zero was asked for |
| `Quota.EveryWindowIsBounded` | src/universal_brain/intelligence/quota.py:51-100 | if each attempt follows a passed check with no attempt in between, the clock does not go back, and the route is configured again only with its policy and an empty window, every interval (t - window, t] of the complete, unpruned history holds at most max_requests attempts |
| `Quota.ReconfiguringKeepsQuotaIff` | src/universal_brain/intelligence/quota.py:48-49 | configuring a route within its quota again with its policy keeps every window of every later checked run within the quota exactly when no attempt lies in the window that ends at that moment |
| `Quota.NewPolicyIsKept` | src/universal_brain/intelligence/quota.py:48-49 | a route with no attempt in the window of a new policy may be given that policy: every window that ends later then holds at most what it allows |
| `Quota.ReconfiguringForgets` | src/universal_brain/intelligence/quota.py:48-49 | it does happen: configured twice, two checked attempts pass within one second under a limit of one |
| `Quota.RouteQuotaRegistry.ConfigureRoute` | src/universal_brain/intelligence/quota.py:48-49 | sets the policy and forgets the route's attempts and cooldown |
| `Quota.RouteQuotaRegistry.EligibilityReason` | src/universal_brain/intelligence/quota.py:59-87 | prunes in place and answers with the first reason in the source's order; other routes are untouched |
| `Quota.RouteQuotaRegistry.RecordAttempt` | src/universal_brain/intelligence/quota.py:89-91 | appends exactly one attempt at the current time to a known route |
| `Quota.RouteQuotaRegistry.RecordUsage` | src/universal_brain/intelligence/quota.py:93-100 | charges the latest attempt, recording one first if none is left; negative counts add nothing |
| `Quota.RouteQuotaRegistry.MarkRateLimited` | src/universal_brain/intelligence/quota.py:102-107 | sets the cooldown, on a default policy for an unknown route; a retry-after of zero counts as not given |
| `LspFraming.PrintedNumberIsParsed` | src/universal_brain/engineering/lsp_runtime.py:254-277 | int() of the decimal digits of a number is that number |
| `LspFraming.IntAcceptsExactly` | src/universal_brain/engineering/lsp_runtime.py:275-277 | int() accepts exactly digits with single underscores between them, after at most one sign |
| `PyText.StripIsExact` | src/universal_brain/engineering/lsp_runtime.py:274 | strip() removes white space at both ends, all of it and nothing else |
| `LspFraming.HeaderPartIsRead` | src/universal_brain/engineering/lsp_runtime.py:261-274 | a header part made of any well-formed fields is read field by field, later ones winning, and consumed to the byte |
| `LspFraming.BadLineIsRefused` | src/universal_brain/engineering/lsp_runtime.py:266-272 | a header part is refused at a line that is not ASCII or has no colon, whatever well-formed fields stand before it |
| `LspFraming.AnyHeaderPartIsAccepted` | src/universal_brain/engineering/lsp_runtime.py:257-286 | a message is read back whatever other well-formed header fields stand before or after Content-Length |
| `LspFraming.FrameIsRead` | src/universal_brain/engineering/lsp_runtime.py:249-286 | a written frame is read back to its body, and exactly the frame is consumed, whatever bytes follow (Base Protocol, Language Server Protocol 3.17) |
| `LspFraming.FramesRoundTrip` | src/universal_brain/engineering/lsp_runtime.py:249-286 | any concatenation of written frames is read back to the same bodies in the same order, leaving exactly what follows |
| `LspFraming.TruncatedContentIsIncomplete` | src/universal_brain/engineering/lsp_runtime.py:279 | a stream that ends inside a content part is reported as incomplete |
| `LspFraming.CutFrameIsNoMessage` | src/universal_brain/engineering/lsp_runtime.py:261-279 | no proper prefix of a frame is taken for a message, wherever the stream breaks off |
| `LspFraming.StdioStreams.WriteMessage` | src/universal_brain/engineering/lsp_runtime.py:249-255 | appends exactly one frame |
| `LspFraming.StdioStreams.ReadHeaderPart` | src/universal_brain/engineering/lsp_runtime.py:261-274 | the header loop reads what the specification function reads, line by line, and leaves what follows the blank line |
| `LspFraming.StdioStreams.ReadMessage` | src/universal_brain/engineering/lsp_runtime.py:257-286 | each error exactly in its own case, for every byte stream: a header part cut short or malformed, no integer length, a negative one, too little content, a body that is no JSON object; otherwise the body of exactly the announced length; and what is left of the stream in each case |
| `Websocket.ReplayRefinesLog` | src/universal_brain/api/websocket.py:99-122 | for a cursor up to the counter the answer is exactly the log after it, or None exactly when some of that has been dropped; a negative cursor gets None; a higher one gets [] unless nothing is buffered |
| `Websocket.ReconnectingClientCatchesUp` | src/universal_brain/api/websocket.py:99-122 | a client is brought up to date without a snapshot exactly when it missed no more than the buffer holds, and then has the whole log |
| `Websocket.RestartIsNoticedIff` | src/universal_brain/api/websocket.py:99-122 | exactly when a client with a cursor from before a restart learns that it has to catch up: when the buffer has dropped an event after its cursor or, if its cursor is ahead of the new log, when nothing is buffered; in every other case it loses events without being told |
| `Websocket.WebSocketGateway.Broadcast` | src/universal_brain/api/websocket.py:54-97 | numbers the event by one more than the last, and the buffer is always the last max_replay_buffer events of the log (none for a limit below one) |
| `Websocket.WebSocketGateway.GetReplayEvents` | src/universal_brain/api/websocket.py:99-122 | the same characterisation for the running gateway |
| `Escalation.StageTaskIsConjunction` | src/universal_brain/intelligence/escalation.py:131-160 | a stage's task permits a transport and costs exactly when both the task and the stage do: limits are only ever narrowed |
| `Escalation.FirstMatchIsFirst` | src/universal_brain/intelligence/escalation.py:118-122 | the transition taken is the first of the graph that starts at the stage and has the outcome, and none is taken only if there is none |
| `Escalation.RecordingIsSound` | src/universal_brain/intelligence/escalation.py:256-289 | recording one more attempt keeps the rules about repeated routes and models |
| `Escalation.EligibleIsExact` | src/universal_brain/intelligence/escalation.py:242-247 | eligible is, in order and as often as listed, every candidate of an unseen route that meets the stage's score, and no other |
| `Escalation.ShortlistIsFirst` | src/universal_brain/intelligence/escalation.py:242-248 | the shortlist is the first max_candidates of them, or all if there are fewer |
| `Escalation.NoCandidateIsPassedOver` | src/universal_brain/intelligence/escalation.py:209-311 | in every run, a visit left while attempts remain has a router error on record, or is done with each candidate of its decision for a cause: it was tried, its route was tried in an earlier visit, its score is too low, its model is ruled out, or max_candidates fitting ones come before it |
| `Escalation.InvokeIsSound` | src/universal_brain/intelligence/escalation.py:209-311 | for every run, cyclic stage graphs included: at most max_stage_hops visits along transitions from the entry, each left with the outcome of its last attempt; at most max_attempts attempts, each with the stage's narrowed task, an eligible candidate and a true outcome; no route again in a later visit; no model twice where that is ruled out; a result only if the assessor accepted the last attempt; exhaustion only by attempts, hops or transitions; a stage id that is not in the graph never occurs |
| `Escalation.DistinctDecisionsRepeatNoRoute` | src/universal_brain/intelligence/escalation.py:242-262 | if the routes of each single decision are distinct, no run tries a route twice |
| `Escalation.OfferDecidesRepeats` | src/universal_brain/intelligence/escalation.py:242-299 | a visit, from any state of a run, repeats no route if the candidates it offers are of distinct routes, and when all transports fail it repeats one exactly when they are not |
| `Escalation.VisitTriesOffered` | src/universal_brain/intelligence/escalation.py:248-299 | what a visit tries is a prefix, in order, of its candidates without the models that are ruled out, within the attempts left, and all of that when all transports fail |
| `Escalation.TryEach` | src/universal_brain/intelligence/escalation.py:248-299 | the loop over candidates computes the specified attempts, outcome and early exits |
| `Escalation.Invoke` | src/universal_brain/intelligence/escalation.py:209-311 | the loop over stages computes the specified run, and that run is sound in the sense of InvokeIsSound; what it passes over is subject to NoCandidateIsPassedOver |
| `Escalation.WithoutPolicyIsOneStage` | src/universal_brain/intelligence/escalation.py:162-207 | invoke without a policy graph has the verdict and the attempts of invoke with a graph of one stage that takes every candidate and narrows nothing, unless the router raises |
| `Escalation.InvokeWithoutPolicy` | src/universal_brain/intelligence/escalation.py:162-207 | the loop without a policy graph computes that run; an error of the router is raised before any attempt |
| `AgentLeases.SingleAuthority` | src/universal_brain/autonomy/leases.py:74-123 | after any run of assignments, validations, charges, revocations, fencings and restarts with an epoch later than that of every active lease, at most one lease gives authority over a task at the current epoch and generation |
| `AgentLeases.LowRestartSharesAuthority` | src/universal_brain/autonomy/scheduler.py:74-132 | in any state, a restart at or below the epoch of an active lease starts the generations over, and that lease and the next one for its task both have authority |
| `AgentLeases.RestartKeepsAuthorityIff` | src/universal_brain/autonomy/scheduler.py:60-132 | a restart keeps single authority over every later run exactly when every active lease is of an earlier epoch; the same or a lower epoch is harmless once those leases have ended |
| `AgentLeases.InactiveForever` | src/universal_brain/autonomy/leases.py:94-95 | ACTIVE is never re-entered: a lease that is not active is refused for ever |
| `AgentLeases.RejectionIsPermanent` | src/universal_brain/autonomy/leases.py:90-123 | a lease found expired or of an older epoch or generation is never accepted again, however the claim is filled in; version conflicts and foreign tasks change nothing |
| `AgentLeases.ReassignmentFences` | src/universal_brain/autonomy/scheduler.py:120-132 | reassigning a task ends the authority of all its earlier leases for good, whether or not anyone validates them |
| `AgentLeases.AcceptedIsWithinLimits` | src/universal_brain/autonomy/leases.py:74-141 | an accepted lease is unexpired, has turns left, has not overspent, and is of no older epoch or generation |
| `AgentLeases.UsageIsConserved` | src/universal_brain/autonomy/leases.py:125-141 | the turns and money charged to a lease are exactly the sums recorded for it |
| `AgentLeases.AcceptedWasChargedWithinLimits` | src/universal_brain/autonomy/leases.py:125-141 | so an accepted lease has been charged fewer than its turns and no more than its money in all |
| `AgentLeases.FencingIsExact` | src/universal_brain/autonomy/leases.py:149-156 | fencing an epoch leaves nothing active below it and changes no verdict at that epoch |
| `AgentLeases.AgentLeaseController.GrantLease` | src/universal_brain/autonomy/leases.py:34-68 | the lease as asked for, cut to the longest duration; it starts within its limits exactly if it has a turn and no negative money |
| `AgentLeases.AgentLeaseController.ValidateLeaseAuthority` | src/universal_brain/autonomy/leases.py:74-123 | accepted exactly if the lease is known, active, not past its expiry, of no older epoch or generation, with the expected version and for a task in its scope; each refusal exactly when its own check is the first to fail; expiry and fencing leave the lease expired or revoked, and nothing else changes |
| `AgentLeases.AgentLeaseController.RecordUsage` | src/universal_brain/autonomy/leases.py:125-141 | charges the lease and no other; it fails, and the error is raised, exactly if it has then overspent, completes if instead its turns are used up, and otherwise keeps its status |
| `AgentLeases.AgentLeaseController.RevokeLease` | src/universal_brain/autonomy/leases.py:143-147 | revokes an active lease and nothing else |
| `AgentLeases.AgentLeaseController.FenceEpoch` | src/universal_brain/autonomy/leases.py:149-156 | revokes exactly the active leases of earlier epochs and returns their number |
| `AgentLeases.MissionScheduler.AssignAgentToTask` | src/universal_brain/autonomy/scheduler.py:86-132 | refuses missions that are neither active nor ready without a change; otherwise the task's generation moves by one and the lease is the run event of the facts above, allowing no more than was asked for, the mission and the role |

## Left out

Parts of the repository that are not modelled: the console, the HTTP routes, subprocess and language-server life cycle,
sending on sockets, git, the tool gateway, model transports and routing, memory, the kernel and its event store, the mission
transition table, blackboard, commitments, watchdogs and wake-ups: input and output, or settled by reading single branches.

Within what is modelled:

- Agency.EngineeringAgencyRuntime.RunDag: audit records, observations, run records, checkpoint saving and its errors are left out; max_tool_iterations and max_parallel_nodes are what the constructor accepted.
- Agency.EngineeringAgencyRuntime.Settle: the statuses that the cognitive runtime sets inside one execution are seen only where an exception can leave them behind; observations and audit events are left out.
- Agency.EngineeringAgencyRuntime.Interleave: the run ends where gather raises; what the coroutines left behind do afterwards is stated separately (Batches.StragglersKeepInvariant), and not interleaved with a later run.
- Completion.RunCompletes: the counter of recoveries stays below 110 digits, see Replanning.RecoveryIdsAreDistinct; with a worktree manager, the graph lays its requirements out as a plan does, recoveries included (`Scopes`), and without one it is any graph.
- Worktrees.RequirementWorktreeManager.FinalizeVerifiedRequirement: its locked section is one step, and so is acquiring; two finalisations that captured the same binding before either took the lock are not interleaved; commits, branches and paths are opaque strings.
- Planner.PlanContract: goals, descriptions, scopes and evidence of nodes are left out, and the slug is any function of the requirement id.
- Schemas.TaskDAG.ValidateAcyclic: Python's recursion limit is left out, here and in the deadlock detector.
- DagProgress.ReadyNodes: the ready list holds ids, not node objects; node keys are the nodes' own ids.
- DagMutator.InsertBefore: a node object is put into one graph only, so no two graphs share nodes.
- Replanning.RecoveryIdsAreDistinct: counters of more than 110 digits, which the truncation would cut.
- Checkpointing.Recover: whether the checkpoint can be read and its checksum is right is one answer, and digests are strings; the copy of the graph is the argument.
- MissionRuntime.MissionCognitiveRuntime.RunDag: run records, councils and metadata are left out.
- CodeGraph.RefreshAgainstRebuild: parsing, decoding and hashing are functions of path and content; digests do not collide and symbol ids name their file; a file does not change between hashing and reading; path normalisation is left out.
- DistributedLeases.FenceLossIsPermanent: each store operation is one step; the lock file, whose staleness rule depends on time, lease metadata and the JSON file are left out.
- Quota.EveryWindowIsBounded: snapshots are left out; times and windows are whole seconds.
- LspFraming.StdioStreams.ReadMessage: what makes a body a JSON object in UTF-8 is any predicate; the reader's line-length limit and Python's limit on the digits of an integer are left out.
- Websocket.WebSocketGateway.Broadcast: event ids, times, the stream id and the connected sockets are left out.
- Escalation.Invoke: error texts and assessment details are left out; costs and scores are real numbers.
- AgentLeases.SingleAuthority: the leases are those that the scheduler issues; lease ids are new; money is a real number; agent cells and events are left out, and so is that callers could change a returned lease object.
