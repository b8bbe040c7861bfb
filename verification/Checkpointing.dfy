/** Restart from a checkpoint (engineering/checkpointing.py): nodes caught in the middle of their work
    are marked for replanning. Digests of files are parameters. */
module Checkpointing {
  import opened Schemas
  import opened Sequences
  import opened DagProgress
  import opened DagInvariants
  import opened AgencyTheory
  import opened Batches
  import opened Completion
  import opened Runs
  import opened RunSafety
  import opened Scopes
  import opened Wrappers
  import W = Worktrees

  predicate Transient(status: TaskNodeStatus) {
    status in {LeaseAssigned, CognitiveWork, ToolProposed, Preflight, Executing, Verifying}
  }

  function ResetNode(n: NodeState): NodeState {
    if Transient(n.status) then n.(status := ReplanRequired, version := n.version + 1) else n
  }

  ghost function RecoveredAmong(s: DagState, ids: set<string>): DagState {
    map k | k in s :: if k in ids then ResetNode(s[k]) else s[k]
  }

  ghost function Recovered(s: DagState): DagState {
    RecoveredAmong(s, s.Keys)
  }

  ghost function ResetIds(s: DagState, order: seq<string>): seq<string> {
    if order == [] then []
    else
      var last := order[|order| - 1];
      ResetIds(s, order[..|order| - 1]) + if last in s && Transient(s[last].status) then [last] else []
  }

  /** Recovery resets exactly what was saved between its lease and its verdict, and lists it in dictionary order. */
  lemma {:induction false} ResetIsExact(s: DagState, order: seq<string>)
    ensures forall k :: k in ResetIds(s, order) <==>
      && k in order && k in s
      && s[k].status in {LeaseAssigned, CognitiveWork, ToolProposed, Preflight, Executing, Verifying}
    ensures Subsequence(ResetIds(s, order), order)
  {
    if order == [] {
      EmptyEmbeds<string>();
    } else {
      var init, last := order[..|order| - 1], order[|order| - 1];
      ResetIsExact(s, init);
      assert order == init + [last];
      SubsequenceGrows(ResetIds(s, init), init, last, last in s && Transient(s[last].status));
    }
  }

  lemma RecoveredAmongStep(s: DagState, ids: set<string>, k: string)
    requires k in s && k !in ids
    ensures var t := RecoveredAmong(s, ids);
      k in t && t[k] == s[k] && RecoveredAmong(s, ids + {k}) == t[k := ResetNode(t[k])]
  {
  }

  /** Recovery keeps the run's invariant: what had started is still backed by finished dependencies, the
      graph is the same, and finished work stays finished. */
  lemma RecoveryKeepsRunInvariant(s: DagState)
    ensures DependencyClosed(s) ==> DependencyClosed(Recovered(s))
    ensures Evolves(s, Recovered(s))
  {
    var t := Recovered(s);
    forall d
      ensures IsDone(t, d) <==> IsDone(s, d)
    {
    }
    if DependencyClosed(s) {
      forall k | k in t && Started(t[k].status)
        ensures DependenciesDone(t, k)
      {
        assert DependenciesDone(s, k);
      }
    }
    StatusesEvolve(s, t);
  }

  /** run_dag replans the nodes of its own batches only: a node that is neither ready nor succeeded nor waiting for
      others when a run begins after a recovery, be it reset by the recovery or saved like that, is left as it is
      by the whole run. */
  lemma ResetNodesAreNotResumed(s: DagState, order: seq<string>, b0: W.Bindings, c0: nat, rounds: seq<Round>, i: nat,
                                r: RunSetting, k: string)
    requires IsRun(StartOfRun(Recovered(s), order, b0, c0), rounds, r) && i <= |rounds| && k in s
    requires !InOrder(s[k])
    ensures var dag := Reached(StartOfRun(Recovered(s), order, b0, c0), rounds, i).dag;
      k in dag && dag[k] == ResetNode(s[k]) && dag[k].status != Succeeded
  {
    StuckStays(StartOfRun(Recovered(s), order, b0, c0), rounds, 0, i, r, k);
  }

  lemma RecoveredIsStuckIff(s: DagState)
    ensures Stuck(Recovered(s)) <==> Stuck(s)
  {
    assert forall k | k in s :: InOrder(Recovered(s)[k]) <==> InOrder(s[k]);
  }

  /** Exactly when a checkpoint can be resumed: a run after a recovery that throws nothing and has cycles to spare
      finishes everything if and only if every node was saved ready, succeeded or waiting for others, and recovery
      mends whatever fails in the run itself. */
  lemma ResumedRunCompletesIff(s: DagState, order: seq<string>, b0: W.Bindings, c0: nat, rounds: seq<Round>,
                               ending: Ending, maxCycles: int, r: RunSetting, scope: Scope, bad: set<(nat, string)>)
    requires AcyclicDag(s) && NoDangling(s) && DependencyClosed(s)
    requires IsRun(StartOfRun(Recovered(s), order, b0, c0), rounds, r) && EndedBy(ending, rounds, maxCycles)
    requires Provided(Recovered(s), b0, c0, r, scope, bad) && maxCycles >= Open(Recovered(s)) + 2 * |bad|
    ensures AllFinished(EndOf(StartOfRun(Recovered(s), order, b0, c0), rounds).dag) <==>
            (forall k | k in s :: InOrder(s[k])) &&
            NothingLost(StartOfRun(Recovered(s), order, b0, c0), rounds, |rounds|, r)
  {
    RecoveryKeepsRunInvariant(s);
    RecoveredIsStuckIff(s);
    CompletesIff(Recovered(s), order, b0, c0, rounds, ending, maxCycles, r, scope, bad);
  }

  /** If nothing goes wrong in the resumed run, what was saved decides. */
  lemma SmoothlyResumedCompletesIff(s: DagState, order: seq<string>, b0: W.Bindings, c0: nat, rounds: seq<Round>,
                                    ending: Ending, maxCycles: int, r: RunSetting, scope: Scope)
    requires AcyclicDag(s) && NoDangling(s) && DependencyClosed(s)
    requires IsRun(StartOfRun(Recovered(s), order, b0, c0), rounds, r) && EndedBy(ending, rounds, maxCycles)
    requires Provided(Recovered(s), b0, c0, r, scope, {}) && maxCycles >= Open(Recovered(s))
    ensures AllFinished(EndOf(StartOfRun(Recovered(s), order, b0, c0), rounds).dag) <==>
            forall k | k in s :: InOrder(s[k])
  {
    ResumedRunCompletesIff(s, order, b0, c0, rounds, ending, maxCycles, r, scope, {});
    if !Stuck(s) {
      RecoveredIsStuckIff(s);
      RecoveryKeepsRunInvariant(s);
      SparedRootsLoseNothing(Recovered(s), order, b0, c0, rounds, 0, |rounds|, r, scope, {});
    }
  }

  // ---- What run_dag saves ----

  ghost predicate NoneTransient(s: DagState) {
    forall k | k in s :: !Transient(s[k].status)
  }

  /** The only checkpoint of a cycle is saved when its batch has ended without an exception and before recovery: then
      every node of the batch has succeeded or needs replanning. */
  lemma BatchLeavesNoneTransient(p: RunState, b: RunState, m: Moment, cycle: nat, r: RunSetting)
    requires BatchStep(p, b, m, cycle, r) && !m.raised && NoneTransient(p.dag)
    ensures NoneTransient(b.dag)
  {
  }

  lemma {:induction false} ReplanningLeavesNoneTransient(p: RunState, failed: seq<string>, cycle: nat, r: RunSetting)
    requires NoneTransient(p.dag)
    ensures NoneTransient(ReplannedInOrder(p, failed, cycle, r).dag)
    decreases |failed|
  {
    if failed != [] && p.rejected == None {
      ReplanningLeavesNoneTransient(AfterReplan(p, failed[0], r.oracle(cycle, failed[0]).failure, r), failed[1..],
                                    cycle, r);
    }
  }

  lemma RecoveringLeavesNoneTransient(b: RunState, q: RunState, ending: Option<Ending>, batch: seq<string>,
                                      cycle: nat, r: RunSetting)
    requires RecoverStep(b, q, ending, batch, cycle, r) && NoneTransient(b.dag)
    ensures NoneTransient(q.dag)
  {
    ReplanningLeavesNoneTransient(b, FailedIn(b.dag, batch), cycle, r);
  }

  lemma WorkLeavesNoneTransient(p: RunState, q: RunState, m: Moment, ending: Option<Ending>, cycle: nat, r: RunSetting)
    requires WorkStep(p, q, m, ending, cycle, r) && NoneTransient(p.dag)
    ensures BatchOf(p, r) != [] && !m.raised ==> NoneTransient(m.dag)
    ensures !q.raised ==> NoneTransient(q.dag)
  {
    var batch := BatchOf(p, r);
    if batch != [] && !m.raised {
      var b := AfterBatch(p, m, Members(batch));
      BatchLeavesNoneTransient(p, b, m, cycle, r);
      if !b.raised {
        RecoveringLeavesNoneTransient(b, q, ending, batch, cycle, r);
      }
    }
  }

  /** The DAG in the checkpoint that a cycle saves, if it comes to that. */
  ghost function SavedIn(p: RunState, d: Round, r: RunSetting): Option<DagState> {
    if BatchOf(p.(dag := Promoted(p.dag)), r) == [] || d.m.raised then None else Some(d.m.dag)
  }

  lemma RoundLeavesNoneTransient(p: RunState, d: Round, r: RunSetting)
    requires IsRound(p, d, r) && NoneTransient(p.dag)
    ensures !d.after.raised ==> NoneTransient(d.after.dag)
    ensures SavedIn(p, d, r).Some? ==> NoneTransient(SavedIn(p, d, r).value)
  {
    WorkLeavesNoneTransient(p.(dag := Promoted(p.dag)), d.after, d.m, d.ending, d.cycle, r);
  }

  lemma {:induction false} RunLeavesNoneTransient(start: RunState, rounds: seq<Round>, i: nat, r: RunSetting)
    requires IsRun(start, rounds, r) && i < |rounds| && NoneTransient(start.dag)
    requires start.executed == 0 && !start.raised && start.rejected == None
    ensures NoneTransient(Reached(start, rounds, i).dag)
    decreases i
  {
    if i > 0 {
      var before := i - 1;
      RunLeavesNoneTransient(start, rounds, before, r);
      RunningIsUnbroken(start, rounds, i, r);
      RoundOf(start, rounds, before, i, r);
      RoundLeavesNoneTransient(Reached(start, rounds, before), rounds[before], r);
    }
  }

  /** No checkpoint that a run saves is ever changed by recovery, if nothing was in a transient status when the run
      began: what an exception leaves behind in a batch is not saved. */
  lemma SavedIsNeverReset(s0: DagState, order: seq<string>, b0: W.Bindings, c0: nat, rounds: seq<Round>, i: nat,
                          r: RunSetting)
    requires IsRun(StartOfRun(s0, order, b0, c0), rounds, r) && i < |rounds| && NoneTransient(s0)
    ensures var saved := SavedIn(Reached(StartOfRun(s0, order, b0, c0), rounds, i), rounds[i], r);
      saved.Some? ==> Recovered(saved.value) == saved.value
  {
    var start, next := StartOfRun(s0, order, b0, c0), i + 1;
    RunLeavesNoneTransient(start, rounds, i, r);
    RoundOf(start, rounds, i, next, r);
    RoundLeavesNoneTransient(Reached(start, rounds, i), rounds[i], r);
  }

  /** A checkpoint of a cycle in which a node failed cannot be resumed: it was saved before the replanner saw the
      failure, and no run after a recovery comes back to it, although the run that saved it may go on to finish. */
  lemma SavedFailureIsNotResumed(p: RunState, d: Round, r: RunSetting, s: DagState, order: seq<string>,
                                 b0: W.Bindings, c0: nat, rounds: seq<Round>, i: nat, later: RunSetting)
    requires SavedIn(p, d, r) == Some(s) && FailedIn(s, BatchOf(p.(dag := Promoted(p.dag)), r)) != []
    requires IsRun(StartOfRun(Recovered(s), order, b0, c0), rounds, later) && i <= |rounds|
    ensures !AllFinished(Reached(StartOfRun(Recovered(s), order, b0, c0), rounds, i).dag)
  {
    var batch := BatchOf(p.(dag := Promoted(p.dag)), r);
    var k := FailedIn(s, batch)[0];
    FailedInHolds(s, batch, k);
    ResetNodesAreNotResumed(s, order, b0, c0, rounds, i, later, k);
  }

  /** The ways to fail closed, and recovery. */
  datatype RecoverResult =
    | NotLoaded                            // no readable checkpoint, or one whose checksum is wrong
    | WorkspaceDrift
    | WorktreeMissing(requirement: string)
    | WorktreeDrift(requirement: string)
    | Recovery(resetNodes: seq<string>)

  /** What a checkpoint says about the file system: digests of the workspace and of the worktrees, by requirement. */
  datatype Fingerprints = Fingerprints(workspace: string, worktrees: seq<(string, string)>)

  /** present: the digests of the worktrees that are there now. */
  predicate Intact(w: (string, string), present: map<string, string>) {
    w.0 in present && present[w.0] == w.1
  }

  function Problem(w: (string, string), present: map<string, string>): RecoverResult {
    if w.0 in present then WorktreeDrift(w.0) else WorktreeMissing(w.0)
  }

  /** The first worktree that is missing or has changed; their number if there is none. */
  method FirstProblem(worktrees: seq<(string, string)>, present: map<string, string>) returns (i: nat)
    ensures i <= |worktrees| && (forall j | 0 <= j < i :: Intact(worktrees[j], present))
    ensures i < |worktrees| ==> !Intact(worktrees[i], present)
  {
    i := 0;
    while i < |worktrees| && Intact(worktrees[i], present)
      invariant i <= |worktrees| && forall j | 0 <= j < i :: Intact(worktrees[j], present)
    {
      i := i + 1;
    }
  }

  method ResetOne(dag: TaskDAG, k: string) returns (reset: bool)
    requires dag.Valid() && k in dag.nodes
    modifies dag.nodes[k]
    ensures dag.View() == old(dag.View())[k := ResetNode(old(dag.View())[k])]
    ensures reset == Transient(old(dag.View())[k].status)
  {
    reset := Transient(dag.nodes[k].status);
    if reset {
      dag.Revise(k, dag.nodes[k].dependencies, ReplanRequired);
    }
  }

  /** The first i nodes of the dictionary have been looked at. */
  ghost predicate ResetUpTo(s: DagState, t: DagState, ids: seq<string>, i: nat, resetNodes: seq<string>)
    requires i <= |ids|
  {
    t == RecoveredAmong(s, Prefix(ids, i)) && resetNodes == ResetIds(s, ids[..i])
  }

  lemma ResetNext(s: DagState, t: DagState, ids: seq<string>, i: nat, resetNodes: seq<string>)
    requires NoDuplicates(ids) && i < |ids| && ids[i] in s && ResetUpTo(s, t, ids, i, resetNodes)
    ensures ids[i] in t && t[ids[i]] == s[ids[i]]
    ensures ResetUpTo(s, t[ids[i] := ResetNode(t[ids[i]])], ids, i + 1,
                      resetNodes + if Transient(t[ids[i]].status) then [ids[i]] else [])
  {
    PrefixGrows(ids, i);
    RecoveredAmongStep(s, Prefix(ids, i), ids[i]);
  }

  /** Marks the nodes caught in the middle of their work. */
  method ResetTransient(dag: TaskDAG) returns (resetNodes: seq<string>)
    requires dag.Valid()
    modifies dag.nodes.Values
    ensures dag.View() == Recovered(old(dag.View())) && resetNodes == ResetIds(old(dag.View()), dag.order)
  {
    ghost var s := dag.View();
    ghost var t := s;
    var ids := dag.order;
    resetNodes := [];
    assert ResetUpTo(s, t, ids, 0, []);
    for i := 0 to |ids|
      invariant dag.View() == t && ResetUpTo(s, t, ids, i, resetNodes)
    {
      ResetNext(s, t, ids, i, resetNodes);
      var reset := ResetOne(dag, ids[i]);
      t := dag.View();
      if reset {
        resetNodes := resetNodes + [ids[i]];
      }
    }
    PrefixIsAll(ids, s.Keys);
  }

  /** Recovery fails closed at the first thing that is not as it was saved, and leaves the graph alone; otherwise it
      resets what was in the middle of its work. dag is the checkpoint's own copy of the graph. */
  method Recover(dag: TaskDAG, loaded: bool, saved: Fingerprints, workspace: string, present: map<string, string>)
    returns (r: RecoverResult)
    requires dag.Valid()
    modifies dag.nodes.Values
    ensures r == NotLoaded <==> !loaded
    ensures r == WorkspaceDrift <==> loaded && workspace != saved.workspace
    ensures r.WorktreeMissing? || r.WorktreeDrift? ==>
      exists i ::
        && 0 <= i < |saved.worktrees| && !Intact(saved.worktrees[i], present)
        && r == Problem(saved.worktrees[i], present)
        && forall j | 0 <= j < i :: Intact(saved.worktrees[j], present)
    ensures r.WorktreeMissing? ==> r.requirement !in present
    ensures r.WorktreeDrift? ==>
      r.requirement in present && exists w :: w in saved.worktrees && w.0 == r.requirement && w.1 != present[w.0]
    ensures r.Recovery? <==>
      && loaded && workspace == saved.workspace
      && forall w | w in saved.worktrees :: w.0 in present && present[w.0] == w.1
    ensures !r.Recovery? ==> dag.View() == old(dag.View())
    ensures r.Recovery? ==>
            dag.View() == Recovered(old(dag.View())) && r.resetNodes == ResetIds(old(dag.View()), dag.order)
    ensures r.Recovery? ==>
      forall k | k in dag.View() ::
        var was := old(dag.View())[k];
        dag.View()[k] ==
          if was.status in {LeaseAssigned, CognitiveWork, ToolProposed, Preflight, Executing, Verifying}
          then was.(status := ReplanRequired, version := was.version + 1) else was
  {
    if !loaded {
      return NotLoaded;
    }
    if workspace != saved.workspace {
      return WorkspaceDrift;
    }
    var i := FirstProblem(saved.worktrees, present);
    if i < |saved.worktrees| {
      return Problem(saved.worktrees[i], present);
    }
    var resetNodes := ResetTransient(dag);
    return Recovery(resetNodes);
  }
}
