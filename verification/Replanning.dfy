/** Recovery insertion (engineering/replanning.py). How a failure is classified is an oracle; what the
    replanner does with the classification is not. */
module Replanning {
  import opened Schemas
  import opened DagMutator
  import opened Decimal

  datatype FailureKind =
    | MissingDependency | CompileError | TestFailure | MergeConflict | MissingSymbol | ToolFailure | Unknown

  function KindValue(kind: FailureKind): string {
    match kind
    case MissingDependency => "missing_dependency"
    case CompileError => "compile_error"
    case TestFailure => "test_failure"
    case MergeConflict => "merge_conflict"
    case MissingSymbol => "missing_symbol"
    case ToolFailure => "tool_failure"
    case Unknown => "unknown"
  }

  /** _recovery_spec(...) is not None */
  predicate HasRecovery(kind: FailureKind) {
    kind != ToolFailure && kind != Unknown
  }

  /** f"recovery_{counter:03d}_{kind}_{failed}"[:120] */
  function RecoveryId(counter: nat, kind: FailureKind, failed: string): string {
    var id := "recovery_" + Pad3(counter) + "_" + KindValue(kind) + "_" + failed;
    if |id| <= 120 then id else id[..120]
  }

  /** An id is the beginning of its full text, cut to 120 characters. */
  lemma RecoveryIdsRead(counter: nat, kind: FailureKind, failed: string)
    ensures var full := "recovery_" + Pad3(counter) + "_" + KindValue(kind) + "_" + failed;
      && RecoveryId(counter, kind, failed) <= full
      && |RecoveryId(counter, kind, failed)| == if |full| < 120 then |full| else 120
  {
  }

  /** The counter is legible in an id while its digits fit into the 120 characters. */
  ghost predicate Legible(counter: nat) {
    |Pad3(counter)| <= 110
  }

  lemma Regroup(prefix: string, n: string, kindValue: string, failed: string)
    ensures prefix + n + "_" + kindValue + "_" + failed == prefix + (n + ['_'] + (kindValue + "_" + failed))
  {
    assert prefix + n + "_" == prefix + (n + ['_']);
  }

  lemma Cut(prefix: string, n: string, tail: string)
    requires |prefix| == 9 && |n| <= 110 && |prefix + (n + ['_'] + tail)| > 120
    ensures (prefix + (n + ['_'] + tail))[..120] == prefix + (n + ['_'] + tail[..110 - |n|])
  {
  }

  lemma RecoveryIdShape(counter: nat, kind: FailureKind, failed: string) returns (rest: string)
    requires Legible(counter)
    ensures RecoveryId(counter, kind, failed) == "recovery_" + (Pad3(counter) + ['_'] + rest)
  {
    var prefix, n, kindValue := "recovery_", Pad3(counter), KindValue(kind);
    var tail := kindValue + "_" + failed;
    Regroup(prefix, n, kindValue, failed);
    rest := if |prefix + (n + ['_'] + tail)| <= 120 then tail else tail[..110 - |n|];
    if |prefix + (n + ['_'] + tail)| > 120 {
      Cut(prefix, n, tail);
    }
  }

  /** Two recoveries of one replanner never get the same id, whatever failed and however it failed. */
  lemma RecoveryIdsAreDistinct(c: nat, d: nat, kind: FailureKind, kind': FailureKind, failed: string, failed': string)
    requires c != d && Legible(c) && Legible(d)
    ensures RecoveryId(c, kind, failed) != RecoveryId(d, kind', failed')
  {
    var x := RecoveryIdShape(c, kind, failed);
    var y := RecoveryIdShape(d, kind', failed');
    var p, q := Pad3(c) + ['_'] + x, Pad3(d) + ['_'] + y;
    if RecoveryId(c, kind, failed) == RecoveryId(d, kind', failed') {
      assert ("recovery_" + p)[9..] == p && ("recovery_" + q)[9..] == q;
      PaddedIsInjective(c, d, '_', x, y);
    }
  }

  /** No id that the replanner has still to hand out is taken. */
  ghost predicate FreshIds(s: DagState, counter: nat) {
    forall c: nat, kind, failed | c > counter && Legible(c) :: RecoveryId(c, kind, failed) !in s
  }

  lemma InsertionKeepsIdsFresh(s: DagState, counter: nat, t: string, kind: FailureKind, n: NodeState)
    requires FreshIds(s, counter) && Legible(counter + 1) && t in s
    ensures FreshIds(InsertedBefore(s, t, RecoveryId(counter + 1, kind, t), n), counter + 1)
  {
    var id := RecoveryId(counter + 1, kind, t);
    forall c: nat, k, f | c > counter + 1 && Legible(c)
      ensures RecoveryId(c, k, f) !in InsertedBefore(s, t, id, n)
    {
      RecoveryIdsAreDistinct(c, counter + 1, k, kind, f, t);
    }
  }

  datatype ReplanResult = NoRecovery | Inserted(id: string) | MutationError(reason: MutationResult)

  ghost function RecoveryNode(s: DagState, dagId: nat, failed: string): NodeState
    requires failed in s
  {
    NodeState(dagId, s[failed].refs, [], Planned, 1)
  }

  ghost predicate Replannable(s: DagState, failed: string, kind: FailureKind) {
    failed in s && s[failed].status == ReplanRequired && HasRecovery(kind)
  }

  ghost function RecoveryVerdict(s: DagState, dagId: nat, failed: string, id: string): MutationResult
    requires failed in s
  {
    AddVerdict(s, dagId, id, RecoveryNode(s, dagId, failed).(deps := s[failed].deps))
  }

  /** A replan that is due fails only on an id that is already taken. */
  lemma ReplanFailsOnlyOnTakenId(s: DagState, dagId: nat, failed: string, id: string)
    requires failed in s && AcyclicDag(s) && NoDangling(s)
    ensures RecoveryVerdict(s, dagId, failed, id) ==
            if id in s then DuplicateId else Applied
  {
    if id !in s {
      InsertBeforePreservesMeaning(s, failed, id, RecoveryNode(s, dagId, failed));
    }
  }

  /** What a recovery is: a planned node of the first version, for the requirements of the failed node and with its
      dependencies; the failed node waits for it alone and is planned again, one version on. */
  lemma RecoveryIsExact(s: DagState, dagId: nat, failed: string, id: string)
    requires failed in s && RecoveryVerdict(s, dagId, failed, id) == Applied
    ensures var t := InsertedBefore(s, failed, id, RecoveryNode(s, dagId, failed));
      && id !in s && t.Keys == s.Keys + {id}
      && t[id] == NodeState(dagId, s[failed].refs, s[failed].deps, Planned, 1)
      && t[failed] == s[failed].(deps := [id], status := Planned, version := s[failed].version + 1)
      && forall k | k in s && k != failed :: t[k] == s[k]
  {
  }

  /** The replanner sets a status that the insertion has set already. */
  method PlanAgain(dag: TaskDAG, id: string)
    requires dag.Valid() && id in dag.nodes && dag.View()[id].status == Planned
    modifies dag.nodes[id]
    ensures dag.View() == old(dag.View())
  {
    dag.SetStatus(id, Planned);
  }

  /** Builds the recovery node, puts it before the failed one and plans the failed one again. */
  method InsertRecovery(dag: TaskDAG, failedId: string, id: string) returns (m: MutationResult)
    requires dag.Valid() && failedId in dag.nodes
    modifies dag, dag.nodes.Values
    ensures dag.Valid() && Grown(dag)
    ensures m == RecoveryVerdict(old(dag.View()), dag.dagId, failedId, id)
    ensures m == Applied ==>
      && dag.View() == InsertedBefore(old(dag.View()), failedId, id, RecoveryNode(old(dag.View()), dag.dagId, failedId))
      && AcyclicDag(dag.View()) && dag.order == old(dag.order) + [id]
    ensures m != Applied ==> dag.View() == old(dag.View()) && dag.order == old(dag.order)
  {
    ghost var s := dag.View();
    var refs := dag.nodes[failedId].requirementRefs;
    var recovery := new TaskNode(id, dag.dagId, refs, [], Planned);
    assert dag.View() == s && recovery.State() == RecoveryNode(s, dag.dagId, failedId);
    m := InsertBefore(dag, failedId, recovery);
    if m == Applied {
      assert dag.View()[failedId].status == Planned;
      PlanAgain(dag, failedId);
    }
  }

  class AdaptiveEngineeringReplanner {
    var counter: nat

    constructor ()
      ensures counter == 0
    {
      counter := 0;
    }

    method Replan(dag: TaskDAG, failedId: string, kind: FailureKind) returns (r: ReplanResult)
      requires dag.Valid()
      modifies this, dag, dag.nodes.Values
      ensures dag.Valid() && Grown(dag)
      ensures !Replannable(old(dag.View()), failedId, kind) ==>
        r == NoRecovery && dag.View() == old(dag.View()) && dag.order == old(dag.order) && counter == old(counter)
      ensures Replannable(old(dag.View()), failedId, kind) ==>
        var s, id := old(dag.View()), RecoveryId(counter, kind, failedId);
        var verdict := RecoveryVerdict(s, dag.dagId, failedId, id);
        && counter == old(counter) + 1
        && (if verdict == Applied
            then
              && r == Inserted(id) && AcyclicDag(dag.View()) && dag.order == old(dag.order) + [id]
              && dag.View() == InsertedBefore(s, failedId, id, RecoveryNode(s, dag.dagId, failedId))
            else r == MutationError(verdict) && dag.View() == s && dag.order == old(dag.order))
      ensures r == NoRecovery <==>
        || failedId !in old(dag.View()) || old(dag.View())[failedId].status != ReplanRequired
        || kind == ToolFailure || kind == Unknown
    {
      if failedId !in dag.nodes || dag.nodes[failedId].status != ReplanRequired {
        return NoRecovery;
      }
      if !HasRecovery(kind) {
        return NoRecovery;
      }
      ghost var s := dag.View();
      counter := counter + 1;
      assert dag.View() == s;
      var id := RecoveryId(counter, kind, failedId);
      var m := InsertRecovery(dag, failedId, id);
      return if m == Applied then Inserted(id) else MutationError(m);
    }
  }
}
