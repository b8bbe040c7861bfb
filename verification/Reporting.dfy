/** What both run loops report of a DAG at their end (engineering/agency.py, intelligence/mission_runtime.py). */
module Reporting {
  import opened Schemas
  import opened AgencyTheory
  import opened Sequences

  predicate IsBlocking(status: TaskNodeStatus) {
    status in {Blocked, Failed, ReplanRequired, ToolProposed, Verifying}
  }

  ghost function BlockedIn(s: DagState, order: seq<string>): seq<string> {
    if order == [] then []
    else
      var last := order[|order| - 1];
      BlockedIn(s, order[..|order| - 1]) + if last in s && IsBlocking(s[last].status) then [last] else []
  }

  /** Reported as blocked, in dictionary order: what is blocked, failed or needs replanning, and what an exception left
      with proposed tools or in verification. */
  lemma {:induction false} BlockedIsExact(s: DagState, order: seq<string>)
    ensures forall k :: k in BlockedIn(s, order) <==>
      && k in order && k in s
      && s[k].status in {Blocked, Failed, ReplanRequired, ToolProposed, Verifying}
    ensures Subsequence(BlockedIn(s, order), order)
  {
    if order == [] {
      EmptyEmbeds<string>();
    } else {
      var init, last := order[..|order| - 1], order[|order| - 1];
      BlockedIsExact(s, init);
      assert order == init + [last];
      SubsequenceGrows(BlockedIn(s, init), init, last, last in s && IsBlocking(s[last].status));
    }
  }

  /** bool(dag.nodes) and all(node.status == SUCCEEDED ...) */
  predicate Complete(dag: TaskDAG)
    requires dag.Valid()
    reads dag, dag.nodes.Values
    ensures Complete(dag) <==> dag.View() != map[] && AllFinished(dag.View())
  {
    ghost var s := dag.View();
    assert dag.order != [] ==> dag.order[0] in s;
    assert forall k | k in s :: s[k].status == dag.nodes[k].status;
    dag.order != [] && forall i | 0 <= i < |dag.order| :: dag.nodes[dag.order[i]].status == Succeeded
  }

  function BlockedAmong(dag: TaskDAG, ids: seq<string>): (blocked: seq<string>)
    requires dag.Valid() && forall k | k in ids :: k in dag.nodes
    reads dag, dag.nodes.Values
    ensures blocked == BlockedIn(dag.View(), ids)
    decreases |ids|
  {
    if ids == [] then []
    else
      var last := ids[|ids| - 1];
      BlockedAmong(dag, ids[..|ids| - 1]) + if IsBlocking(dag.nodes[last].status) then [last] else []
  }
}
