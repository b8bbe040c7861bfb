/** Why a run moves forward: statements about the contents of a DAG and the bound requirements, used by
    the run loop in Agency. */
module AgencyTheory {
  import opened Digraphs
  import opened Schemas
  import opened DagProgress
  import opened DagInvariants
  import opened Wrappers
  import W = Worktrees

  ghost function Finished(s: DagState): set<string> {
    set k | k in s && s[k].status == Succeeded
  }

  ghost predicate AllFinished(s: DagState) {
    forall k | k in s :: s[k].status == Succeeded
  }

  predicate InOrder(n: NodeState) {
    (n.status == Planned && n.deps != []) || n.status == Ready || n.status == Succeeded
  }

  /** A DAG that can be worked off: nothing failed or dangling, and every planned node waits for
      something (ready_nodes would never promote it otherwise). */
  ghost predicate Workable(s: DagState) {
    && AcyclicDag(s) && NoDangling(s) && DependencyClosed(s)
    && forall k | k in s :: InOrder(s[k])
  }

  lemma SameDependencies(s: DagState, t: DagState)
    requires s.Keys == t.Keys && forall k | k in s :: s[k].deps == t[k].deps
    ensures AcyclicDag(t) <==> AcyclicDag(s)
    ensures NoDangling(t) <==> NoDangling(s)
  {
    assert EdgesOf(s) == EdgesOf(t);
  }

  /** As long as something is unfinished, something is ready. */
  lemma SomeNodeIsReady(s: DagState) returns (k: string)
    requires Workable(s) && !AllFinished(s)
    ensures k in s && Promoted(s)[k].status == Ready
  {
    var open := set x | x in s && s[x].status != Succeeded;
    assert open != {} by {
      var x :| x in s && s[x].status != Succeeded;
      assert x in open;
    }
    k := MinimalElement(EdgesOf(s), open);
    forall d | d in s[k].deps
      ensures IsDone(s, d)
    {
      assert (k, d) in EdgesOf(s);
    }
  }

  lemma PromotedIsWorkable(s: DagState)
    requires Workable(s)
    ensures Workable(Promoted(s)) && Finished(Promoted(s)) == Finished(s)
  {
    PromotionKeepsClosure(s);
    SameDependencies(s, Promoted(s));
  }

  lemma PromotionIsIdempotent(s: DagState)
    ensures Promoted(Promoted(s)) == Promoted(s)
  {
    forall d
      ensures IsDone(Promoted(s), d) <==> IsDone(s, d)
    {
    }
    forall k | k in s
      ensures Promoted(Promoted(s))[k] == Promoted(s)[k]
    {
      assert Promotable(Promoted(s), k) ==> Promotable(s, k);
    }
  }

  ghost function SucceededAmong(s: DagState, ids: set<string>): DagState {
    map k | k in s :: if k in ids then s[k].(status := Succeeded) else s[k]
  }

  lemma SuccessKeepsClosure(s: DagState, ids: set<string>)
    requires DependencyClosed(s) && forall k | k in ids :: k in s && s[k].status == Ready
    ensures DependencyClosed(SucceededAmong(s, ids))
  {
    var t := SucceededAmong(s, ids);
    forall k | k in t && Started(t[k].status)
      ensures DependenciesDone(t, k)
    {
      assert DependenciesDone(s, k);
      forall d | d in t[k].deps
        ensures IsDone(t, d)
      {
        assert IsDone(s, d);
      }
    }
  }

  lemma FinishedCounts(s: DagState)
    ensures |Finished(s)| <= |s| && (|Finished(s)| == |s| <==> AllFinished(s))
  {
    SubsetSize(Finished(s), s.Keys);
    if AllFinished(s) {
      assert Finished(s) == s.Keys;
    } else {
      var k :| k in s && s[k].status != Succeeded;
      assert k !in Finished(s);
    }
  }

  // ---- Worktrees: a bound requirement always has work that may go on ----

  /** The node that will give a requirement's worktree back has not done so. */
  ghost predicate Pending(s: DagState, r: string) {
    exists v :: v in s && W.EndsWithVerify(v) && W.SingleRequirement(s[v].refs) == Some(r)
      && s[v].status != Succeeded
  }

  ghost predicate BoundPending(s: DagState, bound: set<string>) {
    forall r | r in bound :: Pending(s, r)
  }

  function CandidatesOf(ids: seq<string>, s: DagState): (c: seq<W.Candidate>)
    requires forall k | k in ids :: k in s
    ensures |c| == |ids| && forall i | 0 <= i < |ids| :: c[i].id == ids[i] && c[i].refs == s[ids[i]].refs
  {
    if ids == [] then [] else CandidatesOf(ids[..|ids| - 1], s) + [W.Candidate(ids[|ids| - 1], s[ids[|ids| - 1]].refs)]
  }

  function IdsOf(c: seq<W.Candidate>): (ids: seq<string>)
    ensures |ids| == |c| && forall i | 0 <= i < |c| :: ids[i] == c[i].id
  {
    if c == [] then [] else IdsOf(c[..|c| - 1]) + [c[|c| - 1].id]
  }

  /** If some candidate can be admitted, admission admits something. */
  lemma AdmissionIsNotEmpty(nodes: seq<W.Candidate>, limit: nat, bound: set<string>, slots: nat, c: W.Candidate)
    requires limit >= 1 && c in nodes && (slots > 0 || W.Free(c, bound, {}))
    ensures W.Admit(nodes, limit, bound, slots).nodes != []
  {
    W.PassedOverForCause(nodes, limit, bound, slots, c);
    W.AdmittedFits(nodes, limit, bound, slots);
    var sel := W.Admit(nodes, limit, bound, slots);
    if sel.reserved != {} {
      var r :| r in sel.reserved;
      var d :| d in sel.nodes && W.SingleRequirement(d.refs) == Some(r);
    }
  }

  /** The worktree that k uses is given back by a node that has not succeeded and, unless it is k, is not in
      the same batch. */
  ghost predicate HasVerifier(s: DagState, ids: set<string>, k: string)
    requires k in s
  {
    W.SingleRequirement(s[k].refs).Some? ==>
      exists v :: v in s && W.EndsWithVerify(v) && W.SingleRequirement(s[v].refs) == W.SingleRequirement(s[k].refs)
                  && s[v].status != Succeeded && (v == k || v !in ids)
  }
}
