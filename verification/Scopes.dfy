/** Which DAGs never starve for worktrees: two ways in which the requirements of the nodes can be laid out,
    both kept by everything a run does to a DAG. */
module Scopes {
  import opened Digraphs
  import opened Schemas
  import opened DagMutator
  import opened DagProgress
  import opened DagInvariants
  import opened AgencyTheory
  import opened Batches
  import opened Wrappers
  import W = Worktrees

  /** OneRequirement: all nodes need the worktree of one requirement, and last comes after all of them.
      SharedHub: whatever needs a worktree comes after the hub, waits for nothing but the hub and nodes of its
      own requirement, and precedes (or is) a node that gives the worktree back. */
  datatype Scope = OneRequirement(requirement: string, last: string) | SharedHub(hub: string)

  function RequirementOf(n: NodeState): Option<string> {
    W.SingleRequirement(n.refs)
  }

  /** v gives back the worktree that k uses, not before k has been done. */
  ghost predicate Verifies(s: DagState, v: string, k: string)
    requires k in s
  {
    v in s && W.EndsWithVerify(v) && RequirementOf(s[v]) == RequirementOf(s[k]) && (v == k || Reach(EdgesOf(s), v, k))
  }

  ghost predicate WaitsForItsOwn(s: DagState, hub: string, k: string)
    requires k in s
  {
    forall d | d in s[k].deps :: d == hub || (d in s && RequirementOf(s[d]) == RequirementOf(s[k]))
  }

  ghost predicate OnHub(s: DagState, hub: string, k: string)
    requires k in s
  {
    Reach(EdgesOf(s), k, hub) && WaitsForItsOwn(s, hub, k) && exists v :: Verifies(s, v, k)
  }

  ghost predicate Laid(s: DagState, scope: Scope) {
    match scope
    case OneRequirement(q, last) =>
      && last in s && !W.EndsWithVerify(last)
      && (forall k | k in s :: RequirementOf(s[k]) == Some(q))
      && (forall k | k in s && k != last :: Reach(EdgesOf(s), last, k))
    case SharedHub(hub) =>
      && hub in s && RequirementOf(s[hub]) == None
      && forall k | k in s && RequirementOf(s[k]).Some? :: OnHub(s, hub, k)
  }

  /** Bound requirements are going to be given back, except the one that the last node keeps. */
  ghost predicate Attended(s: DagState, bound: set<string>, scope: Scope) {
    match scope
    case OneRequirement(q, last) => bound <= {q} && (IsDone(s, last) ==> bound == {q})
    case SharedHub(hub) => BoundPending(s, bound) && (bound != {} ==> IsDone(s, hub))
  }

  ghost predicate Served(s: DagState, bound: set<string>, scope: Scope) {
    Laid(s, scope) && Attended(s, bound, scope)
  }

  // ---- Order and progress ----

  /** What has started comes after finished nodes only. */
  lemma StartedReachesDone(s: DagState, a: string, b: string)
    requires DependencyClosed(s) && a in s && Started(s[a].status) && Reach(EdgesOf(s), a, b)
    ensures IsDone(s, b)
  {
    var done := iset x | IsDone(s, x);
    forall x, y | (x, y) in EdgesOf(s) && (x == a || x in done)
      ensures y in done
    {
      assert DependenciesDone(s, x);
    }
    ClosedContainsReach(EdgesOf(s), done, a, b);
  }

  ghost function OpenNodes(s: DagState, q: string): set<string> {
    set x | x in s && RequirementOf(s[x]) == Some(q) && s[x].status != Succeeded
  }

  lemma PendingIsOpen(s: DagState, q: string)
    requires Pending(s, q)
    ensures OpenNodes(s, q) != {}
  {
    var v :| v in s && W.EndsWithVerify(v) && W.SingleRequirement(s[v].refs) == Some(q) && s[v].status != Succeeded;
    assert v in OpenNodes(s, q);
  }

  lemma MinimalIsReady(s: DagState, hub: string, q: string, k: string)
    requires k in OpenNodes(s, q) && InOrder(s[k]) && WaitsForItsOwn(s, hub, k) && IsDone(s, hub)
    requires forall y | (k, y) in EdgesOf(s) :: y !in OpenNodes(s, q)
    ensures Promoted(s)[k].status == Ready
  {
    forall d | d in s[k].deps
      ensures IsDone(s, d)
    {
      assert (k, d) in EdgesOf(s);
    }
  }

  /** A requirement that is bound has a ready node. */
  lemma RequirementGoesOn(s: DagState, hub: string, q: string) returns (k: string)
    requires AcyclicDag(s) && (forall x | x in s :: InOrder(s[x])) && Laid(s, SharedHub(hub))
    requires IsDone(s, hub) && Pending(s, q)
    ensures k in s && Promoted(s)[k].status == Ready && RequirementOf(s[k]) == Some(q)
  {
    PendingIsOpen(s, q);
    k := MinimalElement(EdgesOf(s), OpenNodes(s, q));
    assert OnHub(s, hub, k);
    MinimalIsReady(s, hub, q, k);
  }

  /** Worktree capacity never starves such a DAG: some ready node needs no new worktree, or one is free. */
  lemma NeverStarved(s: DagState, bound: set<string>, scope: Scope, maxActive: nat) returns (k: string)
    requires Workable(s) && Served(s, bound, scope) && !AllFinished(s) && maxActive >= 1
    ensures k in s && Promoted(s)[k].status == Ready
    ensures |bound| < maxActive || W.Free(W.Candidate(k, s[k].refs), bound, {})
  {
    k := SomeNodeIsReady(s);
    if |bound| >= maxActive {
      var q :| q in bound;
      if scope.SharedHub? {
        k := RequirementGoesOn(s, scope.hub, q);
      }
    }
  }

  // ---- Promotion and batches keep the layout ----

  lemma StatusesKeepLaid(s: DagState, t: DagState, scope: Scope)
    requires Laid(s, scope) && OnlyStatuses(s, t)
    ensures Laid(t, scope)
  {
    assert EdgesOf(t) == EdgesOf(s);
    if scope.SharedHub? {
      forall k | k in t && RequirementOf(t[k]).Some?
        ensures OnHub(t, scope.hub, k)
      {
        assert OnHub(s, scope.hub, k);
        var v :| Verifies(s, v, k);
        assert Verifies(t, v, k);
      }
    }
  }

  lemma PromotionStaysServed(s: DagState, bound: set<string>, scope: Scope)
    requires Served(s, bound, scope) && DependencyClosed(s)
    ensures Served(Promoted(s), bound, scope)
  {
    PromotionKeepsClosure(s);
    StatusesKeepLaid(s, Promoted(s), scope);
    assert forall k | k in s :: Promoted(s)[k].status == Succeeded <==> s[k].status == Succeeded;
    forall q | Pending(s, q)
      ensures Pending(Promoted(s), q)
    {
      var v :| v in s && W.EndsWithVerify(v) && RequirementOf(s[v]) == Some(q) && s[v].status != Succeeded;
      assert Promoted(s)[v].refs == s[v].refs;
    }
  }

  /** The last node runs alone. */
  lemma LastRunsAlone(s: DagState, q: string, last: string, ids: set<string>)
    requires Laid(s, OneRequirement(q, last)) && DependencyClosed(s) && AllReady(s, ids) && Started(s[last].status)
    ensures ids <= {last}
  {
    forall k | k in ids
      ensures k == last
    {
      if k != last {
        StartedReachesDone(s, last, k);
      }
    }
  }

  lemma OneRequirementBatch(s: DagState, before: W.Bindings, m: Moment, ids: set<string>, scope: Scope, c: Setting)
    requires scope.OneRequirement? && Served(s, before.Keys, scope) && DependencyClosed(s)
    requires AllReady(s, ids) && ids != {} && m.waiting == m.running == {}
    requires Progress(s, m, ids, c) && Held(s, m, ids) && m.bound <= before.Keys + Requirements(s, ids)
    ensures Attended(m.dag, m.bound, scope)
  {
    var q, last := scope.requirement, scope.last;
    if IsDone(m.dag, last) {
      assert Started(s[last].status) by {
        if last !in ids { assert m.dag[last] == s[last]; }
      }
      LastRunsAlone(s, q, last, ids);
      var k :| k in ids;
      assert k == last && KeepsWorktree(s, ids, last);
    }
  }

  lemma VerifierIsOpen(s: DagState, ids: set<string>, k: string, v: string)
    requires DependencyClosed(s) && AllReady(s, ids) && k in ids && Verifies(s, v, k)
    ensures s[v].status != Succeeded && (v == k || v !in ids)
  {
    if v != k && Started(s[v].status) {
      StartedReachesDone(s, v, k);
    }
  }

  /** While a node of a requirement is ready, a node that will give the worktree back is still to come. */
  lemma ReadyHasVerifier(s: DagState, hub: string, ids: set<string>, k: string)
    requires Laid(s, SharedHub(hub)) && DependencyClosed(s) && AllReady(s, ids) && k in ids
    ensures HasVerifier(s, ids, k)
    ensures RequirementOf(s[k]).Some? ==> IsDone(s, hub)
  {
    if RequirementOf(s[k]).Some? {
      assert OnHub(s, hub, k);
      StartedReachesDone(s, k, hub);
      var v :| Verifies(s, v, k);
      VerifierIsOpen(s, ids, k, v);
    }
  }

  lemma SharedHubBatch(s: DagState, before: W.Bindings, m: Moment, ids: set<string>, scope: Scope, c: Setting)
    requires scope.SharedHub? && Served(s, before.Keys, scope) && DependencyClosed(s) && AllReady(s, ids)
    requires BatchInvariant(s, before, m, ids, c) && c.managed && QuietFor(ids, c)
    ensures Attended(m.dag, m.bound, scope)
  {
    forall k | k in ids
      ensures HasVerifier(s, ids, k) && (RequirementOf(s[k]).Some? ==> IsDone(s, scope.hub))
    {
      ReadyHasVerifier(s, scope.hub, ids, k);
    }
    assert PendingCase(s, before.Keys, ids, c);
    if m.bound != {} {
      var q :| q in m.bound;
      if q !in before.Keys {
        var k :| k in ids && RequirementOf(s[k]) == Some(q);
      }
      assert IsDone(s, scope.hub);
    }
  }

  /** A quiet batch, run to its end, leaves the DAG served. */
  lemma BatchStaysServed(s: DagState, before: W.Bindings, m: Moment, ids: set<string>, scope: Scope, c: Setting)
    requires Served(s, before.Keys, scope) && DependencyClosed(s) && AllReady(s, ids) && ids != {}
    requires BatchInvariant(s, before, m, ids, c) && c.managed && QuietFor(ids, c) && m.waiting == m.running == {}
    ensures Served(m.dag, m.bound, scope)
  {
    StatusesKeepLaid(s, m.dag, scope);
    if scope.OneRequirement? {
      OneRequirementBatch(s, before, m, ids, scope, c);
    } else {
      SharedHubBatch(s, before, m, ids, scope, c);
    }
  }

  // ---- So does recovery ----

  ghost predicate RecoveryOf(s: DagState, t: string, id: string, n: NodeState) {
    && AcyclicDag(s) && NoDangling(s) && t in s && id !in s && s[t].status != Succeeded
    && n.refs == s[t].refs && n.status == Planned
  }

  /** The new node precedes its target and follows what the target followed. */
  lemma RecoveryIsBetween(s: DagState, t: string, id: string, n: NodeState, b: string)
    requires RecoveryOf(s, t, id, n) && b in s && Reach(EdgesOf(s), t, b)
    ensures Reach(EdgesOf(InsertedBefore(s, t, id, n)), id, b)
  {
    var f := EdgesOf(InsertedBefore(s, t, id, n));
    InsertBeforePreservesMeaning(s, t, id, n);
    var next := FirstStep(f, t, b);
    assert next == [id][0];
  }

  lemma TargetFollowsRecovery(s: DagState, t: string, id: string, n: NodeState, a: string)
    requires RecoveryOf(s, t, id, n) && a in s && (a == t || Reach(EdgesOf(s), a, t))
    ensures Reach(EdgesOf(InsertedBefore(s, t, id, n)), a, id)
  {
    var f := EdgesOf(InsertedBefore(s, t, id, n));
    assert [id][0] == id && (t, id) in f;
    EdgeReaches(f, t, id);
    if a != t {
      InsertBeforePreservesMeaning(s, t, id, n);
      ReachTransitive(f, a, t, id);
    }
  }

  lemma RecoveryKeepsWaiting(s: DagState, t: string, id: string, n: NodeState, hub: string, k: string)
    requires t in s && id !in s && n.refs == s[t].refs && k in s && WaitsForItsOwn(s, hub, k)
    ensures WaitsForItsOwn(InsertedBefore(s, t, id, n), hub, k)
    ensures k == t ==> WaitsForItsOwn(InsertedBefore(s, t, id, n), hub, id)
  {
    var s' := InsertedBefore(s, t, id, n);
    assert forall x | x in s :: x in s' && s'[x].refs == s[x].refs;
    assert s'[t].deps == [id] && s'[id].deps == s[t].deps && s'[id].refs == s[t].refs;
  }

  lemma RecoveryKeepsVerifier(s: DagState, t: string, id: string, n: NodeState, v: string, k: string)
    requires RecoveryOf(s, t, id, n) && k in s && Verifies(s, v, k)
    ensures Verifies(InsertedBefore(s, t, id, n), v, k)
    ensures k == t ==> Verifies(InsertedBefore(s, t, id, n), v, id)
  {
    var s' := InsertedBefore(s, t, id, n);
    InsertBeforePreservesMeaning(s, t, id, n);
    assert s'[v].refs == s[v].refs && s'[k].refs == s[k].refs && s'[id].refs == s[t].refs;
    if k == t {
      TargetFollowsRecovery(s, t, id, n, v);
    }
  }

  lemma RecoveryKeepsHub(s: DagState, t: string, id: string, n: NodeState, hub: string, k: string)
    requires RecoveryOf(s, t, id, n) && hub in s && k in s && OnHub(s, hub, k)
    ensures OnHub(InsertedBefore(s, t, id, n), hub, k)
    ensures k == t ==> OnHub(InsertedBefore(s, t, id, n), hub, id)
  {
    var s' := InsertedBefore(s, t, id, n);
    assert Reach(EdgesOf(s'), k, hub) by { InsertBeforePreservesMeaning(s, t, id, n); }
    RecoveryKeepsWaiting(s, t, id, n, hub, k);
    var v :| Verifies(s, v, k);
    RecoveryKeepsVerifier(s, t, id, n, v, k);
    if k == t {
      RecoveryIsBetween(s, t, id, n, hub);
    }
  }

  lemma RecoveryKeepsPending(s: DagState, bound: set<string>, t: string, id: string, n: NodeState)
    requires t in s && id !in s && s[t].status != Succeeded && BoundPending(s, bound)
    ensures BoundPending(InsertedBefore(s, t, id, n), bound)
  {
    var s' := InsertedBefore(s, t, id, n);
    forall q | q in bound
      ensures Pending(s', q)
    {
      assert Pending(s, q);
      var v :| v in s && W.EndsWithVerify(v) && W.SingleRequirement(s[v].refs) == Some(q) && s[v].status != Succeeded;
      assert s'[v].refs == s[v].refs && s'[v].status != Succeeded;
    }
  }

  lemma RecoveryKeepsOneRequirement(s: DagState, t: string, id: string, n: NodeState, q: string, last: string)
    requires RecoveryOf(s, t, id, n) && Laid(s, OneRequirement(q, last))
    ensures Laid(InsertedBefore(s, t, id, n), OneRequirement(q, last))
  {
    InsertBeforePreservesMeaning(s, t, id, n);
    TargetFollowsRecovery(s, t, id, n, last);
  }

  lemma RecoveryKeepsSharedHub(s: DagState, t: string, id: string, n: NodeState, hub: string)
    requires RecoveryOf(s, t, id, n) && Laid(s, SharedHub(hub))
    ensures Laid(InsertedBefore(s, t, id, n), SharedHub(hub))
  {
    var s' := InsertedBefore(s, t, id, n);
    forall k | k in s' && RequirementOf(s'[k]).Some?
      ensures OnHub(s', hub, k)
    {
      var node := if k == id then t else k;
      assert OnHub(s, hub, node);
      RecoveryKeepsHub(s, t, id, n, hub, node);
    }
  }

  lemma RecoveryKeepsAttended(s: DagState, bound: set<string>, t: string, id: string, n: NodeState, scope: Scope)
    requires t in s && id !in s && s[t].status != Succeeded && n.status == Planned && Attended(s, bound, scope)
    ensures Attended(InsertedBefore(s, t, id, n), bound, scope)
  {
    if scope.SharedHub? {
      RecoveryKeepsPending(s, bound, t, id, n);
    }
  }

  lemma RecoveryStaysServed(s: DagState, bound: set<string>, t: string, id: string, n: NodeState, scope: Scope)
    requires RecoveryOf(s, t, id, n) && Served(s, bound, scope)
    ensures Served(InsertedBefore(s, t, id, n), bound, scope)
  {
    RecoveryKeepsAttended(s, bound, t, id, n, scope);
    match scope
    case OneRequirement(q, last) => RecoveryKeepsOneRequirement(s, t, id, n, q, last);
    case SharedHub(hub) => RecoveryKeepsSharedHub(s, t, id, n, hub);
  }

  // ---- What is left ----

  /** When all is finished every worktree has been given back, except under OneRequirement: there the last node
      takes a worktree that nothing gives back. */
  lemma WorktreesAtCompletion(s: DagState, bound: set<string>, scope: Scope)
    requires Served(s, bound, scope) && AllFinished(s)
    ensures bound == if scope.OneRequirement? then {scope.requirement} else {}
  {
    assert forall q :: !Pending(s, q);
    assert scope.SharedHub? ==> forall q :: q !in bound;
  }
}
