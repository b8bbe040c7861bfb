/** What a running DAG keeps, whoever runs it: work never starts ahead of its dependencies, finished
    work stays finished, and the order between nodes is the one that was planned. */
module DagInvariants {
  import opened Schemas
  import opened DagMutator
  import opened DagProgress

  /** Every status but PLANNED and FAILED says that the node is being or has been worked on. */
  predicate Started(status: TaskNodeStatus) {
    status != Planned && status != Failed
  }

  /** Whatever has started has all its dependencies in the DAG, and succeeded. */
  ghost predicate DependencyClosed(s: DagState) {
    forall k | k in s && Started(s[k].status) :: DependenciesDone(s, k)
  }

  /** s' is a later moment of the same run: nodes only get added, keep their identity, stay finished
      once finished, and precede one another exactly as before. */
  ghost predicate Evolves(s: DagState, s': DagState) {
    && (forall k | k in s :: k in s' && s'[k].refs == s[k].refs && s'[k].dagId == s[k].dagId)
    && (forall k | IsDone(s, k) :: IsDone(s', k))
    && (AcyclicDag(s) ==> AcyclicDag(s'))
    && (AcyclicDag(s) && NoDangling(s) ==> NoDangling(s') && SameOrder(s, s'))
  }

  /** s' differs from s in the statuses of some nodes that had not succeeded. */
  ghost predicate OnlyStatuses(s: DagState, s': DagState) {
    && s'.Keys == s.Keys
    && (forall k | k in s :: s'[k].deps == s[k].deps && s'[k].refs == s[k].refs && s'[k].dagId == s[k].dagId)
    && (forall k | IsDone(s, k) :: IsDone(s', k))
  }

  lemma StatusesEvolve(s: DagState, s': DagState)
    requires OnlyStatuses(s, s')
    ensures Evolves(s, s')
  {
    assert EdgesOf(s) == EdgesOf(s');
  }

  lemma EvolvesTransitive(s0: DagState, s1: DagState, s2: DagState)
    requires Evolves(s0, s1) && Evolves(s1, s2)
    ensures Evolves(s0, s2)
  {
  }

  lemma PromotionKeepsClosure(s: DagState)
    requires DependencyClosed(s)
    ensures DependencyClosed(Promoted(s)) && OnlyStatuses(s, Promoted(s))
  {
    var t := Promoted(s);
    forall d
      ensures IsDone(t, d) <==> IsDone(s, d)
    {
    }
    forall k | k in t && Started(t[k].status)
      ensures DependenciesDone(t, k)
    {
      assert DependenciesDone(s, k);
    }
  }

  /** A node at work may take any status: nothing that has started waits for it. */
  lemma WorkKeepsClosure(s: DagState, k: string, status: TaskNodeStatus)
    requires k in s && Started(s[k].status) && s[k].status != Succeeded
    ensures DependencyClosed(s) ==> DependencyClosed(s[k := s[k].(status := status)])
    ensures OnlyStatuses(s, s[k := s[k].(status := status)])
  {
    var t := s[k := s[k].(status := status)];
    if DependencyClosed(s) {
      forall x | x in t && Started(t[x].status)
        ensures DependenciesDone(t, x)
      {
        assert DependenciesDone(s, x);
        forall d | d in t[x].deps
          ensures IsDone(t, d)
        {
          assert IsDone(s, d);
        }
      }
    }
  }

  // ---- Exactly when a mutation of the plan keeps closure ----

  /** A node may be added in any status; one that counts as started needs its dependencies done. */
  lemma AddNodeKeepsClosureIff(s: DagState, id: string, n: NodeState)
    requires DependencyClosed(s) && id !in s && AllKnown(s, n.deps)
    ensures DependencyClosed(s[id := n]) <==> (Started(n.status) ==> forall d | d in n.deps :: IsDone(s, d))
  {
    var s' := s[id := n];
    assert forall d | d in s :: IsDone(s', d) <==> IsDone(s, d);
    assert Started(n.status) ==> (DependenciesDone(s', id) <==> forall d | d in n.deps :: IsDone(s, d));
    forall x | x in s && Started(s[x].status)
      ensures DependenciesDone(s', x)
    {
      assert DependenciesDone(s, x);
    }
    assert DependencyClosed(s') ==> (Started(n.status) ==> DependenciesDone(s', id));
  }

  /** insert_before plans the target again, so nothing that has started may depend on it; and the new node
      takes over the target's dependencies. */
  lemma InsertBeforeKeepsClosureIff(s: DagState, t: string, id: string, n: NodeState)
    requires DependencyClosed(s) && t in s && id !in s && AllKnown(s, s[t].deps) && t !in s[t].deps
    ensures DependencyClosed(InsertedBefore(s, t, id, n)) <==>
            && (Started(n.status) ==> forall d | d in s[t].deps :: IsDone(s, d))
            && (forall x | x in s && t in s[x].deps :: !Started(s[x].status))
  {
    var s' := InsertedBefore(s, t, id, n);
    assert forall d | d in s && d != t :: IsDone(s', d) <==> IsDone(s, d);
    assert !IsDone(s', t) && s'[id].deps == s[t].deps;
    assert DependenciesDone(s', id) <==> forall d | d in s[t].deps :: IsDone(s, d);
    forall x | x in s && x != t && Started(s[x].status)
      ensures DependenciesDone(s', x) <==> t !in s[x].deps
    {
      assert DependenciesDone(s, x);
    }
    assert DependencyClosed(s') ==> (Started(n.status) ==> DependenciesDone(s', id));
  }

  /** Recovery work is planned and goes before a node that has not succeeded: that keeps closure. */
  lemma RecoveryKeepsClosure(s: DagState, t: string, id: string, n: NodeState)
    requires DependencyClosed(s) && t in s && id !in s
    requires Started(s[t].status) && s[t].status != Succeeded && !Started(n.status)
    ensures DependencyClosed(InsertedBefore(s, t, id, n))
  {
    var s' := InsertedBefore(s, t, id, n);
    forall x | x in s' && Started(s'[x].status)
      ensures DependenciesDone(s', x)
    {
      assert DependenciesDone(s, x);
      forall d | d in s'[x].deps
        ensures IsDone(s', d)
      {
        assert IsDone(s, d);
      }
    }
  }

  lemma RecoveryEvolves(s: DagState, t: string, id: string, n: NodeState)
    requires t in s && id !in s && s[t].status != Succeeded && AcyclicDag(InsertedBefore(s, t, id, n))
    ensures Evolves(s, InsertedBefore(s, t, id, n))
  {
    if AcyclicDag(s) && NoDangling(s) {
      InsertBeforePreservesMeaning(s, t, id, n);
    }
    forall k | IsDone(s, k)
      ensures IsDone(InsertedBefore(s, t, id, n), k)
    {
    }
  }

  /** Nodes that insert_after leaves as they are although a dependency of theirs is planned again. */
  ghost predicate Bypassed(s: DagState, t: string, x: string) {
    x in s && t !in s[x].deps && exists d :: d in s[x].deps && d in s && t in s[d].deps
  }

  /** The status of a node of s after insert_after, and whether its dependencies are done then. */
  lemma AfterInsertion(s: DagState, t: string, id: string, n: NodeState, x: string)
    requires DependencyClosed(s) && t in s && id !in s && t !in s[t].deps && x in s
    ensures var s' := InsertedAfter(s, t, id, n);
      && x in s' && (Started(s'[x].status) <==> Started(s[x].status) && t !in s[x].deps)
      && (IsDone(s', x) <==> IsDone(s, x) && t !in s[x].deps)
  {
  }

  lemma BypassedIsOpen(s: DagState, t: string, id: string, n: NodeState, x: string)
    requires DependencyClosed(s) && t in s && id !in s && t !in s[t].deps
    requires x in s && Started(s[x].status) && t !in s[x].deps
    ensures DependenciesDone(InsertedAfter(s, t, id, n), x) <==> !Bypassed(s, t, x)
  {
    var s' := InsertedAfter(s, t, id, n);
    assert s'[x] == s[x] && DependenciesDone(s, x);
    forall d | d in s[x].deps
      ensures IsDone(s', d) <==> t !in s[d].deps
    {
      assert IsDone(s, d);
      AfterInsertion(s, t, id, n, d);
    }
  }

  /** insert_after resets direct dependents only, so on its own it can leave finished work whose
      dependencies are no longer finished. It keeps closure exactly when the new node does not start ahead of
      the target and no node that depends on a dependent of the target, but not on the target, has
      started. */
  lemma InsertAfterKeepsClosureIff(s: DagState, t: string, id: string, n: NodeState)
    requires DependencyClosed(s) && t in s && id !in s && t !in s[t].deps
    ensures DependencyClosed(InsertedAfter(s, t, id, n)) <==>
            && (Started(n.status) ==> s[t].status == Succeeded)
            && (forall x | Bypassed(s, t, x) :: !Started(s[x].status))
  {
    var s' := InsertedAfter(s, t, id, n);
    assert s'[id].deps == [t] && s'[id].status == n.status;
    AfterInsertion(s, t, id, n, t);
    assert [t][0] == t && (DependenciesDone(s', id) <==> IsDone(s, t));
    forall x | x in s
      ensures Started(s'[x].status) ==> (DependenciesDone(s', x) <==> !Bypassed(s, t, x))
      ensures Bypassed(s, t, x) && Started(s[x].status) ==> Started(s'[x].status)
    {
      AfterInsertion(s, t, id, n, x);
      if Started(s'[x].status) {
        BypassedIsOpen(s, t, id, n, x);
      }
    }
  }
}
