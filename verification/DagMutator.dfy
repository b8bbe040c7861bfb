/** Live mutation of a task DAG (engineering/planning.py, TaskDAGMutator). */
module DagMutator {
  import opened Digraphs
  import opened Schemas
  import opened Sequences

  datatype MutationResult =
    | Applied
    | UnknownTarget
    | ForeignDag
    | DuplicateId
    | UnknownDependencies
    | WouldCycle        // add_node's own check; the node is taken out again
    | ProducedCycle     // the re-check that ends insert_before and insert_after

  // ---- What the operations do to the contents of a DAG ----

  ghost predicate AllKnown(s: DagState, deps: seq<string>) {
    forall d | d in deps :: d in s
  }

  ghost function AddVerdict(s: DagState, dagId: nat, id: string, n: NodeState): MutationResult {
    if n.dagId != dagId then ForeignDag
    else if id in s then DuplicateId
    else if !AllKnown(s, n.deps) then UnknownDependencies
    else if !AcyclicDag(s[id := n]) then WouldCycle
    else Applied
  }

  ghost function InsertedBefore(s: DagState, t: string, id: string, n: NodeState): DagState
    requires t in s
  {
    s[id := n.(deps := s[t].deps)][t := s[t].(deps := [id], status := Planned, version := s[t].version + 1)]
  }

  function Redirect(deps: seq<string>, from: string, to: string): (r: seq<string>)
    ensures |r| == |deps|
    ensures forall i | 0 <= i < |deps| :: r[i] == if deps[i] == from then to else deps[i]
  {
    seq(|deps|, i requires 0 <= i < |deps| => if deps[i] == from then to else deps[i])
  }

  ghost function Rerouted(n: NodeState, t: string, id: string): NodeState {
    if t in n.deps then n.(deps := Redirect(n.deps, t, id), status := Planned, version := n.version + 1) else n
  }

  ghost function InsertedAfter(s: DagState, t: string, id: string, n: NodeState): DagState {
    (map k | k in s :: Rerouted(s[k], t, id))[id := n.(deps := [t])]
  }

  /** What the two rewirings come to, node by node. */
  lemma RewiringIsExact(s: DagState, t: string, id: string, n: NodeState)
    requires t in s && id !in s
    ensures var s' := InsertedBefore(s, t, id, n);
      && s'.Keys == s.Keys + {id} && s'[id] == n.(deps := s[t].deps)
      && s'[t] == s[t].(deps := [id], status := Planned, version := s[t].version + 1)
      && forall k | k in s && k != t :: s'[k] == s[k]
    ensures var s' := InsertedAfter(s, t, id, n);
      && s'.Keys == s.Keys + {id} && s'[id] == n.(deps := [t])
      && (forall k | k in s && t !in s[k].deps :: s'[k] == s[k])
      && forall k | k in s && t in s[k].deps ::
        && s'[k] == s[k].(deps := s'[k].deps, status := Planned, version := s[k].version + 1)
        && |s'[k].deps| == |s[k].deps|
        && forall i | 0 <= i < |s[k].deps| :: s'[k].deps[i] == if s[k].deps[i] == t then id else s[k].deps[i]
  {
  }

  // ---- Rewiring preserves meaning ----

  /** Same nodes reached from the same nodes, as far as the nodes of s are concerned. */
  ghost predicate SameOrder(s: DagState, s': DagState) {
    forall a, b | a in s && b in s :: Reach(EdgesOf(s), a, b) <==> Reach(EdgesOf(s'), a, b)
  }

  /** With no dangling dependencies, a fresh node that only points at known nodes closes no cycle. */
  lemma FreshNodeClosesNoCycle(s: DagState, id: string, n: NodeState)
    requires AcyclicDag(s) && NoDangling(s) && id !in s && AllKnown(s, n.deps)
    ensures AcyclicDag(s[id := n])
    ensures SameOrder(s, s[id := n])
  {
    var e, f := EdgesOf(s), EdgesOf(s[id := n]);
    forall a, b | a in s
      ensures Reach(e, a, b) <==> Reach(f, a, b)
      ensures Reach(f, a, b) ==> b in s
    {
      if Reach(e, a, b) {
        forall x, y | (x, y) in e ensures Reach(f, x, y) { EdgeReaches(f, x, y); }
        ReachEmbeds(e, f, a, b);
      }
      if Reach(f, a, b) {
        var reached := iset x | x in s && Reach(e, a, x);
        forall x, y | (x, y) in f && (x == a || x in reached)
          ensures y in reached
        {
          assert (x, y) in e;
          EdgeReaches(e, x, y);
          if x != a { ReachTransitive(e, a, x, y); }
        }
        ClosedContainsReach(f, reached, a, b);
      }
    }
    forall x
      ensures !Reach(f, x, x)
    {
      if Reach(f, x, x) {
        var m := FirstStep(f, x, x);
      }
    }
  }

  /** A path of the rewired DAG between nodes other than the new one is a path of base. base is either
      the old graph, when nothing dangled at the new id, or the graph as it stood after add_node. */
  lemma InsertedBeforeBack(base: Edges, s: DagState, t: string, id: string, n: NodeState, a: string, b: string)
    requires t in s && id !in s && a != id && b != id && EdgesOf(s) <= base
    requires (forall d | d in s[t].deps :: (id, d) in base) || (forall x | x in s :: id !in s[x].deps)
    requires id !in s[t].deps
    requires Reach(EdgesOf(InsertedBefore(s, t, id, n)), a, b)
    ensures Reach(base, a, b)
  {
    var f := EdgesOf(InsertedBefore(s, t, id, n));
    var known := forall x | x in s :: id !in s[x].deps;
    var reached := iset x |
        if x == id then a == t || Reach(base, a, t) || (!known && Reach(base, a, id)) else Reach(base, a, x);
    forall x, y | (x, y) in f && (x == a || x in reached)
      ensures y in reached
    {
      if x == id {
        assert (t, y) in base;
        EdgeReaches(base, t, y);
        if a != t && Reach(base, a, t) {
          ReachTransitive(base, a, t, y);
        } else if a != t {
          EdgeReaches(base, id, y);
          ReachTransitive(base, a, id, y);
        }
      } else if x != t {
        assert (x, y) in base;
        EdgeReaches(base, x, y);
        if x != a { ReachTransitive(base, a, x, y); }
      }
    }
    ClosedContainsReach(f, reached, a, b);
  }

  lemma InsertedBeforeForth(s: DagState, t: string, id: string, n: NodeState, a: string, b: string)
    requires t in s && id !in s
    requires Reach(EdgesOf(s), a, b)
    ensures Reach(EdgesOf(InsertedBefore(s, t, id, n)), a, b)
  {
    var e, f := EdgesOf(s), EdgesOf(InsertedBefore(s, t, id, n));
    forall x, y | (x, y) in e
      ensures Reach(f, x, y)
    {
      if x == t {
        assert (t, id) in f && (id, y) in f;
        EdgeReaches(f, t, id);
        EdgeReaches(f, id, y);
        ReachTransitive(f, t, id, y);
      } else {
        EdgeReaches(f, x, y);
      }
    }
    ReachEmbeds(e, f, a, b);
  }

  /** Once add_node has accepted the new node, putting it before the target cannot close a cycle. */
  lemma InsertedBeforeAcyclic(s: DagState, t: string, id: string, n: NodeState)
    requires t in s && id !in s && AllKnown(s, s[t].deps)
    requires AcyclicDag(s[id := n.(deps := s[t].deps)])
    ensures AcyclicDag(InsertedBefore(s, t, id, n))
  {
    var base, f := EdgesOf(s[id := n.(deps := s[t].deps)]), EdgesOf(InsertedBefore(s, t, id, n));
    forall x
      ensures !Reach(f, x, x)
    {
      if Reach(f, x, x) {
        if x == id {
          var d := FirstStep(f, id, id);
          EdgeReaches(f, id, d);
          ReachTransitive(f, d, id, d);
          InsertedBeforeBack(base, s, t, id, n, d, d);
          assert false;
        }
        InsertedBeforeBack(base, s, t, id, n, x, x);
      }
    }
  }

  /** insert_before keeps acyclicity, dangles nothing and leaves the order of the old nodes as it was. */
  lemma InsertBeforePreservesMeaning(s: DagState, t: string, id: string, n: NodeState)
    requires AcyclicDag(s) && NoDangling(s) && t in s && id !in s
    ensures AcyclicDag(InsertedBefore(s, t, id, n)) && NoDangling(InsertedBefore(s, t, id, n))
    ensures SameOrder(s, InsertedBefore(s, t, id, n))
    ensures AddVerdict(s, n.dagId, id, n.(deps := s[t].deps)) == Applied
  {
    FreshNodeClosesNoCycle(s, id, n.(deps := s[t].deps));
    InsertedBeforeAcyclic(s, t, id, n);
    forall a, b | a in s && b in s
      ensures Reach(EdgesOf(s), a, b) <==> Reach(EdgesOf(InsertedBefore(s, t, id, n)), a, b)
    {
      if Reach(EdgesOf(s), a, b) {
        InsertedBeforeForth(s, t, id, n, a, b);
      } else if Reach(EdgesOf(InsertedBefore(s, t, id, n)), a, b) {
        InsertedBeforeBack(EdgesOf(s), s, t, id, n, a, b);
      }
    }
  }

  lemma RedirectMembers(deps: seq<string>, from: string, to: string, y: string)
    ensures y in Redirect(deps, from, to) <==> (y == to && from in deps) || (y != from && y in deps)
  {
    var r := Redirect(deps, from, to);
    if y in r {
      var i :| 0 <= i < |r| && r[i] == y;
      assert deps[i] in deps;
    }
    if y == to && from in deps {
      var i :| 0 <= i < |deps| && deps[i] == from;
      assert r[i] == y;
    }
    if y != from && y in deps {
      var i :| 0 <= i < |deps| && deps[i] == y;
      assert r[i] == y;
    }
  }

  lemma InsertedAfterEdge(s: DagState, t: string, id: string, n: NodeState, x: string, y: string)
    requires t in s && id !in s
    ensures (x, y) in EdgesOf(InsertedAfter(s, t, id, n)) <==>
      if x == id then y == t
      else x in s && ((y == id && t in s[x].deps) || (y != t && y in s[x].deps))
  {
    if x in s {
      RedirectMembers(s[x].deps, t, id, y);
    }
  }

  lemma InsertedAfterBack(base: Edges, s: DagState, t: string, id: string, n: NodeState, a: string, b: string)
    requires t in s && id !in s && a != id && b != id && EdgesOf(s) <= base
    requires (id, t) in base || (forall x | x in s :: id !in s[x].deps)
    requires Reach(EdgesOf(InsertedAfter(s, t, id, n)), a, b)
    ensures Reach(base, a, b)
  {
    var f := EdgesOf(InsertedAfter(s, t, id, n));
    var reached := iset x | if x == id then Reach(base, a, t) else Reach(base, a, x);
    forall x, y | (x, y) in f && (x == a || x in reached)
      ensures y in reached
    {
      InsertedAfterEdge(s, t, id, n, x, y);
      if x != id {
        var y' := if t in s[x].deps && y == id then t else y;
        assert (x, y') in base;
        EdgeReaches(base, x, y');
        if x != a { ReachTransitive(base, a, x, y'); }
        if y' == id {
          EdgeReaches(base, id, t);
          ReachTransitive(base, a, id, t);
        }
      }
    }
    ClosedContainsReach(f, reached, a, b);
  }

  lemma InsertedAfterForth(s: DagState, t: string, id: string, n: NodeState, a: string, b: string)
    requires t in s && id !in s
    requires Reach(EdgesOf(s), a, b)
    ensures Reach(EdgesOf(InsertedAfter(s, t, id, n)), a, b)
  {
    var e, f := EdgesOf(s), EdgesOf(InsertedAfter(s, t, id, n));
    forall x, y | (x, y) in e
      ensures Reach(f, x, y)
    {
      InsertedAfterEdge(s, t, id, n, x, y);
      if y == t {
        InsertedAfterEdge(s, t, id, n, x, id);
        InsertedAfterEdge(s, t, id, n, id, t);
        EdgeReaches(f, x, id);
        EdgeReaches(f, id, t);
        ReachTransitive(f, x, id, t);
      } else {
        EdgeReaches(f, x, y);
      }
    }
    ReachEmbeds(e, f, a, b);
  }

  lemma InsertedAfterAcyclic(s: DagState, t: string, id: string, n: NodeState)
    requires t in s && id !in s
    requires AcyclicDag(s[id := n.(deps := [t])])
    ensures AcyclicDag(InsertedAfter(s, t, id, n))
  {
    var base, f := EdgesOf(s[id := n.(deps := [t])]), EdgesOf(InsertedAfter(s, t, id, n));
    forall x
      ensures !Reach(f, x, x)
    {
      if Reach(f, x, x) {
        if x == id {
          var d := FirstStep(f, id, id);
          InsertedAfterEdge(s, t, id, n, id, d);
          EdgeReaches(f, id, t);
          ReachTransitive(f, t, id, t);
          InsertedAfterBack(base, s, t, id, n, t, t);
          assert false;
        }
        InsertedAfterBack(base, s, t, id, n, x, x);
      }
    }
  }

  lemma InsertAfterPreservesMeaning(s: DagState, t: string, id: string, n: NodeState)
    requires AcyclicDag(s) && NoDangling(s) && t in s && id !in s
    ensures AcyclicDag(InsertedAfter(s, t, id, n)) && NoDangling(InsertedAfter(s, t, id, n))
    ensures SameOrder(s, InsertedAfter(s, t, id, n))
    ensures AddVerdict(s, n.dagId, id, n.(deps := [t])) == Applied
  {
    FreshNodeClosesNoCycle(s, id, n.(deps := [t]));
    InsertedAfterAcyclic(s, t, id, n);
    var s' := InsertedAfter(s, t, id, n);
    forall x, y | x in s' && y in s'[x].deps
      ensures y in s'
    {
      assert (x, y) in EdgesOf(s');
      InsertedAfterEdge(s, t, id, n, x, y);
    }
    forall a, b | a in s && b in s
      ensures Reach(EdgesOf(s), a, b) <==> Reach(EdgesOf(s'), a, b)
    {
      if Reach(EdgesOf(s), a, b) {
        InsertedAfterForth(s, t, id, n, a, b);
      } else if Reach(EdgesOf(s'), a, b) {
        InsertedAfterBack(EdgesOf(s), s, t, id, n, a, b);
      }
    }
  }

  // ---- The operations themselves ----

  /** The DAG object with one more node, in contents, key order and version. */
  twostate predicate Added(dag: TaskDAG, node: TaskNode)
    requires old(dag.Valid())
    reads dag, dag.nodes.Values, node
  {
    && dag.nodes == old(dag.nodes)[node.nodeId := node]
    && dag.View() == old(dag.View())[node.nodeId := node.State()]
    && dag.order == old(dag.order) + [node.nodeId]
  }

  twostate predicate Untouched(dag: TaskDAG)
    reads dag, dag.nodes.Values
  {
    && dag.nodes == old(dag.nodes) && dag.View() == old(dag.View()) && dag.order == old(dag.order)
    && dag.version == old(dag.version)
  }

  lemma PutThenDrop<V>(m: map<string, V>, k: string, v: V)
    requires k !in m
    ensures m[k := v] - {k} == m
  {
  }

  method PutIfAcyclic(dag: TaskDAG, node: TaskNode) returns (acyclic: bool)
    requires dag.Valid() && node.nodeId !in dag.nodes
    modifies dag
    ensures dag.Valid()
    ensures acyclic <==> AcyclicDag(old(dag.View())[node.nodeId := node.State()])
    ensures acyclic ==> Added(dag, node) && dag.version == old(dag.version)
    ensures !acyclic ==> Untouched(dag)
  {
    ghost var s := dag.View();
    dag.Put(node);
    assert dag.View() == s[node.nodeId := node.State()];
    acyclic := dag.ValidateAcyclic();
    if acyclic {
      return;
    }
    PutThenDrop(s, node.nodeId, node.State());
    PutThenDrop(old(dag.nodes), node.nodeId, node);
    dag.DropLast();
    assert dag.View() == s;
  }

  method AddNode(dag: TaskDAG, node: TaskNode) returns (r: MutationResult)
    requires dag.Valid()
    modifies dag
    ensures dag.Valid()
    ensures r == AddVerdict(old(dag.View()), dag.dagId, node.nodeId, node.State())
    ensures var s, own := old(dag.View()), node.dagId == dag.dagId;
      var known := forall d | d in node.dependencies :: d in s;
      && (r == ForeignDag <==> !own)
      && (r == DuplicateId <==> own && node.nodeId in s)
      && (r == UnknownDependencies <==> own && node.nodeId !in s && !known)
      && (r == WouldCycle <==> own && node.nodeId !in s && known && !AcyclicDag(s[node.nodeId := node.State()]))
    ensures r == Applied ==> Added(dag, node) && dag.version == old(dag.version) + 1
    ensures r != Applied ==> Untouched(dag)
  {
    if node.dagId != dag.dagId {
      return ForeignDag;
    }
    if node.nodeId in dag.nodes {
      return DuplicateId;
    }
    if exists i | 0 <= i < |node.dependencies| :: node.dependencies[i] !in dag.nodes {
      return UnknownDependencies;
    }
    var acyclic := PutIfAcyclic(dag, node);
    if !acyclic {
      return WouldCycle;
    }
    dag.BumpVersion();
    return Applied;
  }

  /** The objects of a DAG are the ones it had, plus objects made since. */
  twostate predicate Grown(dag: TaskDAG)
    reads dag
  {
    && (forall k | k in old(dag.nodes) :: k in dag.nodes && dag.nodes[k] == old(dag.nodes)[k])
    && (forall k | k in dag.nodes && k !in old(dag.nodes) :: fresh(dag.nodes[k]))
  }

  /** The second half of insert_before, after add_node has accepted the new node: the target now waits
      for the new node only. The re-check cannot fail. */
  method PointAt(dag: TaskDAG, targetId: string, id: string, ghost s: DagState, ghost n: NodeState)
    returns (acyclic: bool)
    requires dag.Valid() && targetId in s && id !in s && AllKnown(s, s[targetId].deps)
    requires dag.View() == s[id := n.(deps := s[targetId].deps)] && AcyclicDag(dag.View())
    modifies dag`version, dag.nodes[targetId]
    ensures dag.View() == InsertedBefore(s, targetId, id, n) && dag.version == old(dag.version) + 1
    ensures acyclic && AcyclicDag(dag.View())
  {
    InsertedBeforeAcyclic(s, targetId, id, n);
    ghost var before := dag.View();
    assert before[targetId] == s[targetId];
    dag.Revise(targetId, [id], Planned);
    assert dag.View() == InsertedBefore(s, targetId, id, n);
    dag.BumpVersion();
    acyclic := dag.ValidateAcyclic();
  }

  method InsertBefore(dag: TaskDAG, targetId: string, node: TaskNode) returns (r: MutationResult)
    requires dag.Valid()
    modifies dag, dag.nodes.Values
    ensures dag.Valid() && Grown(dag)
    ensures r == (if targetId in old(dag.nodes)
                  then AddVerdict(old(dag.View()), dag.dagId, node.nodeId,
                                  old(node.State()).(deps := old(dag.View())[targetId].deps))
                  else UnknownTarget)
    ensures r == Applied ==>
      && dag.View() == InsertedBefore(old(dag.View()), targetId, node.nodeId, old(node.State()))
      && AcyclicDag(dag.View())
      && dag.order == old(dag.order) + [node.nodeId] && dag.version == old(dag.version) + 2
    ensures r != Applied ==> Untouched(dag)
  {
    if targetId !in dag.nodes {
      return UnknownTarget;
    }
    ghost var s := dag.View();
    ghost var n := node.State();
    var oldDependencies := dag.nodes[targetId].dependencies;
    var copy := new TaskNode.CopyWith(node, oldDependencies);
    assert dag.View() == s && copy.State() == n.(deps := s[targetId].deps);
    r := AddNode(dag, copy);
    if r != Applied {
      return;
    }
    assert dag.View() == s[node.nodeId := n.(deps := s[targetId].deps)];
    var acyclic := PointAt(dag, targetId, copy.nodeId, s, n);
    if !acyclic {
      return ProducedCycle;
    }
  }

  ghost function ReroutedAmong(s: DagState, ids: set<string>, t: string, id: string): DagState {
    map k | k in s :: if k in ids then Rerouted(s[k], t, id) else s[k]
  }

  lemma InsertedAfterShape(s: DagState, ids: set<string>, t: string, id: string, n: NodeState)
    requires id !in s && ids == s.Keys
    ensures ReroutedAmong(s[id := n.(deps := [t])], ids, t, id) == InsertedAfter(s, t, id, n)
  {
  }

  lemma ReroutedAmongStep(s: DagState, ids: set<string>, k: string, t: string, id: string)
    requires k in s && k !in ids
    ensures k in ReroutedAmong(s, ids, t, id)
    ensures ReroutedAmong(s, ids, t, id)[k := Rerouted(ReroutedAmong(s, ids, t, id)[k], t, id)] ==
            ReroutedAmong(s, ids + {k}, t, id)
  {
  }

  method RerouteOne(dag: TaskDAG, k: string, targetId: string, id: string)
    requires dag.Valid() && k in dag.nodes
    modifies dag.nodes[k]
    ensures dag.View() == old(dag.View())[k := Rerouted(old(dag.View())[k], targetId, id)]
  {
    var dependencies := dag.nodes[k].dependencies;
    if targetId in dependencies {
      dag.Revise(k, Redirect(dependencies, targetId, id), Planned);
    }
  }

  method RerouteEach(dag: TaskDAG, ids: seq<string>, targetId: string, id: string, ghost keys: set<string>)
    requires dag.Valid() && NoDuplicates(ids) && keys <= dag.nodes.Keys && forall k :: k in keys <==> k in ids
    modifies dag.nodes.Values
    ensures dag.View() == ReroutedAmong(old(dag.View()), keys, targetId, id)
  {
    ghost var s := dag.View();
    ghost var done := {};
    for i := 0 to |ids|
      invariant done == set j | 0 <= j < i :: ids[j]
      invariant dag.View() == ReroutedAmong(s, done, targetId, id)
    {
      ReroutedAmongStep(s, done, ids[i], targetId, id);
      RerouteOne(dag, ids[i], targetId, id);
      done := done + {ids[i]};
    }
    assert done == keys;
  }

  method RerouteAll(dag: TaskDAG, ids: seq<string>, targetId: string, id: string, ghost s: DagState, ghost n: NodeState)
    requires dag.Valid() && NoDuplicates(ids) && targetId in s && id !in s && forall k :: k in ids <==> k in s
    requires dag.View() == s[id := n.(deps := [targetId])]
    modifies dag.nodes.Values
    ensures dag.View() == InsertedAfter(s, targetId, id, n)
  {
    InsertedAfterShape(s, s.Keys, targetId, id, n);
    RerouteEach(dag, ids, targetId, id, s.Keys);
  }

  /** The second half of insert_after: whatever waited for the target waits for the new node. Again the
      re-check cannot fail. */
  method RerouteDependents(dag: TaskDAG, ids: seq<string>, targetId: string, id: string, ghost s: DagState,
                           ghost n: NodeState)
    returns (acyclic: bool)
    requires dag.Valid() && NoDuplicates(ids) && targetId in s && id !in s && forall k :: k in ids <==> k in s
    requires dag.View() == s[id := n.(deps := [targetId])] && AcyclicDag(dag.View())
    modifies dag`version, dag.nodes.Values
    ensures dag.View() == InsertedAfter(s, targetId, id, n) && dag.version == old(dag.version) + 1
    ensures acyclic && AcyclicDag(dag.View())
  {
    InsertedAfterAcyclic(s, targetId, id, n);
    RerouteAll(dag, ids, targetId, id, s, n);
    dag.BumpVersion();
    acyclic := dag.ValidateAcyclic();
  }

  method InsertAfter(dag: TaskDAG, targetId: string, node: TaskNode) returns (r: MutationResult)
    requires dag.Valid()
    modifies dag, dag.nodes.Values
    ensures dag.Valid() && Grown(dag)
    ensures r == (if targetId in old(dag.nodes)
                  then AddVerdict(old(dag.View()), dag.dagId, node.nodeId, old(node.State()).(deps := [targetId]))
                  else UnknownTarget)
    ensures r == Applied ==>
      && dag.View() == InsertedAfter(old(dag.View()), targetId, node.nodeId, old(node.State()))
      && AcyclicDag(dag.View())
      && dag.order == old(dag.order) + [node.nodeId] && dag.version == old(dag.version) + 2
    ensures r != Applied ==> Untouched(dag)
  {
    if targetId !in dag.nodes {
      return UnknownTarget;
    }
    ghost var s := dag.View();
    ghost var n := node.State();
    var ids := dag.order;
    var copy := new TaskNode.CopyWith(node, [targetId]);
    assert dag.View() == s && copy.State() == n.(deps := [targetId]);
    r := AddNode(dag, copy);
    if r != Applied {
      return;
    }
    assert dag.View() == s[node.nodeId := n.(deps := [targetId])];
    var acyclic := RerouteDependents(dag, ids, targetId, copy.nodeId, s, n);
    if !acyclic {
      return ProducedCycle;
    }
  }
}
