/** Readiness and invalidation of DAG nodes (engineering/planning.py, TaskDAGMutator.ready_nodes and
    invalidate_descendants). */
module DagProgress {
  import opened Digraphs
  import opened Schemas
  import opened Sequences

  // ---- ready_nodes ----

  ghost predicate IsDone(s: DagState, id: string) {
    id in s && s[id].status == Succeeded
  }

  ghost predicate DependenciesDone(s: DagState, id: string)
    requires id in s
  {
    forall d | d in s[id].deps :: IsDone(s, d)
  }

  /** A planned node is promoted when it has dependencies and all of them have succeeded. A planned
      node without dependencies is never promoted. */
  ghost predicate Promotable(s: DagState, id: string)
    requires id in s
  {
    s[id].status == Planned && s[id].deps != [] && DependenciesDone(s, id)
  }

  ghost function PromotedAmong(s: DagState, ids: set<string>): DagState {
    map k | k in s :: if k in ids && Promotable(s, k) then s[k].(status := Ready) else s[k]
  }

  ghost function Promoted(s: DagState): DagState {
    PromotedAmong(s, s.Keys)
  }

  ghost function ReadyIn(s: DagState, order: seq<string>): (r: seq<string>)
    ensures forall k :: k in r <==> k in order && k in s && s[k].status == Ready
    ensures NoDuplicates(order) ==> NoDuplicates(r)
  {
    if order == [] then []
    else
      var init := ReadyIn(s, order[..|order| - 1]);
      var last := order[|order| - 1];
      assert order == order[..|order| - 1] + [last];
      if last in s && s[last].status == Ready then init + [last] else init
  }

  lemma {:induction false} ReadyInKeepsOrder(s: DagState, order: seq<string>)
    ensures Subsequence(ReadyIn(s, order), order)
  {
    if order == [] {
      EmptyEmbeds<string>();
    } else {
      var init, last := order[..|order| - 1], order[|order| - 1];
      ReadyInKeepsOrder(s, init);
      assert order == init + [last];
      var keep := last in s && s[last].status == Ready;
      SubsequenceGrows(ReadyIn(s, init), init, last, keep);
      assert ReadyIn(s, order) == ReadyIn(s, init) + if keep then [last] else [];
    }
  }

  /** What ready_nodes answers: in dictionary order, the nodes that were ready and the planned ones that have
      dependencies, all of them succeeded. These become ready, and nothing else changes. */
  lemma PromotionIsExact(s: DagState, order: seq<string>)
    requires forall k :: k in order <==> k in s
    ensures var t := Promoted(s);
      && t.Keys == s.Keys && Subsequence(ReadyIn(t, order), order)
      && forall k | k in s ::
        var due := s[k].status == Planned && s[k].deps != [] &&
                   forall d | d in s[k].deps :: d in s && s[d].status == Succeeded;
        && t[k] == (if due then s[k].(status := Ready) else s[k])
        && (k in ReadyIn(t, order) <==> due || s[k].status == Ready)
  {
    ReadyInKeepsOrder(Promoted(s), order);
  }

  lemma ReadyInNext(s: DagState, order: seq<string>, i: nat)
    requires i < |order|
    ensures ReadyIn(s, order[..i + 1]) ==
            ReadyIn(s, order[..i]) + if order[i] in s && s[order[i]].status == Ready then [order[i]] else []
  {
    assert order[..i + 1][..i] == order[..i];
  }

  lemma ReadyInDependsOnStatuses(s: DagState, s': DagState, order: seq<string>)
    requires forall k | k in order :: k in s && k in s' && s[k].status == s'[k].status
    ensures ReadyIn(s, order) == ReadyIn(s', order)
  {
    if order != [] {
      assert order == order[..|order| - 1] + [order[|order| - 1]];
      ReadyInDependsOnStatuses(s, s', order[..|order| - 1]);
    }
  }

  lemma PromotedAmongStep(s: DagState, ids: set<string>, k: string)
    requires k in s && k !in ids
    ensures var t := PromotedAmong(s, ids);
      && k in t && t[k] == s[k]
      && (Promotable(t, k) <==> Promotable(s, k))
      && PromotedAmong(s, ids + {k}) == if Promotable(s, k) then t[k := t[k].(status := Ready)] else t
  {
    var t := PromotedAmong(s, ids);
    forall d
      ensures IsDone(t, d) <==> IsDone(s, d)
    {
    }
  }

  lemma ReadyStep(s: DagState, ids: set<string>, order: seq<string>, i: nat)
    requires i < |order| && order[i] !in ids && order[i] in s && forall k | k in order :: k in s
    ensures var k, t := order[i], PromotedAmong(s, ids);
      var t' := if Promotable(t, k) then t[k := t[k].(status := Ready)] else t;
      && t' == PromotedAmong(s, ids + {k})
      && ReadyIn(t', order[..i + 1]) == ReadyIn(t, order[..i]) + if t'[k].status == Ready then [k] else []
    requires forall j | 0 <= j < i :: order[j] != order[i]
  {
    var k := order[i];
    PromotedAmongStep(s, ids, k);
    var t := PromotedAmong(s, ids);
    var t' := if Promotable(t, k) then t[k := t[k].(status := Ready)] else t;
    ReadyInDependsOnStatuses(t, t', order[..i]);
    ReadyInNext(t', order, i);
  }

  /** all(dep in dag.nodes and dag.nodes[dep].status == SUCCEEDED for dep in node.dependencies) */
  method AllSucceeded(dag: TaskDAG, id: string) returns (all: bool)
    requires dag.Valid() && id in dag.nodes
    ensures all <==> DependenciesDone(dag.View(), id)
  {
    var deps := dag.nodes[id].dependencies;
    assert deps == dag.View()[id].deps;
    for i := 0 to |deps|
      invariant forall j | 0 <= j < i :: IsDone(dag.View(), deps[j])
    {
      if !(deps[i] in dag.nodes && dag.nodes[deps[i]].status == Succeeded) {
        assert !IsDone(dag.View(), deps[i]);
        return false;
      }
    }
    return true;
  }

  /** One turn of the loop of ready_nodes: promotes the node if it can be, and says if it is ready. */
  method Consider(dag: TaskDAG, id: string) returns (ready: bool)
    requires dag.Valid() && id in dag.nodes
    modifies dag.nodes[id]
    ensures dag.View() ==
            if Promotable(old(dag.View()), id) then old(dag.View())[id := old(dag.View())[id].(status := Ready)]
                          else old(dag.View())
    ensures ready <==> dag.View()[id].status == Ready
  {
    var node := dag.nodes[id];
    if node.status == Ready {
      return true;
    }
    if node.status != Planned {
      return false;
    }
    var all := AllSucceeded(dag, id);
    if node.dependencies != [] && all {
      dag.SetStatus(id, Ready);
      return true;
    }
    return false;
  }

  /** The first i nodes of the dictionary have been considered. */
  ghost predicate ConsideredUpTo(s: DagState, t: DagState, ids: seq<string>, i: nat, ready: seq<string>)
    requires i <= |ids|
  {
    t == PromotedAmong(s, Prefix(ids, i)) && ready == ReadyIn(t, ids[..i])
  }

  lemma ConsideredNext(s: DagState, t: DagState, t': DagState, ids: seq<string>, i: nat, ready: seq<string>,
                       isReady: bool)
    requires NoDuplicates(ids) && (forall k | k in ids :: k in s) && i < |ids| && ConsideredUpTo(s, t, ids, i, ready)
    requires ids[i] in t && t' == if Promotable(t, ids[i]) then t[ids[i] := t[ids[i]].(status := Ready)] else t
    requires isReady <==> t'[ids[i]].status == Ready
    ensures ConsideredUpTo(s, t', ids, i + 1, ready + if isReady then [ids[i]] else [])
  {
    PrefixGrows(ids, i);
    ReadyStep(s, Prefix(ids, i), ids, i);
  }

  lemma AllConsidered(s: DagState, t: DagState, ids: seq<string>, ready: seq<string>)
    requires ConsideredUpTo(s, t, ids, |ids|, ready) && forall k :: k in ids <==> k in s
    ensures t == Promoted(s) && ready == ReadyIn(t, ids)
  {
    PrefixIsAll(ids, s.Keys);
  }

  method ReadyNodes(dag: TaskDAG) returns (ready: seq<string>)
    requires dag.Valid()
    modifies dag.nodes.Values
    ensures dag.View() == Promoted(old(dag.View()))
    ensures ready == ReadyIn(dag.View(), dag.order)
  {
    ready := [];
    var ids := dag.order;
    ghost var s := dag.View();
    ghost var t := s;
    assert ConsideredUpTo(s, s, ids, 0, []);
    for i := 0 to |ids|
      invariant dag.View() == t && t.Keys == s.Keys && ConsideredUpTo(s, t, ids, i, ready)
    {
      ghost var before := t;
      var isReady := Consider(dag, ids[i]);
      t := dag.View();
      ConsideredNext(s, before, t, ids, i, ready, isReady);
      if isReady {
        ready := ready + [ids[i]];
      }
    }
    AllConsidered(s, t, ids, ready);
  }

  // ---- invalidate_descendants ----

  /** Every node that depends, directly or not, on a root that is a node. */
  ghost function Descendants(s: DagState, roots: set<string>): set<string> {
    set x | x in s && exists r | r in roots && r in s :: Reach(EdgesOf(s), x, r)
  }

  ghost function InvalidatedNode(n: NodeState): NodeState {
    if n.status == Failed then n else n.(status := Planned, version := n.version + 1)
  }

  ghost function InvalidatedAmong(s: DagState, ids: set<string>): DagState {
    map k | k in s :: if k in ids then InvalidatedNode(s[k]) else s[k]
  }

  lemma MembersAppend(q: seq<string>, x: string)
    ensures Members(q + [x]) == Members(q) + {x}
  {
  }

  ghost function DependentsAmong(s: DagState, among: set<string>, d: string): set<string> {
    set c | c in among && c in s && d in s[c].deps
  }

  /** reverse lists, for every node, those of the nodes in among that depend on it. */
  ghost predicate ReverseOf(s: DagState, reverse: map<string, seq<string>>, among: set<string>) {
    && reverse.Keys == s.Keys
    && forall d | d in reverse :: Members(reverse[d]) == DependentsAmong(s, among, d)
  }

  method AddToReverse(reverse: map<string, seq<string>>, id: string, deps: seq<string>, ghost s: DagState,
                      ghost among: set<string>)
    returns (r: map<string, seq<string>>)
    requires ReverseOf(s, reverse, among) && id in s && deps == s[id].deps
    ensures ReverseOf(s, r, among + {id})
  {
    r := reverse;
    ghost var seen := {};
    for j := 0 to |deps|
      invariant seen == set k | 0 <= k < j :: deps[k]
      invariant r.Keys == s.Keys
      invariant forall d | d in r :: Members(r[d]) == DependentsAmong(s, among, d) + if d in seen then {id} else {}
    {
      if deps[j] in r {
        MembersAppend(r[deps[j]], id);
        r := r[deps[j] := r[deps[j]] + [id]];
      }
      seen := seen + {deps[j]};
    }
    forall d | d in r
      ensures Members(r[d]) == DependentsAmong(s, among + {id}, d)
    {
      assert d in seen <==> d in deps;
    }
  }

  lemma NothingReversed(s: DagState, reverse: map<string, seq<string>>)
    requires reverse.Keys == s.Keys && forall d | d in reverse :: reverse[d] == []
    ensures ReverseOf(s, reverse, {})
  {
    forall d | d in reverse
      ensures Members(reverse[d]) == DependentsAmong(s, {}, d)
    {
    }
  }

  method ReverseEdges(dag: TaskDAG) returns (reverse: map<string, seq<string>>)
    requires dag.Valid()
    ensures ReverseOf(dag.View(), reverse, dag.nodes.Keys)
  {
    reverse := map k | k in dag.nodes :: [];
    ghost var s := dag.View();
    var ids := dag.order;
    NothingReversed(s, reverse);
    for i := 0 to |ids|
      invariant ReverseOf(s, reverse, Prefix(ids, i))
    {
      PrefixGrows(ids, i);
      var deps := dag.nodes[ids[i]].dependencies;
      assert deps == s[ids[i]].deps;
      reverse := AddToReverse(reverse, ids[i], deps, s, Prefix(ids, i));
    }
    PrefixIsAll(ids, dag.nodes.Keys);
  }

  /** One turn of the search: children not seen before are recorded and queued. */
  method Visit(children: seq<string>, seen: set<string>, queue: seq<string>)
    returns (seen': set<string>, queue': seq<string>)
    ensures seen' == seen + Members(children)
    ensures Members(queue') == Members(queue) + (Members(children) - seen)
    ensures seen' == seen ==> queue' == queue
  {
    seen', queue' := seen, queue;
    ghost var visited := {};
    for i := 0 to |children|
      invariant visited == set j | 0 <= j < i :: children[j]
      invariant seen' == seen + visited && Members(queue') == Members(queue) + (visited - seen)
      invariant seen' == seen ==> queue' == queue
    {
      if children[i] !in seen' {
        seen' := seen' + {children[i]};
        MembersAppend(queue', children[i]);
        queue' := queue' + [children[i]];
      }
      visited := visited + {children[i]};
    }
    assert visited == Members(children);
  }

  ghost predicate ClosedAt(s: DagState, seen: set<string>, y: string) {
    y in s ==> DependentsAmong(s, s.Keys, y) <= seen
  }

  /** A set that holds the dependents of the roots and of its own members holds every descendant. */
  lemma ClosedHoldsDescendants(s: DagState, roots: set<string>, seen: set<string>)
    requires forall y | y in roots + seen :: ClosedAt(s, seen, y)
    ensures Descendants(s, roots) <= seen
  {
    forall x | x in Descendants(s, roots)
      ensures x in seen
    {
      var r :| r in roots && r in s && Reach(EdgesOf(s), x, r);
      if x !in seen {
        var outside := iset z | !(z in s && z in roots + seen);
        forall z, y | (z, y) in EdgesOf(s) && (z == x || z in outside)
          ensures y in outside
        {
          assert z in DependentsAmong(s, s.Keys, y);
          assert y in roots + seen ==> ClosedAt(s, seen, y);
        }
        ClosedContainsReach(EdgesOf(s), outside, x, r);
      }
    }
  }

  lemma DependentsDescend(s: DagState, roots: set<string>, seen: set<string>, y: string)
    requires y in s && y in roots + seen && seen <= Descendants(s, roots)
    ensures DependentsAmong(s, s.Keys, y) <= Descendants(s, roots)
  {
    forall c | c in DependentsAmong(s, s.Keys, y)
      ensures c in Descendants(s, roots)
    {
      assert (c, y) in EdgesOf(s);
      EdgeReaches(EdgesOf(s), c, y);
      if y !in roots {
        var r :| r in roots && r in s && Reach(EdgesOf(s), y, r);
        ReachTransitive(EdgesOf(s), c, y, r);
      }
    }
  }

  /** The breadth-first search of invalidate_descendants. */
  method Search(reverse: map<string, seq<string>>, rootIds: seq<string>, ghost s: DagState) returns (seen: set<string>)
    requires ReverseOf(s, reverse, s.Keys)
    ensures seen == Descendants(s, Members(rootIds))
  {
    ghost var roots := Members(rootIds);
    seen := {};
    var queue := rootIds;
    while queue != []
      invariant seen <= Descendants(s, roots) && Members(queue) <= roots + seen
      invariant forall y | y in roots + seen && y !in Members(queue) :: ClosedAt(s, seen, y)
      decreases Descendants(s, roots) - seen, |queue|
    {
      var current := queue[0];
      assert Members(queue) == Members(queue[1..]) + {current};
      var children := if current in reverse then reverse[current] else [];
      if current in s {
        DependentsDescend(s, roots, seen, current);
      }
      seen, queue := Visit(children, seen, queue[1..]);
      assert ClosedAt(s, seen, current);
    }
    ClosedHoldsDescendants(s, roots, seen);
  }

  lemma InvalidatedAmongStep(s: DagState, ids: set<string>, k: string)
    requires k in s && k !in ids
    ensures var t := InvalidatedAmong(s, ids);
      && k in t && t[k] == s[k]
      && InvalidatedAmong(s, ids + {k}) == t[k := InvalidatedNode(t[k])]
  {
  }

  method InvalidateOne(dag: TaskDAG, id: string)
    requires dag.Valid() && id in dag.nodes
    modifies dag.nodes[id]
    ensures dag.View() == old(dag.View())[id := InvalidatedNode(old(dag.View())[id])]
  {
    if dag.nodes[id].status != Failed {
      dag.Revise(id, dag.nodes[id].dependencies, Planned);
    }
  }

  method Invalidate(dag: TaskDAG, ids: set<string>)
    requires dag.Valid() && ids <= dag.nodes.Keys
    modifies dag.nodes.Values
    ensures dag.View() == InvalidatedAmong(old(dag.View()), ids)
  {
    ghost var s := dag.View();
    var todo := ids;
    ghost var done := {};
    while todo != {}
      invariant done + todo == ids && done !! todo
      invariant dag.View() == InvalidatedAmong(s, done)
    {
      var id :| id in todo;
      InvalidatedAmongStep(s, done, id);
      InvalidateOne(dag, id);
      assert dag.View() == InvalidatedAmong(s, done + {id});
      todo := todo - {id};
      done := done + {id};
    }
    assert done == ids;
  }

  /** Returns exactly the descendants of the roots, sorted; each of them that has not failed is planned again,
      and no other node changes. */
  method InvalidateDescendants(dag: TaskDAG, rootIds: seq<string>) returns (ids: seq<string>)
    requires dag.Valid()
    modifies dag`version, dag.nodes.Values
    ensures Sorted(ids) && Members(ids) == Descendants(old(dag.View()), Members(rootIds))
    ensures dag.View() == InvalidatedAmong(old(dag.View()), Members(ids))
    ensures forall k | k in dag.View() ::
      var was := old(dag.View())[k];
      dag.View()[k] ==
        if k in ids && was.status != Failed then was.(status := Planned, version := was.version + 1) else was
    ensures dag.version == old(dag.version) + if ids == [] then 0 else 1
  {
    ghost var s := dag.View();
    var reverse := ReverseEdges(dag);
    var seen := Search(reverse, rootIds, s);
    ids := SortedList(seen);
    HasMember(ids);
    assert dag.View() == s;
    Invalidate(dag, seen);
    assert dag.View() == InvalidatedAmong(s, seen);
    if seen != {} {
      dag.BumpVersion();
    }
  }
}
