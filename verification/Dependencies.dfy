/** Deadlock detection (autonomy/dependencies.py): a depth-first search with a recursion stack, which
    reports the cycle it found. */
module Dependencies {
  import opened Digraphs
  import opened Wrappers

  type WaitGraph = map<string, set<string>>

  ghost function WaitEdges(g: WaitGraph): (e: Edges)
    ensures forall a, b :: (a, b) in e <==> a in g && b in g[a]
  {
    set a, b | a in g && b in g[a] :: (a, b)
  }

  /** A genuine cycle: it starts and ends at the same node, and every consecutive pair is an edge. */
  ghost predicate IsCycle(e: Edges, c: seq<string>) {
    |c| >= 2 && Path(e, c) && c[0] == c[|c| - 1]
  }

  ghost predicate HasCycle(e: Edges) {
    exists c :: IsCycle(e, c)
  }

  lemma CyclesAreReturns(e: Edges)
    ensures HasCycle(e) <==> !Acyclic(e)
  {
    if c :| IsCycle(e, c) {
      assert PathBetween(e, c, c[0], c[0]);
      assert Reach(e, c[0], c[0]);
    }
    if x :| Reach(e, x, x) {
      var p :| |p| >= 2 && PathBetween(e, p, x, x);
      assert IsCycle(e, p);
    }
  }

  ghost function Elements(p: seq<string>): set<string> {
    set x | x in p
  }

  function IndexOf(p: seq<string>, x: string): (i: nat)
    requires x in p
    ensures i < |p| && p[i] == x && forall j | 0 <= j < i :: p[j] != x
  {
    if p[0] == x then 0 else 1 + IndexOf(p[1..], x)
  }

  /** The stretch of the current path from a node on it back to that node is a cycle. */
  lemma StackCycle(e: Edges, path: seq<string>, x: string)
    requires Path(e, path) && x in path && (path[|path| - 1], x) in e
    ensures IsCycle(e, path[IndexOf(path, x)..] + [x])
  {
    var i := IndexOf(path, x);
    var c := path[i..] + [x];
    forall j | 0 <= j < |c| - 1
      ensures (c[j], c[j + 1]) in e
    {
      if j < |c| - 2 {
        assert (path[i + j], path[i + j + 1]) in e;
      }
    }
  }

  lemma ExtendPath(e: Edges, path: seq<string>, x: string)
    requires path == [] || (Path(e, path) && (path[|path| - 1], x) in e)
    ensures Path(e, path + [x])
  {
    var p := path + [x];
    forall i | 0 <= i < |p| - 1
      ensures (p[i], p[i + 1]) in e
    {
      if i < |path| - 1 {
        assert (path[i], path[i + 1]) in e;
      }
    }
  }

  lemma FromInside(e: Edges, f: Edges, a: string, b: string, x: string)
    requires f == e + {(a, b)} && a != b && !Reach(e, b, a) && Reach(e, b, x) && Reach(f, x, x)
    ensures Reach(e, x, x)
  {
    var after := iset y | Reach(e, x, y);
    forall u, v | (u, v) in f && (u == x || u in after)
      ensures v in after
    {
      if u != x { ReachTransitive(e, b, x, u); }
      assert (u, v) in e;
      EdgeReaches(e, u, v);
      if u != x { ReachTransitive(e, x, u, v); }
    }
    ClosedContainsReach(f, after, x, x);
  }

  /** A path of the extended graph either avoids the new edge or goes through b. */
  lemma AvoidsNewEdge(e: Edges, a: string, b: string, x: string)
    requires a != b && !Reach(e, b, a) && Reach(e + {(a, b)}, x, x)
    ensures Reach(e, x, x)
  {
    var f := e + {(a, b)};
    if x == b || Reach(e, b, x) {
      var after := iset y | Reach(e, b, y);
      forall u, v | (u, v) in f && (u == b || u in after)
        ensures v in after
      {
        assert (u, v) in e;
        EdgeReaches(e, u, v);
        if u != b { ReachTransitive(e, b, u, v); }
      }
      if x == b {
        ClosedContainsReach(f, after, b, b);
      } else {
        FromInside(e, f, a, b, x);
      }
    } else {
      var fromX := iset y | Reach(e, x, y) || y == b || Reach(e, b, y);
      forall u, v | (u, v) in f && (u == x || u in fromX)
        ensures v in fromX
      {
        if (u, v) in e {
          EdgeReaches(e, u, v);
          if u == b {
          } else if Reach(e, b, u) {
            ReachTransitive(e, b, u, v);
          } else if u != x {
            ReachTransitive(e, x, u, v);
          }
        }
      }
      ClosedContainsReach(f, fromX, x, x);
    }
  }

  /** When a new wait closes a cycle: exactly when the required node already waits for the blocked one
      (or is it). A caller can look before it adds. */
  lemma NewEdgeClosesCycle(e: Edges, a: string, b: string)
    requires Acyclic(e)
    ensures Acyclic(e + {(a, b)}) <==> a != b && !Reach(e, b, a)
  {
    var f := e + {(a, b)};
    EdgeReaches(f, a, b);
    forall x, y | (x, y) in e ensures Reach(f, x, y) { EdgeReaches(f, x, y); }
    if Reach(e, b, a) {
      ReachEmbeds(e, f, b, a);
      ReachTransitive(f, a, b, a);
    }
    if a != b && !Reach(e, b, a) {
      forall x
        ensures !Reach(f, x, x)
      {
        if Reach(f, x, x) {
          AvoidsNewEdge(e, a, b, x);
        }
      }
    }
  }

  class DependencyCoordinator {
    var graph: WaitGraph

    constructor ()
      ensures graph == map[]
    {
      graph := map[];
    }

    /** path is the recursion stack in order, so rec_stack is its elements. None: no cycle is reachable
        from node, which is then finished; Some: the cycle found. */
    method Dfs(node: string, visited: set<string>, path: seq<string>, ghost universe: set<string>)
      returns (cycle: Option<seq<string>>, visited': set<string>)
      requires node !in visited && Elements(path) <= visited && node in universe
      requires forall x, y | (x, y) in WaitEdges(graph) :: y in universe
      requires path == [] || (Path(WaitEdges(graph), path) && (path[|path| - 1], node) in WaitEdges(graph))
      requires Settled(WaitEdges(graph), visited - Elements(path))
      ensures cycle.Some? ==> IsCycle(WaitEdges(graph), cycle.value)
      ensures cycle.None? ==> visited + {node} <= visited' && Settled(WaitEdges(graph), visited' - Elements(path))
      decreases universe - visited
    {
      ghost var e := WaitEdges(graph);
      visited' := visited + {node};
      var stack := path + [node];
      ExtendPath(e, path, node);
      assert Elements(stack) == Elements(path) + {node};
      assert visited' - Elements(stack) == visited - Elements(path);
      var todo := if node in graph then graph[node] else {};
      ghost var neighbours := todo;
      while todo != {}
        invariant todo <= neighbours && visited + {node} <= visited'
        invariant Settled(e, visited' - Elements(stack))
        invariant forall y | y in neighbours - todo :: y in visited' - Elements(stack)
      {
        var neighbor :| neighbor in todo;
        todo := todo - {neighbor};
        assert (node, neighbor) in e;
        if neighbor !in visited' {
          assert neighbor !in Elements(stack);
          ghost var before := visited' - Elements(stack);
          cycle, visited' := Dfs(neighbor, visited', stack, universe);
          if cycle.Some? {
            return;
          }
          assert before <= visited' - Elements(stack);
        } else if neighbor in stack {
          StackCycle(e, stack, neighbor);
          return Some(stack[IndexOf(stack, neighbor)..] + [neighbor]), visited';
        }
      }
      SettleNode(e, visited' - Elements(stack), node);
      assert visited' - Elements(path) == (visited' - Elements(stack)) + {node};
      return None, visited';
    }

    /** Reports a cycle exactly when there is one, and the report is a genuine cycle. */
    method CheckForDeadlocks() returns (cycle: Option<seq<string>>)
      ensures cycle.None? <==> Acyclic(WaitEdges(graph))
      ensures cycle.Some? ==> IsCycle(WaitEdges(graph), cycle.value)
    {
      ghost var e := WaitEdges(graph);
      ghost var universe := graph.Keys + (set x | x in e :: x.1);
      forall x, y | (x, y) in e
        ensures y in universe
      {
        assert (x, y).1 in universe;
      }
      CyclesAreReturns(e);
      var visited: set<string> := {};
      var todo := graph.Keys;
      while todo != {}
        invariant todo <= graph.Keys && Settled(e, visited) && graph.Keys - todo <= visited
      {
        var n :| n in todo;
        todo := todo - {n};
        if n !in visited {
          assert Elements([]) == {} && visited - {} == visited;
          cycle, visited := Dfs(n, visited, [], universe);
          if cycle.Some? {
            return;
          }
          assert visited - Elements([]) == visited;
        }
      }
      SettledEverywhere(e, visited);
      return None;
    }

    /** The edge is recorded before the check, and stays recorded when the check fails. */
    method AddDependency(blockedNode: string, requiredNode: string) returns (cycle: Option<seq<string>>)
      modifies this
      ensures WaitEdges(graph) == old(WaitEdges(graph)) + {(blockedNode, requiredNode)}
      ensures cycle.None? <==> Acyclic(WaitEdges(graph))
      ensures cycle.Some? ==> IsCycle(WaitEdges(graph), cycle.value)
      ensures old(Acyclic(WaitEdges(graph))) ==>
        (cycle.None? <==> blockedNode != requiredNode && !Reach(old(WaitEdges(graph)), requiredNode, blockedNode))
    {
      ghost var e := WaitEdges(graph);
      if blockedNode !in graph {
        graph := graph[blockedNode := {}];
      }
      graph := graph[blockedNode := graph[blockedNode] + {requiredNode}];
      assert WaitEdges(graph) == e + {(blockedNode, requiredNode)};
      if Acyclic(e) {
        NewEdgeClosesCycle(e, blockedNode, requiredNode);
      }
      cycle := CheckForDeadlocks();
    }

    method RemoveDependency(blockedNode: string, requiredNode: string)
      modifies this
      ensures WaitEdges(graph) == old(WaitEdges(graph)) - {(blockedNode, requiredNode)}
    {
      ghost var e := WaitEdges(graph);
      if blockedNode in graph {
        graph := graph[blockedNode := graph[blockedNode] - {requiredNode}];
      }
      assert WaitEdges(graph) == e - {(blockedNode, requiredNode)};
    }
  }
}
