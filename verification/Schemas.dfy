/** Task nodes and the task DAG (executive/schemas.py): objects updated in place, with the
    value-level view that all statements about them are made over. */
module Schemas {
  import opened Digraphs
  import opened Sequences

  datatype TaskNodeStatus =
    | Planned | Ready | LeaseAssigned | CognitiveWork | ToolProposed | Preflight
    | Executing | Verifying | Succeeded | Failed | Blocked | ReplanRequired

  /** What a node holds at one moment. */
  datatype NodeState = NodeState(dagId: nat, refs: seq<string>, deps: seq<string>, status: TaskNodeStatus, version: nat)

  /** The contents of a DAG at one moment, by node id. */
  type DagState = map<string, NodeState>

  /** (a, b) is an edge when a lists b as a dependency; b need not be a node ("dangling"). */
  ghost function EdgesOf(s: DagState): (e: Edges)
    ensures forall a, b :: (a, b) in e <==> a in s && b in s[a].deps
  {
    set a, i | a in s && 0 <= i < |s[a].deps| :: (a, s[a].deps[i])
  }

  ghost predicate NoDangling(s: DagState) {
    forall a, b | a in s && b in s[a].deps :: b in s
  }

  ghost predicate AcyclicDag(s: DagState) {
    Acyclic(EdgesOf(s))
  }

  class TaskNode {
    const nodeId: string
    const dagId: nat
    const requirementRefs: seq<string>
    var dependencies: seq<string>
    var status: TaskNodeStatus
    var version: nat

    function State(): NodeState
      reads this
    {
      NodeState(dagId, requirementRefs, dependencies, status, version)
    }

    constructor (nodeId: string, dagId: nat, requirementRefs: seq<string>, dependencies: seq<string>,
                 status: TaskNodeStatus)
      ensures this.nodeId == nodeId
      ensures State() == NodeState(dagId, requirementRefs, dependencies, status, 1)
    {
      this.nodeId := nodeId;
      this.dagId := dagId;
      this.requirementRefs := requirementRefs;
      this.dependencies := dependencies;
      this.status := status;
      this.version := 1;
    }

    /** A copy of source with other dependencies; every other field is kept. */
    constructor CopyWith(source: TaskNode, dependencies: seq<string>)
      ensures nodeId == source.nodeId
      ensures State() == source.State().(deps := dependencies)
    {
      this.nodeId := source.nodeId;
      this.dagId := source.dagId;
      this.requirementRefs := source.requirementRefs;
      this.dependencies := dependencies;
      this.status := source.status;
      this.version := source.version;
    }
  }

  ghost predicate IsColouring(visited: map<string, int>) {
    forall x | x in visited :: visited[x] == 1 || visited[x] == 2
  }

  ghost function Coloured(visited: map<string, int>, colour: int): set<string> {
    set x | x in visited && visited[x] == colour
  }

  lemma KeysOf(visited: map<string, int>)
    requires IsColouring(visited)
    ensures visited.Keys == Coloured(visited, 1) + Coloured(visited, 2)
  {
  }

  /** All ids that a search can come across. */
  lemma UniverseOf(keys: set<string>, e: Edges) returns (universe: set<string>)
    ensures keys <= universe && forall x, y | (x, y) in e :: y in universe
  {
    universe := keys + set x | x in e :: x.1;
    forall x, y | (x, y) in e
      ensures y in universe
    {
      assert (x, y).1 in (set z | z in e :: z.1);
    }
  }

  lemma OneMoreSettled(order: seq<string>, i: nat, next: nat, before: set<string>, black: set<string>)
    requires next == i + 1 <= |order| && Members(order[..i]) <= before <= black && order[i] in black
    ensures Members(order[..next]) <= black
  {
    assert Members(order[..next]) == Members(order[..i]) + {order[i]};
  }

  lemma AllSettled(s: DagState, order: seq<string>, black: set<string>)
    requires (forall k :: k in order <==> k in s) && Members(order) <= black
    requires Settled(EdgesOf(s), black)
    ensures AcyclicDag(s)
  {
    forall x, y | (x, y) in EdgesOf(s)
      ensures x in black
    {
      assert x in Members(order);
    }
    SettledEverywhere(EdgesOf(s), black);
  }

  /** A node joins the current path. */
  lemma Entered(visited: map<string, int>, n: string)
    requires IsColouring(visited) && n !in visited
    ensures var marked := visited[n := 1];
      && IsColouring(marked) && Coloured(marked, 2) == Coloured(visited, 2)
      && Coloured(marked, 1) == Coloured(visited, 1) + {n} && n !in Coloured(visited, 1)
  {
  }

  /** A node leaves the current path when all that it depends on is done. */
  lemma Left(e: Edges, visited: map<string, int>, grey: set<string>, n: string)
    requires IsColouring(visited) && Coloured(visited, 1) == grey + {n} && n !in grey
    requires Settled(e, Coloured(visited, 2)) && forall y | (n, y) in e :: y in Coloured(visited, 2)
    ensures var marked := visited[n := 2];
      && IsColouring(marked) && Coloured(marked, 1) == grey && Coloured(marked, 2) == Coloured(visited, 2) + {n}
      && Settled(e, Coloured(marked, 2))
  {
    assert n in Coloured(visited, 1);
    SettleNode(e, Coloured(visited, 2), n);
    assert Coloured(visited[n := 2], 2) == Coloured(visited, 2) + {n};
  }

  /** One more step along the current path: all of it reaches the new node, so a step back closes a cycle. */
  lemma PathExtends(e: Edges, grey: set<string>, nodeId: string, dep: string)
    requires (nodeId, dep) in e && forall g | g in grey :: Reach(e, g, nodeId)
    ensures forall g | g in grey + {nodeId} :: Reach(e, g, dep)
    ensures dep in grey + {nodeId} ==> !Acyclic(e)
  {
    EdgeReaches(e, nodeId, dep);
    forall g | g in grey
      ensures Reach(e, g, dep)
    {
      ReachTransitive(e, g, nodeId, dep);
    }
  }

  class TaskDAG {
    const dagId: nat
    var order: seq<string>            // insertion order of the node dictionary
    var nodes: map<string, TaskNode>
    var version: nat

    ghost predicate Valid()
      reads this`nodes, this`order
    {
      && NoDuplicates(order)
      && (forall k :: k in order <==> k in nodes)
      && (forall k | k in nodes :: nodes[k].nodeId == k)
    }

    constructor (dagId: nat)
      ensures Valid() && this.dagId == dagId && order == [] && nodes == map[] && version == 1
    {
      this.dagId := dagId;
      this.order := [];
      this.nodes := map[];
      this.version := 1;
    }

    ghost function View(): (s: DagState)
      reads this`nodes, nodes.Values
      ensures s.Keys == nodes.Keys
    {
      map k | k in nodes :: nodes[k].State()
    }

    /** nodes[node_id] = node, for a new key. */
    method Put(node: TaskNode)
      requires Valid() && node.nodeId !in nodes
      modifies this`nodes, this`order
      ensures Valid() && nodes == old(nodes)[node.nodeId := node] && order == old(order) + [node.nodeId]
      ensures View() == old(View())[node.nodeId := node.State()]
    {
      nodes := nodes[node.nodeId := node];
      order := order + [node.nodeId];
    }

    /** del nodes[node_id], for the key put in last. */
    method DropLast()
      requires Valid() && order != []
      modifies this`nodes, this`order
      ensures Valid() && nodes == old(nodes) - {old(order)[|old(order)| - 1]} && order == old(order)[..|old(order)| - 1]
      ensures View() == old(View()) - {old(order)[|old(order)| - 1]}
    {
      nodes := nodes - {order[|order| - 1]};
      order := order[..|order| - 1];
    }

    method BumpVersion()
      modifies this`version
      ensures version == old(version) + 1 && View() == old(View())
    {
      version := version + 1;
    }

    method SetStatus(id: string, status: TaskNodeStatus)
      requires Valid() && id in nodes
      modifies nodes[id]
      ensures View() == old(View())[id := old(View())[id].(status := status)]
    {
      nodes[id].status := status;
    }

    /** A change that the source records in the node's version. */
    method Revise(id: string, dependencies: seq<string>, status: TaskNodeStatus)
      requires Valid() && id in nodes
      modifies nodes[id]
      ensures var n := old(View())[id];
        View() == old(View())[id := n.(deps := dependencies, status := status, version := n.version + 1)]
    {
      var node := nodes[id];
      node.dependencies := dependencies;
      node.status := status;
      node.version := node.version + 1;
    }

    /** The ids that a node depends on; none for an id that is not a node. */
    function DependenciesOf(nodeId: string): (deps: seq<string>)
      reads this`nodes, nodes.Values
      ensures forall y :: y in deps <==> (nodeId, y) in EdgesOf(View())
    {
      if nodeId in nodes then
        assert View()[nodeId].deps == nodes[nodeId].dependencies;
        nodes[nodeId].dependencies
      else []
    }

    /** Three-colour depth-first search from one node; 1 is "on the current path", 2 is "done". */
    method Dfs(nodeId: string, visited: map<string, int>, ghost e: Edges, ghost universe: set<string>)
      returns (ok: bool, visited': map<string, int>)
      requires e == EdgesOf(View()) && IsColouring(visited) && nodeId !in visited && nodeId in universe
      requires forall x, y | (x, y) in e :: y in universe
      requires Settled(e, Coloured(visited, 2))
      requires forall g | g in Coloured(visited, 1) :: Reach(e, g, nodeId)
      ensures !ok ==> !Acyclic(e)
      ensures ok ==> IsColouring(visited') && Settled(e, Coloured(visited', 2))
      ensures ok ==> nodeId in Coloured(visited', 2) && Coloured(visited, 2) <= Coloured(visited', 2)
      ensures ok ==> Coloured(visited', 1) == Coloured(visited, 1)
      decreases universe - visited.Keys
    {
      ghost var grey, black := Coloured(visited, 1), Coloured(visited, 2);
      Entered(visited, nodeId);
      visited' := visited[nodeId := 1];
      var deps := DependenciesOf(nodeId);
      for j := 0 to |deps|
        invariant IsColouring(visited') && Coloured(visited', 1) == grey + {nodeId}
        invariant Settled(e, Coloured(visited', 2)) && black <= Coloured(visited', 2)
        invariant universe - visited'.Keys < universe - visited.Keys
        invariant forall i | 0 <= i < j :: deps[i] in Coloured(visited', 2)
      {
        var dep := deps[j];
        PathExtends(e, grey, nodeId, dep);
        if dep in visited' && visited'[dep] == 1 {
          assert dep in Coloured(visited', 1);
          return false, visited';
        }
        if !(dep in visited' && visited'[dep] == 2) {
          ghost var before := visited';
          ok, visited' := Dfs(dep, visited', e, universe);
          if !ok {
            return false, visited';
          }
          KeysOf(before);
          KeysOf(visited');
        }
      }
      Left(e, visited', grey, nodeId);
      return true, visited'[nodeId := 2];
    }

    /** The search from nid, unless an earlier one has been there. */
    method SearchFrom(nid: string, visited: map<string, int>, ghost e: Edges, ghost universe: set<string>)
      returns (ok: bool, visited': map<string, int>)
      requires e == EdgesOf(View()) && nid in universe && (forall x, y | (x, y) in e :: y in universe)
      requires IsColouring(visited) && Coloured(visited, 1) == {} && Settled(e, Coloured(visited, 2))
      ensures !ok ==> !Acyclic(e)
      ensures ok ==> IsColouring(visited') && Coloured(visited', 1) == {} && Settled(e, Coloured(visited', 2))
      ensures ok ==> nid in Coloured(visited', 2) && Coloured(visited, 2) <= Coloured(visited', 2)
    {
      if nid in visited && visited[nid] == 2 {
        return true, visited;
      }
      assert nid !in visited by {
        assert nid !in Coloured(visited, 1);
      }
      ok, visited' := Dfs(nid, visited, e, universe);
    }

    /** True exactly when no dependency cycle exists; dangling ids count as leaves. */
    method ValidateAcyclic() returns (ok: bool)
      requires Valid()
      ensures ok <==> AcyclicDag(View())
    {
      ghost var s := View();
      ghost var e, black := EdgesOf(s), {};
      ghost var universe := UniverseOf(s.Keys, e);
      var visited: map<string, int> := map[];
      for i := 0 to |order|
        invariant IsColouring(visited) && Coloured(visited, 1) == {} && Coloured(visited, 2) == black
        invariant Settled(e, black) && Members(order[..i]) <= black
      {
        ghost var before, next := black, i + 1;
        ok, visited := SearchFrom(order[i], visited, e, universe);
        if !ok {
          return false;
        }
        black := Coloured(visited, 2);
        OneMoreSettled(order, i, next, before, black);
      }
      assert order[..|order|] == order;
      AllSettled(s, order, black);
      return true;
    }
  }
}
