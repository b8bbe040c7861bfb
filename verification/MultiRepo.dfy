/** Dependencies between repositories (engineering/multirepo.py). */
module MultiRepo {
  import opened Digraphs
  import opened Sequences

  datatype DependencyEdge = DependencyEdge(source: string, target: string, ecosystem: string, name: string,
                                           manifest: string)

  /** (a, b): b depends on a, so what happens to a reaches b. */
  ghost function Downstreams(edges: seq<DependencyEdge>): (e: Edges)
    ensures forall a, b :: (a, b) in e <==> exists i :: 0 <= i < |edges| && edges[i].target == a && edges[i].source == b
  {
    set i | 0 <= i < |edges| :: (edges[i].target, edges[i].source)
  }

  lemma FullDepth(edges: seq<DependencyEdge>, repo: string, depth: nat, repositories: set<string>)
    ensures (forall x | x in edges :: x.source in repositories && x.target in repositories) && repo in repositories
            && depth >= |repositories| ==>
              forall b ::
                b in Ball(Downstreams(edges), {repo}, depth) <==> b == repo || Reach(Downstreams(edges), repo, b)
  {
    var e := Downstreams(edges);
    var known := forall x | x in edges :: x.source in repositories && x.target in repositories;
    if known && repo in repositories && depth >= |repositories| {
      forall x, y | (x, y) in e
        ensures y in repositories
      {
        var i :| 0 <= i < |edges| && edges[i].target == x && edges[i].source == y;
        assert edges[i] in edges;
      }
      forall b
        ensures b in Ball(e, {repo}, depth) <==> b == repo || Reach(e, repo, b)
      {
        DeepBallIsClosure(e, {repo}, repositories, depth, b);
      }
    }
  }

  class MultiRepositoryGraph {
    var repositories: set<string>
    var edges: seq<DependencyEdge>

    constructor (repositories: set<string>, edges: seq<DependencyEdge>)
      ensures this.repositories == repositories && this.edges == edges
    {
      this.repositories := repositories;
      this.edges := edges;
    }

    method NextFrontier(frontier: set<string>, impacted: set<string>) returns (next: set<string>)
      requires frontier <= impacted && InnerClosed(Downstreams(edges), impacted, frontier)
      ensures impacted + next == impacted + Successors(Downstreams(edges), impacted) && next !! impacted
    {
      ghost var e := Downstreams(edges);
      next := set i | 0 <= i < |edges| && edges[i].target in frontier && edges[i].source !in impacted ::
        edges[i].source;
      forall b | b in next
        ensures b in Successors(e, impacted)
      {
        var i :| 0 <= i < |edges| && edges[i].target in frontier && edges[i].source == b;
        assert (edges[i].target, b) in e && (edges[i].target, b).1 in Successors(e, impacted);
      }
      forall b | b in Successors(e, impacted)
        ensures b in impacted + next
      {
        var a :| (a, b) in e && a in impacted;
        var i :| 0 <= i < |edges| && edges[i].target == a && edges[i].source == b;
        assert a in frontier || b in impacted;
      }
    }

    /** The loop over the frontiers. */
    method Search(repo: string, maxDepth: int) returns (impacted: set<string>)
      ensures impacted == Ball(Downstreams(edges), {repo}, Depth(maxDepth))
    {
      ghost var e := Downstreams(edges);
      impacted := {repo};
      var frontier := {repo};
      var depth := 0;
      while depth < maxDepth
        invariant 0 <= depth <= Depth(maxDepth) && SearchedTo(e, {repo}, depth, impacted, frontier)
        decreases maxDepth - depth
      {
        var next := NextFrontier(frontier, impacted);
        RoundSearches(e, {repo}, depth, impacted, frontier, next);
        depth := depth + 1;
        impacted, frontier := impacted + next, next;
        if next == {} {
          break;
        }
      }
      SearchEnds(e, {repo}, depth, Depth(maxDepth), impacted, frontier);
    }

    /** Exactly the other repositories with a dependency path of at most maxDepth edges to repo, sorted. */
    method Downstream(repo: string, maxDepth: int) returns (impacted: seq<string>)
      ensures Sorted(impacted)
      ensures forall b :: b in impacted <==> b != repo && ReachWithin(Downstreams(edges), Depth(maxDepth), repo, b)
      ensures (forall x | x in edges :: x.source in repositories && x.target in repositories) && repo in repositories
              && maxDepth >= |repositories| ==>
                forall b :: b in impacted <==> b != repo && Reach(Downstreams(edges), repo, b)
    {
      var found := Search(repo, maxDepth);
      impacted := SortedList(found - {repo});
      FullDepth(edges, repo, Depth(maxDepth), repositories);
      forall b
        ensures b in impacted <==> b != repo && b in found
        ensures b in impacted <==> b != repo && ReachWithin(Downstreams(edges), Depth(maxDepth), repo, b)
      {
        assert b in impacted <==> b in Members(impacted);
        BallIsBoundedReach(Downstreams(edges), {repo}, Depth(maxDepth), b);
      }
    }
  }
}
