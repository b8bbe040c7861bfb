/** The requirement-oriented plan (engineering/planning.py, HierarchicalEngineeringPlanner): shared
    architecture, then one analyse -> implement -> verify chain per requirement, then integration.
    The slug that goes into a node id is any function of the requirement id. */
module Planner {
  import opened Digraphs
  import opened Schemas
  import opened Sequences
  import opened DagMutator
  import opened DagInvariants
  import opened Decimal

  datatype Stage = Analyze | Implement | Verify

  type Slug = string -> string

  /** The ids of a plan: two shared nodes, and one node per stage of every requirement (from 1). */
  datatype Names = Names(architecture: string, integration: string, stage: (nat, Stage) -> string)

  /** n requirements get 3n + 2 different ids. */
  ghost predicate Distinct(names: Names, n: nat) {
    && names.architecture != names.integration
    && (forall i, a | 1 <= i <= n :: names.stage(i, a) != names.architecture && names.stage(i, a) != names.integration)
    && (forall i, j, a, b | 1 <= i <= n && 1 <= j <= n && names.stage(i, a) == names.stage(j, b) :: i == j && a == b)
  }

  // ---- Node ids never collide ----

  function Suffix(stage: Stage): string {
    match stage
    case Analyze => "_analyze"
    case Implement => "_implement"
    case Verify => "_verify"
  }

  /** f"eng_{index:03d}_{slug}_{stage}" */
  function StageId(i: nat, slug: string, stage: Stage): string {
    "eng_" + Pad3(i) + "_" + slug + Suffix(stage)
  }

  /** What the ids look like. */
  lemma StageIdsRead()
    ensures StageId(1, "s", Analyze) == "eng_001_s_analyze"
    ensures StageId(1, "s", Implement) == "eng_001_s_implement"
    ensures StageId(1, "s", Verify) == "eng_001_s_verify"
  {
    assert Zeros(1) == "0" && Zeros(2) == "00" && Pad3(1) == "001";
  }

  function NamesFor(slug: Slug, reqs: seq<string>): Names {
    Names("eng_000_architecture", "eng_900_integration",
          (i: nat, stage: Stage) => StageId(i, if 1 <= i <= |reqs| then slug(reqs[i - 1]) else "", stage))
  }

  /** What identifies a node id: its number, and what follows the number. */
  function NumberedId(i: nat, rest: string): string {
    "eng_" + (Pad3(i) + ['_'] + rest)
  }

  lemma NumberedIdsDiffer(m: nat, n: nat, x: string, y: string)
    requires NumberedId(m, x) == NumberedId(n, y)
    ensures m == n && x == y
  {
    var p, q := Pad3(m) + ['_'] + x, Pad3(n) + ['_'] + y;
    assert NumberedId(m, x)[4..] == p && NumberedId(n, y)[4..] == q;
    PaddedIsInjective(m, n, '_', x, y);
  }

  lemma StageIdIsNumbered(i: nat, slug: string, stage: Stage)
    ensures StageId(i, slug, stage) == NumberedId(i, slug + Suffix(stage))
  {
  }

  lemma ArchitectureIsNumbered()
    ensures "eng_000_architecture" == NumberedId(0, "architecture")
  {
    assert Digits(0) == "0" && Zeros(2) == "00" by { assert Zeros(1) == "0"; }
    assert Pad3(0) == "000";
    assert "eng_" + ("000" + ['_'] + "architecture") == "eng_000_architecture";
  }

  lemma IntegrationIsNumbered()
    ensures "eng_900_integration" == NumberedId(900, "integration")
  {
    assert Digits(900) == "900" by { assert Digits(90) == "90" by { assert Digits(9) == "9"; } }
    assert Pad3(900) == "900";
    assert "eng_" + ("900" + ['_'] + "integration") == "eng_900_integration";
  }

  lemma SuffixesDiffer(slug: string, slug': string, a: Stage, b: Stage)
    ensures slug + Suffix(a) == slug' + Suffix(b) ==> a == b
    ensures slug + Suffix(a) != "integration"
  {
    var x, y := slug + Suffix(a), slug' + Suffix(b);
    assert x[|x| - 1] == Suffix(a)[|Suffix(a)| - 1] && y[|y| - 1] == Suffix(b)[|Suffix(b)| - 1];
    assert "integration"[|"integration"| - 1] == 'n';
  }

  lemma StageIdsDiffer(i: nat, j: nat, slug: string, slug': string, a: Stage, b: Stage)
    ensures StageId(i, slug, a) == StageId(j, slug', b) ==> i == j && a == b
    ensures i >= 1 ==> StageId(i, slug, a) != "eng_000_architecture" && StageId(i, slug, a) != "eng_900_integration"
  {
    StageIdIsNumbered(i, slug, a);
    StageIdIsNumbered(j, slug', b);
    ArchitectureIsNumbered();
    IntegrationIsNumbered();
    SuffixesDiffer(slug, slug', a, b);
    if StageId(i, slug, a) == StageId(j, slug', b) {
      NumberedIdsDiffer(i, j, slug + Suffix(a), slug' + Suffix(b));
    }
    if StageId(i, slug, a) == "eng_000_architecture" {
      NumberedIdsDiffer(i, 0, slug + Suffix(a), "architecture");
    }
    if StageId(i, slug, a) == "eng_900_integration" {
      NumberedIdsDiffer(i, 900, slug + Suffix(a), "integration");
    }
  }

  /** Whatever the slugs are and however many requirements there are, no two nodes get the same id:
      not even requirement 900 collides with the integration node. */
  lemma NamesAreDistinct(slug: Slug, reqs: seq<string>)
    ensures Distinct(NamesFor(slug, reqs), |reqs|)
  {
    var names := NamesFor(slug, reqs);
    assert "eng_000_architecture"[4] != "eng_900_integration"[4];
    forall i: nat, j: nat, a, b
      ensures names.stage(i, a) == names.stage(j, b) ==> i == j && a == b
      ensures i >= 1 ==> names.stage(i, a) != names.architecture && names.stage(i, a) != names.integration
    {
      var slugI := if 1 <= i <= |reqs| then slug(reqs[i - 1]) else "";
      var slugJ := if 1 <= j <= |reqs| then slug(reqs[j - 1]) else "";
      StageIdsDiffer(i, j, slugI, slugJ, a, b);
    }
  }

  // ---- The plan ----

  function Before(names: Names, i: nat, stage: Stage): string {
    match stage
    case Analyze => names.architecture
    case Implement => names.stage(i, Analyze)
    case Verify => names.stage(i, Implement)
  }

  function StageNode(dagId: nat, names: Names, reqs: seq<string>, i: nat, stage: Stage): NodeState
    requires 1 <= i <= |reqs|
  {
    NodeState(dagId, [reqs[i - 1]], [Before(names, i, stage)], Planned, 1)
  }

  function VerifyIds(names: Names, k: nat): (ids: seq<string>)
    ensures |ids| == k && forall i | 0 <= i < k :: ids[i] == names.stage(i + 1, Verify)
  {
    if k == 0 then [] else VerifyIds(names, k - 1) + [names.stage(k, Verify)]
  }

  /** s with the three nodes of a requirement. */
  ghost function ChainAdded(s: DagState, dagId: nat, requirement: string, architecture: string, analyze: string,
                            implement: string, verify: string): DagState {
    s[analyze := NodeState(dagId, [requirement], [architecture], Planned, 1)]
     [implement := NodeState(dagId, [requirement], [analyze], Planned, 1)]
     [verify := NodeState(dagId, [requirement], [implement], Planned, 1)]
  }

  ghost function AddChain(s: DagState, dagId: nat, names: Names, reqs: seq<string>, i: nat): DagState
    requires 1 <= i <= |reqs|
  {
    ChainAdded(s, dagId, reqs[i - 1], names.architecture, names.stage(i, Analyze), names.stage(i, Implement),
               names.stage(i, Verify))
  }

  /** Architecture and the first k chains. */
  ghost function PlanUpTo(dagId: nat, names: Names, reqs: seq<string>, k: nat): DagState
    requires k <= |reqs|
  {
    if k == 0 then map[names.architecture := NodeState(dagId, reqs, [], Ready, 1)]
    else AddChain(PlanUpTo(dagId, names, reqs, k - 1), dagId, names, reqs, k)
  }

  ghost function PlanState(dagId: nat, names: Names, reqs: seq<string>): DagState {
    var integration := NodeState(dagId, reqs, VerifyIds(names, |reqs|), Planned, 1);
    PlanUpTo(dagId, names, reqs, |reqs|)[names.integration := integration]
  }

  ghost predicate InChains(names: Names, k: nat, x: string) {
    exists i, stage :: 1 <= i <= k && x == names.stage(i, stage)
  }

  lemma {:induction false} PlanUpToKeys(dagId: nat, names: Names, reqs: seq<string>, k: nat, x: string)
    requires k <= |reqs|
    ensures x in PlanUpTo(dagId, names, reqs, k) <==> x == names.architecture || InChains(names, k, x)
  {
    if k > 0 {
      PlanUpToKeys(dagId, names, reqs, k - 1, x);
      if InChains(names, k - 1, x) {
        var i, stage :| 1 <= i <= k - 1 && x == names.stage(i, stage);
        assert 1 <= i <= k;
      }
      if InChains(names, k, x) && !InChains(names, k - 1, x) {
        var i, stage :| 1 <= i <= k && x == names.stage(i, stage);
        assert i == k && (stage == Analyze || stage == Implement || stage == Verify);
      }
    }
  }

  lemma {:induction false} PlanUpToStage(dagId: nat, names: Names, reqs: seq<string>, k: nat, i: nat, stage: Stage)
    requires 1 <= i <= k <= |reqs| && Distinct(names, |reqs|)
    ensures names.stage(i, stage) in PlanUpTo(dagId, names, reqs, k)
    ensures PlanUpTo(dagId, names, reqs, k)[names.stage(i, stage)] == StageNode(dagId, names, reqs, i, stage)
  {
    if i < k {
      PlanUpToStage(dagId, names, reqs, k - 1, i, stage);
    } else {
      assert stage == Analyze || stage == Implement || stage == Verify;
    }
  }

  lemma {:induction false} PlanUpToArchitecture(dagId: nat, names: Names, reqs: seq<string>, k: nat)
    requires k <= |reqs| && Distinct(names, |reqs|)
    ensures names.architecture in PlanUpTo(dagId, names, reqs, k)
    ensures PlanUpTo(dagId, names, reqs, k)[names.architecture] == NodeState(dagId, reqs, [], Ready, 1)
  {
    if k > 0 {
      PlanUpToArchitecture(dagId, names, reqs, k - 1);
    }
  }

  lemma PlanUpToContents(dagId: nat, names: Names, reqs: seq<string>, k: nat)
    requires k <= |reqs| && Distinct(names, |reqs|)
    ensures var s := PlanUpTo(dagId, names, reqs, k);
      && (forall x :: x in s <==> x == names.architecture || InChains(names, k, x))
      && s[names.architecture] == NodeState(dagId, reqs, [], Ready, 1)
      && (forall i, stage | 1 <= i <= k ::
           names.stage(i, stage) in s && s[names.stage(i, stage)] == StageNode(dagId, names, reqs, i, stage))
  {
    var s := PlanUpTo(dagId, names, reqs, k);
    forall x
      ensures x in s <==> x == names.architecture || InChains(names, k, x)
    {
      PlanUpToKeys(dagId, names, reqs, k, x);
    }
    PlanUpToArchitecture(dagId, names, reqs, k);
    forall i, stage | 1 <= i <= k
      ensures names.stage(i, stage) in s && s[names.stage(i, stage)] == StageNode(dagId, names, reqs, i, stage)
    {
      PlanUpToStage(dagId, names, reqs, k, i, stage);
    }
  }

  ghost predicate StageShaped(n: NodeState, names: Names, reqs: seq<string>, i: nat, stage: Stage)
    requires 1 <= i <= |reqs|
  {
    n.deps == [Before(names, i, stage)] && n.refs == [reqs[i - 1]]
  }

  /** A DAG with the nodes, references and dependencies of the plan, whatever the statuses. */
  ghost predicate PlanShaped(s: DagState, names: Names, reqs: seq<string>) {
    && (forall x :: x in s <==> x == names.architecture || x == names.integration || InChains(names, |reqs|, x))
    && s[names.architecture].deps == [] && s[names.architecture].refs == reqs
    && s[names.integration].deps == VerifyIds(names, |reqs|) && s[names.integration].refs == reqs
    && forall i, stage | 1 <= i <= |reqs| ::
         names.stage(i, stage) in s && StageShaped(s[names.stage(i, stage)], names, reqs, i, stage)
  }

  lemma PlanStatuses(dagId: nat, names: Names, reqs: seq<string>)
    requires Distinct(names, |reqs|)
    ensures var s := PlanState(dagId, names, reqs);
      forall x | x in s ::
        && s[x].dagId == dagId && s[x].version == 1
        && s[x].status == if x == names.architecture then Ready else Planned
  {
    var s := PlanState(dagId, names, reqs);
    PlanUpToArchitecture(dagId, names, reqs, |reqs|);
    forall x | x in s
      ensures s[x].dagId == dagId && s[x].version == 1
      ensures s[x].status == if x == names.architecture then Ready else Planned
    {
      PlanUpToKeys(dagId, names, reqs, |reqs|, x);
      if x != names.architecture && x != names.integration {
        var i, stage :| 1 <= i <= |reqs| && x == names.stage(i, stage);
        PlanUpToStage(dagId, names, reqs, |reqs|, i, stage);
      }
    }
  }

  lemma PlanIsShaped(dagId: nat, names: Names, reqs: seq<string>)
    requires Distinct(names, |reqs|)
    ensures PlanShaped(PlanState(dagId, names, reqs), names, reqs)
    ensures var s := PlanState(dagId, names, reqs);
      forall x | x in s ::
        && s[x].dagId == dagId && s[x].version == 1
        && s[x].status == if x == names.architecture then Ready else Planned
  {
    var s, u := PlanState(dagId, names, reqs), PlanUpTo(dagId, names, reqs, |reqs|);
    forall x
      ensures x in s <==> x == names.architecture || x == names.integration || InChains(names, |reqs|, x)
    {
      PlanUpToKeys(dagId, names, reqs, |reqs|, x);
    }
    PlanUpToArchitecture(dagId, names, reqs, |reqs|);
    forall i, stage | 1 <= i <= |reqs|
      ensures names.stage(i, stage) in s && StageShaped(s[names.stage(i, stage)], names, reqs, i, stage)
    {
      PlanUpToStage(dagId, names, reqs, |reqs|, i, stage);
    }
    PlanStatuses(dagId, names, reqs);
  }

  // ---- What the shape means ----

  lemma NewChainIsFresh(dagId: nat, names: Names, reqs: seq<string>, k: nat)
    requires 1 <= k <= |reqs| && Distinct(names, |reqs|)
    ensures forall stage :: names.stage(k, stage) !in PlanUpTo(dagId, names, reqs, k - 1)
    ensures names.architecture in PlanUpTo(dagId, names, reqs, k - 1)
  {
    PlanUpToKeys(dagId, names, reqs, k - 1, names.architecture);
    forall stage
      ensures names.stage(k, stage) !in PlanUpTo(dagId, names, reqs, k - 1)
    {
      PlanUpToKeys(dagId, names, reqs, k - 1, names.stage(k, stage));
    }
  }

  lemma ChainKeepsAcyclic(s: DagState, dagId: nat, requirement: string, architecture: string, analyze: string,
                          implement: string, verify: string)
    requires AcyclicDag(s) && NoDangling(s) && architecture in s && analyze !in s && implement !in s && verify !in s
    requires analyze != implement && verify !in {analyze, implement}
    ensures var t := ChainAdded(s, dagId, requirement, architecture, analyze, implement, verify);
      AcyclicDag(t) && NoDangling(t)
  {
    var first := NodeState(dagId, [requirement], [architecture], Planned, 1);
    var second := NodeState(dagId, [requirement], [analyze], Planned, 1);
    FreshNodeClosesNoCycle(s, analyze, first);
    FreshNodeClosesNoCycle(s[analyze := first], implement, second);
    FreshNodeClosesNoCycle(s[analyze := first][implement := second], verify,
                           NodeState(dagId, [requirement], [implement], Planned, 1));
  }

  lemma {:induction false} PlanUpToAcyclic(dagId: nat, names: Names, reqs: seq<string>, k: nat)
    requires k <= |reqs| && Distinct(names, |reqs|)
    ensures AcyclicDag(PlanUpTo(dagId, names, reqs, k)) && NoDangling(PlanUpTo(dagId, names, reqs, k))
  {
    var s := PlanUpTo(dagId, names, reqs, k);
    if k == 0 {
      forall x
        ensures !Reach(EdgesOf(s), x, x)
      {
        if Reach(EdgesOf(s), x, x) {
          var m := FirstStep(EdgesOf(s), x, x);
        }
      }
    } else {
      var s0 := PlanUpTo(dagId, names, reqs, k - 1);
      PlanUpToAcyclic(dagId, names, reqs, k - 1);
      NewChainIsFresh(dagId, names, reqs, k);
      ChainKeepsAcyclic(s0, dagId, reqs[k - 1], names.architecture, names.stage(k, Analyze), names.stage(k, Implement),
                        names.stage(k, Verify));
    }
  }

  lemma VerifiersAreKnown(dagId: nat, names: Names, reqs: seq<string>)
    requires Distinct(names, |reqs|)
    ensures forall d | d in VerifyIds(names, |reqs|) :: d in PlanUpTo(dagId, names, reqs, |reqs|)
  {
    var ids := VerifyIds(names, |reqs|);
    forall d | d in ids
      ensures d in PlanUpTo(dagId, names, reqs, |reqs|)
    {
      var i :| 0 <= i < |ids| && ids[i] == d;
      PlanUpToStage(dagId, names, reqs, |reqs|, i + 1, Verify);
    }
  }

  /** The planner's own check can never find a cycle. */
  lemma PlanIsAcyclic(dagId: nat, names: Names, reqs: seq<string>)
    requires Distinct(names, |reqs|)
    ensures AcyclicDag(PlanState(dagId, names, reqs)) && NoDangling(PlanState(dagId, names, reqs))
    ensures DependencyClosed(PlanState(dagId, names, reqs))
  {
    PlanUpToAcyclic(dagId, names, reqs, |reqs|);
    PlanUpToContents(dagId, names, reqs, |reqs|);
    PlanIsShaped(dagId, names, reqs);
    var s, n := PlanUpTo(dagId, names, reqs, |reqs|), PlanState(dagId, names, reqs)[names.integration];
    VerifiersAreKnown(dagId, names, reqs);
    FreshNodeClosesNoCycle(s, names.integration, n);
  }

  /** The architecture node comes before every chain, and the stages of a chain in their order. */
  lemma ChainsAreOrdered(s: DagState, names: Names, reqs: seq<string>, i: nat, stage: Stage)
    requires PlanShaped(s, names, reqs) && 1 <= i <= |reqs|
    ensures Reach(EdgesOf(s), names.stage(i, stage), names.architecture)
    ensures stage != Analyze ==> Reach(EdgesOf(s), names.stage(i, stage), names.stage(i, Analyze))
    ensures stage == Verify ==> Reach(EdgesOf(s), names.stage(i, stage), names.stage(i, Implement))
    decreases if stage == Analyze then 0 else if stage == Implement then 1 else 2
  {
    var e := EdgesOf(s);
    var before := Before(names, i, stage);
    assert s[names.stage(i, stage)].deps[0] == before;
    EdgeReaches(e, names.stage(i, stage), before);
    if stage != Analyze {
      ChainsAreOrdered(s, names, reqs, i, if stage == Verify then Implement else Analyze);
      ReachTransitive(e, names.stage(i, stage), before, names.architecture);
      if stage == Verify {
        ReachTransitive(e, names.stage(i, stage), before, names.stage(i, Analyze));
      }
    }
  }

  lemma IntegrationAfterStage(s: DagState, names: Names, reqs: seq<string>, i: nat, stage: Stage)
    requires PlanShaped(s, names, reqs) && 1 <= i <= |reqs|
    ensures Reach(EdgesOf(s), names.integration, names.stage(i, stage))
    ensures Reach(EdgesOf(s), names.integration, names.architecture)
  {
    var v := names.stage(i, Verify);
    assert s[names.integration].deps[i - 1] == v;
    EdgeReaches(EdgesOf(s), names.integration, v);
    ChainsAreOrdered(s, names, reqs, i, Verify);
    ReachTransitive(EdgesOf(s), names.integration, v, names.architecture);
    if stage != Verify {
      ReachTransitive(EdgesOf(s), names.integration, v, names.stage(i, stage));
    }
  }

  /** The integration node comes after every other node. */
  lemma IntegrationLast(s: DagState, names: Names, reqs: seq<string>, x: string)
    requires PlanShaped(s, names, reqs) && reqs != [] && x in s && x != names.integration
    ensures Reach(EdgesOf(s), names.integration, x)
  {
    if x == names.architecture {
      IntegrationAfterStage(s, names, reqs, 1, Analyze);
    } else {
      var i, stage :| 1 <= i <= |reqs| && x == names.stage(i, stage);
      IntegrationAfterStage(s, names, reqs, i, stage);
    }
  }

  /** What a chain waits for: its own stages and the architecture node. */
  ghost function ChainNodes(names: Names, i: nat): set<string> {
    {names.architecture, names.stage(i, Analyze), names.stage(i, Implement), names.stage(i, Verify)}
  }

  lemma ChainIsClosed(s: DagState, names: Names, reqs: seq<string>, i: nat, x: string, y: string)
    requires PlanShaped(s, names, reqs) && 1 <= i <= |reqs| && x in ChainNodes(names, i) && (x, y) in EdgesOf(s)
    ensures y in ChainNodes(names, i)
  {
    assert x in s && y in s[x].deps;
    if x != names.architecture {
      var stage :=
        if x == names.stage(i, Analyze) then Analyze
        else if x == names.stage(i, Implement) then Implement
        else Verify;
      assert StageShaped(s[names.stage(i, stage)], names, reqs, i, stage);
    }
  }

  /** Nodes of different requirements are unordered: the chains can run in parallel. */
  lemma ChainsAreIndependent(s: DagState, names: Names, reqs: seq<string>, i: nat, j: nat, a: Stage, b: Stage)
    requires PlanShaped(s, names, reqs) && Distinct(names, |reqs|) && 1 <= i <= |reqs| && 1 <= j <= |reqs| && i != j
    ensures !Reach(EdgesOf(s), names.stage(i, a), names.stage(j, b))
  {
    var chain := iset x | x in ChainNodes(names, i);
    assert names.stage(i, a) in chain && names.stage(j, b) !in chain;
    forall x, y | (x, y) in EdgesOf(s) && x in chain
      ensures y in chain
    {
      ChainIsClosed(s, names, reqs, i, x, y);
    }
    if Reach(EdgesOf(s), names.stage(i, a), names.stage(j, b)) {
      ClosedContainsReach(EdgesOf(s), chain, names.stage(i, a), names.stage(j, b));
    }
  }

  /** Every node cites requirements of the contract, and only those. */
  lemma PlanCitesContract(s: DagState, names: Names, reqs: seq<string>, x: string)
    requires PlanShaped(s, names, reqs) && reqs != [] && x in s
    ensures s[x].refs != [] && forall r | r in s[x].refs :: r in reqs
  {
    if x != names.architecture && x != names.integration {
      var i, stage :| 1 <= i <= |reqs| && x == names.stage(i, stage);
    }
  }

  // ---- plan_contract ----

  /** The keys of the plan's dictionary in the order they are put in. */
  ghost function PlanOrder(names: Names, k: nat): seq<string> {
    if k == 0 then [names.architecture]
    else PlanOrder(names, k - 1) + [names.stage(k, Analyze)] + [names.stage(k, Implement)] + [names.stage(k, Verify)]
  }

  lemma {:induction false} PlanOrderSize(names: Names, k: nat)
    ensures |PlanOrder(names, k)| == 3 * k + 1
  {
    if k > 0 {
      PlanOrderSize(names, k - 1);
    }
  }

  datatype PlanResult = NoRequirements | NoAcceptanceCriteria | CyclicPlan | Plan(dag: TaskDAG)

  method AddStage(dag: TaskDAG, id: string, requirement: string, before: string, ghost now: DagState)
    requires dag.Valid() && id !in now && dag.View() == now
    modifies dag
    ensures dag.Valid() && dag.version == old(dag.version) && dag.order == old(dag.order) + [id]
    ensures dag.View() == now[id := NodeState(dag.dagId, [requirement], [before], Planned, 1)]
    ensures forall k | k in dag.nodes :: dag.nodes[k] in old(dag.nodes.Values) || fresh(dag.nodes[k])
  {
    var node := new TaskNode(id, dag.dagId, [requirement], [before], Planned);
    assert dag.View() == now;
    dag.Put(node);
  }

  method AddChainTo(dag: TaskDAG, requirement: string, architecture: string, analyze: string, implement: string,
                    verify: string, ghost s: DagState)
    requires dag.Valid() && dag.View() == s && analyze !in s && implement !in s && verify !in s
    requires analyze != implement && verify !in {analyze, implement}
    modifies dag
    ensures dag.Valid() && dag.version == old(dag.version)
    ensures forall k | k in dag.nodes :: dag.nodes[k] in old(dag.nodes.Values) || fresh(dag.nodes[k])
    ensures dag.View() == ChainAdded(s, dag.dagId, requirement, architecture, analyze, implement, verify)
    ensures dag.order == old(dag.order) + [analyze] + [implement] + [verify]
  {
    AddStage(dag, analyze, requirement, architecture, s);
    ghost var s1 := dag.View();
    assert implement !in s1 && verify !in s1;
    AddStage(dag, implement, requirement, analyze, s1);
    ghost var s2 := dag.View();
    assert verify !in s2;
    AddStage(dag, verify, requirement, implement, s2);
  }

  method StartPlan(dagId: nat, names: Names, reqs: seq<string>) returns (dag: TaskDAG)
    ensures fresh(dag) && dag.Valid() && dag.dagId == dagId && dag.version == 1
    ensures forall k | k in dag.nodes :: fresh(dag.nodes[k])
    ensures dag.View() == PlanUpTo(dagId, names, reqs, 0) && dag.order == [names.architecture]
  {
    dag := new TaskDAG(dagId);
    var architecture := new TaskNode(names.architecture, dagId, reqs, [], Ready);
    dag.Put(architecture);
  }

  method AddIntegration(dag: TaskDAG, names: Names, reqs: seq<string>, verificationNodes: seq<string>)
    requires dag.Valid() && Distinct(names, |reqs|) && verificationNodes == VerifyIds(names, |reqs|)
    requires dag.View() == PlanUpTo(dag.dagId, names, reqs, |reqs|)
    modifies dag
    ensures dag.Valid() && Grown(dag) && dag.version == old(dag.version)
    ensures dag.View() == PlanState(dag.dagId, names, reqs) && dag.order == old(dag.order) + [names.integration]
  {
    ghost var now := dag.View();
    PlanUpToKeys(dag.dagId, names, reqs, |reqs|, names.integration);
    assert names.integration !in now;
    var integration := new TaskNode(names.integration, dag.dagId, reqs, verificationNodes, Planned);
    assert dag.View() == now;
    dag.Put(integration);
  }

  /** Adds the chain of the index-th requirement. */
  method AddChainFor(dag: TaskDAG, names: Names, reqs: seq<string>, index: nat)
    requires dag.Valid() && Distinct(names, |reqs|) && 1 <= index <= |reqs|
    requires dag.View() == PlanUpTo(dag.dagId, names, reqs, index - 1) && dag.order == PlanOrder(names, index - 1)
    modifies dag
    ensures dag.Valid() && dag.version == old(dag.version)
    ensures forall k | k in dag.nodes :: dag.nodes[k] in old(dag.nodes.Values) || fresh(dag.nodes[k])
    ensures dag.View() == PlanUpTo(dag.dagId, names, reqs, index) && dag.order == PlanOrder(names, index)
  {
    NewChainIsFresh(dag.dagId, names, reqs, index);
    AddChainTo(dag, reqs[index - 1], names.architecture, names.stage(index, Analyze), names.stage(index, Implement),
               names.stage(index, Verify), PlanUpTo(dag.dagId, names, reqs, index - 1));
  }

  method Build(dagId: nat, names: Names, reqs: seq<string>) returns (dag: TaskDAG)
    requires Distinct(names, |reqs|)
    ensures fresh(dag) && dag.Valid() && dag.dagId == dagId && dag.version == 1
    ensures forall k | k in dag.nodes :: fresh(dag.nodes[k])
    ensures dag.View() == PlanState(dagId, names, reqs)
    ensures dag.order == PlanOrder(names, |reqs|) + [names.integration]
  {
    dag := StartPlan(dagId, names, reqs);
    var verificationNodes := [];
    for index := 1 to |reqs| + 1
      invariant fresh(dag) && dag.Valid() && dag.dagId == dagId && dag.version == 1
      invariant forall k | k in dag.nodes :: fresh(dag.nodes[k])
      invariant dag.View() == PlanUpTo(dagId, names, reqs, index - 1)
      invariant dag.order == PlanOrder(names, index - 1)
      invariant verificationNodes == VerifyIds(names, index - 1)
    {
      AddChainFor(dag, names, reqs, index);
      verificationNodes := verificationNodes + [names.stage(index, Verify)];
    }
    AddIntegration(dag, names, reqs, verificationNodes);
  }

  method PlanContract(dagId: nat, reqs: seq<string>, acceptanceCriteria: seq<string>, slug: Slug)
    returns (r: PlanResult)
    ensures r.NoRequirements? <==> reqs == []
    ensures r.NoAcceptanceCriteria? <==> reqs != [] && acceptanceCriteria == []
    ensures !r.CyclicPlan?
    ensures r.Plan? ==> fresh(r.dag) && r.dag.Valid() && forall k | k in r.dag.nodes :: fresh(r.dag.nodes[k])
    ensures r.Plan? ==> r.dag.View() == PlanState(dagId, NamesFor(slug, reqs), reqs)
    ensures r.Plan? ==> |r.dag.nodes| == 3 * |reqs| + 2 && r.dag.version == 1 && r.dag.dagId == dagId
    ensures r.Plan? ==> r.dag.order == PlanOrder(NamesFor(slug, reqs), |reqs|) + ["eng_900_integration"]
  {
    if reqs == [] {
      return NoRequirements;
    }
    if acceptanceCriteria == [] {
      return NoAcceptanceCriteria;
    }
    var names := NamesFor(slug, reqs);
    NamesAreDistinct(slug, reqs);
    var dag := Build(dagId, names, reqs);
    PlanIsAcyclic(dagId, names, reqs);
    var acyclic := dag.ValidateAcyclic();
    if !acyclic {
      return CyclicPlan;
    }
    PlanOrderSize(names, |reqs|);
    DistinctKeysCount(dag.order, dag.nodes.Keys);
    return Plan(dag);
  }
}
