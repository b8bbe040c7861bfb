/** Requirement worktrees (engineering/worktrees.py): one isolated branch per requirement, at most
    maxActive at a time. Git is an oracle whose answers are parameters. */
module Worktrees {
  import opened Digraphs
  import opened Sequences
  import opened Wrappers

  /** The part of a node that the manager looks at. */
  datatype Candidate = Candidate(id: string, refs: seq<string>)

  datatype Binding = Binding(nodeIds: set<string>, verifiedCommit: Option<string>, integratedCommit: Option<string>)

  datatype AcquireResult = Unscoped | Bound(binding: Binding) | CapacityReached | WorktreeNotCreated

  /** What git and the integration callback answer, in the order they are asked. */
  datatype GitAnswers = GitAnswers(commit: Option<string>, integrate: Option<string>, removed: bool, callbackOk: bool)

  datatype FinalizeResult = NothingBound | Integrated(binding: Binding) | Raised

  type Bindings = map<string, Binding>

  function SingleRequirement(refs: seq<string>): Option<string> {
    if |refs| == 1 then Some(refs[0]) else None
  }

  // ---- What a node does to the bindings ----

  /** The bindings once a node of the requirement has its worktree. */
  function Joined(bindings: Bindings, requirement: string, id: string): Bindings {
    var b := if requirement in bindings then bindings[requirement] else Binding({}, None, None);
    bindings[requirement := b.(nodeIds := b.nodeIds + {id})]
  }

  /** What is on record when git has been asked for what was missing; it is not asked to integrate what it could
      not commit. */
  function Advanced(b: Binding, git: GitAnswers): Binding {
    var commit := if b.verifiedCommit == None then git.commit else b.verifiedCommit;
    Binding(b.nodeIds, commit,
            if commit != None && b.integratedCommit == None then git.integrate else b.integratedCommit)
  }

  /** The worktree is given back: there is a commit, it has been integrated, and git has removed the worktree. */
  predicate GivenBack(b: Binding, git: GitAnswers) {
    && (b.verifiedCommit.Some? || git.commit.Some?)
    && (b.integratedCommit.Some? || git.integrate.Some?) && git.removed
  }

  /** The bindings after finalising a requirement. */
  function Finalised(bindings: Bindings, requirement: string, git: GitAnswers): Bindings {
    if requirement !in bindings then bindings
    else if GivenBack(bindings[requirement], git) then bindings - {requirement}
    else bindings[requirement := Advanced(bindings[requirement], git)]
  }

  // ---- Admission: which ready nodes may start ----

  datatype Selection = Selection(nodes: seq<Candidate>, reserved: set<string>)

  predicate Free(c: Candidate, bound: set<string>, reserved: set<string>) {
    var r := SingleRequirement(c.refs);
    r == None || r.value in bound || r.value in reserved
  }

  function AdmitOne(s: Selection, c: Candidate, limit: nat, bound: set<string>, slots: nat): Selection {
    if |s.nodes| >= limit then s
    else if Free(c, bound, s.reserved) then Selection(s.nodes + [c], s.reserved)
    else if |s.reserved| >= slots then s
    else Selection(s.nodes + [c], s.reserved + {SingleRequirement(c.refs).value})
  }

  /** First come, first served, within a number of nodes and a number of new worktrees. */
  function Admit(nodes: seq<Candidate>, limit: nat, bound: set<string>, slots: nat): Selection
  {
    if nodes == [] then Selection([], {})
    else
      var s := Admit(nodes[..|nodes| - 1], limit, bound, slots);
      AdmitOne(s, nodes[|nodes| - 1], limit, bound, slots)
  }

  /** What is admitted fits: the batch, the new worktrees, and every admitted node has its worktree. */
  lemma {:induction false} AdmittedFits(nodes: seq<Candidate>, limit: nat, bound: set<string>, slots: nat)
    ensures var s := Admit(nodes, limit, bound, slots);
      && |s.nodes| <= limit && |s.reserved| <= slots && s.reserved !! bound
      && (forall c | c in s.nodes :: c in nodes && Free(c, bound, s.reserved))
      && (forall r | r in s.reserved :: exists c :: c in s.nodes && SingleRequirement(c.refs) == Some(r))
  {
    if nodes != [] {
      var init, last := nodes[..|nodes| - 1], nodes[|nodes| - 1];
      AdmittedFits(init, limit, bound, slots);
      var before, after := Admit(init, limit, bound, slots), Admit(nodes, limit, bound, slots);
      forall r | r in after.reserved
        ensures exists c :: c in after.nodes && SingleRequirement(c.refs) == Some(r)
      {
        if r in before.reserved {
          var c :| c in before.nodes && SingleRequirement(c.refs) == Some(r);
          assert c in after.nodes;
        } else {
          assert last in after.nodes;
        }
      }
    }
  }

  /** A node is passed over only when the batch is full or a worktree it would need is not to be had. */
  lemma {:induction false} PassedOverForCause(nodes: seq<Candidate>, limit: nat, bound: set<string>, slots: nat,
                                              c: Candidate)
    requires c in nodes
    ensures var s := Admit(nodes, limit, bound, slots);
      c in s.nodes || |s.nodes| == limit || (!Free(c, bound, s.reserved) && |s.reserved| == slots)
  {
    var init, last := nodes[..|nodes| - 1], nodes[|nodes| - 1];
    assert nodes == init + [last];
    AdmittedFits(init, limit, bound, slots);
    if c in init {
      PassedOverForCause(init, limit, bound, slots, c);
    }
  }

  /** Admission keeps the order of the ready list. */
  lemma {:induction false} AdmitKeepsOrder(nodes: seq<Candidate>, limit: nat, bound: set<string>, slots: nat)
    ensures Subsequence(Admit(nodes, limit, bound, slots).nodes, nodes)
  {
    if nodes == [] {
      EmptyEmbeds<Candidate>();
    } else {
      var init, last := nodes[..|nodes| - 1], nodes[|nodes| - 1];
      AdmitKeepsOrder(init, limit, bound, slots);
      var before := Admit(init, limit, bound, slots).nodes;
      var after := Admit(nodes, limit, bound, slots).nodes;
      SubsequenceGrows(before, init, last, |after| > |before|);
      assert nodes == init + [last] && after == before + if |after| > |before| then [last] else [];
    }
  }

  ghost predicate DistinctIds(nodes: seq<Candidate>) {
    forall i, j | 0 <= i < j < |nodes| :: nodes[i].id != nodes[j].id
  }

  lemma DistinctAppend(nodes: seq<Candidate>, c: Candidate)
    requires DistinctIds(nodes) && forall i | 0 <= i < |nodes| :: nodes[i].id != c.id
    ensures DistinctIds(nodes + [c])
  {
  }

  /** Nothing is admitted twice. */
  lemma {:induction false} AdmitsOnce(nodes: seq<Candidate>, limit: nat, bound: set<string>, slots: nat)
    requires DistinctIds(nodes)
    ensures DistinctIds(Admit(nodes, limit, bound, slots).nodes)
  {
    if nodes != [] {
      var init, last := nodes[..|nodes| - 1], nodes[|nodes| - 1];
      AdmitsOnce(init, limit, bound, slots);
      AdmittedFits(init, limit, bound, slots);
      var before := Admit(init, limit, bound, slots).nodes;
      forall i | 0 <= i < |before|
        ensures before[i].id != last.id
      {
        assert before[i] in init;
      }
      DistinctAppend(before, last);
    }
  }

  /** How many new worktrees there is room for. */
  function Slots(bound: set<string>, maxActive: nat): nat {
    if |bound| < maxActive then maxActive - |bound| else 0
  }

  // ---- Every interleaving of a batch stays within capacity ----

  /** One atomic step of a running batch: a node acquires its worktree, or its requirement's worktree
      is taken away again after integration. */
  datatype Step = Acquire(node: Candidate) | Remove(node: Candidate)

  /** The set of bound requirements after a step; None is WorktreeCapacityError. */
  function Take(bound: set<string>, step: Step, maxActive: nat): Option<set<string>> {
    match SingleRequirement(step.node.refs)
    case None => Some(bound)
    case Some(r) =>
      if step.Remove? then Some(bound - {r})
      else if r in bound then Some(bound)
      else if |bound| >= maxActive then None
      else Some(bound + {r})
  }

  function TakeAll(bound: set<string>, steps: seq<Step>, maxActive: nat): Option<set<string>>
    decreases |steps|
  {
    if steps == [] then Some(bound)
    else match Take(bound, steps[0], maxActive)
      case None => None
      case Some(b) => TakeAll(b, steps[1..], maxActive)
  }

  lemma DisjointSize(a: set<string>, b: set<string>)
    requires a !! b
    ensures |a + b| == |a| + |b|
  {
  }

  lemma {:induction false} StepsStayAdmitted(bound: set<string>, admitted: set<string>, steps: seq<Step>,
                                             maxActive: nat)
    requires bound <= admitted && |admitted| <= maxActive
    requires forall s | s in steps ::
               SingleRequirement(s.node.refs) == None || SingleRequirement(s.node.refs).value in admitted
    ensures TakeAll(bound, steps, maxActive).Some?
    ensures TakeAll(bound, steps, maxActive).value <= admitted
    decreases |steps|
  {
    if steps != [] {
      assert steps[0] in steps;
      SubsetSize(bound, admitted);
      StepsStayAdmitted(Take(bound, steps[0], maxActive).value, admitted, steps[1..], maxActive);
    }
  }

  /** While no more than maxActive requirements are bound, the nodes that select_schedulable admits can
      acquire and give up worktrees in any order and any number of times: the capacity error never
      fires and the bound stays at maxActive. */
  lemma AdmissionIsNeverContradicted(nodes: seq<Candidate>, limit: nat, bound: set<string>, maxActive: nat,
                                     steps: seq<Step>)
    requires |bound| <= maxActive
    requires forall s | s in steps :: s.node in Admit(nodes, limit, bound, maxActive - |bound|).nodes
    ensures TakeAll(bound, steps, maxActive).Some?
    ensures |TakeAll(bound, steps, maxActive).value| <= maxActive
  {
    var s := Admit(nodes, limit, bound, maxActive - |bound|);
    AdmittedFits(nodes, limit, bound, maxActive - |bound|);
    DisjointSize(bound, s.reserved);
    StepsStayAdmitted(bound, bound + s.reserved, steps, maxActive);
    SubsetSize(TakeAll(bound, steps, maxActive).value, bound + s.reserved);
  }

  // ---- Restored bindings above capacity: exactly when admission is contradicted ----

  /** node_id.endswith("_verify") */
  predicate EndsWithVerify(id: string) {
    |id| >= 7 && id[|id| - 7..] == "_verify"
  }

  lemma VerifySuffix(id: string)
    ensures EndsWithVerify(id) <==> exists stem: string :: id == stem + "_verify"
  {
    if EndsWithVerify(id) {
      assert id == id[..|id| - 7] + "_verify";
    }
  }

  /** A node that gives its requirement's worktree back when it has been verified. */
  predicate Finalises(c: Candidate) {
    EndsWithVerify(c.id) && SingleRequirement(c.refs).Some?
  }

  /** Steps that a batch of these nodes can take: each node acquires at most once, and only a finalising
      node gives a worktree back, after it has acquired. */
  ghost predicate BatchSteps(steps: seq<Step>, nodes: seq<Candidate>) {
    && (forall i | 0 <= i < |steps| :: steps[i].node in nodes)
    && (forall i, j | 0 <= i < j < |steps| && steps[i].Acquire? && steps[j].Acquire? :: steps[i] != steps[j])
    && (forall i | 0 <= i < |steps| && steps[i].Remove? ::
         Finalises(steps[i].node) && Acquire(steps[i].node) in steps[..i])
  }

  /** A finalising node shares its requirement with another node. */
  ghost predicate SharedWithFinaliser(nodes: seq<Candidate>) {
    exists a, b ::
      a in nodes && b in nodes && a != b && Finalises(a) && SingleRequirement(a.refs) == SingleRequirement(b.refs)
  }

  /** Whoever has not acquired yet still finds its requirement bound. */
  ghost predicate StillBound(bound: set<string>, nodes: seq<Candidate>, done: seq<Step>) {
    forall c | c in nodes && SingleRequirement(c.refs).Some? && Acquire(c) !in done ::
      SingleRequirement(c.refs).value in bound
  }

  lemma {:induction false} UnsharedStepsSucceed(bound: set<string>, nodes: seq<Candidate>, steps: seq<Step>, i: nat,
                                                maxActive: nat)
    requires i <= |steps| && BatchSteps(steps, nodes) && !SharedWithFinaliser(nodes)
    requires StillBound(bound, nodes, steps[..i])
    ensures TakeAll(bound, steps[i..], maxActive).Some?
    decreases |steps| - i
  {
    if i < |steps| {
      var step := steps[i];
      assert step.node in nodes && steps[i..][1..] == steps[i + 1..] && steps[..i + 1] == steps[..i] + [step];
      assert step.Acquire? ==> step !in steps[..i];
      var next := Take(bound, step, maxActive);
      assert next.Some?;
      assert StillBound(next.value, nodes, steps[..i + 1]);
      UnsharedStepsSucceed(next.value, nodes, steps, i + 1, maxActive);
    }
  }

  /** With more than maxActive requirements bound, an admitted node that finalises and another admitted
      node of its requirement meet the capacity error: the second comes when the worktree is gone. */
  lemma SharedStepsFail(bound: set<string>, a: Candidate, b: Candidate, maxActive: nat)
    requires |bound| > maxActive && Finalises(a) && SingleRequirement(a.refs) == SingleRequirement(b.refs)
    requires SingleRequirement(a.refs).value in bound
    ensures TakeAll(bound, [Acquire(a), Remove(a), Acquire(b)], maxActive) == None
  {
    var r := SingleRequirement(a.refs).value;
    var steps := [Acquire(a), Remove(a), Acquire(b)];
    var left := bound - {r};
    assert |left| == |bound| - 1 >= maxActive;
    assert steps[1..] == [Remove(a), Acquire(b)] && steps[1..][1..] == [Acquire(b)];
    assert Take(bound, Acquire(a), maxActive) == Some(bound) && Take(bound, Remove(a), maxActive) == Some(left);
    assert Take(left, Acquire(b), maxActive) == None;
    assert TakeAll(left, [Acquire(b)], maxActive) == None;
    assert TakeAll(bound, steps[1..], maxActive) == None;
  }

  lemma AdmittedStepsSucceed(nodes: seq<Candidate>, limit: nat, bound: set<string>, maxActive: nat, steps: seq<Step>)
    requires BatchSteps(steps, Admit(nodes, limit, bound, Slots(bound, maxActive)).nodes)
    requires |bound| <= maxActive || !SharedWithFinaliser(Admit(nodes, limit, bound, Slots(bound, maxActive)).nodes)
    ensures TakeAll(bound, steps, maxActive).Some?
  {
    var s := Admit(nodes, limit, bound, Slots(bound, maxActive));
    if |bound| <= maxActive {
      forall x: Step | x in steps
        ensures x.node in s.nodes
      {
        var i :| 0 <= i < |steps| && steps[i] == x;
      }
      AdmissionIsNeverContradicted(nodes, limit, bound, maxActive, steps);
    } else {
      AdmittedFits(nodes, limit, bound, Slots(bound, maxActive));
      assert s.reserved == {} && steps[0..] == steps;
      UnsharedStepsSucceed(bound, s.nodes, steps, 0, maxActive);
    }
  }

  lemma SharedAdmissionFails(nodes: seq<Candidate>, limit: nat, bound: set<string>, maxActive: nat)
    returns (steps: seq<Step>)
    requires |bound| > maxActive && SharedWithFinaliser(Admit(nodes, limit, bound, Slots(bound, maxActive)).nodes)
    ensures BatchSteps(steps, Admit(nodes, limit, bound, Slots(bound, maxActive)).nodes)
    ensures TakeAll(bound, steps, maxActive) == None
  {
    var s := Admit(nodes, limit, bound, Slots(bound, maxActive));
    AdmittedFits(nodes, limit, bound, Slots(bound, maxActive));
    var a, b :| a in s.nodes && b in s.nodes && a != b && Finalises(a) &&
                SingleRequirement(a.refs) == SingleRequirement(b.refs);
    assert s.reserved == {} && Free(a, bound, s.reserved);
    SharedStepsFail(bound, a, b, maxActive);
    steps := [Acquire(a), Remove(a), Acquire(b)];
    assert steps[..1] == [Acquire(a)];
  }

  /** For any bindings: some interleaving of the admitted nodes meets the capacity error exactly when more
      requirements are bound than maxActive and a finalising node is admitted together with another node of
      its requirement. */
  lemma AdmissionIsContradictedIff(nodes: seq<Candidate>, limit: nat, bound: set<string>, maxActive: nat)
    ensures var admitted := Admit(nodes, limit, bound, Slots(bound, maxActive)).nodes;
      (exists steps :: BatchSteps(steps, admitted) && TakeAll(bound, steps, maxActive) == None)
      <==> |bound| > maxActive && SharedWithFinaliser(admitted)
  {
    if |bound| > maxActive && SharedWithFinaliser(Admit(nodes, limit, bound, Slots(bound, maxActive)).nodes) {
      var steps := SharedAdmissionFails(nodes, limit, bound, maxActive);
    } else {
      forall steps: seq<Step> | BatchSteps(steps, Admit(nodes, limit, bound, Slots(bound, maxActive)).nodes)
        ensures TakeAll(bound, steps, maxActive).Some?
      {
        AdmittedStepsSucceed(nodes, limit, bound, maxActive, steps);
      }
    }
  }

  /** It does happen: a recovery of a verification and another node of its requirement, admitted with two
      requirements bound and room for one. */
  lemma OvercommittedAdmissionCanFail()
    ensures var a, b := Candidate("a_verify", ["R1"]), Candidate("recovery_001_a", ["R1"]);
      && Admit([a, b], 2, {"R1", "R2"}, 0).nodes == [a, b]
      && TakeAll({"R1", "R2"}, [Acquire(a), Remove(a), Acquire(b)], 1) == None
  {
    var a, b := Candidate("a_verify", ["R1"]), Candidate("recovery_001_a", ["R1"]);
    assert [a, b][..1] == [a];
    assert Admit([a], 2, {"R1", "R2"}, 0) == Selection([a], {});
    var steps := [Acquire(a), Remove(a), Acquire(b)];
    assert steps[1..] == [Remove(a), Acquire(b)] && [Remove(a), Acquire(b)][1..] == [Acquire(b)];
    assert "R1"[1] != "R2"[1];
    assert {"R1", "R2"} - {"R1"} == {"R2"};
    assert Take({"R1", "R2"}, Acquire(a), 1) == Some({"R1", "R2"});
    assert Take({"R1", "R2"}, Remove(a), 1) == Some({"R2"});
    assert Take({"R2"}, Acquire(b), 1) == None;
    assert TakeAll({"R2"}, [Acquire(b)], 1) == None;
    assert TakeAll({"R1", "R2"}, [Remove(a), Acquire(b)], 1) == None;
  }

  lemma AdmitNext(nodes: seq<Candidate>, i: nat, limit: nat, bound: set<string>, slots: nat)
    requires i < |nodes|
    ensures Admit(nodes[..i + 1], limit, bound, slots) ==
            AdmitOne(Admit(nodes[..i], limit, bound, slots), nodes[i], limit, bound, slots)
  {
    assert nodes[..i + 1][..i] == nodes[..i];
  }

  lemma {:induction false} FullStaysFull(nodes: seq<Candidate>, i: nat, limit: nat, bound: set<string>, slots: nat)
    requires i <= |nodes| && |Admit(nodes[..i], limit, bound, slots).nodes| >= limit
    ensures Admit(nodes, limit, bound, slots) == Admit(nodes[..i], limit, bound, slots)
    decreases |nodes|
  {
    if i == |nodes| {
      assert nodes[..i] == nodes;
    } else {
      assert nodes[..|nodes| - 1][..i] == nodes[..i];
      FullStaysFull(nodes[..|nodes| - 1], i, limit, bound, slots);
    }
  }

  lemma {:induction false} AdmitOnlyGrows(nodes: seq<Candidate>, i: nat, limit: nat, bound: set<string>, slots: nat)
    requires i <= |nodes|
    ensures Admit(nodes[..i], limit, bound, slots).nodes <= Admit(nodes, limit, bound, slots).nodes
    decreases |nodes|
  {
    if i == |nodes| {
      assert nodes[..i] == nodes;
    } else {
      assert nodes[..|nodes| - 1][..i] == nodes[..i];
      AdmitOnlyGrows(nodes[..|nodes| - 1], i, limit, bound, slots);
    }
  }

  /** The new worktrees of the admitted: the single requirements that held none. */
  ghost function NewScopes(admitted: seq<Candidate>, bound: set<string>): set<string> {
    set c | c in admitted && |c.refs| == 1 && c.refs[0] !in bound :: c.refs[0]
  }

  /** First come, first served: whether a node is admitted is decided by those admitted before it, for good. It is
      if the batch has room and the node has no single requirement, or its requirement has a worktree or was given
      one in this batch, or there is a slot for one more. */
  lemma FirstComeFirstServed(nodes: seq<Candidate>, i: nat, limit: nat, bound: set<string>, slots: nat)
    requires i < |nodes|
    ensures var before, refs := Admit(nodes[..i], limit, bound, slots).nodes, nodes[i].refs;
      var fits := && |before| < limit
                  && (|| |refs| != 1 || refs[0] in bound + NewScopes(before, bound)
                      || |NewScopes(before, bound)| < slots);
      before + (if fits then [nodes[i]] else []) == Admit(nodes[..i + 1], limit, bound, slots).nodes
        <= Admit(nodes, limit, bound, slots).nodes
  {
    var s := Admit(nodes[..i], limit, bound, slots);
    AdmittedFits(nodes[..i], limit, bound, slots);
    assert NewScopes(s.nodes, bound) == s.reserved;
    AdmitNext(nodes, i, limit, bound, slots);
    AdmitOnlyGrows(nodes, i + 1, limit, bound, slots);
  }

  /** The loop of select_schedulable. */
  method SelectWithin(nodes: seq<Candidate>, limit: nat, bound: set<string>, slots: nat)
    returns (selected: seq<Candidate>)
    ensures selected == Admit(nodes, limit, bound, slots).nodes
  {
    var availableNew := slots;
    var newlyReserved: set<string> := {};
    selected := [];
    for i := 0 to |nodes|
      invariant Selection(selected, newlyReserved) == Admit(nodes[..i], limit, bound, slots)
      invariant availableNew == slots - |newlyReserved|
    {
      if |selected| >= limit {
        FullStaysFull(nodes, i, limit, bound, slots);
        return;
      }
      AdmitNext(nodes, i, limit, bound, slots);
      var requirement := SingleRequirement(nodes[i].refs);
      if requirement == None || requirement.value in bound || requirement.value in newlyReserved {
        selected := selected + [nodes[i]];
      } else if availableNew > 0 {
        selected := selected + [nodes[i]];
        newlyReserved := newlyReserved + {requirement.value};
        availableNew := availableNew - 1;
      }
    }
    assert nodes[..|nodes|] == nodes;
  }

  class RequirementWorktreeManager {
    const maxActive: nat
    var bindings: map<string, Binding>

    constructor (maxActive: nat)
      requires maxActive >= 1
      ensures this.maxActive == maxActive && bindings == map[]
    {
      this.maxActive := maxActive;
      this.bindings := map[];
    }

    method AcquireForNode(node: Candidate, created: bool) returns (r: AcquireResult)
      modifies this
      ensures var q := SingleRequirement(node.refs);
        if q == None then r == Unscoped && bindings == old(bindings)
        else if q.value in old(bindings) then
          && r == Bound(old(bindings)[q.value].(nodeIds := old(bindings)[q.value].nodeIds + {node.id}))
          && bindings == old(bindings)[q.value := r.binding] == Joined(old(bindings), q.value, node.id)
        else if |old(bindings)| >= maxActive then r == CapacityReached && bindings == old(bindings)
        else if !created then r == WorktreeNotCreated && bindings == old(bindings)
        else
          && r == Bound(Binding({node.id}, None, None))
          && bindings == old(bindings)[q.value := r.binding] == Joined(old(bindings), q.value, node.id)
      ensures r == CapacityReached <==> Take(old(bindings).Keys, Acquire(node), maxActive) == None
      ensures r.Bound? ==> Some(bindings.Keys) == Take(old(bindings).Keys, Acquire(node), maxActive)
    {
      var requirement := SingleRequirement(node.refs);
      if requirement == None {
        return Unscoped;
      }
      var key := requirement.value;
      if key in bindings {
        var existing := bindings[key].(nodeIds := bindings[key].nodeIds + {node.id});
        bindings := bindings[key := existing];
        assert bindings.Keys == old(bindings).Keys;
        return Bound(existing);
      }
      if |bindings| >= maxActive {
        return CapacityReached;
      }
      if !created {
        return WorktreeNotCreated;
      }
      var binding := Binding({node.id}, None, None);
      bindings := bindings[key := binding];
      assert bindings.Keys == old(bindings).Keys + {key};
      return Bound(binding);
    }

    method SelectSchedulable(nodes: seq<Candidate>, limit: int) returns (selected: seq<Candidate>)
      ensures limit >= 1 ==> selected == Admit(nodes, limit, bindings.Keys, Slots(bindings.Keys, maxActive)).nodes
      ensures limit < 1 ==> selected == []
    {
      if limit < 1 {
        return [];
      }
      var slots := if |bindings| < maxActive then maxActive - |bindings| else 0;
      assert slots == Slots(bindings.Keys, maxActive);
      selected := SelectWithin(nodes, limit, bindings.Keys, slots);
    }

    /** Commits and integrates the branch of a verified node, once each however often it is retried, and
        gives the worktree back. A failure leaves the steps already taken on record. */
    method FinalizeVerifiedRequirement(node: Candidate, git: GitAnswers) returns (r: FinalizeResult)
      modifies this
      ensures var q := SingleRequirement(node.refs);
        if q == None || q.value !in old(bindings) then r == NothingBound && bindings == old(bindings)
        else
          && bindings == Finalised(old(bindings), q.value, git)
          && (forall k | k != q.value :: k in bindings <==> k in old(bindings))
          && (forall k | k != q.value && k in bindings :: bindings[k] == old(bindings)[k])
          && var b0 := old(bindings)[q.value];
          var b1 := if b0.verifiedCommit == None then b0.(verifiedCommit := git.commit) else b0;
          var b2 := if b1.verifiedCommit != None && b1.integratedCommit == None
                    then b1.(integratedCommit := git.integrate) else b1;
          if b2.verifiedCommit != None && b2.integratedCommit != None && git.removed
          then q.value !in bindings && r == if git.callbackOk then Integrated(b2) else Raised
          else r == Raised && q.value in bindings && bindings[q.value] == b2
      ensures r.Integrated? ==> Some(bindings.Keys) == Take(old(bindings).Keys, Remove(node), maxActive)
    {
      var requirement := SingleRequirement(node.refs);
      if requirement == None || requirement.value !in bindings {
        return NothingBound;
      }
      var key := requirement.value;
      var binding := bindings[key];
      if binding.verifiedCommit == None {
        binding := binding.(verifiedCommit := git.commit);
        bindings := bindings[key := binding];
        if binding.verifiedCommit == None {
          return Raised;
        }
      }
      if binding.integratedCommit == None {
        binding := binding.(integratedCommit := git.integrate);
        bindings := bindings[key := binding];
        if binding.integratedCommit == None {
          return Raised;
        }
      }
      if !git.removed {
        return Raised;
      }
      bindings := bindings - {key};
      return if git.callbackOk then Integrated(binding) else Raised;
    }
  }
}
