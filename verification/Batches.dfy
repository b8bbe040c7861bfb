/** One cycle's batch (engineering/agency.py): the coroutines of the selected nodes, interleaved at the
    points where they wait. A coroutine first acquires its worktree and begins to work, and later
    settles; between those two steps any other coroutine of the batch may take steps of its own.
    Models, tools, verifier and git are oracles: an Attempt holds their answers for one execution. */
module Batches {
  import opened Digraphs
  import opened Schemas
  import opened DagInvariants
  import opened AgencyTheory
  import opened Replanning
  import opened Wrappers
  import W = Worktrees

  datatype CognitionEnd = ToolsProposed | Unverified | VerifiedByItself | RejectedByItself

  /** Where an execution is cut short by an exception, if anywhere. The cognitive runtime ends in a status of
      its own (it may have a verifier too), which an exception in the audit of its answer leaves behind. */
  datatype Crash =
    | NoCrash | BeforeCognition | InCouncil | InCognition | AfterCognition(end: CognitionEnd) | InTool | InVerification

  datatype Attempt = Attempt(
    worktreeCreated: bool,   // git creates the worktree, if one is needed
    crash: Crash,
    toolRounds: nat,         // rounds of tool calls the model asks for before it settles
    accepted: bool,          // the external verifier's decision
    git: W.GitAnswers,       // answers during integration, if there is one
    failure: FailureKind)    // how a failed run is classified

  /** The answers for every node in every cycle. */
  type Oracle = (nat, string) -> Attempt

  predicate WithinBudget(a: Attempt, maxToolIterations: int) {
    a.toolRounds == 0 || a.toolRounds <= maxToolIterations
  }

  /** Nothing goes wrong in the execution. */
  predicate Smooth(a: Attempt, maxToolIterations: int) {
    && a.worktreeCreated && a.crash == NoCrash && WithinBudget(a, maxToolIterations) && a.accepted
    && a.git.commit.Some? && a.git.integrate.Some? && a.git.removed && a.git.callbackOk
  }

  /** Nothing throws, whatever may fail. */
  predicate Quiet(a: Attempt) {
    a.worktreeCreated && a.crash == NoCrash
  }

  function CognitionStatus(end: CognitionEnd): TaskNodeStatus {
    match end
    case ToolsProposed => ToolProposed
    case Unverified => Verifying
    case VerifiedByItself => Succeeded
    case RejectedByItself => ReplanRequired
  }

  function CrashStatus(c: Crash): TaskNodeStatus {
    match c
    case InCouncil => Blocked
    case AfterCognition(end) => CognitionStatus(end)
    case InTool => Executing
    case InVerification => Verifying
    case _ => CognitiveWork
  }

  /** Whether the execution ends with the integration of a requirement branch. */
  predicate Integrates(id: string, refs: seq<string>, a: Attempt, maxToolIterations: int, managed: bool) {
    && managed && a.crash == NoCrash && WithinBudget(a, maxToolIterations) && a.accepted
    && W.EndsWithVerify(id) && |refs| == 1
  }

  /** The integration raises: git does not get as far as giving the worktree back, or the callback after it fails.
      If no worktree is bound there is nothing to integrate. */
  predicate IntegrationRaises(requirement: string, bindings: W.Bindings, git: W.GitAnswers) {
    requirement in bindings && !(W.GivenBack(bindings[requirement], git) && git.callbackOk)
  }

  /** The status an execution that has begun leaves behind. */
  function StatusLeft(k: string, refs: seq<string>, a: Attempt, maxToolIterations: int, managed: bool,
                      bindings: W.Bindings): TaskNodeStatus {
    if a.crash != NoCrash then CrashStatus(a.crash)
    else if !WithinBudget(a, maxToolIterations) || !a.accepted then ReplanRequired
    else if Integrates(k, refs, a, maxToolIterations, managed) && IntegrationRaises(refs[0], bindings, a.git)
    then ReplanRequired
    else Succeeded
  }

  /** And the bindings. */
  function BindingsLeft(k: string, refs: seq<string>, a: Attempt, maxToolIterations: int, managed: bool,
                        bindings: W.Bindings): W.Bindings {
    if Integrates(k, refs, a, maxToolIterations, managed) then W.Finalised(bindings, refs[0], a.git) else bindings
  }

  /** What can be said of that status without the bindings. */
  predicate SettlesAs(a: Attempt, maxToolIterations: int, integrates: bool, status: TaskNodeStatus) {
    if a.crash != NoCrash then status == CrashStatus(a.crash)
    else if !WithinBudget(a, maxToolIterations) || !a.accepted then status == ReplanRequired
    else status == Succeeded || (integrates && status == ReplanRequired)
  }

  /** A moment inside a batch. starved: the worktree capacity error was raised; raised: some coroutine
      ended with an exception (starved included). */
  datatype Moment = Moment(dag: DagState, bindings: W.Bindings, waiting: set<string>, running: set<string>,
                           raised: bool, starved: bool)
  {
    /** The requirements that hold a worktree. */
    const bound: set<string> := bindings.Keys
  }

  /** What stays fixed while a batch runs. */
  datatype Setting = Setting(cycle: nat, oracle: Oracle, maxToolIterations: int, managed: bool, maxActive: nat)

  ghost predicate Starts(p: Moment, k: string, a: Attempt, c: Setting)
    requires k in p.dag
  {
    var r := W.SingleRequirement(p.dag[k].refs);
    !c.managed || r == None || r.value in p.bound || (|p.bound| < c.maxActive && a.worktreeCreated)
  }

  /** The bindings once k has its worktree. */
  ghost function Taken(p: Moment, k: string, c: Setting): W.Bindings
    requires k in p.dag
  {
    var r := W.SingleRequirement(p.dag[k].refs);
    if c.managed && r.Some? then W.Joined(p.bindings, r.value, k) else p.bindings
  }

  /** The coroutine of k acquires its worktree and begins to work, or ends with an exception on the way:
      without a worktree, or with one and its node still ready. */
  ghost predicate BeginStep(p: Moment, q: Moment, k: string, c: Setting) {
    && k in p.waiting && k in p.dag
    && var a := c.oracle(c.cycle, k);
    if !Starts(p, k, a, c) then
      q == p.(waiting := p.waiting - {k}, raised := true, starved := p.starved || |p.bound| >= c.maxActive)
    else if a.crash == BeforeCognition then
      q == p.(bindings := Taken(p, k, c), waiting := p.waiting - {k}, raised := true)
    else
      q == p.(dag := p.dag[k := p.dag[k].(status := CognitiveWork)], bindings := Taken(p, k, c),
              waiting := p.waiting - {k}, running := p.running + {k})
  }

  /** The coroutine of k settles: its node takes a final status, and the requirement's worktree may be
      given back. */
  ghost predicate SettleStep(p: Moment, q: Moment, k: string, c: Setting) {
    && k in p.running && k in p.dag
    && var a, n := c.oracle(c.cycle, k), p.dag[k];
    && a.crash != BeforeCognition
    && var status := StatusLeft(k, n.refs, a, c.maxToolIterations, c.managed, p.bindings);
    q == p.(dag := p.dag[k := n.(status := status)],
            bindings := BindingsLeft(k, n.refs, a, c.maxToolIterations, c.managed, p.bindings),
            running := p.running - {k}, raised := p.raised || a.crash != NoCrash)
  }

  ghost predicate Step(p: Moment, q: Moment, c: Setting) {
    exists k :: BeginStep(p, q, k, c) || SettleStep(p, q, k, c)
  }

  // ---- What holds at every moment of a batch, in every interleaving ----

  ghost function Requirements(s: DagState, ids: set<string>): set<string>
    requires ids <= s.Keys
  {
    set k | k in ids && W.SingleRequirement(s[k].refs).Some? :: W.SingleRequirement(s[k].refs).value
  }

  /** The coroutine has ended: either it never began, or it settled. */
  ghost predicate Ended(n: NodeState, status: TaskNodeStatus, k: string, c: Setting) {
    var a := c.oracle(c.cycle, k);
    status == n.status || SettlesAs(a, c.maxToolIterations, Integrates(k, n.refs, a, c.maxToolIterations, c.managed),
                                    status)
  }

  ghost predicate Progress(s: DagState, m: Moment, ids: set<string>, c: Setting) {
    && ids <= s.Keys && m.dag.Keys == s.Keys && m.waiting <= ids && m.running <= ids && m.waiting !! m.running
    && (forall k | k in s && (k !in ids || k in m.waiting) :: m.dag[k] == s[k])
    && (forall k | k in m.running ::
         m.dag[k] == s[k].(status := CognitiveWork) && c.oracle(c.cycle, k).crash != BeforeCognition)
    && (forall k | k in ids :: m.dag[k] == s[k].(status := m.dag[k].status))
    && (forall k | k in ids - m.waiting - m.running :: Ended(s[k], m.dag[k].status, k, c))
    && (!m.raised ==> forall k | k in ids - m.waiting - m.running :: m.dag[k].status in {Succeeded, ReplanRequired})
    && (m.starved ==> m.raised)
  }

  /** Until the batch has raised, no coroutine of it that has ended threw. */
  ghost predicate NoneThrew(m: Moment, ids: set<string>, c: Setting) {
    !m.raised ==>
      forall k {:trigger c.oracle(c.cycle, k)} | k in ids - m.waiting - m.running ::
        c.oracle(c.cycle, k).crash == NoCrash
  }

  ghost predicate AllReady(s: DagState, ids: set<string>) {
    forall k | k in ids :: k in s && s[k].status == Ready
  }

  lemma BegunKeepsProgress(s: DagState, p: Moment, q: Moment, ids: set<string>, k: string, c: Setting)
    requires Progress(s, p, ids, c) && k in p.waiting && k in p.dag && p.dag[k] == s[k]
    requires q == p.(dag := p.dag[k := p.dag[k].(status := CognitiveWork)], bindings := q.bindings,
                     waiting := p.waiting - {k}, running := p.running + {k})
    requires c.oracle(c.cycle, k).crash != BeforeCognition
    ensures Progress(s, q, ids, c)
  {
  }

  lemma FailedBeginKeepsProgress(s: DagState, p: Moment, q: Moment, ids: set<string>, k: string, c: Setting)
    requires Progress(s, p, ids, c) && k in p.waiting && k in p.dag && p.dag[k] == s[k]
    requires q == p.(bindings := q.bindings, waiting := p.waiting - {k}, raised := true, starved := q.starved)
    ensures Progress(s, q, ids, c)
  {
    assert Ended(s[k], q.dag[k].status, k, c);
  }

  lemma BeginKeepsProgress(s: DagState, p: Moment, q: Moment, ids: set<string>, k: string, c: Setting)
    requires Progress(s, p, ids, c) && AllReady(s, ids) && BeginStep(p, q, k, c)
    ensures Progress(s, q, ids, c)
  {
    assert p.dag[k] == s[k];
    if Starts(p, k, c.oracle(c.cycle, k), c) && c.oracle(c.cycle, k).crash != BeforeCognition {
      BegunKeepsProgress(s, p, q, ids, k, c);
    } else {
      FailedBeginKeepsProgress(s, p, q, ids, k, c);
    }
  }

  lemma SettleKeepsProgress(s: DagState, p: Moment, q: Moment, ids: set<string>, k: string, c: Setting)
    requires Progress(s, p, ids, c) && AllReady(s, ids) && SettleStep(p, q, k, c)
    ensures Progress(s, q, ids, c)
  {
    var a := c.oracle(c.cycle, k);
    assert Ended(s[k], q.dag[k].status, k, c);
  }

  lemma NothingChanged(s: DagState)
    ensures OnlyStatuses(s, s)
  {
  }

  lemma AtWork(s: DagState, p: Moment, ids: set<string>, k: string, c: Setting)
    requires Progress(s, p, ids, c) && AllReady(s, ids) && (k in p.waiting || k in p.running)
    ensures k in p.dag && k in s && p.dag[k].refs == s[k].refs
    ensures Started(p.dag[k].status) && p.dag[k].status != Succeeded
  {
  }

  lemma StepChangesOne(p: Moment, q: Moment, k: string, c: Setting)
    requires BeginStep(p, q, k, c) || SettleStep(p, q, k, c)
    ensures k in p.dag && k in q.dag && q.dag == p.dag[k := p.dag[k].(status := q.dag[k].status)]
    ensures k in p.waiting || k in p.running
  {
  }

  /** No step starts work ahead of its dependencies or takes a success back. */
  lemma StepKeepsClosure(s: DagState, p: Moment, q: Moment, ids: set<string>, c: Setting)
    requires Progress(s, p, ids, c) && AllReady(s, ids) && Step(p, q, c)
    ensures DependencyClosed(p.dag) ==> DependencyClosed(q.dag)
    ensures OnlyStatuses(p.dag, q.dag)
  {
    var k :| BeginStep(p, q, k, c) || SettleStep(p, q, k, c);
    StepChangesOne(p, q, k, c);
    AtWork(s, p, ids, k, c);
    WorkKeepsClosure(p.dag, k, q.dag[k].status);
  }

  /** The bound requirements stay among those that admission counted. */
  lemma StepStaysAdmitted(s: DagState, p: Moment, q: Moment, ids: set<string>, c: Setting, admitted: set<string>)
    requires Progress(s, p, ids, c) && Step(p, q, c) && p.bound <= admitted
    requires Requirements(s, ids) <= admitted
    ensures q.bound <= admitted
    ensures |admitted| <= c.maxActive && !p.starved ==> !q.starved
  {
    var k :| BeginStep(p, q, k, c) || SettleStep(p, q, k, c);
    var r := W.SingleRequirement(p.dag[k].refs);
    if r.Some? {
      assert r.value in Requirements(s, ids) by { assert s[k].refs == p.dag[k].refs; }
      if r.value !in p.bound {
        SubsetSize(p.bound, admitted);
      }
    }
  }

  // ---- When nothing throws and every failure has a recovery ----

  ghost predicate SmoothFor(ids: set<string>, c: Setting) {
    forall k | k in ids :: Smooth(c.oracle(c.cycle, k), c.maxToolIterations)
  }

  ghost predicate QuietFor(ids: set<string>, c: Setting) {
    forall k | k in ids :: Quiet(c.oracle(c.cycle, k))
  }

  /** How an execution ends that does not throw. */
  predicate EndsCalmly(status: TaskNodeStatus, a: Attempt, maxToolIterations: int) {
    status == Succeeded || (status == ReplanRequired && !Smooth(a, maxToolIterations))
  }

  ghost predicate Calm(m: Moment, ids: set<string>, c: Setting) {
    && !m.raised
    && forall k | k in ids - m.waiting - m.running ::
      k in m.dag && EndsCalmly(m.dag[k].status, c.oracle(c.cycle, k), c.maxToolIterations)
  }

  lemma StepStaysCalm(s: DagState, p: Moment, q: Moment, ids: set<string>, c: Setting)
    requires Progress(s, p, ids, c) && Step(p, q, c) && QuietFor(ids, c)
    requires Calm(p, ids, c) && !q.starved
    ensures Calm(q, ids, c)
  {
    var k :| BeginStep(p, q, k, c) || SettleStep(p, q, k, c);
    assert Quiet(c.oracle(c.cycle, k));
  }

  lemma NewlyBound(p: Moment, q: Moment, k: string, r: string, c: Setting)
    requires BeginStep(p, q, k, c) || SettleStep(p, q, k, c)
    requires c.oracle(c.cycle, k).crash == NoCrash && r in q.bound && r !in p.bound
    ensures k in p.waiting && k in p.dag && W.SingleRequirement(p.dag[k].refs) == Some(r)
    ensures q.dag == p.dag[k := p.dag[k].(status := CognitiveWork)]
  {
  }

  lemma NewlyBoundPends(s: DagState, p: Moment, ids: set<string>, k: string, r: string, c: Setting)
    requires Progress(s, p, ids, c) && k in p.waiting && k in p.dag && W.SingleRequirement(p.dag[k].refs) == Some(r)
    requires k in s && HasVerifier(s, ids, k)
    ensures Pending(p.dag[k := p.dag[k].(status := CognitiveWork)], r)
  {
    assert p.dag[k] == s[k];
    var v :| v in s && W.EndsWithVerify(v) && W.SingleRequirement(s[v].refs) == W.SingleRequirement(s[k].refs)
             && s[v].status != Succeeded && (v == k || v !in ids);
    assert p.dag[v] == s[v];
    var after := p.dag[k := p.dag[k].(status := CognitiveWork)];
    assert v in after && after[v].refs == s[v].refs && after[v].status != Succeeded;
  }

  lemma PendingSurvives(p: Moment, q: Moment, k: string, r: string, c: Setting)
    requires BeginStep(p, q, k, c) || SettleStep(p, q, k, c)
    requires c.oracle(c.cycle, k).crash == NoCrash && c.managed
    requires Pending(p.dag, r) && r in q.bound
    ensures Pending(q.dag, r)
  {
    var v :| v in p.dag && W.EndsWithVerify(v) && W.SingleRequirement(p.dag[v].refs) == Some(r)
             && p.dag[v].status != Succeeded;
    assert v in q.dag && q.dag[v].refs == p.dag[v].refs && q.dag[v].status != Succeeded;
  }

  /** A bound requirement keeps a verification that is still to come: only a verification that succeeds
      leaves the pending ones, and then the worktree is given back. */
  lemma StepKeepsPending(s: DagState, p: Moment, q: Moment, ids: set<string>, c: Setting)
    requires Progress(s, p, ids, c) && AllReady(s, ids) && Step(p, q, c) && QuietFor(ids, c) && c.managed
    requires BoundPending(p.dag, p.bound)
    requires forall k | k in ids :: HasVerifier(s, ids, k)
    ensures BoundPending(q.dag, q.bound)
  {
    var k :| BeginStep(p, q, k, c) || SettleStep(p, q, k, c);
    assert Quiet(c.oracle(c.cycle, k));
    forall r | r in q.bound
      ensures Pending(q.dag, r)
    {
      if r in p.bound {
        PendingSurvives(p, q, k, r, c);
      } else {
        NewlyBound(p, q, k, r, c);
        NewlyBoundPends(s, p, ids, k, r, c);
      }
    }
  }

  ghost predicate HasBegun(s: DagState, m: Moment, ids: set<string>, k: string) {
    k in ids && k in s && k in m.dag && k !in m.waiting && m.dag[k].status != Ready
  }

  ghost predicate KeepsWorktree(s: DagState, ids: set<string>, k: string)
    requires k in s
  {
    && W.SingleRequirement(s[k].refs).Some?
    && forall v | v in ids && v in s && W.EndsWithVerify(v) ::
         W.SingleRequirement(s[v].refs) != W.SingleRequirement(s[k].refs)
  }

  /** Unless a verification of the same requirement is in the batch, a worktree that is taken stays taken. */
  ghost predicate Held(s: DagState, m: Moment, ids: set<string>) {
    forall k | HasBegun(s, m, ids, k) && KeepsWorktree(s, ids, k) :: W.SingleRequirement(s[k].refs).value in m.bound
  }

  lemma BeginKeepsHeld(s: DagState, p: Moment, q: Moment, ids: set<string>, k: string, c: Setting)
    requires Progress(s, p, ids, c) && AllReady(s, ids) && BeginStep(p, q, k, c) && c.managed && Held(s, p, ids)
    ensures Held(s, q, ids)
  {
    forall x | HasBegun(s, q, ids, x) && KeepsWorktree(s, ids, x)
      ensures W.SingleRequirement(s[x].refs).value in q.bound
    {
      if x == k {
        assert p.dag[k] == s[k];
      } else {
        assert HasBegun(s, p, ids, x) && W.SingleRequirement(s[x].refs).value in p.bound;
      }
    }
  }

  /** Settling gives back the worktree of a verification only. */
  lemma SettleKeepsHeld(s: DagState, p: Moment, q: Moment, ids: set<string>, k: string, c: Setting)
    requires Progress(s, p, ids, c) && AllReady(s, ids) && SettleStep(p, q, k, c) && Held(s, p, ids)
    ensures Held(s, q, ids)
  {
    assert k in ids && p.dag[k].refs == s[k].refs && HasBegun(s, p, ids, k);
    forall x | HasBegun(s, q, ids, x) && KeepsWorktree(s, ids, x)
      ensures W.SingleRequirement(s[x].refs).value in q.bound
    {
      assert HasBegun(s, p, ids, x) && W.SingleRequirement(s[x].refs).value in p.bound;
    }
  }

  lemma StepKeepsHeld(s: DagState, p: Moment, q: Moment, ids: set<string>, c: Setting)
    requires Progress(s, p, ids, c) && AllReady(s, ids) && Step(p, q, c) && c.managed && Held(s, p, ids)
    ensures Held(s, q, ids)
  {
    var k :| BeginStep(p, q, k, c) || SettleStep(p, q, k, c);
    if BeginStep(p, q, k, c) {
      BeginKeepsHeld(s, p, q, ids, k, c);
    } else {
      SettleKeepsHeld(s, p, q, ids, k, c);
    }
  }

  // ---- What integration decides ----

  /** What is on record for a requirement, of its commit and its integration. */
  function OnRecord(bindings: W.Bindings, requirement: string): W.Binding {
    if requirement in bindings then bindings[requirement] else W.Binding({}, None, None)
  }

  predicate SameRecord(a: W.Binding, b: W.Binding) {
    a.verifiedCommit == b.verifiedCommit && a.integratedCommit == b.integratedCommit
  }

  /** No other node of the batch finalises the requirement of k. */
  ghost predicate Uncontested(s: DagState, ids: set<string>, k: string)
    requires k in s
  {
    forall v | v in ids && v in s && W.EndsWithVerify(v) && |s[v].refs| == 1 && s[v].refs == s[k].refs :: v == k
  }

  /** While k has not settled, the record of its requirement is what it was when the batch began. */
  ghost predicate RecordKept(s: DagState, before: W.Bindings, m: Moment, k: string, c: Setting)
    requires k in s && |s[k].refs| == 1
  {
    var r := s[k].refs[0];
    && (r in before || (k in m.running && c.managed) ==> r in m.bindings)
    && (r in m.bindings ==> SameRecord(m.bindings[r], OnRecord(before, r)))
  }

  /** The status that k is left with, given what was on record when the batch began. */
  ghost function StatusDue(s: DagState, before: W.Bindings, k: string, c: Setting): TaskNodeStatus
    requires k in s
  {
    var a, refs := c.oracle(c.cycle, k), s[k].refs;
    StatusLeft(k, refs, a, c.maxToolIterations, c.managed,
               if |refs| == 1 then map[refs[0] := OnRecord(before, refs[0])] else map[])
  }

  ghost predicate Recorded(s: DagState, before: W.Bindings, m: Moment, ids: set<string>, c: Setting) {
    forall k {:trigger Uncontested(s, ids, k)} | k in ids && k in s && k in m.dag && Uncontested(s, ids, k) ::
      && (k in m.waiting + m.running && W.EndsWithVerify(k) && |s[k].refs| == 1 ==> RecordKept(s, before, m, k, c))
      && (k !in m.waiting + m.running && m.dag[k].status != Ready ==> m.dag[k].status == StatusDue(s, before, k, c))
  }

  /** Joining a worktree commits nothing. */
  lemma JoiningKeepsRecord(b: W.Bindings, requirement: string, id: string, r: string)
    ensures var b' := W.Joined(b, requirement, id);
      && requirement in b' && (r in b ==> r in b')
      && (r in b' ==> SameRecord(b'[r], if r in b then b[r] else W.Binding({}, None, None)))
  {
  }

  lemma BeginLeavesRecord(s: DagState, before: W.Bindings, p: Moment, q: Moment, k: string, c: Setting, x: string)
    requires BeginStep(p, q, k, c) && k in s && p.dag[k] == s[k] && x in s && |s[x].refs| == 1
    requires RecordKept(s, before, p, x, c)
    ensures RecordKept(s, before, q, x, c)
  {
    var r := s[x].refs[0];
    if q.bindings != p.bindings || k in q.running {
      if c.managed && |s[k].refs| == 1 {
        JoiningKeepsRecord(p.bindings, s[k].refs[0], k, r);
      }
    }
  }

  lemma BeginKeepsRecorded(s: DagState, before: W.Bindings, p: Moment, q: Moment, ids: set<string>, k: string,
                           c: Setting)
    requires Progress(s, p, ids, c) && AllReady(s, ids) && BeginStep(p, q, k, c) && Recorded(s, before, p, ids, c)
    ensures Recorded(s, before, q, ids, c)
  {
    assert p.dag[k] == s[k];
    forall x | x in ids && x in s && x in q.dag && Uncontested(s, ids, x)
      ensures x in q.waiting + q.running && W.EndsWithVerify(x) && |s[x].refs| == 1 ==> RecordKept(s, before, q, x, c)
      ensures x !in q.waiting + q.running && q.dag[x].status != Ready ==>
              q.dag[x].status == StatusDue(s, before, x, c)
    {
      if x in q.waiting + q.running && W.EndsWithVerify(x) && |s[x].refs| == 1 {
        assert x in p.waiting + p.running;
        BeginLeavesRecord(s, before, p, q, k, c, x);
      }
    }
  }

  lemma SettleLeavesRecord(s: DagState, before: W.Bindings, p: Moment, q: Moment, ids: set<string>, k: string,
                           c: Setting, x: string)
    requires Progress(s, p, ids, c) && SettleStep(p, q, k, c) && k in s && k in ids && x in ids && x in s && x != k
    requires W.EndsWithVerify(x) && |s[x].refs| == 1 && Uncontested(s, ids, x) && RecordKept(s, before, p, x, c)
    ensures RecordKept(s, before, q, x, c)
  {
    assert p.dag[k].refs == s[k].refs;
    if Integrates(k, s[k].refs, c.oracle(c.cycle, k), c.maxToolIterations, c.managed) {
      assert s[k].refs != s[x].refs;
      assert s[k].refs[0] != s[x].refs[0] by {
        assert s[k].refs == [s[k].refs[0]] && s[x].refs == [s[x].refs[0]];
      }
    }
  }

  /** The status depends on the bindings through the record of the requirement only, if a worktree is bound. */
  lemma StatusNeedsRecord(k: string, refs: seq<string>, a: Attempt, maxToolIterations: int, managed: bool,
                          b: W.Bindings, record: W.Binding)
    requires managed && W.EndsWithVerify(k) && |refs| == 1 ==> refs[0] in b && SameRecord(b[refs[0]], record)
    ensures StatusLeft(k, refs, a, maxToolIterations, managed, b) ==
            StatusLeft(k, refs, a, maxToolIterations, managed, if |refs| == 1 then map[refs[0] := record] else map[])
  {
  }

  lemma SettleKeepsRecorded(s: DagState, before: W.Bindings, p: Moment, q: Moment, ids: set<string>, k: string,
                            c: Setting)
    requires Progress(s, p, ids, c) && AllReady(s, ids) && SettleStep(p, q, k, c) && Recorded(s, before, p, ids, c)
    ensures Recorded(s, before, q, ids, c)
  {
    var refs := s[k].refs;
    assert p.dag[k].refs == refs;
    forall x | x in ids && x in s && x in q.dag && Uncontested(s, ids, x)
      ensures x in q.waiting + q.running && W.EndsWithVerify(x) && |s[x].refs| == 1 ==> RecordKept(s, before, q, x, c)
      ensures x !in q.waiting + q.running && q.dag[x].status != Ready ==>
              q.dag[x].status == StatusDue(s, before, x, c)
    {
      if x == k {
        StatusNeedsRecord(k, refs, c.oracle(c.cycle, k), c.maxToolIterations, c.managed, p.bindings,
                          OnRecord(before, if |refs| == 1 then refs[0] else ""));
      } else if W.EndsWithVerify(x) && |s[x].refs| == 1 && x in p.waiting + p.running {
        SettleLeavesRecord(s, before, p, q, ids, k, c, x);
      }
    }
  }

  lemma StepKeepsRecorded(s: DagState, before: W.Bindings, p: Moment, q: Moment, ids: set<string>, k: string,
                          c: Setting)
    requires Progress(s, p, ids, c) && AllReady(s, ids) && Recorded(s, before, p, ids, c)
    requires BeginStep(p, q, k, c) || SettleStep(p, q, k, c)
    ensures Recorded(s, before, q, ids, c)
  {
    if BeginStep(p, q, k, c) {
      BeginKeepsRecorded(s, before, p, q, ids, k, c);
    } else {
      SettleKeepsRecorded(s, before, p, q, ids, k, c);
    }
  }

  ghost predicate Fits(bound: set<string>, s: DagState, ids: set<string>, c: Setting)
    requires ids <= s.Keys
  {
    c.managed ==> |bound + Requirements(s, ids)| <= c.maxActive
  }

  ghost predicate PendingCase(s: DagState, bound: set<string>, ids: set<string>, c: Setting)
    requires ids <= s.Keys
  {
    c.managed && QuietFor(ids, c) && BoundPending(s, bound) && forall k | k in ids :: HasVerifier(s, ids, k)
  }

  /** All of the above, for a batch that starts from s with the given requirements bound. */
  ghost predicate BatchInvariant(s: DagState, before: W.Bindings, m: Moment, ids: set<string>, c: Setting) {
    var bound := before.Keys;
    && Progress(s, m, ids, c) && OnlyStatuses(s, m.dag) && (DependencyClosed(s) ==> DependencyClosed(m.dag))
    && m.bound <= bound + Requirements(s, ids)
    && (Fits(bound, s, ids, c) ==> !m.starved)
    && (QuietFor(ids, c) && Fits(bound, s, ids, c) ==> Calm(m, ids, c))
    && (c.managed ==> Held(s, m, ids)) && Recorded(s, before, m, ids, c) && NoneThrew(m, ids, c)
    && (PendingCase(s, bound, ids, c) ==> BoundPending(m.dag, m.bound))
  }

  lemma OnlyStatusesTransitive(s0: DagState, s1: DagState, s2: DagState)
    requires OnlyStatuses(s0, s1) && OnlyStatuses(s1, s2)
    ensures OnlyStatuses(s0, s2)
  {
  }

  lemma StepNeverStarvesUnmanaged(p: Moment, q: Moment, c: Setting)
    requires Step(p, q, c) && !c.managed
    ensures q.starved == p.starved
  {
  }

  lemma StepKeepsNoneThrew(s: DagState, p: Moment, q: Moment, ids: set<string>, c: Setting)
    requires Progress(s, p, ids, c) && NoneThrew(p, ids, c) && Step(p, q, c)
    ensures NoneThrew(q, ids, c)
  {
    var k :| BeginStep(p, q, k, c) || SettleStep(p, q, k, c);
  }

  lemma StepKeepsCapacity(s: DagState, before: W.Bindings, p: Moment, q: Moment, ids: set<string>, c: Setting)
    requires BatchInvariant(s, before, p, ids, c) && AllReady(s, ids) && Step(p, q, c)
    ensures q.bound <= before.Keys + Requirements(s, ids)
    ensures Fits(before.Keys, s, ids, c) ==> !q.starved
    ensures c.managed ==> Held(s, q, ids)
  {
    StepStaysAdmitted(s, p, q, ids, c, before.Keys + Requirements(s, ids));
    if !c.managed {
      StepNeverStarvesUnmanaged(p, q, c);
    } else {
      StepKeepsHeld(s, p, q, ids, c);
    }
  }

  lemma StepStaysQuiet(s: DagState, before: W.Bindings, p: Moment, q: Moment, ids: set<string>, c: Setting)
    requires BatchInvariant(s, before, p, ids, c) && AllReady(s, ids) && Step(p, q, c)
    ensures QuietFor(ids, c) && Fits(before.Keys, s, ids, c) ==> Calm(q, ids, c)
    ensures PendingCase(s, before.Keys, ids, c) ==> BoundPending(q.dag, q.bound)
  {
    if QuietFor(ids, c) && Fits(before.Keys, s, ids, c) {
      StepKeepsCapacity(s, before, p, q, ids, c);
      StepStaysCalm(s, p, q, ids, c);
    }
    if PendingCase(s, before.Keys, ids, c) {
      StepKeepsPending(s, p, q, ids, c);
    }
  }

  lemma StepKeepsProgress(s: DagState, p: Moment, q: Moment, ids: set<string>, k: string, c: Setting)
    requires Progress(s, p, ids, c) && AllReady(s, ids) && (BeginStep(p, q, k, c) || SettleStep(p, q, k, c))
    ensures Progress(s, q, ids, c)
  {
    if BeginStep(p, q, k, c) {
      BeginKeepsProgress(s, p, q, ids, k, c);
    } else {
      SettleKeepsProgress(s, p, q, ids, k, c);
    }
  }

  lemma StepKeepsInvariant(s: DagState, before: W.Bindings, p: Moment, q: Moment, ids: set<string>, k: string,
                           c: Setting)
    requires BatchInvariant(s, before, p, ids, c) && AllReady(s, ids)
    requires BeginStep(p, q, k, c) || SettleStep(p, q, k, c)
    ensures BatchInvariant(s, before, q, ids, c)
  {
    assert Step(p, q, c);
    StepKeepsProgress(s, p, q, ids, k, c);
    StepKeepsRecorded(s, before, p, q, ids, k, c);
    StepKeepsClosure(s, p, q, ids, c);
    OnlyStatusesTransitive(s, p.dag, q.dag);
    StepKeepsNoneThrew(s, p, q, ids, c);
    StepKeepsCapacity(s, before, p, q, ids, c);
    StepStaysQuiet(s, before, p, q, ids, c);
  }

  ghost function StartOf(s: DagState, before: W.Bindings, ids: set<string>): Moment {
    Moment(s, before, ids, {}, false, false)
  }

  lemma BatchStarts(s: DagState, before: W.Bindings, ids: set<string>, c: Setting)
    requires AllReady(s, ids)
    ensures BatchInvariant(s, before, StartOf(s, before, ids), ids, c)
  {
    NothingChanged(s);
  }

  /** A quiet batch whose worktrees fit throws nothing, and every node of it succeeds or, if something went
      wrong for it, needs replanning. */
  lemma QuietBatchEndsCalmly(s: DagState, before: W.Bindings, m: Moment, ids: set<string>, c: Setting)
    requires BatchInvariant(s, before, m, ids, c) && (m.raised || m.waiting == m.running == {})
    requires QuietFor(ids, c) && Fits(before.Keys, s, ids, c)
    ensures !m.raised && m.waiting == m.running == {}
    ensures forall k | k in ids :: k in m.dag && EndsCalmly(m.dag[k].status, c.oracle(c.cycle, k), c.maxToolIterations)
  {
    assert ids - m.waiting - m.running == ids;
  }

  /** A batch whose worktrees fit and can be created throws exactly if some execution in it does. */
  lemma BatchRaisesIff(s: DagState, before: W.Bindings, m: Moment, ids: set<string>, c: Setting)
    requires BatchInvariant(s, before, m, ids, c) && (m.raised || m.waiting == m.running == {})
    requires Fits(before.Keys, s, ids, c) && forall k | k in ids :: c.oracle(c.cycle, k).worktreeCreated
    ensures m.raised <==> exists k :: k in ids && c.oracle(c.cycle, k).crash != NoCrash
  {
    if m.raised {
      assert !QuietFor(ids, c);
    } else {
      assert ids - m.waiting - m.running == ids;
    }
  }

  /** A batch in which nothing goes wrong, and whose worktrees fit, succeeds as a whole. */
  lemma SmoothBatchSucceeds(s: DagState, before: W.Bindings, m: Moment, ids: set<string>, c: Setting)
    requires BatchInvariant(s, before, m, ids, c) && (m.raised || m.waiting == m.running == {})
    requires SmoothFor(ids, c) && Fits(before.Keys, s, ids, c)
    ensures !m.raised && m.dag == SucceededAmong(s, ids)
  {
    QuietBatchEndsCalmly(s, before, m, ids, c);
    forall k | k in s
      ensures m.dag[k] == SucceededAmong(s, ids)[k]
    {
    }
  }

  /** Nothing succeeds in a batch that is not accepted: by the verifier within the budget or, if an exception
      follows, by the cognitive runtime's own. */
  lemma SuccessInBatch(s: DagState, m: Moment, ids: set<string>, k: string, c: Setting)
    requires Progress(s, m, ids, c) && AllReady(s, ids) && k in m.dag && m.dag[k].status == Succeeded
    requires k in s && s[k].status != Succeeded
    ensures k in ids
    ensures var a := c.oracle(c.cycle, k);
      if a.crash == NoCrash then a.accepted && (a.toolRounds == 0 || a.toolRounds <= c.maxToolIterations)
      else a.crash == AfterCognition(VerifiedByItself)
  {
    assert Ended(s[k], m.dag[k].status, k, c);
  }

  /** The same at the end of a batch in terms of the bindings at its beginning, for a node that does not share its
      requirement with another verification node of the batch. */
  lemma AcceptedAndIntegrated(s: DagState, before: W.Bindings, m: Moment, ids: set<string>, k: string, c: Setting)
    requires Progress(s, m, ids, c) && Recorded(s, before, m, ids, c) && AllReady(s, ids)
    requires !m.raised && m.waiting == m.running == {}
    requires k in ids && Uncontested(s, ids, k) && c.oracle(c.cycle, k).crash == NoCrash
    ensures k in m.dag && m.dag[k].status in {Succeeded, ReplanRequired}
    ensures var a, refs := c.oracle(c.cycle, k), s[k].refs;
      m.dag[k].status == Succeeded <==>
        && (a.toolRounds == 0 || a.toolRounds <= c.maxToolIterations) && a.accepted
        && (c.managed && W.EndsWithVerify(k) && |refs| == 1 ==>
              && (a.git.commit.Some? || (refs[0] in before && before[refs[0]].verifiedCommit.Some?))
              && (a.git.integrate.Some? || (refs[0] in before && before[refs[0]].integratedCommit.Some?))
              && a.git.removed && a.git.callbackOk)
  {
    assert m.dag[k].status == StatusDue(s, before, k, c);
  }

  /** The coroutine can take its next step. */
  ghost predicate AtHand(p: Moment, k: string, c: Setting) {
    k in p.dag && (k in p.running ==> p.dag[k].status == CognitiveWork && c.oracle(c.cycle, k).crash != BeforeCognition)
  }

  ghost predicate StepsKeep(keeps: Moment -> bool, c: Setting) {
    && (forall p, k | keeps(p) && k in p.waiting + p.running :: AtHand(p, k, c))
    && (forall p, q, k | keeps(p) && (BeginStep(p, q, k, c) || SettleStep(p, q, k, c)) :: keeps(q))
  }

  lemma InvariantIsKept(s: DagState, before: W.Bindings, ids: set<string>, c: Setting, keeps: Moment -> bool)
    requires AllReady(s, ids) && forall m :: keeps(m) <==> BatchInvariant(s, before, m, ids, c)
    ensures StepsKeep(keeps, c)
  {
    forall p, q, k | keeps(p) && (BeginStep(p, q, k, c) || SettleStep(p, q, k, c))
      ensures keeps(q)
    {
      StepKeepsInvariant(s, before, p, q, ids, k, c);
    }
  }

  /** The batch invariant holds when the batch starts, and every step keeps it. */
  lemma InvariantFor(s: DagState, before: W.Bindings, ids: set<string>, c: Setting) returns (keeps: Moment -> bool)
    requires AllReady(s, ids)
    ensures keeps(StartOf(s, before, ids)) && StepsKeep(keeps, c)
    ensures forall m | keeps(m) :: BatchInvariant(s, before, m, ids, c)
  {
    BatchStarts(s, before, ids, c);
    keeps := (m: Moment) => BatchInvariant(s, before, m, ids, c);
    InvariantIsKept(s, before, ids, c, keeps);
  }

  /** Each moment comes from the one before it by a step of a coroutine. */
  ghost predicate StepByStep(moments: seq<Moment>, c: Setting) {
    forall i | 0 < i < |moments| :: Step(moments[i - 1], moments[i], c)
  }

  /** A batch has come from start to m, coroutine step by coroutine step. */
  ghost predicate Traced(trace: seq<Moment>, start: Moment, m: Moment, c: Setting) {
    trace != [] && trace[0] == start && trace[|trace| - 1] == m && StepByStep(trace, c)
  }

  lemma TraceGrows(trace: seq<Moment>, start: Moment, p: Moment, q: Moment, k: string, c: Setting)
    requires Traced(trace, start, p, c) && (BeginStep(p, q, k, c) || SettleStep(p, q, k, c))
    ensures Traced(trace + [q], start, q, c)
  {
    var longer := trace + [q];
    assert Step(p, q, c);
    forall i | 0 < i < |longer|
      ensures Step(longer[i - 1], longer[i], c)
    {
      assert i < |trace| ==> Step(trace[i - 1], trace[i], c);
    }
  }

  lemma StepLeavesSettled(p: Moment, q: Moment, k: string, c: Setting)
    requires Step(p, q, c) && k in p.dag && k !in p.waiting && k !in p.running
    ensures k in q.dag && q.dag[k] == p.dag[k] && k !in q.waiting && k !in q.running
  {
  }

  lemma {:induction false} SettledIsFinal(trace: seq<Moment>, i: nat, j: nat, k: string, c: Setting)
    requires i <= j < |trace| && StepByStep(trace, c)
    requires k in trace[i].dag && k !in trace[i].waiting && k !in trace[i].running
    ensures k in trace[j].dag && trace[j].dag[k] == trace[i].dag[k] && k !in trace[j].waiting && k !in trace[j].running
    decreases j
  {
    if i < j {
      var before := j - 1;
      SettledIsFinal(trace, i, before, k, c);
      assert Step(trace[before], trace[j], c);
      StepLeavesSettled(trace[before], trace[j], k, c);
    }
  }

  /** Whatever the other coroutines do: a node whose execution throws nothing ends the batch with success exactly if
      it was accepted within its budget and, if a worktree of its requirement is bound when a verification node
      settles, what is missing is committed and integrated, the worktree is removed and the callback does not raise.
      Otherwise it ends the batch in REPLAN_REQUIRED. */
  lemma IntegrationDecides(trace: seq<Moment>, i: nat, j: nat, k: string, c: Setting)
    requires 0 < i <= j < |trace| && StepByStep(trace, c) && SettleStep(trace[i - 1], trace[i], k, c)
    requires c.oracle(c.cycle, k).crash == NoCrash && trace[i - 1].waiting !! trace[i - 1].running
    ensures k in trace[j].dag && trace[j].dag[k].status in {Succeeded, ReplanRequired}
    ensures var a, refs, bindings := c.oracle(c.cycle, k), trace[i - 1].dag[k].refs, trace[i - 1].bindings;
      trace[j].dag[k].status == Succeeded <==>
        && (a.toolRounds == 0 || a.toolRounds <= c.maxToolIterations) && a.accepted
        && (c.managed && W.EndsWithVerify(k) && |refs| == 1 && refs[0] in bindings ==>
              && (bindings[refs[0]].verifiedCommit.Some? || a.git.commit.Some?)
              && (bindings[refs[0]].integratedCommit.Some? || a.git.integrate.Some?)
              && a.git.removed && a.git.callbackOk)
  {
    SettledIsFinal(trace, i, j, k, c);
  }

  lemma {:induction false} StepsKeepThroughout(moments: seq<Moment>, n: nat, c: Setting, keeps: Moment -> bool)
    requires n < |moments| && StepsKeep(keeps, c) && StepByStep(moments, c) && keeps(moments[0])
    ensures keeps(moments[n])
    decreases n
  {
    if n > 0 {
      var before := n - 1;
      StepsKeepThroughout(moments, before, c, keeps);
      assert Step(moments[before], moments[n], c);
    }
  }

  /** gather leaves a batch at its first exception, and the other coroutines may go on: what holds when it leaves
      holds after everything that they still do. */
  lemma StragglersKeepInvariant(s: DagState, before: W.Bindings, moments: seq<Moment>, n: nat, ids: set<string>,
                                c: Setting)
    requires n < |moments| && AllReady(s, ids) && BatchInvariant(s, before, moments[0], ids, c)
    requires StepByStep(moments, c)
    ensures BatchInvariant(s, before, moments[n], ids, c)
  {
    var keeps := (m: Moment) => BatchInvariant(s, before, m, ids, c);
    InvariantIsKept(s, before, ids, c, keeps);
    StepsKeepThroughout(moments, n, c, keeps);
  }
}
