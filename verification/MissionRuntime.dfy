/** The mission loop (intelligence/mission_runtime.py): the same DAG, worked off one ready node after
    another, with its own rule for readiness. Models, councils and the verifier are oracles. */
module MissionRuntime {
  import opened Digraphs
  import opened Schemas
  import opened Sequences
  import opened DagProgress
  import opened DagInvariants
  import opened AgencyTheory
  import opened Reporting

  // ---- Readiness: dependencies in the DAG and succeeded; none is fine ----

  ghost predicate Refreshable(s: DagState, k: string)
    requires k in s
  {
    s[k].status == Planned && DependenciesDone(s, k)
  }

  ghost function RefreshedAmong(s: DagState, ids: set<string>): DagState {
    map k | k in s :: if k in ids && Refreshable(s, k) then s[k].(status := Ready) else s[k]
  }

  ghost function Refreshed(s: DagState): DagState {
    RefreshedAmong(s, s.Keys)
  }

  /** The two loops differ about planned nodes without dependencies, and about nothing else. */
  lemma ReadinessRulesDiffer(s: DagState, k: string)
    requires k in s
    ensures Refreshed(s)[k] != Promoted(s)[k] <==> s[k].status == Planned && s[k].deps == []
  {
    if s[k].deps == [] {
      assert DependenciesDone(s, k);
    }
  }

  /** A planned node is ready when everything that it depends on is there and has succeeded; no other node changes. */
  lemma RefreshIsExact(s: DagState)
    ensures var t := Refreshed(s);
      && t.Keys == s.Keys
      && forall k | k in s ::
        var due := s[k].status == Planned && forall d | d in s[k].deps :: d in s && s[d].status == Succeeded;
        t[k] == if due then s[k].(status := Ready) else s[k]
  {
  }

  lemma RefreshedAmongStep(s: DagState, ids: set<string>, k: string)
    requires k in s && k !in ids
    ensures var t := RefreshedAmong(s, ids);
      && k in t && t[k] == s[k] && (DependenciesDone(t, k) <==> DependenciesDone(s, k))
      && RefreshedAmong(s, ids + {k}) == if Refreshable(s, k) then t[k := t[k].(status := Ready)] else t
  {
    var t := RefreshedAmong(s, ids);
    forall d
      ensures IsDone(t, d) <==> IsDone(s, d)
    {
    }
  }

  lemma RefreshKeepsClosure(s: DagState)
    ensures OnlyStatuses(s, Refreshed(s)) && (DependencyClosed(s) ==> DependencyClosed(Refreshed(s)))
    ensures Finished(Refreshed(s)) == Finished(s)
  {
    var t := Refreshed(s);
    forall d
      ensures IsDone(t, d) <==> IsDone(s, d)
    {
    }
    if DependencyClosed(s) {
      forall k | k in t && Started(t[k].status)
        ensures DependenciesDone(t, k)
      {
        assert DependenciesDone(s, k);
      }
    }
  }

  method RefreshOne(dag: TaskDAG, k: string)
    requires dag.Valid() && k in dag.nodes
    modifies dag.nodes[k]
    ensures dag.View() ==
            if Refreshable(old(dag.View()), k) then old(dag.View())[k := old(dag.View())[k].(status := Ready)]
                          else old(dag.View())
  {
    if dag.nodes[k].status != Planned {
      return;
    }
    var all := AllSucceeded(dag, k);
    if all {
      dag.SetStatus(k, Ready);
    }
  }

  /** The first i nodes of the dictionary have been refreshed. */
  ghost predicate RefreshedUpTo(s: DagState, t: DagState, ids: seq<string>, i: nat)
    requires i <= |ids|
  {
    t == RefreshedAmong(s, Prefix(ids, i))
  }

  lemma RefreshedNext(s: DagState, t: DagState, t': DagState, ids: seq<string>, i: nat)
    requires NoDuplicates(ids) && i < |ids| && ids[i] in s && RefreshedUpTo(s, t, ids, i)
    requires ids[i] in t && t' == if Refreshable(t, ids[i]) then t[ids[i] := t[ids[i]].(status := Ready)] else t
    ensures RefreshedUpTo(s, t', ids, i + 1)
  {
    PrefixGrows(ids, i);
    RefreshedAmongStep(s, Prefix(ids, i), ids[i]);
  }

  lemma NothingRefreshed(s: DagState, ids: seq<string>)
    ensures RefreshedUpTo(s, s, ids, 0)
  {
  }

  lemma AllRefreshed(s: DagState, t: DagState, ids: seq<string>)
    requires RefreshedUpTo(s, t, ids, |ids|) && forall k :: k in ids <==> k in s
    ensures t == Refreshed(s)
  {
    PrefixIsAll(ids, s.Keys);
  }

  method RefreshReadyNodes(dag: TaskDAG)
    requires dag.Valid()
    modifies dag.nodes.Values
    ensures dag.View() == Refreshed(old(dag.View()))
  {
    ghost var s := dag.View();
    ghost var t := s;
    var ids := dag.order;
    NothingRefreshed(s, ids);
    for i := 0 to |ids|
      invariant dag.View() == t && t.Keys == s.Keys && RefreshedUpTo(s, t, ids, i)
    {
      ghost var before := t;
      RefreshOne(dag, ids[i]);
      t := dag.View();
      RefreshedNext(s, before, t, ids, i);
    }
    AllRefreshed(s, t, ids);
  }

  // ---- Executing one node ----

  datatype MissionCrash = NoCrash | RefusedAtStart | CouncilFailed | CognitionFailed | VerifierFailed

  datatype MissionAttempt = MissionAttempt(crash: MissionCrash, toolCalls: bool, accepted: bool)

  type MissionOracle = (nat, string) -> MissionAttempt

  function StatusAfter(a: MissionAttempt, hasVerifier: bool): TaskNodeStatus {
    match a.crash
    case RefusedAtStart => Ready
    case CouncilFailed => Blocked
    case CognitionFailed => CognitiveWork
    case VerifierFailed => Verifying
    case NoCrash =>
      if a.toolCalls then ToolProposed
      else if !hasVerifier then Verifying
      else if a.accepted then Succeeded else ReplanRequired
  }

  predicate Accepts(a: MissionAttempt) {
    a.crash == NoCrash && !a.toolCalls && a.accepted
  }

  ghost function WorkedAmong(s: DagState, ids: set<string>, cycle: nat, oracle: MissionOracle,
                             hasVerifier: bool): DagState {
    map k | k in s :: if k in ids then s[k].(status := StatusAfter(oracle(cycle, k), hasVerifier)) else s[k]
  }

  lemma WorkedAmongStep(s: DagState, ids: set<string>, k: string, cycle: nat, oracle: MissionOracle, hasVerifier: bool)
    requires k in s && k !in ids
    ensures var t := WorkedAmong(s, ids, cycle, oracle, hasVerifier);
      && k in t && t[k] == s[k]
      && WorkedAmong(s, ids + {k}, cycle, oracle, hasVerifier) ==
         t[k := t[k].(status := StatusAfter(oracle(cycle, k), hasVerifier))]
  {
  }

  /** Work on ready nodes keeps closure, whatever comes of it. */
  lemma {:induction false} WorkKeepsMissionClosure(s: DagState, ids: set<string>, cycle: nat, oracle: MissionOracle,
                                                   hasVerifier: bool)
    requires forall k | k in ids :: k in s && s[k].status == Ready
    ensures var t := WorkedAmong(s, ids, cycle, oracle, hasVerifier);
      OnlyStatuses(s, t) && (DependencyClosed(s) ==> DependencyClosed(t))
    decreases ids
  {
    if ids == {} {
      assert WorkedAmong(s, {}, cycle, oracle, hasVerifier) == s;
    } else {
      var k :| k in ids;
      var t := WorkedAmong(s, ids - {k}, cycle, oracle, hasVerifier);
      WorkKeepsMissionClosure(s, ids - {k}, cycle, oracle, hasVerifier);
      WorkedAmongStep(s, ids - {k}, k, cycle, oracle, hasVerifier);
      WorkKeepsClosure(t, k, StatusAfter(oracle(cycle, k), hasVerifier));
      assert ids - {k} + {k} == ids;
    }
  }

  // ---- The loop ----

  ghost predicate InPlay(s: DagState) {
    && AcyclicDag(s) && NoDangling(s) && DependencyClosed(s)
    && forall k | k in s :: s[k].status == Planned || s[k].status == Ready || s[k].status == Succeeded
  }

  lemma SomeNodeRefreshes(s: DagState) returns (k: string)
    requires InPlay(s) && !AllFinished(s)
    ensures k in s && Refreshed(s)[k].status == Ready
  {
    var open := set x | x in s && s[x].status != Succeeded;
    var y :| y in s && s[y].status != Succeeded;
    assert y in open;
    k := MinimalElement(EdgesOf(s), open);
    forall d | d in s[k].deps
      ensures IsDone(s, d)
    {
      assert (k, d) in EdgesOf(s);
    }
  }

  ghost predicate Accepted(oracle: MissionOracle, hasVerifier: bool) {
    hasVerifier && forall cycle: nat, k: string :: Accepts(oracle(cycle, k))
  }

  lemma AcceptedWorkSucceeds(s: DagState, ids: set<string>, cycle: nat, oracle: MissionOracle)
    requires Accepted(oracle, true)
    ensures WorkedAmong(s, ids, cycle, oracle, true) == SucceededAmong(s, ids)
  {
    forall k | k in ids
      ensures StatusAfter(oracle(cycle, k), true) == Succeeded
    {
      assert Accepts(oracle(cycle, k));
    }
  }

  lemma SuccessStaysInPlay(s: DagState, ids: set<string>)
    requires InPlay(s) && forall k | k in ids :: k in s && s[k].status == Ready
    ensures InPlay(SucceededAmong(s, ids)) && |Finished(SucceededAmong(s, ids))| == |Finished(s)| + |ids|
  {
    SameDependencies(s, SucceededAmong(s, ids));
    SuccessKeepsClosure(s, ids);
    assert Finished(SucceededAmong(s, ids)) == Finished(s) + ids && Finished(s) !! ids;
  }

  lemma RefreshStaysInPlay(s: DagState)
    requires InPlay(s)
    ensures InPlay(Refreshed(s))
  {
    RefreshKeepsClosure(s);
    SameDependencies(s, Refreshed(s));
  }

  lemma CycleAdvances(s: DagState, ids: set<string>, cycle: nat, oracle: MissionOracle)
    requires InPlay(s) && Accepted(oracle, true)
    requires forall k :: k in ids <==> k in s && Refreshed(s)[k].status == Ready
    ensures var t := WorkedAmong(Refreshed(s), ids, cycle, oracle, true);
      && InPlay(t) && (AllFinished(s) || |Finished(t)| > |Finished(s)|) && t.Keys == s.Keys
      && (AllFinished(s) <==> ids == {})
  {
    RefreshStaysInPlay(s);
    RefreshKeepsClosure(s);
    AcceptedWorkSucceeds(Refreshed(s), ids, cycle, oracle);
    SuccessStaysInPlay(Refreshed(s), ids);
    if !AllFinished(s) {
      var k := SomeNodeRefreshes(s);
      assert k in ids;
    } else {
      assert forall k :: k !in ids;
    }
  }

  /** The state a mission run keeps: safe for all answers, and on its way when everything is accepted. */
  ghost predicate MissionKept(s0: DagState, s: DagState, cycles: nat, oracle: MissionOracle, hasVerifier: bool) {
    && Evolves(s0, s) && (DependencyClosed(s0) ==> DependencyClosed(s))
    && (InPlay(s0) && Accepted(oracle, hasVerifier) ==>
          InPlay(s) && s.Keys == s0.Keys && (AllFinished(s) || |Finished(s)| >= |Finished(s0)| + cycles))
  }

  lemma CycleKeeps(s0: DagState, s: DagState, ids: set<string>, cycle: nat, oracle: MissionOracle, hasVerifier: bool)
    requires cycle >= 1 && MissionKept(s0, s, cycle - 1, oracle, hasVerifier)
    requires forall k :: k in ids <==> k in s && Refreshed(s)[k].status == Ready
    ensures MissionKept(s0, WorkedAmong(Refreshed(s), ids, cycle, oracle, hasVerifier), cycle, oracle, hasVerifier)
    ensures InPlay(s0) && Accepted(oracle, hasVerifier) && ids == {} ==> AllFinished(s)
  {
    var r := Refreshed(s);
    var t := WorkedAmong(r, ids, cycle, oracle, hasVerifier);
    RefreshKeepsClosure(s);
    WorkKeepsMissionClosure(r, ids, cycle, oracle, hasVerifier);
    StatusesEvolve(s, r);
    StatusesEvolve(r, t);
    EvolvesTransitive(s, r, t);
    EvolvesTransitive(s0, s, t);
    if InPlay(s0) && Accepted(oracle, hasVerifier) {
      CycleAdvances(s, ids, cycle, oracle);
      if AllFinished(s) {
        assert ids == {};
        assert WorkedAmong(r, {}, cycle, oracle, true) == r;
      }
    }
  }

  // ---- A whole run, as a function of the answers ----

  /** The index of the first node whose execution throws; their number if none does. */
  function FirstThrow(ready: seq<string>, cycle: nat, oracle: MissionOracle): (n: nat)
    ensures n <= |ready|
    ensures forall i | 0 <= i < n :: oracle(cycle, ready[i]).crash == NoCrash
    ensures n < |ready| ==> oracle(cycle, ready[n]).crash != NoCrash
  {
    if ready == [] || oracle(cycle, ready[0]).crash != NoCrash then 0 else 1 + FirstThrow(ready[1..], cycle, oracle)
  }

  function HowMany(ready: seq<string>, cycle: nat, oracle: MissionOracle): (n: nat)
    ensures n <= |ready|
  {
    var n := FirstThrow(ready, cycle, oracle);
    if n < |ready| then n + 1 else n
  }

  /** The first i of the ready nodes executed, one after the other. */
  ghost function WorkedUpTo(s: DagState, ready: seq<string>, i: nat, cycle: nat, oracle: MissionOracle,
                            hasVerifier: bool): (t: DagState)
    requires i <= |ready| && forall k | k in ready :: k in s
    ensures t.Keys == s.Keys
  {
    if i == 0 then s
    else
      var t, k := WorkedUpTo(s, ready, i - 1, cycle, oracle, hasVerifier), ready[i - 1];
      t[k := t[k].(status := StatusAfter(oracle(cycle, k), hasVerifier))]
  }

  lemma {:induction false} WorkedUpToIsAmong(s: DagState, ready: seq<string>, i: nat, cycle: nat,
                                             oracle: MissionOracle, hasVerifier: bool)
    requires i <= |ready| && NoDuplicates(ready) && forall k | k in ready :: k in s
    ensures WorkedUpTo(s, ready, i, cycle, oracle, hasVerifier) ==
            WorkedAmong(s, Members(ready[..i]), cycle, oracle, hasVerifier)
    decreases i
  {
    if i > 0 {
      WorkedUpToIsAmong(s, ready, i - 1, cycle, oracle, hasVerifier);
      assert ready[..i] == ready[..i - 1] + [ready[i - 1]];
      MembersAppend(ready[..i - 1], ready[i - 1]);
      WorkedAmongStep(s, Members(ready[..i - 1]), ready[i - 1], cycle, oracle, hasVerifier);
    }
  }

  lemma NextWorked(s: DagState, ready: seq<string>, i: nat, cycle: nat, oracle: MissionOracle, hasVerifier: bool)
    requires i < |ready| && NoDuplicates(ready) && forall k | k in ready :: k in s
    ensures var t, k := WorkedUpTo(s, ready, i, cycle, oracle, hasVerifier), ready[i];
      && t[k] == s[k]
      && WorkedUpTo(s, ready, i + 1, cycle, oracle, hasVerifier) ==
         t[k := t[k].(status := StatusAfter(oracle(cycle, k), hasVerifier))]
  {
    WorkedUpToIsAmong(s, ready, i, cycle, oracle, hasVerifier);
  }

  /** What executing the i-th of the ready nodes comes to. */
  lemma NextExecution(s: DagState, t: DagState, ready: seq<string>, i: nat, k: string, a: MissionAttempt, cycle: nat,
                      oracle: MissionOracle, hasVerifier: bool) returns (next: nat)
    requires i < |ready| && k == ready[i] && a == oracle(cycle, k) && NoDuplicates(ready)
    requires forall x | x in ready :: x in s
    requires t == WorkedUpTo(s, ready, i, cycle, oracle, hasVerifier) && i <= FirstThrow(ready, cycle, oracle)
    ensures next == i + 1 && k in t && t[k] == s[k]
    ensures WorkedUpTo(s, ready, next, cycle, oracle, hasVerifier) ==
            t[k := t[k].(status := StatusAfter(a, hasVerifier))]
    ensures var first := FirstThrow(ready, cycle, oracle); if a.crash == NoCrash then next <= first else i == first
  {
    next := i + 1;
    NextWorked(s, ready, i, cycle, oracle, hasVerifier);
  }

  /** The nodes that a cycle executes: the ready ones in order, up to the one that throws. */
  ghost function Executed(ready: seq<string>, cycle: nat, oracle: MissionOracle): set<string> {
    Members(ready[..HowMany(ready, cycle, oracle)])
  }

  datatype CycleEnd = CycleEnd(dag: DagState, idle: bool, threw: bool)

  ghost function AfterCycle(s: DagState, order: seq<string>, cycle: nat, oracle: MissionOracle,
                            hasVerifier: bool): CycleEnd {
    var ready := ReadyIn(Refreshed(s), order);
    CycleEnd(WorkedAmong(Refreshed(s), Executed(ready, cycle, oracle), cycle, oracle, hasVerifier),
             ready == [], FirstThrow(ready, cycle, oracle) < |ready|)
  }

  lemma ExecutedAt(ready: seq<string>, i: nat, cycle: nat, oracle: MissionOracle)
    requires NoDuplicates(ready) && i < |ready|
    ensures ready[i] in Executed(ready, cycle, oracle) <==>
            forall j | 0 <= j < i :: oracle(cycle, ready[j]).crash == NoCrash
  {
    var n, many := FirstThrow(ready, cycle, oracle), HowMany(ready, cycle, oracle);
    assert i < many ==> ready[i] == ready[..many][i];
  }

  /** Of one cycle: it is idle if nothing is ready, and it throws if some ready node does. */
  lemma CycleStopsForCause(s: DagState, order: seq<string>, cycle: nat, oracle: MissionOracle, hasVerifier: bool)
    requires forall k :: k in order <==> k in s
    ensures var c, t := AfterCycle(s, order, cycle, oracle, hasVerifier), Refreshed(s);
      && (c.idle <==> forall k | k in s :: t[k].status != Ready)
      && (c.threw <==> exists k :: k in s && t[k].status == Ready && oracle(cycle, k).crash != NoCrash)
  {
    var t, ready := Refreshed(s), ReadyIn(Refreshed(s), order);
    var n := FirstThrow(ready, cycle, oracle);
    assert forall k :: k in ready <==> k in s && t[k].status == Ready;
    if n < |ready| {
      assert ready[n] in ready;
    }
    if ready != [] {
      assert ready[0] in ready;
    }
  }

  /** A cycle works on the ready nodes in dictionary order, and leaves those after the first that throws, and all
      others, as the refresh left them. */
  lemma CycleIsExact(s: DagState, order: seq<string>, cycle: nat, oracle: MissionOracle, hasVerifier: bool, k: string)
    requires NoDuplicates(order) && (forall x :: x in order <==> x in s) && k in s
    ensures var c, t := AfterCycle(s, order, cycle, oracle, hasVerifier), Refreshed(s);
      var ready := ReadyIn(t, order);
      && Subsequence(ready, order) && k in c.dag
      && (k !in ready ==> c.dag[k] == t[k] && t[k].status != Ready)
      && forall i | 0 <= i < |ready| && ready[i] == k ::
        var reached := forall j | 0 <= j < i :: oracle(cycle, ready[j]).crash == NoCrash;
        c.dag[k] == if reached then t[k].(status := StatusAfter(oracle(cycle, k), hasVerifier)) else t[k]
  {
    var ready := ReadyIn(Refreshed(s), order);
    ReadyInKeepsOrder(Refreshed(s), order);
    forall i | 0 <= i < |ready| && ready[i] == k
      ensures k in Executed(ready, cycle, oracle) <==>
              forall j | 0 <= j < i :: oracle(cycle, ready[j]).crash == NoCrash
    {
      ExecutedAt(ready, i, cycle, oracle);
    }
  }

  datatype MissionEnd = MissionEnd(dag: DagState, cycles: nat, threw: bool)

  /** Cycle after cycle until one throws, has nothing ready, or nothing could verify its work. */
  ghost function MissionRun(s: DagState, order: seq<string>, cycles: nat, maxCycles: int, oracle: MissionOracle,
                            hasVerifier: bool): MissionEnd
    decreases maxCycles - cycles
  {
    if cycles >= maxCycles then MissionEnd(s, cycles, false)
    else
      var c := AfterCycle(s, order, cycles + 1, oracle, hasVerifier);
      if c.threw || c.idle || !hasVerifier then MissionEnd(c.dag, cycles + 1, c.threw)
      else MissionRun(c.dag, order, cycles + 1, maxCycles, oracle, hasVerifier)
  }

  lemma MissionRunStep(s: DagState, order: seq<string>, before: nat, now: nat, c: CycleEnd, maxCycles: int,
                       oracle: MissionOracle, hasVerifier: bool)
    requires now == before + 1 && before < maxCycles && c == AfterCycle(s, order, now, oracle, hasVerifier)
    ensures MissionRun(s, order, before, maxCycles, oracle, hasVerifier) ==
            if c.threw || c.idle || !hasVerifier then MissionEnd(c.dag, now, c.threw)
            else MissionRun(c.dag, order, now, maxCycles, oracle, hasVerifier)
  {
  }

  lemma {:induction false} CyclesGrow(s: DagState, order: seq<string>, before: nat, maxCycles: int,
                                      oracle: MissionOracle, hasVerifier: bool)
    ensures MissionRun(s, order, before, maxCycles, oracle, hasVerifier).cycles >= before
    decreases maxCycles - before
  {
    if before < maxCycles {
      var now := before + 1;
      var c := AfterCycle(s, order, now, oracle, hasVerifier);
      MissionRunStep(s, order, before, now, c, maxCycles, oracle, hasVerifier);
      CyclesGrow(c.dag, order, now, maxCycles, oracle, hasVerifier);
    }
  }

  /** A cycle leads from s to t, and the loop goes on. */
  ghost predicate Continues(s: DagState, t: DagState, order: seq<string>, cycle: nat, oracle: MissionOracle,
                            hasVerifier: bool) {
    AfterCycle(s, order, cycle, oracle, hasVerifier) == CycleEnd(t, false, false) && hasVerifier
  }

  /** A cycle leads from s to t, and the loop ends with it, whatever is left of max_cycles. */
  ghost predicate Stops(s: DagState, t: DagState, threw: bool, order: seq<string>, cycle: nat, oracle: MissionOracle,
                        hasVerifier: bool) {
    var c := AfterCycle(s, order, cycle, oracle, hasVerifier);
    c.dag == t && c.threw == threw && (threw || c.idle || !hasVerifier)
  }

  /** One cycle after the other leads from each state to the next, and the loop goes on after it. */
  ghost predicate Chained(states: seq<DagState>, before: nat, link: (DagState, DagState, nat) -> bool) {
    states != [] && forall i | 0 <= i < |states| - 1 :: link(states[i], states[i + 1], before + i + 1)
  }

  lemma ChainGrows(s: DagState, states: seq<DagState>, before: nat, now: nat, link: (DagState, DagState, nat) -> bool)
    requires Chained(states, now, link) && now == before + 1 && link(s, states[0], now)
    ensures Chained([s] + states, before, link)
  {
    var longer := [s] + states;
    forall i | 0 <= i < |longer| - 1
      ensures link(longer[i], longer[i + 1], before + i + 1)
    {
      if i > 0 {
        var j := i - 1;
        assert link(states[j], states[j + 1], now + j + 1);
      }
    }
  }

  ghost function CycleLink(order: seq<string>, oracle: MissionOracle,
                           hasVerifier: bool): (DagState, DagState, nat) -> bool {
    (s: DagState, t: DagState, cycle: nat) => Continues(s, t, order, cycle, oracle, hasVerifier)
  }

  /** The loop comes to its end after the last of these states: max_cycles is reached, or one more cycle stops it. */
  ghost predicate EndsAfter(last: DagState, done: nat, end: MissionEnd, order: seq<string>, maxCycles: int,
                            oracle: MissionOracle, hasVerifier: bool) {
    if done >= maxCycles then end == MissionEnd(last, done, false)
    else end.cycles == done + 1 && Stops(last, end.dag, end.threw, order, end.cycles, oracle, hasVerifier)
  }

  /** A run is its cycles, one after the other, until one of them throws, has nothing ready or has no verifier to go
      to, and no longer than max_cycles. */
  lemma {:induction false} RunIsItsCycles(s: DagState, order: seq<string>, before: nat, maxCycles: int,
                                          oracle: MissionOracle, hasVerifier: bool)
    returns (states: seq<DagState>)
    ensures Chained(states, before, CycleLink(order, oracle, hasVerifier)) && states[0] == s
    ensures EndsAfter(states[|states| - 1], before + |states| - 1,
                      MissionRun(s, order, before, maxCycles, oracle, hasVerifier), order, maxCycles, oracle,
                      hasVerifier)
    decreases maxCycles - before
  {
    states := [s];
    if before < maxCycles {
      var now := before + 1;
      var c := AfterCycle(s, order, now, oracle, hasVerifier);
      MissionRunStep(s, order, before, now, c, maxCycles, oracle, hasVerifier);
      if !c.threw && !c.idle && hasVerifier {
        var rest := RunIsItsCycles(c.dag, order, now, maxCycles, oracle, hasVerifier);
        ChainGrows(s, rest, before, now, CycleLink(order, oracle, hasVerifier));
        states := [s] + rest;
      }
    }
  }

  /** A verifier has accepted the work on k in one of the first cycles. */
  ghost predicate AcceptedBy(k: string, cycles: nat, oracle: MissionOracle, hasVerifier: bool) {
    hasVerifier && exists cycle :: 1 <= cycle <= cycles && oracle(cycle, k) == MissionAttempt(NoCrash, false, true)
  }

  lemma CycleSuccessIsEarned(s: DagState, order: seq<string>, cycle: nat, oracle: MissionOracle, hasVerifier: bool,
                             k: string)
    requires cycle >= 1 && IsDone(AfterCycle(s, order, cycle, oracle, hasVerifier).dag, k) && !IsDone(s, k)
    ensures AcceptedBy(k, cycle, oracle, hasVerifier)
  {
    var a := oracle(cycle, k);
    assert StatusAfter(a, hasVerifier) == Succeeded;
    assert a == MissionAttempt(NoCrash, false, true);
  }

  /** No run calls work a success that no verifier has accepted in it. */
  lemma {:induction false} SuccessIsEarned(s: DagState, order: seq<string>, before: nat, maxCycles: int,
                                           oracle: MissionOracle, hasVerifier: bool, k: string)
    requires var end := MissionRun(s, order, before, maxCycles, oracle, hasVerifier);
             IsDone(end.dag, k) && !IsDone(s, k)
    ensures AcceptedBy(k, MissionRun(s, order, before, maxCycles, oracle, hasVerifier).cycles, oracle, hasVerifier)
    decreases maxCycles - before
  {
    if before < maxCycles {
      var now := before + 1;
      var c := AfterCycle(s, order, now, oracle, hasVerifier);
      MissionRunStep(s, order, before, now, c, maxCycles, oracle, hasVerifier);
      CyclesGrow(c.dag, order, now, maxCycles, oracle, hasVerifier);
      if IsDone(c.dag, k) {
        CycleSuccessIsEarned(s, order, now, oracle, hasVerifier, k);
      } else {
        SuccessIsEarned(c.dag, order, now, maxCycles, oracle, hasVerifier, k);
      }
    }
  }

  lemma NothingEvolves(s: DagState)
    ensures Evolves(s, s) && forall oracle, hasVerifier :: MissionKept(s, s, 0, oracle, hasVerifier)
  {
    StatusesEvolve(s, s);
  }

  lemma CycleIsSafe(s: DagState, done: set<string>, cycle: nat, oracle: MissionOracle, hasVerifier: bool)
    requires forall k | k in done :: k in s && Refreshed(s)[k].status == Ready
    ensures var t := WorkedAmong(Refreshed(s), done, cycle, oracle, hasVerifier);
      Evolves(s, t) && (DependencyClosed(s) ==> DependencyClosed(t))
  {
    var r := Refreshed(s);
    var t := WorkedAmong(r, done, cycle, oracle, hasVerifier);
    RefreshKeepsClosure(s);
    WorkKeepsMissionClosure(r, done, cycle, oracle, hasVerifier);
    StatusesEvolve(s, r);
    StatusesEvolve(r, t);
    EvolvesTransitive(s, r, t);
  }

  lemma IdleIsFinished(s: DagState, cycle: nat, oracle: MissionOracle, hasVerifier: bool)
    requires AllFinished(s)
    ensures AllFinished(WorkedAmong(Refreshed(s), {}, cycle, oracle, hasVerifier))
  {
    assert forall k | k in s :: s[k].status == Succeeded;
  }

  class MissionCognitiveRuntime {
    const hasVerifier: bool

    constructor (hasVerifier: bool)
      ensures this.hasVerifier == hasVerifier
    {
      this.hasVerifier := hasVerifier;
    }

    method MoveTo(dag: TaskDAG, k: string, status: TaskNodeStatus, ghost s: DagState)
      requires dag.Valid() && k in s && dag.View().Keys == s.Keys
      requires dag.View() == s[k := s[k].(status := dag.View()[k].status)]
      modifies dag.nodes[k]
      ensures dag.View() == s[k := s[k].(status := status)]
    {
      dag.SetStatus(k, status);
    }

    method ExecuteNode(dag: TaskDAG, k: string, a: MissionAttempt, ghost s: DagState) returns (threw: bool)
      requires dag.Valid() && dag.View() == s && k in s && s[k].status == Ready
      modifies dag.nodes[k]
      ensures dag.View() == s[k := s[k].(status := StatusAfter(a, hasVerifier))]
      ensures threw == (a.crash != NoCrash)
      ensures var status := dag.View()[k].status;
        && (status == Succeeded <==> hasVerifier && a == MissionAttempt(NoCrash, false, true))
        && (status == ReplanRequired <==> hasVerifier && a == MissionAttempt(NoCrash, false, false))
        && (status == ToolProposed <==> a.crash == NoCrash && a.toolCalls)
        && (status == Verifying <==>
              a.crash == VerifierFailed || (a.crash == NoCrash && !a.toolCalls && !hasVerifier))
        && (status == Blocked <==> a.crash == CouncilFailed)
        && (status == CognitiveWork <==> a.crash == CognitionFailed)
    {
      threw := a.crash != NoCrash;
      if a.crash == RefusedAtStart {
        assert s == s[k := s[k].(status := Ready)];
        return;
      }
      MoveTo(dag, k, CognitiveWork, s);
      if a.crash == CognitionFailed {
        return;
      }
      if a.crash == CouncilFailed {
        MoveTo(dag, k, Blocked, s);
        return;
      }
      if a.crash == NoCrash && a.toolCalls {
        MoveTo(dag, k, ToolProposed, s);
        return;
      }
      MoveTo(dag, k, Verifying, s);
      if a.crash == NoCrash && hasVerifier {
        MoveTo(dag, k, if a.accepted then Succeeded else ReplanRequired, s);
      }
    }

    /** One pass of the loop over the ready nodes. */
    method ExecuteNext(dag: TaskDAG, ready: seq<string>, i: nat, cycle: nat, oracle: MissionOracle, ghost s: DagState)
      returns (threw: bool, ghost next: nat)
      requires dag.Valid() && i < |ready| && NoDuplicates(ready)
      requires forall k | k in ready :: k in s && s[k].status == Ready
      requires dag.View() == WorkedUpTo(s, ready, i, cycle, oracle, hasVerifier)
      requires i <= FirstThrow(ready, cycle, oracle)
      modifies dag.nodes.Values
      ensures next == i + 1 && dag.View() == WorkedUpTo(s, ready, next, cycle, oracle, hasVerifier)
      ensures var first := FirstThrow(ready, cycle, oracle); if threw then i == first else next <= first
    {
      var k := ready[i];
      var a := oracle(cycle, k);
      ghost var t := dag.View();
      next := NextExecution(s, t, ready, i, k, a, cycle, oracle, hasVerifier);
      threw := ExecuteNode(dag, k, a, t);
    }

    /** for node in ready: an exception leaves the rest of the nodes as they are. */
    method ExecuteAll(dag: TaskDAG, ready: seq<string>, cycle: nat, oracle: MissionOracle, ghost s: DagState)
      returns (threw: bool, count: nat)
      requires dag.Valid() && dag.View() == s && NoDuplicates(ready)
      requires forall k | k in ready :: k in s && s[k].status == Ready
      modifies dag.nodes.Values
      ensures count == HowMany(ready, cycle, oracle)
      ensures dag.View() == WorkedUpTo(s, ready, count, cycle, oracle, hasVerifier)
      ensures threw <==> FirstThrow(ready, cycle, oracle) < |ready|
    {
      threw, count := false, 0;
      while count < |ready|
        invariant count <= FirstThrow(ready, cycle, oracle)
        invariant dag.View() == WorkedUpTo(s, ready, count, cycle, oracle, hasVerifier)
      {
        ghost var next;
        threw, next := ExecuteNext(dag, ready, count, cycle, oracle, s);
        count := count + 1;
        assert count == next;
        if threw {
          return;
        }
      }
    }

    method ReadyList(dag: TaskDAG) returns (ready: seq<string>)
      requires dag.Valid()
      ensures ready == ReadyIn(dag.View(), dag.order)
    {
      ready := [];
      var ids := dag.order;
      ghost var s := dag.View();
      for i := 0 to |ids|
        invariant ready == ReadyIn(s, ids[..i])
      {
        ReadyInNext(s, ids, i);
        assert dag.nodes[ids[i]].status == s[ids[i]].status;
        if dag.nodes[ids[i]].status == Ready {
          ready := ready + [ids[i]];
        }
      }
      assert ids[..|ids|] == ids;
    }

    /** Refreshes, and works on what is ready. */
    method WorkCycle(dag: TaskDAG, cycle: nat, oracle: MissionOracle) returns (idle: bool, threw: bool)
      requires dag.Valid()
      modifies dag.nodes.Values
      ensures CycleEnd(dag.View(), idle, threw) == AfterCycle(old(dag.View()), dag.order, cycle, oracle, hasVerifier)
    {
      RefreshReadyNodes(dag);
      ghost var r := dag.View();
      var ready := ReadyList(dag);
      assert dag.View() == r;
      var count;
      threw, count := ExecuteAll(dag, ready, cycle, oracle, r);
      WorkedUpToIsAmong(r, ready, count, cycle, oracle, hasVerifier);
      idle := ready == [];
    }

    lemma CycleWorksOnReady(s: DagState, order: seq<string>, cycle: nat, oracle: MissionOracle)
      requires forall k :: k in order <==> k in s
      ensures var done := Executed(ReadyIn(Refreshed(s), order), cycle, oracle);
        var c := AfterCycle(s, order, cycle, oracle, hasVerifier);
        && (forall k | k in done :: k in s && Refreshed(s)[k].status == Ready)
        && (!c.threw ==> forall k | k in s && Refreshed(s)[k].status == Ready :: k in done)
        && (c.idle ==> done == {})
        && (c.threw ==> exists k :: oracle(cycle, k).crash != NoCrash)
    {
    }

    lemma ThrowingIsNotAccepted(cycle: nat, oracle: MissionOracle)
      requires exists k :: oracle(cycle, k).crash != NoCrash
      ensures !Accepted(oracle, hasVerifier)
    {
      var k :| oracle(cycle, k).crash != NoCrash;
      assert !Accepts(oracle(cycle, k));
    }

    lemma CycleOutcome(s0: DagState, s: DagState, done: set<string>, cycle: nat, oracle: MissionOracle)
      requires Evolves(s0, s) && (DependencyClosed(s0) ==> DependencyClosed(s))
      requires forall k | k in done :: k in s && Refreshed(s)[k].status == Ready
      ensures var t := WorkedAmong(Refreshed(s), done, cycle, oracle, hasVerifier);
        Evolves(s0, t) && (DependencyClosed(s0) ==> DependencyClosed(t))
    {
      CycleIsSafe(s, done, cycle, oracle, hasVerifier);
      EvolvesTransitive(s0, s, WorkedAmong(Refreshed(s), done, cycle, oracle, hasVerifier));
    }

    lemma IdleOutcome(s0: DagState, s: DagState, cycle: nat, oracle: MissionOracle)
      requires cycle >= 1 && MissionKept(s0, s, cycle - 1, oracle, hasVerifier)
      requires forall k | k in s :: Refreshed(s)[k].status != Ready
      requires InPlay(s0) && Accepted(oracle, hasVerifier)
      ensures AllFinished(WorkedAmong(Refreshed(s), {}, cycle, oracle, hasVerifier))
    {
      if !AllFinished(s) {
        var k := SomeNodeRefreshes(s);
      }
      IdleIsFinished(s, cycle, oracle, hasVerifier);
    }

    lemma CycleMeaning(s0: DagState, s: DagState, done: set<string>, idle: bool, threw: bool, cycle: nat,
                       oracle: MissionOracle)
      requires cycle >= 1 && MissionKept(s0, s, cycle - 1, oracle, hasVerifier)
      requires forall k | k in done :: k in s && Refreshed(s)[k].status == Ready
      requires !threw ==> forall k | k in s && Refreshed(s)[k].status == Ready :: k in done
      requires idle ==> done == {}
      requires threw ==> exists k :: oracle(cycle, k).crash != NoCrash
      ensures var t := WorkedAmong(Refreshed(s), done, cycle, oracle, hasVerifier);
        && Evolves(s0, t) && (DependencyClosed(s0) ==> DependencyClosed(t))
        && (!threw ==> MissionKept(s0, t, cycle, oracle, hasVerifier))
        && (InPlay(s0) && Accepted(oracle, hasVerifier) ==> !threw && (idle ==> AllFinished(t)))
    {
      CycleOutcome(s0, s, done, cycle, oracle);
      if threw {
        ThrowingIsNotAccepted(cycle, oracle);
      } else {
        CycleKeeps(s0, s, done, cycle, oracle, hasVerifier);
        if idle && InPlay(s0) && Accepted(oracle, hasVerifier) {
          IdleOutcome(s0, s, cycle, oracle);
        }
      }
    }

    /** What the loop keeps of the state s0 that it starts from. */
    ghost predicate LoopKept(s0: DagState, s: DagState, threw: bool, maxCycles: int, oracle: MissionOracle) {
      && Evolves(s0, s) && (DependencyClosed(s0) ==> DependencyClosed(s))
      && (InPlay(s0) && Accepted(oracle, hasVerifier) ==>
            !threw && (maxCycles >= |s0| - |Finished(s0)| ==> AllFinished(s)))
    }

    /** What holds between two cycles of the loop whose outcome is to be end. */
    ghost predicate Looping(s0: DagState, s: DagState, order: seq<string>, cycles: nat, stop: bool, maxCycles: int,
                            end: MissionEnd, oracle: MissionOracle) {
      && MissionKept(s0, s, cycles, oracle, hasVerifier)
      && end == (if stop then MissionEnd(s, cycles, false)
                 else MissionRun(s, order, cycles, maxCycles, oracle, hasVerifier))
      && (stop && InPlay(s0) && Accepted(oracle, hasVerifier) ==> AllFinished(s))
    }

    lemma LoopStep(s0: DagState, s: DagState, order: seq<string>, before: nat, now: nat, c: CycleEnd, maxCycles: int,
                   end: MissionEnd, oracle: MissionOracle)
      requires Looping(s0, s, order, before, false, maxCycles, end, oracle) && (forall k :: k in order <==> k in s)
      requires now == before + 1 && before < maxCycles && c == AfterCycle(s, order, now, oracle, hasVerifier)
      ensures c.threw ==> end == MissionEnd(c.dag, now, true) && LoopKept(s0, c.dag, true, maxCycles, oracle)
      ensures !c.threw ==> Looping(s0, c.dag, order, now, c.idle || !hasVerifier, maxCycles, end, oracle)
    {
      MissionRunStep(s, order, before, now, c, maxCycles, oracle, hasVerifier);
      CycleWorksOnReady(s, order, now, oracle);
      CycleMeaning(s0, s, Executed(ReadyIn(Refreshed(s), order), now, oracle), c.idle, c.threw, now, oracle);
    }

    /** One cycle of the loop; stop says that it is the last. */
    method Cycle(dag: TaskDAG, cycle: nat, oracle: MissionOracle, ghost s0: DagState, ghost s: DagState,
                 ghost before: nat, ghost maxCycles: int, ghost end: MissionEnd)
      returns (stop: bool, threw: bool, ghost after: DagState)
      requires dag.Valid() && s == dag.View() && cycle == before + 1 && before < maxCycles
      requires Looping(s0, s, dag.order, before, false, maxCycles, end, oracle)
      modifies dag.nodes.Values
      ensures after == dag.View()
      ensures threw ==> end == MissionEnd(after, cycle, true) && LoopKept(s0, after, true, maxCycles, oracle)
      ensures !threw ==> Looping(s0, after, dag.order, cycle, stop, maxCycles, end, oracle)
    {
      var idle;
      idle, threw := WorkCycle(dag, cycle, oracle);
      after := dag.View();
      LoopStep(s0, s, dag.order, before, cycle, CycleEnd(after, idle, threw), maxCycles, end, oracle);
      stop := idle || !hasVerifier;
    }

    lemma LoopEnds(s0: DagState, s: DagState, cycles: nat, maxCycles: int, stop: bool, oracle: MissionOracle)
      requires MissionKept(s0, s, cycles, oracle, hasVerifier) && (cycles >= maxCycles || stop)
      requires stop && InPlay(s0) && Accepted(oracle, hasVerifier) ==> AllFinished(s)
      ensures LoopKept(s0, s, false, maxCycles, oracle)
    {
      FinishedCounts(s);
      assert InPlay(s0) && Accepted(oracle, hasVerifier) ==> |s.Keys| == |s0.Keys|;
    }

    method Loop(dag: TaskDAG, maxCycles: int, oracle: MissionOracle, ghost s0: DagState)
      returns (threw: bool, cycles: nat)
      requires dag.Valid() && s0 == dag.View() && AcyclicDag(s0)
      modifies dag.nodes.Values
      ensures MissionEnd(dag.View(), cycles, threw) == MissionRun(s0, dag.order, 0, maxCycles, oracle, hasVerifier)
      ensures cycles <= if maxCycles < 0 then 0 else maxCycles
      ensures LoopKept(s0, dag.View(), threw, maxCycles, oracle)
    {
      NothingEvolves(s0);
      threw, cycles := false, 0;
      var stop := false;
      ghost var s := s0;
      ghost var end := MissionRun(s0, dag.order, 0, maxCycles, oracle, hasVerifier);
      while cycles < maxCycles && !stop
        invariant cycles <= if maxCycles < 0 then 0 else maxCycles
        invariant s == dag.View() && Looping(s0, s, dag.order, cycles, stop, maxCycles, end, oracle)
        decreases maxCycles - cycles, !stop
      {
        ghost var before := cycles;
        cycles := cycles + 1;
        stop, threw, s := Cycle(dag, cycles, oracle, s0, s, before, maxCycles, end);
        if threw {
          return;
        }
      }
      LoopEnds(s0, s, cycles, maxCycles, stop, oracle);
    }

    /** Runs an acyclic DAG, and reports, unless an exception has left the loop. */
    method RunAcyclic(dag: TaskDAG, maxCycles: int, oracle: MissionOracle, ghost s0: DagState)
      returns (threw: bool, cycles: nat, complete: bool, blocked: seq<string>)
      requires dag.Valid() && s0 == dag.View() && AcyclicDag(s0)
      modifies dag.nodes.Values
      ensures MissionEnd(dag.View(), cycles, threw) == MissionRun(s0, dag.order, 0, maxCycles, oracle, hasVerifier)
      ensures cycles <= if maxCycles < 0 then 0 else maxCycles
      ensures LoopKept(s0, dag.View(), threw, maxCycles, oracle)
      ensures !threw ==> (complete <==> dag.View() != map[] && AllFinished(dag.View()))
      ensures !threw ==> blocked == BlockedIn(dag.View(), dag.order)
    {
      complete, blocked := false, [];
      threw, cycles := Loop(dag, maxCycles, oracle, s0);
      if !threw {
        complete, blocked := Complete(dag), BlockedAmong(dag, dag.order);
      }
    }

    /** Runs a DAG cycle by cycle. An exception leaves the loop at once. */
    method RunDag(dag: TaskDAG, maxCycles: int, oracle: MissionOracle)
      returns (cyclic: bool, threw: bool, cycles: nat, complete: bool, blocked: seq<string>)
      requires dag.Valid()
      modifies dag.nodes.Values
      ensures cyclic <==> !AcyclicDag(old(dag.View()))
      ensures cyclic ==> dag.View() == old(dag.View())
      ensures !cyclic ==>
        MissionEnd(dag.View(), cycles, threw) ==
        MissionRun(old(dag.View()), dag.order, 0, maxCycles, oracle, hasVerifier)
      ensures cycles <= if maxCycles < 0 then 0 else maxCycles
      ensures Evolves(old(dag.View()), dag.View())
      ensures DependencyClosed(old(dag.View())) ==> DependencyClosed(dag.View())
      ensures !cyclic && !threw ==> (complete <==> dag.View() != map[] && AllFinished(dag.View()))
      ensures !cyclic && !threw ==> blocked == BlockedIn(dag.View(), dag.order)
      ensures forall k | IsDone(dag.View(), k) && !IsDone(old(dag.View()), k) ::
                AcceptedBy(k, cycles, oracle, hasVerifier)
      ensures InPlay(old(dag.View())) && Accepted(oracle, hasVerifier) ==>
        && !cyclic && !threw
        && (maxCycles >= |old(dag.View())| - |Finished(old(dag.View()))| ==> AllFinished(dag.View()))
    {
      ghost var s0 := dag.View();
      NothingEvolves(s0);
      cycles, threw, complete, blocked := 0, false, false, [];
      var acyclic := dag.ValidateAcyclic();
      cyclic := !acyclic;
      assert dag.View() == s0;
      if cyclic {
        return;
      }
      threw, cycles, complete, blocked := RunAcyclic(dag, maxCycles, oracle, s0);
      forall k | IsDone(dag.View(), k) && !IsDone(s0, k)
        ensures AcceptedBy(k, cycles, oracle, hasVerifier)
      {
        SuccessIsEarned(s0, dag.order, 0, maxCycles, oracle, hasVerifier, k);
      }
    }
  }
}
