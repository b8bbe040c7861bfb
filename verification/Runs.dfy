/** Whole runs of the engineering loop, as sequences of three kinds of change: promotion of planned
    nodes, a batch, and the insertion of recovery work. */
module Runs {
  import opened Digraphs
  import opened Schemas
  import opened Sequences
  import opened DagMutator
  import opened DagProgress
  import opened AgencyTheory
  import opened Batches
  import opened Replanning
  import opened Wrappers
  import W = Worktrees

  /** replans: whether the runtime has a replanner. */
  datatype RunSetting = RunSetting(dagId: nat, oracle: Oracle, maxToolIterations: int, managed: bool, maxActive: nat,
                                   maxParallel: nat, replans: bool)

  function InCycle(r: RunSetting, cycle: nat): Setting {
    Setting(cycle, r.oracle, r.maxToolIterations, r.managed, r.maxActive)
  }

  /** order is the order of the node dictionary. executed counts the cycles in which a batch was run; batch is
      the latest of them. raised, starved and rejected say how a run was cut short: by an exception in a batch,
      by the worktree capacity error, by a refused insertion. */
  datatype RunState = RunState(dag: DagState, order: seq<string>, bindings: W.Bindings, counter: nat, executed: nat,
                               raised: bool, starved: bool, rejected: Option<MutationResult>, batch: set<string>)
  {
    /** The requirements that hold a worktree. */
    const bound: set<string> := bindings.Keys
  }

  /** The state in which a run starts. */
  ghost function StartOfRun(s0: DagState, order: seq<string>, b0: W.Bindings, c0: nat): RunState {
    RunState(s0, order, b0, c0, 0, false, false, None, {})
  }

  /** order lists the nodes, each once. */
  ghost predicate Listed(p: RunState) {
    NoDuplicates(p.order) && forall k :: k in p.order <==> k in p.dag
  }

  // ---- Which ready nodes form the batch ----

  function Selected(ready: seq<string>, s: DagState, bound: set<string>, r: RunSetting): seq<string>
    requires forall k | k in ready :: k in s
  {
    if r.managed then IdsOf(W.Admit(CandidatesOf(ready, s), r.maxParallel, bound, W.Slots(bound, r.maxActive)).nodes)
    else if |ready| <= r.maxParallel then ready else ready[..r.maxParallel]
  }

  /** ready lists the nodes that are ready, each once. */
  ghost predicate ListsReady(ready: seq<string>, s: DagState) {
    NoDuplicates(ready) && forall k :: k in ready <==> k in s && s[k].status == Ready
  }

  lemma SelectedIsReady(ready: seq<string>, s: DagState, bound: set<string>, r: RunSetting)
    requires ListsReady(ready, s)
    ensures var batch := Selected(ready, s, bound, r);
      NoDuplicates(batch) && |batch| <= r.maxParallel && AllReady(s, Members(batch))
  {
    if r.managed {
      var c := CandidatesOf(ready, s);
      W.AdmittedFits(c, r.maxParallel, bound, W.Slots(bound, r.maxActive));
      W.AdmitsOnce(c, r.maxParallel, bound, W.Slots(bound, r.maxActive));
      var a := W.Admit(c, r.maxParallel, bound, W.Slots(bound, r.maxActive)).nodes;
      forall i | 0 <= i < |a|
        ensures a[i].id in ready
      {
        assert a[i] in c;
      }
    }
  }

  /** What a selected batch needs is bound or reserved. */
  lemma SelectedIsProvided(c: seq<W.Candidate>, s: DagState, bound: set<string>, limit: nat, slots: nat)
    requires forall x | x in c :: x.id in s && x.refs == s[x.id].refs
    ensures var sel := W.Admit(c, limit, bound, slots);
      && Members(IdsOf(sel.nodes)) <= s.Keys
      && Requirements(s, Members(IdsOf(sel.nodes))) <= bound + sel.reserved
  {
    var sel := W.Admit(c, limit, bound, slots);
    W.AdmittedFits(c, limit, bound, slots);
    forall k | k in IdsOf(sel.nodes)
      ensures k in s
      ensures (W.SingleRequirement(s[k].refs).Some? ==> W.SingleRequirement(s[k].refs).value in bound + sel.reserved)
    {
      var i :| 0 <= i < |sel.nodes| && sel.nodes[i].id == k;
      assert sel.nodes[i] in sel.nodes && sel.nodes[i] in c;
      assert W.Free(sel.nodes[i], bound, sel.reserved);
    }
  }

  /** A selected batch fits into the worktree capacity, if what is bound already does. */
  lemma SelectedFits(ready: seq<string>, s: DagState, bound: set<string>, r: RunSetting, cycle: nat)
    requires ListsReady(ready, s) && (r.managed ==> |bound| <= r.maxActive)
    requires AllReady(s, Members(Selected(ready, s, bound, r)))
    ensures Fits(bound, s, Members(Selected(ready, s, bound, r)), InCycle(r, cycle))
  {
    if r.managed {
      var c := CandidatesOf(ready, s);
      var sel := W.Admit(c, r.maxParallel, bound, W.Slots(bound, r.maxActive));
      var ids := Members(IdsOf(sel.nodes));
      W.AdmittedFits(c, r.maxParallel, bound, W.Slots(bound, r.maxActive));
      SelectedIsProvided(c, s, bound, r.maxParallel, W.Slots(bound, r.maxActive));
      W.DisjointSize(bound, sel.reserved);
      SubsetSize(bound + Requirements(s, ids), bound + sel.reserved);
    }
  }

  /** The batch of a cycle, given the state after promotion. */
  ghost function BatchOf(p: RunState, r: RunSetting): seq<string> {
    Selected(ReadyIn(p.dag, p.order), p.dag, p.bound, r)
  }

  lemma BatchIsReady(p: RunState, r: RunSetting)
    requires Listed(p)
    ensures var batch := BatchOf(p, r);
      NoDuplicates(batch) && |batch| <= r.maxParallel && AllReady(p.dag, Members(batch))
  {
    SelectedIsReady(ReadyIn(p.dag, p.order), p.dag, p.bound, r);
  }

  /** The batch of a cycle fits into the worktree capacity, if what is bound already does. */
  lemma BatchFits(p: RunState, r: RunSetting, cycle: nat)
    requires Listed(p) && (r.managed ==> |p.bound| <= r.maxActive) && AllReady(p.dag, Members(BatchOf(p, r)))
    ensures Fits(p.bound, p.dag, Members(BatchOf(p, r)), InCycle(r, cycle))
  {
    SelectedFits(ReadyIn(p.dag, p.order), p.dag, p.bound, r, cycle);
  }

  // ---- The changes of a run ----

  ghost predicate PromoteStep(p: RunState, q: RunState) {
    q == p.(dag := Promoted(p.dag))
  }

  ghost function AfterBatch(p: RunState, m: Moment, ids: set<string>): RunState {
    p.(dag := m.dag, bindings := m.bindings, executed := p.executed + 1,
       raised := p.raised || m.raised, starved := p.starved || m.starved, batch := ids)
  }

  /** m is the moment at which the loop leaves the batch: when all coroutines have ended or, once one of them
      has thrown, at any later moment. */
  ghost predicate BatchStep(p: RunState, q: RunState, m: Moment, cycle: nat, r: RunSetting) {
    && Listed(p)
    && var ids := Members(BatchOf(p, r));
    && ids != {} && (m.raised || m.waiting == m.running == {})
    && BatchInvariant(p.dag, p.bindings, m, ids, InCycle(r, cycle))
    && q == AfterBatch(p, m, ids)
  }

  /** The state after replan for one node of the batch that is due for it. */
  ghost function WithRecovery(p: RunState, failed: string, kind: FailureKind, r: RunSetting): RunState
    requires failed in p.dag
  {
    var id := RecoveryId(p.counter + 1, kind, failed);
    var verdict := RecoveryVerdict(p.dag, r.dagId, failed, id);
    if verdict == Applied
    then p.(counter := p.counter + 1, order := p.order + [id],
            dag := InsertedBefore(p.dag, failed, id, RecoveryNode(p.dag, r.dagId, failed)))
    else p.(counter := p.counter + 1, rejected := Some(verdict))
  }

  ghost predicate ReplanStep(p: RunState, q: RunState, failed: string, kind: FailureKind, r: RunSetting) {
    failed in p.batch && Replannable(p.dag, failed, kind) && q == WithRecovery(p, failed, kind, r)
  }

  ghost predicate RunsKeep(keeps: RunState -> bool, r: RunSetting) {
    && (forall p, q | keeps(p) && PromoteStep(p, q) :: keeps(q))
    && (forall p, q, m, cycle | keeps(p) && BatchStep(p, q, m, cycle, r) :: keeps(q))
    && (forall p, q, failed, kind | keeps(p) && ReplanStep(p, q, failed, kind, r) :: keeps(q))
  }

  // ---- One cycle, and a run as a sequence of cycles ----

  /** How the run loop ends. */
  datatype Ending =
    | OutOfCycles           // max_cycles reached
    | NothingSchedulable    // no ready node, or none that may start
    | Unrecovered           // a node needs replanning and no recovery was inserted
    | Aborted               // an exception left the loop

  /** replan for one node of the batch. */
  ghost function AfterReplan(p: RunState, failed: string, kind: FailureKind, r: RunSetting): RunState {
    if Replannable(p.dag, failed, kind) then WithRecovery(p, failed, kind, r) else p
  }

  /** Replanning of failed nodes one after the other; a refused insertion ends it. */
  ghost function ReplannedInOrder(p: RunState, failed: seq<string>, cycle: nat, r: RunSetting): RunState
    decreases |failed|
  {
    if failed == [] || p.rejected.Some? then p
    else ReplannedInOrder(AfterReplan(p, failed[0], r.oracle(cycle, failed[0]).failure, r), failed[1..], cycle, r)
  }

  /** The nodes of a batch that ended in REPLAN_REQUIRED, in its order. */
  ghost function FailedIn(s: DagState, batch: seq<string>): seq<string> {
    if batch == [] then []
    else
      var last := batch[|batch| - 1];
      FailedIn(s, batch[..|batch| - 1]) + if last in s && s[last].status == ReplanRequired then [last] else []
  }

  ghost predicate RecoverStep(p: RunState, q: RunState, ending: Option<Ending>, batch: seq<string>, cycle: nat,
                              r: RunSetting) {
    var failed := FailedIn(p.dag, batch);
    if failed == [] then q == p && ending == None
    else if !r.replans then q == p && ending == Some(Unrecovered)
    else
      && q == ReplannedInOrder(p, failed, cycle, r)
      && ending == if q.rejected.Some? then Some(Aborted)
                   else if q.counter == p.counter then Some(Unrecovered)
                   else None
  }

  /** What a cycle does after promotion: ending is None if the loop goes on. */
  ghost predicate WorkStep(p: RunState, q: RunState, m: Moment, ending: Option<Ending>, cycle: nat, r: RunSetting) {
    && Listed(p)
    && var batch := BatchOf(p, r);
    if batch == [] then q == p && ending == Some(NothingSchedulable)
    else
      var b := AfterBatch(p, m, Members(batch));
      && BatchStep(p, b, m, cycle, r)
      && if b.raised then q == b && ending == Some(Aborted) else RecoverStep(b, q, ending, batch, cycle, r)
  }

  /** The number of a cycle, the last moment of its batch, how it left the loop, and the state after it. */
  datatype Round = Round(cycle: nat, m: Moment, ending: Option<Ending>, after: RunState)

  /** The state after n cycles. */
  ghost function Reached(start: RunState, rounds: seq<Round>, n: nat): RunState
    requires n <= |rounds|
  {
    if n == 0 then start else rounds[n - 1].after
  }

  ghost function EndOf(start: RunState, rounds: seq<Round>): RunState {
    Reached(start, rounds, |rounds|)
  }

  ghost predicate IsRound(p: RunState, d: Round, r: RunSetting) {
    WorkStep(p.(dag := Promoted(p.dag)), d.after, d.m, d.ending, d.cycle, r)
  }

  /** The i-th round is a cycle of the loop, and the last one unless it lets the loop go on. */
  ghost predicate RoundAt(start: RunState, rounds: seq<Round>, i: nat, r: RunSetting)
    requires i < |rounds|
  {
    && IsRound(Reached(start, rounds, i), rounds[i], r) && rounds[i].cycle == i + 1
    && (i < |rounds| - 1 ==> rounds[i].ending == None)
  }

  /** A run: cycle after cycle, until one ends it. */
  ghost predicate IsRun(start: RunState, rounds: seq<Round>, r: RunSetting) {
    forall i | 0 <= i < |rounds| :: RoundAt(start, rounds, i, r)
  }

  ghost predicate GoesOn(start: RunState, rounds: seq<Round>, r: RunSetting) {
    IsRun(start, rounds, r) && (rounds != [] ==> rounds[|rounds| - 1].ending == None)
  }

  lemma ReachedNext(start: RunState, rounds: seq<Round>, before: nat, n: nat)
    requires n == before + 1 && n <= |rounds|
    ensures Reached(start, rounds, n) == rounds[before].after
  {
    assert rounds[n - 1] == rounds[before];
  }

  lemma RoundOf(start: RunState, rounds: seq<Round>, before: nat, n: nat, r: RunSetting)
    requires IsRun(start, rounds, r) && n == before + 1 && n <= |rounds|
    ensures IsRound(Reached(start, rounds, before), rounds[before], r) && rounds[before].cycle == n
    ensures Reached(start, rounds, n) == rounds[before].after && (n < |rounds| ==> rounds[before].ending == None)
  {
    assert RoundAt(start, rounds, before, r);
    ReachedNext(start, rounds, before, n);
  }

  ghost predicate EndedBy(ending: Ending, rounds: seq<Round>, maxCycles: int) {
    if rounds != [] && rounds[|rounds| - 1].ending.Some? then rounds[|rounds| - 1].ending == Some(ending)
    else ending == OutOfCycles && |rounds| >= maxCycles
  }

  lemma BatchIsStep(p: RunState, m: Moment, batch: seq<string>, cycle: nat, r: RunSetting)
    requires Listed(p) && batch == BatchOf(p, r) && batch != [] && (m.raised || m.waiting == m.running == {})
    requires BatchInvariant(p.dag, p.bindings, m, Members(batch), InCycle(r, cycle))
    ensures BatchStep(p, AfterBatch(p, m, Members(batch)), m, cycle, r)
  {
    assert batch[0] in Members(batch);
  }

  lemma {:induction false} ReplanningOnlyReplans(p: RunState, failed: seq<string>, cycle: nat, r: RunSetting)
    ensures var q := ReplannedInOrder(p, failed, cycle, r);
            q.executed == p.executed && q.raised == p.raised && q.batch == p.batch && q.counter >= p.counter
    decreases |failed|
  {
    if failed != [] && p.rejected == None {
      ReplanningOnlyReplans(AfterReplan(p, failed[0], r.oracle(cycle, failed[0]).failure, r), failed[1..], cycle, r);
    }
  }

  lemma {:induction false} NothingReplanned(p: RunState, failed: seq<string>, cycle: nat, r: RunSetting)
    requires p.rejected == None
    ensures ReplannedInOrder(p, failed, cycle, r).counter == p.counter <==>
            forall k | k in failed :: !Replannable(p.dag, k, r.oracle(cycle, k).failure)
    ensures ReplannedInOrder(p, failed, cycle, r).counter == p.counter ==> ReplannedInOrder(p, failed, cycle, r) == p
    decreases |failed|
  {
    if failed != [] {
      var next := AfterReplan(p, failed[0], r.oracle(cycle, failed[0]).failure, r);
      assert failed == [failed[0]] + failed[1..];
      if next.counter == p.counter {
        NothingReplanned(p, failed[1..], cycle, r);
      } else {
        ReplanningOnlyReplans(next, failed[1..], cycle, r);
      }
    }
  }

  lemma {:induction false} RejectionCounts(p: RunState, failed: seq<string>, cycle: nat, r: RunSetting)
    requires p.rejected == None
    ensures var q := ReplannedInOrder(p, failed, cycle, r); q.rejected.Some? ==> q.counter > p.counter
    decreases |failed|
  {
    if failed != [] {
      var next := AfterReplan(p, failed[0], r.oracle(cycle, failed[0]).failure, r);
      ReplanningOnlyReplans(next, failed[1..], cycle, r);
      if next.rejected == None {
        RejectionCounts(next, failed[1..], cycle, r);
      }
    }
  }

  lemma {:induction false} FailedInHolds(s: DagState, batch: seq<string>, k: string)
    ensures k in FailedIn(s, batch) <==> k in batch && k in s && s[k].status == ReplanRequired
  {
    if batch != [] {
      assert batch == batch[..|batch| - 1] + [batch[|batch| - 1]];
      FailedInHolds(s, batch[..|batch| - 1], k);
    }
  }

  /** Failed nodes are replanned in the order of their batch. */
  lemma {:induction false} FailedInKeepsOrder(s: DagState, batch: seq<string>)
    ensures Subsequence(FailedIn(s, batch), batch)
  {
    if batch == [] {
      EmptyEmbeds<string>();
    } else {
      var init, last := batch[..|batch| - 1], batch[|batch| - 1];
      FailedInKeepsOrder(s, init);
      assert batch == init + [last];
      SubsequenceGrows(FailedIn(s, init), init, last, last in s && s[last].status == ReplanRequired);
    }
  }

  /** A cycle gives up on recovery exactly when some node of its batch failed and no such failure has a
      recovery (or there is no replanner). */
  lemma UnrecoveredForCause(p: RunState, q: RunState, ending: Option<Ending>, batch: seq<string>, cycle: nat,
                            r: RunSetting)
    requires RecoverStep(p, q, ending, batch, cycle, r) && p.rejected == None
    ensures ending == Some(Unrecovered) <==>
            && (exists k :: k in batch && k in p.dag && p.dag[k].status == ReplanRequired)
            && (r.replans ==>
                  forall k | k in batch && k in p.dag && p.dag[k].status == ReplanRequired ::
                    !HasRecovery(r.oracle(cycle, k).failure))
    ensures ending == Some(Unrecovered) ==> q == p
  {
    var failed := FailedIn(p.dag, batch);
    forall k
      ensures k in failed <==> k in batch && k in p.dag && p.dag[k].status == ReplanRequired
    {
      FailedInHolds(p.dag, batch, k);
    }
    assert failed != [] ==> failed[0] in failed;
    if r.replans && failed != [] {
      NothingReplanned(p, failed, cycle, r);
      RejectionCounts(p, failed, cycle, r);
    }
  }

  /** An exception in a batch ends the run there and then: nothing is replanned any more. Otherwise only a refused
      insertion aborts it. */
  lemma ExceptionEndsRun(p: RunState, d: Round, r: RunSetting)
    requires IsRound(p, d, r) && BatchOf(p.(dag := Promoted(p.dag)), r) != [] && !p.raised && p.rejected == None
    ensures d.m.raised ==>
      && d.ending == Some(Aborted) && d.after.dag == d.m.dag && d.after.bindings == d.m.bindings
      && d.after.order == p.order && d.after.counter == p.counter
    ensures !d.m.raised ==> !d.after.raised && (d.ending == Some(Aborted) <==> d.after.rejected.Some?)
  {
    var promoted := p.(dag := Promoted(p.dag));
    var batch := BatchOf(promoted, r);
    var b := AfterBatch(promoted, d.m, Members(batch));
    if !d.m.raised {
      ReplanningOnlyReplans(b, FailedIn(b.dag, batch), d.cycle, r);
    }
  }

  /** The facts about a cycle that the loop and its end rely on. */
  lemma WorkStepEnds(p: RunState, q: RunState, m: Moment, ending: Option<Ending>, cycle: nat, r: RunSetting)
    requires WorkStep(p, q, m, ending, cycle, r) && !p.raised && p.rejected == None
    ensures match ending
      case Some(NothingSchedulable) => q == p && BatchOf(p, r) == []
      case Some(Unrecovered) =>
        q.executed == p.executed + 1 && exists k :: k in q.dag && q.dag[k].status == ReplanRequired
      case Some(Aborted) => q.executed == p.executed + 1 && (q.raised || q.rejected.Some?)
      case Some(OutOfCycles) => false
      case None => q.executed == p.executed + 1 && !q.raised && q.rejected == None
  {
    var batch := BatchOf(p, r);
    if batch != [] {
      var b := AfterBatch(p, m, Members(batch));
      if !b.raised {
        ReplanningOnlyReplans(b, FailedIn(b.dag, batch), cycle, r);
        UnrecoveredForCause(b, q, ending, batch, cycle, r);
      }
    }
  }

  lemma RoundEnds(p: RunState, d: Round, r: RunSetting)
    requires IsRound(p, d, r) && !p.raised && p.rejected == None
    ensures match d.ending
      case Some(NothingSchedulable) =>
        && d.after.executed == p.executed && Promoted(d.after.dag) == d.after.dag && Listed(d.after)
        && BatchOf(d.after, r) == []
      case Some(Unrecovered) =>
        d.after.executed == p.executed + 1 && exists k :: k in d.after.dag && d.after.dag[k].status == ReplanRequired
      case Some(Aborted) => d.after.executed == p.executed + 1 && (d.after.raised || d.after.rejected.Some?)
      case Some(OutOfCycles) => false
      case None => d.after.executed == p.executed + 1 && !d.after.raised && d.after.rejected == None
  {
    WorkStepEnds(p.(dag := Promoted(p.dag)), d.after, d.m, d.ending, d.cycle, r);
    PromotionIsIdempotent(p.dag);
  }

  lemma RoundGoesOn(start: RunState, rounds: seq<Round>, before: nat, n: nat, r: RunSetting)
    requires IsRun(start, rounds, r) && n == before + 1 && n <= |rounds|
    requires n == |rounds| ==> rounds[before].ending == None
    requires var p := Reached(start, rounds, before); !p.raised && p.rejected == None
    ensures var p := Reached(start, rounds, n);
            p.executed == Reached(start, rounds, before).executed + 1 && !p.raised && p.rejected == None
  {
    RoundOf(start, rounds, before, n, r);
    RoundEnds(Reached(start, rounds, before), rounds[before], r);
  }

  /** While a run goes on, every cycle has run a batch and nothing has cut it short. */
  lemma {:induction false} RunningIsUnbroken(start: RunState, rounds: seq<Round>, n: nat, r: RunSetting)
    requires IsRun(start, rounds, r) && n <= |rounds| && (n == |rounds| ==> GoesOn(start, rounds, r))
    requires start.executed == 0 && !start.raised && start.rejected == None
    ensures var p := Reached(start, rounds, n); p.executed == n && !p.raised && p.rejected == None
    decreases n
  {
    if n > 0 {
      var before := n - 1;
      RunningIsUnbroken(start, rounds, before, r);
      RoundGoesOn(start, rounds, before, n, r);
    }
  }

  ghost predicate EndsAs(ending: Ending, p: RunState, cycles: nat, maxCycles: int, r: RunSetting) {
    match ending
    case OutOfCycles => cycles >= maxCycles && p.executed == cycles
    case NothingSchedulable =>
      p.executed + 1 == cycles && Promoted(p.dag) == p.dag && Listed(p) && BatchOf(p, r) == []
    case Unrecovered => p.executed == cycles && exists k :: k in p.dag && p.dag[k].status == ReplanRequired
    case Aborted => p.executed == cycles && (p.raised || p.rejected.Some?)
  }

  lemma LastRoundEnds(start: RunState, rounds: seq<Round>, before: nat, ending: Ending, maxCycles: int, r: RunSetting)
    requires IsRun(start, rounds, r) && |rounds| == before + 1 && rounds[before].ending == Some(ending)
    requires var p := Reached(start, rounds, before); p.executed == before && !p.raised && p.rejected == None
    ensures EndsAs(ending, rounds[before].after, |rounds|, maxCycles, r)
  {
    RoundOf(start, rounds, before, |rounds|, r);
    RoundEnds(Reached(start, rounds, before), rounds[before], r);
  }

  /** What the way a run ended says about its end. */
  lemma HowRunsEnd(start: RunState, rounds: seq<Round>, ending: Ending, maxCycles: int, r: RunSetting)
    requires IsRun(start, rounds, r) && EndedBy(ending, rounds, maxCycles)
    requires start.executed == 0 && !start.raised && start.rejected == None
    ensures EndsAs(ending, EndOf(start, rounds), |rounds|, maxCycles, r)
  {
    if rounds != [] && rounds[|rounds| - 1].ending.Some? {
      var before := |rounds| - 1;
      RunningIsUnbroken(start, rounds, before, r);
      LastRoundEnds(start, rounds, before, ending, maxCycles, r);
    } else {
      RunningIsUnbroken(start, rounds, |rounds|, r);
    }
  }

  lemma PlacedRound(start: RunState, rounds: seq<Round>, i: nat, p: RunState, d: Round, r: RunSetting)
    requires i < |rounds| && rounds[i] == d && Reached(start, rounds, i) == p && IsRound(p, d, r) && d.cycle == i + 1
    requires i < |rounds| - 1 ==> d.ending == None
    ensures RoundAt(start, rounds, i, r)
  {
  }

  lemma ReachedStays(start: RunState, rounds: seq<Round>, longer: seq<Round>, i: nat)
    requires rounds <= longer && i < |rounds|
    ensures longer[i] == rounds[i] && Reached(start, longer, i) == Reached(start, rounds, i)
  {
    assert i > 0 ==> longer[i - 1] == rounds[i - 1];
  }

  lemma RoundIsCopied(start: RunState, rounds: seq<Round>, longer: seq<Round>, i: nat, r: RunSetting)
    requires i < |rounds| && RoundAt(start, rounds, i, r) && rounds[i].ending == None && rounds <= longer
    ensures RoundAt(start, longer, i, r)
  {
    ReachedStays(start, rounds, longer, i);
  }

  lemma RoundWentOn(start: RunState, rounds: seq<Round>, i: nat, r: RunSetting)
    requires GoesOn(start, rounds, r) && i < |rounds|
    ensures RoundAt(start, rounds, i, r) && rounds[i].ending == None
  {
    assert RoundAt(start, rounds, i, r);
  }

  lemma RoundStays(start: RunState, rounds: seq<Round>, longer: seq<Round>, i: nat, r: RunSetting)
    requires GoesOn(start, rounds, r) && rounds <= longer && i < |rounds|
    ensures RoundAt(start, longer, i, r)
  {
    RoundWentOn(start, rounds, i, r);
    RoundIsCopied(start, rounds, longer, i, r);
  }

  lemma RoundIsLast(start: RunState, rounds: seq<Round>, longer: seq<Round>, p: RunState, d: Round, i: nat,
                    r: RunSetting)
    requires longer == rounds + [d] && i == |rounds| && p == EndOf(start, rounds) && IsRound(p, d, r)
    requires d.cycle == i + 1
    ensures RoundAt(start, longer, i, r) && EndOf(start, longer) == d.after
  {
    assert longer[i] == d && Reached(start, longer, i) == p;
    PlacedRound(start, longer, i, p, d, r);
  }

  lemma RunExtends(start: RunState, rounds: seq<Round>, longer: seq<Round>, p: RunState, d: Round, r: RunSetting)
    requires GoesOn(start, rounds, r) && p == EndOf(start, rounds) && longer == rounds + [d]
    requires IsRound(p, d, r) && d.cycle == |rounds| + 1
    ensures IsRun(start, longer, r) && EndOf(start, longer) == d.after
  {
    var last := |rounds|;
    RoundIsLast(start, rounds, longer, p, d, last, r);
    forall i | 0 <= i < |longer|
      ensures RoundAt(start, longer, i, r)
    {
      if i != last {
        RoundStays(start, rounds, longer, i, r);
      }
    }
  }

  /** k waits for a new node alone, which does k's recovery and waits for what k waited for. */
  ghost predicate WaitsForRecovery(s: DagState, t: DagState, k: string, id: string)
    requires k in s
  {
    && id !in s && k in t && t[k] == s[k].(deps := [id], status := Planned, version := s[k].version + 1)
    && id in t && t[id].deps == s[k].deps && t[id].refs == s[k].refs && t[id].status == Planned
  }

  /** Replanning leaves a node alone that is not due for it. */
  lemma {:induction false} LeftAlone(p: RunState, failed: seq<string>, cycle: nat, r: RunSetting, x: string)
    requires x in p.dag && (x in failed ==> !Replannable(p.dag, x, r.oracle(cycle, x).failure))
    ensures x in ReplannedInOrder(p, failed, cycle, r).dag && ReplannedInOrder(p, failed, cycle, r).dag[x] == p.dag[x]
    decreases |failed|
  {
    if failed != [] && p.rejected == None {
      LeftAlone(AfterReplan(p, failed[0], r.oracle(cycle, failed[0]).failure, r), failed[1..], cycle, r, x);
    }
  }

  /** If no insertion is refused, every failed node whose failure has a recovery waits for that recovery. */
  lemma {:induction false} ReplannedNodesWait(p: RunState, failed: seq<string>, cycle: nat, r: RunSetting, k: string)
    returns (id: string)
    requires NoDuplicates(failed) && k in failed && p.rejected == None
    requires Replannable(p.dag, k, r.oracle(cycle, k).failure)
    requires ReplannedInOrder(p, failed, cycle, r).rejected == None
    ensures WaitsForRecovery(p.dag, ReplannedInOrder(p, failed, cycle, r).dag, k, id)
    decreases |failed|
  {
    var first := failed[0];
    var next := AfterReplan(p, first, r.oracle(cycle, first).failure, r);
    assert next.rejected == None;
    forall x | x in failed[1..]
      ensures x != first && x in failed
    {
      var i :| 0 <= i < |failed[1..]| && failed[1..][i] == x;
      assert failed[i + 1] == x;
    }
    if k == first {
      id := RecoveryId(p.counter + 1, r.oracle(cycle, k).failure, k);
      assert id !in p.dag;
      LeftAlone(next, failed[1..], cycle, r, k);
      LeftAlone(next, failed[1..], cycle, r, id);
    } else {
      assert k in failed[1..];
      id := ReplannedNodesWait(next, failed[1..], cycle, r, k);
    }
  }

  // ---- What the three changes keep holds throughout a run ----

  lemma {:induction false} ReplanningKeeps(p: RunState, failed: seq<string>, cycle: nat, r: RunSetting,
                                           keeps: RunState -> bool)
    requires keeps(p) && RunsKeep(keeps, r) && forall k | k in failed :: k in p.batch
    ensures keeps(ReplannedInOrder(p, failed, cycle, r))
    decreases |failed|
  {
    if failed != [] && p.rejected == None {
      var k := failed[0];
      var kind := r.oracle(cycle, k).failure;
      assert Replannable(p.dag, k, kind) ==> ReplanStep(p, AfterReplan(p, k, kind, r), k, kind, r);
      ReplanningKeeps(AfterReplan(p, k, kind, r), failed[1..], cycle, r, keeps);
    }
  }

  lemma RecoverKeeps(b: RunState, q: RunState, ending: Option<Ending>, batch: seq<string>, cycle: nat, r: RunSetting,
                     keeps: RunState -> bool)
    requires keeps(b) && RunsKeep(keeps, r) && RecoverStep(b, q, ending, batch, cycle, r)
    requires b.batch == Members(batch)
    ensures keeps(q)
  {
    var failed := FailedIn(b.dag, batch);
    forall k | k in failed
      ensures k in b.batch
    {
      FailedInHolds(b.dag, batch, k);
    }
    ReplanningKeeps(b, failed, cycle, r, keeps);
  }

  lemma RoundKeeps(p: RunState, d: Round, r: RunSetting, keeps: RunState -> bool)
    requires keeps(p) && RunsKeep(keeps, r) && IsRound(p, d, r)
    ensures keeps(d.after)
  {
    var promoted := p.(dag := Promoted(p.dag));
    assert PromoteStep(p, promoted);
    var batch := BatchOf(promoted, r);
    if batch != [] {
      var b := AfterBatch(promoted, d.m, Members(batch));
      assert keeps(b);
      if !b.raised {
        RecoverKeeps(b, d.after, d.ending, batch, d.cycle, r, keeps);
      }
    }
  }

  /** What promotion, batches and recovery keep, and what holds after i cycles, holds after every later cycle
      of the run. */
  lemma {:induction false} RunKeepsThroughout(start: RunState, rounds: seq<Round>, i: nat, j: nat, r: RunSetting,
                                              keeps: RunState -> bool)
    requires IsRun(start, rounds, r) && i <= j <= |rounds|
    requires RunsKeep(keeps, r) && keeps(Reached(start, rounds, i))
    ensures keeps(Reached(start, rounds, j))
    decreases j
  {
    if i < j {
      var before := j - 1;
      RunKeepsThroughout(start, rounds, i, before, r, keeps);
      RoundOf(start, rounds, before, j, r);
      RoundKeeps(Reached(start, rounds, before), rounds[before], r, keeps);
    }
  }
}
