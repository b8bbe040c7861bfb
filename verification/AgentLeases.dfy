/** Agent leases (autonomy/leases.py) and the generations their scheduler gives them
    (autonomy/scheduler.py). Time is in microseconds; lease ids are new, as uuid4 makes them. */
module AgentLeases {
  import opened Wrappers

  type LeaseId = nat
  type TaskId = string

  datatype Status = Active | Completed | Expired | Revoked | Failed

  datatype Lease = Lease(
    agentId: string, missionId: string, taskScope: seq<TaskId>, generation: int, epoch: int, expiresAt: int,
    ceiling: nat, toolScope: seq<string>, maxTurns: int, turnsUsed: int, maxSpend: real, spendUsed: real,
      status: Status)

  type Leases = map<LeaseId, Lease>

  const MINUTE := 60_000_000
  const DEFAULT_MINUTES := 30
  const DEFAULT_TURNS := 20
  const DEFAULT_SPEND := 10.0

  // ---- One lease ----

  /** What a caller claims and what it is compared with. */
  datatype Claim = Claim(task: TaskId, epoch: int, generation: int, version: int, expectedVersion: int, now: int)

  datatype Verdict =
    | Accepted
    | NotFound
    | NotActive
    | LeaseExpired
    | OldEpoch
    | OldGeneration
    | VersionConflict
    | OutOfScope

  function Judge(l: Lease, c: Claim): Verdict {
    if l.status != Active then NotActive
    else if c.now > l.expiresAt then LeaseExpired
    else if l.epoch < c.epoch then OldEpoch
    else if l.generation < c.generation then OldGeneration
    else if c.version != c.expectedVersion then VersionConflict
    else if c.task !in l.taskScope then OutOfScope
    else Accepted
  }

  /** The status a validation leaves behind. */
  function StatusAfter(l: Lease, v: Verdict): Status {
    match v
    case LeaseExpired => Expired
    case OldEpoch => Revoked
    case OldGeneration => Revoked
    case _ => l.status
  }

  function Spent(l: Lease, turns: int, spend: real): Lease {
    var t, s := l.turnsUsed + turns, l.spendUsed + spend;
    l.(turnsUsed := t, spendUsed := s,
       status := if s > l.maxSpend then Failed else if t >= l.maxTurns then Completed else l.status)
  }

  // ---- The controller's table ----

  function Verify(leases: Leases, id: LeaseId, c: Claim): Verdict {
    if id !in leases then NotFound else Judge(leases[id], c)
  }

  function Verified(leases: Leases, id: LeaseId, c: Claim): Leases {
    if id !in leases then leases
    else leases[id := leases[id].(status := StatusAfter(leases[id], Judge(leases[id], c)))]
  }

  function Used(leases: Leases, id: LeaseId, turns: int, spend: real): Leases {
    if id !in leases then leases else leases[id := Spent(leases[id], turns, spend)]
  }

  function Withdrawn(leases: Leases, id: LeaseId): Leases {
    if id in leases && leases[id].status == Active then leases[id := leases[id].(status := Revoked)] else leases
  }

  function Stale(l: Lease, epoch: int): bool {
    l.status == Active && l.epoch < epoch
  }

  function FencedAmong(leases: Leases, ids: set<LeaseId>, epoch: int): Leases {
    map id | id in leases ::
      if id in ids && Stale(leases[id], epoch) then leases[id].(status := Revoked) else leases[id]
  }

  function StaleAmong(leases: Leases, ids: set<LeaseId>, epoch: int): set<LeaseId> {
    set id | id in ids && id in leases && Stale(leases[id], epoch)
  }

  function Fenced(leases: Leases, epoch: int): Leases {
    FencedAmong(leases, leases.Keys, epoch)
  }

  lemma FenceStep(leases: Leases, done: set<LeaseId>, id: LeaseId, epoch: int)
    requires id in leases && id !in done
    ensures var now := FencedAmong(leases, done, epoch);
      && now[id] == leases[id]
      && FencedAmong(leases, done + {id}, epoch) ==
         if Stale(leases[id], epoch) then now[id := leases[id].(status := Revoked)] else now
  {
  }

  lemma StaleStep(leases: Leases, done: set<LeaseId>, id: LeaseId, epoch: int)
    requires id in leases && id !in done
    ensures |StaleAmong(leases, done + {id}, epoch)| ==
            |StaleAmong(leases, done, epoch)| + if Stale(leases[id], epoch) then 1 else 0
  {
    assert StaleAmong(leases, done + {id}, epoch) ==
           StaleAmong(leases, done, epoch) + if Stale(leases[id], epoch) then {id} else {};
  }

  // ---- Runs ----

  /** A controller and the scheduler that issues its leases. */
  datatype State = State(leases: Leases, generations: map<TaskId, int>, epoch: int)

  datatype Event =
    | Assign(id: LeaseId, agent: string, mission: string, task: TaskId, ceiling: nat, tools: seq<string>,
             expiresAt: int)
    | Validate(of: LeaseId, claim: Claim)
    | Use(user: LeaseId, turns: int, spend: real)
    | Revoke(revoked: LeaseId)
    | FenceEpoch(below: int)
    | Restart(kernelEpoch: int)   // a new scheduler, with no generations yet, on the same controller

  function Generation(s: State, task: TaskId): int {
    if task in s.generations then s.generations[task] else 0
  }

  function NewLease(s: State, e: Event): Lease
    requires e.Assign?
  {
    Lease(e.agent, e.mission, [e.task], Generation(s, e.task) + 1, s.epoch, e.expiresAt, e.ceiling, e.tools,
          DEFAULT_TURNS, 0, DEFAULT_SPEND, 0.0, Active)
  }

  function Step(s: State, e: Event): State {
    match e
    case Assign(id, _, _, task, _, _, _) =>
      State(s.leases[id := NewLease(s, e)], s.generations[task := Generation(s, task) + 1], s.epoch)
    case Validate(id, c) => s.(leases := Verified(s.leases, id, c))
    case Use(id, turns, spend) => s.(leases := Used(s.leases, id, turns, spend))
    case Revoke(id) => s.(leases := Withdrawn(s.leases, id))
    case FenceEpoch(epoch) => s.(leases := Fenced(s.leases, epoch))
    case Restart(epoch) => State(s.leases, map[], epoch)
  }

  function Run(s: State, events: seq<Event>): State
    decreases |events|
  {
    if events == [] then s else Run(Step(s, events[0]), events[1..])
  }

  /** No lease of that epoch or a later one is active. */
  ghost predicate Outdated(s: State, epoch: int) {
    forall id | id in s.leases && s.leases[id].status == Active :: s.leases[id].epoch < epoch
  }

  /** New leases have new ids, and a scheduler restarts with an epoch that outdates every active lease: a higher
      one, or any after the leases that it does not outdate have ended. */
  ghost predicate Orderly(s: State, e: Event) {
    (e.Assign? ==> e.id !in s.leases) && (e.Restart? ==> Outdated(s, e.kernelEpoch))
  }

  ghost predicate OrderlyRun(s: State, events: seq<Event>)
    decreases |events|
  {
    events == [] || (Orderly(s, events[0]) && OrderlyRun(Step(s, events[0]), events[1..]))
  }

  lemma OneEvent(s: State, e: Event)
    ensures Run(s, [e]) == Step(s, e) && (Orderly(s, e) ==> OrderlyRun(s, [e]))
  {
    var events := [e];
    assert events[0] == e && events[1..] == [];
    assert Run(Step(s, e), events[1..]) == Step(s, e) && OrderlyRun(Step(s, e), events[1..]);
  }

  function Start(epoch: int): State {
    State(map[], map[], epoch)
  }

  // ---- At most one agent has authority over a task ----

  ghost predicate Dated(s: State, l: Lease)
    requires |l.taskScope| == 1
  {
    l.status == Active ==>
      l.epoch < s.epoch || (l.epoch == s.epoch && l.generation <= Generation(s, l.taskScope[0]))
  }

  /** Two active leases differ in task, epoch or generation. */
  ghost predicate Told(s: State, a: Lease, b: Lease) {
    a.status == b.status == Active && a.taskScope == b.taskScope && a.epoch == b.epoch == s.epoch ==>
      a.generation != b.generation
  }

  /** Every lease is for one task and has a generation of at least one; the active ones of the current epoch have
      different generations up to the current one. */
  ghost predicate Issued(s: State) {
    && (forall task | task in s.generations :: s.generations[task] >= 0)
    && (forall id | id in s.leases ::
         |s.leases[id].taskScope| == 1 && s.leases[id].generation >= 1 && Dated(s, s.leases[id]))
    && (forall i, j | i in s.leases && j in s.leases && i != j :: Told(s, s.leases[i], s.leases[j]))
  }

  /** Keeps the identity of the leases: what an event does to a lease that is already there. */
  ghost predicate SameIdentity(a: Lease, b: Lease) {
    && a.taskScope == b.taskScope && a.epoch == b.epoch && a.generation == b.generation
    && a.maxTurns == b.maxTurns && a.maxSpend == b.maxSpend && a.expiresAt == b.expiresAt && a.ceiling == b.ceiling
  }

  lemma LeasesKeepIdentity(s: State, e: Event, id: LeaseId)
    requires Orderly(s, e) && id in s.leases
    ensures id in Step(s, e).leases && SameIdentity(s.leases[id], Step(s, e).leases[id])
    ensures s.leases[id].status != Active ==> Step(s, e).leases[id].status != Active
  {}

  lemma LeasesComeFromAssign(s: State, e: Event)
    requires Orderly(s, e)
    ensures Step(s, e).leases.Keys == s.leases.Keys + if e.Assign? then {e.id} else {}
  {}

  lemma StepKeepsIssued(s: State, e: Event)
    requires Issued(s) && Orderly(s, e)
    ensures Issued(Step(s, e))
  {
    var t := Step(s, e);
    LeasesComeFromAssign(s, e);
    forall id | id in t.leases
      ensures |t.leases[id].taskScope| == 1 && t.leases[id].generation >= 1 && Dated(t, t.leases[id])
    {
      if id in s.leases {
        LeasesKeepIdentity(s, e, id);
        assert Dated(s, s.leases[id]);
      }
    }
    forall i, j | i in t.leases && j in t.leases && i != j
      ensures Told(t, t.leases[i], t.leases[j])
    {
      if i in s.leases {
        LeasesKeepIdentity(s, e, i);
        assert Dated(s, s.leases[i]);
      }
      if j in s.leases {
        LeasesKeepIdentity(s, e, j);
        assert Dated(s, s.leases[j]);
      }
      if i in s.leases && j in s.leases {
        assert Told(s, s.leases[i], s.leases[j]);
      }
    }
  }

  lemma {:induction false} RunKeepsIssued(s: State, events: seq<Event>)
    requires Issued(s) && OrderlyRun(s, events)
    ensures Issued(Run(s, events))
    decreases |events|
  {
    if events != [] {
      StepKeepsIssued(s, events[0]);
      RunKeepsIssued(Step(s, events[0]), events[1..]);
    }
  }

  /** The claim is made with the scheduler's current epoch and the task's current generation. */
  ghost predicate Current(s: State, c: Claim) {
    c.epoch == s.epoch && c.generation == Generation(s, c.task)
  }

  /** A lease is accepted for a claim that is current. */
  ghost predicate Authorises(s: State, id: LeaseId, c: Claim) {
    Current(s, c) && Verify(s.leases, id, c) == Accepted
  }

  lemma AcceptedIsLatest(s: State, id: LeaseId, c: Claim)
    requires Issued(s) && Authorises(s, id, c)
    ensures s.leases[id].taskScope == [c.task]
    ensures s.leases[id].epoch == s.epoch && s.leases[id].generation == Generation(s, c.task)
  {
    var l := s.leases[id];
    assert Dated(s, l) && l.taskScope == [c.task];
  }

  /** In s, at most one lease gives authority over each task to claims that are current. */
  ghost predicate AtMostOneAuthority(s: State) {
    forall c, d, i, j | Authorises(s, i, c) && Authorises(s, j, d) && c.task == d.task :: i == j
  }

  lemma IssuedHasOneAuthority(s: State)
    requires Issued(s)
    ensures AtMostOneAuthority(s)
  {
    forall c, d, i, j | Authorises(s, i, c) && Authorises(s, j, d) && c.task == d.task
      ensures i == j
    {
      AcceptedIsLatest(s, i, c);
      AcceptedIsLatest(s, j, d);
      assert i != j ==> Told(s, s.leases[i], s.leases[j]);
    }
  }

  /** Whatever was assigned, validated, charged, revoked, fenced and restarted before: of all leases, at
      most one gives authority over a task. */
  lemma SingleAuthority(epoch: int, events: seq<Event>)
    requires OrderlyRun(Start(epoch), events)
    ensures AtMostOneAuthority(Run(Start(epoch), events))
  {
    RunKeepsIssued(Start(epoch), events);
    IssuedHasOneAuthority(Run(Start(epoch), events));
  }

  lemma {:induction false} Above(ids: set<LeaseId>) returns (id: LeaseId)
    ensures forall x | x in ids :: x < id
    decreases ids
  {
    if ids == {} {
      id := 0;
    } else {
      var x :| x in ids;
      assert ids == (ids - {x}) + {x};
      id := Above(ids - {x});
      id := if x < id then id else x + 1;
    }
  }

  lemma NewId(leases: Leases) returns (id: LeaseId)
    ensures id !in leases
  {
    id := Above(leases.Keys);
  }

  /** A restart that does not outdate an active lease starts the generations over: that lease and the first lease
      of the new scheduler for its task both have authority. */
  lemma LowRestartSharesAuthority(s: State, epoch: int, earlier: LeaseId) returns (e: Event)
    requires Issued(s) && earlier in s.leases && s.leases[earlier].status == Active && s.leases[earlier].epoch >= epoch
    ensures Orderly(Step(s, Restart(epoch)), e) && !AtMostOneAuthority(Step(Step(s, Restart(epoch)), e))
  {
    var id := NewId(s.leases);
    var l := s.leases[earlier];
    var task := l.taskScope[0];
    e := Assign(id, l.agentId, l.missionId, task, l.ceiling, l.toolScope, l.expiresAt);
    var restarted := Step(s, Restart(epoch));
    var end := Step(restarted, e);
    var c := Claim(task, epoch, 1, 1, 1, l.expiresAt);
    assert end.leases[earlier] == l && end.leases[id] == NewLease(restarted, e);
    assert Authorises(end, earlier, c) && Authorises(end, id, c) && earlier != id;
  }

  ghost predicate KeepsAuthority(s: State, events: seq<Event>) {
    OrderlyRun(s, events) ==> AtMostOneAuthority(Run(s, events))
  }

  /** Exactly when a scheduler may be restarted on leases that are already there: every active lease is of an
      earlier epoch. Then, and only then, no later run gives two leases authority over one task. */
  lemma RestartKeepsAuthorityIff(s: State, epoch: int)
    requires Issued(s)
    ensures (forall events :: KeepsAuthority(Step(s, Restart(epoch)), events)) <==> Outdated(s, epoch)
  {
    var restarted := Step(s, Restart(epoch));
    if Outdated(s, epoch) {
      StepKeepsIssued(s, Restart(epoch));
      forall events
        ensures KeepsAuthority(restarted, events)
      {
        if OrderlyRun(restarted, events) {
          RunKeepsIssued(restarted, events);
          IssuedHasOneAuthority(Run(restarted, events));
        }
      }
    } else {
      var earlier :| earlier in s.leases && s.leases[earlier].status == Active && s.leases[earlier].epoch >= epoch;
      var e := LowRestartSharesAuthority(s, epoch, earlier);
      OneEvent(restarted, e);
      assert !KeepsAuthority(restarted, [e]);
    }
  }

  // ---- Authority that is lost stays lost ----

  /** A lease that has ended or has been replaced: a later generation of its task, or a later epoch, is current. */
  ghost predicate Superseded(s: State, id: LeaseId) {
    && id in s.leases && |s.leases[id].taskScope| == 1
    && (|| s.leases[id].status != Active
        || s.leases[id].epoch < s.epoch
        || s.leases[id].generation < Generation(s, s.leases[id].taskScope[0]))
  }

  lemma {:induction false} InactiveForever(s: State, events: seq<Event>, id: LeaseId, c: Claim)
    requires OrderlyRun(s, events) && id in s.leases && s.leases[id].status != Active
    ensures Verify(Run(s, events).leases, id, c) == NotActive
    decreases |events|
  {
    if events != [] {
      LeasesKeepIdentity(s, events[0], id);
      InactiveForever(Step(s, events[0]), events[1..], id, c);
    }
  }

  /** A lease that is found expired, or fenced off by epoch or generation, is never accepted again, however
      the caller fills in the claim; a version conflict or a foreign task costs it nothing. */
  lemma RejectionIsPermanent(s: State, id: LeaseId, c: Claim, events: seq<Event>, later: Claim)
    requires OrderlyRun(Step(s, Validate(id, c)), events)
    ensures Verify(s.leases, id, c) in {NotActive, LeaseExpired, OldEpoch, OldGeneration}
            ==> Verify(Run(Step(s, Validate(id, c)), events).leases, id, later) == NotActive
    ensures Verify(s.leases, id, c) in {Accepted, NotFound, VersionConflict, OutOfScope} ==>
            Step(s, Validate(id, c)) == s
  {
    var next := Step(s, Validate(id, c));
    if Verify(s.leases, id, c) in {NotActive, LeaseExpired, OldEpoch, OldGeneration} {
      InactiveForever(next, events, id, later);
    } else if id in s.leases {
      assert next.leases[id] == s.leases[id];
      assert next.leases == s.leases;
    }
  }

  lemma {:induction false} SupersededForever(s: State, events: seq<Event>, id: LeaseId)
    requires Issued(s) && OrderlyRun(s, events) && Superseded(s, id)
    ensures Superseded(Run(s, events), id)
    decreases |events|
  {
    if events != [] {
      var t := Step(s, events[0]);
      LeasesKeepIdentity(s, events[0], id);
      StepKeepsIssued(s, events[0]);
      assert Dated(s, s.leases[id]);
      SupersededForever(t, events[1..], id);
    }
  }

  /** Reassigning a task ends the authority of every lease it had, for good. */
  lemma ReassignmentFences(s: State, e: Event, id: LeaseId, events: seq<Event>, c: Claim)
    requires Issued(s) && Orderly(s, e) && e.Assign? && id in s.leases && s.leases[id].taskScope == [e.task]
    requires OrderlyRun(Step(s, e), events) && Current(Run(Step(s, e), events), c)
    ensures Verify(Run(Step(s, e), events).leases, id, c) != Accepted
  {
    assert Dated(s, s.leases[id]);
    StepKeepsIssued(s, e);
    SupersededForever(Step(s, e), events, id);
    var l := Run(Step(s, e), events).leases[id];
    if c.task in l.taskScope {
      assert l.taskScope[0] == c.task;
    }
  }

  // ---- Limits ----

  ghost predicate WithinLimits(l: Lease) {
    l.status == Active ==> l.turnsUsed < l.maxTurns && l.spendUsed <= l.maxSpend
  }

  ghost predicate AllWithinLimits(s: State) {
    forall id | id in s.leases :: WithinLimits(s.leases[id])
  }

  lemma {:induction false} RunKeepsLimits(s: State, events: seq<Event>)
    requires AllWithinLimits(s)
    ensures AllWithinLimits(Run(s, events))
    decreases |events|
  {
    if events != [] {
      var t := Step(s, events[0]);
      forall id | id in t.leases
        ensures WithinLimits(t.leases[id])
      {
        if id in s.leases {
          assert WithinLimits(s.leases[id]);
        }
      }
      RunKeepsLimits(t, events[1..]);
    }
  }

  /** After any run, a claim that is accepted is for a live lease of the task that has turns left, has not
      overspent, and belongs to no older epoch or generation. */
  lemma AcceptedIsWithinLimits(epoch: int, events: seq<Event>, id: LeaseId, c: Claim)
    requires Verify(Run(Start(epoch), events).leases, id, c) == Accepted
    ensures var l := Run(Start(epoch), events).leases[id];
            && l.turnsUsed < l.maxTurns && l.spendUsed <= l.maxSpend && c.now <= l.expiresAt
            && l.epoch >= c.epoch && l.generation >= c.generation && c.task in l.taskScope
  {
    RunKeepsLimits(Start(epoch), events);
    assert WithinLimits(Run(Start(epoch), events).leases[id]);
  }

  function TurnsOf(events: seq<Event>, id: LeaseId): int {
    if events == [] then 0
    else (if events[0].Use? && events[0].user == id then events[0].turns else 0) + TurnsOf(events[1..], id)
  }

  function SpendOf(events: seq<Event>, id: LeaseId): real {
    if events == [] then 0.0
    else (if events[0].Use? && events[0].user == id then events[0].spend else 0.0) + SpendOf(events[1..], id)
  }

  /** Usage is charged to the lease it was recorded for and to no other, after the lease has ended too. */
  lemma {:induction false} UsageIsConserved(s: State, events: seq<Event>, id: LeaseId)
    requires OrderlyRun(s, events) && id in s.leases
    ensures id in Run(s, events).leases
    ensures var a, b := s.leases[id], Run(s, events).leases[id];
            && SameIdentity(a, b)
            && b.turnsUsed == a.turnsUsed + TurnsOf(events, id)
            && b.spendUsed == a.spendUsed + SpendOf(events, id)
    decreases |events|
  {
    if events != [] {
      LeasesKeepIdentity(s, events[0], id);
      UsageIsConserved(Step(s, events[0]), events[1..], id);
    }
  }

  /** So a lease that is still accepted has been charged less than its turns and no more than its money. */
  lemma AcceptedWasChargedWithinLimits(s: State, events: seq<Event>, id: LeaseId, c: Claim)
    requires AllWithinLimits(s) && OrderlyRun(s, events) && id in s.leases
    requires s.leases[id].turnsUsed == 0 && s.leases[id].spendUsed == 0.0
    requires Verify(Run(s, events).leases, id, c) == Accepted
    ensures TurnsOf(events, id) < s.leases[id].maxTurns && SpendOf(events, id) <= s.leases[id].maxSpend
  {
    RunKeepsLimits(s, events);
    UsageIsConserved(s, events, id);
    assert WithinLimits(Run(s, events).leases[id]);
  }

  /** Fencing an epoch takes authority from exactly the active leases of earlier epochs. */
  lemma FencingIsExact(leases: Leases, epoch: int, id: LeaseId, c: Claim)
    requires c.epoch == epoch
    ensures Verify(Fenced(leases, epoch), id, c) == Accepted <==> Verify(leases, id, c) == Accepted
    ensures id in leases && !Stale(leases[id], epoch) ==> Fenced(leases, epoch)[id] == leases[id]
    ensures id in leases ==> !Stale(Fenced(leases, epoch)[id], epoch)
  {}

  // ---- The controller and the scheduler ----

  class AgentLeaseController {
    const maxDuration: int
    var leases: Leases

    constructor (maxLeaseDurationMinutes: int)
      ensures leases == map[] && maxDuration == maxLeaseDurationMinutes * MINUTE
    {
      maxDuration := maxLeaseDurationMinutes * MINUTE;
      leases := map[];
    }

    /** leaseId: the id that uuid4 makes. */
    method GrantLease(leaseId: LeaseId, agentId: string, missionId: string, taskScope: seq<TaskId>, ceiling: nat,
                      toolScope: seq<string>, kernelEpoch: int, leaseGeneration: int, durationMinutes: int,
                      maxTurns: int, maxSpend: real, now: int)
      returns (lease: Lease)
      requires leaseId !in leases
      modifies this
      ensures leases == old(leases)[leaseId := lease]
      ensures lease == Lease(agentId, missionId, taskScope, leaseGeneration, kernelEpoch, lease.expiresAt, ceiling,
                             toolScope, maxTurns, 0, maxSpend, 0.0, Active)
      ensures lease.expiresAt <= now + durationMinutes * MINUTE && lease.expiresAt <= now + maxDuration
      ensures lease.expiresAt in {now + durationMinutes * MINUTE, now + maxDuration}
      ensures WithinLimits(lease) <==> maxTurns > 0 && maxSpend >= 0.0
    {
      var duration := durationMinutes * MINUTE;
      if maxDuration < duration {
        duration := maxDuration;
      }
      lease := Lease(agentId, missionId, taskScope, leaseGeneration, kernelEpoch, now + duration, ceiling, toolScope,
                     maxTurns, 0, maxSpend, 0.0, Active);
      leases := leases[leaseId := lease];
    }

    method ValidateLeaseAuthority(id: LeaseId, c: Claim) returns (verdict: Verdict)
      modifies this
      ensures verdict == Verify(old(leases), id, c) && leases == Verified(old(leases), id, c)
      ensures verdict == NotFound <==> id !in old(leases)
      ensures id !in old(leases) ==> leases == old(leases)
      ensures id in old(leases) ==>
        var l := old(leases)[id];
        var live := l.status == Active && c.now <= l.expiresAt;
        var newest := l.epoch >= c.epoch && l.generation >= c.generation;
        && (verdict == NotActive <==> l.status != Active)
        && (verdict == LeaseExpired <==> l.status == Active && !live)
        && (verdict == OldEpoch <==> live && l.epoch < c.epoch)
        && (verdict == OldGeneration <==> live && l.epoch >= c.epoch && l.generation < c.generation)
        && (verdict == VersionConflict <==> live && newest && c.version != c.expectedVersion)
        && (verdict == OutOfScope <==> live && newest && c.version == c.expectedVersion && c.task !in l.taskScope)
        && (verdict == Accepted <==> live && newest && c.version == c.expectedVersion && c.task in l.taskScope)
        && leases == old(leases)[id := l.(status := if verdict == LeaseExpired then Expired
                                                    else if verdict in {OldEpoch, OldGeneration} then Revoked
                                                    else l.status)]
    {
      if id !in leases {
        return NotFound;
      }
      var lease := leases[id];
      if lease.status != Active {
        verdict := NotActive;
      } else if c.now > lease.expiresAt {
        lease := lease.(status := Expired);
        verdict := LeaseExpired;
      } else if lease.epoch < c.epoch {
        lease := lease.(status := Revoked);
        verdict := OldEpoch;
      } else if lease.generation < c.generation {
        lease := lease.(status := Revoked);
        verdict := OldGeneration;
      } else if c.version != c.expectedVersion {
        verdict := VersionConflict;
      } else if c.task !in lease.taskScope {
        verdict := OutOfScope;
      } else {
        verdict := Accepted;
      }
      leases := leases[id := lease];
    }

    /** overspent: the budget error is raised. */
    method RecordUsage(id: LeaseId, turns: int, spend: real) returns (overspent: bool)
      modifies this
      ensures leases == Used(old(leases), id, turns, spend)
      ensures overspent <==> id in leases && leases[id].spendUsed > leases[id].maxSpend
      ensures id !in old(leases) ==> leases == old(leases)
      ensures id in old(leases) ==>
        var l, status := old(leases)[id], leases[id].status;
        && leases == old(leases)[id := l.(turnsUsed := l.turnsUsed + turns, spendUsed := l.spendUsed + spend,
                                          status := status)]
        && (overspent ==> status == Failed)
        && (!overspent && leases[id].turnsUsed >= l.maxTurns ==> status == Completed)
        && (!overspent && leases[id].turnsUsed < l.maxTurns ==> status == l.status)
    {
      if id !in leases {
        return false;
      }
      var lease := leases[id].(turnsUsed := leases[id].turnsUsed + turns, spendUsed := leases[id].spendUsed + spend);
      if lease.turnsUsed >= lease.maxTurns {
        lease := lease.(status := Completed);
      }
      overspent := lease.spendUsed > lease.maxSpend;
      if overspent {
        lease := lease.(status := Failed);
      }
      leases := leases[id := lease];
    }

    method RevokeLease(id: LeaseId)
      modifies this
      ensures leases == Withdrawn(old(leases), id)
      ensures leases.Keys == old(leases).Keys
      ensures forall k | k in leases ::
        var l := old(leases)[k];
        leases[k] == if k == id && l.status == Active then l.(status := Revoked) else l
    {
      if id in leases && leases[id].status == Active {
        leases := leases[id := leases[id].(status := Revoked)];
      }
    }

    method FenceEpoch(currentEpoch: int) returns (count: nat)
      modifies this
      ensures leases == Fenced(old(leases), currentEpoch)
      ensures leases.Keys == old(leases).Keys
      ensures forall k | k in leases ::
        var l := old(leases)[k];
        leases[k] == if l.status == Active && l.epoch < currentEpoch then l.(status := Revoked) else l
      ensures count == |set k | k in leases && leases[k] != old(leases)[k]|
    {
      count := 0;
      ghost var before, done := leases, {};
      var todo := leases.Keys;
      assert leases == FencedAmong(before, {}, currentEpoch);
      while todo != {}
        invariant done + todo == before.Keys && done !! todo && leases == FencedAmong(before, done, currentEpoch)
        invariant count == |StaleAmong(before, done, currentEpoch)|
        decreases todo
      {
        var id :| id in todo;
        FenceStep(before, done, id, currentEpoch);
        StaleStep(before, done, id, currentEpoch);
        if leases[id].status == Active && leases[id].epoch < currentEpoch {
          leases := leases[id := leases[id].(status := Revoked)];
          count := count + 1;
        }
        todo, done := todo - {id}, done + {id};
      }
      assert done == before.Keys;
      assert StaleAmong(before, done, currentEpoch) == set k | k in leases && leases[k] != before[k];
    }
  }

  /** A role's profile: how far it may act, and the tools it gets when none are named. */
  datatype RoleProfile = RoleProfile(maximumClass: nat, tools: seq<string>)

  datatype Mission = Mission(missionId: string, status: string, maximumClass: nat)

  class MissionScheduler {
    const kernelEpoch: int
    const controller: AgentLeaseController
    var taskGenerations: map<TaskId, int>

    ghost function View(): State
      reads this, controller
    {
      State(controller.leases, taskGenerations, kernelEpoch)
    }

    constructor (kernelEpoch: int, controller: AgentLeaseController)
      ensures this.kernelEpoch == kernelEpoch && this.controller == controller
      ensures View() == Step(State(controller.leases, map[], 0), Restart(kernelEpoch))
    {
      this.kernelEpoch := kernelEpoch;
      this.controller := controller;
      taskGenerations := map[];
    }

    /** None: the mission's status does not allow it. The lease allows no more than was asked for, than the
        mission allows and than the role's profile recommends. */
    method AssignAgentToTask(leaseId: LeaseId, agentId: string, mission: Mission, task: TaskId, profile: RoleProfile,
                             actionCeiling: nat, toolScope: seq<string>, now: int)
      returns (r: Option<Lease>)
      requires leaseId !in controller.leases
      modifies this, controller
      ensures r.Some? <==> mission.status in {"ACTIVE", "READY"}
      ensures r.None? ==> View() == old(View())
      ensures r.Some? ==>
                && Orderly(old(View()), IssuedBy(leaseId, mission, task, r.value))
                && View() == Step(old(View()), IssuedBy(leaseId, mission, task, r.value))
                && controller.leases[leaseId] == r.value
      ensures r.Some? ==>
                && r.value.expiresAt <= now + DEFAULT_MINUTES * MINUTE
                && r.value.expiresAt <= now + controller.maxDuration
                && r.value.expiresAt in {now + DEFAULT_MINUTES * MINUTE, now + controller.maxDuration}
                && r.value.agentId == agentId && r.value.missionId == mission.missionId
                && r.value.taskScope == [task] && r.value.epoch == kernelEpoch && r.value.status == Active
                && r.value.generation == 1 + (if task in old(taskGenerations) then old(taskGenerations)[task] else 0)
                && taskGenerations == old(taskGenerations)[task := r.value.generation]
                && r.value.maxTurns == 20 && r.value.maxSpend == 10.0
                && r.value.turnsUsed == 0 && r.value.spendUsed == 0.0
                && r.value.toolScope == (if toolScope != [] then toolScope else profile.tools)
                && r.value.ceiling <= actionCeiling && r.value.ceiling <= mission.maximumClass
                && r.value.ceiling <= profile.maximumClass
                && r.value.ceiling in {actionCeiling, mission.maximumClass, profile.maximumClass}
    {
      if mission.status !in {"ACTIVE", "READY"} {
        return None;
      }
      var ceiling := actionCeiling;
      if mission.maximumClass < ceiling {
        ceiling := mission.maximumClass;
      }
      if profile.maximumClass < ceiling {
        ceiling := profile.maximumClass;
      }
      var gen := (if task in taskGenerations then taskGenerations[task] else 0) + 1;
      taskGenerations := taskGenerations[task := gen];
      var tools := if toolScope != [] then toolScope else profile.tools;
      var lease := controller.GrantLease(leaseId, agentId, mission.missionId, [task], ceiling, tools, kernelEpoch, gen,
                                         DEFAULT_MINUTES, DEFAULT_TURNS, DEFAULT_SPEND, now);
      return Some(lease);
    }
  }

  /** The event that a lease's issue is. */
  ghost function IssuedBy(id: LeaseId, mission: Mission, task: TaskId, l: Lease): Event {
    Assign(id, l.agentId, mission.missionId, task, l.ceiling, l.toolScope, l.expiresAt)
  }
}
