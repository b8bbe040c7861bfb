/** Worker leases with fencing generations (engineering/distributed_leases.py). Each operation is atomic
    and reads the clock once; the clock is a parameter. */
module DistributedLeases {
  import PyText
  import opened Sequences
  import opened Wrappers

  datatype Lease = Lease(taskId: string, workerId: string, workspaceId: nat, generation: nat,
                         acquiredAt: int, heartbeatAt: int, expiresAt: int)

  datatype Registry = Registry(leases: map<string, Lease>, generations: map<string, nat>)

  datatype Refusal = MissingIds | TtlTooShort | LeasedByOther | NoActiveLease | StaleToken | LeaseExpired

  datatype Op =
    | Acquire(task: string, worker: string, workspace: nat, ttl: int)
    | Heartbeat(task: string, worker: string, generation: nat, ttl: int)
    | Release(task: string, worker: string, generation: nat)
    | ValidateFence(task: string, worker: string, generation: nat)
    | Get(task: string)
    | ListActive

  datatype Reply =
    | Granted(lease: Lease)
    | Refused(why: Refusal)
    | Done
    | Fence(valid: bool)
    | Found(found: Option<Lease>)
    | Active(leases: map<string, Lease>)

  predicate Expired(l: Lease, now: int) {
    l.expiresAt <= now
  }

  function Generation(r: Registry, task: string): nat {
    if task in r.generations then r.generations[task] else 0
  }

  /** The registry without the leases that have expired. */
  function Prune(r: Registry, now: int): Registry {
    r.(leases := map t | t in r.leases && !Expired(r.leases[t], now) :: r.leases[t])
  }

  function Without(r: Registry, task: string): Registry {
    r.(leases := r.leases - {task})
  }

  predicate Holds(l: Lease, worker: string, generation: nat) {
    l.workerId == worker && l.generation == generation
  }

  predicate Passes(r: Registry, task: string, worker: string, generation: nat, now: int) {
    && task in r.leases && !Expired(r.leases[task], now)
    && Holds(r.leases[task], worker, generation) && Generation(r, task) == generation
  }

  function Apply(r: Registry, op: Op, now: int): (Registry, Reply) {
    match op
    case Acquire(task, worker, workspace, ttl) =>
      if PyText.Strip(task) == "" || PyText.Strip(worker) == "" then (r, Refused(MissingIds))
      else if ttl < 5 then (r, Refused(TtlTooShort))
      else
        var p := Prune(r, now);
        if task in p.leases then
          var active := p.leases[task];
          if active.workerId == worker && active.workspaceId == workspace then (r, Granted(active))
          else (r, Refused(LeasedByOther))
        else
          var generation := Generation(p, task) + 1;
          var lease := Lease(task, worker, workspace, generation, now, now, now + ttl);
          (Registry(p.leases[task := lease], p.generations[task := generation]), Granted(lease))
    case Heartbeat(task, worker, generation, ttl) =>
      if task !in r.leases then (r, Refused(NoActiveLease))
      else if !Holds(r.leases[task], worker, generation) then (r, Refused(StaleToken))
      else if Expired(r.leases[task], now) then (Without(r, task), Refused(LeaseExpired))
      else
        var lease := r.leases[task].(heartbeatAt := now, expiresAt := now + if ttl < 5 then 5 else ttl);
        (r.(leases := r.leases[task := lease]), Granted(lease))
    case Release(task, worker, generation) =>
      if task !in r.leases then (r, Done)
      else if !Holds(r.leases[task], worker, generation) then (r, Refused(StaleToken))
      else (Without(r, task), Done)
    case ValidateFence(task, worker, generation) =>
      (r, Fence(Passes(r, task, worker, generation, now)))
    case Get(task) =>
      if task !in r.leases then (r, Found(None))
      else if Expired(r.leases[task], now) then (Without(r, task), Found(None))
      else (r, Found(Some(r.leases[task])))
    case ListActive =>
      (Prune(r, now), Active(Prune(r, now).leases))
  }

  datatype Event = Event(op: Op, now: int)

  function Run(r: Registry, events: seq<Event>): Registry
    decreases |events|
  {
    if events == [] then r else Run(Apply(r, events[0].op, events[0].now).0, events[1..])
  }

  /** The clock never goes back: not before start, and not from one event to the next. */
  ghost predicate InOrder(start: int, events: seq<Event>) {
    && (forall i | 0 <= i < |events| :: start <= events[i].now)
    && (forall i, j | 0 <= i <= j < |events| :: events[i].now <= events[j].now)
  }

  function LastTime(start: int, events: seq<Event>): int {
    if events == [] then start else events[|events| - 1].now
  }

  // ---- Every stored lease carries its task's current generation ----

  ghost predicate Consistent(r: Registry) {
    forall t | t in r.leases :: r.leases[t].taskId == t && r.leases[t].generation == Generation(r, t) >= 1
  }

  lemma StepStaysConsistent(r: Registry, op: Op, now: int)
    requires Consistent(r)
    ensures Consistent(Apply(r, op, now).0)
    ensures forall t :: Generation(r, t) <= Generation(Apply(r, op, now).0, t)
  {
  }

  lemma {:induction false} RunStaysConsistent(r: Registry, events: seq<Event>)
    requires Consistent(r)
    ensures Consistent(Run(r, events))
    ensures forall t :: Generation(r, t) <= Generation(Run(r, events), t)
    decreases |events|
  {
    if events != [] {
      StepStaysConsistent(r, events[0].op, events[0].now);
      RunStaysConsistent(Apply(r, events[0].op, events[0].now).0, events[1..]);
    }
  }

  // ---- What each operation does, one by one ----

  /** A fence check passes exactly for the holder of a stored, unexpired lease of the current generation. */
  lemma FenceIsExact(r: Registry, task: string, worker: string, generation: nat, now: int)
    requires Consistent(r)
    ensures Apply(r, ValidateFence(task, worker, generation), now) == (r, Fence(true)) <==>
            && task in r.leases && now < r.leases[task].expiresAt
            && r.leases[task].workerId == worker && r.leases[task].generation == generation
            && task in r.generations && r.generations[task] == generation
    ensures Apply(r, ValidateFence(task, worker, generation), now).0 == r
  {
  }

  /** A release by the holder ends the lease: no token of the task passes any more, nothing is found, and the next
      worker that asks gets the task, with the next generation. Other tasks keep their leases. */
  lemma ReleaseFrees(r: Registry, task: string, worker: string, generation: nat, now: int)
    requires Consistent(r) && task in r.leases
    requires r.leases[task].workerId == worker && r.leases[task].generation == generation
    ensures var (q, reply) := Apply(r, Release(task, worker, generation), now);
      && reply == Done && q.leases == r.leases - {task} && q.generations == r.generations
      && (forall w, g, t :: !Passes(q, task, w, g, t))
      && (forall t :: Apply(q, Get(task), t).1 == Found(None))
      && (forall w, workspace, ttl, t | PyText.Strip(task) != "" && PyText.Strip(w) != "" && ttl >= 5 ::
            Apply(q, Acquire(task, w, workspace, ttl), t).1 ==
            Granted(Lease(task, w, workspace, generation + 1, t, t, t + ttl)))
  {
  }

  /** Only the holder can release; where nothing is stored there is nothing to do. */
  lemma ReleaseIsGuarded(r: Registry, task: string, worker: string, generation: nat, now: int)
    requires task !in r.leases || r.leases[task].workerId != worker || r.leases[task].generation != generation
    ensures Apply(r, Release(task, worker, generation), now) ==
            (r, if task in r.leases then Refused(StaleToken) else Done)
  {
  }

  /** A heartbeat is granted exactly to the holder of an unexpired lease, and its token then passes exactly until
      the granted time is over, which is five seconds at least. One that comes too late drops the lease. */
  lemma HeartbeatExtends(r: Registry, task: string, worker: string, generation: nat, ttl: int, now: int)
    requires Consistent(r)
    ensures var (q, reply) := Apply(r, Heartbeat(task, worker, generation, ttl), now);
      var held := task in r.leases && r.leases[task].workerId == worker && r.leases[task].generation == generation;
      && (reply.Granted? <==> held && now < r.leases[task].expiresAt)
      && q.generations == r.generations && q.leases - {task} == r.leases - {task}
      && (reply.Granted? ==>
            && (forall t | t >= now :: Passes(q, task, worker, generation, t) <==> t < now + if ttl < 5 then 5 else ttl)
            && task in q.leases && reply.lease == q.leases[task]
            && reply.lease == r.leases[task].(heartbeatAt := now, expiresAt := now + if ttl < 5 then 5 else ttl))
      && (!reply.Granted? ==> reply.Refused? && if held then q.leases == r.leases - {task} else q == r)
  {
  }

  /** An acquisition is granted exactly for ids that are not blank and five seconds at least, if nobody else holds
      the task, and a new lease's token passes exactly until its time is over. */
  lemma AcquireGrants(r: Registry, task: string, worker: string, workspace: nat, ttl: int, now: int)
    requires Consistent(r)
    ensures var (q, reply) := Apply(r, Acquire(task, worker, workspace, ttl), now);
      var busy := task in r.leases && now < r.leases[task].expiresAt;
      var mine := busy && r.leases[task].workerId == worker && r.leases[task].workspaceId == workspace;
      && (reply.Granted? <==>
            PyText.Strip(task) != "" && PyText.Strip(worker) != "" && ttl >= 5 && (!busy || mine))
      && (!reply.Granted? ==> reply.Refused? && q == r)
      && (reply.Granted? && mine ==> q == r && reply.lease == r.leases[task])
      && (reply.Granted? && !mine ==>
            && reply.lease == Lease(task, worker, workspace, Generation(r, task) + 1, now, now, now + ttl)
            && (forall t | t >= now :: Passes(q, task, worker, reply.lease.generation, t) <==> t < now + ttl)
            && forall x | x != task ::
              && (x in q.leases <==> x in r.leases && now < r.leases[x].expiresAt)
              && (x in q.leases ==> q.leases[x] == r.leases[x]))
  {
  }

  /** Looking up and listing find exactly the leases that have not expired, and drop the others they come across. */
  lemma LookupsFindLive(r: Registry, task: string, now: int)
    ensures var (q, reply) := Apply(r, Get(task), now);
      var found := task in r.leases && now < r.leases[task].expiresAt;
      reply == Found(if found then Some(r.leases[task]) else None) && (if found then q == r
                                                                      else q == r.(leases := r.leases - {task}))
    ensures var (q, reply) := Apply(r, ListActive, now);
      && reply == Active(q.leases) && q.generations == r.generations
      && (forall t :: t in q.leases <==> t in r.leases && now < r.leases[t].expiresAt)
      && (forall t | t in q.leases :: q.leases[t] == r.leases[t])
  {
    if task !in r.leases {
      assert r.leases - {task} == r.leases;
    }
  }

  // ---- Fence loss is permanent ----

  /** A token that was granted at some time, and does not pass now. */
  ghost predicate Lost(r: Registry, task: string, worker: string, generation: nat, now: int) {
    generation <= Generation(r, task) && !Passes(r, task, worker, generation, now)
  }

  lemma StepStaysLost(r: Registry, e: Event, task: string, worker: string, generation: nat, start: int)
    requires Consistent(r) && start <= e.now && Lost(r, task, worker, generation, start)
    ensures Lost(Apply(r, e.op, e.now).0, task, worker, generation, e.now)
  {
  }

  /** Once a granted token stops passing, it never passes again, whatever is done to the registry. */
  lemma {:induction false} FenceLossIsPermanent(r: Registry, events: seq<Event>, task: string, worker: string,
                                                generation: nat, start: int, now: int)
    requires Consistent(r) && InOrder(start, events) && Lost(r, task, worker, generation, start)
    requires LastTime(start, events) <= now
    ensures !Passes(Run(r, events), task, worker, generation, now)
    decreases |events|
  {
    if events != [] {
      var e := events[0];
      StepStaysConsistent(r, e.op, e.now);
      StepStaysLost(r, e, task, worker, generation, start);
      FenceLossIsPermanent(Apply(r, e.op, e.now).0, events[1..], task, worker, generation, e.now, now);
    }
  }

  /** When the task's next generation can be granted: once the lease that is stored has expired. */
  function NextGrant(r: Registry, task: string, now: int): int {
    if task in r.leases && r.leases[task].expiresAt > now then r.leases[task].expiresAt else now
  }

  /** Operations after which a worker's token of a later generation passes. */
  lemma {:induction false} GrantLater(r: Registry, task: string, worker: string, generation: nat, now: int)
    returns (events: seq<Event>, later: int)
    requires PyText.Strip(task) != "" && PyText.Strip(worker) != "" && generation > Generation(r, task)
    ensures InOrder(now, events) && LastTime(now, events) <= later
    ensures Passes(Run(r, events), task, worker, generation, later)
    decreases generation - Generation(r, task)
  {
    var e := Event(Acquire(task, worker, 0, 5), NextGrant(r, task, now));
    var next := Apply(r, e.op, e.now).0;
    assert Generation(next, task) == Generation(r, task) + 1;
    assert Passes(next, task, worker, Generation(next, task), e.now);
    if generation == Generation(next, task) {
      events, later := [e], e.now;
      assert Run(r, [e]) == Run(next, [e][1..]) == next;
    } else {
      var rest;
      rest, later := GrantLater(next, task, worker, generation, e.now);
      events := [e] + rest;
      assert events[1..] == rest;
    }
  }

  ghost predicate PassesAfter(r: Registry, events: seq<Event>, task: string, worker: string, generation: nat,
                              now: int, later: int) {
    InOrder(now, events) && LastTime(now, events) <= later && Passes(Run(r, events), task, worker, generation, later)
  }

  /** Exactly the tokens of generations that have not been granted yet can pass later although they do not
      pass now, whoever holds them. */
  lemma TokenPassesLaterIff(r: Registry, task: string, worker: string, generation: nat, now: int)
    requires Consistent(r) && !Passes(r, task, worker, generation, now)
    requires PyText.Strip(task) != "" && PyText.Strip(worker) != ""
    ensures (exists events, later :: PassesAfter(r, events, task, worker, generation, now, later)) <==>
            generation > Generation(r, task)
  {
    if generation > Generation(r, task) {
      var events, later := GrantLater(r, task, worker, generation, now);
      assert PassesAfter(r, events, task, worker, generation, now, later);
    } else {
      forall events, later
        ensures !PassesAfter(r, events, task, worker, generation, now, later)
      {
        if InOrder(now, events) && LastTime(now, events) <= later {
          FenceLossIsPermanent(r, events, task, worker, generation, now, later);
        }
      }
    }
  }

  // ---- Generations fence one holder after the other ----

  /** An acquisition that makes a new lease uses a generation that no earlier one of the task had. */
  lemma FreshGrantIsNewer(r: Registry, task: string, worker: string, workspace: nat, ttl: int, now: int)
    requires Consistent(r)
    ensures var (r', reply) := Apply(r, Acquire(task, worker, workspace, ttl), now);
      reply.Granted? ==>
        && Passes(r', task, worker, reply.lease.generation, now) && reply.lease.workspaceId == workspace
        && (reply.lease.generation == Generation(r, task) + 1 == Generation(r', task)
            || (r' == r && Passes(r, task, worker, reply.lease.generation, now)))
  {
  }

  /** Operations that check the fence happen in the order of their generations, and one generation has
      one holder for ever. */
  lemma {:induction false} GuardedOperationsAreOrdered(r: Registry, events: seq<Event>, task: string, w1: string,
                                                       g1: nat, t1: int, w2: string, g2: nat, t2: int)
    requires Consistent(r) && InOrder(t1, events) && LastTime(t1, events) <= t2
    requires Passes(r, task, w1, g1, t1) && Passes(Run(r, events), task, w2, g2, t2)
    ensures g1 <= g2 && (g1 == g2 ==> w1 == w2)
    decreases |events|
  {
    RunStaysConsistent(r, events);
    if g1 == g2 && w1 != w2 {
      assert Lost(r, task, w2, g2, t1);
      FenceLossIsPermanent(r, events, task, w2, g2, t1, t2);
    }
  }

  // ---- Lazy expiry cannot be observed ----

  lemma PruneTwice(r: Registry, earlier: int, now: int)
    requires earlier <= now
    ensures Prune(Prune(r, earlier), now) == Prune(r, now)
  {
  }

  /** Registries that agree on everything but leases that have expired. */
  ghost predicate SameLive(r: Registry, q: Registry, now: int) {
    Prune(r, now) == Prune(q, now)
  }

  lemma SameLiveLasts(r: Registry, q: Registry, earlier: int, now: int)
    requires SameLive(r, q, earlier) && earlier <= now
    ensures SameLive(r, q, now)
  {
    PruneTwice(r, earlier, now);
    PruneTwice(q, earlier, now);
  }

  /** A release with a token that does not hold the stored, expired lease. */
  predicate ReleasesExpired(r: Registry, op: Op, now: int) {
    && op.Release? && op.task in r.leases && Expired(r.leases[op.task], now)
    && !Holds(r.leases[op.task], op.worker, op.generation)
  }

  /** Replies as far as a client acts on them: why a heartbeat is refused is only a message. */
  predicate SameReply(op: Op, a: Reply, b: Reply) {
    a == b || (op.Heartbeat? && a.Refused? && b.Refused?)
  }

  lemma SameLiveLookup(r: Registry, q: Registry, now: int, t: string)
    requires SameLive(r, q, now)
    ensures r.generations == q.generations
    ensures t in r.leases && !Expired(r.leases[t], now) <==> t in q.leases && !Expired(q.leases[t], now)
    ensures t in r.leases && !Expired(r.leases[t], now) ==> r.leases[t] == q.leases[t]
  {
    assert t in Prune(r, now).leases <==> t in Prune(q, now).leases;
    assert t in Prune(r, now).leases ==> Prune(r, now).leases[t] == Prune(q, now).leases[t];
  }

  /** The unexpired lease of a task, if there is one. */
  function LiveAt(r: Registry, now: int, t: string): Option<Lease> {
    if t in r.leases && !Expired(r.leases[t], now) then Some(r.leases[t]) else None
  }

  lemma SameLiveByLookup(r: Registry, q: Registry, now: int)
    requires r.generations == q.generations && forall t :: LiveAt(r, now, t) == LiveAt(q, now, t)
    ensures SameLive(r, q, now)
  {
    forall t
      ensures t in Prune(r, now).leases <==> t in Prune(q, now).leases
      ensures t in Prune(r, now).leases ==> Prune(r, now).leases[t] == Prune(q, now).leases[t]
    {
      assert LiveAt(r, now, t) == LiveAt(q, now, t);
    }
    assert Prune(r, now).leases == Prune(q, now).leases;
  }

  lemma StepKeepsGenerations(r: Registry, q: Registry, op: Op, now: int)
    requires r.generations == q.generations
    requires !op.ListActive? ==> LiveAt(r, now, op.task) == LiveAt(q, now, op.task)
    ensures Apply(r, op, now).0.generations == Apply(q, op, now).0.generations
  {
  }

  /** What is live after a step depends on what was live before it, and on nothing else. */
  lemma StepKeepsLiveAt(r: Registry, q: Registry, op: Op, now: int, t: string)
    requires r.generations == q.generations && LiveAt(r, now, t) == LiveAt(q, now, t)
    requires !op.ListActive? ==> LiveAt(r, now, op.task) == LiveAt(q, now, op.task)
    ensures LiveAt(Apply(r, op, now).0, now, t) == LiveAt(Apply(q, op, now).0, now, t)
    ensures Apply(r, op, now).0.generations == Apply(q, op, now).0.generations
  {
    StepKeepsGenerations(r, q, op, now);
    match op
    case Acquire(task, worker, workspace, ttl) =>
    case Heartbeat(task, worker, generation, ttl) =>
    case Release(task, worker, generation) =>
    case ValidateFence(task, worker, generation) =>
    case Get(task) =>
    case ListActive =>
  }

  lemma StepStaysSameLive(r: Registry, q: Registry, op: Op, now: int)
    requires SameLive(r, q, now)
    ensures SameLive(Apply(r, op, now).0, Apply(q, op, now).0, now)
  {
    forall t
      ensures LiveAt(r, now, t) == LiveAt(q, now, t) && r.generations == q.generations
    {
      SameLiveLookup(r, q, now, t);
    }
    forall t
      ensures LiveAt(Apply(r, op, now).0, now, t) == LiveAt(Apply(q, op, now).0, now, t)
      ensures Apply(r, op, now).0.generations == Apply(q, op, now).0.generations
    {
      StepKeepsLiveAt(r, q, op, now, t);
    }
    assert LiveAt(r, now, "") == LiveAt(q, now, "");
    SameLiveByLookup(Apply(r, op, now).0, Apply(q, op, now).0, now);
  }

  /** Replies agree unless the operation is a release that tells one registry's expired lease from the
      other's. */
  lemma SameLiveSameReply(r: Registry, q: Registry, op: Op, now: int)
    requires SameLive(r, q, now)
    ensures SameReply(op, Apply(r, op, now).1, Apply(q, op, now).1) <==>
            (ReleasesExpired(r, op, now) <==> ReleasesExpired(q, op, now))
  {
    if !op.ListActive? {
      SameLiveLookup(r, q, now, op.task);
    }
  }

  function Replies(r: Registry, events: seq<Event>): seq<Reply>
    decreases |events|
  {
    if events == [] then []
    else [Apply(r, events[0].op, events[0].now).1] + Replies(Apply(r, events[0].op, events[0].now).0, events[1..])
  }

  /** After the first event, a run is a run of the rest from the next registry. */
  lemma LaterIsRest(r: Registry, events: seq<Event>, before: nat, i: nat)
    requires i == before + 1 && i < |events|
    ensures var next := Apply(r, events[0].op, events[0].now).0;
      && Run(r, events[..i]) == Run(next, events[1..][..before])
      && |Replies(r, events)| == 1 + |Replies(next, events[1..])|
      && (before < |Replies(next, events[1..])| ==> Replies(r, events)[i] == Replies(next, events[1..])[before])
  {
    assert events[..i][1..] == events[1..][..before] && events[..i][0] == events[0];
  }

  /** A registry that still holds expired leases answers every sequence of operations as the pruned one
      does, except for a release with a token that does not hold an expired lease which, at that moment,
      one of the two still stores and the other does not. */
  lemma {:induction false} LazyExpiryIsUnobservable(r: Registry, q: Registry, events: seq<Event>, start: int)
    requires SameLive(r, q, start) && InOrder(start, events)
    ensures |Replies(r, events)| == |Replies(q, events)| == |events|
    ensures forall i | 0 <= i < |events| ::
      SameReply(events[i].op, Replies(r, events)[i], Replies(q, events)[i]) <==>
      (ReleasesExpired(Run(r, events[..i]), events[i].op, events[i].now) <==>
       ReleasesExpired(Run(q, events[..i]), events[i].op, events[i].now))
    decreases |events|
  {
    if events != [] {
      var e, more := events[0], events[1..];
      var r', q' := Apply(r, e.op, e.now).0, Apply(q, e.op, e.now).0;
      SameLiveLasts(r, q, start, e.now);
      StepStaysSameLive(r, q, e.op, e.now);
      SameLiveSameReply(r, q, e.op, e.now);
      LazyExpiryIsUnobservable(r', q', more, e.now);
      forall i | 0 < i < |events|
        ensures Run(r, events[..i]) == Run(r', more[..i - 1]) && Run(q, events[..i]) == Run(q', more[..i - 1])
        ensures events[i] == more[i - 1] && Replies(r, events)[i] == Replies(r', more)[i - 1]
        ensures Replies(q, events)[i] == Replies(q', more)[i - 1]
      {
        LaterIsRest(r, events, i - 1, i);
        LaterIsRest(q, events, i - 1, i);
      }
    }
  }

  /** Release is the exception: it tells an expired lease from none, by refusing a token that does not
      hold it, and in no other case. */
  lemma ReleaseObservesExpiry(r: Registry, op: Op, now: int)
    requires op.Release?
    ensures Apply(r, op, now).1 != Apply(Prune(r, now), op, now).1 <==> ReleasesExpired(r, op, now)
  {
  }

  // ---- The store ----

  class DurableWorkerLeaseStore {
    var state: Registry

    constructor ()
      ensures state == Registry(map[], map[])
    {
      state := Registry(map[], map[]);
    }

    method PruneExpired(s: Registry, now: int) returns (r: Registry)
      ensures r == Prune(s, now)
    {
      r := s;
      var todo := s.leases.Keys;
      ghost var done := {};
      while todo != {}
        invariant done + todo == s.leases.Keys && done !! todo && r.generations == s.generations
        invariant forall t :: t in r.leases <==> t in s.leases && (t in done ==> !Expired(s.leases[t], now))
        invariant forall t | t in r.leases :: r.leases[t] == s.leases[t]
      {
        var t :| t in todo;
        todo, done := todo - {t}, done + {t};
        if Expired(s.leases[t], now) {
          r := Without(r, t);
        }
      }
      assert r.leases == Prune(s, now).leases;
    }

    method AcquireLease(task: string, worker: string, workspace: nat, ttl: int, now: int) returns (reply: Reply)
      modifies this
      ensures (state, reply) == Apply(old(state), Acquire(task, worker, workspace, ttl), now)
    {
      if PyText.Strip(task) == "" || PyText.Strip(worker) == "" {
        return Refused(MissingIds);
      }
      if ttl < 5 {
        return Refused(TtlTooShort);
      }
      var pruned := PruneExpired(state, now);
      if task in pruned.leases {
        var active := pruned.leases[task];
        if !Expired(active, now) {
          if active.workerId == worker && active.workspaceId == workspace {
            return Granted(active);
          }
          return Refused(LeasedByOther);
        }
      }
      var generation := Generation(pruned, task) + 1;
      var lease := Lease(task, worker, workspace, generation, now, now, now + ttl);
      state := Registry(pruned.leases[task := lease], pruned.generations[task := generation]);
      return Granted(lease);
    }

    method HeartbeatLease(task: string, worker: string, generation: nat, ttl: int, now: int) returns (reply: Reply)
      modifies this
      ensures (state, reply) == Apply(old(state), Heartbeat(task, worker, generation, ttl), now)
    {
      if task !in state.leases {
        return Refused(NoActiveLease);
      }
      var lease := state.leases[task];
      if !Holds(lease, worker, generation) {
        return Refused(StaleToken);
      }
      if Expired(lease, now) {
        state := Without(state, task);
        return Refused(LeaseExpired);
      }
      lease := lease.(heartbeatAt := now, expiresAt := now + if ttl < 5 then 5 else ttl);
      state := state.(leases := state.leases[task := lease]);
      return Granted(lease);
    }

    method ReleaseLease(task: string, worker: string, generation: nat, ghost now: int) returns (reply: Reply)
      modifies this
      ensures (state, reply) == Apply(old(state), Release(task, worker, generation), now)
    {
      if task !in state.leases {
        return Done;
      }
      if !Holds(state.leases[task], worker, generation) {
        return Refused(StaleToken);
      }
      state := Without(state, task);
      return Done;
    }

    method CheckFence(task: string, worker: string, generation: nat, now: int) returns (valid: bool)
      ensures (state, Fence(valid)) == Apply(state, ValidateFence(task, worker, generation), now)
    {
      if task !in state.leases {
        return false;
      }
      var lease := state.leases[task];
      var current := lease.generation == generation && Generation(state, task) == generation;
      return !Expired(lease, now) && lease.workerId == worker && current;
    }

    method GetLease(task: string, now: int) returns (found: Option<Lease>)
      modifies this
      ensures (state, Found(found)) == Apply(old(state), Get(task), now)
    {
      if task !in state.leases {
        return None;
      }
      var lease := state.leases[task];
      if Expired(lease, now) {
        state := Without(state, task);
        return None;
      }
      return Some(lease);
    }

    /** The running leases in the order of their tasks' ids. */
    method ListLeases(now: int) returns (leases: seq<Lease>, ghost tasks: seq<string>)
      modifies this
      ensures (state, Active(state.leases)) == Apply(old(state), ListActive, now)
      ensures Sorted(tasks) && Members(tasks) == state.leases.Keys && |leases| == |tasks|
      ensures forall i | 0 <= i < |tasks| :: tasks[i] in state.leases && leases[i] == state.leases[tasks[i]]
    {
      state := PruneExpired(state, now);
      var ids := SortedList(state.leases.Keys);
      leases, tasks := [], ids;
      for i := 0 to |ids|
        invariant |leases| == i && forall j | 0 <= j < i :: ids[j] in state.leases && leases[j] == state.leases[ids[j]]
      {
        assert ids[i] in Members(ids);
        leases := leases + [state.leases[ids[i]]];
      }
    }
  }
}
