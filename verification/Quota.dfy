/** Sliding-window route quotas (intelligence/quota.py). Times are integers; the clock is a parameter. */
module Quota {
  import opened Wrappers

  datatype Policy = Policy(window: nat, maxRequests: Option<nat>, maxInput: Option<nat>, maxOutput: Option<nat>,
                           cooldown: nat)

  /** The bounds that the policy model enforces on its fields. */
  predicate ValidPolicy(p: Policy) {
    && p.window > 0 && p.cooldown > 0
    && (p.maxRequests.Some? ==> p.maxRequests.value > 0)
    && (p.maxInput.Some? ==> p.maxInput.value > 0) && (p.maxOutput.Some? ==> p.maxOutput.value > 0)
  }

  const DEFAULT_POLICY := Policy(60, None, None, None, 60)

  datatype Attempted = Attempted(at: int, input: nat, output: nat)

  datatype Route = Route(policy: Policy, events: seq<Attempted>, cooldownUntil: Option<int>)

  datatype Reason = RateLimited(until: int) | RequestQuota | InputQuota | OutputQuota

  function DropUpTo(events: seq<Attempted>, cutoff: int): seq<Attempted> {
    if events != [] && events[0].at <= cutoff then DropUpTo(events[1..], cutoff) else events
  }

  function Pruned(r: Route, now: int): Route {
    Route(r.policy, DropUpTo(r.events, now - r.policy.window),
          if r.cooldownUntil.Some? && now >= r.cooldownUntil.value then None else r.cooldownUntil)
  }

  function InputSum(events: seq<Attempted>): nat {
    if events == [] then 0 else events[0].input + InputSum(events[1..])
  }

  function OutputSum(events: seq<Attempted>): nat {
    if events == [] then 0 else events[0].output + OutputSum(events[1..])
  }

  /** Why a pruned route may not be used now; None if it may. */
  function WhyNot(r: Route, estimatedInput: int, estimatedOutput: int): Option<Reason> {
    var p := r.policy;
    if r.cooldownUntil.Some? then Some(RateLimited(r.cooldownUntil.value))
    else if p.maxRequests.Some? && |r.events| + 1 > p.maxRequests.value then Some(RequestQuota)
    else if p.maxInput.Some? && InputSum(r.events) + estimatedInput > p.maxInput.value then Some(InputQuota)
    else if p.maxOutput.Some? && OutputSum(r.events) + estimatedOutput > p.maxOutput.value then Some(OutputQuota)
    else None
  }

  function Recorded(r: Route, now: int): Route {
    r.(events := r.events + [Attempted(now, 0, 0)])
  }

  function Positive(n: int): nat {
    if n > 0 then n else 0
  }

  function Charged(r: Route, input: int, output: int, now: int): Route {
    var s := if r.events == [] then Recorded(r, now) else r;
    var last := s.events[|s.events| - 1];
    var charged := last.(input := last.input + Positive(input), output := last.output + Positive(output));
    s.(events := s.events[|s.events| - 1 := charged])
  }

  /** retry_after_seconds or the default: zero counts as not given. */
  function Limited(r: Route, retryAfter: Option<int>, now: int): Route {
    var pause := if retryAfter.Some? && retryAfter.value != 0 then retryAfter.value else r.policy.cooldown;
    r.(cooldownUntil := Some(now + pause))
  }

  // ---- What a check answers, from what was recorded and charged ----

  ghost predicate InOrder(events: seq<Attempted>) {
    forall i, j | 0 <= i <= j < |events| :: events[i].at <= events[j].at
  }

  /** How many attempts came after a point in time, and what they were charged. */
  ghost function CountAfter(events: seq<Attempted>, cutoff: int): nat {
    if events == [] then 0
    else CountAfter(events[..|events| - 1], cutoff) + if events[|events| - 1].at > cutoff then 1 else 0
  }

  ghost function InputAfter(events: seq<Attempted>, cutoff: int): nat {
    if events == [] then 0
    else
      var last := events[|events| - 1];
      InputAfter(events[..|events| - 1], cutoff) + if last.at > cutoff then last.input else 0
  }

  ghost function OutputAfter(events: seq<Attempted>, cutoff: int): nat {
    if events == [] then 0
    else
      var last := events[|events| - 1];
      OutputAfter(events[..|events| - 1], cutoff) + if last.at > cutoff then last.output else 0
  }

  lemma {:induction false} SumsAppend(events: seq<Attempted>, e: Attempted)
    ensures InputSum(events + [e]) == InputSum(events) + e.input
    ensures OutputSum(events + [e]) == OutputSum(events) + e.output
    decreases |events|
  {
    if events == [] {
      assert events + [e] == [e] && [e][1..] == [];
    } else {
      assert (events + [e])[1..] == events[1..] + [e];
      SumsAppend(events[1..], e);
    }
  }

  /** What comes after a cut that splits the events in two is the second part. */
  lemma {:induction false} AfterCut(events: seq<Attempted>, k: nat, cutoff: int)
    requires k <= |events|
    requires (forall i | 0 <= i < k :: events[i].at <= cutoff) && forall i | k <= i < |events| :: events[i].at > cutoff
    ensures CountAfter(events, cutoff) == |events| - k
    ensures InputAfter(events, cutoff) == InputSum(events[k..]) && OutputAfter(events, cutoff) == OutputSum(events[k..])
    decreases |events|
  {
    if events != [] {
      var n := |events| - 1;
      if k <= n {
        AfterCut(events[..n], k, cutoff);
        assert events[..n][k..] + [events[n]] == events[k..];
        SumsAppend(events[..n][k..], events[n]);
      } else {
        AfterCut(events[..n], n, cutoff);
      }
    }
  }

  lemma {:induction false} DropUpToSuffix(events: seq<Attempted>, cutoff: int) returns (k: nat)
    ensures k <= |events| && DropUpTo(events, cutoff) == events[k..]
    ensures forall i | 0 <= i < k :: events[i].at <= cutoff
    ensures k < |events| ==> events[k].at > cutoff
  {
    if events != [] && events[0].at <= cutoff {
      var n := DropUpToSuffix(events[1..], cutoff);
      k := n + 1;
      assert events[1..][n..] == events[k..];
      forall i | 0 <= i < k ensures events[i].at <= cutoff { if i > 0 { assert events[i] == events[1..][i - 1]; } }
    } else {
      k := 0;
    }
  }

  /** A check refuses a route for its cooldown exactly until that ends; otherwise for the first of its limits
      that one more attempt, with the tokens estimated, would break within the window that ends now. */
  lemma ReasonIsExact(r: Route, i: int, o: int, now: int)
    requires InOrder(r.events)
    ensures var why, p, cutoff := WhyNot(Pruned(r, now), i, o), r.policy, now - r.policy.window;
      var cooling := r.cooldownUntil.Some? && now < r.cooldownUntil.value;
      var requestsLeft := p.maxRequests.Some? ==> CountAfter(r.events, cutoff) < p.maxRequests.value;
      var inputLeft := p.maxInput.Some? ==> InputAfter(r.events, cutoff) + i <= p.maxInput.value;
      var outputLeft := p.maxOutput.Some? ==> OutputAfter(r.events, cutoff) + o <= p.maxOutput.value;
      && (cooling <==> why.Some? && why.value.RateLimited?)
      && (cooling ==> why == Some(RateLimited(r.cooldownUntil.value)))
      && (why == Some(RequestQuota) <==> !cooling && !requestsLeft)
      && (why == Some(InputQuota) <==> !cooling && requestsLeft && !inputLeft)
      && (why == Some(OutputQuota) <==> !cooling && requestsLeft && inputLeft && !outputLeft)
      && (why == None <==> !cooling && requestsLeft && inputLeft && outputLeft)
  {
    var cutoff := now - r.policy.window;
    var k := DropUpToSuffix(r.events, cutoff);
    AfterCut(r.events, k, cutoff);
  }

  /** Usage is charged once, to the latest attempt, and in full; a negative count is charged as nothing. */
  lemma ChargingAddsUp(r: Route, input: int, output: int, now: int)
    ensures var c := Charged(r, input, output, now);
      && InputSum(c.events) == InputSum(r.events) + (if input > 0 then input else 0)
      && OutputSum(c.events) == OutputSum(r.events) + (if output > 0 then output else 0)
      && |c.events| == (if r.events == [] then 1 else |r.events|)
      && (forall j | 0 <= j < |c.events| :: c.events[j].at == if r.events == [] then now else r.events[j].at)
      && (forall j | 0 <= j < |c.events| - 1 :: c.events[j] == r.events[j])
      && c.policy == r.policy && c.cooldownUntil == r.cooldownUntil
  {
    var s := if r.events == [] then Recorded(r, now) else r;
    var n := |s.events| - 1;
    var c := Charged(r, input, output, now);
    assert s.events == s.events[..n] + [s.events[n]] && c.events == s.events[..n] + [c.events[n]];
    SumsAppend(s.events[..n], s.events[n]);
    SumsAppend(s.events[..n], c.events[n]);
    if r.events == [] {
      SumsAppend([], s.events[n]);
    }
  }

  // ---- One configured route over time ----

  datatype Op =
    | Check(estimatedInput: int, estimatedOutput: int)
    | Attempt
    | Usage(input: int, output: int)
    | MarkLimited(retryAfter: Option<int>)
    | Configure(policy: Policy)

  datatype Timed = Timed(op: Op, now: int)

  /** A route together with what the registry itself forgets: the times of all attempts ever recorded,
      and whether a check has passed since the latest of them. */
  datatype Watched = Watched(route: Route, history: seq<int>, cleared: bool)

  function Apply(w: Watched, e: Timed): Watched {
    match e.op
    case Check(i, o) =>
      var r := Pruned(w.route, e.now);
      Watched(r, w.history, w.cleared || WhyNot(r, i, o) == None)
    case Attempt => Watched(Recorded(w.route, e.now), w.history + [e.now], false)
    case Usage(i, o) =>
      if w.route.events == [] then Watched(Charged(w.route, i, o, e.now), w.history + [e.now], false)
      else w.(route := Charged(w.route, i, o, e.now))
    case MarkLimited(retryAfter) => w.(route := Limited(w.route, retryAfter, e.now))
    case Configure(policy) => w.(route := Route(policy, [], None))
  }

  function Run(w: Watched, trace: seq<Timed>): Watched
    decreases |trace|
  {
    if trace == [] then w else Run(Apply(w, trace[0]), trace[1..])
  }

  /** How many attempts of the complete history lie in (t - window, t]. */
  ghost function InWindow(h: seq<int>, t: int, window: nat): nat {
    if h == [] then 0
    else InWindow(h[..|h| - 1], t, window) + if t - window < h[|h| - 1] <= t then 1 else 0
  }

  /** Reconfiguring a route with the policy that it has, when no attempt lies in the window that ends now. */
  ghost predicate Harmless(w: Watched, policy: Policy, now: int) {
    policy == w.route.policy && InWindow(w.history, now, policy.window) == 0
  }

  /** Every attempt follows a check that found nothing against it, with no attempt in between, the clock
      does not go back, and the route is reconfigured harmlessly only. */
  ghost predicate Disciplined(w: Watched, clock: int, trace: seq<Timed>)
    decreases |trace|
  {
    trace == [] ||
    (var e := trace[0];
     && clock <= e.now && (e.op == Attempt ==> w.cleared) && (e.op.Configure? ==> Harmless(w, e.op.policy, e.now))
     && Disciplined(Apply(w, e), e.now, trace[1..]))
  }

  // ---- At most max_requests attempts in any window ----

  ghost predicate Sorted(h: seq<int>) {
    forall i, j | 0 <= i <= j < |h| :: h[i] <= h[j]
  }

  /** Any m + 1 attempts in a row span at least a window. */
  ghost predicate Spaced(h: seq<int>, m: nat, window: nat) {
    forall i | 0 <= i && i + m < |h| :: h[i] <= h[i + m] - window
  }

  ghost function UpTo(h: seq<int>, x: int): nat {
    if h == [] then 0 else UpTo(h[..|h| - 1], x) + if h[|h| - 1] <= x then 1 else 0
  }

  lemma {:induction false} UpToSplits(h: seq<int>, x: int)
    requires Sorted(h)
    ensures UpTo(h, x) <= |h|
    ensures forall i | 0 <= i < |h| :: i < UpTo(h, x) <==> h[i] <= x
  {
    if h != [] {
      UpToSplits(h[..|h| - 1], x);
    }
  }

  lemma UpToIs(h: seq<int>, x: int, n: nat)
    requires Sorted(h) && n <= |h|
    requires n > 0 ==> h[n - 1] <= x
    requires n < |h| ==> h[n] > x
    ensures UpTo(h, x) == n
  {
    UpToSplits(h, x);
  }

  lemma {:induction false} InWindowIsDifference(h: seq<int>, t: int, window: nat)
    ensures InWindow(h, t, window) == UpTo(h, t) - UpTo(h, t - window)
  {
    if h != [] {
      InWindowIsDifference(h[..|h| - 1], t, window);
    }
  }

  /** Spacing bounds every window, wherever it ends. */
  lemma SpacingBoundsWindows(h: seq<int>, m: nat, window: nat, t: int)
    requires Sorted(h) && Spaced(h, m, window)
    ensures InWindow(h, t, window) <= m
  {
    InWindowIsDifference(h, t, window);
    UpToSplits(h, t);
    UpToSplits(h, t - window);
    var i := UpTo(h, t - window);
    assert i + m < |h| ==> h[i] <= h[i + m] - window;
  }

  // ---- What the registry remembers is enough ----

  /** The stored events are the latest attempts of the history; whatever was dropped is out of the window
      that ends now. */
  ghost predicate Remembers(w: Watched, clock: int) {
    var events, h := w.route.events, w.history;
    && Sorted(h) && (forall i | 0 <= i < |h| :: h[i] <= clock) && |events| <= |h|
    && (forall i | 0 <= i < |events| :: events[i].at == h[|h| - |events| + i])
    && (forall i | 0 <= i < |h| - |events| :: h[i] <= clock - w.route.policy.window)
  }

  /** A passed check leaves room for one more attempt. */
  ghost predicate HasRoom(w: Watched, clock: int, m: nat) {
    m >= 1 && (w.cleared ==> |w.history| < m || w.history[|w.history| - m] <= clock - w.route.policy.window)
  }

  /** Where pruning cuts the complete history. */
  lemma PruningCuts(w: Watched, clock: int, now: int) returns (gone: nat)
    requires Remembers(w, clock) && clock <= now
    ensures var events, h, cutoff := Pruned(w.route, now).events, w.history, now - w.route.policy.window;
            && gone <= |h| && |events| == |h| - gone
            && (forall i | 0 <= i < |events| :: events[i].at == h[gone + i])
            && (forall i | 0 <= i < gone :: h[i] <= cutoff) && (gone < |h| ==> h[gone] > cutoff)
  {
    var events, h, cutoff := w.route.events, w.history, now - w.route.policy.window;
    var k := DropUpToSuffix(events, cutoff);
    gone := |h| - |events| + k;
    forall i | 0 <= i < gone
      ensures h[i] <= cutoff
    {
      if i >= |h| - |events| {
        assert events[i - (|h| - |events|)].at == h[i];
      }
    }
    if k < |events| {
      assert events[k].at == h[gone];
    }
  }

  lemma PruningRemembers(w: Watched, clock: int, now: int)
    requires Remembers(w, clock) && clock <= now
    ensures Remembers(w.(route := Pruned(w.route, now)), now)
    ensures |Pruned(w.route, now).events| == InWindow(w.history, now, w.route.policy.window)
  {
    var h := w.history;
    var gone := PruningCuts(w, clock, now);
    InWindowIsDifference(h, now, w.route.policy.window);
    UpToIs(h, now - w.route.policy.window, gone);
    UpToIs(h, now, |h|);
  }

  ghost predicate NotGoingBack(trace: seq<Timed>, clock: int)
    decreases |trace|
  {
    trace == [] || (clock <= trace[0].now && NotGoingBack(trace[1..], trace[0].now))
  }

  ghost predicate Undisturbed(trace: seq<Timed>) {
    forall e | e in trace :: !e.op.MarkLimited? && !e.op.Configure?
  }

  ghost function EndOfTrace(trace: seq<Timed>, clock: int): int {
    if trace == [] then clock else trace[|trace| - 1].now
  }

  lemma {:induction false} CooldownStays(w: Watched, trace: seq<Timed>, clock: int, end: int)
    requires NotGoingBack(trace, clock) && Undisturbed(trace)
    requires w.route.cooldownUntil == Some(end) || (w.route.cooldownUntil == None && end <= clock)
    ensures var r := Run(w, trace).route;
      r.cooldownUntil == Some(end) || (r.cooldownUntil == None && end <= EndOfTrace(trace, clock))
    decreases |trace|
  {
    if trace != [] {
      CooldownStays(Apply(w, trace[0]), trace[1..], trace[0].now, end);
    }
  }

  /** Whatever is checked, attempted and charged meanwhile, a route marked as rate limited at now is refused for
      that reason at t exactly if t is before the end of the pause: the pause asked for unless that is zero, and
      otherwise the policy's own. */
  lemma CooldownEndsOnTime(w: Watched, retryAfter: Option<int>, now: int, trace: seq<Timed>, t: int, i: int, o: int)
    requires NotGoingBack(trace, now) && Undisturbed(trace) && EndOfTrace(trace, now) <= t
    ensures var end := now +
                       if retryAfter.Some? && retryAfter.value != 0 then retryAfter.value else w.route.policy.cooldown;
      var why := WhyNot(Pruned(Run(Apply(w, Timed(MarkLimited(retryAfter), now)), trace).route, t), i, o);
      && (t < end ==> why == Some(RateLimited(end)))
      && (t >= end ==> why.None? || !why.value.RateLimited?)
  {
    var pause := if retryAfter.Some? && retryAfter.value != 0 then retryAfter.value else w.route.policy.cooldown;
    CooldownStays(Apply(w, Timed(MarkLimited(retryAfter), now)), trace, now, now + pause);
  }

  /** Pruning loses nothing: a check that finds a route neither cooling down nor short of tokens refuses
      it exactly when the complete history holds max_requests attempts in the window. */
  lemma CheckIsExact(w: Watched, clock: int, now: int, i: int, o: int)
    requires Remembers(w, clock) && clock <= now && ValidPolicy(w.route.policy) && w.route.policy.maxRequests.Some?
    requires w.route.cooldownUntil == None
    ensures WhyNot(Pruned(w.route, now), i, o) == Some(RequestQuota) <==>
            InWindow(w.history, now, w.route.policy.window) >= w.route.policy.maxRequests.value
  {
    PruningRemembers(w, clock, now);
  }

  ghost predicate Bounded(w: Watched, clock: int, m: nat) {
    && ValidPolicy(w.route.policy) && w.route.policy.maxRequests == Some(m)
    && Remembers(w, clock) && HasRoom(w, clock, m) && Spaced(w.history, m, w.route.policy.window)
  }

  lemma RecordingRemembers(w: Watched, clock: int, now: int, route: Route)
    requires Remembers(w, clock) && clock <= now && route.policy == w.route.policy
    requires |route.events| == |w.route.events| + 1
    requires forall i | 0 <= i < |w.route.events| :: route.events[i].at == w.route.events[i].at
    requires route.events[|route.events| - 1].at == now
    ensures Remembers(Watched(route, w.history + [now], false), now)
  {
  }

  lemma CheckStaysBounded(w: Watched, i: int, o: int, clock: int, now: int, m: nat)
    requires Bounded(w, clock, m) && clock <= now
    ensures Bounded(Apply(w, Timed(Check(i, o), now)), now, m)
  {
    var window, h := w.route.policy.window, w.history;
    PruningRemembers(w, clock, now);
    InWindowIsDifference(h, now, window);
    UpToSplits(h, now - window);
    UpToSplits(h, now);
  }

  lemma SpacingExtends(h: seq<int>, m: nat, window: nat, now: int)
    requires Spaced(h, m, window) && m >= 1
    requires |h| < m || h[|h| - m] <= now - window
    ensures Spaced(h + [now], m, window)
  {
  }

  lemma AttemptStaysBounded(w: Watched, clock: int, now: int, m: nat)
    requires Bounded(w, clock, m) && clock <= now && w.cleared
    ensures Bounded(Apply(w, Timed(Attempt, now)), now, m)
  {
    RecordingRemembers(w, clock, now, Recorded(w.route, now));
    SpacingExtends(w.history, m, w.route.policy.window, now);
  }

  lemma ChargingRemembers(w: Watched, i: int, o: int, clock: int, now: int)
    requires Remembers(w, clock) && clock <= now && w.route.events != []
    ensures Remembers(w.(route := Charged(w.route, i, o, now)), now)
  {
  }

  /** Usage reported for a forgotten attempt counts as one; then the window was empty anyway. */
  lemma UsageStaysBounded(w: Watched, i: int, o: int, clock: int, now: int, m: nat)
    requires Bounded(w, clock, m) && clock <= now
    ensures Bounded(Apply(w, Timed(Usage(i, o), now)), now, m)
  {
    if w.route.events == [] {
      RecordingRemembers(w, clock, now, Charged(w.route, i, o, now));
      SpacingExtends(w.history, m, w.route.policy.window, now);
    } else {
      ChargingRemembers(w, i, o, clock, now);
    }
  }

  lemma AllBeforeWindow(h: seq<int>, now: int, window: nat)
    requires Sorted(h) && forall i | 0 <= i < |h| :: h[i] <= now
    ensures InWindow(h, now, window) == 0 <==> forall i | 0 <= i < |h| :: h[i] <= now - window
  {
    InWindowIsDifference(h, now, window);
    UpToSplits(h, now);
    UpToSplits(h, now - window);
  }

  lemma StepStaysBounded(w: Watched, e: Timed, clock: int, m: nat)
    requires Bounded(w, clock, m) && clock <= e.now && (e.op == Attempt ==> w.cleared)
    requires e.op.Configure? ==> Harmless(w, e.op.policy, e.now)
    ensures Bounded(Apply(w, e), e.now, m)
  {
    match e.op
    case Check(i, o) => CheckStaysBounded(w, i, o, clock, e.now, m);
    case Attempt => AttemptStaysBounded(w, clock, e.now, m);
    case Usage(i, o) => UsageStaysBounded(w, i, o, clock, e.now, m);
    case MarkLimited(retryAfter) =>
    case Configure(policy) => AllBeforeWindow(w.history, e.now, policy.window);
  }

  lemma {:induction false} RunStaysBounded(w: Watched, trace: seq<Timed>, clock: int, m: nat) returns (end: int)
    requires Bounded(w, clock, m) && Disciplined(w, clock, trace)
    ensures Bounded(Run(w, trace), end, m)
    decreases |trace|
  {
    end := clock;
    if trace != [] {
      StepStaysBounded(w, trace[0], clock, m);
      end := RunStaysBounded(Apply(w, trace[0]), trace[1..], trace[0].now, m);
    }
  }

  lemma {:induction false} PolicyStays(w: Watched, trace: seq<Timed>, clock: int)
    requires Disciplined(w, clock, trace)
    ensures Run(w, trace).route.policy == w.route.policy
    decreases |trace|
  {
    if trace != [] {
      PolicyStays(Apply(w, trace[0]), trace[1..], trace[0].now);
    }
  }

  /** The quota holds over the complete history, for every window, although the registry forgets. */
  lemma EveryWindowIsBounded(policy: Policy, trace: seq<Timed>, clock: int, m: nat, t: int)
    requires ValidPolicy(policy) && policy.maxRequests == Some(m)
    requires Disciplined(Watched(Route(policy, [], None), [], false), clock, trace)
    ensures InWindow(Run(Watched(Route(policy, [], None), [], false), trace).history, t, policy.window) <= m
    ensures Run(Watched(Route(policy, [], None), [], false), trace).route.policy == policy
  {
    var w := Watched(Route(policy, [], None), [], false);
    var end := RunStaysBounded(w, trace, clock, m);
    PolicyStays(w, trace, clock);
    SpacingBoundsWindows(Run(w, trace).history, m, policy.window, t);
  }

  // ---- Reconfiguring a route forgets its attempts ----

  /** count checked attempts, all at once. */
  ghost function Burst(count: nat, now: int): seq<Timed> {
    if count == 0 then [] else [Timed(Check(0, 0), now), Timed(Attempt, now)] + Burst(count - 1, now)
  }

  ghost function Fresh(count: nat, now: int): seq<Attempted> {
    if count == 0 then [] else Fresh(count - 1, now) + [Attempted(now, 0, 0)]
  }

  lemma {:induction false} NothingSums(events: seq<Attempted>)
    requires forall e | e in events :: e.input == e.output == 0
    ensures InputSum(events) == 0 && OutputSum(events) == 0
    decreases |events|
  {
    if events != [] {
      assert events[0] in events && forall e | e in events[1..] :: e in events;
      NothingSums(events[1..]);
    }
  }

  lemma {:induction false} FreshCostsNothing(count: nat, now: int)
    ensures |Fresh(count, now)| == count && forall e | e in Fresh(count, now) :: e == Attempted(now, 0, 0)
    ensures InputSum(Fresh(count, now)) == 0 && OutputSum(Fresh(count, now)) == 0
  {
    if count > 0 {
      FreshCostsNothing(count - 1, now);
    }
    NothingSums(Fresh(count, now));
  }

  lemma CheckedAttempt(w: Watched, now: int, m: nat, taken: nat)
    requires ValidPolicy(w.route.policy) && w.route.policy.maxRequests == Some(m) && taken < m
    requires w.route == Route(w.route.policy, Fresh(taken, now), None)
    ensures var w1 := Apply(w, Timed(Check(0, 0), now));
            w1.cleared && Apply(w1, Timed(Attempt, now)) ==
                          Watched(Route(w.route.policy, Fresh(taken + 1, now), None), w.history + [now], false)
  {
    FreshCostsNothing(taken, now);
    assert taken > 0 ==> Fresh(taken, now)[0] in Fresh(taken, now);
    assert Pruned(w.route, now) == w.route;
  }

  lemma CheckedTwo(w: Watched, clock: int, first: Timed, second: Timed, rest: seq<Timed>)
    requires first.op.Check? && second.op == Attempt && clock <= first.now <= second.now && Apply(w, first).cleared
    requires Disciplined(Apply(Apply(w, first), second), second.now, rest)
    ensures Disciplined(w, clock, [first, second] + rest)
    ensures Run(w, [first, second] + rest) == Run(Apply(Apply(w, first), second), rest)
  {
    var trace := [first, second] + rest;
    assert trace[1..] == [second] + rest && trace[1..][1..] == rest;
  }

  /** A route that has taken some attempts since it was configured takes count more, all checked, as long as
      its limit allows. */
  lemma {:induction false} BurstIsChecked(w: Watched, now: int, m: nat, taken: nat, count: nat)
    requires ValidPolicy(w.route.policy) && w.route.policy.maxRequests == Some(m) && taken + count <= m
    requires w.route == Route(w.route.policy, Fresh(taken, now), None)
    ensures Disciplined(w, now, Burst(count, now))
    ensures InWindow(Run(w, Burst(count, now)).history, now, w.route.policy.window) ==
            InWindow(w.history, now, w.route.policy.window) + count
    decreases count
  {
    if count > 0 {
      var next := Watched(Route(w.route.policy, Fresh(taken + 1, now), None), w.history + [now], false);
      CheckedAttempt(w, now, m, taken);
      BurstIsChecked(next, now, m, taken + 1, count - 1);
      CheckedTwo(w, now, Timed(Check(0, 0), now), Timed(Attempt, now), Burst(count - 1, now));
      assert next.history[..|w.history|] == w.history;
    }
  }

  ghost function Reconfigured(w: Watched, now: int): Watched {
    Apply(w, Timed(Configure(w.route.policy), now))
  }

  /** Exactly when a route within its quota may be configured again with its policy: when no attempt lies in
      the window that ends then. Otherwise checked attempts can overrun the quota at once. */
  lemma ReconfiguringKeepsQuotaIff(w: Watched, clock: int, now: int, m: nat)
    requires Bounded(w, clock, m) && clock <= now
    ensures (forall trace, t | Disciplined(Reconfigured(w, now), now, trace) ::
              InWindow(Run(Reconfigured(w, now), trace).history, t, w.route.policy.window) <= m)
            <==> InWindow(w.history, now, w.route.policy.window) == 0
  {
    var window, v := w.route.policy.window, Reconfigured(w, now);
    if InWindow(w.history, now, window) == 0 {
      StepStaysBounded(w, Timed(Configure(w.route.policy), now), clock, m);
      forall trace, t | Disciplined(v, now, trace)
        ensures InWindow(Run(v, trace).history, t, window) <= m
      {
        var end := RunStaysBounded(v, trace, now, m);
        PolicyStays(v, trace, now);
        SpacingBoundsWindows(Run(v, trace).history, m, window, t);
      }
    } else {
      BurstIsChecked(v, now, m, 0, m);
      assert Disciplined(v, now, Burst(m, now)) && InWindow(Run(v, Burst(m, now)).history, now, window) > m;
    }
  }

  lemma {:induction false} InWindowConcat(a: seq<int>, b: seq<int>, t: int, window: nat)
    ensures InWindow(a + b, t, window) == InWindow(a, t, window) + InWindow(b, t, window)
    decreases |b|
  {
    if b == [] {
      assert a + b == a;
    } else {
      assert (a + b)[..|a + b| - 1] == a + b[..|b| - 1];
      InWindowConcat(a, b[..|b| - 1], t, window);
    }
  }

  /** The registry never looks at what happened before old ended: the same trace runs without it. */
  lemma {:induction false} HistoryIsForgotten(w: Watched, v: Watched, past: seq<int>, clock: int, trace: seq<Timed>)
    requires Disciplined(w, clock, trace) && w == v.(history := past + v.history)
    ensures Disciplined(v, clock, trace)
    ensures Run(w, trace).history == past + Run(v, trace).history && Run(w, trace).route == Run(v, trace).route
    decreases |trace|
  {
    if trace != [] {
      var e := trace[0];
      InWindowConcat(past, v.history, e.now, v.route.policy.window);
      assert past + (v.history + [e.now]) == w.history + [e.now];
      HistoryIsForgotten(Apply(w, e), Apply(v, e), past, e.now, trace[1..]);
    }
  }

  /** A route may be given any policy when no attempt lies in that policy's window: from then on every
      window of the complete history holds at most what the new policy allows. */
  lemma NewPolicyIsKept(w: Watched, now: int, policy: Policy, m: nat, trace: seq<Timed>, t: int)
    requires Sorted(w.history) && (forall i | 0 <= i < |w.history| :: w.history[i] <= now)
    requires ValidPolicy(policy) && policy.maxRequests == Some(m) && InWindow(w.history, now, policy.window) == 0
    requires Disciplined(Apply(w, Timed(Configure(policy), now)), now, trace) && now <= t
    ensures InWindow(Run(Apply(w, Timed(Configure(policy), now)), trace).history, t, policy.window) <= m
  {
    var configured := Apply(w, Timed(Configure(policy), now));
    var v := configured.(history := []);
    assert w.history + [] == w.history;
    HistoryIsForgotten(configured, v, w.history, now, trace);
    var end := RunStaysBounded(v, trace, now, m);
    PolicyStays(v, trace, now);
    SpacingBoundsWindows(Run(v, trace).history, m, policy.window, t);
    InWindowConcat(w.history, Run(v, trace).history, t, policy.window);
    AllBeforeWindow(w.history, now, policy.window);
    AllBeforeWindow(w.history, t, policy.window);
  }

  /** It does happen: configured twice with a limit of one, a route takes two checked attempts within the
      same second. */
  lemma ReconfiguringForgets()
    ensures var p := Policy(60, Some(1), None, None, 60);
      var trace := [Timed(Check(0, 0), 0), Timed(Attempt, 0), Timed(Configure(p), 0), Timed(Check(0, 0), 0),
                    Timed(Attempt, 0)];
      InWindow(Run(Watched(Route(p, [], None), [], false), trace).history, 0, 60) == 2
  {
    var p := Policy(60, Some(1), None, None, 60);
    var trace := [Timed(Check(0, 0), 0), Timed(Attempt, 0), Timed(Configure(p), 0), Timed(Check(0, 0), 0),
                  Timed(Attempt, 0)];
    var w := Watched(Route(p, [], None), [], false);
    var w1 := Apply(w, trace[0]);
    var w2 := Apply(w1, trace[1]);
    var w3 := Apply(w2, trace[2]);
    var w4 := Apply(w3, trace[3]);
    var w5 := Apply(w4, trace[4]);
    assert Run(w, trace) == Run(w1, trace[1..]) == Run(w2, trace[1..][1..]) == Run(w3, trace[1..][1..][1..]);
    assert Run(w3, trace[1..][1..][1..]) == Run(w4, trace[1..][1..][1..][1..]) ==
           Run(w5, trace[1..][1..][1..][1..][1..]) == w5;
    assert w5.history == [0] + [0];
    assert w5.history[..1] == [0] && [0][..0] == [];
    assert InWindow([0], 0, 60) == 1;
  }

  // ---- The registry ----

  class RouteQuotaRegistry {
    var routes: map<string, Route>

    constructor ()
      ensures routes == map[]
    {
      routes := map[];
    }

    method ConfigureRoute(id: string, policy: Policy)
      modifies this
      ensures routes == old(routes)[id := Route(policy, [], None)]
    {
      routes := routes[id := Route(policy, [], None)];
    }

    method Prune(r: Route, now: int) returns (p: Route)
      ensures p == Pruned(r, now)
    {
      var events := r.events;
      while events != [] && events[0].at <= now - r.policy.window
        invariant DropUpTo(events, now - r.policy.window) == DropUpTo(r.events, now - r.policy.window)
      {
        events := events[1..];
      }
      p := Route(r.policy, events,
                 if r.cooldownUntil.Some? && now >= r.cooldownUntil.value then None else r.cooldownUntil);
    }

    method EligibilityReason(id: string, estimatedInput: int, estimatedOutput: int, now: int)
      returns (why: Option<Reason>)
      modifies this
      ensures id !in old(routes) ==> why == None && routes == old(routes)
      ensures id in old(routes) ==> routes == old(routes)[id := Pruned(old(routes)[id], now)]
      ensures id in old(routes) ==> why == WhyNot(routes[id], estimatedInput, estimatedOutput)
    {
      if id !in routes {
        return None;
      }
      var r := Prune(routes[id], now);
      routes := routes[id := r];
      if r.cooldownUntil.Some? {
        return Some(RateLimited(r.cooldownUntil.value));
      }
      if r.policy.maxRequests.Some? && |r.events| + 1 > r.policy.maxRequests.value {
        return Some(RequestQuota);
      }
      if r.policy.maxInput.Some? && InputSum(r.events) + estimatedInput > r.policy.maxInput.value {
        return Some(InputQuota);
      }
      if r.policy.maxOutput.Some? && OutputSum(r.events) + estimatedOutput > r.policy.maxOutput.value {
        return Some(OutputQuota);
      }
      return None;
    }

    method RecordAttempt(id: string, now: int)
      modifies this
      ensures routes == if id in old(routes) then old(routes)[id := Recorded(old(routes)[id], now)] else old(routes)
      ensures id in old(routes) ==> routes[id].events == old(routes)[id].events + [Attempted(now, 0, 0)]
    {
      if id in routes {
        routes := routes[id := routes[id].(events := routes[id].events + [Attempted(now, 0, 0)])];
      }
    }

    method RecordUsage(id: string, input: int, output: int, now: int)
      modifies this
      ensures routes ==
              if id in old(routes) then old(routes)[id := Charged(old(routes)[id], input, output, now)] else old(routes)
    {
      if id !in routes {
        return;
      }
      if routes[id].events == [] {
        RecordAttempt(id, now);
      }
      var r := routes[id];
      var n := |r.events| - 1;
      var event := r.events[n];
      event := event.(input := event.input + Positive(input), output := event.output + Positive(output));
      routes := routes[id := r.(events := r.events[n := event])];
    }

    method MarkRateLimited(id: string, retryAfter: Option<int>, now: int)
      modifies this
      ensures var r := if id in old(routes) then old(routes)[id] else Route(DEFAULT_POLICY, [], None);
        routes == old(routes)[id := Limited(r, retryAfter, now)]
      ensures id !in old(routes) ==> routes[id].policy == Policy(60, None, None, None, 60) && routes[id].events == []
    {
      if id !in routes {
        routes := routes[id := Route(DEFAULT_POLICY, [], None)];
      }
      routes := routes[id := Limited(routes[id], retryAfter, now)];
    }
  }
}
