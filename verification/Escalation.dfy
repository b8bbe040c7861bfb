/** Escalation over a graph of stages (intelligence/escalation.py). The router, the model transports and
    the assessor are functions of the moment they are asked, so they may answer differently each time. */
module Escalation {
  import opened Wrappers

  datatype Outcome = Accepted | QualityRejected | TransportFailed | NoRoute

  datatype Task = Task(allowedTransports: Option<set<string>>, maxInputCost: Option<real>, maxOutputCost: Option<real>)

  datatype Stage = Stage(
    stageId: string, maxCandidates: nat, allowedTransports: Option<set<string>>, maxInputCost: Option<real>,
    maxOutputCost: Option<real>, minimumTotalScore: real, distinctModels: bool)

  datatype Transition = Transition(fromStage: string, outcomes: set<Outcome>, toStage: string)

  datatype Graph = Graph(entryStage: string, stages: map<string, Stage>, transitions: seq<Transition>,
                         maxStageHops: nat)

  datatype Candidate = Candidate(routeId: string, modelKey: string, totalScore: real)

  datatype Decision = Decision(selected: Candidate, alternatives: seq<Candidate>)

  /** How one attempt goes: the transport fails, or answers, or something raises any other error, be it the
      transport or the assessor of its answer. */
  datatype Reply = Failed | Answered(result: string) | Raised(error: string)

  datatype World = World(
    select: (nat, Task) -> Option<Decision>,     // at a stage visit; None: the router raised
    invoke: (nat, Candidate, Task) -> Reply,     // at an attempt
    accepts: (nat, Task, string) -> bool)        // the assessor, of the result of an attempt

  /** What one call of invoke is given. */
  datatype Call = Call(world: World, graph: Graph, task: Task, maxAttempts: int, neverRepeatModel: bool)

  /** What the graph's validator accepts. */
  predicate ValidGraph(g: Graph) {
    && g.entryStage in g.stages
    && (forall id | id in g.stages :: g.stages[id].stageId == id && g.stages[id].maxCandidates >= 1)
    && (forall t | t in g.transitions :: t.fromStage in g.stages && t.toStage in g.stages)
    && g.maxStageHops >= 1
  }

  // ---- Narrowing ----

  function Narrower(a: Option<real>, b: Option<real>): Option<real> {
    if b == None then a else if a == None then b else if b.value < a.value then b else a
  }

  function StageTask(task: Task, stage: Stage): Task {
    var allowed :=
      if stage.allowedTransports == None then task.allowedTransports
      else if task.allowedTransports == None then stage.allowedTransports
      else Some(task.allowedTransports.value * stage.allowedTransports.value);
    Task(allowed, Narrower(task.maxInputCost, stage.maxInputCost), Narrower(task.maxOutputCost, stage.maxOutputCost))
  }

  predicate Within(limit: Option<real>, cost: real) {
    limit == None || cost <= limit.value
  }

  predicate Permits(transports: Option<set<string>>, input: Option<real>, output: Option<real>, kind: string, i: real,
                    o: real) {
    (transports == None || kind in transports.value) && Within(input, i) && Within(output, o)
  }

  /** A stage's task permits exactly what the task and the stage both permit. */
  lemma StageTaskIsConjunction(task: Task, stage: Stage, kind: string, input: real, output: real)
    ensures var t := StageTask(task, stage);
            Permits(t.allowedTransports, t.maxInputCost, t.maxOutputCost, kind, input, output)
            <==> && Permits(task.allowedTransports, task.maxInputCost, task.maxOutputCost, kind, input, output)
                 && Permits(stage.allowedTransports, stage.maxInputCost, stage.maxOutputCost, kind, input, output)
  {
    assert forall a, b: Option<real>, x | Within(Narrower(a, b), x) :: Within(a, x) && Within(b, x);
  }

  // ---- The walk ----

  predicate Matches(t: Transition, current: string, outcome: Outcome) {
    t.fromStage == current && outcome in t.outcomes
  }

  function FirstMatch(ts: seq<Transition>, current: string, outcome: Outcome): Option<string> {
    if ts == [] then None
    else if Matches(ts[0], current, outcome) then Some(ts[0].toStage)
    else FirstMatch(ts[1..], current, outcome)
  }

  function NextStage(g: Graph, current: string, outcome: Outcome): Option<string> {
    FirstMatch(g.transitions, current, outcome)
  }

  lemma {:induction false} FirstMatchAt(ts: seq<Transition>, current: string, outcome: Outcome)
    ensures match FirstMatch(ts, current, outcome)
            case None => forall t | t in ts :: !Matches(t, current, outcome)
            case Some(s) =>
              exists i :: 0 <= i < |ts| && Matches(ts[i], current, outcome) && ts[i].toStage == s
                          && forall j | 0 <= j < i :: !Matches(ts[j], current, outcome)
  {
    if ts != [] && !Matches(ts[0], current, outcome) {
      var rest := ts[1..];
      FirstMatchAt(rest, current, outcome);
      if FirstMatch(rest, current, outcome).Some? {
        var i :| 0 <= i < |rest| && Matches(rest[i], current, outcome)
          && rest[i].toStage == FirstMatch(rest, current, outcome).value
          && forall j | 0 <= j < i :: !Matches(rest[j], current, outcome);
        assert ts[i + 1] == rest[i];
        assert forall j | 0 < j < i + 1 :: ts[j] == rest[j - 1];
      }
    }
  }

  /** A stage is left along the first transition of the graph that starts there and has the outcome. */
  lemma FirstMatchIsFirst(g: Graph, current: string, outcome: Outcome)
    ensures match NextStage(g, current, outcome)
            case None => forall t | t in g.transitions :: t.fromStage != current || outcome !in t.outcomes
            case Some(s) =>
              exists i :: 0 <= i < |g.transitions| && g.transitions[i].fromStage == current
                          && outcome in g.transitions[i].outcomes && g.transitions[i].toStage == s
                          && forall j | 0 <= j < i :: g.transitions[j].fromStage != current ||
                                                      outcome !in g.transitions[j].outcomes
  {
    FirstMatchAt(g.transitions, current, outcome);
    if NextStage(g, current, outcome).Some? {
      var ts := g.transitions;
      var next := NextStage(g, current, outcome).value;
      var i :| 0 <= i < |ts| && Matches(ts[i], current, outcome) && ts[i].toStage == next
        && forall j | 0 <= j < i :: !Matches(ts[j], current, outcome);
      assert forall j | 0 <= j < i :: !Matches(ts[j], current, outcome);
    }
  }

  /** An entry of the attempts list, with the stage visit it was made in. */
  datatype Attempt =
    | RouterFailed(visit: nat, stage: string)
    | Tried(visit: nat, stage: string, candidate: Candidate, outcome: Outcome)

  datatype Visit = Visit(stage: string, outcome: Outcome)

  /** visits: the stage visits completed so far; the source only counts them. */
  datatype State = State(visits: seq<Visit>, attempts: seq<Attempt>, seenRoutes: set<string>, seenModels: set<string>)

  datatype Verdict = Result(result: string) | Exhausted | Propagated(error: string) | UnknownStage(id: string)

  datatype StageEnd = Left(outcome: Outcome) | Stopped(verdict: Verdict)

  function Eligible(cs: seq<Candidate>, seen: set<string>, minimum: real): seq<Candidate> {
    if cs == [] then []
    else
      var first := if cs[0].routeId !in seen && cs[0].totalScore >= minimum then [cs[0]] else [];
      first + Eligible(cs[1..], seen, minimum)
  }

  function Slice(cs: seq<Candidate>, n: nat): seq<Candidate> {
    if n < |cs| then cs[..n] else cs
  }

  /** The candidates a stage visit goes through. */
  function Shortlist(d: Decision, stage: Stage, seen: set<string>): seq<Candidate> {
    Slice(Eligible([d.selected] + d.alternatives, seen, stage.minimumTotalScore), stage.maxCandidates)
  }

  predicate Skipped(p: Call, stage: Stage, c: Candidate, st: State, stageModels: set<string>) {
    || (p.neverRepeatModel && c.modelKey in st.seenModels)
    || (stage.distinctModels && c.modelKey in stageModels)
  }

  function Recorded(st: State, stage: Stage, c: Candidate, outcome: Outcome): State {
    State(st.visits, st.attempts + [Tried(|st.visits|, stage.stageId, c, outcome)],
          st.seenRoutes + {c.routeId}, st.seenModels + {c.modelKey})
  }

  function TryCandidates(p: Call, stage: Stage, cs: seq<Candidate>, st: State, stageModels: set<string>,
                         outcome: Outcome): (r: (StageEnd, State))
    ensures r.1.visits == st.visits && st.attempts <= r.1.attempts
    ensures |r.1.attempts| <= |st.attempts| + |cs|
    decreases |cs|
  {
    if cs == [] || |st.attempts| >= p.maxAttempts then (Left(outcome), st)
    else
      var c, t := cs[0], StageTask(p.task, stage);
      if Skipped(p, stage, c, st, stageModels) then TryCandidates(p, stage, cs[1..], st, stageModels, outcome)
      else match p.world.invoke(|st.attempts|, c, t)
        case Raised(e) => (Stopped(Propagated(e)), st)
        case Failed =>
          TryCandidates(p, stage, cs[1..], Recorded(st, stage, c, TransportFailed), stageModels + {c.modelKey},
                        TransportFailed)
        case Answered(r) =>
          if p.world.accepts(|st.attempts|, t, r) then (Stopped(Result(r)), Recorded(st, stage, c, Accepted))
          else TryCandidates(p, stage, cs[1..], Recorded(st, stage, c, QualityRejected), stageModels + {c.modelKey},
                             QualityRejected)
  }

  function VisitStage(p: Call, stage: Stage, st: State): (StageEnd, State) {
    match p.world.select(|st.visits|, StageTask(p.task, stage))
    case None => (Left(NoRoute), st.(attempts := st.attempts + [RouterFailed(|st.visits|, stage.stageId)]))
    case Some(d) => TryCandidates(p, stage, Shortlist(d, stage, st.seenRoutes), st, {}, NoRoute)
  }

  function Completed(st: State, stage: string, outcome: Outcome): State {
    st.(visits := st.visits + [Visit(stage, outcome)])
  }

  predicate Open(p: Call, at: Option<string>, st: State) {
    at.Some? && |st.visits| < p.graph.maxStageHops && |st.attempts| < p.maxAttempts
  }

  lemma {:induction false} NextStageIsKnown(g: Graph, ts: seq<Transition>, current: string, outcome: Outcome)
    requires forall t | t in ts :: t.toStage in g.stages
    ensures FirstMatch(ts, current, outcome).Some? ==> FirstMatch(ts, current, outcome).value in g.stages
    decreases |ts|
  {
    if ts != [] {
      NextStageIsKnown(g, ts[1..], current, outcome);
    }
  }

  /** The loop of invoke from a stage on. A stage id that is not in the graph would end it with an error;
      in a valid graph there is none. */
  function Walk(p: Call, at: Option<string>, st: State): (Verdict, State)
    decreases p.graph.maxStageHops - |st.visits|
  {
    if !Open(p, at, st) then (Exhausted, st)
    else if at.value !in p.graph.stages then (UnknownStage(at.value), st)
    else
      match VisitStage(p, p.graph.stages[at.value], st)
      case (Stopped(v), after) => (v, after)
      case (Left(outcome), after) =>
        Walk(p, NextStage(p.graph, at.value, outcome), Completed(after, at.value, outcome))
  }

  function Start(): State {
    State([], [], {}, {})
  }

  function Invoked(p: Call): (Verdict, State) {
    Walk(p, Some(p.graph.entryStage), Start())
  }

  // ---- What the attempts list says is what happened ----

  function OutcomeOf(p: Call, i: nat, c: Candidate, t: Task): Outcome {
    match p.world.invoke(i, c, t)
    case Failed => TransportFailed
    case Answered(r) => if p.world.accepts(i, t, r) then Accepted else QualityRejected
    case Raised(_) => NoRoute
  }

  /** Attempt i was made in a stage of the graph with a candidate that meets the stage's score, was given
      the stage's task, and its outcome is what the transport and the assessor answered. */
  ghost predicate Honest(p: Call, i: nat, a: Attempt) {
    && a.stage in p.graph.stages
    && var stage := p.graph.stages[a.stage];
       a.Tried? ==>
         && a.candidate.totalScore >= stage.minimumTotalScore
         && match p.world.invoke(i, a.candidate, StageTask(p.task, stage))
            case Failed => a.outcome == TransportFailed
            case Answered(r) =>
              a.outcome == if p.world.accepts(i, StageTask(p.task, stage), r) then Accepted else QualityRejected
            case Raised(_) => false
  }

  /** Of two attempts: a route is repeated only within one stage visit; a model is not repeated where the
      call or the stage rules it out. */
  ghost predicate Apart(p: Call, a: Attempt, b: Attempt) {
    a.Tried? && b.Tried? ==>
      && (a.candidate.routeId == b.candidate.routeId ==> a.visit == b.visit)
      && (p.neverRepeatModel ==> a.candidate.modelKey != b.candidate.modelKey)
      && (a.visit == b.visit && b.stage in p.graph.stages && p.graph.stages[b.stage].distinctModels
          ==> a.candidate.modelKey != b.candidate.modelKey)
  }

  ghost predicate Sound(p: Call, st: State) {
    && (forall i | 0 <= i < |st.attempts| :: Honest(p, i, st.attempts[i]))
    && (forall i, j | 0 <= i < j < |st.attempts| :: Apart(p, st.attempts[i], st.attempts[j]))
    && |st.attempts| <= if p.maxAttempts < 0 then 0 else p.maxAttempts
  }

  ghost predicate Remembered(st: State) {
    forall i | 0 <= i < |st.attempts| :: var a := st.attempts[i];
      a.Tried? ==> a.candidate.routeId in st.seenRoutes && a.candidate.modelKey in st.seenModels
  }

  ghost predicate Earlier(st: State, before: nat) {
    forall i | 0 <= i < |st.attempts| :: st.attempts[i].visit < before
  }

  ghost predicate NoneAccepted(attempts: seq<Attempt>) {
    forall i | 0 <= i < |attempts| :: attempts[i].Tried? ==> attempts[i].outcome != Accepted
  }

  /** Within a visit: what earlier visits tried is in seen, what this visit tried is in stageModels. */
  ghost predicate Visiting(st: State, seen: set<string>, stageModels: set<string>) {
    forall i | 0 <= i < |st.attempts| :: var a := st.attempts[i];
      && a.visit <= |st.visits|
      && (a.Tried? && a.visit < |st.visits| ==> a.candidate.routeId in seen)
      && (a.Tried? && a.visit == |st.visits| ==> a.candidate.modelKey in stageModels)
  }

  ghost predicate Running(p: Call, st: State, seen: set<string>, stageModels: set<string>) {
    Sound(p, st) && Remembered(st) && Visiting(st, seen, stageModels)
  }

  ghost predicate Fits(stage: Stage, seen: set<string>, c: Candidate) {
    c.routeId !in seen && c.totalScore >= stage.minimumTotalScore
  }

  lemma RecordingIsSound(p: Call, stage: Stage, c: Candidate, st: State, seen: set<string>, stageModels: set<string>,
                         outcome: Outcome)
    requires ValidGraph(p.graph) && stage.stageId in p.graph.stages && p.graph.stages[stage.stageId] == stage
    requires Running(p, st, seen, stageModels) && |st.attempts| < p.maxAttempts
    requires Fits(stage, seen, c) && !Skipped(p, stage, c, st, stageModels)
    requires outcome == OutcomeOf(p, |st.attempts|, c, StageTask(p.task, stage)) != NoRoute
    ensures Running(p, Recorded(st, stage, c, outcome), seen, stageModels + {c.modelKey})
  {
    var n := |st.attempts|;
    var next := Recorded(st, stage, c, outcome);
    assert Honest(p, n, next.attempts[n]);
    forall i, j | 0 <= i < j < |next.attempts|
      ensures Apart(p, next.attempts[i], next.attempts[j])
    {
      if j < n {
        assert Apart(p, st.attempts[i], st.attempts[j]);
      }
    }
  }

  lemma {:induction false} StageIsSound(p: Call, stage: Stage, cs: seq<Candidate>, st: State, seen: set<string>,
                                        stageModels: set<string>, outcome: Outcome)
    requires ValidGraph(p.graph) && stage.stageId in p.graph.stages && p.graph.stages[stage.stageId] == stage
    requires Running(p, st, seen, stageModels)
    requires forall c | c in cs :: Fits(stage, seen, c)
    ensures var r := TryCandidates(p, stage, cs, st, stageModels, outcome).1;
            Sound(p, r) && Remembered(r) && Earlier(r, |r.visits| + 1)
    decreases |cs|
  {
    if cs != [] && |st.attempts| < p.maxAttempts {
      var c, t, n := cs[0], StageTask(p.task, stage), |st.attempts|;
      assert Fits(stage, seen, c) && forall x | x in cs[1..] :: x in cs;
      if Skipped(p, stage, c, st, stageModels) {
        StageIsSound(p, stage, cs[1..], st, seen, stageModels, outcome);
      } else if !p.world.invoke(n, c, t).Raised? {
        var o := OutcomeOf(p, n, c, t);
        RecordingIsSound(p, stage, c, st, seen, stageModels, o);
        if o != Accepted {
          StageIsSound(p, stage, cs[1..], Recorded(st, stage, c, o), seen, stageModels + {c.modelKey}, o);
        }
      }
    }
  }

  lemma {:induction false} EligibleFits(cs: seq<Candidate>, stage: Stage, seen: set<string>)
    ensures forall c | c in Eligible(cs, seen, stage.minimumTotalScore) :: c in cs && Fits(stage, seen, c)
    decreases |cs|
  {
    if cs != [] {
      EligibleFits(cs[1..], stage, seen);
    }
  }

  lemma VisitIsSound(p: Call, stage: Stage, st: State)
    requires ValidGraph(p.graph) && stage.stageId in p.graph.stages && p.graph.stages[stage.stageId] == stage
    requires Sound(p, st) && Remembered(st) && Earlier(st, |st.visits|) && |st.attempts| < p.maxAttempts
    ensures var r := VisitStage(p, stage, st).1;
            Sound(p, r) && Remembered(r) && Earlier(r, |st.visits| + 1) && r.visits == st.visits
  {
    match p.world.select(|st.visits|, StageTask(p.task, stage))
    case None =>
      var r := VisitStage(p, stage, st).1;
      forall i, j | 0 <= i < j < |r.attempts|
        ensures Apart(p, r.attempts[i], r.attempts[j])
      {
        if j < |st.attempts| {
          assert Apart(p, st.attempts[i], st.attempts[j]);
        }
      }
    case Some(d) =>
      EligibleFits([d.selected] + d.alternatives, stage, st.seenRoutes);
      StageIsSound(p, stage, Shortlist(d, stage, st.seenRoutes), st, st.seenRoutes, {}, NoRoute);
  }

  lemma SameAttempts(p: Call, a: State, b: State)
    requires Sound(p, a) && Remembered(a)
    requires a.attempts == b.attempts && a.seenRoutes == b.seenRoutes && a.seenModels == b.seenModels
    ensures Sound(p, b) && Remembered(b)
  {}

  lemma {:induction false} WalkIsSound(p: Call, at: Option<string>, st: State)
    requires ValidGraph(p.graph)
    requires Sound(p, st) && Remembered(st) && Earlier(st, |st.visits|)
    ensures Sound(p, Walk(p, at, st).1)
    decreases p.graph.maxStageHops - |st.visits|
  {
    if Open(p, at, st) && at.value in p.graph.stages {
      var stage := p.graph.stages[at.value];
      VisitIsSound(p, stage, st);
      match VisitStage(p, stage, st)
      case (Stopped(v), after) =>
      case (Left(outcome), after) =>
        var next := Completed(after, at.value, outcome);
        SameAttempts(p, after, next);
        WalkIsSound(p, NextStage(p.graph, at.value, outcome), next);
    }
  }

  // ---- How a run ends ----

  ghost function Last(visits: seq<Visit>): Visit
    requires visits != []
  {
    visits[|visits| - 1]
  }

  /** What the verdict says about the attempts. */
  ghost predicate Ended(p: Call, verdict: Verdict, st: State) {
    var n := |st.attempts|;
    match verdict
    case Result(r) =>
      && n > 0 && NoneAccepted(st.attempts[..n - 1])
      && var a := st.attempts[n - 1];
         && a.Tried? && a.outcome == Accepted && a.stage in p.graph.stages
         && p.world.invoke(n - 1, a.candidate, StageTask(p.task, p.graph.stages[a.stage])) == Answered(r)
         && p.world.accepts(n - 1, StageTask(p.task, p.graph.stages[a.stage]), r)
    case Exhausted =>
      && NoneAccepted(st.attempts)
      && (|| n >= p.maxAttempts
          || |st.visits| == p.graph.maxStageHops
          || (st.visits != [] && NextStage(p.graph, Last(st.visits).stage, Last(st.visits).outcome) == None))
    case Propagated(e) =>
      NoneAccepted(st.attempts) && exists c, t :: p.world.invoke(n, c, t) == Raised(e)
    case UnknownStage(_) => false
  }

  /** The visits are a path through the graph from its entry, and at is where it goes next. */
  ghost predicate Followed(g: Graph, visits: seq<Visit>, at: Option<string>) {
    && (visits == [] ==> at == Some(g.entryStage))
    && (visits != [] ==> visits[0].stage == g.entryStage)
    && (visits != [] ==> at == NextStage(g, Last(visits).stage, Last(visits).outcome))
    && (forall i | 0 < i < |visits| ::
         NextStage(g, visits[i - 1].stage, visits[i - 1].outcome) == Some(visits[i].stage))
    && |visits| <= g.maxStageHops
  }

  ghost predicate HasFollowed(g: Graph, visits: seq<Visit>) {
    exists at :: Followed(g, visits, at)
  }

  lemma AcceptedEnds(p: Call, stage: Stage, c: Candidate, st: State)
    requires stage.stageId in p.graph.stages && p.graph.stages[stage.stageId] == stage && NoneAccepted(st.attempts)
    requires var n, t := |st.attempts|, StageTask(p.task, stage);
             p.world.invoke(n, c, t).Answered? && OutcomeOf(p, n, c, t) == Accepted
    ensures var n, t := |st.attempts|, StageTask(p.task, stage);
            Ended(p, Result(p.world.invoke(n, c, t).result), Recorded(st, stage, c, Accepted))
  {
    var next := Recorded(st, stage, c, Accepted);
    assert next.attempts[..|st.attempts|] == st.attempts;
  }

  lemma {:induction false} StageEnds(p: Call, stage: Stage, cs: seq<Candidate>, st: State, stageModels: set<string>,
                                     outcome: Outcome)
    requires stage.stageId in p.graph.stages && p.graph.stages[stage.stageId] == stage
    requires NoneAccepted(st.attempts)
    ensures var (end, r) := TryCandidates(p, stage, cs, st, stageModels, outcome);
            && (end.Left? ==> NoneAccepted(r.attempts))
            && (end.Stopped? ==> end.verdict.Result? || end.verdict.Propagated?)
            && (end.Stopped? ==> Ended(p, end.verdict, r))
    decreases |cs|
  {
    if cs != [] && |st.attempts| < p.maxAttempts {
      var c, t, n := cs[0], StageTask(p.task, stage), |st.attempts|;
      if Skipped(p, stage, c, st, stageModels) {
        StageEnds(p, stage, cs[1..], st, stageModels, outcome);
      } else if !p.world.invoke(n, c, t).Raised? {
        var o := OutcomeOf(p, n, c, t);
        var next := Recorded(st, stage, c, o);
        if o == Accepted {
          AcceptedEnds(p, stage, c, st);
        } else {
          StageEnds(p, stage, cs[1..], next, stageModels + {c.modelKey}, o);
        }
      }
    }
  }

  lemma VisitEnds(p: Call, stage: Stage, st: State)
    requires stage.stageId in p.graph.stages && p.graph.stages[stage.stageId] == stage
    requires NoneAccepted(st.attempts)
    ensures var (end, r) := VisitStage(p, stage, st);
            && (end.Left? ==> NoneAccepted(r.attempts))
            && (end.Stopped? ==> Ended(p, end.verdict, r))
  {
    match p.world.select(|st.visits|, StageTask(p.task, stage))
    case None =>
    case Some(d) => StageEnds(p, stage, Shortlist(d, stage, st.seenRoutes), st, {}, NoRoute);
  }

  lemma {:induction false} WalkEnds(p: Call, at: Option<string>, st: State)
    requires ValidGraph(p.graph)
    requires NoneAccepted(st.attempts) && Followed(p.graph, st.visits, at)
    ensures var (verdict, r) := Walk(p, at, st);
            Ended(p, verdict, r) && HasFollowed(p.graph, r.visits)
    decreases p.graph.maxStageHops - |st.visits|
  {
    if st.visits != [] {
      NextStageIsKnown(p.graph, p.graph.transitions, Last(st.visits).stage, Last(st.visits).outcome);
    }
    if Open(p, at, st) {
      var stage := p.graph.stages[at.value];
      VisitEnds(p, stage, st);
      match VisitStage(p, stage, st)
      case (Stopped(v), after) =>
      case (Left(outcome), after) =>
        var next := Completed(after, at.value, outcome);
        assert Last(next.visits) == Visit(at.value, outcome);
        WalkEnds(p, NextStage(p.graph, at.value, outcome), next);
    }
  }

  // ---- A stage is left with the outcome of its last attempt ----

  ghost function LastOutcome(attempts: seq<Attempt>, visit: nat): Outcome {
    if attempts == [] then NoRoute
    else
      var a := attempts[|attempts| - 1];
      if a.visit != visit then LastOutcome(attempts[..|attempts| - 1], visit)
      else if a.Tried? then a.outcome else NoRoute
  }

  lemma LastOutcomeAppended(attempts: seq<Attempt>, a: Attempt, visit: nat)
    ensures LastOutcome(attempts + [a], visit) ==
            if a.visit != visit then LastOutcome(attempts, visit) else if a.Tried? then a.outcome else NoRoute
  {
    assert (attempts + [a])[..|attempts|] == attempts;
  }

  ghost predicate Reported(st: State) {
    forall v | 0 <= v < |st.visits| :: st.visits[v].outcome == LastOutcome(st.attempts, v)
  }

  lemma LaterAttemptsChangeNoReport(st: State, a: Attempt, seenRoutes: set<string>, seenModels: set<string>)
    requires Reported(st) && a.visit == |st.visits|
    ensures Reported(State(st.visits, st.attempts + [a], seenRoutes, seenModels))
  {
    forall v | 0 <= v < |st.visits|
      ensures st.visits[v].outcome == LastOutcome(st.attempts + [a], v)
    {
      LastOutcomeAppended(st.attempts, a, v);
    }
  }

  lemma {:induction false} StageReports(p: Call, stage: Stage, cs: seq<Candidate>, st: State,
                                        stageModels: set<string>, outcome: Outcome)
    requires Reported(st) && outcome == LastOutcome(st.attempts, |st.visits|)
    ensures var (end, r) := TryCandidates(p, stage, cs, st, stageModels, outcome);
            Reported(r) && (end.Left? ==> end.outcome == LastOutcome(r.attempts, |r.visits|))
    decreases |cs|
  {
    if cs != [] && |st.attempts| < p.maxAttempts {
      var c, t, n := cs[0], StageTask(p.task, stage), |st.attempts|;
      if Skipped(p, stage, c, st, stageModels) {
        StageReports(p, stage, cs[1..], st, stageModels, outcome);
      } else if !p.world.invoke(n, c, t).Raised? {
        var o := OutcomeOf(p, n, c, t);
        var a := Tried(|st.visits|, stage.stageId, c, o);
        LaterAttemptsChangeNoReport(st, a, st.seenRoutes + {c.routeId}, st.seenModels + {c.modelKey});
        LastOutcomeAppended(st.attempts, a, |st.visits|);
        if o != Accepted {
          StageReports(p, stage, cs[1..], Recorded(st, stage, c, o), stageModels + {c.modelKey}, o);
        }
      }
    }
  }

  lemma {:induction false} NothingReportedYet(attempts: seq<Attempt>, visit: nat)
    requires forall i | 0 <= i < |attempts| :: attempts[i].visit < visit
    ensures LastOutcome(attempts, visit) == NoRoute
  {
    if attempts != [] {
      NothingReportedYet(attempts[..|attempts| - 1], visit);
    }
  }

  lemma VisitReports(p: Call, stage: Stage, st: State)
    requires Reported(st) && Earlier(st, |st.visits|)
    ensures var (end, r) := VisitStage(p, stage, st);
            Reported(r) && (end.Left? ==> end.outcome == LastOutcome(r.attempts, |r.visits|))
  {
    NothingReportedYet(st.attempts, |st.visits|);
    match p.world.select(|st.visits|, StageTask(p.task, stage))
    case None =>
      var a := RouterFailed(|st.visits|, stage.stageId);
      LaterAttemptsChangeNoReport(st, a, st.seenRoutes, st.seenModels);
      LastOutcomeAppended(st.attempts, a, |st.visits|);
    case Some(d) => StageReports(p, stage, Shortlist(d, stage, st.seenRoutes), st, {}, NoRoute);
  }

  lemma {:induction false} WalkReports(p: Call, at: Option<string>, st: State)
    requires ValidGraph(p.graph)
    requires Sound(p, st) && Remembered(st) && Earlier(st, |st.visits|) && Reported(st)
    ensures Reported(Walk(p, at, st).1)
    decreases p.graph.maxStageHops - |st.visits|
  {
    if Open(p, at, st) && at.value in p.graph.stages {
      var stage := p.graph.stages[at.value];
      VisitIsSound(p, stage, st);
      VisitReports(p, stage, st);
      match VisitStage(p, stage, st)
      case (Stopped(v), after) =>
      case (Left(outcome), after) =>
        var next := Completed(after, at.value, outcome);
        SameAttempts(p, after, next);
        WalkReports(p, NextStage(p.graph, at.value, outcome), next);
    }
  }

  // ---- The main result ----

  /** Every run, cyclic stage graphs included: a bounded path of visits, each left along the transition of
      its last outcome; a bounded and honest list of attempts; and a verdict that the list justifies. */
  lemma InvokeIsSound(p: Call)
    requires ValidGraph(p.graph)
    ensures var (verdict, st) := Invoked(p);
            && Sound(p, st) && Reported(st)
            && HasFollowed(p.graph, st.visits)
            && Ended(p, verdict, st)
  {
    var at := Some(p.graph.entryStage);
    WalkIsSound(p, at, Start());
    WalkReports(p, at, Start());
    WalkEnds(p, at, Start());
  }

  // ---- Whether a route is ever tried twice ----

  ghost predicate DistinctRoutes(cs: seq<Candidate>) {
    forall i, j | 0 <= i < j < |cs| :: cs[i].routeId != cs[j].routeId
  }

  ghost predicate DifferentRoutes(a: Attempt, b: Attempt) {
    a.Tried? && b.Tried? ==> a.candidate.routeId != b.candidate.routeId
  }

  ghost predicate NoRouteTwice(attempts: seq<Attempt>) {
    forall i, j | 0 <= i < j < |attempts| :: DifferentRoutes(attempts[i], attempts[j])
  }

  ghost predicate Untried(c: Candidate, attempts: seq<Attempt>) {
    forall i | 0 <= i < |attempts| :: attempts[i].Tried? ==> attempts[i].candidate.routeId != c.routeId
  }

  lemma {:induction false} EligibleAreDistinct(cs: seq<Candidate>, seen: set<string>, minimum: real)
    requires DistinctRoutes(cs)
    ensures DistinctRoutes(Eligible(cs, seen, minimum))
    ensures forall c | c in Eligible(cs, seen, minimum) :: c in cs && c.routeId !in seen
    decreases |cs|
  {
    if cs != [] {
      var rest := cs[1..];
      assert DistinctRoutes(rest);
      EligibleAreDistinct(rest, seen, minimum);
      forall c | c in rest
        ensures c.routeId != cs[0].routeId
      {
        var i :| 0 <= i < |rest| && rest[i] == c;
        assert cs[i + 1] == c;
      }
    }
  }

  lemma {:induction false} StageTriesNoRouteTwice(p: Call, stage: Stage, cs: seq<Candidate>, st: State,
                                                  stageModels: set<string>, outcome: Outcome)
    requires NoRouteTwice(st.attempts) && DistinctRoutes(cs)
    requires forall c | c in cs :: Untried(c, st.attempts)
    ensures NoRouteTwice(TryCandidates(p, stage, cs, st, stageModels, outcome).1.attempts)
    decreases |cs|
  {
    if cs != [] && |st.attempts| < p.maxAttempts {
      var c, t, n := cs[0], StageTask(p.task, stage), |st.attempts|;
      if Skipped(p, stage, c, st, stageModels) {
        StageTriesNoRouteTwice(p, stage, cs[1..], st, stageModels, outcome);
      } else if !p.world.invoke(n, c, t).Raised? {
        var o := OutcomeOf(p, n, c, t);
        var next := Recorded(st, stage, c, o);
        assert Untried(c, st.attempts);
        if o != Accepted {
          forall x | x in cs[1..]
            ensures Untried(x, next.attempts)
          {
            assert Untried(x, st.attempts);
            var i :| 0 <= i < |cs[1..]| && cs[1..][i] == x;
            assert cs[i + 1] == x;
          }
          StageTriesNoRouteTwice(p, stage, cs[1..], next, stageModels + {c.modelKey}, o);
        }
      }
    }
  }

  /** If the routes of each single decision are distinct, no run tries a route twice. */
  lemma {:induction false} DistinctDecisionsRepeatNoRoute(p: Call, at: Option<string>, st: State)
    requires ValidGraph(p.graph)
    requires forall n, t :: match p.world.select(n, t)
                            case None => true
                            case Some(d) => DistinctRoutes([d.selected] + d.alternatives)
    requires Sound(p, st) && Remembered(st) && Earlier(st, |st.visits|) && NoRouteTwice(st.attempts)
    ensures NoRouteTwice(Walk(p, at, st).1.attempts)
    decreases p.graph.maxStageHops - |st.visits|
  {
    if Open(p, at, st) && at.value in p.graph.stages {
      var stage := p.graph.stages[at.value];
      VisitIsSound(p, stage, st);
      match p.world.select(|st.visits|, StageTask(p.task, stage)) {
        case None =>
        case Some(d) =>
          EligibleAreDistinct([d.selected] + d.alternatives, st.seenRoutes, stage.minimumTotalScore);
          StageTriesNoRouteTwice(p, stage, Shortlist(d, stage, st.seenRoutes), st, {}, NoRoute);
      }
      match VisitStage(p, stage, st)
      case (Stopped(v), after) =>
      case (Left(outcome), after) =>
        var next := Completed(after, at.value, outcome);
        SameAttempts(p, after, next);
        DistinctDecisionsRepeatNoRoute(p, NextStage(p.graph, at.value, outcome), next);
    }
  }

  /** The candidates that a visit offers to the transports, one after the other: those that are left when a model
      that is ruled out by then is passed over. */
  function Offered(p: Call, stage: Stage, cs: seq<Candidate>, seenModels: set<string>,
                   stageModels: set<string>): seq<Candidate> {
    if cs == [] then []
    else if p.neverRepeatModel && cs[0].modelKey in seenModels then Offered(p, stage, cs[1..], seenModels, stageModels)
    else if stage.distinctModels && cs[0].modelKey in stageModels
    then Offered(p, stage, cs[1..], seenModels, stageModels)
    else [cs[0]] + Offered(p, stage, cs[1..], seenModels + {cs[0].modelKey}, stageModels + {cs[0].modelKey})
  }

  /** How many more attempts the call has. */
  function Room(p: Call, st: State): nat {
    if |st.attempts| < p.maxAttempts then p.maxAttempts - |st.attempts| else 0
  }

  ghost predicate AlwaysFails(p: Call) {
    forall i, c, t :: p.world.invoke(i, c, t) == Failed
  }

  /** The attempts are tries of the offered candidates, in order, as many as there are. */
  ghost predicate AreTries(attempts: seq<Attempt>, offered: seq<Candidate>) {
    && |attempts| <= |offered|
    && forall i | 0 <= i < |attempts| :: attempts[i].Tried? && attempts[i].candidate == offered[i]
  }

  ghost predicate Tries(before: State, after: State, offered: seq<Candidate>, k: nat) {
    && before.attempts <= after.attempts && |after.attempts| == |before.attempts| + k
    && AreTries(after.attempts[|before.attempts|..], offered)
  }

  lemma OneMoreTry(before: State, next: State, after: State, c: Candidate, offered: seq<Candidate>, k: nat)
    requires Tries(next, after, offered, k) && |next.attempts| == |before.attempts| + 1
    requires before.attempts <= next.attempts
    requires next.attempts[|before.attempts|].Tried? && next.attempts[|before.attempts|].candidate == c
    ensures Tries(before, after, [c] + offered, k + 1)
  {
    var more, rest := after.attempts[|before.attempts|..], after.attempts[|next.attempts|..];
    assert more == [next.attempts[|before.attempts|]] + rest;
    assert before.attempts == next.attempts[..|before.attempts|];
  }

  lemma NoTryYet(st: State, offered: seq<Candidate>)
    ensures Tries(st, st, offered, 0)
  {
  }

  lemma {:induction false} VisitTriesOffered(p: Call, stage: Stage, cs: seq<Candidate>, st: State,
                                             stageModels: set<string>, outcome: Outcome)
    returns (k: nat)
    ensures Tries(st, TryCandidates(p, stage, cs, st, stageModels, outcome).1,
                  Offered(p, stage, cs, st.seenModels, stageModels), k)
    ensures k <= Room(p, st)
    ensures AlwaysFails(p) ==> k == |Slice(Offered(p, stage, cs, st.seenModels, stageModels), Room(p, st))|
    decreases |cs|
  {
    k := 0;
    NoTryYet(st, Offered(p, stage, cs, st.seenModels, stageModels));
    if cs != [] && |st.attempts| < p.maxAttempts {
      var c, t, n := cs[0], StageTask(p.task, stage), |st.attempts|;
      if Skipped(p, stage, c, st, stageModels) {
        k := VisitTriesOffered(p, stage, cs[1..], st, stageModels, outcome);
      } else if !p.world.invoke(n, c, t).Raised? {
        var o := OutcomeOf(p, n, c, t);
        var next := Recorded(st, stage, c, o);
        var more := Offered(p, stage, cs[1..], next.seenModels, stageModels + {c.modelKey});
        if o == Accepted {
          NoTryYet(next, more);
          OneMoreTry(st, next, next, c, more, 0);
          k := 1;
        } else {
          var rest := VisitTriesOffered(p, stage, cs[1..], next, stageModels + {c.modelKey}, o);
          OneMoreTry(st, next, TryCandidates(p, stage, cs[1..], next, stageModels + {c.modelKey}, o).1, c, more, rest);
          k := rest + 1;
        }
      }
    }
  }

  lemma TriesRepeatAsOffered(tried: seq<Attempt>, offered: seq<Candidate>)
    requires AreTries(tried, offered)
    ensures NoRouteTwice(tried) <==> DistinctRoutes(offered[..|tried|])
  {
    var part := offered[..|tried|];
    assert forall i | 0 <= i < |tried| :: tried[i].Tried? && tried[i].candidate == part[i];
    if NoRouteTwice(tried) {
      forall i, j | 0 <= i < j < |part|
        ensures part[i].routeId != part[j].routeId
      {
        assert DifferentRoutes(tried[i], tried[j]);
      }
    }
  }

  /** Whether a visit tries a route twice is decided by what it offers, as far as there is room for attempts: if
      those routes are distinct it never does, and if they are not it does when every transport fails. So a
      decision that names a route twice gets it tried twice. */
  lemma OfferDecidesRepeats(p: Call, stage: Stage, cs: seq<Candidate>, st: State)
    ensures var before, after := |st.attempts|, TryCandidates(p, stage, cs, st, {}, NoRoute).1.attempts;
      var offered := Slice(Offered(p, stage, cs, st.seenModels, {}), Room(p, st));
      && before <= |after|
      && (DistinctRoutes(offered) ==> NoRouteTwice(after[before..]))
      && (AlwaysFails(p) ==> (NoRouteTwice(after[before..]) <==> DistinctRoutes(offered)))
  {
    var k := VisitTriesOffered(p, stage, cs, st, {}, NoRoute);
    var offered := Offered(p, stage, cs, st.seenModels, {});
    var tried := TryCandidates(p, stage, cs, st, {}, NoRoute).1.attempts[|st.attempts|..];
    TriesRepeatAsOffered(tried, offered);
    var room := Slice(offered, Room(p, st));
    assert offered[..k] == room[..k];
    assert |room| == k ==> room[..k] == room;
  }

  // ---- No candidate is passed over without a cause ----

  /** at lists, in order, the positions from some position on whose candidates are of unseen routes and meet the
      score. */
  ghost predicate FitAt(cs: seq<Candidate>, from: nat, seen: set<string>, minimum: real, at: seq<nat>) {
    && (forall i | 0 <= i < |at| :: from <= at[i] < |cs|)
    && (forall i, j | 0 <= i < j < |at| :: at[i] < at[j])
    && (forall j | from <= j < |cs| :: j in at <==> cs[j].routeId !in seen && cs[j].totalScore >= minimum)
  }

  ghost predicate PickedAt(e: seq<Candidate>, cs: seq<Candidate>, at: seq<nat>)
    requires forall i | 0 <= i < |at| :: at[i] < |cs|
  {
    |e| == |at| && forall i | 0 <= i < |at| :: e[i] == cs[at[i]]
  }

  lemma OneMoreFits(cs: seq<Candidate>, from: nat, next: nat, seen: set<string>, minimum: real, rest: seq<nat>)
    requires next == from + 1 <= |cs| && FitAt(cs, next, seen, minimum, rest)
    ensures var keep := cs[from].routeId !in seen && cs[from].totalScore >= minimum;
            FitAt(cs, from, seen, minimum, (if keep then [from] else []) + rest)
  {
    var keep := cs[from].routeId !in seen && cs[from].totalScore >= minimum;
    var at := (if keep then [from] else []) + rest;
    forall j | from <= j < |cs|
      ensures j in at <==> cs[j].routeId !in seen && cs[j].totalScore >= minimum
    {
      assert j in at <==> j in rest || (keep && j == from);
      assert from !in rest;
    }
  }

  lemma PickedConcat(e: seq<Candidate>, f: seq<Candidate>, cs: seq<Candidate>, at: seq<nat>, more: seq<nat>)
    requires (forall i | 0 <= i < |at| :: at[i] < |cs|) && (forall i | 0 <= i < |more| :: more[i] < |cs|)
    requires PickedAt(e, cs, at) && PickedAt(f, cs, more)
    ensures (forall i | 0 <= i < |at + more| :: (at + more)[i] < |cs|) && PickedAt(e + f, cs, at + more)
  {
  }

  lemma EligibleUnfolds(cs: seq<Candidate>, from: nat, next: nat, seen: set<string>, minimum: real)
    requires next == from + 1 <= |cs|
    ensures var keep := cs[from].routeId !in seen && cs[from].totalScore >= minimum;
            Eligible(cs[from..], seen, minimum) ==
            (if keep then [cs[from]] else []) + Eligible(cs[next..], seen, minimum)
  {
    assert cs[from..][0] == cs[from] && cs[from..][1..] == cs[next..];
  }

  lemma {:induction false} EligibleFrom(cs: seq<Candidate>, from: nat, seen: set<string>, minimum: real)
    returns (at: seq<nat>)
    requires from <= |cs|
    ensures FitAt(cs, from, seen, minimum, at) && PickedAt(Eligible(cs[from..], seen, minimum), cs, at)
    decreases |cs| - from
  {
    at := [];
    if from < |cs| {
      var next := from + 1;
      var rest := EligibleFrom(cs, next, seen, minimum);
      var keep := cs[from].routeId !in seen && cs[from].totalScore >= minimum;
      var first: seq<nat> := if keep then [from] else [];
      EligibleUnfolds(cs, from, next, seen, minimum);
      OneMoreFits(cs, from, next, seen, minimum, rest);
      PickedConcat(if keep then [cs[from]] else [], Eligible(cs[next..], seen, minimum), cs, first, rest);
      at := first + rest;
    }
  }

  /** Eligible keeps, in order and as often as they occur, exactly the candidates of unseen routes that meet the
      score: at lists their positions. */
  lemma EligibleIsExact(cs: seq<Candidate>, seen: set<string>, minimum: real) returns (at: seq<nat>)
    ensures FitAt(cs, 0, seen, minimum, at) && PickedAt(Eligible(cs, seen, minimum), cs, at)
  {
    at := EligibleFrom(cs, 0, seen, minimum);
    assert cs[0..] == cs;
  }

  /** The shortlist is the beginning of that list, as long as the stage allows. */
  lemma ShortlistIsFirst(d: Decision, stage: Stage, seen: set<string>)
    ensures var e := Eligible([d.selected] + d.alternatives, seen, stage.minimumTotalScore);
      && Shortlist(d, stage, seen) <= e
      && |Shortlist(d, stage, seen)| == if |e| < stage.maxCandidates then |e| else stage.maxCandidates
  {
  }

  ghost predicate TriedIn(attempts: seq<Attempt>, visit: nat, c: Candidate) {
    exists a :: a in attempts && a.Tried? && a.visit == visit && a.candidate == c
  }

  ghost predicate RouteTriedBefore(attempts: seq<Attempt>, visit: nat, route: string) {
    exists a :: a in attempts && a.Tried? && a.visit < visit && a.candidate.routeId == route
  }

  ghost predicate ModelTriedBy(attempts: seq<Attempt>, visit: nat, model: string) {
    exists a :: a in attempts && a.Tried? && a.visit <= visit && a.candidate.modelKey == model
  }

  ghost predicate ModelTriedIn(attempts: seq<Attempt>, visit: nat, model: string) {
    exists a :: a in attempts && a.Tried? && a.visit == visit && a.candidate.modelKey == model
  }

  /** Its model rules the candidate out. */
  ghost predicate ModelRuledOut(p: Call, stage: Stage, attempts: seq<Attempt>, visit: nat, c: Candidate) {
    || (p.neverRepeatModel && ModelTriedBy(attempts, visit, c.modelKey))
    || (stage.distinctModels && ModelTriedIn(attempts, visit, c.modelKey))
  }

  /** The candidates at these positions, all before the i-th, are of new routes and meet the score. */
  ghost predicate ComeFirst(stage: Stage, attempts: seq<Attempt>, visit: nat, cs: seq<Candidate>, i: nat,
                            js: set<nat>)
    requires i <= |cs|
  {
    forall j | j in js ::
      j < i && !RouteTriedBefore(attempts, visit, cs[j].routeId) && cs[j].totalScore >= stage.minimumTotalScore
  }

  /** So many fitting candidates come before the i-th that the stage does not get to it. */
  ghost predicate BeyondSlice(stage: Stage, attempts: seq<Attempt>, visit: nat, cs: seq<Candidate>, i: nat)
    requires i <= |cs|
  {
    exists js :: |js| >= stage.maxCandidates && ComeFirst(stage, attempts, visit, cs, i, js)
  }

  /** Why the visit is done with the i-th candidate of its decision. */
  ghost predicate Accounted(p: Call, stage: Stage, attempts: seq<Attempt>, visit: nat, cs: seq<Candidate>, i: nat)
    requires i < |cs|
  {
    || TriedIn(attempts, visit, cs[i])
    || RouteTriedBefore(attempts, visit, cs[i].routeId)
    || cs[i].totalScore < stage.minimumTotalScore
    || ModelRuledOut(p, stage, attempts, visit, cs[i])
    || BeyondSlice(stage, attempts, visit, cs, i)
  }

  ghost predicate Explained(p: Call, stage: Stage, attempts: seq<Attempt>, visit: nat) {
    match p.world.select(visit, StageTask(p.task, stage))
    case None => RouterFailed(visit, stage.stageId) in attempts
    case Some(d) =>
      var cs := [d.selected] + d.alternatives;
      forall i | 0 <= i < |cs| :: Accounted(p, stage, attempts, visit, cs, i)
  }

  /** What is remembered has been tried. */
  ghost predicate NothingElseSeen(st: State) {
    && (forall x | x in st.seenRoutes :: exists a :: a in st.attempts && a.Tried? && a.candidate.routeId == x)
    && (forall x | x in st.seenModels :: exists a :: a in st.attempts && a.Tried? && a.candidate.modelKey == x)
  }

  lemma {:induction false} RecordingSeesNothingElse(st: State, stage: Stage, c: Candidate, outcome: Outcome)
    requires NothingElseSeen(st)
    ensures NothingElseSeen(Recorded(st, stage, c, outcome))
  {
    var next := Recorded(st, stage, c, outcome);
    var a := Tried(|st.visits|, stage.stageId, c, outcome);
    assert a in next.attempts && forall x | x in st.attempts :: x in next.attempts;
  }

  /** What a visit does to what is remembered, and to the attempts. */
  ghost predicate Visited(before: State, after: State) {
    && NothingElseSeen(after) && after.visits == before.visits && before.attempts <= after.attempts
    && forall i | |before.attempts| <= i < |after.attempts| :: after.attempts[i].visit == |before.visits|
  }

  lemma VisitedTransitive(a: State, b: State, c: State)
    requires Visited(a, b) && Visited(b, c)
    ensures Visited(a, c)
  {
  }

  lemma SkippedIsRuledOut(p: Call, stage: Stage, c: Candidate, st: State, stageModels: set<string>,
                          attempts: seq<Attempt>)
    requires Skipped(p, stage, c, st, stageModels) && NothingElseSeen(st) && Earlier(st, |st.visits| + 1)
    requires forall m | m in stageModels :: ModelTriedIn(st.attempts, |st.visits|, m)
    requires st.attempts <= attempts
    ensures ModelRuledOut(p, stage, attempts, |st.visits|, c)
  {
    assert forall x | x in st.attempts :: x in attempts && x.visit <= |st.visits|;
    if stage.distinctModels && c.modelKey in stageModels {
      assert ModelTriedIn(st.attempts, |st.visits|, c.modelKey);
    }
  }

  /** A pass over candidates that leaves attempts over has tried each, or its model rules it out. */
  lemma {:induction false} StagePassesOverForCause(p: Call, stage: Stage, cs: seq<Candidate>, st: State,
                                                   stageModels: set<string>, outcome: Outcome)
    requires NothingElseSeen(st) && Earlier(st, |st.visits| + 1)
    requires forall m | m in stageModels :: ModelTriedIn(st.attempts, |st.visits|, m)
    ensures var (end, r) := TryCandidates(p, stage, cs, st, stageModels, outcome);
      && Visited(st, r)
      && (end.Left? && |r.attempts| < p.maxAttempts ==>
            forall c | c in cs :: TriedIn(r.attempts, |st.visits|, c) ||
                                  ModelRuledOut(p, stage, r.attempts, |st.visits|, c))
    decreases |cs|
  {
    if cs != [] && |st.attempts| < p.maxAttempts {
      var c, n, visit := cs[0], |st.attempts|, |st.visits|;
      var (end, r) := TryCandidates(p, stage, cs, st, stageModels, outcome);
      if Skipped(p, stage, c, st, stageModels) {
        StagePassesOverForCause(p, stage, cs[1..], st, stageModels, outcome);
        SkippedIsRuledOut(p, stage, c, st, stageModels, r.attempts);
      } else if !p.world.invoke(n, c, StageTask(p.task, stage)).Raised? {
        var o := OutcomeOf(p, n, c, StageTask(p.task, stage));
        var next, a := Recorded(st, stage, c, o), Tried(visit, stage.stageId, c, o);
        RecordingSeesNothingElse(st, stage, c, o);
        assert next.attempts[n] == a && Visited(st, next);
        if o != Accepted {
          forall m | m in stageModels + {c.modelKey}
            ensures ModelTriedIn(next.attempts, visit, m)
          {
            assert a in next.attempts && forall x | x in st.attempts :: x in next.attempts;
          }
          StagePassesOverForCause(p, stage, cs[1..], next, stageModels + {c.modelKey}, o);
          VisitedTransitive(st, next, r);
          assert r.attempts[n] == a;
        }
      }
      assert forall x | x in cs :: x == c || x in cs[1..];
    }
  }

  lemma EarlierAreOld(st: State, attempts: seq<Attempt>, a: Attempt)
    requires Remembered(st) && Earlier(st, |st.visits|) && st.attempts <= attempts
    requires forall i | |st.attempts| <= i < |attempts| :: attempts[i].visit >= |st.visits|
    ensures a in st.attempts ==> a in attempts && a.visit < |st.visits|
    ensures a in attempts && a.visit < |st.visits| && a.Tried? ==> a.candidate.routeId in st.seenRoutes
  {
    if a in st.attempts {
      var i :| 0 <= i < |st.attempts| && st.attempts[i] == a;
      assert attempts[i] == a;
    }
  }

  lemma SeenIsTriedBefore(st: State, route: string, attempts: seq<Attempt>)
    requires NothingElseSeen(st) && Remembered(st) && Earlier(st, |st.visits|) && st.attempts <= attempts
    requires forall i | |st.attempts| <= i < |attempts| :: attempts[i].visit >= |st.visits|
    ensures route in st.seenRoutes <==> RouteTriedBefore(attempts, |st.visits|, route)
  {
    if route in st.seenRoutes {
      var a :| a in st.attempts && a.Tried? && a.candidate.routeId == route;
      EarlierAreOld(st, attempts, a);
    } else if RouteTriedBefore(attempts, |st.visits|, route) {
      var a :| a in attempts && a.Tried? && a.visit < |st.visits| && a.candidate.routeId == route;
      EarlierAreOld(st, attempts, a);
    }
  }

  lemma {:induction false} PositionsBefore(at: seq<nat>, n: nat) returns (js: set<nat>)
    requires n < |at| && forall i, j | 0 <= i < j < |at| :: at[i] < at[j]
    ensures |js| == n && forall j :: j in js <==> j in at[..n]
    ensures forall j | j in js :: j < at[n] && j in at
    decreases n
  {
    js := {};
    if n > 0 {
      var before := n - 1;
      js := PositionsBefore(at, before);
      assert at[..n] == at[..before] + [at[before]];
      js := js + {at[before]};
    }
  }

  /** A candidate that fits is on the shortlist, or comes too late for it. */
  lemma FittingIsListedOrLate(d: Decision, stage: Stage, st: State, attempts: seq<Attempt>, i: nat)
    requires NothingElseSeen(st) && Remembered(st) && Earlier(st, |st.visits|) && st.attempts <= attempts
    requires forall j | |st.attempts| <= j < |attempts| :: attempts[j].visit >= |st.visits|
    requires i < |[d.selected] + d.alternatives|
    ensures var cs := [d.selected] + d.alternatives;
      cs[i].routeId !in st.seenRoutes && cs[i].totalScore >= stage.minimumTotalScore ==>
        cs[i] in Shortlist(d, stage, st.seenRoutes) || BeyondSlice(stage, attempts, |st.visits|, cs, i)
  {
    var cs := [d.selected] + d.alternatives;
    if cs[i].routeId !in st.seenRoutes && cs[i].totalScore >= stage.minimumTotalScore {
      var at := EligibleIsExact(cs, st.seenRoutes, stage.minimumTotalScore);
      ShortlistIsFirst(d, stage, st.seenRoutes);
      assert i in at;
      var n :| 0 <= n < |at| && at[n] == i;
      if n < stage.maxCandidates {
        assert Shortlist(d, stage, st.seenRoutes)[n] == cs[i];
      } else {
        var js := PositionsBefore(at, n);
        forall j | j in js
          ensures j < i && !RouteTriedBefore(attempts, |st.visits|, cs[j].routeId) &&
                  cs[j].totalScore >= stage.minimumTotalScore
        {
          assert j in at;
          SeenIsTriedBefore(st, cs[j].routeId, attempts);
        }
        assert ComeFirst(stage, attempts, |st.visits|, cs, i, js);
      }
    }
  }

  /** A visit that is left with attempts to spare is done with every candidate of its decision for a cause. */
  lemma VisitPassesOverForCause(p: Call, stage: Stage, st: State)
    requires NothingElseSeen(st) && Remembered(st) && Earlier(st, |st.visits|)
    ensures var (end, r) := VisitStage(p, stage, st);
      Visited(st, r) && (end.Left? && |r.attempts| < p.maxAttempts ==> Explained(p, stage, r.attempts, |st.visits|))
  {
    var (end, r) := VisitStage(p, stage, st);
    match p.world.select(|st.visits|, StageTask(p.task, stage))
    case None =>
      assert r.attempts[|st.attempts|] == RouterFailed(|st.visits|, stage.stageId);
      assert forall x | x in st.attempts :: x in r.attempts;
    case Some(d) =>
      var cs := [d.selected] + d.alternatives;
      StagePassesOverForCause(p, stage, Shortlist(d, stage, st.seenRoutes), st, {}, NoRoute);
      if end.Left? && |r.attempts| < p.maxAttempts {
        forall i | 0 <= i < |cs|
          ensures Accounted(p, stage, r.attempts, |st.visits|, cs, i)
        {
          SeenIsTriedBefore(st, cs[i].routeId, r.attempts);
          FittingIsListedOrLate(d, stage, st, r.attempts, i);
        }
      }
  }

  lemma LaterAttemptsAccountNoLess(p: Call, stage: Stage, attempts: seq<Attempt>, more: seq<Attempt>, visit: nat,
                                   cs: seq<Candidate>, i: nat)
    requires i < |cs| && Accounted(p, stage, attempts, visit, cs, i)
    requires forall a | a in attempts :: a in more
    requires forall a | a in more && a.visit <= visit :: a in attempts
    ensures Accounted(p, stage, more, visit, cs, i)
  {
    if BeyondSlice(stage, attempts, visit, cs, i) {
      var js :| |js| >= stage.maxCandidates && ComeFirst(stage, attempts, visit, cs, i, js);
      assert ComeFirst(stage, more, visit, cs, i, js);
    }
  }

  lemma LaterAttemptsExplainNoLess(p: Call, stage: Stage, attempts: seq<Attempt>, more: seq<Attempt>, visit: nat)
    requires Explained(p, stage, attempts, visit) && attempts <= more
    requires forall i | |attempts| <= i < |more| :: more[i].visit > visit
    ensures Explained(p, stage, more, visit)
  {
    forall a
      ensures a in attempts ==> a in more
      ensures a in more && a.visit <= visit ==> a in attempts
    {
      if a in more {
        var i :| 0 <= i < |more| && more[i] == a;
        if i < |attempts| {
          assert attempts[i] == a;
        }
      }
    }
    match p.world.select(visit, StageTask(p.task, stage))
    case None =>
    case Some(d) =>
      var cs := [d.selected] + d.alternatives;
      forall i | 0 <= i < |cs|
        ensures Accounted(p, stage, more, visit, cs, i)
      {
        assert Accounted(p, stage, attempts, visit, cs, i);
        LaterAttemptsAccountNoLess(p, stage, attempts, more, visit, cs, i);
      }
  }

  /** Attempts were left when the v-th visit was over. */
  ghost predicate LeftRoom(p: Call, st: State, v: nat) {
    v + 1 < |st.visits| || |st.attempts| < p.maxAttempts || exists a :: a in st.attempts && a.visit > v
  }

  ghost predicate AllExplained(p: Call, st: State) {
    forall v | 0 <= v < |st.visits| && LeftRoom(p, st, v) && st.visits[v].stage in p.graph.stages ::
      Explained(p, p.graph.stages[st.visits[v].stage], st.attempts, v)
  }

  lemma VisitKeepsExplained(p: Call, st: State, after: State)
    requires AllExplained(p, st) && |st.attempts| < p.maxAttempts && Visited(st, after)
    ensures AllExplained(p, after)
  {
    forall v | 0 <= v < |after.visits| && after.visits[v].stage in p.graph.stages
      ensures Explained(p, p.graph.stages[after.visits[v].stage], after.attempts, v)
    {
      assert LeftRoom(p, st, v);
      LaterAttemptsExplainNoLess(p, p.graph.stages[st.visits[v].stage], st.attempts, after.attempts, v);
    }
  }

  lemma CompletedIsExplained(p: Call, st: State, after: State, stage: string, outcome: Outcome)
    requires AllExplained(p, after) && |st.attempts| < p.maxAttempts && Visited(st, after) && AllExplained(p, st)
    requires Earlier(after, |after.visits| + 1) && stage in p.graph.stages
    requires |after.attempts| < p.maxAttempts ==>
             Explained(p, p.graph.stages[stage], after.attempts, |after.visits|)
    ensures AllExplained(p, Completed(after, stage, outcome))
  {
    var next := Completed(after, stage, outcome);
    forall v | 0 <= v < |next.visits| && LeftRoom(p, next, v) && next.visits[v].stage in p.graph.stages
      ensures Explained(p, p.graph.stages[next.visits[v].stage], next.attempts, v)
    {
      if v < |after.visits| {
        assert LeftRoom(p, st, v);
        LaterAttemptsExplainNoLess(p, p.graph.stages[st.visits[v].stage], st.attempts, after.attempts, v);
      }
    }
  }

  lemma {:induction false} WalkExplains(p: Call, at: Option<string>, st: State)
    requires ValidGraph(p.graph)
    requires Sound(p, st) && Remembered(st) && Earlier(st, |st.visits|) && NothingElseSeen(st) && AllExplained(p, st)
    ensures AllExplained(p, Walk(p, at, st).1)
    decreases p.graph.maxStageHops - |st.visits|
  {
    if Open(p, at, st) && at.value in p.graph.stages {
      var stage := p.graph.stages[at.value];
      VisitIsSound(p, stage, st);
      VisitPassesOverForCause(p, stage, st);
      var (end, after) := VisitStage(p, stage, st);
      VisitKeepsExplained(p, st, after);
      if end.Left? {
        var next := Completed(after, at.value, end.outcome);
        SameAttempts(p, after, next);
        CompletedIsExplained(p, st, after, at.value, end.outcome);
        WalkExplains(p, NextStage(p.graph, at.value, end.outcome), next);
      }
    }
  }

  /** In every run: a visit that was left while attempts remained has a router error on record, or is done with each
      candidate of its decision because it was tried, its route was tried in an earlier visit, its score is too low,
      its model is ruled out, or enough fitting candidates come before it. */
  lemma NoCandidateIsPassedOver(p: Call, v: nat)
    requires ValidGraph(p.graph)
    requires v < |Invoked(p).1.visits| && LeftRoom(p, Invoked(p).1, v)
    requires Invoked(p).1.visits[v].stage in p.graph.stages
    ensures Explained(p, p.graph.stages[Invoked(p).1.visits[v].stage], Invoked(p).1.attempts, v)
  {
    WalkExplains(p, Some(p.graph.entryStage), Start());
  }

  // ---- The loops ----

  method TryEach(p: Call, stage: Stage, candidates: seq<Candidate>, start: State) returns (end: StageEnd, st: State)
    ensures (end, st) == TryCandidates(p, stage, candidates, start, {}, NoRoute)
  {
    var stageOutcome := NoRoute;
    var stageModels: set<string> := {};
    st := start;
    var i := 0;
    while i < |candidates|
      invariant 0 <= i <= |candidates|
      invariant TryCandidates(p, stage, candidates[i..], st, stageModels, stageOutcome) ==
                TryCandidates(p, stage, candidates, start, {}, NoRoute)
    {
      if |st.attempts| >= p.maxAttempts {
        return Left(stageOutcome), st;
      }
      var candidate := candidates[i];
      assert candidates[i..][1..] == candidates[i + 1..];
      i := i + 1;
      if p.neverRepeatModel && candidate.modelKey in st.seenModels {
        continue;
      }
      if stage.distinctModels && candidate.modelKey in stageModels {
        continue;
      }
      var n, t := |st.attempts|, StageTask(p.task, stage);
      var reply := p.world.invoke(n, candidate, t);
      if reply.Raised? {
        return Stopped(Propagated(reply.error)), st;
      }
      stageModels := stageModels + {candidate.modelKey};
      stageOutcome :=
        if reply.Failed? then TransportFailed
        else if p.world.accepts(n, t, reply.result) then Accepted
        else QualityRejected;
      st := Recorded(st, stage, candidate, stageOutcome);
      if stageOutcome == Accepted {
        return Stopped(Result(reply.result)), st;
      }
    }
    return Left(stageOutcome), st;
  }

  method Invoke(p: Call) returns (verdict: Verdict, st: State)
    requires ValidGraph(p.graph)
    ensures (verdict, st) == Invoked(p)
    ensures Sound(p, st) && Reported(st) && HasFollowed(p.graph, st.visits) && Ended(p, verdict, st)
  {
    InvokeIsSound(p);
    st := Start();
    var stageId := Some(p.graph.entryStage);
    while stageId.Some? && |st.visits| < p.graph.maxStageHops
      invariant stageId.Some? ==> stageId.value in p.graph.stages
      invariant Walk(p, stageId, st) == Invoked(p)
      decreases p.graph.maxStageHops - |st.visits|
    {
      if |st.attempts| >= p.maxAttempts {
        break;
      }
      var stage := p.graph.stages[stageId.value];
      var outcome := NoRoute;
      match p.world.select(|st.visits|, StageTask(p.task, stage)) {
        case None =>
          st := st.(attempts := st.attempts + [RouterFailed(|st.visits|, stage.stageId)]);
        case Some(decision) =>
          var end, after := TryEach(p, stage, Shortlist(decision, stage, st.seenRoutes), st);
          if end.Stopped? {
            return end.verdict, after;
          }
          st := after;
          outcome := end.outcome;
      }
      NextStageIsKnown(p.graph, p.graph.transitions, stageId.value, outcome);
      st := Completed(st, stageId.value, outcome);
      stageId := NextStage(p.graph, stageId.value, outcome);
    }
    return Exhausted, st;
  }

  // ---- Without a policy graph ----

  /** A stage that takes every candidate and narrows nothing. */
  function Plain(maxCandidates: nat, minimum: real): Stage {
    Stage("", maxCandidates, None, None, None, minimum, false)
  }

  /** The graph of that stage alone. */
  function OneStage(p: Call, maxCandidates: nat, minimum: real): Call {
    p.(graph := Graph("", map["" := Plain(maxCandidates, minimum)], [], 1))
  }

  function Listed(d: Decision): seq<Candidate> {
    [d.selected] + d.alternatives
  }

  /** One pass over the candidates of one decision; None: the router raised. */
  function WithoutPolicy(p: Call): (Option<Verdict>, seq<Attempt>) {
    match p.world.select(0, p.task)
    case None => (None, [])
    case Some(d) =>
      match TryCandidates(p, Plain(1, 0.0), Listed(d), Start(), {}, NoRoute)
      case (Stopped(v), st) => (Some(v), st.attempts)
      case (Left(_), st) => (Some(Exhausted), st.attempts)
  }

  function Lowest(cs: seq<Candidate>): (x: real)
    ensures forall c | c in cs :: x <= c.totalScore
  {
    if cs == [] then 0.0
    else
      var x := Lowest(cs[1..]);
      assert forall c | c in cs :: c == cs[0] || c in cs[1..];
      if x < cs[0].totalScore then x else cs[0].totalScore
  }

  lemma {:induction false} AllEligible(cs: seq<Candidate>, minimum: real)
    requires forall c | c in cs :: minimum <= c.totalScore
    ensures Eligible(cs, {}, minimum) == cs
    decreases |cs|
  {
    if cs != [] {
      AllEligible(cs[1..], minimum);
      assert cs == [cs[0]] + cs[1..];
    }
  }

  /** Neither the graph nor a stage's limits are looked at while its candidates are tried. */
  lemma {:induction false} TryingIsPlain(p: Call, maxCandidates: nat, minimum: real, cs: seq<Candidate>, st: State,
                                         stageModels: set<string>, outcome: Outcome)
    ensures TryCandidates(OneStage(p, maxCandidates, minimum), Plain(maxCandidates, minimum), cs, st, stageModels,
                          outcome) ==
            TryCandidates(p, Plain(1, 0.0), cs, st, stageModels, outcome)
    decreases |cs|
  {
    if cs != [] && |st.attempts| < p.maxAttempts {
      var c, n, models := cs[0], |st.attempts|, stageModels + {cs[0].modelKey};
      if Skipped(p, Plain(1, 0.0), c, st, stageModels) {
        TryingIsPlain(p, maxCandidates, minimum, cs[1..], st, stageModels, outcome);
      } else {
        var o := OutcomeOf(p, n, c, p.task);
        TryingIsPlain(p, maxCandidates, minimum, cs[1..], Recorded(st, Plain(1, 0.0), c, o), models, o);
      }
    }
  }

  /** Without a policy graph, invoke does what it does with a graph of one stage that takes every candidate and
      narrows nothing; only an error of the router is not recorded as an attempt but raised. */
  lemma WithoutPolicyIsOneStage(p: Call, d: Decision)
    requires p.world.select(0, p.task) == Some(d)
    ensures var one := OneStage(p, |Listed(d)|, Lowest(Listed(d)));
            ValidGraph(one.graph) && WithoutPolicy(p) == (Some(Invoked(one).0), Invoked(one).1.attempts)
  {
    var cs := Listed(d);
    var n, lowest := |cs|, Lowest(cs);
    var one := OneStage(p, n, lowest);
    var stage := Plain(n, lowest);
    AllEligible(cs, lowest);
    TryingIsPlain(p, n, lowest, cs, Start(), {}, NoRoute);
    assert StageTask(p.task, stage) == p.task && Shortlist(d, stage, {}) == cs;
    if p.maxAttempts > 0 {
      var (end, after) := VisitStage(one, stage, Start());
      assert (end, after) == TryCandidates(p, Plain(1, 0.0), cs, Start(), {}, NoRoute);
      if end.Left? {
        assert NextStage(one.graph, "", end.outcome) == None;
        var last := Completed(after, "", end.outcome);
        assert Walk(one, None, last) == (Exhausted, last);
      }
    }
  }

  method InvokeWithoutPolicy(p: Call) returns (verdict: Option<Verdict>, attempts: seq<Attempt>)
    ensures (verdict, attempts) == WithoutPolicy(p)
  {
    var decision := p.world.select(0, p.task);
    if decision == None {
      return None, [];
    }
    var candidates := Listed(decision.value);
    var st := Start();
    ghost var stageModels: set<string> := {};
    ghost var outcome := NoRoute;
    var i := 0;
    while i < |candidates| && |st.attempts| < p.maxAttempts
      invariant 0 <= i <= |candidates|
      invariant TryCandidates(p, Plain(1, 0.0), candidates[i..], st, stageModels, outcome) ==
                TryCandidates(p, Plain(1, 0.0), candidates, Start(), {}, NoRoute)
    {
      var candidate, n := candidates[i], |st.attempts|;
      assert candidates[i..][1..] == candidates[i + 1..];
      i := i + 1;
      if !(p.neverRepeatModel && candidate.modelKey in st.seenModels) {
        var reply := p.world.invoke(n, candidate, p.task);
        if reply.Raised? {
          return Some(Propagated(reply.error)), st.attempts;
        }
        var o :=
          if reply.Failed? then TransportFailed
          else if p.world.accepts(n, p.task, reply.result) then Accepted
          else QualityRejected;
        st := Recorded(st, Plain(1, 0.0), candidate, o);
        if o == Accepted {
          return Some(Result(reply.result)), st.attempts;
        }
        stageModels, outcome := stageModels + {candidate.modelKey}, o;
      }
    }
    return Some(Exhausted), st.attempts;
  }
}
