/** The declarative pipeline: a tree language of stages, its interpreter, and the action gate.
    Every call into an SPI primitive is appended to a log, and every reply is a function of the
    whole log so far, so the environment may answer differently each time it is asked. */
module Pipeline {
  import opened Prelude

  datatype Status = OK | Rejected | Denied | Halted

  // ---- values threaded through the stages ----

  datatype ModelStatus = Success | Uncertain | Unavailable | Invalid
  datatype ModelResult = ModelResult(status: ModelStatus, output: Option<string>)
  datatype Disposition = Accept | Fallback

  datatype Decision = Stop | Escalate | Continue | Selected
  datatype DecisionSource = Human | ExpiryDefault
  datatype ReviewOutcome = ReviewOutcome(decision: Decision, choice: Option<string>, source: DecisionSource)
  datatype DefaultAction = OnExpiry(decision: Decision)
  datatype ReviewRequest = ReviewRequest(title: string, default: DefaultAction, expiresAt: Option<string>)

  type Risk = r: nat | r <= 3
  datatype Descriptor = Descriptor(actionId: string, risk: Risk, requiresApproval: bool)
  datatype Sink = Sink(id: string, descriptor: Descriptor)
  datatype Authorization = Authorization(operator: string, reason: string, approved: bool)
  datatype ActionStatus = Performed | Refused | Failed
  datatype ActionResult = ActionResult(status: ActionStatus, output: Option<string>, reason: Option<string>)

  datatype Value =
    | Plain(text: string)
    | Request(request: ReviewRequest)
    | ModelOutput(result: ModelResult, disposition: Disposition)
    | ReviewOutput(outcome: ReviewOutcome)
    | ActionOutput(action: ActionResult)
    | RouteOutcome(key: string, steps: seq<StepResult>)

  datatype State = State(envelope: string, outputs: map<string, Value>) {
    function WithOutput(name: string, value: Value): State {
      this.(outputs := outputs[name := value])
    }
  }

  datatype StepResult = StepResult(step: string, status: Status, state: State, detail: Option<string>)

  // ---- stages and pipelines ----

  /** A binding may raise, for instance by reading an output that is not there. */
  type Binding<+T> = State -> Try<T>

  datatype Gate = Gate(autoGrantMax: Risk)

  datatype Step =
    | Normalize(name: string, normalizer: string, bind: Binding<Value>)
    | Snapshot(name: string, provider: string, bind: Binding<Value>)
    | Decide(name: string, operator: string, bind: Binding<Value>, ctx: Binding<Value>)
    | Model(name: string, operator: string, bind: Binding<Value>, acceptUncertain: bool)
    | Review(name: string, human: string, ask: Binding<ReviewRequest>)
    | Act(name: string, sink: Sink, bind: Binding<Value>, gate: Gate, auth: Binding<Option<Authorization>>)
    | Route(name: string, select: State -> string, routes: map<string, Pipe>, default: Option<string>)

  datatype Pipe = Pipe(name: string, steps: seq<Step>, gate: Gate)

  // ---- the outside world ----

  datatype Call =
    | NormalizeCall(normalizer: string, input: Value)
    | SnapshotCall(provider: string, input: Value)
    | DecideCall(operator: string, input: Value, ctx: Value)
    | InferCall(operator: string, input: Value)
    | ReviewCall(human: string, request: ReviewRequest)
    | SinkCall(sink: Sink, input: Value, auth: Authorization)

  /** `Ended` marks the point where a stage other than a router returned, or where a router
      found no branch to run. */
  datatype Event = Called(call: Call) | Ended(name: string, status: Status)

  type Log = seq<Event>

  datatype Reply = Good(value: Value) | Err(code: string)
  datatype Deadline = NoDeadline | Passed | Pending

  datatype Env = Env(
    reply: (Log, Call) -> Try<Reply>,
    snapshot: (Log, Call) -> Try<Value>,
    infer: (Log, Call) -> Try<ModelResult>,
    deadline: (Log, ReviewRequest) -> Try<Deadline>,
    inTime: (Log, Call) -> bool,
    answer: (Log, Call) -> Try<ReviewOutcome>,
    act: (Log, Call) -> Try<ActionResult>)

  /** The result of running something, with the log it leaves behind. */
  datatype Run<+T> = Run(result: Try<T>, log: Log)

  datatype Driven = Driven(status: Status, outcomes: seq<StepResult>, state: State)

  // ---- the action gate ----

  const AUTO_GRANT_MAX: Risk := 1
  const AUTO_GRANT := Authorization("system", "auto-grant: R0/R1 within policy", true)

  predicate AutoGrantable(gate: Gate, d: Descriptor) {
    d.risk <= gate.autoGrantMax && !d.requiresApproval
  }

  function RiskName(r: Risk): string {
    ["R0", "R1", "R2", "R3"][r]
  }

  function InvokeSink(env: Env, sink: Sink, input: Value, auth: Authorization, log: Log): Run<ActionResult> {
    var call := SinkCall(sink, input, auth);
    Run(env.act(log, call), log + [Called(call)])
  }

  function Invoke(env: Env, gate: Gate, sink: Sink, input: Value, auth: Option<Authorization>, log: Log)
    : Run<ActionResult>
  {
    if AutoGrantable(gate, sink.descriptor) then
      InvokeSink(env, sink, input, if auth.Some? then auth.value else AUTO_GRANT, log)
    else if auth.None? || !auth.value.approved then
      Run(Return(ActionResult(Refused, None,
                              Some("action '" + sink.descriptor.actionId + "' at risk "
                                   + RiskName(sink.descriptor.risk)
                                   + " requires an approved authorization"))), log)
    else
      InvokeSink(env, sink, input, auth.value, log)
  }

  // ---- single stages ----

  function ModelDisposition(r: ModelResult, acceptUncertain: bool): Disposition {
    if r.status.Success? then Accept
    else if r.status.Uncertain? && acceptUncertain && r.output.Some? then Accept
    else Fallback
  }

  /** A review with a deadline: the human's answer, or the request's own default once the
      deadline has passed. A deadline already passed is resolved without asking. */
  function ResolveReview(env: Env, human: string, request: ReviewRequest, log: Log): Run<ReviewOutcome> {
    var expired := ReviewOutcome(request.default.decision, None, ExpiryDefault);
    var call := ReviewCall(human, request);
    match env.deadline(log, request)
    case Raise(f) => Run(Raise(f), log)
    case Return(Passed) => Run(Return(expired), log)
    case Return(NoDeadline) => Run(env.answer(log, call), log + [Called(call)])
    case Return(Pending) =>
      Run(if env.inTime(log, call) then env.answer(log, call) else Return(expired), log + [Called(call)])
  }

  function Finish(step: StepResult, log: Log): Run<StepResult> {
    Run(Return(step), log + [Ended(step.step, step.status)])
  }

  /** Calls a primitive that answers with a value or an error code. */
  function RunPlain(env: Env, name: string, call: Call, st: State, log: Log): Run<StepResult> {
    var log' := log + [Called(call)];
    match env.reply(log, call)
    case Raise(f) => Run(Raise(f), log')
    case Return(Err(code)) => Finish(StepResult(name, Rejected, st, Some(code)), log')
    case Return(Good(v)) => Finish(StepResult(name, OK, st.WithOutput(name, v), None), log')
  }

  function RunLeaf(env: Env, step: Step, st: State, log: Log): Run<StepResult>
    requires !step.Route?
  {
    match step
    case Normalize(name, op, bind) =>
      (match bind(st)
       case Raise(f) => Run(Raise(f), log)
       case Return(input) => RunPlain(env, name, NormalizeCall(op, input), st, log))
    case Snapshot(name, op, bind) =>
      (match bind(st)
       case Raise(f) => Run(Raise(f), log)
       case Return(input) =>
         var call := SnapshotCall(op, input);
         var log' := log + [Called(call)];
         match env.snapshot(log, call)
         case Raise(f) => Run(Raise(f), log')
         case Return(v) => Finish(StepResult(name, OK, st.WithOutput(name, v), None), log'))
    case Decide(name, op, bind, ctx) =>
      (match bind(st)
       case Raise(f) => Run(Raise(f), log)
       case Return(input) =>
         match ctx(st)
         case Raise(f) => Run(Raise(f), log)
         case Return(c) => RunPlain(env, name, DecideCall(op, input, c), st, log))
    case Model(name, op, bind, acceptUncertain) =>
      (match bind(st)
       case Raise(f) => Run(Raise(f), log)
       case Return(input) =>
         var call := InferCall(op, input);
         var log' := log + [Called(call)];
         match env.infer(log, call)
         case Raise(f) => Run(Raise(f), log')
         case Return(r) =>
           var out := ModelOutput(r, ModelDisposition(r, acceptUncertain));
           Finish(StepResult(name, OK, st.WithOutput(name, out), None), log'))
    case Review(name, human, ask) =>
      (match ask(st)
       case Raise(f) => Run(Raise(f), log)
       case Return(request) =>
         var r := ResolveReview(env, human, request, log);
         match r.result
         case Raise(f) => Run(Raise(f), r.log)
         case Return(outcome) =>
           var advanced := st.WithOutput(name, ReviewOutput(outcome));
           if outcome.decision.Stop?
           then Finish(StepResult(name, Halted, advanced, Some("review:stop")), r.log)
           else Finish(StepResult(name, OK, advanced, None), r.log))
    case Act(name, sink, bind, gate, auth) =>
      (match bind(st)
       case Raise(f) => Run(Raise(f), log)
       case Return(input) =>
         match auth(st)
         case Raise(f) => Run(Raise(f), log)
         case Return(a) =>
           var r := Invoke(env, gate, sink, input, a, log);
           match r.result
           case Raise(f) => Run(Raise(f), r.log)
           case Return(result) =>
             var advanced := st.WithOutput(name, ActionOutput(result));
             if result.status.Refused? then Finish(StepResult(name, Denied, advanced, result.reason), r.log)
             else if result.status.Failed? then Finish(StepResult(name, Halted, advanced, result.reason), r.log)
             else Finish(StepResult(name, OK, advanced, None), r.log))
  }

  // ---- the fold and the router ----

  function Resolve(routes: map<string, Pipe>, default: Option<string>, key: string): (k: Option<string>)
    ensures k.Some? ==> k.value in routes
  {
    if key in routes then Some(key)
    else if default.Some? && default.value in routes then default
    else None
  }

  function DeadEnd(name: string, key: string, st: State): StepResult {
    StepResult(name, Rejected, st.WithOutput(name, RouteOutcome(key, [])), Some("no route for '" + key + "'"))
  }

  /** How a router reports the branch `key` it ran. */
  function RouterResult(name: string, key: string, d: Driven): StepResult {
    var advanced := d.state.WithOutput(name, RouteOutcome(key, d.outcomes));
    if d.status.OK? then StepResult(name, OK, advanced, None)
    else
      var tail := if d.outcomes == [] then None else d.outcomes[|d.outcomes| - 1].detail;
      StepResult(name, d.status, advanced,
                 Some(if tail.Some? && tail.value != "" then key + ":" + tail.value else key))
  }

  function RunStep(env: Env, step: Step, st: State, log: Log): Run<StepResult>
    decreases step, 0
  {
    if !step.Route? then RunLeaf(env, step, st, log)
    else
      var key := step.select(st);
      match Resolve(step.routes, step.default, key)
      case None => Finish(DeadEnd(step.name, key, st), log)
      case Some(k) =>
        var r := Drive(env, step.routes[k].steps, st, log);
        match r.result
        case Raise(f) => Run(Raise(f), r.log)
        case Return(d) => Run(Return(RouterResult(step.name, k, d)), r.log)
  }

  function Prepend(done: seq<StepResult>, r: Run<Driven>): Run<Driven> {
    match r.result
    case Raise(_) => r
    case Return(d) => Run(Return(d.(outcomes := done + d.outcomes)), r.log)
  }

  lemma PrependTwice(a: seq<StepResult>, b: seq<StepResult>, r: Run<Driven>)
    ensures Prepend([], r) == r
    ensures Prepend(a, Prepend(b, r)) == Prepend(a + b, r)
  {
    if r.result.Return? {
      assert [] + r.result.value.outcomes == r.result.value.outcomes;
      assert a + (b + r.result.value.outcomes) == a + b + r.result.value.outcomes;
    }
  }

  /** The short-circuiting fold over a list of stages. */
  function Drive(env: Env, steps: seq<Step>, st: State, log: Log): Run<Driven>
    decreases steps, 0
  {
    if steps == [] then Run(Return(Driven(OK, [], st)), log)
    else
      var r := RunStep(env, steps[0], st, log);
      match r.result
      case Raise(f) => Run(Raise(f), r.log)
      case Return(o) =>
        if !o.status.OK? then Run(Return(Driven(o.status, [o], o.state)), r.log)
        else Prepend([o], Drive(env, steps[1..], o.state, r.log))
  }

  datatype PipelineResult = PipelineResult(pipeline: string, completed: bool, status: Status,
                                           steps: seq<StepResult>, state: State)

  function RunPipeline(env: Env, p: Pipe, envelope: string, log: Log): Run<PipelineResult> {
    var r := Drive(env, p.steps, State(envelope, map[]), log);
    match r.result
    case Raise(f) => Run(Raise(f), r.log)
    case Return(d) => Run(Return(PipelineResult(p.name, d.status.OK?, d.status, d.outcomes, d.state)), r.log)
  }

  // ---- the fold as the loop it is, with the router calling back into it ----

  method DriveSteps(env: Env, steps: seq<Step>, state: State, before: Log) returns (r: Run<Driven>)
    ensures r == Drive(env, steps, state, before)
    decreases steps, 0
  {
    var outcomes: seq<StepResult> := [];
    var st, log := state, before;
    assert steps[0..] == steps;
    PrependTwice([], [], Drive(env, steps, state, before));
    for i := 0 to |steps|
      invariant Drive(env, steps, state, before) == Prepend(outcomes, Drive(env, steps[i..], st, log))
    {
      assert steps[i..][1..] == steps[i + 1..];
      var s := RunOne(env, steps[i], st, log);
      log := s.log;
      if s.result.Raise? {
        return Run(Raise(s.result.fault), log);
      }
      var outcome := s.result.value;
      PrependTwice(outcomes, [outcome], Drive(env, steps[i + 1..], outcome.state, log));
      outcomes := outcomes + [outcome];
      st := outcome.state;
      if !outcome.status.OK? {
        return Run(Return(Driven(outcome.status, outcomes, st)), log);
      }
    }
    assert steps[|steps|..] == [] && outcomes + [] == outcomes;
    return Run(Return(Driven(OK, outcomes, st)), log);
  }

  method RunOne(env: Env, step: Step, st: State, log: Log) returns (r: Run<StepResult>)
    ensures r == RunStep(env, step, st, log)
    decreases step, 0
  {
    if !step.Route? {
      return RunLeaf(env, step, st, log);
    }
    var key := step.select(st);
    if key !in step.routes {
      if step.default.None? || step.default.value !in step.routes {
        return Finish(DeadEnd(step.name, key, st), log);
      }
      key := step.default.value;
    }
    var d := DriveSteps(env, step.routes[key].steps, st, log);
    match d.result {
      case Raise(f) => r := Run(Raise(f), d.log);
      case Return(driven) => r := Run(Return(RouterResult(step.name, key, driven)), d.log);
    }
  }
}
