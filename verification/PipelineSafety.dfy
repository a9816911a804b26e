/** What every run of a pipeline keeps: short-circuiting at any depth, and the action policy. */
module PipelineSafety {
  import opened Prelude
  import opened Pipeline

  // ---- short-circuiting ----

  predicate StopMark(e: Event) {
    e.Ended? && !e.status.OK?
  }

  /** The status of the stage that stopped the run recorded in `events`, OK if none did. */
  ghost predicate Stopped(events: Log, status: Status) {
    && (forall i :: 0 <= i < |events| && StopMark(events[i]) ==> i == |events| - 1)
    && (if status.OK? then events == [] || !StopMark(events[|events| - 1])
        else events != [] && events[|events| - 1].Ended? && events[|events| - 1].status == status)
  }

  ghost predicate Extends(before: Log, after: Log) {
    |before| <= |after| && after[..|before|] == before
  }

  lemma StoppedThen(a: Log, b: Log, c: Log, status: Status)
    requires Extends(a, b) && Extends(b, c)
    requires Stopped(b[|a|..], OK) && Stopped(c[|b|..], status)
    ensures Extends(a, c) && Stopped(c[|a|..], status)
  {
    assert c == a + b[|a|..] + c[|b|..];
    assert c[|a|..] == b[|a|..] + c[|b|..];
  }

  /** What a stage leaves behind: more log, stopped exactly as it returned. */
  ghost predicate LeavesBehind(r: Run<StepResult>, name: string, log: Log) {
    && Extends(log, r.log)
    && Stopped(r.log[|log|..], if r.result.Return? then r.result.value.status else OK)
    && (r.result.Return? ==> r.result.value.step == name)
  }

  lemma FinishStops(s: StepResult, before: Log, log: Log)
    requires Extends(before, log) && Stopped(log[|before|..], OK)
    ensures LeavesBehind(Finish(s, log), s.step, before)
  {
    assert Finish(s, log).log[|before|..] == log[|before|..] + [Ended(s.step, s.status)];
  }

  lemma CallStops(log: Log, call: Call)
    ensures var after := log + [Called(call)];
      Extends(log, after) && Stopped(after[|log|..], OK)
    ensures Extends(log, log) && Stopped(log[|log|..], OK)
  {
    assert (log + [Called(call)])[|log|..] == [Called(call)];
  }

  lemma ActStops(env: Env, step: Step, st: State, log: Log)
    requires step.Act?
    ensures LeavesBehind(RunLeaf(env, step, st, log), step.name, log)
  {
    forall call { CallStops(log, call); }
    forall s: StepResult, log' | Extends(log, log') && Stopped(log'[|log|..], OK)
      ensures LeavesBehind(Finish(s, log'), s.step, log)
    {
      FinishStops(s, log, log');
    }
  }

  lemma LeafStops(env: Env, step: Step, st: State, log: Log)
    requires !step.Route?
    ensures LeavesBehind(RunLeaf(env, step, st, log), step.name, log)
  {
    if step.Act? {
      ActStops(env, step, st, log);
    } else {
      forall call { CallStops(log, call); }
      forall s: StepResult, log' | Extends(log, log') && Stopped(log'[|log|..], OK)
        ensures LeavesBehind(Finish(s, log'), s.step, log)
      {
        FinishStops(s, log, log');
      }
    }
  }

  /** Once a stage at any depth has rejected, denied or halted, nothing at all follows it: it is
      the last event of the run, so no sink, model or human is called after it. A run that
      returns any status but OK has such an event and it carries that status; a run that
      completes or raises has none. */
  lemma {:induction false} StepStops(env: Env, step: Step, st: State, log: Log)
    ensures LeavesBehind(RunStep(env, step, st, log), step.name, log)
    decreases step, 0
  {
    if !step.Route? {
      LeafStops(env, step, st, log);
    } else {
      var key := Resolve(step.routes, step.default, step.select(st));
      if key.Some? {
        DriveStops(env, step.routes[key.value].steps, st, log);
      }
    }
  }

  lemma {:induction false} DriveStops(env: Env, steps: seq<Step>, st: State, log: Log)
    ensures var r := Drive(env, steps, st, log);
      && Extends(log, r.log)
      && Stopped(r.log[|log|..], if r.result.Return? then r.result.value.status else OK)
    decreases steps, 0
  {
    if steps != [] {
      var s := RunStep(env, steps[0], st, log);
      StepStops(env, steps[0], st, log);
      if s.result.Return? && s.result.value.status.OK? {
        var rest := Drive(env, steps[1..], s.result.value.state, s.log);
        DriveStops(env, steps[1..], s.result.value.state, s.log);
        StoppedThen(log, s.log, rest.log, if rest.result.Return? then rest.result.value.status else OK);
      }
    }
  }

  /** The outcomes of a run of `steps` from `st`: one per stage in order, all OK except possibly the
      last, whose status and state are the run's; OK exactly when every stage ran and was OK. */
  ghost predicate OutcomesMatch(d: Driven, steps: seq<Step>, st: State) {
    && |d.outcomes| <= |steps|
    && (forall i :: 0 <= i < |d.outcomes| ==> d.outcomes[i].step == steps[i].name)
    && (forall i :: 0 <= i < |d.outcomes| - 1 ==> d.outcomes[i].status.OK?)
    && (d.status.OK? <==> |d.outcomes| == |steps| && forall o :: o in d.outcomes ==> o.status.OK?)
    && (!d.status.OK? ==> d.outcomes != [] && d.outcomes[|d.outcomes| - 1].status == d.status)
    && d.state == if d.outcomes == [] then st else d.outcomes[|d.outcomes| - 1].state
  }

  lemma OutcomesCons(o: StepResult, rest: Driven, steps: seq<Step>)
    requires steps != [] && o.status.OK? && o.step == steps[0].name && OutcomesMatch(rest, steps[1..], o.state)
    ensures forall st :: OutcomesMatch(rest.(outcomes := [o] + rest.outcomes), steps, st)
  {
    var all := [o] + rest.outcomes;
    assert forall x :: x in all <==> x == o || x in rest.outcomes;
    forall i | 0 <= i < |all| ensures all[i].step == steps[i].name {
      if i > 0 { assert all[i] == rest.outcomes[i - 1] && steps[1..][i - 1] == steps[i]; }
    }
    assert rest.outcomes != [] ==> all[|all| - 1] == rest.outcomes[|rest.outcomes| - 1];
  }

  /** The recorded step results of every run are as they should be. */
  lemma {:induction false} DriveOutcomes(env: Env, steps: seq<Step>, st: State, log: Log)
    requires Drive(env, steps, st, log).result.Return?
    ensures OutcomesMatch(Drive(env, steps, st, log).result.value, steps, st)
    decreases steps
  {
    if steps != [] {
      StepStops(env, steps[0], st, log);
      var s := RunStep(env, steps[0], st, log);
      if s.result.value.status.OK? {
        DriveOutcomes(env, steps[1..], s.result.value.state, s.log);
        OutcomesCons(s.result.value, Drive(env, steps[1..], s.result.value.state, s.log).result.value, steps);
      }
    }
  }

  // ---- what a run leaves in the state ----

  /** A run changes no output but those named after stages of the tree it runs, and never the
      envelope. */
  lemma {:induction false} DriveKeeps(env: Env, steps: seq<Step>, st: State, log: Log, name: string)
    requires forall s :: s in steps ==> !MayWrite(s, name)
    ensures var r := Drive(env, steps, st, log).result;
      r.Return? ==> SameAt(r.value.state, st, name)
    decreases steps, 0
  {
    if steps != [] {
      var s := RunStep(env, steps[0], st, log);
      StepKeeps(env, steps[0], st, log, name);
      if s.result.Return? && s.result.value.status.OK? {
        DriveKeeps(env, steps[1..], s.result.value.state, s.log, name);
      }
    }
  }

  lemma {:induction false} StepKeeps(env: Env, step: Step, st: State, log: Log, name: string)
    requires !MayWrite(step, name)
    ensures var r := RunStep(env, step, st, log).result;
      r.Return? ==> SameAt(r.value.state, st, name)
    decreases step, 0
  {
    if step.Route? {
      var key := Resolve(step.routes, step.default, step.select(st));
      if key.Some? {
        DriveKeeps(env, step.routes[key.value].steps, st, log, name);
      }
    }
  }

  ghost predicate SameAt(s1: State, s2: State, name: string) {
    && s1.envelope == s2.envelope
    && (name in s1.outputs <==> name in s2.outputs)
    && (name in s1.outputs ==> s1.outputs[name] == s2.outputs[name])
  }

  /** Whether `step`, or a stage of a branch of it, is called `name`. */
  ghost predicate MayWrite(step: Step, name: string)
    decreases step, 0
  {
    step.name == name
    || (step.Route? && exists k | k in step.routes :: BranchMayWrite(step.routes[k], name))
  }

  ghost predicate BranchMayWrite(p: Pipe, name: string)
    decreases p, 0
  {
    exists s :: s in p.steps && MayWrite(s, name)
  }

  // ---- what stops a run ----

  /** The request's deadline passed before an answer. */
  predicate Expired(env: Env, human: string, request: ReviewRequest, log: Log) {
    var due := env.deadline(log, request);
    due == Return(Passed) || (due == Return(Pending) && !env.inTime(log, ReviewCall(human, request)))
  }

  /** A review whose deadline passes unanswered ends with the default the request declared, marked as
      such; any other ends as the human's own answer does. A deadline that has passed is never asked
      about, and without a deadline the human is always waited for. */
  lemma ReviewExact(env: Env, human: string, request: ReviewRequest, log: Log)
    ensures var r := ResolveReview(env, human, request, log);
      var call := ReviewCall(human, request);
      var due := env.deadline(log, request);
      && (r.log == log + [Called(call)] <==> due == Return(NoDeadline) || due == Return(Pending))
      && (r.log == log <==> due.Raise? || due == Return(Passed))
      && (due.Raise? ==> r.result == Raise(due.fault))
      && (Expired(env, human, request, log) ==>
            r.result == Return(ReviewOutcome(request.default.decision, None, ExpiryDefault)))
      && (due.Return? && !Expired(env, human, request, log) ==> r.result == env.answer(log, call))
  {
  }

  /** The code a normalizer or an operator answers with, if it answers with an error. */
  function ErrorOf(env: Env, step: Step, st: State, log: Log): Option<string> {
    match step
    case Normalize(_, op, bind) =>
      if bind(st).Return? then ErrorCode(env.reply(log, NormalizeCall(op, bind(st).value))) else None
    case Decide(_, op, bind, ctx) =>
      if bind(st).Return? && ctx(st).Return?
      then ErrorCode(env.reply(log, DecideCall(op, bind(st).value, ctx(st).value))) else None
    case _ => None
  }

  function ErrorCode(reply: Try<Reply>): Option<string> {
    if reply.Return? && reply.value.Err? then Some(reply.value.code) else None
  }

  /** An action that is refused, by the gate or by the sink itself, or that fails. */
  predicate ActionEnds(env: Env, step: Step, st: State, log: Log, status: ActionStatus) {
    && step.Act? && step.bind(st).Return? && step.auth(st).Return?
    && var result := Invoke(env, step.gate, step.sink, step.bind(st).value, step.auth(st).value, log).result;
    result.Return? && result.value.status == status
  }

  /** A stop: the human's own, or the declared default of a request that expired. */
  predicate ReviewStops(env: Env, step: Step, st: State, log: Log) {
    && step.Review? && step.ask(st).Return?
    && var request := step.ask(st).value;
    if Expired(env, step.human, request, log) then request.default.decision.Stop?
    else
      var answer := env.answer(log, ReviewCall(step.human, request));
      env.deadline(log, request).Return? && answer.Return? && answer.value.decision.Stop?
  }

  /** `out` holds what the stage's primitive answered to the input the stage binds. */
  ghost predicate Answered(env: Env, step: Step, st: State, log: Log, out: Value)
    requires !step.Route?
  {
    match step
    case Normalize(_, op, bind) =>
      bind(st).Return? && env.reply(log, NormalizeCall(op, bind(st).value)) == Return(Good(out))
    case Snapshot(_, op, bind) =>
      bind(st).Return? && env.snapshot(log, SnapshotCall(op, bind(st).value)) == Return(out)
    case Decide(_, op, bind, ctx) =>
      bind(st).Return? && ctx(st).Return?
      && env.reply(log, DecideCall(op, bind(st).value, ctx(st).value)) == Return(Good(out))
    case Model(_, op, bind, _) =>
      bind(st).Return? && out.ModelOutput? && env.infer(log, InferCall(op, bind(st).value)) == Return(out.result)
    case Review(_, human, ask) =>
      && ask(st).Return? && out.ReviewOutput?
      && if Expired(env, human, ask(st).value, log)
         then out.outcome == ReviewOutcome(ask(st).value.default.decision, None, ExpiryDefault)
         else env.answer(log, ReviewCall(human, ask(st).value)) == Return(out.outcome)
    case Act(_, sink, bind, gate, auth) =>
      && bind(st).Return? && auth(st).Return? && out.ActionOutput?
      && Invoke(env, gate, sink, bind(st).value, auth(st).value, log).result == Return(out.action)
  }

  /** Why a stage ends as it does: it rejects exactly when a normalizer or an operator answers with an
      error, leaving the state alone and giving the code; it is denied exactly when an action is
      refused; it halts exactly when an action fails or a review stops. Whatever does not reject
      changes the state by one output, under its own name: what the primitive answered. A model's
      output is accepted only as it may be. */
  lemma LeafReasons(env: Env, step: Step, st: State, log: Log)
    requires !step.Route? && RunLeaf(env, step, st, log).result.Return?
    ensures var r := RunLeaf(env, step, st, log).result.value;
      && (r.status.Rejected? <==> ErrorOf(env, step, st, log).Some?)
      && (r.status.Rejected? ==> r.state == st && r.detail == ErrorOf(env, step, st, log))
      && (r.status.Denied? <==> ActionEnds(env, step, st, log, Refused))
      && (r.status.Halted? <==> ActionEnds(env, step, st, log, Failed) || ReviewStops(env, step, st, log))
      && (!r.status.Rejected? ==>
            step.name in r.state.outputs && r.state == st.WithOutput(step.name, r.state.outputs[step.name]))
      && (!r.status.Rejected? ==> Answered(env, step, st, log, r.state.outputs[step.name]))
      && (r.status.OK? ==> r.detail.None?)
      && (r.status.Halted? && step.Review? ==> r.detail == Some("review:stop"))
      && (step.Act? && !r.status.OK? ==> r.detail == r.state.outputs[step.name].action.reason)
      && (step.Model? ==>
            && r.state.outputs[step.name].ModelOutput?
            && var out := r.state.outputs[step.name];
            && (out.result.status.Success? ==> out.disposition.Accept?)
            && (out.result.status.Unavailable? || out.result.status.Invalid? ==> out.disposition.Fallback?)
            && (out.result.status.Uncertain? ==>
                  (out.disposition.Accept? <==> step.acceptUncertain && out.result.output.Some?)))
  {
    if step.Review? && step.ask(st).Return? {
      ReviewExact(env, step.human, step.ask(st).value, log);
    }
  }

  // ---- when a stage returns ----

  /** The call a stage makes once its bindings return, or the fault of the first one that raises. */
  function OwnCall(step: Step, st: State): Try<Call>
    requires !step.Route?
  {
    match step
    case Normalize(_, op, bind) =>
      if bind(st).Raise? then Raise(bind(st).fault) else Return(NormalizeCall(op, bind(st).value))
    case Snapshot(_, op, bind) =>
      if bind(st).Raise? then Raise(bind(st).fault) else Return(SnapshotCall(op, bind(st).value))
    case Decide(_, op, bind, ctx) =>
      if bind(st).Raise? then Raise(bind(st).fault)
      else if ctx(st).Raise? then Raise(ctx(st).fault)
      else Return(DecideCall(op, bind(st).value, ctx(st).value))
    case Model(_, op, bind, _) =>
      if bind(st).Raise? then Raise(bind(st).fault) else Return(InferCall(op, bind(st).value))
    case Review(_, human, ask) =>
      if ask(st).Raise? then Raise(ask(st).fault) else Return(ReviewCall(human, ask(st).value))
    case Act(_, sink, bind, _, auth) =>
      if bind(st).Raise? then Raise(bind(st).fault)
      else if auth(st).Raise? then Raise(auth(st).fault)
      else Return(SinkCall(sink, bind(st).value, if auth(st).value.Some? then auth(st).value.value else AUTO_GRANT))
  }

  /** Whether the call is made: a human is not asked once the deadline has passed, and a sink is not
      called when the gate's policy refuses. */
  predicate Admitted(env: Env, step: Step, st: State, log: Log)
    requires !step.Route? && OwnCall(step, st).Return?
  {
    match step
    case Review(_, _, ask) =>
      var due := env.deadline(log, ask(st).value);
      due == Return(NoDeadline) || due == Return(Pending)
    case Act(_, sink, _, gate, auth) =>
      || (sink.descriptor.risk <= gate.autoGrantMax && !sink.descriptor.requiresApproval)
      || (auth(st).value.Some? && auth(st).value.value.approved)
    case _ => true
  }

  function FaultOf<T>(t: Try<T>): Option<string> {
    if t.Raise? then Some(t.fault) else None
  }

  /** The fault, if any, of the primitive a stage reaches. */
  function PrimitiveFault(env: Env, step: Step, st: State, log: Log): Option<string>
    requires !step.Route? && OwnCall(step, st).Return?
  {
    var call := OwnCall(step, st).value;
    match step
    case Normalize(_, _, _) => FaultOf(env.reply(log, call))
    case Decide(_, _, _, _) => FaultOf(env.reply(log, call))
    case Snapshot(_, _, _) => FaultOf(env.snapshot(log, call))
    case Model(_, _, _, _) => FaultOf(env.infer(log, call))
    case Review(_, human, ask) =>
      if env.deadline(log, ask(st).value).Raise? then FaultOf(env.deadline(log, ask(st).value))
      else if Expired(env, human, ask(st).value, log) then None
      else FaultOf(env.answer(log, call))
    case Act(_, _, _, _, _) => if Admitted(env, step, st, log) then FaultOf(env.act(log, call)) else None
  }

  /** A stage returns exactly when its bindings return and the primitive it reaches does; otherwise it
      raises the fault of the first that raised. The log grows by the stage's own call, if it is made,
      and then by the stage's end, if it returned. */
  lemma LeafExact(env: Env, step: Step, st: State, log: Log)
    requires !step.Route?
    ensures var r := RunLeaf(env, step, st, log);
      match OwnCall(step, st)
      case Raise(fault) => r == Run(Raise(fault), log)
      case Return(call) =>
        var calls := log + if Admitted(env, step, st, log) then [Called(call)] else [];
        match PrimitiveFault(env, step, st, log)
        case Some(fault) => r == Run(Raise(fault), calls)
        case None =>
          && r.result.Return? && r.result.value.step == step.name
          && r.log == calls + [Ended(step.name, r.result.value.status)]
  {
    assert log + [] == log;
    if step.Review? && step.ask(st).Return? {
      ReviewExact(env, step.human, step.ask(st).value, log);
    }
  }

  /** The stage `step` ends a run with `status`, and the reason. */
  predicate StopsWith(env: Env, step: Step, st: State, log: Log, status: Status) {
    match status
    case OK => false
    case Rejected =>
      ErrorOf(env, step, st, log).Some?
      || (step.Route? && Resolve(step.routes, step.default, step.select(st)).None?)
    case Denied => ActionEnds(env, step, st, log, Refused)
    case Halted => ActionEnds(env, step, st, log, Failed) || ReviewStops(env, step, st, log)
  }

  /** Running `steps` from `st` and `log` gets to the stage `inner`, at any depth, with state `at` and
      log `when`: all stages before it were OK, and every router around it selected its branch. */
  ghost predicate Reached(env: Env, steps: seq<Step>, st: State, log: Log, inner: Step, at: State, when: Log)
    decreases steps, 0
  {
    && steps != []
    && var s := RunStep(env, steps[0], st, log);
    || ReachedIn(env, steps[0], st, log, inner, at, when)
    || (s.result.Return? && s.result.value.status.OK?
        && Reached(env, steps[1..], s.result.value.state, s.log, inner, at, when))
  }

  ghost predicate ReachedIn(env: Env, step: Step, st: State, log: Log, inner: Step, at: State, when: Log)
    decreases step, 0
  {
    || (step == inner && st == at && log == when)
    || (step.Route?
        && var key := Resolve(step.routes, step.default, step.select(st));
        key.Some? && Reached(env, step.routes[key.value].steps, st, log, inner, at, when))
  }

  /** Run from `at` and `when`, the stage returns `status`, for one of its reasons, and leaves `end`. */
  ghost predicate Stopper(env: Env, step: Step, at: State, when: Log, status: Status, end: Log) {
    var r := RunStep(env, step, at, when);
    && StopsWith(env, step, at, when, status)
    && r.result.Return? && r.result.value.status == status && r.log == end
  }

  /** A run that stops was stopped by one stage of its tree, in the state and with the log it had when
      the run reached it: an error reply or a router without a branch rejects it, a refused action
      denies it, a failed action or a stop halts it. That stage returned the run's status, and nothing
      follows it. */
  lemma {:induction false} DriveStoppedBy(env: Env, steps: seq<Step>, st: State, log: Log)
    returns (culprit: Step, at: State, when: Log)
    requires var r := Drive(env, steps, st, log).result; r.Return? && !r.value.status.OK?
    ensures var r := Drive(env, steps, st, log);
      && Reached(env, steps, st, log, culprit, at, when) && Extends(log, when)
      && Stopper(env, culprit, at, when, r.result.value.status, r.log)
    decreases steps, 0
  {
    var s := RunStep(env, steps[0], st, log);
    if s.result.value.status.OK? {
      culprit, at, when := DriveStoppedBy(env, steps[1..], s.result.value.state, s.log);
      StepStops(env, steps[0], st, log);
    } else {
      culprit, at, when := StepStoppedBy(env, steps[0], st, log);
    }
  }

  lemma {:induction false} StepStoppedBy(env: Env, step: Step, st: State, log: Log)
    returns (culprit: Step, at: State, when: Log)
    requires var r := RunStep(env, step, st, log).result; r.Return? && !r.value.status.OK?
    ensures var r := RunStep(env, step, st, log);
      && ReachedIn(env, step, st, log, culprit, at, when) && Extends(log, when)
      && Stopper(env, culprit, at, when, r.result.value.status, r.log)
    decreases step, 0
  {
    culprit, at, when := step, st, log;
    if !step.Route? {
      LeafReasons(env, step, st, log);
    } else {
      var key := Resolve(step.routes, step.default, step.select(st));
      if key.Some? {
        culprit, at, when := DriveStoppedBy(env, step.routes[key.value].steps, st, log);
      }
    }
  }

  /** A run that raises does so in a stage it reached, with the fault and the log of that stage. */
  lemma {:induction false} DriveRaises(env: Env, steps: seq<Step>, st: State, log: Log)
    returns (culprit: Step, at: State, when: Log)
    requires Drive(env, steps, st, log).result.Raise?
    ensures var r := Drive(env, steps, st, log);
      && Reached(env, steps, st, log, culprit, at, when) && !culprit.Route?
      && RunLeaf(env, culprit, at, when) == Run(Raise(r.result.fault), r.log)
    decreases steps, 0
  {
    var s := RunStep(env, steps[0], st, log);
    if s.result.Return? {
      culprit, at, when := DriveRaises(env, steps[1..], s.result.value.state, s.log);
    } else {
      culprit, at, when := StepRaises(env, steps[0], st, log);
    }
  }

  lemma {:induction false} StepRaises(env: Env, step: Step, st: State, log: Log)
    returns (culprit: Step, at: State, when: Log)
    requires RunStep(env, step, st, log).result.Raise?
    ensures var r := RunStep(env, step, st, log);
      && ReachedIn(env, step, st, log, culprit, at, when) && !culprit.Route?
      && RunLeaf(env, culprit, at, when) == Run(Raise(r.result.fault), r.log)
    decreases step, 0
  {
    culprit, at, when := step, st, log;
    if step.Route? {
      var key := Resolve(step.routes, step.default, step.select(st));
      culprit, at, when := DriveRaises(env, step.routes[key.value].steps, st, log);
    }
  }

  /** And a stage that is reached and raises, or stops, ends the run as it ends. */
  lemma {:induction false} ReachedEnds(env: Env, steps: seq<Step>, st: State, log: Log, inner: Step, at: State,
                                       when: Log)
    requires Reached(env, steps, st, log, inner, at, when)
    ensures EndsAlike(RunStep(env, inner, at, when), Drive(env, steps, st, log))
    decreases steps, 0
  {
    if ReachedIn(env, steps[0], st, log, inner, at, when) {
      ReachedEndsStep(env, steps[0], st, log, inner, at, when);
    } else {
      var s := RunStep(env, steps[0], st, log);
      ReachedEnds(env, steps[1..], s.result.value.state, s.log, inner, at, when);
    }
  }

  lemma {:induction false} ReachedEndsStep(env: Env, step: Step, st: State, log: Log, inner: Step, at: State, when: Log)
    requires ReachedIn(env, step, st, log, inner, at, when)
    ensures var r, s := RunStep(env, inner, at, when), RunStep(env, step, st, log);
      && (r.result.Raise? ==> s == Run(Raise(r.result.fault), r.log))
      && (r.result.Return? && !r.result.value.status.OK? ==>
            s.result.Return? && s.result.value.status == r.result.value.status && s.log == r.log)
    decreases step, 0
  {
    if !(step == inner && st == at && log == when) {
      var key := Resolve(step.routes, step.default, step.select(st));
      ReachedEnds(env, step.routes[key.value].steps, st, log, inner, at, when);
    }
  }

  /** If the stage raised, so did the run; if it stopped, so did the run, with its status; in either
      case nothing was done afterwards. */
  predicate EndsAlike(r: Run<StepResult>, d: Run<Driven>) {
    && (r.result.Raise? ==> d == Run(Raise(r.result.fault), r.log))
    && (r.result.Return? && !r.result.value.status.OK? ==>
          d.result.Return? && d.result.value.status == r.result.value.status && d.log == r.log)
  }

  /** The result of a whole run: under the pipeline's name, completed exactly when every stage ran and
      was OK, with one outcome for each stage that ran, starting from no outputs; it raises exactly
      when its stages do. */
  lemma RunExact(env: Env, p: Pipe, envelope: string, log: Log)
    ensures var r, d := RunPipeline(env, p, envelope, log), Drive(env, p.steps, State(envelope, map[]), log);
      && r.log == d.log && (r.result.Raise? <==> d.result.Raise?)
      && (r.result.Raise? ==> r.result.fault == d.result.fault)
      && (r.result.Return? ==>
            var v := r.result.value;
            && v.pipeline == p.name
            && OutcomesMatch(Driven(v.status, v.steps, v.state), p.steps, State(envelope, map[]))
            && (v.completed <==> v.status.OK?)
            && (v.completed <==> |v.steps| == |p.steps| && forall o :: o in v.steps ==> o.status.OK?))
  {
    if Drive(env, p.steps, State(envelope, map[]), log).result.Return? {
      DriveOutcomes(env, p.steps, State(envelope, map[]), log);
    }
  }

  // ---- routers ----

  /** A router runs the branch its selector names, or else its default; it reports that branch's
      status and one outcome for each of its stages that ran. Without a branch it rejects. */
  lemma RouterRecord(env: Env, step: Step, st: State, log: Log)
    requires step.Route? && RunStep(env, step, st, log).result.Return?
    ensures var r := RunStep(env, step, st, log).result.value;
      var wanted := step.select(st);
      && step.name in r.state.outputs && r.state.outputs[step.name].RouteOutcome?
      && var record := r.state.outputs[step.name];
      if wanted !in step.routes && (step.default.None? || step.default.value !in step.routes)
      then
        && r.status == Rejected && record == RouteOutcome(wanted, [])
        && r.detail == Some("no route for '" + wanted + "'")
      else
        && (wanted in step.routes ==> record.key == wanted)
        && (wanted !in step.routes ==> Some(record.key) == step.default)
        && record.key in step.routes
        && var branch := step.routes[record.key].steps;
        && |record.steps| <= |branch|
        && (forall i :: 0 <= i < |record.steps| ==> record.steps[i].step == branch[i].name)
        && (r.status.OK? <==> |record.steps| == |branch| && forall o :: o in record.steps ==> o.status.OK?)
        && (!r.status.OK? ==> record.steps != [] && record.steps[|record.steps| - 1].status == r.status)
        && var ran := Drive(env, branch, st, log).result;
        && ran.Return? && record.steps == ran.value.outcomes
        && (r.status.OK? ==> r.detail.None?)
        && (!r.status.OK? ==>
              var why := record.steps[|record.steps| - 1].detail;
              r.detail == Some(if why.None? || why.value == "" then record.key else record.key + ":" + why.value))
  {
    var key := Resolve(step.routes, step.default, step.select(st));
    if key.Some? {
      DriveOutcomes(env, step.routes[key.value].steps, st, log);
    }
  }

  // ---- the gate ----

  /** The gate calls the sink exactly when the action's risk is within the gate's level and needs no
      approval, or an approved authorization is supplied: with the supplied authorization, or the
      system grant if there is none. Otherwise it answers `Refused` and nothing happens. */
  lemma GateExact(env: Env, gate: Gate, sink: Sink, input: Value, auth: Option<Authorization>, log: Log)
    ensures var r := Invoke(env, gate, sink, input, auth, log);
      var d := sink.descriptor;
      if (d.risk <= gate.autoGrantMax && !d.requiresApproval) || (auth.Some? && auth.value.approved)
      then exists a :: && r.log == log + [Called(SinkCall(sink, input, a))]
                       && (if auth.Some? then a == auth.value else a == AUTO_GRANT && a.approved)
                       && r.result == env.act(log, SinkCall(sink, input, a))
      else r.log == log && r.result == Return(ActionResult(Refused, None,
             Some("action '" + d.actionId + "' at risk " + ["R0", "R1", "R2", "R3"][d.risk]
                  + " requires an approved authorization")))
  {
    var a := if auth.Some? then auth.value else AUTO_GRANT;
    assert Called(SinkCall(sink, input, a)).call.auth == a;
  }

  /** Every action stage, at any depth, and every nested pipeline carries `gate`. */
  ghost predicate GovernedStep(step: Step, gate: Gate)
    decreases step, 0
  {
    match step
    case Act(_, _, _, g, _) => g == gate
    case Route(_, _, routes, _) => forall k :: k in routes ==> GovernedPipe(routes[k], gate)
    case _ => true
  }

  ghost predicate GovernedPipe(p: Pipe, gate: Gate)
    decreases p, 0
  {
    p.gate == gate && forall s :: s in p.steps ==> GovernedStep(s, gate)
  }

  ghost predicate Permitted(gate: Gate, e: Event) {
    e.Called? && e.call.SinkCall?
    && (e.call.sink.descriptor.risk > gate.autoGrantMax || e.call.sink.descriptor.requiresApproval) ==>
      e.call.auth.approved
  }

  /** No sink above the gate's auto-grant level, and none that requires approval, is ever invoked
      without an approved authorization: in every run, at any depth. */
  lemma {:induction false} StepPermitted(env: Env, gate: Gate, step: Step, st: State, log: Log)
    requires GovernedStep(step, gate)
    ensures var r := RunStep(env, step, st, log);
      Extends(log, r.log) && forall i :: |log| <= i < |r.log| ==> Permitted(gate, r.log[i])
    decreases step, 0
  {
    StepStops(env, step, st, log);
    if step.Route? {
      var key := Resolve(step.routes, step.default, step.select(st));
      if key.Some? {
        assert GovernedPipe(step.routes[key.value], gate);
        DrivePermitted(env, gate, step.routes[key.value].steps, st, log);
      }
    }
  }

  lemma {:induction false} DrivePermitted(env: Env, gate: Gate, steps: seq<Step>, st: State, log: Log)
    requires forall s :: s in steps ==> GovernedStep(s, gate)
    ensures var r := Drive(env, steps, st, log);
      Extends(log, r.log) && forall i :: |log| <= i < |r.log| ==> Permitted(gate, r.log[i])
    decreases steps, 0
  {
    if steps != [] {
      var s := RunStep(env, steps[0], st, log);
      StepPermitted(env, gate, steps[0], st, log);
      if s.result.Return? && s.result.value.status.OK? {
        DrivePermitted(env, gate, steps[1..], s.result.value.state, s.log);
        var r := Drive(env, steps, st, log);
        forall i | |log| <= i < |r.log| ensures Permitted(gate, r.log[i]) {
          if i < |s.log| { assert r.log[..|s.log|][i] == s.log[i]; }
        }
      }
    }
  }
}
