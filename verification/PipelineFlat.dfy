/** Running a tree of nested routers is running a flat work list, in which a router is replaced by
    the stages of the branch it selects. */
module PipelineFlat {
  import opened Prelude
  import opened Pipeline

  // ---- termination: the number of stages in the whole tree ----

  ghost function Size(step: Step): nat
    decreases step, 0
  {
    if step.Route? then 1 + RoutesSize(step, step.routes.Keys) else 1
  }

  ghost function RoutesSize(step: Step, keys: set<string>): nat
    requires step.Route? && keys <= step.routes.Keys
    decreases step, 0, keys
  {
    if keys == {} then 0
    else var k := AnyOf(keys); Weight(step.routes[k].steps) + RoutesSize(step, keys - {k})
  }

  ghost function Weight(steps: seq<Step>): nat
    decreases steps, 0
  {
    if steps == [] then 0 else Size(steps[0]) + Weight(steps[1..])
  }

  lemma WeightSum(a: seq<Step>, b: seq<Step>)
    ensures Weight(a + b) == Weight(a) + Weight(b)
  {
    if a == [] {
      assert a + b == b;
    } else {
      assert (a + b)[1..] == a[1..] + b;
      WeightSum(a[1..], b);
    }
  }

  lemma BranchWeight(step: Step, key: string, keys: set<string>)
    requires step.Route? && keys <= step.routes.Keys && key in keys
    ensures Weight(step.routes[key].steps) <= RoutesSize(step, keys)
    decreases keys
  {
    var k := AnyOf(keys);
    if k != key {
      BranchWeight(step, key, keys - {k});
    }
  }

  lemma BranchSmaller(work: seq<Step>, key: string)
    requires work != [] && work[0].Route? && key in work[0].routes
    ensures Weight(work[0].routes[key].steps + work[1..]) < Weight(work)
  {
    WeightSum(work[0].routes[key].steps, work[1..]);
    BranchWeight(work[0], key, work[0].routes.Keys);
  }

  lemma RestSmaller(work: seq<Step>)
    requires work != []
    ensures Weight(work[1..]) < Weight(work)
  {
    assert Size(work[0]) >= 1;
  }

  // ---- the work-list machine ----

  datatype Outcome = Outcome(status: Status, state: State)

  /** Takes the next stage off the list; a router only pushes the stages of its branch and leaves
      no output of its own. */
  function Flat(env: Env, work: seq<Step>, st: State, log: Log): Run<Outcome>
    decreases Weight(work)
  {
    if work == [] then Run(Return(Outcome(OK, st)), log)
    else if work[0].Route? then
      match Resolve(work[0].routes, work[0].default, work[0].select(st))
      case None => Run(Return(Outcome(Rejected, st)), log + [Ended(work[0].name, Rejected)])
      case Some(key) =>
        BranchSmaller(work, key);
        Flat(env, work[0].routes[key].steps + work[1..], st, log)
    else
      var r := RunLeaf(env, work[0], st, log);
      match r.result
      case Raise(f) => Run(Raise(f), r.log)
      case Return(o) =>
        RestSmaller(work);
        if o.status.OK? then Flat(env, work[1..], o.state, r.log)
        else Run(Return(Outcome(o.status, o.state)), r.log)
  }

  // ---- the simulation ----

  /** The same outputs under every name outside `hidden`. */
  predicate Agree(s1: State, s2: State, hidden: set<string>) {
    s1.envelope == s2.envelope && s1.outputs - hidden == s2.outputs - hidden
  }

  ghost predicate Blind<T(!new)>(bind: Binding<T>, hidden: set<string>) {
    forall s1, s2 :: Agree(s1, s2, hidden) ==> bind(s1) == bind(s2)
  }

  /** No binding at any depth reads a name in `hidden`, and every router's own name is hidden. */
  ghost predicate ReadsNoRouter(step: Step, hidden: set<string>)
    decreases step, 0
  {
    match step
    case Normalize(_, _, bind) => Blind(bind, hidden)
    case Snapshot(_, _, bind) => Blind(bind, hidden)
    case Decide(_, _, bind, ctx) => Blind(bind, hidden) && Blind(ctx, hidden)
    case Model(_, _, bind, _) => Blind(bind, hidden)
    case Review(_, _, ask) => Blind(ask, hidden)
    case Act(_, _, bind, _, auth) => Blind(bind, hidden) && Blind(auth, hidden)
    case Route(name, select, routes, _) =>
      && name in hidden
      && (forall s1, s2 :: Agree(s1, s2, hidden) ==> select(s1) == select(s2))
      && forall k :: k in routes ==> AllReadNoRouter(routes[k].steps, hidden)
  }

  ghost predicate AllReadNoRouter(steps: seq<Step>, hidden: set<string>)
    decreases steps, 0
  {
    forall s :: s in steps ==> ReadsNoRouter(s, hidden)
  }

  lemma AgreeAfter(s1: State, s2: State, hidden: set<string>, name: string, v: Value)
    requires Agree(s1, s2, hidden)
    ensures Agree(s1.WithOutput(name, v), s2.WithOutput(name, v), hidden)
    ensures name in hidden ==> Agree(s1.WithOutput(name, v), s2, hidden)
  {
    After(s1.outputs, hidden, name, v);
    After(s2.outputs, hidden, name, v);
  }

  lemma After(m: map<string, Value>, hidden: set<string>, name: string, v: Value)
    ensures m[name := v] - hidden == if name in hidden then m - hidden else (m - hidden)[name := v]
  {
  }

  lemma LeafAgrees(env: Env, step: Step, s1: State, s2: State, hidden: set<string>, log: Log)
    requires !step.Route? && ReadsNoRouter(step, hidden) && Agree(s1, s2, hidden)
    ensures var r1, r2 := RunLeaf(env, step, s1, log), RunLeaf(env, step, s2, log);
      && r1.log == r2.log
      && (r1.result.Raise? ==> r1.result == r2.result)
      && (r1.result.Return? ==>
            && r2.result.Return?
            && r1.result.value.status == r2.result.value.status
            && Agree(r1.result.value.state, r2.result.value.state, hidden))
  {
    var r1 := RunLeaf(env, step, s1, log);
    forall v { AgreeAfter(s1, s2, hidden, step.name, v); }
  }

  /** A tree of stages in front of a work list behaves as the work list does: same log, same
      exception or final status, same outputs outside the hidden names. */
  lemma {:induction false} Simulates(env: Env, steps: seq<Step>, rest: seq<Step>, s1: State, s2: State,
                                     hidden: set<string>, log: Log) returns (end: State)
    requires AllReadNoRouter(steps, hidden) && Agree(s1, s2, hidden)
    ensures var r, f := Drive(env, steps, s1, log), Flat(env, steps + rest, s2, log);
      match r.result
      case Raise(fault) => f == Run(Raise(fault), r.log)
      case Return(d) =>
        && Agree(d.state, end, hidden)
        && f == if d.status.OK? then Flat(env, rest, end, r.log) else Run(Return(Outcome(d.status, end)), r.log)
    decreases steps, 0
  {
    end := s2;
    if steps == [] {
      assert steps + rest == rest;
    } else {
      assert (steps + rest)[1..] == steps[1..] + rest;
      var s := RunStep(env, steps[0], s1, log);
      var mid := SimulatesStep(env, steps[0], steps[1..] + rest, s1, s2, hidden, log);
      assert [steps[0]] + (steps[1..] + rest) == steps + rest;
      end := mid;
      if s.result.Return? && s.result.value.status.OK? {
        end := Simulates(env, steps[1..], rest, s.result.value.state, mid, hidden, s.log);
      }
    }
  }

  lemma {:induction false} SimulatesStep(env: Env, step: Step, rest: seq<Step>, s1: State, s2: State,
                                         hidden: set<string>, log: Log) returns (end: State)
    requires ReadsNoRouter(step, hidden) && Agree(s1, s2, hidden)
    ensures var r, f := RunStep(env, step, s1, log), Flat(env, [step] + rest, s2, log);
      match r.result
      case Raise(fault) => f == Run(Raise(fault), r.log)
      case Return(o) =>
        && Agree(o.state, end, hidden)
        && f == if o.status.OK? then Flat(env, rest, end, r.log) else Run(Return(Outcome(o.status, end)), r.log)
    decreases step, 0
  {
    end := s2;
    assert ([step] + rest)[1..] == rest;
    if !step.Route? {
      LeafAgrees(env, step, s1, s2, hidden, log);
      var r2 := RunLeaf(env, step, s2, log);
      if r2.result.Return? {
        end := r2.result.value.state;
      }
    } else {
      var key := Resolve(step.routes, step.default, step.select(s1));
      assert step.select(s1) == step.select(s2);
      if key.None? {
        AgreeAfter(s1, s2, hidden, step.name, RouteOutcome(step.select(s1), []));
      } else {
        var branch := step.routes[key.value].steps;
        assert AllReadNoRouter(branch, hidden);
        end := Simulates(env, branch, rest, s1, s2, hidden, log);
        var r := Drive(env, branch, s1, log);
        if r.result.Return? {
          AgreeAfter(r.result.value.state, end, hidden, step.name,
                     RouteOutcome(key.value, r.result.value.outcomes));
        }
      }
    }
  }

  /** For every tree of routers, envelope and environment: the same terminal status or exception,
      the same calls in the same order, and the same outputs outside the hidden names. */
  lemma RoutersRunFlat(env: Env, p: Pipe, hidden: set<string>, envelope: string, log: Log)
    requires AllReadNoRouter(p.steps, hidden)
    ensures var r, f := RunPipeline(env, p, envelope, log), Flat(env, p.steps, State(envelope, map[]), log);
      && r.log == f.log
      && (r.result.Raise? <==> f.result.Raise?)
      && (r.result.Raise? ==> r.result.fault == f.result.fault)
      && (r.result.Return? ==>
            && r.result.value.status == f.result.value.status
            && Agree(r.result.value.state, f.result.value.state, hidden))
  {
    var st := State(envelope, map[]);
    assert p.steps + [] == p.steps;
    var _ := Simulates(env, p.steps, [], st, st, hidden, log);
  }
}
