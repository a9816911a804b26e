/** Rebinding the gate over a tree of pipelines, and the builder methods that rely on it: the
    outermost pipeline's gate governs the whole composition. */
module PipelineGate {
  import opened Prelude
  import opened Pipeline
  import opened PipelineSafety

  // ---- the rewrite ----

  function WithGate(p: Pipe, gate: Gate): Pipe
    decreases p, 0
  {
    Pipe(p.name, RebindAll(p.steps, gate), gate)
  }

  function RebindAll(steps: seq<Step>, gate: Gate): (r: seq<Step>)
    ensures |r| == |steps|
    decreases steps, 0
  {
    if steps == [] then [] else [Rebind(steps[0], gate)] + RebindAll(steps[1..], gate)
  }

  function Rebind(step: Step, gate: Gate): Step
    decreases step, 0
  {
    match step
    case Act(_, _, _, _, _) => step.(gate := gate)
    case Route(_, _, routes, _) => step.(routes := map k | k in routes :: WithGate(routes[k], gate))
    case _ => step
  }

  /** The rewrite as the loops it is. */
  method WithGateLoop(p: Pipe, gate: Gate) returns (r: Pipe)
    ensures r == WithGate(p, gate)
    decreases p, 0
  {
    var rebound: seq<Step> := [];
    for i := 0 to |p.steps|
      invariant rebound == RebindAll(p.steps[..i], gate)
    {
      var step := p.steps[i];
      var next;
      match step {
        case Act(_, _, _, _, _) => next := step.(gate := gate);
        case Route(_, _, _, _) =>
          var bound := RebindRoutes(step, gate);
          next := step.(routes := bound);
        case _ => next := step;
      }
      assert next == Rebind(step, gate);
      assert p.steps[..i + 1] == p.steps[..i] + [step];
      RebindAppend(p.steps[..i], step, gate);
      rebound := rebound + [next];
    }
    assert p.steps[..|p.steps|] == p.steps;
    return Pipe(p.name, rebound, gate);
  }

  method RebindRoutes(step: Step, gate: Gate) returns (bound: map<string, Pipe>)
    requires step.Route?
    ensures step.(routes := bound) == Rebind(step, gate)
    decreases step, 0
  {
    var todo := step.routes.Keys;
    bound := map[];
    while todo != {}
      invariant todo <= step.routes.Keys && bound.Keys == step.routes.Keys - todo
      invariant forall k :: k in bound ==> bound[k] == WithGate(step.routes[k], gate)
      decreases todo
    {
      var k :| k in todo;
      var branch := WithGateLoop(step.routes[k], gate);
      bound, todo := bound[k := branch], todo - {k};
    }
    assert bound == map k | k in step.routes :: WithGate(step.routes[k], gate);
  }

  /** Only the last gate bound counts. */
  lemma {:induction false} LastGateWins(p: Pipe, g1: Gate, g2: Gate)
    ensures WithGate(WithGate(p, g1), g2) == WithGate(p, g2)
    decreases p, 0
  {
    LastGateWinsAll(p.steps, g1, g2);
  }

  lemma {:induction false} LastGateWinsAll(steps: seq<Step>, g1: Gate, g2: Gate)
    ensures RebindAll(RebindAll(steps, g1), g2) == RebindAll(steps, g2)
    decreases steps, 0
  {
    if steps != [] {
      LastGateWinsAll(steps[1..], g1, g2);
      if steps[0].Route? {
        var routes := steps[0].routes;
        forall k | k in routes
          ensures WithGate(WithGate(routes[k], g1), g2) == WithGate(routes[k], g2)
        {
          LastGateWins(routes[k], g1, g2);
        }
      }
      assert Rebind(Rebind(steps[0], g1), g2) == Rebind(steps[0], g2);
    }
  }

  /** The rewrite leaves a pipeline alone exactly when the gate already governs all of it. */
  lemma {:induction false} GovernedIffFixed(p: Pipe, gate: Gate)
    ensures GovernedPipe(p, gate) <==> WithGate(p, gate) == p
    decreases p, 0
  {
    GovernedIffFixedAll(p.steps, gate);
  }

  lemma {:induction false} GovernedIffFixedAll(steps: seq<Step>, gate: Gate)
    ensures (forall s :: s in steps ==> GovernedStep(s, gate)) <==> RebindAll(steps, gate) == steps
    decreases steps, 0
  {
    if steps != [] {
      GovernedIffFixedAll(steps[1..], gate);
      if steps[0].Route? {
        var routes := steps[0].routes;
        forall k | k in routes
          ensures GovernedPipe(routes[k], gate) <==> WithGate(routes[k], gate) == routes[k]
        {
          GovernedIffFixed(routes[k], gate);
        }
        var bound := map k | k in routes :: WithGate(routes[k], gate);
        assert bound == routes <==> forall k :: k in routes ==> bound[k] == routes[k];
      }
      assert GovernedStep(steps[0], gate) <==> Rebind(steps[0], gate) == steps[0];
      var rebound := RebindAll(steps, gate);
      assert rebound == steps <==> rebound[0] == steps[0] && rebound[1..] == steps[1..];
    }
  }

  lemma WithGateGoverns(p: Pipe, gate: Gate)
    ensures GovernedPipe(WithGate(p, gate), gate)
  {
    LastGateWins(p, gate, gate);
    GovernedIffFixed(WithGate(p, gate), gate);
  }

  // ---- the builder methods ----

  /** A chain of builder calls, with whole chains as the branches of a router. */
  datatype Chain =
    | Start(name: string, gate: Gate)
    | Then(base: Chain, stage: Step)
    | ThenAct(base: Chain, name: string, sink: Sink, bind: Binding<Value>, auth: Binding<Option<Authorization>>)
    | ThenRoute(base: Chain, name: string, select: State -> string, branches: map<string, Chain>,
                default: Option<string>)

  /** The builder methods `normalize`, `state`, `decide`, `model` and `review` append their own
      stage; custom stages appended directly are not covered. */
  ghost predicate Standard(c: Chain)
    decreases c
  {
    match c
    case Start(_, _) => true
    case Then(base, stage) => Standard(base) && !stage.Act? && !stage.Route?
    case ThenAct(base, _, _, _, _) => Standard(base)
    case ThenRoute(base, _, _, branches, _) =>
      Standard(base) && forall k :: k in branches ==> Standard(branches[k])
  }

  /** The gate given to the pipeline the chain started from. */
  function RootGate(c: Chain): Gate {
    match c
    case Start(_, gate) => gate
    case Then(base, _) => RootGate(base)
    case ThenAct(base, _, _, _, _) => RootGate(base)
    case ThenRoute(base, _, _, _, _) => RootGate(base)
  }

  function Append(p: Pipe, step: Step): Pipe {
    p.(steps := p.steps + [step])
  }

  function AddAct(p: Pipe, name: string, sink: Sink, bind: Binding<Value>, auth: Binding<Option<Authorization>>): Pipe {
    Append(p, Act(name, sink, bind, p.gate, auth))
  }

  function AddRoute(p: Pipe, name: string, select: State -> string, routes: map<string, Pipe>,
                    default: Option<string>): Pipe
  {
    Append(p, Route(name, select, map k | k in routes :: WithGate(routes[k], p.gate), default))
  }

  function Build(c: Chain): Pipe
    decreases c
  {
    match c
    case Start(name, gate) => Pipe(name, [], gate)
    case Then(base, stage) => Append(Build(base), stage)
    case ThenAct(base, name, sink, bind, auth) => AddAct(Build(base), name, sink, bind, auth)
    case ThenRoute(base, name, select, branches, default) =>
      AddRoute(Build(base), name, select, map k | k in branches :: Build(branches[k]), default)
  }

  /** What a builder call appends, after all the stages there were: an action under the pipeline's own
      gate; or a router with the given name, selector and default, over exactly the given branches, each
      rebound to that gate. */
  lemma BuilderExact(p: Pipe, name: string, sink: Sink, bind: Binding<Value>, auth: Binding<Option<Authorization>>,
                     select: State -> string, routes: map<string, Pipe>, default: Option<string>)
    ensures var q := AddAct(p, name, sink, bind, auth);
      q.name == p.name && q.gate == p.gate && q.steps == p.steps + [Act(name, sink, bind, p.gate, auth)]
    ensures var q := AddRoute(p, name, select, routes, default);
      && q.name == p.name && q.gate == p.gate && |q.steps| == |p.steps| + 1 && q.steps[..|p.steps|] == p.steps
      && var router := q.steps[|p.steps|];
      && router.Route? && router.name == name && router.select == select && router.default == default
      && router.routes.Keys == routes.Keys
      && forall k :: k in routes ==> GovernedPipe(router.routes[k], p.gate) && SameButGates(routes[k], router.routes[k])
  {
    forall k | k in routes
      ensures GovernedPipe(WithGate(routes[k], p.gate), p.gate) && SameButGates(routes[k], WithGate(routes[k], p.gate))
    {
      WithGateGoverns(routes[k], p.gate);
      WithGateKeeps(routes[k], p.gate);
    }
  }

  /** The same pipelines but for the gates in them. */
  ghost predicate SameButGates(p: Pipe, q: Pipe)
    decreases p, 0
  {
    && p.name == q.name && |p.steps| == |q.steps|
    && forall i :: 0 <= i < |p.steps| ==> SameStep(p.steps[i], q.steps[i])
  }

  ghost predicate SameStep(s: Step, t: Step)
    decreases s, 0
  {
    match s
    case Act(name, sink, bind, _, auth) => t.Act? && t == Act(name, sink, bind, t.gate, auth)
    case Route(name, select, routes, default) =>
      && t.Route? && t.name == name && t.select == select && t.default == default && t.routes.Keys == routes.Keys
      && forall k :: k in routes ==> SameButGates(routes[k], t.routes[k])
    case _ => s == t
  }

  /** The rewrite changes nothing but gates. */
  lemma {:induction false} WithGateKeeps(p: Pipe, gate: Gate)
    ensures SameButGates(p, WithGate(p, gate))
    decreases p, 0
  {
    RebindAllKeeps(p.steps, gate);
  }

  lemma {:induction false} RebindAllKeeps(steps: seq<Step>, gate: Gate)
    ensures forall i :: 0 <= i < |steps| ==> SameStep(steps[i], RebindAll(steps, gate)[i])
    decreases steps, 0
  {
    if steps != [] {
      RebindAllKeeps(steps[1..], gate);
      if steps[0].Route? {
        forall k | k in steps[0].routes
          ensures SameButGates(steps[0].routes[k], WithGate(steps[0].routes[k], gate))
        {
          WithGateKeeps(steps[0].routes[k], gate);
        }
      }
      assert SameStep(steps[0], RebindAll(steps, gate)[0]);
      assert forall i :: 1 <= i < |steps| ==>
        steps[i] == steps[1..][i - 1] && RebindAll(steps, gate)[i] == RebindAll(steps[1..], gate)[i - 1];
    }
  }

  /** Whatever gates the branches were built with, every action stage of a built pipeline carries
      the gate of the outermost pipeline. */
  lemma {:induction false} OutermostGateGoverns(c: Chain)
    requires Standard(c)
    ensures GovernedPipe(Build(c), RootGate(c))
    decreases c
  {
    match c
    case Start(_, _) =>
    case Then(base, _) => OutermostGateGoverns(base);
    case ThenAct(base, _, _, _, _) => OutermostGateGoverns(base);
    case ThenRoute(base, _, _, branches, _) =>
      OutermostGateGoverns(base);
      forall k | k in branches
        ensures GovernedPipe(WithGate(Build(branches[k]), RootGate(c)), RootGate(c))
      {
        WithGateGoverns(Build(branches[k]), RootGate(c));
      }
  }

  /** The chain with every pipeline in it started from the same gate. */
  function Uniform(c: Chain, gate: Gate): Chain
    decreases c
  {
    match c
    case Start(name, _) => Start(name, gate)
    case Then(base, stage) => Then(Uniform(base, gate), stage)
    case ThenAct(base, name, sink, bind, auth) => ThenAct(Uniform(base, gate), name, sink, bind, auth)
    case ThenRoute(base, name, select, branches, default) =>
      ThenRoute(Uniform(base, gate), name, select,
                map k | k in branches :: Uniform(branches[k], gate), default)
  }

  /** Rebinding a built pipeline is building it from that gate in the first place, branches
      included; so the gates of inner pipelines have no effect on what is built. */
  lemma {:induction false} RebindIsRebuild(c: Chain, gate: Gate)
    requires Standard(c)
    ensures WithGate(Build(c), gate) == Build(Uniform(c, gate))
    decreases c
  {
    match c
    case Start(_, _) =>
    case Then(base, stage) =>
      RebindIsRebuild(base, gate);
      RebindAppend(Build(base).steps, stage, gate);
    case ThenAct(base, name, sink, bind, auth) =>
      RebindIsRebuild(base, gate);
      RebindAppend(Build(base).steps, Act(name, sink, bind, Build(base).gate, auth), gate);
    case ThenRoute(_, _, _, _, _) => RebindIsRebuildRoute(c, gate);
  }

  lemma {:induction false} RebindIsRebuildRoute(c: Chain, gate: Gate)
    requires Standard(c) && c.ThenRoute?
    ensures WithGate(Build(c), gate) == Build(Uniform(c, gate))
    decreases c, 0
  {
    var routes := map k | k in c.branches :: Build(c.branches[k]);
    var again := map k | k in c.branches :: Build(Uniform(c.branches[k], gate));
    forall k | k in c.branches
      ensures WithGate(routes[k], gate) == WithGate(again[k], gate)
    {
      RebindIsRebuild(c.branches[k], gate);
      LastGateWins(routes[k], gate, gate);
    }
    RebindIsRebuild(c.base, gate);
    RebindRouteWith(Build(c.base), Build(Uniform(c.base, gate)), c, routes, again, gate);
    UniformRoute(c, again, gate);
  }

  lemma UniformRoute(c: Chain, again: map<string, Pipe>, gate: Gate)
    requires c.ThenRoute? && again == map k | k in c.branches :: Build(Uniform(c.branches[k], gate))
    ensures Build(Uniform(c, gate)) == AddRoute(Build(Uniform(c.base, gate)), c.name, c.select, again, c.default)
  {
    var uniform := map k | k in c.branches :: Uniform(c.branches[k], gate);
    assert (map k | k in uniform :: Build(uniform[k])) == again;
  }

  lemma RebindRouteWith(p: Pipe, q: Pipe, c: Chain, routes: map<string, Pipe>, again: map<string, Pipe>, gate: Gate)
    requires c.ThenRoute? && WithGate(p, gate) == q
    requires routes.Keys == again.Keys
    requires forall k :: k in routes ==> WithGate(routes[k], gate) == WithGate(again[k], gate)
    ensures WithGate(AddRoute(p, c.name, c.select, routes, c.default), gate)
         == AddRoute(q, c.name, c.select, again, c.default)
  {
    RebindRoute(p, c.name, c.select, routes, c.default, gate);
    SameRoute(q, c.name, c.select, routes, again, c.default);
  }

  lemma SameRoute(p: Pipe, name: string, select: State -> string, r1: map<string, Pipe>, r2: map<string, Pipe>,
                  default: Option<string>)
    requires r1.Keys == r2.Keys && forall k :: k in r1 ==> WithGate(r1[k], p.gate) == WithGate(r2[k], p.gate)
    ensures AddRoute(p, name, select, r1, default) == AddRoute(p, name, select, r2, default)
  {
    assert (map k | k in r1 :: WithGate(r1[k], p.gate)) == (map k | k in r2 :: WithGate(r2[k], p.gate));
  }

  /** Rebinding after adding a router is adding it to the rebound pipeline. */
  lemma RebindRoute(p: Pipe, name: string, select: State -> string, routes: map<string, Pipe>,
                    default: Option<string>, gate: Gate)
    ensures WithGate(AddRoute(p, name, select, routes, default), gate)
         == AddRoute(WithGate(p, gate), name, select, routes, default)
  {
    var bound := map k | k in routes :: WithGate(routes[k], p.gate);
    forall k | k in routes
      ensures WithGate(bound[k], gate) == WithGate(routes[k], gate)
    {
      LastGateWins(routes[k], p.gate, gate);
    }
    assert (map k | k in bound :: WithGate(bound[k], gate)) == (map k | k in routes :: WithGate(routes[k], gate));
    RebindAppend(p.steps, Route(name, select, bound, default), gate);
  }

  lemma RebindAppend(steps: seq<Step>, step: Step, gate: Gate)
    ensures RebindAll(steps + [step], gate) == RebindAll(steps, gate) + [Rebind(step, gate)]
  {
    if steps == [] {
      assert [] + [step] == [step];
    } else {
      assert (steps + [step])[1..] == steps[1..] + [step];
      RebindAppend(steps[1..], step, gate);
    }
  }

  lemma InnerGatesDoNotMatter(c: Chain)
    requires Standard(c)
    ensures Build(c) == Build(Uniform(c, RootGate(c)))
  {
    OutermostGateGoverns(c);
    GovernedIffFixed(Build(c), RootGate(c));
    RebindIsRebuild(c, RootGate(c));
  }

  /** Both together, for a whole run of a built pipeline: an action whose risk is above the level of the
      outermost gate, or that requires approval, is only ever invoked with an approved authorization. */
  lemma BuiltRunsArePermitted(env: Env, c: Chain, envelope: string, log: Log)
    requires Standard(c)
    ensures var r := RunPipeline(env, Build(c), envelope, log);
      && Extends(log, r.log) && (forall i :: |log| <= i < |r.log| ==> Permitted(RootGate(c), r.log[i]))
      && forall i :: |log| <= i < |r.log| && r.log[i].Called? && r.log[i].call.SinkCall? ==>
           var call := r.log[i].call;
           call.sink.descriptor.risk > RootGate(c).autoGrantMax || call.sink.descriptor.requiresApproval ==>
             call.auth.approved
  {
    OutermostGateGoverns(c);
    DrivePermitted(env, RootGate(c), Build(c).steps, State(envelope, map[]), log);
  }

  /** With the default gate, any action above R1 needs an approved authorization, and so does any that
      requires approval: in every run of every pipeline built on it. */
  lemma DefaultGateNeedsApproval(env: Env, c: Chain, envelope: string, log: Log, i: nat)
    requires Standard(c) && RootGate(c) == Gate(AUTO_GRANT_MAX)
    requires |log| <= i < |RunPipeline(env, Build(c), envelope, log).log|
    ensures var e := RunPipeline(env, Build(c), envelope, log).log[i];
      e.Called? && e.call.SinkCall? && (e.call.sink.descriptor.risk >= 2 || e.call.sink.descriptor.requiresApproval) ==>
        e.call.auth.approved
  {
    BuiltRunsArePermitted(env, c, envelope, log);
    assert Permitted(RootGate(c), RunPipeline(env, Build(c), envelope, log).log[i]);
  }
}
