/**
 What each step of a vertex does, told by what the step is given: the published resources, the store
 of secrets, the runtime's answers and the storage. In particular which errors end the vertex, and that
 an error is always a failure of the walk.
 */
module Steps {
  import opened Models
  import opened References
  import opened Resolution
  import opened Parsers
  import opened Engine
  import opened Safety
  import opened Decisions
  import opened Determined

  // ---- Starting ----

  /** The attributes a vertex starts with. */
  ghost function StartsFrom(c: Config, n: string): Value
    requires n in Nodes(c)
  {
    if n in c.spec then c.spec[n].attributes else c.prior[n].attributes
  }

  /** An apply resolves references, and so does a preview of one unless nothing is recorded yet. */
  ghost predicate Resolves(c: Config) {
    c.op.Apply? || (c.op.ApplyPreview? && c.prior != map[])
  }

  lemma StartYields(c: Config, s: State, n: string, outcome: Reply<Value>)
    requires Keyed(c) && Reachable(c, s) && Enabled(c, s, Start(n, outcome))
    ensures n in Nodes(c) && MayYield(StartsFrom(c, n), EnvOf(c, s.ctx), outcome)
  {
    NodeFacts(c, s, n);
  }

  /** Where a reference stood, the started vertex has what is published of the resource it names. */
  lemma StartReplacesReferences(c: Config, s: State, n: string, r: Value, path: seq<Step>, key: string,
                                keys: seq<string>)
    requires Keyed(c) && Reachable(c, s) && Enabled(c, s, Start(n, Ok(r))) && Resolves(c)
    requires NoDots([key] + keys) && HasString(StartsFrom(c, n), path, RefTo(key, keys))
    ensures key in s.ctx && s.ctx[key].Some?
    ensures At(r, path) == At(s.ctx[key].value.attributes, AsSteps(keys))
    ensures At(r, path).Some? && !At(r, path).value.Null?
  {
    StartYields(c, s, n, Ok(r));
    ReferencesAreReplaced(StartsFrom(c, n), s.ctx, c.secrets, r, path, key, keys);
  }

  /** In the first preview references stay as they are. */
  lemma FirstPreviewKeepsReferences(c: Config, s: State, n: string, r: Value, path: seq<Step>, ref: string)
    requires Keyed(c) && Reachable(c, s) && Enabled(c, s, Start(n, Ok(r))) && c.op.ApplyPreview? && c.prior == map[]
    requires HasString(StartsFrom(c, n), path, ref) && IMPLICIT_REF_PREFIX <= ref
    ensures HasString(r, path, ref)
  {
    StartYields(c, s, n, Ok(r));
    assert ref[0] == '$' && VAULT_PREFIX[0] == 'r';
    OthersStand(StartsFrom(c, n), EnvOf(c, s.ctx), r, path, Str(ref));
  }

  /** Where a secret stood, the started vertex of an apply or its preview has the store's answer. */
  lemma StartReplacesSecrets(c: Config, s: State, n: string, r: Value, path: seq<Step>, secret: string)
    requires Keyed(c) && Reachable(c, s) && Enabled(c, s, Start(n, Ok(r)))
    requires (c.op.Apply? || c.op.ApplyPreview?) && c.secrets.Some?
    requires HasString(StartsFrom(c, n), path, secret) && VAULT_PREFIX <= secret
    ensures c.secrets.value(secret).Ok? && HasString(r, path, c.secrets.value(secret).value)
  {
    StartYields(c, s, n, Ok(r));
    SecretsAreReplaced(StartsFrom(c, n), EnvOf(c, s.ctx), r, path, secret);
  }

  /** A destroy and its preview start with what is recorded, and starting never fails. */
  lemma DestroyStartsUnchanged(c: Config, s: State, n: string, outcome: Reply<Value>)
    requires Keyed(c) && Reachable(c, s) && Enabled(c, s, Start(n, outcome)) && (c.op.Destroy? || c.op.DestroyPreview?)
    ensures n in c.prior && outcome == Ok(c.prior[n].attributes)
  {
    StartYields(c, s, n, outcome);
    InertUnchanged(StartsFrom(c, n), EnvOf(c, s.ctx));
    AllOkDecides(StartsFrom(c, n), EnvOf(c, s.ctx), outcome);
  }

  /** Where references are resolved, starting succeeds exactly when all can be replaced by what is published. */
  lemma StartSucceedsExactly(c: Config, s: State, n: string, outcome: Reply<Value>)
    requires Keyed(c) && Reachable(c, s) && Enabled(c, s, Start(n, outcome)) && Resolves(c)
    ensures n in Nodes(c) && (outcome.Ok? <==> AllCanBeReplaced(StartsFrom(c, n), s.ctx, c.secrets))
    ensures outcome.Panic? ==> CanPanic(StartsFrom(c, n), s.ctx, c.secrets)
  {
    StartYields(c, s, n, outcome);
    ReplaceSucceedsExactly(StartsFrom(c, n), s.ctx, c.secrets, outcome);
  }

  /**
   A start that fails fails the vertex, and one that succeeds writes the replaced attributes into the
   resource: that of the spec, or for a deletion the recorded one, which the state index shares.
   */
  lemma StartEnds(c: Config, s: State, n: string, outcome: Reply<Value>)
    requires Keyed(c) && Reachable(c, s) && Enabled(c, s, Start(n, outcome))
    ensures var t := Next(c, s, Start(n, outcome));
      && (outcome.Err? ==> t.phase == s.phase[n := Failed]) && (outcome.Panic? ==> t.phase == s.phase[n := Panicked])
      && (outcome.Ok? ==> t.phase == s.phase[n := Started])
      && (!outcome.Ok? ==> t.spec == s.spec && t.prior == s.prior && t.state == s.state)
    ensures outcome.Ok? && n in c.spec ==>
      n in s.spec && Next(c, s, Start(n, outcome)) == s.(
        phase := s.phase[n := Started], spec := s.spec[n := s.spec[n].(attributes := outcome.value)])
    ensures outcome.Ok? && n !in c.spec ==>
      n in s.prior && Next(c, s, Start(n, outcome)) == s.(
        phase := s.phase[n := Started], prior := s.prior[n := s.prior[n].(attributes := outcome.value)],
        state := s.state[n := Some(s.prior[n].(attributes := outcome.value))])
  {
    NodeFacts(c, s, n);
  }

  // ---- Deciding ----

  /** The vertex fails exactly on an error of read, dry run or comparison, and panics exactly on a panic of one. */
  lemma ComputeEnds(c: Config, s: State, n: string)
    requires Keyed(c) && Reachable(c, s) && Enabled(c, s, Compute(n))
    ensures var p, (plan, prior, live) := Next(c, s, Compute(n)).phase[n], Inputs(c, s, n);
      && (p.Failed? <==> DecisionErrs(c, n, plan, prior, live))
      && (p.Panicked? <==> DecisionPanics(c, n, plan, prior, live))
      && (!p.Failed? && !p.Panicked? ==> p.Decided? && ActionFollows(c, n, plan, prior, live, p.action))
  {
    NodeFacts(c, s, n);
    VertexIsDetermined(c, s, n);
    var (plan, prior, live) := Inputs(c, s, n);
    DecideMeans(c, n, plan, prior, live);
  }

  // ---- Calling ----

  /** An error fails the vertex, a panic panics it, and a success is called with its resource. */
  ghost predicate EndsAs(p: Phase, action: ActionType, r: Reply<Option<Resource>>) {
    match r
    case Err(_) => p.Failed?
    case Panic => p.Panicked?
    case Ok(resource) => p == Called(action, resource)
  }

  /** The runtime is asked about the resource as it was resolved, its record and the world at the start. */
  lemma CallReply(c: Config, s: State, n: string)
    requires Keyed(c) && Reachable(c, s) && Enabled(c, s, Call(n))
    ensures var (plan, prior, live) := Inputs(c, s, n);
      var action := s.phase[n].action;
      && (action.Delete? || plan.Some?)
      && CallOutcome(c, s, n) == CallRuntime(c, n, action, plan, prior, live)
  {
    NodeFacts(c, s, n);
    VertexIsDetermined(c, s, n);
  }

  /**
   A refused apply or import fails the vertex; only a panic of the runtime, or a deletion that is not
   accepted, panics it. The world is left as the runtime leaves it.
   */
  lemma CallEnds(c: Config, s: State, n: string)
    requires Keyed(c) && Reachable(c, s) && Enabled(c, s, Call(n))
    ensures var (plan, prior, live) := Inputs(c, s, n);
      var action, p, live' := s.phase[n].action, Next(c, s, Call(n)).phase[n], Get(Next(c, s, Call(n)).live, n);
      exists r :: CallFollows(c, n, action, plan, prior, live, r, live') && EndsAs(p, action, r)
  {
    CallReply(c, s, n);
    var (plan, prior, live) := Inputs(c, s, n);
    CallMeans(c, n, s.phase[n].action, plan, prior, live);
    var (r, live') := CallOutcome(c, s, n);
    assert EndsAs(Next(c, s, Call(n)).phase[n], s.phase[n].action, r);
  }

  /** In particular, an apply or import that the runtime refuses is never taken for a success. */
  lemma RefusedCallsFail(c: Config, s: State, n: string)
    requires Keyed(c) && Reachable(c, s) && Enabled(c, s, Call(n))
    ensures var (plan, prior, live) := Inputs(c, s, n);
      var action, p := s.phase[n].action, Next(c, s, Call(n)).phase[n];
      && (action.Create? || action.Update? ==>
            plan.Some? && (ApplyOf(c, n, plan.value, prior, live).0.Err? <==> p.Failed?))
      && (action.UnChange? && prior.None? ==>
            plan.Some? && (c.rt.imported(n, plan.value.attributes, live).Err? <==> p.Failed?))
      && (p.Failed? ==> !WalkerOk(p))
  {
    CallEnds(c, s, n);
  }

  // ---- Failing ----

  /** Once a vertex has failed, could not save, or was skipped, the walk never counts as a success. */
  lemma FailuresAreReported(c: Config, events: seq<Event>, states: seq<State>, i: nat, j: nat, n: string)
    requires IsRun(c, events, states) && i <= j < |states| && n in Nodes(c)
    requires n in states[i].phase
    requires states[i].phase[n].Failed? || states[i].phase[n].Unsaved? || states[i].phase[n].Skipped?
    ensures n in states[j].phase && states[j].phase[n] == states[i].phase[n] && !WalkSucceeds(c, states[j])
  {
    EndStays(c, events, states, i, j, n);
  }
}
