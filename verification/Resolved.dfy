/**
 Recorded resources hold values, never references; so deletions have nothing to resolve.
 */
module Resolved {
  import opened Models
  import opened References
  import opened Parsers
  import opened Engine
  import opened Safety
  import Fields

  /** The runtime answers a plan without references with a resource without references. */
  ghost predicate RuntimeRefFree(rt: Runtime) {
    && (forall n, prior, plan, live :: RefFree(plan) && rt.apply(n, prior, plan, live).0.Ok? ==>
         RefFree(rt.apply(n, prior, plan, live).0.value))
    && (forall n, prior, plan, live :: RefFree(plan) && rt.dryRun(n, prior, plan, live).Ok? ==>
         RefFree(rt.dryRun(n, prior, plan, live).value))
    && (forall n, plan, live :: RefFree(plan) && rt.imported(n, plan, live).Ok? ==>
         RefFree(rt.imported(n, plan, live).value))
  }

  ghost predicate IndexResolved(index: Index) {
    forall k :: k in index ==> RefFree(index[k].attributes)
  }

  /** References are resolved in this operation, and nothing that feeds it introduces one. */
  ghost predicate Resolving(c: Config) {
    && (c.op.Apply? || c.op.Destroy? || c.op.DestroyPreview? || (c.op.ApplyPreview? && c.prior != map[]))
    && IndexResolved(c.prior) && RuntimeRefFree(c.rt) && SecretsRefFree(c.secrets)
  }

  predicate IsRunning(p: Phase) {
    p.Started? || HasAction(p)
  }

  ghost predicate ResultResolved(p: Phase) {
    HasAction(p) && p.result.Some? ==> RefFree(p.result.value.attributes)
  }

  ghost predicate VerticesResolved(c: Config, s: State) {
    && s.phase.Keys == Nodes(c) && s.spec.Keys == c.spec.Keys
    && IndexResolved(s.prior)
    && (forall n :: n in c.spec && IsRunning(s.phase[n]) ==> RefFree(s.spec[n].attributes))
    && (forall n :: n in Nodes(c) ==> ResultResolved(s.phase[n]))
  }

  ghost predicate SharedResolved(s: State) {
    && IndexRefFree(s.ctx) && IndexRefFree(s.state)
    && (forall i :: 0 <= i < |s.saves| ==> IndexResolved(s.saves[i].resources))
  }

  /** No reference in what the vertices hold, in the two indexes, or in anything that was saved. */
  ghost predicate AllResolved(c: Config, s: State) {
    VerticesResolved(c, s) && SharedResolved(s)
  }

  // ---- One step ----

  lemma {:induction false} RemoveFieldStrings(v: Value, path: seq<string>)
    requires path != []
    ensures Strings(Fields.RemoveField(v, path)) <= Strings(v)
  {
    match v
    case Obj(fields) =>
      if |path| > 1 && path[0] in fields {
        RemoveFieldStrings(fields[path[0]], path[1..]);
      }
    case List(items) =>
      forall i | 0 <= i < |items| ensures Strings(Fields.RemoveField(items[i], path)) <= Strings(items[i]) {
        RemoveFieldStrings(items[i], path);
      }
    case _ =>
  }

  lemma {:induction false} RemoveFieldsStrings(v: Value, ignored: seq<seq<string>>)
    requires forall i :: 0 <= i < |ignored| ==> ignored[i] != []
    ensures Strings(Fields.RemoveFields(v, ignored)) <= Strings(v)
    decreases |ignored|
  {
    if ignored != [] {
      RemoveFieldStrings(v, ignored[0]);
      RemoveFieldsStrings(Fields.RemoveField(v, ignored[0]), ignored[1..]);
    }
  }

  lemma DecideResolved(c: Config, n: string, plan: Option<Resource>, prior: Option<Resource>, live: Attributes)
    requires RuntimeRefFree(c.rt) && (plan.Some? ==> RefFree(plan.value.attributes))
    ensures var d := Decide(c, n, plan, prior, live);
      d.Ok? && d.value.dryRun.Some? ==> RefFree(d.value.dryRun.value.attributes)
  {
    if plan.Some? {
      var dry := c.rt.dryRun(n, AttributesOf(prior), plan.value.attributes, live);
      if dry.Ok? {
        RemoveFieldsStrings(dry.value, SplitAll(c.ignore));
      }
    }
  }

  lemma CallResolved(c: Config, n: string, action: ActionType, plan: Option<Resource>, prior: Option<Resource>,
                     live: Attributes)
    requires RuntimeRefFree(c.rt) && (plan.Some? ==> RefFree(plan.value.attributes))
    requires (prior.Some? ==> RefFree(prior.value.attributes))
    ensures var r := CallRuntime(c, n, action, plan, prior, live).0;
      r.Ok? && r.value.Some? ==> RefFree(r.value.value.attributes)
  {
  }

  /** What PreExecute leaves in a resource is resolved. */
  lemma StartResolves(c: Config, ctx: ResourceIndex, v: Value, outcome: Reply<Value>, kept: bool)
    requires Resolving(c) && IndexRefFree(ctx) && MayYield(v, EnvOf(c, ctx), outcome) && outcome.Ok?
    requires if kept then !IsDestroy(c.op) else RefFree(v)
    ensures RefFree(outcome.value)
  {
    if IsDestroy(c.op) {
      InertUnchanged(v, Env(Off, None));
    } else {
      ResolutionIsRefFree(v, ctx, c.secrets);
    }
  }

  lemma PhaseResolved(c: Config, s: State, e: Event)
    requires RuntimeRefFree(c.rt) && Steppable(c, s, e) && ResultResolved(s.phase[e.n])
    requires e.n in c.spec && IsRunning(s.phase[e.n]) ==> RefFree(s.spec[e.n].attributes)
    requires e.n in c.prior ==> RefFree(s.prior[e.n].attributes)
    ensures ResultResolved(PhaseAfter(c, s, e))
  {
    var n := e.n;
    var plan, prior, live := PlanOf(c, s, n), Get(s.prior, n), Get(s.live, n);
    if e.Compute? {
      DecideResolved(c, n, plan, prior, live);
    } else if e.Call? {
      CallResolved(c, n, s.phase[n].action, plan, prior, live);
    }
  }

  /** The resource a vertex has just rewritten. */
  lemma RewrittenResolved(c: Config, s: State, e: Event)
    requires Keyed(c) && Resolving(c) && AllResolved(c, s) && Enabled(c, s, e) && e.Start? && e.outcome.Ok?
    ensures RefFree(e.outcome.value)
  {
    StartResolves(c, s.ctx, NodeResource(c, s, e.n).attributes, e.outcome, e.n in c.spec);
  }

  lemma AllResolvedStep(c: Config, s: State, e: Event)
    requires Keyed(c) && Resolving(c) && AllResolved(c, s) && Enabled(c, s, e)
    ensures AllResolved(c, Next(c, s, e))
  {
    var n := e.n;
    if e.Start? && e.outcome.Ok? {
      RewrittenResolved(c, s, e);
    }
    assert ResultResolved(s.phase[n]);
    PhaseResolved(c, s, e);
    VerticesResolvedStep(c, s, e);
    SharedResolvedStep(c, s, e);
  }

  lemma VerticesResolvedStep(c: Config, s: State, e: Event)
    requires VerticesResolved(c, s) && Steppable(c, s, e) && ResultResolved(PhaseAfter(c, s, e))
    requires e.Start? && e.outcome.Ok? ==> RefFree(e.outcome.value)
    ensures VerticesResolved(c, Next(c, s, e))
  {
    var s' := Next(c, s, e);
    forall m | m in Nodes(c) ensures ResultResolved(s'.phase[m]) {
      assert ResultResolved(s.phase[m]);
    }
    forall m | m in c.spec && IsRunning(s'.phase[m]) ensures RefFree(s'.spec[m].attributes) {
      assert m != e.n ==> s'.phase[m] == s.phase[m];
    }
  }

  lemma SharedResolvedStep(c: Config, s: State, e: Event)
    requires SharedResolved(s) && Steppable(c, s, e) && ResultResolved(s.phase[e.n])
    requires e.Start? && e.outcome.Ok? ==> RefFree(e.outcome.value)
    ensures SharedResolved(Next(c, s, e))
  {
    SnapshotResolved(s.state);
  }

  lemma SnapshotResolved(state: ResourceIndex)
    requires IndexRefFree(state)
    ensures IndexResolved(Snapshot(state))
  {
  }

  /** At every point of an apply or a destroy no index and no saved state holds a reference. */
  lemma NeverRecordsAReference(c: Config, s: State)
    requires Keyed(c) && Resolving(c) && Reachable(c, s)
    ensures AllResolved(c, s)
    ensures IndexResolved(Latest(c, s))
  {
    forall t, e | AllResolved(c, t) && Enabled(c, t, e)
      ensures AllResolved(c, Next(c, t, e))
    {
      AllResolvedStep(c, t, e);
    }
    HoldsAlways(c, s, t => AllResolved(c, t));
  }

  /** The replacements a deletion can make in a resource recorded without references: those of secrets, in an apply. */
  ghost function SecretsOnly(c: Config): Env {
    Env(Off, if IsDestroy(c.op) then None else c.secrets)
  }

  /** No string of the tree is a secret whose value differs from it or cannot be had. */
  ghost predicate SecretsStand(v: Value, secrets: Option<string -> Reply<string>>) {
    forall t :: t in Strings(v) && IsSecured(t) && secrets.Some? ==> secrets.value(t) == Ok(t)
  }

  /**
   Starting the deletion of a resource recorded without references replaces its secrets and nothing
   else, whatever has been published; it cannot fail on a reference, and an error it reports is that
   of a secret. It leaves the resource as it was if and only if every secret string in it is its own value.
   */
  lemma DeletionsReplaceSecretsOnly(c: Config, s: State, n: string, outcome: Reply<Value>)
    requires Keyed(c) && Reachable(c, s) && IsDeleteNode(c, n) && Enabled(c, s, Start(n, outcome))
    requires RefFree(c.prior[n].attributes)
    ensures MayYield(c.prior[n].attributes, SecretsOnly(c), outcome)
    ensures outcome.Err? ==> outcome == Err(SecretUnavailable)
    ensures outcome == Ok(c.prior[n].attributes) <==> SecretsStand(c.prior[n].attributes, SecretsOnly(c).secrets)
  {
    NodeFacts(c, s, n);
    var v, env := c.prior[n].attributes, SecretsOnly(c);
    forall t | t in Strings(v) ensures Leaf(EnvOf(c, s.ctx), t) == Leaf(env, t) { assert !IsRef(t); }
    OutcomesAgree(v, EnvOf(c, s.ctx), env);
    assert SecretsStand(v, env.secrets) <==> forall t :: t in Strings(v) ==> Leaf(env, t) == Ok(Str(t));
    if SecretsStand(v, env.secrets) {
      FixedStrings(v, env);
      AllOkDecides(v, env, outcome);
    } else if outcome.Ok? {
      UnchangedByStrings(v, env);
    }
  }
}
