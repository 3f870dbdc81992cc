/**
 Under a deterministic runtime that sees one resource at a time, what a vertex decides and does
 follows from its resolved plan, its prior resource and the live state at the start. That the plan
 is the same in every schedule is shown in Confluence.
 */
module Determined {
  import opened Models
  import opened References
  import opened Parsers
  import opened Engine
  import opened Safety
  import opened Decisions
  import Fields
  import opened Resolved

  predicate HasCalled(p: Phase) {
    p.Called? || IsPublished(p)
  }

  /** The vertex has not called the runtime to change anything. */
  predicate BeforeCall(op: OperationType, p: Phase) {
    IsPreview(op) || p.Waiting? || p.Skipped? || p.Started? || p.Decided?
  }

  /** The plan a running vertex holds is its spec, resolved against what has been published. */
  ghost predicate PlanAt(c: Config, s: State, n: string)
    requires n in c.spec && n in s.phase && n in s.spec
  {
    IsRunning(s.phase[n]) ==>
      && AllOk(c.spec[n].attributes, EnvOf(c, s.ctx))
      && s.spec[n].attributes == Subst(c.spec[n].attributes, EnvOf(c, s.ctx))
  }

  /** Its action follows from its plan, its prior resource and the live state the operation began with. */
  ghost predicate DecisionAt(c: Config, s: State, n: string)
    requires n in s.phase
  {
    HasAction(s.phase[n]) ==>
      var d := Decide(c, n, PlanOf(c, s, n), Get(s.prior, n), Get(c.live, n));
      d.Ok? && d.value.action == s.phase[n].action && (IsPreview(c.op) ==> d.value.dryRun == s.phase[n].result)
  }

  /** So do the result it records and the live state it leaves. */
  ghost predicate OutcomeAt(c: Config, s: State, n: string)
    requires n in s.phase
  {
    && (BeforeCall(c.op, s.phase[n]) ==> Get(s.live, n) == Get(c.live, n))
    && (!IsPreview(c.op) && HasCalled(s.phase[n]) ==>
          CallRuntime(c, n, s.phase[n].action, PlanOf(c, s, n), Get(s.prior, n), Get(c.live, n))
            == (Ok(s.phase[n].result), Get(s.live, n)))
  }

  ghost predicate DeterminedAt(c: Config, s: State, n: string) {
    && n in s.phase && s.spec.Keys == c.spec.Keys
    && (n in c.spec ==> PlanAt(c, s, n))
    && DecisionAt(c, s, n) && OutcomeAt(c, s, n)
  }

  // ---- One step ----

  /** Publishing a resource changes no plan: a plan that resolved had all it refers to. */
  lemma PublishingKeepsPlans(c: Config, v: Value, ctx: ResourceIndex, n: string, result: Option<Resource>)
    requires n !in ctx && AllOk(v, EnvOf(c, ctx))
    ensures AllOk(v, EnvOf(c, ctx[n := result])) && Subst(v, EnvOf(c, ctx[n := result])) == Subst(v, EnvOf(c, ctx))
  {
    if EnvOf(c, ctx).implicit.Resolve? {
      forall k | k in Refs(v) ensures k in ctx && k != n {
        ResolvedRefsArePresent(v, ctx, c.secrets, k);
      }
      ResolutionReadsRefs(v, ctx, ctx[n := result], c.secrets);
    }
  }

  lemma PlanAtStep(c: Config, s: State, e: Event, n: string)
    requires Enabled(c, s, e) && n in c.spec && PlanAt(c, s, n)
    requires n == e.n && e.Start? ==> FramedAt(c.spec[n], s.spec[n], false)
    requires e.Refresh? ==> e.n !in s.ctx
    ensures PlanAt(c, Next(c, s, e), n)
  {
    if e.Refresh? && IsRunning(s.phase[n]) {
      var result := if s.phase[e.n].action.Delete? then None else s.phase[e.n].result;
      PublishingKeepsPlans(c, c.spec[n].attributes, s.ctx, e.n, result);
    }
  }

  lemma DecisionAtStep(c: Config, s: State, e: Event, n: string)
    requires Steppable(c, s, e) && n in Nodes(c) && DecisionAt(c, s, n) && OutcomeAt(c, s, n)
    ensures DecisionAt(c, Next(c, s, e), n)
  {
    PlanStays(c, s, e, n);
  }

  /** Only its own start changes what a vertex plans from. */
  lemma PlanStays(c: Config, s: State, e: Event, n: string)
    requires Steppable(c, s, e) && n in Nodes(c)
    ensures !(e.Start? && e.n == n) ==>
      PlanOf(c, Next(c, s, e), n) == PlanOf(c, s, n) && Get(Next(c, s, e).prior, n) == Get(s.prior, n)
    ensures !(e.Call? && e.n == n) ==> Get(Next(c, s, e).live, n) == Get(s.live, n)
    ensures e.n != n ==> Next(c, s, e).phase[n] == s.phase[n]
  {
  }

  lemma OutcomeAtStep(c: Config, s: State, e: Event, n: string)
    requires Steppable(c, s, e) && n in Nodes(c) && OutcomeAt(c, s, n)
    ensures OutcomeAt(c, Next(c, s, e), n)
  {
    PlanStays(c, s, e, n);
  }

  lemma DeterminedAtStep(c: Config, s: State, e: Event, n: string)
    requires Enabled(c, s, e) && n in Nodes(c) && DeterminedAt(c, s, n)
    requires FactsAt(c, s, n) && FactsAt(c, s, e.n)
    ensures DeterminedAt(c, Next(c, s, e), n)
  {
    if n in c.spec {
      PlanAtStep(c, s, e, n);
    }
    DecisionAtStep(c, s, e, n);
    OutcomeAtStep(c, s, e, n);
  }

  lemma DeterminedInitially(c: Config, n: string)
    requires n in Nodes(c)
    ensures DeterminedAt(c, Initial(c), n)
  {
  }

  lemma VertexIsDetermined(c: Config, s: State, n: string)
    requires Keyed(c) && Reachable(c, s) && n in Nodes(c)
    ensures DeterminedAt(c, s, n)
  {
    InvInitially(c);
    DeterminedInitially(c, n);
    forall t, e | Inv(c, t) && DeterminedAt(c, t, n) && Enabled(c, t, e)
      ensures Inv(c, Next(c, t, e)) && DeterminedAt(c, Next(c, t, e), n)
    {
      InvAt(c, t, n);
      InvAt(c, t, e.n);
      InvStep(c, t, e);
      DeterminedAtStep(c, t, e, n);
    }
    HoldsAlways(c, s, t => Inv(c, t) && DeterminedAt(c, t, n));
  }

  /** The plan, the prior resource and the live state at the start that a vertex works with. */
  ghost function Inputs(c: Config, s: State, n: string): (Option<Resource>, Option<Resource>, Attributes) {
    (if n in c.spec && n in s.spec then Some(s.spec[n]) else None,
     if n in s.prior then Some(s.prior[n]) else None,
     if n in c.live then Some(c.live[n]) else None)
  }

  /**
   What an action says about the world: a deletion is of a resource that is only recorded, a creation
   of one that is neither recorded nor live, and the rest were told apart by asking the runtime whether
   the live resource, missing or not, is as the dry run of the plan. A preview shows that dry run.
   */
  lemma ActionsMean(c: Config, s: State, n: string)
    requires Keyed(c) && Reachable(c, s) && n in Nodes(c) && n in s.phase && HasAction(s.phase[n])
    ensures s.spec.Keys == c.spec.Keys && s.prior.Keys == c.prior.Keys
    ensures s.phase[n].action.Delete? <==> n in c.prior && n !in c.spec
    ensures var (plan, prior, live) := Inputs(c, s, n);
      && ActionFollows(c, n, plan, prior, live, s.phase[n].action)
      && (IsPreview(c.op) ==> DryRunFollows(c, n, plan, prior, live, s.phase[n].action, s.phase[n].result))
  {
    NodeFacts(c, s, n);
    VertexIsDetermined(c, s, n);
    var (plan, prior, live) := Inputs(c, s, n);
    DecideMeans(c, n, plan, prior, live);
  }

  /** What a vertex records, and leaves live, once its runtime call has succeeded. */
  lemma OutcomesMean(c: Config, s: State, n: string)
    requires Keyed(c) && Reachable(c, s) && n in Nodes(c) && !IsPreview(c.op) && n in s.phase && HasCalled(s.phase[n])
    ensures var (plan, prior, live) := Inputs(c, s, n);
      CallFollows(c, n, s.phase[n].action, plan, prior, live, Ok(s.phase[n].result),
                  if n in s.live then Some(s.live[n]) else None)
  {
    NodeFacts(c, s, n);
    VertexIsDetermined(c, s, n);
    var (plan, prior, live) := Inputs(c, s, n);
    CallMeans(c, n, s.phase[n].action, plan, prior, live);
  }

  // ---- Preview and apply ----

  /** A preview and an apply of the same inputs. */
  ghost predicate SameInputs(preview: Config, apply: Config) {
    && preview.op.ApplyPreview? && apply.op.Apply?
    && preview.spec == apply.spec && preview.prior == apply.prior && preview.live == apply.live
    && preview.rt == apply.rt && preview.secrets == apply.secrets
  }

  /** The plan of a resource without references: only its secrets are replaced. */
  ghost function PlainPlan(c: Config, n: string): Option<Resource> {
    if n in c.spec then Some(c.spec[n].(attributes := Subst(c.spec[n].attributes, Env(Off, c.secrets)))) else None
  }

  /** Recorded or live already, the resource compares differently when the ignored fields are left out. */
  ghost predicate IgnoringMatters(c: Config, n: string) {
    var plan, prior, live := PlainPlan(c, n), Get(c.prior, n), Get(c.live, n);
    exists a, b ::
      a != b && ComparedAs(c, n, plan, prior, live, a) && ComparedAs(c.(ignore := []), n, plan, prior, live, b)
  }

  /**
   For a spec without references, the action previewed for a resource is the action the apply
   computes for it, whatever the two schedules and whatever else has failed, if and only if the
   fields that the preview alone ignores make no difference. Without ignored fields they always agree.
   */
  lemma PreviewAgreesWithApply(preview: Config, apply: Config, s: State, t: State, n: string)
    requires Keyed(preview) && Keyed(apply) && SameInputs(preview, apply) && apply.ignore == []
    requires Reachable(preview, s) && Reachable(apply, t) && n in Nodes(apply)
    requires n in apply.spec ==> RefFree(apply.spec[n].attributes)
    requires n in s.phase && HasAction(s.phase[n]) && n in t.phase && HasAction(t.phase[n])
    ensures s.phase[n].action == t.phase[n].action <==> !IgnoringMatters(preview, n)
    ensures preview.ignore == [] ==> s.phase[n].action == t.phase[n].action
  {
    NodeFacts(preview, s, n);
    NodeFacts(apply, t, n);
    if n in apply.spec {
      PlansFromSpec(preview, s, n);
      PlansFromSpec(apply, t, n);
      CompareDecides(preview, apply, n);
    }
  }

  lemma PlansFromSpec(c: Config, s: State, n: string)
    requires Keyed(c) && Reachable(c, s) && n in c.spec && (c.op.Apply? || c.op.ApplyPreview?)
    requires RefFree(c.spec[n].attributes) && n in s.phase && HasAction(s.phase[n])
    ensures var d := Decide(c, n, PlainPlan(c, n), Get(c.prior, n), Get(c.live, n));
      d.Ok? && d.value.action == s.phase[n].action
  {
    NodeFacts(c, s, n);
    VertexIsDetermined(c, s, n);
    SubstAgrees(c.spec[n].attributes, EnvOf(c, s.ctx), Env(Off, c.secrets));
    assert PlanOf(c, s, n) == PlainPlan(c, n);
  }

  lemma CompareDecides(preview: Config, apply: Config, n: string)
    requires SameInputs(preview, apply) && apply.ignore == [] && n in apply.spec
    requires Decide(preview, n, PlainPlan(preview, n), Get(preview.prior, n), Get(preview.live, n)).Ok?
    requires Decide(apply, n, PlainPlan(apply, n), Get(apply.prior, n), Get(apply.live, n)).Ok?
    ensures Decide(preview, n, PlainPlan(preview, n), Get(preview.prior, n), Get(preview.live, n)).value.action
         == Decide(apply, n, PlainPlan(apply, n), Get(apply.prior, n), Get(apply.live, n)).value.action
      <==> !IgnoringMatters(preview, n)
  {
    var plan, prior, live := PlainPlan(preview, n), Get(preview.prior, n), Get(preview.live, n);
    assert plan == PlainPlan(apply, n);
    forall a
      ensures ComparedAs(apply, n, plan, prior, live, a) <==>
        ComparedAs(preview.(ignore := []), n, plan, prior, live, a)
    {
    }
    DecideMeans(preview, n, plan, prior, live);
    DecideMeans(apply, n, plan, prior, live);
    forall a, b | ComparedAs(preview, n, plan, prior, live, a) && ComparedAs(preview, n, plan, prior, live, b)
      ensures a == b
    {
      ComparedOnce(preview, n, plan, prior, live, a, b);
    }
    forall a, b | ComparedAs(apply, n, plan, prior, live, a) && ComparedAs(apply, n, plan, prior, live, b)
      ensures a == b
    {
      ComparedOnce(apply, n, plan, prior, live, a, b);
    }
  }

  lemma ComparedOnce(c: Config, n: string, plan: Option<Resource>, prior: Option<Resource>, live: Attributes,
                     a: Reply<bool>, b: Reply<bool>)
    requires ComparedAs(c, n, plan, prior, live, a) && ComparedAs(c, n, plan, prior, live, b)
    ensures a == b
  {
    var read, dry := ReadOf(c, n, plan, prior, live).value, DryRunOf(c, n, plan.value, prior, live).value;
    CompareMeans(c.rt, c.ignore, read, dry, a);
    CompareMeans(c.rt, c.ignore, read, dry, b);
  }

  // ---- Ignored fields ----

  lemma {:induction false} SplitAllAlike(a: seq<string>, b: seq<string>)
    requires multiset(a) == multiset(b)
    ensures multiset(SplitAll(a)) == multiset(SplitAll(b))
    decreases |a|
  {
    if a == [] {
      assert |multiset(b)| == |b|;
    } else {
      var i := Fields.MatchFirst(a, b);
      SplitAllAlike(a[1..], Fields.Without(b, i));
      assert SplitAll(a) == [Split(a[0], '.')] + SplitAll(a[1..]);
      Fields.WithoutMultiset(SplitAll(b), i);
      assert Fields.Without(SplitAll(b), i) == SplitAll(Fields.Without(b, i));
    }
  }

  /** The order in which the ignored fields are given changes neither the action of a vertex nor its dry run. */
  lemma IgnoreOrderKeepsDecision(c: Config, d: Config, n: string, plan: Option<Resource>, prior: Option<Resource>,
                                 live: Attributes)
    requires d == c.(ignore := d.ignore) && multiset(c.ignore) == multiset(d.ignore)
    ensures Decide(c, n, plan, prior, live) == Decide(d, n, plan, prior, live)
  {
    SplitAllAlike(c.ignore, d.ignore);
    forall v: Value ensures Fields.RemoveFields(v, SplitAll(c.ignore)) == Fields.RemoveFields(v, SplitAll(d.ignore)) {
      Fields.IgnoreOrderIrrelevant(v, SplitAll(c.ignore), SplitAll(d.ignore));
    }
    assert |multiset(c.ignore)| == |c.ignore| && |multiset(d.ignore)| == |d.ignore|;
  }
}
