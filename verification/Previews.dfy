/**
 What a preview leaves behind: the order of its steps, and a spec resolved in place.
 */
module Previews {
  import opened Models
  import opened References
  import opened Reachability
  import opened Parsers
  import opened Graphs
  import opened Engine
  import opened Safety
  import opened Resolved

  // ---- The change order ----

  /** StepKeys lists every previewed resource once, and ChangeSteps has its step. */
  ghost predicate StepsAreRecorded(c: Config, s: State) {
    && s.phase.Keys == Nodes(c) && NoDuplicates(s.stepKeys)
    && Elements(s.stepKeys) == s.changeSteps.Keys <= Nodes(c)
    && forall n :: n in Nodes(c) ==> StepAt(c, s, n)
  }

  ghost predicate StepAt(c: Config, s: State, n: string) {
    && n in s.phase && (IsPreview(c.op) ==> (n in s.changeSteps <==> s.phase[n].Succeeded?))
    && (n in s.changeSteps ==>
         s.phase[n].Succeeded? && s.changeSteps[n] == ChangeStep(s.phase[n].action, s.phase[n].result))
  }

  /** No step depends, however indirectly, on one listed after it. */
  ghost predicate IsLinearExtension(edges: Edges, order: seq<string>) {
    forall i, j :: 0 <= i < j < |order| ==> !Reaches(edges, order[j], order[i])
  }

  lemma StepAtStep(c: Config, s: State, e: Event, n: string)
    requires Steppable(c, s, e) && StepAt(c, s, n) && n in Nodes(c)
    ensures StepAt(c, Next(c, s, e), n)
  {
  }

  lemma StepsAreRecordedStep(c: Config, s: State, e: Event)
    requires Steppable(c, s, e) && StepsAreRecorded(c, s)
    ensures StepsAreRecorded(c, Next(c, s, e))
  {
    var s' := Next(c, s, e);
    forall n | n in Nodes(c) ensures StepAt(c, s', n) { StepAtStep(c, s, e, n); }
    if e.Order? {
      assert StepAt(c, s, e.n);
      assert e.n !in Elements(s.stepKeys);
      assert Elements(s'.stepKeys) == Elements(s.stepKeys) + {e.n};
      forall i, j | 0 <= i < j < |s'.stepKeys| ensures s'.stepKeys[i] != s'.stepKeys[j] {
        assert s'.stepKeys[i] in Elements(s.stepKeys);
      }
    }
  }

  lemma LinearExtensionStep(c: Config, s: State, e: Event)
    requires Steppable(c, s, e) && IsLinearExtension(c.edges, s.stepKeys)
    requires e.Order? ==> forall m :: m in s.stepKeys ==> !Reaches(c.edges, e.n, m)
    ensures IsLinearExtension(c.edges, Next(c, s, e).stepKeys)
  {
  }

  /** A vertex that has yet to finish comes before none that has. */
  lemma StepComesLater(c: Config, s: State, n: string, earlier: string)
    requires WellFormed(c) && Ordered(c, s) && StepsAreRecorded(c, s)
    requires n in s.phase && s.phase[n].Published? && earlier in s.stepKeys
    ensures !Reaches(c.edges, n, earlier)
  {
    assert earlier in Elements(s.stepKeys) && StepAt(c, s, earlier);
    NoReservedNodes(c);
    if Reaches(c.edges, n, earlier) {
      AncestorsFinished(c, s, n, earlier);
    }
  }

  lemma NoReservedNodes(c: Config)
    requires WellFormed(c)
    ensures ROOT !in Nodes(c)
  {
  }

  ghost predicate OrderInv(c: Config, s: State) {
    Ordered(c, s) && StepsAreRecorded(c, s) && IsLinearExtension(c.edges, s.stepKeys)
  }

  lemma OrderInvStep(c: Config, s: State, e: Event)
    requires WellFormed(c) && OrderInv(c, s) && Enabled(c, s, e)
    ensures OrderInv(c, Next(c, s, e))
  {
    OrderedStep(c, s, e);
    StepsAreRecordedStep(c, s, e);
    if e.Order? {
      forall m | m in s.stepKeys ensures !Reaches(c.edges, e.n, m) { StepComesLater(c, s, e.n, m); }
    }
    LinearExtensionStep(c, s, e);
  }

  lemma OrderInvInitially(c: Config)
    ensures OrderInv(c, Initial(c))
  {
  }

  lemma OrderInvHolds(c: Config, s: State)
    requires WellFormed(c) && Reachable(c, s)
    ensures OrderInv(c, s)
  {
    OrderInvInitially(c);
    forall t, e | OrderInv(c, t) && Enabled(c, t, e) ensures OrderInv(c, Next(c, t, e)) { OrderInvStep(c, t, e); }
    HoldsAlways(c, s, t => OrderInv(c, t));
  }

  /**
   Under any schedule the step keys are free of duplicates, are the keys of the change steps, which
   hold the action and result of each vertex, and list dependencies first; after a preview without
   errors they are all resources but those whose vertex panicked.
   */
  lemma PreviewOrder(c: Config, s: State)
    requires WellFormed(c) && Reachable(c, s) && IsPreview(c.op)
    ensures NoDuplicates(s.stepKeys) && Elements(s.stepKeys) == s.changeSteps.Keys
    ensures forall n :: n in s.changeSteps ==>
      n in s.phase && s.phase[n].Succeeded? && s.changeSteps[n] == ChangeStep(s.phase[n].action, s.phase[n].result)
    ensures forall u, v :: u in s.stepKeys && v in s.stepKeys && Reaches(DependencyLinks(c.spec, c.prior), u, v) ==>
      Precedes(s.stepKeys, u, v)
    ensures WalkSucceeds(c, s) ==> s.changeSteps.Keys == set n | n in Nodes(c) && n in s.phase && !s.phase[n].Panicked?
  {
    OrderInvHolds(c, s);
    NoReservedNodes(c);
    forall n | n in s.changeSteps ensures StepAt(c, s, n) { assert n in Nodes(c); }
    forall u, v | u in s.stepKeys && v in s.stepKeys && Reaches(DependencyLinks(c.spec, c.prior), u, v)
      ensures Precedes(s.stepKeys, u, v)
    {
      assert u in Elements(s.stepKeys);
      LinkedStepsAreOrdered(c, s.stepKeys, u, v);
    }
    if WalkSucceeds(c, s) {
      forall n | n in Nodes(c) ensures n in s.changeSteps <==> !s.phase[n].Panicked? { assert StepAt(c, s, n); }
    }
  }

  lemma LinkedStepsAreOrdered(c: Config, order: seq<string>, u: string, v: string)
    requires WellFormed(c) && IsLinearExtension(c.edges, order) && u in order && v in order && u != ROOT
    requires Reaches(DependencyLinks(c.spec, c.prior), u, v)
    ensures Precedes(order, u, v)
  {
    ApplyGraphOrders(c.spec, c.prior);
    var i :| 0 <= i < |order| && order[i] == u;
    var j :| 0 <= j < |order| && order[j] == v;
    assert i != j;
  }

  ghost predicate Precedes(order: seq<string>, u: string, v: string) {
    exists i, j :: 0 <= i < j < |order| && order[i] == u && order[j] == v
  }

  // ---- The spec after a preview ----

  ghost predicate RefsShrink(before: Value, after: Value) {
    Refs(after) <= Refs(before) && (HasEmptyRef(after) ==> HasEmptyRef(before))
  }

  /** Replacing by values without references can only remove references. */
  lemma SubstShrinksRefs(v: Value, env: Env)
    requires AllOk(v, env) && SecretsRefFree(env.secrets)
    requires env.implicit.Off? || (env.implicit.Resolve? && IndexRefFree(env.implicit.index))
    ensures RefsShrink(v, Subst(v, env))
  {
    if env.implicit.Resolve? {
      ResolutionIsRefFree(v, env.implicit.index, env.secrets);
    } else {
      forall s | s in Strings(Subst(v, env)) && IsRef(s) ensures s in Strings(v) {
        var t := SubstStrings(v, env, s);
      }
    }
  }

  /** A preview whose inputs bring in no reference. */
  ghost predicate CleanPreview(c: Config) {
    c.op.ApplyPreview? && SecretsRefFree(c.secrets) && (c.prior != map[] ==> Resolving(c))
  }

  ghost predicate SpecShrinks(c: Config, s: State) {
    s.spec.Keys == c.spec.Keys && forall n :: n in c.spec ==> RefsShrink(c.spec[n].attributes, s.spec[n].attributes)
  }

  lemma SpecShrinksStep(c: Config, s: State, e: Event)
    requires CleanPreview(c) && Framed(c, s) && Enabled(c, s, e) && SpecShrinks(c, s)
    requires (c.prior != map[] ==> IndexRefFree(s.ctx))
    ensures SpecShrinks(c, Next(c, s, e))
  {
    if e.Start? && e.outcome.Ok? && e.n in c.spec {
      assert FramedAt(c.spec[e.n], s.spec[e.n], false);
      SubstShrinksRefs(s.spec[e.n].attributes, EnvOf(c, s.ctx));
    }
  }

  ghost predicate ShrinksSoFar(c: Config, s: State) {
    Framed(c, s) && SpecShrinks(c, s) && (c.prior != map[] ==> AllResolved(c, s))
  }

  lemma ShrinksSoFarStep(c: Config, s: State, e: Event)
    requires Keyed(c) && CleanPreview(c) && ShrinksSoFar(c, s) && Enabled(c, s, e)
    ensures ShrinksSoFar(c, Next(c, s, e))
  {
    FramedStep(c, s, e);
    SpecShrinksStep(c, s, e);
    if c.prior != map[] { AllResolvedStep(c, s, e); }
  }

  lemma SpecAlwaysShrinks(c: Config, s: State)
    requires Keyed(c) && CleanPreview(c) && Reachable(c, s)
    ensures SpecShrinks(c, s) && Framed(c, s)
  {
    forall t, e | ShrinksSoFar(c, t) && Enabled(c, t, e)
      ensures ShrinksSoFar(c, Next(c, t, e))
    {
      ShrinksSoFarStep(c, t, e);
    }
    InvInitially(c);
    HoldsAlways(c, s, t => ShrinksSoFar(c, t));
  }

  /** The apply that follows a preview on the same spec builds the very graph the preview was ordered by. */
  lemma PreviewKeepsApplyOrder(c: Config, s: State)
    requires WellFormed(c) && CleanPreview(c) && Reachable(c, s)
    ensures Cover(ApplyEdges(s.spec, c.prior)) == c.edges && Resolvable(s.spec)
  {
    SpecAlwaysShrinks(c, s);
    forall n | n in c.spec
      ensures Elements(s.spec[n].dependsOn) == Deps(c.spec[n]) && RefsShrink(c.spec[n].attributes, s.spec[n].attributes)
    {
      assert FramedAt(c.spec[n], s.spec[n], HasStarted(s.phase[n]));
    }
    ResolvedSpecOrdersAlike(c.spec, s.spec, c.prior);
  }
}
