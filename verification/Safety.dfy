/**
 What holds at every reachable state of a walk, whatever the interleaving and whatever fails.
 */
module Safety {
  import opened Models
  import opened References
  import opened Reachability
  import opened Parsers
  import opened Graphs
  import opened Engine

  predicate HasAction(p: Phase) {
    p.Decided? || p.Called? || IsPublished(p)
  }

  /** Vertices only ever touch the attributes of their own resource, and not before they start. */
  ghost predicate Framed(c: Config, s: State) {
    && s.phase.Keys == Nodes(c) && s.spec.Keys == c.spec.Keys && s.prior.Keys == c.prior.Keys
    && (forall n :: n in c.spec ==> FramedAt(c.spec[n], s.spec[n], HasStarted(s.phase[n])))
    && (forall n :: n in c.prior ==> FramedAt(c.prior[n], s.prior[n], n !in c.spec && HasStarted(s.phase[n])))
  }

  predicate FramedAt(before: Resource, after: Resource, rewritten: bool) {
    if rewritten then after.id == before.id && after.dependsOn == before.dependsOn else after == before
  }

  /** A vertex that has started found its parents finished. */
  ghost predicate Ordered(c: Config, s: State) {
    && s.phase.Keys == Nodes(c)
    && forall n, u :: n in Nodes(c) && HasStarted(s.phase[n]) && u in Parents(c, n) ==> WalkerOk(s.phase[u])
  }

  /** Exactly the prior-only resources are deleted; everything else yields a resource with its own ID. */
  ghost predicate ResultAt(c: Config, n: string, p: Phase) {
    HasAction(p) ==>
      && (p.action.Delete? <==> IsDeleteNode(c, n))
      && (p.action.Delete? ==> p.result.None?)
      && (!p.action.Delete? ==> p.result.Some? && p.result.value.id == n)
  }

  ghost predicate Results(c: Config, s: State) {
    && s.phase.Keys == Nodes(c)
    && forall n :: n in Nodes(c) ==> ResultAt(c, n, s.phase[n])
  }

  /** CtxResourceIndex has what was published, StateResourceIndex that and the prior resource of all else. */
  ghost predicate IndexesAt(c: Config, s: State, n: string)
    requires n in s.phase && s.prior.Keys == c.prior.Keys
  {
    if IsPublished(s.phase[n]) then
      && Get(s.ctx, n) == Some(s.phase[n].result)
      && Get(s.state, n) == Some(s.phase[n].result)
    else
      && n !in s.ctx
      && Get(s.state, n) == if n in c.prior then Some(Some(s.prior[n])) else None
  }

  ghost predicate Indexes(c: Config, s: State) {
    && s.phase.Keys == Nodes(c) && s.prior.Keys == c.prior.Keys
    && s.ctx.Keys <= Nodes(c) && s.state.Keys <= Nodes(c)
    && forall n :: n in Nodes(c) ==> IndexesAt(c, s, n)
  }

  /** Serials grow with every write, and none repeats. */
  ghost predicate SerialsGrow(c: Config, s: State) {
    && c.serial <= s.serial
    && (forall i :: 0 <= i < |s.saves| ==> c.serial < s.saves[i].serial <= s.serial)
    && (forall i, j :: 0 <= i < j < |s.saves| ==> s.saves[i].serial < s.saves[j].serial)
  }

  /** What the storage returns as the latest resources. */
  ghost function Latest(c: Config, s: State): Index {
    if s.saves == [] then c.prior else s.saves[|s.saves| - 1].resources
  }

  /** A vertex that has reported success is in the latest save with its result, or gone from it if it was deleted. */
  ghost predicate SavedAt(c: Config, s: State, n: string)
    requires n in s.phase
  {
    && (s.phase[n].Succeeded? ==> s.saves != [] && Get(Latest(c, s), n) == s.phase[n].result)
    && (!IsPublished(s.phase[n]) ==> (n in Latest(c, s) <==> n in c.prior))
  }

  ghost predicate Saved(c: Config, s: State) {
    && s.phase.Keys == Nodes(c) && Latest(c, s).Keys <= Nodes(c)
    && forall n :: n in Nodes(c) ==> SavedAt(c, s, n)
  }

  ghost predicate Inv(c: Config, s: State) {
    Framed(c, s) && Ordered(c, s) && Results(c, s) && Indexes(c, s) && SerialsGrow(c, s)
      && (!IsPreview(c.op) ==> Saved(c, s))
  }

  // ---- The invariant holds ----

  lemma FramedStep(c: Config, s: State, e: Event)
    requires Framed(c, s) && Steppable(c, s, e)
    ensures Framed(c, Next(c, s, e))
  {
    var s' := Next(c, s, e);
    forall n | n in c.spec
      ensures FramedAt(c.spec[n], s'.spec[n], HasStarted(s'.phase[n]))
    {
      SpecFramedAt(c, s, e, n);
    }
    forall n | n in c.prior
      ensures FramedAt(c.prior[n], s'.prior[n], n !in c.spec && HasStarted(s'.phase[n]))
    {
      PriorFramedAt(c, s, e, n);
    }
  }

  lemma SpecFramedAt(c: Config, s: State, e: Event, n: string)
    requires Steppable(c, s, e) && n in c.spec && FramedAt(c.spec[n], s.spec[n], HasStarted(s.phase[n]))
    ensures FramedAt(c.spec[n], Next(c, s, e).spec[n], HasStarted(Next(c, s, e).phase[n]))
  {
  }

  lemma PriorFramedAt(c: Config, s: State, e: Event, n: string)
    requires Steppable(c, s, e) && n in c.prior
    requires FramedAt(c.prior[n], s.prior[n], n !in c.spec && HasStarted(s.phase[n]))
    ensures FramedAt(c.prior[n], Next(c, s, e).prior[n], n !in c.spec && HasStarted(Next(c, s, e).phase[n]))
  {
  }

  lemma OrderedStep(c: Config, s: State, e: Event)
    requires Ordered(c, s) && Enabled(c, s, e)
    ensures Ordered(c, Next(c, s, e))
  {
    var s' := Next(c, s, e);
    forall n, u | n in Nodes(c) && HasStarted(s'.phase[n]) && u in Parents(c, n) ensures WalkerOk(s'.phase[u]) {
      assert HasStarted(s.phase[n]) || e.Start?;
      assert WalkerOk(s.phase[u]);
    }
  }

  lemma ResultsStep(c: Config, s: State, e: Event)
    requires Keyed(c) && Framed(c, s) && Results(c, s) && Steppable(c, s, e)
    ensures Results(c, Next(c, s, e))
  {
    forall n | n in Nodes(c) ensures ResultAt(c, n, Next(c, s, e).phase[n]) {
      assert ResultAt(c, n, s.phase[n]);
      if n == e.n {
        ResultAtStep(c, s, e);
      }
    }
  }

  lemma ResultAtStep(c: Config, s: State, e: Event)
    requires Keyed(c) && Framed(c, s) && Steppable(c, s, e) && ResultAt(c, e.n, s.phase[e.n])
    ensures ResultAt(c, e.n, PhaseAfter(c, s, e))
  {
    var n := e.n;
    var plan, prior, live := PlanOf(c, s, n), Get(s.prior, n), Get(s.live, n);
    assert n in c.spec ==> FramedAt(c.spec[n], s.spec[n], HasStarted(s.phase[n]));
    assert n in c.prior ==> FramedAt(c.prior[n], s.prior[n], n !in c.spec && HasStarted(s.phase[n]));
    if e.Compute? {
      DecideResult(c, n, plan, prior, live);
    } else if e.Call? {
      CallResult(c, n, s.phase[n].action, plan, prior, live);
    }
  }

  lemma DecideResult(c: Config, n: string, plan: Option<Resource>, prior: Option<Resource>, live: Attributes)
    requires plan.Some? <==> n in c.spec
    requires n in Nodes(c) && (IsDestroy(c.op) ==> c.spec == map[]) && (plan.Some? ==> plan.value.id == n)
    ensures var d := Decide(c, n, plan, prior, live); d.Ok? ==> ResultAt(c, n, Decided(d.value.action, d.value.dryRun))
  {
  }

  lemma CallResult(c: Config, n: string, action: ActionType, plan: Option<Resource>, prior: Option<Resource>,
                   live: Attributes)
    requires plan.Some? ==> plan.value.id == n
    requires prior.Some? ==> prior.value.id == n
    requires action.Delete? <==> IsDeleteNode(c, n)
    ensures var r := CallRuntime(c, n, action, plan, prior, live).0; r.Ok? ==> ResultAt(c, n, Called(action, r.value))
  {
  }

  lemma IndexesStep(c: Config, s: State, e: Event)
    requires Results(c, s) && Indexes(c, s) && Steppable(c, s, e)
    ensures Indexes(c, Next(c, s, e))
  {
    forall n | n in Nodes(c) ensures IndexesAt(c, Next(c, s, e), n) { IndexesAtStep(c, s, e, n); }
  }

  lemma IndexesAtStep(c: Config, s: State, e: Event, n: string)
    requires Steppable(c, s, e) && n in Nodes(c) && IndexesAt(c, s, n) && ResultAt(c, n, s.phase[n])
    ensures IndexesAt(c, Next(c, s, e), n)
  {
  }

  lemma SavedStep(c: Config, s: State, e: Event)
    requires !IsPreview(c.op) && Results(c, s) && Indexes(c, s) && Saved(c, s) && Steppable(c, s, e)
    ensures Saved(c, Next(c, s, e))
  {
    forall n | n in Nodes(c) ensures SavedAt(c, Next(c, s, e), n) { SavedAtStep(c, s, e, n); }
  }

  lemma SavedAtStep(c: Config, s: State, e: Event, n: string)
    requires !IsPreview(c.op) && Steppable(c, s, e) && n in Nodes(c)
    requires IndexesAt(c, s, n) && ResultAt(c, n, s.phase[n]) && SavedAt(c, s, n)
    ensures SavedAt(c, Next(c, s, e), n)
  {
  }

  lemma SerialsStep(c: Config, s: State, e: Event)
    requires SerialsGrow(c, s) && Steppable(c, s, e)
    ensures SerialsGrow(c, Next(c, s, e))
  {
  }

  lemma InvStep(c: Config, s: State, e: Event)
    requires Keyed(c) && Inv(c, s) && Enabled(c, s, e)
    ensures Inv(c, Next(c, s, e))
  {
    FramedStep(c, s, e);
    OrderedStep(c, s, e);
    ResultsStep(c, s, e);
    IndexesStep(c, s, e);
    if !IsPreview(c.op) { SavedStep(c, s, e); }
    SerialsStep(c, s, e);
  }

  lemma InvInitially(c: Config)
    ensures Inv(c, Initial(c))
  {
  }

  lemma InvHolds(c: Config, s: State)
    requires Keyed(c) && Reachable(c, s)
    ensures Inv(c, s)
  {
    InvInitially(c);
    forall t, e | Inv(c, t) && Enabled(c, t, e) ensures Inv(c, Next(c, t, e)) { InvStep(c, t, e); }
    HoldsAlways(c, s, t => Inv(c, t));
  }

  /** What the invariant says about one vertex. */
  ghost predicate FactsAt(c: Config, s: State, n: string) {
    && n in s.phase && s.phase.Keys == Nodes(c) && s.spec.Keys == c.spec.Keys && s.prior.Keys == c.prior.Keys
    && (n in c.spec ==> FramedAt(c.spec[n], s.spec[n], HasStarted(s.phase[n])))
    && (n in c.prior ==> FramedAt(c.prior[n], s.prior[n], n !in c.spec && HasStarted(s.phase[n])))
    && ResultAt(c, n, s.phase[n]) && IndexesAt(c, s, n) && (!IsPreview(c.op) ==> SavedAt(c, s, n))
  }

  lemma InvAt(c: Config, s: State, n: string)
    requires Inv(c, s) && n in Nodes(c)
    ensures FactsAt(c, s, n)
  {
  }

  lemma NodeFacts(c: Config, s: State, n: string)
    requires Keyed(c) && Reachable(c, s) && n in Nodes(c)
    ensures FactsAt(c, s, n)
  {
    InvHolds(c, s);
    InvAt(c, s, n);
  }

  // ---- Order ----

  ghost predicate IsDone(c: Config, s: State, v: string)
    requires s.phase.Keys == Nodes(c)
  {
    v == ROOT || (v in Nodes(c) && WalkerOk(s.phase[v]))
  }

  lemma SourceIsDone(c: Config, s: State, n: string, e: (string, string))
    requires WellFormed(c) && Ordered(c, s) && n in Nodes(c)
    requires HasStarted(s.phase[n]) || ParentsOk(c, s, n)
    requires e.0 == ROOT || e.0 in Parents(c, e.1)
    requires e.1 == n || (e.1 != ROOT && IsDone(c, s, e.1))
    ensures IsDone(c, s, e.0)
  {
  }

  /** What the graph puts before a vertex that starts, or could start, has finished. */
  lemma AncestorsFinished(c: Config, s: State, u: string, n: string)
    requires WellFormed(c) && Ordered(c, s) && n in Nodes(c)
    requires HasStarted(s.phase[n]) || ParentsOk(c, s, n)
    requires Reaches(c.edges, u, n) && u != ROOT
    ensures u in Nodes(c) && WalkerOk(s.phase[u])
  {
    EdgesAreParents(c);
    var finished := iset v | IsDone(c, s, v);
    forall e | e in c.edges && (e.1 == n || e.1 in finished) ensures e.0 in finished {
      SourceIsDone(c, s, n, e);
    }
    ReachedFromStaysIn(c.edges, u, n, finished);
    assert u in finished;
  }

  lemma EdgesAreParents(c: Config)
    requires WellFormed(c)
    ensures forall e :: e in c.edges ==> e.1 in Nodes(c) && e.1 != ROOT && (e.0 == ROOT || e.0 in Parents(c, e.1))
  {
    ApplyGraphOrders(c.spec, c.prior);
    forall e | e in c.edges ensures e.1 in Nodes(c) && e.1 != ROOT && (e.0 == ROOT || e.0 in Nodes(c)) {
      assert e.0 in Endpoints(c.edges) && e.1 in Endpoints(c.edges);
      assert e.0 in Sources(c.edges, e.1);
    }
  }

  /**
   When a spec vertex can start, every resource its attributes refer to has finished and, unless
   it panicked, published a resource: the keys collected for the graph are those the vertex reads.
   */
  lemma ReferencesArePublished(c: Config, s: State, n: string, k: string)
    requires WellFormed(c) && Reachable(c, s)
    requires n in c.spec && ParentsOk(c, s, n) && k in Refs(c.spec[n].attributes)
    ensures k in c.spec && k in s.phase && WalkerOk(s.phase[k])
    ensures s.phase[k].Succeeded? ==> k in s.ctx && s.ctx[k].Some?
  {
    OrderHolds(c, s);
    ReferencesAreOrdered(c, n, k);
    AncestorsFinished(c, s, k, n);
    NodeFacts(c, s, k);
  }

  lemma OrderHolds(c: Config, s: State)
    requires Keyed(c) && Reachable(c, s)
    ensures Ordered(c, s)
  {
    InvHolds(c, s);
  }

  lemma ReferencesAreOrdered(c: Config, n: string, k: string)
    requires WellFormed(c) && n in c.spec && k in Refs(c.spec[n].attributes)
    ensures k in c.spec && k != ROOT && Reaches(c.edges, k, n)
  {
    assert k in Deps(c.spec[n]);
    DependenciesAreOrdered(c.spec, c.prior, n, k);
  }

  /** A missing resource can only be one whose vertex panicked. */
  lemma OnlyPanickedResourcesAreMissed(c: Config, s: State, n: string, k: string)
    requires WellFormed(c) && Reachable(c, s) && n in c.spec
    requires Enabled(c, s, Start(n, Err(ResourceNotFound(k))))
    ensures k in c.spec && k in s.phase && s.phase[k].Panicked?
  {
    NodeFacts(c, s, n);
    MissedIsRef(c, c.spec[n].attributes, s.ctx, k);
    ReferencesArePublished(c, s, n, k);
  }

  lemma MissedIsRef(c: Config, v: Value, ctx: ResourceIndex, k: string)
    requires MayYield(v, EnvOf(c, ctx), Err(ResourceNotFound(k)))
    ensures k in Refs(v) && (k !in ctx || ctx[k].None?)
  {
    if !EnvOf(c, ctx).implicit.Off? {
      OnlyRefsAreMissed(v, ctx, c.secrets, k);
    }
  }

  // ---- Persistence ----

  /** Every vertex has finished without diagnostics: the walk, and with it the operation, succeeds. */
  ghost predicate WalkSucceeds(c: Config, s: State) {
    forall n :: n in Nodes(c) ==> n in s.phase && WalkerOk(s.phase[n])
  }

  /** A panic that leaves a vertex's record out of step with the spec. */
  ghost predicate PanickedOutOfStep(c: Config, s: State, n: string) {
    n in s.phase && s.phase[n].Panicked? && (n in c.spec <==> n !in c.prior)
  }

  /**
   After an operation that succeeds, the recorded IDs are the spec's IDs if and only if no vertex
   that creates or deletes a resource panicked.
   */
  lemma RecordedIds(c: Config, s: State)
    requires Keyed(c) && Reachable(c, s) && !IsPreview(c.op) && WalkSucceeds(c, s)
    ensures forall n :: n in Nodes(c) ==> (n in Latest(c, s) <==> n in if s.phase[n].Panicked? then c.prior else c.spec)
    ensures Latest(c, s).Keys == c.spec.Keys <==> forall n :: n in Nodes(c) ==> !PanickedOutOfStep(c, s, n)
  {
    LatestWithin(c, s);
    forall n | n in Nodes(c)
      ensures n in Latest(c, s) <==> n in if s.phase[n].Panicked? then c.prior else c.spec
      ensures PanickedOutOfStep(c, s, n) <==> !(n in Latest(c, s) <==> n in c.spec)
    {
      NodeFacts(c, s, n);
    }
  }

  lemma LatestWithin(c: Config, s: State)
    requires Keyed(c) && Reachable(c, s) && !IsPreview(c.op)
    ensures Latest(c, s).Keys <= Nodes(c)
  {
    InvHolds(c, s);
  }

  /** A deletion the runtime refuses counts as a success of the walk, and its resource stays recorded. */
  lemma FailedDeletionPasses(c: Config, s: State, n: string)
    requires Keyed(c) && Reachable(c, s) && Enabled(c, s, Call(n)) && IsDeleteNode(c, n)
    requires c.rt.delete(n, AttributesOf(Get(s.prior, n)), Get(s.live, n)).0.Err?
    ensures WalkerOk(Next(c, s, Call(n)).phase[n])
    ensures n in Latest(c, Next(c, s, Call(n)))
  {
    NodeFacts(c, s, n);
    assert CallOutcome(c, s, n).0.Panic?;
  }

  /** The vertex has ended, in whatever way. */
  predicate HasEnded(p: Phase) {
    WalkerOk(p) || WalkerFailed(p)
  }

  lemma PhaseOfOthers(c: Config, s: State, e: Event, n: string)
    requires Steppable(c, s, e) && n in Nodes(c) && HasEnded(s.phase[n])
    ensures Next(c, s, e).phase[n] == s.phase[n]
  {
  }

  /** A vertex that has ended takes no further step. */
  lemma {:induction false} EndStays(c: Config, events: seq<Event>, states: seq<State>, i: nat, j: nat, n: string)
    requires IsRun(c, events, states) && i <= j < |states|
    requires n in Nodes(c) && n in states[i].phase && HasEnded(states[i].phase[n])
    ensures n in states[j].phase && states[j].phase[n] == states[i].phase[n]
    decreases j
  {
    if i < j {
      EndStays(c, events, states, i, j - 1, n);
      PhaseOfOthers(c, states[j - 1], events[j - 1], n);
    }
  }

  /** Once a vertex has reported success, the storage reflects it, and no later write of any vertex loses it. */
  lemma SuccessIsNeverLost(c: Config, events: seq<Event>, states: seq<State>, i: nat, j: nat, n: string)
    requires Keyed(c) && IsRun(c, events, states) && i <= j < |states| && !IsPreview(c.op)
    requires n in Nodes(c) && n in states[i].phase && states[i].phase[n].Succeeded?
    ensures Get(Latest(c, states[j]), n) == states[i].phase[n].result
  {
    EndStays(c, events, states, i, j, n);
    RunIsReachable(c, events, states, j);
    NodeFacts(c, states[j], n);
  }
}
