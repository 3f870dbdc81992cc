/**
 Applying twice: what the first apply records, and what a second apply of the same spec finds.
 */
module Converge {
  import opened Models
  import opened References
  import opened Reachability
  import opened Parsers
  import opened Graphs
  import opened Engine
  import opened Safety
  import opened Resolved
  import opened Determined

  /** Every vertex reported success. */
  ghost predicate Completed(c: Config, s: State) {
    c.op.Apply? && Reachable(c, s) && forall n :: n in Nodes(c) ==> n in s.phase && s.phase[n].Succeeded?
  }

  // ---- What is recorded ----

  /** The first apply left this resource alone, and with it the dependencies recorded for it earlier. */
  ghost predicate KeptRecord(c: Config, s: State, n: string) {
    n in s.phase && HasAction(s.phase[n]) && s.phase[n].action.UnChange? && n in c.prior
  }

  /** After a complete apply the record holds the spec's resources, with their results. */
  lemma RecordedResource(c: Config, s: State, n: string)
    requires WellFormed(c) && Completed(c, s) && n in c.spec
    ensures n in Latest(c, s) && s.phase[n].result == Some(Latest(c, s)[n])
    ensures !s.phase[n].action.Delete? && Latest(c, s)[n].id == n
    ensures Latest(c, s)[n].dependsOn == if KeptRecord(c, s, n) then c.prior[n].dependsOn else c.spec[n].dependsOn
  {
    NodeFacts(c, s, n);
    VertexIsDetermined(c, s, n);
    RecordedAt(c, s, n);
  }

  lemma RecordedAt(c: Config, s: State, n: string)
    requires c.op.Apply? && FactsAt(c, s, n) && DeterminedAt(c, s, n) && s.phase[n].Succeeded? && n in c.spec
    ensures n in Latest(c, s) && s.phase[n].result == Some(Latest(c, s)[n])
    ensures !s.phase[n].action.Delete? && Latest(c, s)[n].id == n
    ensures Latest(c, s)[n].dependsOn == if KeptRecord(c, s, n) then c.prior[n].dependsOn else c.spec[n].dependsOn
  {
    CallKeepsDependsOn(c, n, s.phase[n].action, PlanOf(c, s, n), Get(s.prior, n), Get(c.live, n));
  }

  lemma CallKeepsDependsOn(c: Config, n: string, action: ActionType, plan: Option<Resource>, prior: Option<Resource>,
                           live: Attributes)
    requires !action.Delete? && plan.Some?
    ensures var r := CallRuntime(c, n, action, plan, prior, live).0;
      r.Ok? ==> (
        && r.value.Some?
        && r.value.value.dependsOn == if action.UnChange? && prior.Some? then prior.value.dependsOn
            else plan.value.dependsOn)
  {
  }

  lemma RecordedKeys(c: Config, s: State)
    requires WellFormed(c) && Completed(c, s)
    ensures Latest(c, s).Keys == c.spec.Keys
  {
    RecordedIds(c, s);
  }

  lemma RecordedDeps(c: Config, s: State, n: string)
    requires WellFormed(c) && Resolving(c) && Completed(c, s) && n in c.spec
    ensures n in Latest(c, s) && Refs(Latest(c, s)[n].attributes) == {} && !HasEmptyRef(Latest(c, s)[n].attributes)
    ensures IsWrittenOut(Latest(c, s)[n])
    ensures Deps(Latest(c, s)[n]) == if KeptRecord(c, s, n) then Elements(c.prior[n].dependsOn) else Deps(c.spec[n])
  {
    RecordedResource(c, s, n);
    RecordedIsRefFree(c, s, n);
    WrittenOut(c, n);
    RecordedDepsAt(Latest(c, s)[n], if KeptRecord(c, s, n) then c.prior[n] else c.spec[n]);
  }

  /** A resource without references that has the dependencies of one that is written out. */
  lemma RecordedDepsAt(recorded: Resource, linked: Resource)
    requires RefFree(recorded.attributes) && IsWrittenOut(linked) && recorded.dependsOn == linked.dependsOn
    ensures Refs(recorded.attributes) == {} && !HasEmptyRef(recorded.attributes)
    ensures IsWrittenOut(recorded) && Deps(recorded) == Elements(linked.dependsOn) == Deps(linked)
  {
    NoRefs(recorded.attributes);
  }

  lemma RecordedIsRefFree(c: Config, s: State, n: string)
    requires Keyed(c) && Resolving(c) && Reachable(c, s) && n in Latest(c, s)
    ensures RefFree(Latest(c, s)[n].attributes)
  {
    NeverRecordsAReference(c, s);
  }

  lemma WrittenOut(c: Config, n: string)
    requires WellFormed(c)
    ensures n in c.spec ==> IsWrittenOut(c.spec[n])
    ensures n in c.prior ==> IsWrittenOut(c.prior[n])
  {
  }

  lemma NoRefs(v: Value)
    requires RefFree(v)
    ensures Refs(v) == {} && !HasEmptyRef(v)
  {
  }

  // ---- Building the next graph ----

  /** A resource left alone keeps a recorded dependency on a resource that is no longer there. */
  ghost predicate DependsOnDeleted(c: Config, s: State, n: string) {
    KeptRecord(c, s, n) && n in c.spec && !(Elements(c.prior[n].dependsOn) <= c.spec.Keys)
  }

  /** The recorded resources as the next operation's parsers leave them. */
  ghost predicate IsNextPrior(c: Config, s: State, prior: Index) {
    LinkedOn(Latest(c, s), prior, Latest(c, s).Keys)
  }

  /** The same spec, parsed again: the dependencies may be written out in another order. */
  ghost predicate IsSameSpec(spec: Index, again: Index) {
    && again.Keys == spec.Keys
    && forall k :: k in spec ==>
        again[k].id == spec[k].id && again[k].attributes == spec[k].attributes && IsWrittenOut(again[k])
                                 && Elements(again[k].dependsOn) == Elements(spec[k].dependsOn)
  }

  lemma NextPriorIsLatest(c: Config, s: State, prior: Index)
    requires WellFormed(c) && Resolving(c) && Completed(c, s) && IsNextPrior(c, s, prior)
    ensures prior == Latest(c, s)
  {
    RecordedKeys(c, s);
    var latest := Latest(c, s);
    forall k | k in latest ensures k in prior && prior[k] == latest[k] { NextPriorAt(c, s, prior, k); }
    SameOnKeys(prior, latest);
  }

  lemma SameOnKeys(a: Index, b: Index)
    requires a.Keys == b.Keys && forall k :: k in b ==> a[k] == b[k]
    ensures a == b
  {
  }

  lemma NextPriorAt(c: Config, s: State, prior: Index, k: string)
    requires WellFormed(c) && Resolving(c) && Completed(c, s) && IsNextPrior(c, s, prior) && k in c.spec
    ensures k in prior && k in Latest(c, s) && prior[k] == Latest(c, s)[k]
  {
    RecordedDeps(c, s, k);
    DedupOfDistinct(Latest(c, s)[k].dependsOn);
    assert IsLinked(Latest(c, s)[k], prior[k]);
  }

  /**
   The record a complete apply leaves can be parsed again, for the next apply or for a destroy,
   if and only if no resource left alone still records a dependency on a deleted one.
   */
  lemma RecordParsesAgain(c: Config, s: State)
    requires WellFormed(c) && Resolving(c) && Completed(c, s)
    ensures Resolvable(Latest(c, s)) <==> forall n :: n in c.spec ==> !DependsOnDeleted(c, s, n)
  {
    RecordedKeys(c, s);
    var latest := Latest(c, s);
    forall n | n in latest
      ensures !DependsOnDeleted(c, s, n) <==> Deps(latest[n]) <= latest.Keys
      ensures !HasEmptyRef(latest[n].attributes)
    {
      RecordParsesAt(c, s, n);
    }
    NoEmptyId(c);
    ResolvableByDeps(latest);
  }

  lemma NoEmptyId(c: Config)
    requires WellFormed(c)
    ensures "" !in c.spec
  {
  }

  lemma ResolvableByDeps(index: Index)
    requires "" !in index && forall k :: k in index ==> !HasEmptyRef(index[k].attributes)
    ensures Resolvable(index) <==> forall k :: k in index ==> Deps(index[k]) <= index.Keys
  {
  }

  lemma RecordParsesAt(c: Config, s: State, n: string)
    requires WellFormed(c) && Resolving(c) && Completed(c, s) && n in c.spec
    ensures n in Latest(c, s) && !HasEmptyRef(Latest(c, s)[n].attributes)
    ensures !DependsOnDeleted(c, s, n) <==> Deps(Latest(c, s)[n]) <= c.spec.Keys
  {
    RecordedDeps(c, s, n);
    SpecDepsWithin(c, n);
  }

  lemma SpecDepsWithin(c: Config, n: string)
    requires WellFormed(c) && n in c.spec
    ensures Deps(c.spec[n]) <= c.spec.Keys && "" !in c.spec
  {
  }

  /** Every link of the second graph was a link of the first. */
  lemma SecondLinksWithinFirst(c: Config, s: State, spec: Index)
    requires WellFormed(c) && Resolving(c) && Completed(c, s) && IsSameSpec(c.spec, spec)
    requires Resolvable(Latest(c, s))
    ensures DependencyLinks(spec, Latest(c, s)) <= DependencyLinks(c.spec, c.prior)
  {
    RecordedKeys(c, s);
    var latest := Latest(c, s);
    forall k | k in spec ensures Deps(spec[k]) == Deps(c.spec[k]) {
      assert IsWrittenOut(c.spec[k]);
    }
    forall e | e in PriorLinks(latest, latest.Keys, spec.Keys) ensures e in DependencyLinks(c.spec, c.prior) {
      var k, p :| k in latest && p in Deps(latest[k]) && e == Link(k, p, Delete, spec.Keys);
      RecordedDeps(c, s, k);
      assert e == (p, k);
      if KeptRecord(c, s, k) {
        assert p in Deps(c.prior[k]);
        assert e == Link(k, p, Delete, c.spec.Keys);
      }
    }
  }

  /** Under the same condition the second apply builds its graph, and there is nothing to delete in it. */
  lemma SecondGraphBuilds(c: Config, s: State, spec: Index, prior: Index)
    requires WellFormed(c) && Resolving(c) && Completed(c, s)
    requires IsSameSpec(c.spec, spec) && IsNextPrior(c, s, prior)
    ensures Buildable(spec, prior) <==> forall n :: n in c.spec ==> !DependsOnDeleted(c, s, n)
    ensures prior.Keys - spec.Keys == {}
  {
    RecordedKeys(c, s);
    NextPriorIsLatest(c, s, prior);
    RecordParsesAgain(c, s);
    if Resolvable(prior) {
      SameSpecResolvable(c, spec);
      SecondLinksWithinFirst(c, s, spec);
      forall v ensures !Reaches(DependencyLinks(spec, prior), v, v) {
        if Reaches(DependencyLinks(spec, prior), v, v) {
          ReachesMonotone(DependencyLinks(spec, prior), DependencyLinks(c.spec, c.prior), v, v);
        }
      }
    }
  }

  lemma SameSpecResolvable(c: Config, spec: Index)
    requires WellFormed(c) && IsSameSpec(c.spec, spec)
    ensures Resolvable(spec) && NoReservedIds(spec.Keys)
  {
    forall k | k in spec ensures Deps(spec[k]) == Deps(c.spec[k]) {
      assert IsWrittenOut(c.spec[k]);
    }
  }

  // ---- The second apply ----

  /** Comparing a resource with its own dry run finds nothing. */
  ghost predicate Quiet(rt: Runtime, n: string, prior: Value, plan: Value, live: Attributes) {
    && rt.read(n, Some(plan), Some(prior), live).Ok?
    && rt.dryRun(n, Some(prior), plan, live).Ok?
    && rt.diff(rt.read(n, Some(plan), Some(prior), live).value, rt.dryRun(n, Some(prior), plan, live).value) == Ok(true)
  }

  /** A dry run of a plan that has just been applied or imported equals the live read. */
  ghost predicate Settles(rt: Runtime) {
    && (forall n, prior, plan, live :: rt.apply(n, prior, plan, live).0.Ok? ==>
          Quiet(rt, n, rt.apply(n, prior, plan, live).0.value, plan, rt.apply(n, prior, plan, live).1))
    && (forall n, plan, live :: rt.imported(n, plan, live).Ok? ==>
         Quiet(rt, n, rt.imported(n, plan, live).value, plan, live))
  }

  /** Whatever the first apply did to a resource, it left it quiet. */
  lemma FirstLeavesQuiet(c: Config, s: State, n: string)
    requires WellFormed(c) && c.ignore == [] && Settles(c.rt) && Completed(c, s) && n in c.spec
    ensures n in Latest(c, s) && n in s.spec
    ensures Quiet(c.rt, n, Latest(c, s)[n].attributes, s.spec[n].attributes, Get(s.live, n))
  {
    NodeFacts(c, s, n);
    VertexIsDetermined(c, s, n);
    LeftQuietAt(c, s, n);
  }

  lemma LeftQuietAt(c: Config, s: State, n: string)
    requires c.op.Apply? && c.ignore == [] && Settles(c.rt)
    requires FactsAt(c, s, n) && DeterminedAt(c, s, n) && s.phase[n].Succeeded? && n in c.spec
    ensures n in Latest(c, s) && n in s.spec
    ensures Quiet(c.rt, n, Latest(c, s)[n].attributes, s.spec[n].attributes, Get(s.live, n))
  {
    RecordedAt(c, s, n);
    CallLeavesQuiet(c, n, PlanOf(c, s, n), Get(s.prior, n), Get(c.live, n));
  }

  lemma CallLeavesQuiet(c: Config, n: string, plan: Option<Resource>, prior: Option<Resource>, live: Attributes)
    requires c.op.Apply? && c.ignore == [] && Settles(c.rt) && plan.Some?
    ensures var d := Decide(c, n, plan, prior, live);
      d.Ok? ==>
        var (r, live') := CallRuntime(c, n, d.value.action, plan, prior, live);
        r.Ok? && r.value.Some? ==> Quiet(c.rt, n, r.value.value.attributes, plan.value.attributes, live')
  {
  }

  /** A second apply of the same spec, on the record and the world the first one left. */
  ghost predicate IsSecondApply(c: Config, s: State, d: Config) {
    && d.op.Apply? && d.ignore == [] && d.rt == c.rt && d.secrets == c.secrets
    && IsSameSpec(c.spec, d.spec) && IsNextPrior(c, s, d.prior) && d.live == s.live
  }

  ghost predicate FirstApply(c: Config, s: State) {
    WellFormed(c) && Resolving(c) && c.ignore == [] && Settles(c.rt) && Completed(c, s)
  }

  /** In the second apply this vertex has not failed, has changed nothing and has published its record. */
  ghost predicate QuietAt(d: Config, t: State, n: string) {
    && n in t.phase && n in d.prior
    && !t.phase[n].Failed? && !t.phase[n].Panicked?
    && (HasAction(t.phase[n]) ==> t.phase[n].action.UnChange?)
    && (HasCalled(t.phase[n]) ==> t.phase[n].result == Some(d.prior[n]))
    && Get(t.live, n) == Get(d.live, n)
  }

  /** Every save of the second apply writes what was recorded already. */
  ghost predicate SavesNothingNew(d: Config, t: State) {
    forall i :: 0 <= i < |t.saves| ==> t.saves[i].resources == d.prior
  }

  /** What the second apply has published is what the first one published. */
  lemma SameEntry(c: Config, s: State, d: Config, t: State, k: string)
    requires FirstApply(c, s) && IsSecondApply(c, s, d) && WellFormed(d) && Reachable(d, t)
    requires k in c.spec && k in Nodes(d) && QuietAt(d, t, k) && k in t.ctx
    ensures k in s.ctx && s.ctx[k] == t.ctx[k]
  {
    NextPriorAt(c, s, d.prior, k);
    NodeFacts(d, t, k);
    RecordedResource(c, s, k);
    NodeFacts(c, s, k);
  }

  /** A reference resolves in the second apply to what it resolved to in the first. */
  lemma SameResolution(c: Config, s: State, d: Config, t: State, n: string)
    requires FirstApply(c, s) && IsSecondApply(c, s, d) && WellFormed(d) && Reachable(d, t) && n in c.spec
    requires forall k :: k in Refs(d.spec[n].attributes) ==>
      k in c.spec && k in Nodes(d) && QuietAt(d, t, k) && k in t.ctx
    ensures AllOk(d.spec[n].attributes, EnvOf(d, t.ctx))
    ensures n in s.spec && Subst(d.spec[n].attributes, EnvOf(d, t.ctx)) == s.spec[n].attributes
  {
    FirstPlan(c, s, n);
    assert d.spec[n].attributes == c.spec[n].attributes;
    forall k | k in Refs(c.spec[n].attributes) ensures k in s.ctx && k in t.ctx && s.ctx[k] == t.ctx[k] {
      SameEntry(c, s, d, t, k);
    }
    ResolutionReadsRefs(c.spec[n].attributes, s.ctx, t.ctx, c.secrets);
  }

  lemma FirstPlan(c: Config, s: State, n: string)
    requires Keyed(c) && Completed(c, s) && n in c.spec
    ensures n in s.spec && AllOk(c.spec[n].attributes, EnvOf(c, s.ctx))
    ensures s.spec[n].attributes == Subst(c.spec[n].attributes, EnvOf(c, s.ctx))
  {
    VertexIsDetermined(c, s, n);
  }

  // ---- One step of the second apply ----

  /** All that is known about the second apply at a point of its run. */
  ghost predicate AllQuiet(d: Config, t: State) {
    (forall n :: n in Nodes(d) ==> QuietAt(d, t, n)) && SavesNothingNew(d, t)
  }

  ghost predicate Twice(c: Config, s: State, d: Config, t: State) {
    FirstApply(c, s) && IsSecondApply(c, s, d) && WellFormed(d) && Reachable(d, t)
  }

  lemma SecondNodes(c: Config, s: State, d: Config)
    requires FirstApply(c, s) && IsSecondApply(c, s, d)
    ensures Nodes(d) == d.spec.Keys == d.prior.Keys == c.spec.Keys
  {
    RecordedKeys(c, s);
  }

  /** A vertex that starts finds all its references published, and resolves them. */
  lemma SecondStarts(c: Config, s: State, d: Config, t: State, n: string, outcome: Reply<Value>)
    requires Twice(c, s, d, t) && AllQuiet(d, t) && Enabled(d, t, Start(n, outcome))
    ensures outcome.Ok?
  {
    SecondNodes(c, s, d);
    NodeFacts(d, t, n);
    forall k | k in Refs(d.spec[n].attributes) ensures k in c.spec && k in Nodes(d) && QuietAt(d, t, k) && k in t.ctx {
      ReferencesArePublished(d, t, n, k);
      assert QuietAt(d, t, k);
    }
    SameResolution(c, s, d, t, n);
    AllOkDecides(d.spec[n].attributes, EnvOf(d, t.ctx), outcome);
  }

  /** The plan a started vertex holds is the one it held at the end of the first apply. */
  lemma SecondPlan(c: Config, s: State, d: Config, t: State, n: string)
    requires Twice(c, s, d, t) && AllQuiet(d, t) && n in Nodes(d) && n in t.phase && IsRunning(t.phase[n])
    ensures n in t.spec && n in s.spec && t.spec[n].attributes == s.spec[n].attributes
  {
    SecondNodes(c, s, d);
    VertexIsDetermined(d, t, n);
    forall k | k in Refs(d.spec[n].attributes) ensures k in c.spec && k in Nodes(d) && QuietAt(d, t, k) && k in t.ctx {
      ReferencesAreOrdered(d, n, k);
      ResolvedRefsArePresent(d.spec[n].attributes, t.ctx, d.secrets, k);
      assert QuietAt(d, t, k);
    }
    SameResolution(c, s, d, t, n);
  }

  /** So the dry run finds nothing to change. */
  lemma SecondDecides(c: Config, s: State, d: Config, t: State, n: string)
    requires Twice(c, s, d, t) && AllQuiet(d, t) && Enabled(d, t, Compute(n))
    ensures var r := Decide(d, n, PlanOf(d, t, n), Get(t.prior, n), Get(t.live, n)); r.Ok? && r.value.action.UnChange?
  {
    SecondNodes(c, s, d);
    SecondPlan(c, s, d, t, n);
    NodeFacts(d, t, n);
    NextPriorAt(c, s, d.prior, n);
    FirstLeavesQuiet(c, s, n);
    assert QuietAt(d, t, n);
    QuietDecides(d, n, PlanOf(d, t, n), Get(t.prior, n), Get(t.live, n));
  }

  lemma QuietDecides(d: Config, n: string, plan: Option<Resource>, prior: Option<Resource>, live: Attributes)
    requires d.op.Apply? && d.ignore == [] && plan.Some? && prior.Some?
    requires Quiet(d.rt, n, prior.value.attributes, plan.value.attributes, live)
    ensures var r := Decide(d, n, plan, prior, live); r.Ok? && r.value.action.UnChange?
  {
  }

  /** The step fails nowhere, and decides to change nothing. */
  ghost predicate IsQuietStep(d: Config, t: State, e: Event) {
    && (e.Start? ==> e.outcome.Ok?)
    && (e.Compute? ==>
          var r := Decide(d, e.n, PlanOf(d, t, e.n), Get(t.prior, e.n), Get(t.live, e.n));
            r.Ok? && r.value.action.UnChange?)
  }

  lemma QuietAtStep(d: Config, t: State, e: Event, m: string)
    requires d.op.Apply? && Steppable(d, t, e) && m in d.spec && QuietAt(d, t, m) && FactsAt(d, t, m)
    requires IsQuietStep(d, t, e)
    ensures QuietAt(d, Next(d, t, e), m)
  {
    PlanStays(d, t, e, m);
    if e.Call? && e.n == m {
      QuietCall(d, m, PlanOf(d, t, m), d.prior[m], Get(t.live, m));
    }
  }

  lemma QuietCall(d: Config, m: string, plan: Option<Resource>, prior: Resource, live: Attributes)
    requires plan.Some?
    ensures CallRuntime(d, m, UnChange, plan, Some(prior), live) == (Ok(Some(prior)), live)
  {
  }

  lemma QuietVerticesStep(d: Config, t: State, e: Event)
    requires d.op.Apply? && Steppable(d, t, e) && IsQuietStep(d, t, e)
    requires forall m :: m in Nodes(d) ==> m in d.spec && QuietAt(d, t, m) && FactsAt(d, t, m)
    ensures forall m :: m in Nodes(d) ==> QuietAt(d, Next(d, t, e), m)
  {
    forall m | m in Nodes(d) ensures QuietAt(d, Next(d, t, e), m) { QuietAtStep(d, t, e, m); }
  }

  /** The state index never differs from the record, so neither does what is saved. */
  lemma SnapshotIsRecord(d: Config, t: State)
    requires Indexes(d, t) && d.prior.Keys == Nodes(d) == d.spec.Keys
    requires forall n :: n in Nodes(d) ==> QuietAt(d, t, n) && t.prior[n] == d.prior[n]
    ensures Snapshot(t.state) == d.prior
  {
    forall n | n in Nodes(d) ensures n in t.state && t.state[n] == Some(d.prior[n]) {
      assert IndexesAt(d, t, n) && QuietAt(d, t, n);
    }
  }

  lemma SecondStepIsQuiet(c: Config, s: State, d: Config, t: State, e: Event)
    requires Twice(c, s, d, t) && AllQuiet(d, t) && Enabled(d, t, e)
    ensures IsQuietStep(d, t, e)
  {
    if e.Start? {
      SecondStarts(c, s, d, t, e.n, e.outcome);
    } else if e.Compute? {
      SecondDecides(c, s, d, t, e.n);
    }
  }

  lemma QuietFacts(c: Config, s: State, d: Config, t: State, m: string)
    requires Twice(c, s, d, t) && AllQuiet(d, t) && m in Nodes(d)
    ensures m in d.spec && QuietAt(d, t, m) && FactsAt(d, t, m)
  {
    SecondNodes(c, s, d);
    NodeFacts(d, t, m);
  }

  lemma RecordIsKept(c: Config, s: State, d: Config, t: State)
    requires Twice(c, s, d, t) && AllQuiet(d, t)
    ensures Snapshot(t.state) == d.prior
  {
    SecondNodes(c, s, d);
    IndexesHold(d, t);
    forall n | n in Nodes(d) ensures QuietAt(d, t, n) && t.prior[n] == d.prior[n] {
      NodeFacts(d, t, n);
    }
    SnapshotIsRecord(d, t);
  }

  lemma QuietSavesStep(d: Config, t: State, e: Event)
    requires Steppable(d, t, e) && SavesNothingNew(d, t) && Snapshot(t.state) == d.prior
    ensures SavesNothingNew(d, Next(d, t, e))
  {
  }

  lemma IndexesHold(d: Config, t: State)
    requires Keyed(d) && Reachable(d, t)
    ensures Indexes(d, t) && t.prior.Keys == d.prior.Keys
  {
    InvHolds(d, t);
  }

  lemma AllQuietInitially(d: Config)
    requires d.prior.Keys == Nodes(d)
    ensures AllQuiet(d, Initial(d))
  {
  }

  lemma AllQuietStep(c: Config, s: State, d: Config, t: State, e: Event)
    requires Twice(c, s, d, t) && AllQuiet(d, t) && Enabled(d, t, e)
    ensures AllQuiet(d, Next(d, t, e))
  {
    SecondStepIsQuiet(c, s, d, t, e);
    forall m | m in Nodes(d) ensures m in d.spec && QuietAt(d, t, m) && FactsAt(d, t, m) { QuietFacts(c, s, d, t, m); }
    QuietVerticesStep(d, t, e);
    RecordIsKept(c, s, d, t);
    QuietSavesStep(d, t, e);
  }

  lemma AlwaysQuiet(c: Config, s: State, d: Config, t: State)
    requires Twice(c, s, d, t)
    ensures AllQuiet(d, t)
  {
    SecondNodes(c, s, d);
    AllQuietInitially(d);
    forall u, e | Reachable(d, u) && AllQuiet(d, u) && Enabled(d, u, e)
      ensures AllQuiet(d, Next(d, u, e))
    {
      AllQuietStep(c, s, d, u, e);
    }
    HoldsAlways(d, t, u => AllQuiet(d, u));
  }

  /**
   A second apply of the same spec changes nothing, in any schedule and whichever writes fail: no
   vertex deletes, fails or panics, every action is UnChange, the live world stays as it was, and
   the record stays exactly what the first apply left.
   */
  lemma SecondApplyChangesNothing(c: Config, s: State, d: Config, t: State)
    requires FirstApply(c, s) && IsSecondApply(c, s, d) && WellFormed(d) && Reachable(d, t)
    ensures Nodes(d) == c.spec.Keys && forall n :: n in Nodes(d) ==> !IsDeleteNode(d, n)
    ensures forall n :: n in Nodes(d) ==> QuietAt(d, t, n)
    ensures Latest(d, t) == Latest(c, s)
  {
    AlwaysQuiet(c, s, d, t);
    SecondNodes(c, s, d);
    NextPriorIsLatest(c, s, d.prior);
  }

  // ---- There is a second apply ----

  lemma RecordLinksToItself(c: Config, s: State)
    requires WellFormed(c) && Resolving(c) && Completed(c, s)
    ensures IsNextPrior(c, s, Latest(c, s))
  {
    RecordedKeys(c, s);
    forall k | k in Latest(c, s) ensures IsLinked(Latest(c, s)[k], Latest(c, s)[k]) {
      RecordedDeps(c, s, k);
      DedupOfDistinct(Latest(c, s)[k].dependsOn);
    }
  }

  lemma RecordIsKeyed(c: Config, s: State)
    requires WellFormed(c) && Resolving(c) && Completed(c, s)
    ensures forall k :: k in Latest(c, s) ==> Latest(c, s)[k].id == k && IsWrittenOut(Latest(c, s)[k])
  {
    RecordedKeys(c, s);
    forall k | k in Latest(c, s) ensures Latest(c, s)[k].id == k && IsWrittenOut(Latest(c, s)[k]) {
      RecordedResource(c, s, k);
      RecordedDeps(c, s, k);
    }
  }

  ghost function SecondConfig(c: Config, s: State): Config {
    var prior := Latest(c, s);
    Config(Apply, c.spec, prior, Cover(ApplyEdges(c.spec, prior)), s.live, s.serial, c.rt, c.secrets, [])
  }

  lemma SecondIsKeyed(d: Config)
    requires d.op.Apply? && Buildable(d.spec, d.prior) && IsGraphOf(d.edges, d.spec, d.prior)
    requires forall k :: k in d.spec ==> d.spec[k].id == k && IsWrittenOut(d.spec[k])
    requires forall k :: k in d.prior ==> d.prior[k].id == k && IsWrittenOut(d.prior[k])
    ensures WellFormed(d)
  {
  }

  lemma SpecIsKeyed(c: Config)
    requires WellFormed(c)
    ensures forall k :: k in c.spec ==> c.spec[k].id == k && IsWrittenOut(c.spec[k])
    ensures IsSameSpec(c.spec, c.spec)
  {
  }

  lemma SecondIsWellFormed(c: Config, s: State)
    requires WellFormed(c) && Resolving(c) && Completed(c, s)
    requires forall n :: n in c.spec ==> !DependsOnDeleted(c, s, n)
    ensures WellFormed(SecondConfig(c, s)) && IsNextPrior(c, s, Latest(c, s)) && IsSameSpec(c.spec, c.spec)
  {
    SpecIsKeyed(c);
    RecordLinksToItself(c, s);
    RecordIsKeyed(c, s);
    SecondGraphBuilds(c, s, c.spec, Latest(c, s));
    SecondIsKeyed(SecondConfig(c, s));
  }

  /** Whenever the record parses there is such a second apply. */
  lemma SecondApplyExists(c: Config, s: State) returns (d: Config)
    requires FirstApply(c, s) && forall n :: n in c.spec ==> !DependsOnDeleted(c, s, n)
    ensures IsSecondApply(c, s, d) && WellFormed(d) && Reachable(d, Initial(d))
  {
    d := SecondConfig(c, s);
    SecondIsWellFormed(c, s);
    StartIsReachable(d);
  }
}
