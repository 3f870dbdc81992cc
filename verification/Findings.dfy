/**
 Runs of an apply that reports success, and leaves something else than its user would expect.
 */
module Findings {
  import opened Models
  import opened References
  import opened Reachability
  import opened Parsers
  import opened Graphs
  import opened Engine
  import opened Safety
  import opened Resolved
  import opened Determined
  import opened Progress
  import opened Converge
  import opened Destroys

  const EMPTY := Obj(map[])

  /** A runtime that finds everything as planned, and refuses deletions if told to. */
  function Agreeable(deletable: bool): Runtime {
    Runtime(
      (n, plan, prior, live) => Ok(Some(EMPTY)),
      (n, prior, plan, live) => Ok(plan),
      (n, prior, plan, live) => (Ok(plan), Some(plan)),
      (n, plan, live) => Ok(plan),
      (n, prior, live) => (if deletable then Ok(()) else Err(RuntimeFailure), live),
      (live, dry) => Ok(true))
  }

  /** The spec keeps "r" and drops both "q" and the dependency of "r" on it. */
  ghost function DropsDependency(deletable: bool): Config {
    var spec := map["r" := Resource("r", EMPTY, [])];
    var prior := map["r" := Resource("r", EMPTY, ["q"]), "q" := Resource("q", EMPTY, [])];
    Config(Apply, spec, prior, Cover(ApplyEdges(spec, prior)), map[], 0, Agreeable(deletable), None, [])
  }

  lemma OneEdgeIsAcyclic(u: Vertex, v: Vertex)
    requires u != v
    ensures Acyclic({(u, v)})
  {
    forall x ensures !Reaches({(u, v)}, x, x) {
      if Reaches({(u, v)}, x, x) {
        var y := FirstStep({(u, v)}, x, x);
        var z := LastStep({(u, v)}, x, x);
      }
    }
  }

  /** The one link of the example: "r" is updated before "q" goes. */
  lemma LinksOfExample(c: Config, deletable: bool)
    requires c == DropsDependency(deletable)
    ensures c.spec.Keys == {"r"} && c.prior.Keys == {"r", "q"}
    ensures Deps(c.prior["r"]) == {"q"} && Deps(c.prior["q"]) == {} && Deps(c.spec["r"]) == {}
    ensures DependencyLinks(c.spec, c.prior) == {("r", "q")}
  {
    assert Elements(["q"]) == {"q"};
    assert Deps(c.prior["r"]) == {"q"} && Deps(c.prior["q"]) == {} && Deps(c.spec["r"]) == {};
    assert SpecLinks(c.spec, c.spec.Keys) == {};
    assert Link("r", "q", Delete, c.spec.Keys) in PriorLinks(c.prior, c.prior.Keys, c.spec.Keys);
    assert PriorLinks(c.prior, c.prior.Keys, c.spec.Keys) == {("r", "q")};
  }

  lemma ExampleIsWellFormed(deletable: bool)
    ensures WellFormed(DropsDependency(deletable))
  {
    var c := DropsDependency(deletable);
    LinksOfExample(c, deletable);
    OneEdgeIsAcyclic("r", "q");
    ExampleResolves(c, deletable);
    ExampleIsWrittenOut(c, deletable);
    ExampleIsKeyed(c, deletable);
  }

  lemma ExampleResolves(c: Config, deletable: bool)
    requires c == DropsDependency(deletable)
    ensures Resolvable(c.spec) && Resolvable(c.prior)
    ensures NoReservedIds({"r"}) && NoReservedIds({"r", "q"})
  {
    LinksOfExample(c, deletable);
    assert |ROOT| > 1 && |ROOT_NAME| > 1;
  }

  lemma ExampleIsKeyed(c: Config, deletable: bool)
    requires c == DropsDependency(deletable)
    ensures Keyed(c)
  {
    LinksOfExample(c, deletable);
  }

  lemma ExampleIsWrittenOut(c: Config, deletable: bool)
    requires c == DropsDependency(deletable)
    ensures forall k :: k in c.spec ==> IsWrittenOut(c.spec[k])
    ensures forall k :: k in c.prior ==> IsWrittenOut(c.prior[k])
  {
    LinksOfExample(c, deletable);
    assert IsWrittenOut(c.spec["r"]) && IsWrittenOut(c.prior["r"]) && IsWrittenOut(c.prior["q"]);
  }

  /** Nothing refers to anything, so any result is good. */
  const ANYTHING: Value -> bool := _ => true

  lemma AgreeableOnlyFailsToDelete(c: Config, deletable: bool)
    requires c.op.Apply? && c.ignore == [] && c.rt == Agreeable(deletable) && c.secrets.None?
    requires forall n :: n in c.spec ==> c.spec[n].attributes == EMPTY
    requires forall n :: n in c.prior ==> c.prior[n].attributes == EMPTY
    ensures OnlyDeletionsFail(c, ANYTHING) && Resolving(c)
  {
    assert Strings(EMPTY) == {};
    assert RefFree(EMPTY) && RuntimeRefFree(c.rt);
  }

  lemma ExampleOnlyFailsToDelete(deletable: bool)
    ensures OnlyDeletionsFail(DropsDependency(deletable), ANYTHING) && Resolving(DropsDependency(deletable))
  {
    AgreeableOnlyFailsToDelete(DropsDependency(deletable), deletable);
  }

  /** The walk of the example comes to a successful end. */
  lemma ExampleRuns(deletable: bool) returns (s: State)
    ensures Reachable(DropsDependency(deletable), s) && WalkSucceeds(DropsDependency(deletable), s)
    ensures Healthy(DropsDependency(deletable), s, ANYTHING)
  {
    var c := DropsDependency(deletable);
    ExampleIsWellFormed(deletable);
    ExampleOnlyFailsToDelete(deletable);
    StartsHealthily(c, ANYTHING);
    s := FinishHealthily(c, Initial(c), ANYTHING);
  }

  lemma StartsHealthily(c: Config, good: Value -> bool)
    ensures Reachable(c, Initial(c)) && Healthy(c, Initial(c), good)
  {
    StartIsReachable(c);
  }

  lemma NothingPanics(c: Config, s: State, good: Value -> bool)
    requires c.op.Apply? && Reachable(c, s) && WalkSucceeds(c, s) && Healthy(c, s, good)
    requires forall n, prior, live :: c.rt.delete(n, prior, live).0.Ok?
    ensures Completed(c, s)
  {
    forall n | n in Nodes(c) ensures n in s.phase && s.phase[n].Succeeded? { assert HealthyAt(c, s, n, good); }
  }

  /** Under the agreeable runtime a kept resource is unchanged, so its earlier record stays. */
  lemma KeepsRecord(c: Config, s: State, n: string)
    requires Keyed(c) && c.rt == Agreeable(true) && c.ignore == [] && Completed(c, s) && n in c.spec && n in c.prior
    ensures KeptRecord(c, s, n)
  {
    NodeFacts(c, s, n);
    VertexIsDetermined(c, s, n);
    AgreeableFindsNoChange(c, n, PlanOf(c, s, n), Get(s.prior, n), Get(c.live, n));
  }

  lemma AgreeableFindsNoChange(c: Config, n: string, plan: Option<Resource>, prior: Option<Resource>, live: Attributes)
    requires c.op.Apply? && c.rt == Agreeable(true) && c.ignore == [] && plan.Some?
    ensures var d := Decide(c, n, plan, prior, live); d.Ok? && d.value.action.UnChange?
  {
  }

  lemma ExampleStrands(c: Config)
    requires c == DropsDependency(true)
    ensures "r" in c.prior && "r" in c.spec && !(Elements(c.prior["r"].dependsOn) <= c.spec.Keys)
  {
    LinksOfExample(c, true);
    assert "q" in Elements(c.prior["r"].dependsOn);
  }

  /**
   An apply that reports success for every resource, and leaves a record that no further apply and
   no destroy can parse: "r", found unchanged, still records its dependency on the deleted "q".
   */
  lemma SuccessfulApplyCanStrandItsRecord() returns (c: Config, s: State)
    ensures WellFormed(c) && Completed(c, s)
    ensures !Resolvable(Latest(c, s))
  {
    c := DropsDependency(true);
    s := ExampleRuns(true);
    ExampleIsWellFormed(true);
    ExampleOnlyFailsToDelete(true);
    NothingPanics(c, s, ANYTHING);
    KeepsRecord(c, s, "r");
    ExampleStrands(c);
    RecordParsesAgain(c, s);
  }

  /** An apply that reports success although the runtime refused the deletion it was to make. */
  lemma SuccessfulApplyCanFailToDelete() returns (c: Config, s: State)
    ensures WellFormed(c) && c.op.Apply? && Reachable(c, s) && WalkSucceeds(c, s)
    ensures Latest(c, s).Keys != c.spec.Keys
  {
    c := DropsDependency(false);
    s := ExampleRuns(false);
    ExampleIsWellFormed(false);
    RefusedDeletionPanics(c, s, "q");
    assert PanickedOutOfStep(c, s, "q");
    RecordedIds(c, s);
  }

  lemma RefusedDeletionPanics(c: Config, s: State, n: string)
    requires Keyed(c) && c.op.Apply? && Reachable(c, s) && WalkSucceeds(c, s) && n in Nodes(c) && IsDeleteNode(c, n)
    requires forall prior, live :: !c.rt.delete(n, prior, live).0.Ok?
    ensures n in s.phase && s.phase[n].Panicked?
  {
    NodeFacts(c, s, n);
    VertexIsDetermined(c, s, n);
  }

  // ---- A destroy in no order ----

  /** The spec keeps "a" and "b" and has "b" depend on "a" from now on. */
  ghost function AddsDependency(): Config {
    var spec := map["a" := Resource("a", EMPTY, []), "b" := Resource("b", EMPTY, ["a"])];
    var prior := map["a" := Resource("a", EMPTY, []), "b" := Resource("b", EMPTY, [])];
    Config(Apply, spec, prior, Cover(ApplyEdges(spec, prior)), map[], 0, Agreeable(true), None, [])
  }

  lemma LinksOfAdded(c: Config)
    requires c == AddsDependency()
    ensures c.spec.Keys == {"a", "b"} && c.prior.Keys == {"a", "b"}
    ensures Deps(c.spec["a"]) == {} && Deps(c.spec["b"]) == {"a"} && Deps(c.prior["a"]) == {}
    ensures Deps(c.prior["b"]) == {}
    ensures DependencyLinks(c.spec, c.prior) == {("a", "b")}
  {
    assert Elements(["a"]) == {"a"};
    assert Deps(c.spec["a"]) == {} && Deps(c.spec["b"]) == {"a"} && Deps(c.prior["a"]) == {}
      && Deps(c.prior["b"]) == {};
    assert ("a", "b") in SpecLinks(c.spec, c.spec.Keys);
    assert SpecLinks(c.spec, c.spec.Keys) == {("a", "b")};
    assert PriorLinks(c.prior, c.prior.Keys, c.spec.Keys) == {};
  }

  lemma AddedResolves(c: Config)
    requires c == AddsDependency()
    ensures Resolvable(c.spec) && Resolvable(c.prior) && NoReservedIds({"a", "b"})
  {
    LinksOfAdded(c);
    assert |ROOT| > 1 && |ROOT_NAME| > 1;
  }

  lemma AddedIsWrittenOut(c: Config)
    requires c == AddsDependency()
    ensures forall k :: k in c.spec ==> IsWrittenOut(c.spec[k])
    ensures forall k :: k in c.prior ==> IsWrittenOut(c.prior[k])
  {
    LinksOfAdded(c);
    assert IsWrittenOut(c.spec["a"]) && IsWrittenOut(c.spec["b"]) && IsWrittenOut(c.prior["a"])
      && IsWrittenOut(c.prior["b"]);
  }

  lemma AddedIsKeyed(c: Config)
    requires c == AddsDependency()
    ensures Keyed(c)
  {
    LinksOfAdded(c);
  }

  lemma AddedIsWellFormed(c: Config)
    requires c == AddsDependency()
    ensures WellFormed(c)
  {
    LinksOfAdded(c);
    OneEdgeIsAcyclic("a", "b");
    AddedResolves(c);
    AddedIsWrittenOut(c);
    AddedIsKeyed(c);
  }

  /** Where everything is left alone and had no dependency, none is recorded. */
  lemma NothingIsRecorded(c: Config, s: State)
    requires WellFormed(c) && Resolving(c) && Completed(c, s)
    requires forall n :: n in c.spec ==> KeptRecord(c, s, n) && c.prior[n].dependsOn == []
    ensures RecordLinks(c, s) == {} && Resolvable(Latest(c, s))
  {
    forall p, n ensures (p, n) !in RecordLinks(c, s) { RecordedLink(c, s, p, n); }
    RecordParsesAgain(c, s);
  }

  lemma AddedHadNone(c: Config)
    requires c == AddsDependency()
    ensures c.rt == Agreeable(true) && c.ignore == [] && c.op.Apply? && c.secrets.None?
    ensures forall n :: n in c.spec ==> n in c.prior && c.prior[n].dependsOn == []
    ensures forall n :: n in c.spec ==> c.spec[n].attributes == EMPTY
    ensures forall n :: n in c.prior ==> c.prior[n].attributes == EMPTY
  {
    LinksOfAdded(c);
  }

  /** The walk of an agreeable apply comes to an end in which every vertex has succeeded. */
  lemma AgreeableCompletes(c: Config) returns (s: State)
    requires WellFormed(c) && c.op.Apply? && c.ignore == [] && c.rt == Agreeable(true) && c.secrets.None?
    requires forall n :: n in c.spec ==> c.spec[n].attributes == EMPTY
    requires forall n :: n in c.prior ==> c.prior[n].attributes == EMPTY
    ensures Completed(c, s) && Resolving(c)
  {
    AgreeableOnlyFailsToDelete(c, true);
    StartsHealthily(c, ANYTHING);
    s := FinishHealthily(c, Initial(c), ANYTHING);
    NothingPanics(c, s, ANYTHING);
  }

  /**
   An apply that walks "a" before "b", reports success, and leaves a record that parses; and whose
   destroy puts the two in no order.
   */
  lemma SuccessfulApplyCanUnorderDestroy() returns (c: Config, s: State)
    ensures WellFormed(c) && Resolving(c) && Completed(c, s) && Resolvable(Latest(c, s))
    ensures {"a", "b"} <= c.spec.Keys && Reaches(c.edges, "a", "b") && !Reaches(DestroyEdges(c, s), "b", "a")
    ensures !Reverses(c.spec.Keys, DestroyEdges(c, s), c.edges)
    ensures !Reverses(c.spec.Keys, DestroyEdges(c, s), Cover(ApplyEdges(c.spec, map[])))
  {
    c := AddsDependency();
    AddedIsWellFormed(c);
    AddedHadNone(c);
    s := AgreeableCompletes(c);
    forall n | n in c.spec ensures KeptRecord(c, s, n) { KeepsRecord(c, s, n); }
    NothingIsRecorded(c, s);
    LinksOfAdded(c);
    UnorderedIfUnlinked(c, s, "a", "b");
  }

  lemma UnorderedIfUnlinked(c: Config, s: State, a: string, b: string)
    requires WellFormed(c) && Resolving(c) && Completed(c, s) && Resolvable(Latest(c, s)) && RecordLinks(c, s) == {}
    requires a in c.spec && b in c.spec && a in Deps(c.spec[b])
    ensures Reaches(c.edges, a, b) && !Reaches(DestroyEdges(c, s), b, a)
    ensures Reaches(Cover(ApplyEdges(c.spec, map[])), a, b)
  {
    DependenciesAreOrdered(c.spec, c.prior, b, a);
    DestroyFollowsRecord(c, s, b, a);
    if Reaches({}, a, b) {
      var w := FirstStep({}, a, b);
    }
    EdgeReaches(OwnLinks(c), a, b);
    SpecGraphFollowsSpec(c, b, a);
  }
}
