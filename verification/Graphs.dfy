/**
 The graphs of an apply and of a destroy, and what they order.
 */
module Graphs {
  import opened Models
  import opened References
  import opened Reachability
  import opened Dag
  import opened Parsers

  /** All ordering constraints between resources. */
  ghost function DependencyLinks(spec: Index, prior: Index): Edges {
    SpecLinks(spec, spec.Keys) + PriorLinks(prior, prior.Keys, spec.Keys)
  }

  ghost function ApplyEdges(spec: Index, prior: Index): Edges {
    DependencyLinks(spec, prior) + RootEdges(ROOT, spec.Keys + prior.Keys)
  }

  /** The spec is circular, or all can be linked, the guard lets it pass, and the whole is circular. */
  ghost predicate FindsCircle(spec: Index, prior: Index, priorOrder: seq<string>) {
    && Resolvable(spec)
    && (Acyclic(SpecLinks(spec, spec.Keys)) ==>
          Resolvable(prior) && !GuardFires(prior, spec.Keys, priorOrder) && !Acyclic(DependencyLinks(spec, prior)))
  }

  method NewApplyGraph(spec: ResourceTable, prior: ResourceTable, specOrder: seq<string>, priorOrder: seq<string>)
    returns (g: AcyclicGraph<Node>, s: Status)
    requires spec != prior
    requires Enumerates(specOrder, spec.index.Keys) && NoReservedIds(spec.index.Keys)
    requires Enumerates(priorOrder, prior.index.Keys) && NoReservedIds(prior.index.Keys)
    modifies spec, prior
    ensures fresh(g)
    ensures s.Parsed? <==>
      && Resolvable(old(spec.index)) && Resolvable(old(prior.index))
      && !GuardFires(old(prior.index), old(spec.index.Keys), priorOrder)
      && Acyclic(DependencyLinks(old(spec.index), old(prior.index)))
    ensures s.CircleFound? <==> FindsCircle(old(spec.index), old(prior.index), priorOrder)
    ensures s.Parsed? ==> LinkedOn(old(spec.index), spec.index, spec.index.Keys)
    ensures s.Parsed? ==> LinkedOn(old(prior.index), prior.index, prior.index.Keys)
    ensures s.Parsed? ==> g.vertices == NodeMap(spec.index.Keys, prior.index.Keys - spec.index.Keys)
    ensures s.Parsed? ==> g.edges == Cover(ApplyEdges(old(spec.index), old(prior.index)))
  {
    ghost var specIndex, priorIndex := spec.index, prior.index;
    g := new AcyclicGraph();
    g.Add(ROOT, RootNode);
    var specParser := new SpecParser(spec);
    s := specParser.Parse(g, specOrder);
    if !s.Parsed? {
      LinksWithin(specIndex, priorIndex);
      return g, s;
    }
    SpecGraphIsManifest(specIndex);
    ghost var base := g.edges;
    assert g.vertices.Keys - {ROOT} == specIndex.Keys;
    var deleteResourceParser := new DeleteResourceParser(prior);
    s := deleteResourceParser.Parse(g, priorOrder);
    if Resolvable(priorIndex) {
      CombinedGraph(specIndex, priorIndex, base);
    }
  }

  lemma LinksWithin(spec: Index, prior: Index)
    ensures Acyclic(DependencyLinks(spec, prior)) ==> Acyclic(SpecLinks(spec, spec.Keys))
  {
    if Acyclic(DependencyLinks(spec, prior)) {
      forall v ensures !Reaches(SpecLinks(spec, spec.Keys), v, v) {
        if Reaches(SpecLinks(spec, spec.Keys), v, v) {
          ReachesMonotone(SpecLinks(spec, spec.Keys), DependencyLinks(spec, prior), v, v);
        }
      }
    }
  }

  lemma SpecGraphIsManifest(spec: Index)
    requires Resolvable(spec) && NoReservedIds(spec.Keys) && Acyclic(SpecLinks(spec, spec.Keys))
    ensures IsManifestGraph(NodeMap(spec.Keys, {}), Cover(SpecLinks(spec, spec.Keys) + RootEdges(ROOT, spec.Keys)),
      spec.Keys)
  {
    SpecEdgesAreRooted(spec);
    CoverIsRooted(SpecEdges(spec, spec.Keys), {ROOT} + spec.Keys, ROOT);
    assert NodeMap(spec.Keys, {}).Keys == {ROOT} + spec.Keys;
  }

  /** A reduction keeps the one root. */
  lemma CoverIsRooted(edges: Edges, vertices: set<Vertex>, root: Vertex)
    requires Acyclic(edges) && Endpoints(edges) <= vertices && IsOnlyRoot(vertices, edges, root)
    ensures Endpoints(Cover(edges)) <= vertices && IsOnlyRoot(vertices, Cover(edges), root)
    ensures Acyclic(Cover(edges)) && SameReach(edges, Cover(edges))
  {
    CoverKeepsReach(edges, Cover(edges));
    SameReachAcyclic(edges, Cover(edges));
    assert forall e :: e in Cover(edges) ==> e in edges;
    forall v | v in vertices ensures Sources(Cover(edges), v) == {} <==> Sources(edges, v) == {} {
      if u :| u in Sources(edges, v) {
        EdgeReaches(edges, u, v);
        var w := LastStep(Cover(edges), u, v);
        assert w in Sources(Cover(edges), v);
      }
      if u :| u in Sources(Cover(edges), v) {
        assert (u, v) in edges;
        assert u in Sources(edges, v);
      }
    }
  }

  /** Linking the recorded resources onto the reduced spec graph is linking them onto the whole one. */
  lemma CombinedGraph(spec: Index, prior: Index, base: Edges)
    requires Resolvable(spec) && Resolvable(prior) && NoReservedIds(spec.Keys) && NoReservedIds(prior.Keys)
    requires Acyclic(SpecLinks(spec, spec.Keys)) && base == Cover(SpecEdges(spec, spec.Keys))
    ensures Acyclic(base + PriorLinks(prior, prior.Keys, spec.Keys)) <==> Acyclic(DependencyLinks(spec, prior))
    ensures Acyclic(DependencyLinks(spec, prior)) ==>
      Cover(base + PriorLinks(prior, prior.Keys, spec.Keys) + RootEdges(ROOT, prior.Keys - spec.Keys))
        == Cover(ApplyEdges(spec, prior))
  {
    SpecEdgesAreRooted(spec);
    CoverKeepsReach(SpecEdges(spec, spec.Keys), base);
    SameReachUnion(SpecEdges(spec, spec.Keys), base, PriorLinks(prior, prior.Keys, spec.Keys));
    CombinedIsAcyclic(spec, prior, base);
    if Acyclic(DependencyLinks(spec, prior)) {
      CombinedCover(spec, prior, base);
    }
  }

  lemma CombinedIsAcyclic(spec: Index, prior: Index, base: Edges)
    requires Resolvable(spec) && Resolvable(prior) && NoReservedIds(spec.Keys) && NoReservedIds(prior.Keys)
    requires var links := PriorLinks(prior, prior.Keys, spec.Keys);
      SameReach(SpecEdges(spec, spec.Keys) + links, base + links)
    ensures Acyclic(base + PriorLinks(prior, prior.Keys, spec.Keys)) <==> Acyclic(DependencyLinks(spec, prior))
  {
    var links, specRoots := PriorLinks(prior, prior.Keys, spec.Keys), RootEdges(ROOT, spec.Keys);
    SameReachAcyclic(SpecEdges(spec, spec.Keys) + links, base + links);
    LinksAvoidRoot(spec, prior);
    assert SpecEdges(spec, spec.Keys) + links == DependencyLinks(spec, prior) + specRoots;
    RootEdgesKeepAcyclic(DependencyLinks(spec, prior), specRoots, ROOT);
  }

  lemma CombinedCover(spec: Index, prior: Index, base: Edges)
    requires Resolvable(spec) && Resolvable(prior) && NoReservedIds(spec.Keys) && NoReservedIds(prior.Keys)
    requires var links := PriorLinks(prior, prior.Keys, spec.Keys);
      SameReach(SpecEdges(spec, spec.Keys) + links, base + links)
    requires Acyclic(DependencyLinks(spec, prior))
    ensures Cover(base + PriorLinks(prior, prior.Keys, spec.Keys) + RootEdges(ROOT, prior.Keys - spec.Keys))
      == Cover(ApplyEdges(spec, prior))
  {
    var links, priorRoots := PriorLinks(prior, prior.Keys, spec.Keys), RootEdges(ROOT, prior.Keys - spec.Keys);
    LinksAvoidRoot(spec, prior);
    RootEdgesSplit(spec.Keys, prior.Keys);
    SameReachUnion(SpecEdges(spec, spec.Keys) + links, base + links, priorRoots);
    assert SpecEdges(spec, spec.Keys) + links + priorRoots == ApplyEdges(spec, prior);
    RootEdgesKeepAcyclic(DependencyLinks(spec, prior), RootEdges(ROOT, spec.Keys + prior.Keys), ROOT);
    CoverIsUnique(ApplyEdges(spec, prior), base + links + priorRoots);
  }

  lemma RootEdgesSplit(a: set<string>, b: set<string>)
    ensures RootEdges(ROOT, a) + RootEdges(ROOT, b - a) == RootEdges(ROOT, a + b)
  {
    assert a + (b - a) == a + b;
  }

  lemma LinksAvoidRoot(spec: Index, prior: Index)
    requires Resolvable(spec) && Resolvable(prior) && NoReservedIds(spec.Keys) && NoReservedIds(prior.Keys)
    ensures forall e :: e in DependencyLinks(spec, prior) ==> e.0 != ROOT && e.1 != ROOT
    ensures Endpoints(DependencyLinks(spec, prior)) <= spec.Keys + prior.Keys
  {
    PriorLinksWithin(prior, spec.Keys);
  }

  method NewDestroyGraph(resources: ResourceTable, order: seq<string>) returns (g: AcyclicGraph<Node>, s: Status)
    requires Enumerates(order, resources.index.Keys) && NoReservedIds(resources.index.Keys)
    modifies resources
    ensures fresh(g)
    ensures s.Parsed? <==>
      Resolvable(old(resources.index)) && Acyclic(SpecLinks(old(resources.index), old(resources.index.Keys)))
    ensures s.Parsed? ==> LinkedOn(old(resources.index), resources.index, resources.index.Keys)
    ensures s.Parsed? ==> g.vertices == NodeMap({}, resources.index.Keys)
    ensures s.Parsed? ==> g.edges == Cover(ApplyEdges(map[], old(resources.index)))
  {
    ghost var index := resources.index;
    g := new AcyclicGraph();
    g.Add(ROOT, RootNode);
    assert NodeMap({}, {}) == map[ROOT := RootNode];
    assert g.vertices.Keys - {ROOT} == {};
    var deleteResourceParser := new DeleteResourceParser(resources);
    s := deleteResourceParser.Parse(g, order);
    DestroyOutcome(index, order);
  }

  /** What the parser's result comes to when it starts from a bare root. */
  lemma DestroyOutcome(index: Index, order: seq<string>)
    ensures !GuardFires(index, {}, order)
    ensures Acyclic({} + PriorLinks(index, index.Keys, {})) <==> Acyclic(SpecLinks(index, index.Keys))
    ensures {} + PriorLinks(index, index.Keys, {}) + RootEdges(ROOT, index.Keys - {}) == ApplyEdges(map[], index)
    ensures NodeMap({}, index.Keys - {}) == NodeMap({}, index.Keys)
  {
    DestroyLinks(index);
    assert {} + PriorLinks(index, index.Keys, {}) == PriorLinks(index, index.Keys, {});
    assert index.Keys - {} == index.Keys == {} + index.Keys;
  }

  /** With nothing kept, every edge is turned round. */
  lemma DestroyLinks(index: Index)
    ensures PriorLinks(index, index.Keys, {}) == Converse(SpecLinks(index, index.Keys))
    ensures DependencyLinks(map[], index) == Converse(SpecLinks(index, index.Keys))
    ensures Acyclic(Converse(SpecLinks(index, index.Keys))) <==> Acyclic(SpecLinks(index, index.Keys))
  {
    var links := SpecLinks(index, index.Keys);
    forall c, p | c in index && p in Deps(index[c]) ensures (c, p) in Converse(links) { assert (p, c) in links; }
    forall v ensures Reaches(links, v, v) <==> Reaches(Converse(links), v, v) { ConverseReaches(links, v, v); }
    if Acyclic(links) {
      forall v ensures !Reaches(Converse(links), v, v) { assert !Reaches(links, v, v); }
    }
    if Acyclic(Converse(links)) {
      forall v ensures !Reaches(links, v, v) { assert !Reaches(Converse(links), v, v); }
    }
  }

  // ---- What the graph of an apply orders ----

  /** The resources and their links form a graph that both parsers accept. */
  ghost predicate Buildable(spec: Index, prior: Index) {
    && Resolvable(spec) && Resolvable(prior)
    && NoReservedIds(spec.Keys) && NoReservedIds(prior.Keys)
    && Acyclic(DependencyLinks(spec, prior))
  }

  /**
   Between resources, the reduced graph orders exactly what the dependencies order; its one
   root comes before everything; and no edge of it can be spared.
   */
  lemma ApplyGraphOrders(spec: Index, prior: Index)
    requires Buildable(spec, prior)
    ensures var edges, vertices := Cover(ApplyEdges(spec, prior)), {ROOT} + spec.Keys + prior.Keys;
      && Acyclic(edges) && Endpoints(edges) <= vertices && IsOnlyRoot(vertices, edges, ROOT)
      && (forall v :: v in vertices && v != ROOT ==> Reaches(edges, ROOT, v))
    ensures forall u, v :: u != ROOT ==>
      (Reaches(Cover(ApplyEdges(spec, prior)), u, v) <==> Reaches(DependencyLinks(spec, prior), u, v))
    ensures forall e :: e in Cover(ApplyEdges(spec, prior)) ==> !Reaches(Cover(ApplyEdges(spec, prior)) - {e}, e.0, e.1)
  {
    var edges, vertices := Cover(ApplyEdges(spec, prior)), {ROOT} + spec.Keys + prior.Keys;
    ApplyEdgesAreRooted(spec, prior);
    CoverIsRooted(ApplyEdges(spec, prior), vertices, ROOT);
    forall v | v in vertices && v != ROOT ensures Reaches(edges, ROOT, v) {
      RootReachesAll(edges, vertices, ROOT, v);
    }
    forall u, v | u != ROOT ensures Reaches(edges, u, v) <==> Reaches(DependencyLinks(spec, prior), u, v) {
      RootEdgesAreNeutral(DependencyLinks(spec, prior), RootEdges(ROOT, spec.Keys + prior.Keys), ROOT, u, v);
    }
    forall e | e in edges ensures !Reaches(edges - {e}, e.0, e.1) {
      CoverIsMinimal(ApplyEdges(spec, prior), e);
    }
  }

  lemma ApplyEdgesAreRooted(spec: Index, prior: Index)
    requires Buildable(spec, prior)
    ensures Acyclic(ApplyEdges(spec, prior)) && Endpoints(ApplyEdges(spec, prior)) <= {ROOT} + spec.Keys + prior.Keys
    ensures IsOnlyRoot({ROOT} + spec.Keys + prior.Keys, ApplyEdges(spec, prior), ROOT)
    ensures forall e :: e in DependencyLinks(spec, prior) ==> e.1 != ROOT
  {
    LinksAvoidRoot(spec, prior);
    HungBelowRoot(DependencyLinks(spec, prior), ROOT, spec.Keys + prior.Keys);
  }

  lemma CoverIsMinimal(edges: Edges, e: (Vertex, Vertex))
    requires Acyclic(edges) && e in Cover(edges)
    ensures !Reaches(Cover(edges) - {e}, e.0, e.1)
  {
    var fewer := Cover(edges) - {e};
    if Reaches(fewer, e.0, e.1) {
      var w := FirstStep(fewer, e.0, e.1);
      EdgeReaches(edges, e.0, w);
      ReachesMonotone(fewer, edges, w, e.1);
      assert Between(edges, e.0, w, e.1);
    }
  }

  /** Every dependency is ordered, and the direction depends on what becomes of the parent. */
  lemma DependenciesAreOrdered(spec: Index, prior: Index, child: string, parent: string)
    requires Buildable(spec, prior)
    ensures child in spec && parent in Deps(spec[child]) ==> Reaches(Cover(ApplyEdges(spec, prior)), parent, child)
    ensures child in prior && parent in Deps(prior[child]) && parent in spec ==>
      Reaches(Cover(ApplyEdges(spec, prior)), parent, child)
    ensures child in prior && parent in Deps(prior[child]) && parent !in spec ==>
      Reaches(Cover(ApplyEdges(spec, prior)), child, parent)
  {
    ApplyGraphOrders(spec, prior);
    LinksAvoidRoot(spec, prior);
    var links := DependencyLinks(spec, prior);
    if child in spec && parent in Deps(spec[child]) {
      assert (parent, child) in links;
      EdgeReaches(links, parent, child);
    }
    if child in prior && parent in Deps(prior[child]) {
      var e := Link(child, parent, Delete, spec.Keys);
      assert e in links;
      EdgeReaches(links, e.0, e.1);
    }
  }

  /** Destroying a set of resources visits them against the order in which applying it does. */
  lemma DestroyReversesApply(index: Index, u: string, v: string)
    requires Resolvable(index) && NoReservedIds(index.Keys) && Acyclic(SpecLinks(index, index.Keys))
    requires u in index && v in index
    ensures Reaches(Cover(ApplyEdges(map[], index)), u, v) <==> Reaches(Cover(ApplyEdges(index, map[])), v, u)
  {
    DestroyLinks(index);
    assert DependencyLinks(index, map[]) == SpecLinks(index, index.Keys);
    ApplyGraphOrders(map[], index);
    ApplyGraphOrders(index, map[]);
    ConverseReaches(SpecLinks(index, index.Keys), v, u);
  }

  /** With nothing recorded, the apply graph orders what the spec links. */
  lemma SpecGraphFollowsLinks(index: Index, u: string, v: string)
    requires Resolvable(index) && NoReservedIds(index.Keys) && Acyclic(SpecLinks(index, index.Keys))
    requires u in index
    ensures Reaches(Cover(ApplyEdges(index, map[])), u, v) <==> Reaches(SpecLinks(index, index.Keys), u, v)
  {
    assert DependencyLinks(index, map[]) == SpecLinks(index, index.Keys);
    ApplyGraphOrders(index, map[]);
  }

  lemma DestroyFollowsLinks(index: Index, u: string, v: string)
    requires Resolvable(index) && NoReservedIds(index.Keys) && Acyclic(SpecLinks(index, index.Keys))
    requires u in index && v in index
    ensures Reaches(Cover(ApplyEdges(map[], index)), u, v) <==> Reaches(SpecLinks(index, index.Keys), v, u)
  {
    DestroyReversesApply(index, u, v);
    SpecGraphFollowsLinks(index, v, u);
  }

  /** The same against another resource set with the same links. */
  lemma DestroyReversesAlike(index: Index, other: Index, u: string, v: string)
    requires Resolvable(index) && NoReservedIds(index.Keys) && Acyclic(SpecLinks(index, index.Keys))
    requires other.Keys == index.Keys && SpecLinks(other, other.Keys) == SpecLinks(index, index.Keys)
    requires u in index && v in index
    ensures Reaches(Cover(ApplyEdges(map[], index)), u, v) <==> Reaches(Cover(ApplyEdges(other, map[])), v, u)
  {
    DestroyReversesApply(index, u, v);
    assert ApplyEdges(index, map[]) == ApplyEdges(other, map[]);
  }

  /** Turning round a recorded dependency between two kept resources is refused as a circle, in every order. */
  lemma FlippedDependencyIsRefused(spec: Index, prior: Index, a: string, b: string)
    requires a in spec && b in spec && b in prior
    requires b in Deps(spec[a]) && a in Deps(prior[b])
    ensures !Acyclic(DependencyLinks(spec, prior)) && !Buildable(spec, prior)
    ensures forall order ::
      Resolvable(spec) && Resolvable(prior) && !GuardFires(prior, spec.Keys, order) ==> FindsCircle(spec, prior, order)
  {
    var links := DependencyLinks(spec, prior);
    assert (b, a) in links;
    assert Link(b, a, Delete, spec.Keys) in links;
    EdgeReaches(links, b, a);
    EdgeReaches(links, a, b);
    ReachesTransitive(links, a, b, a);
  }

  // ---- The deletion guard ----

  /** Some kept resource still records a dependency on a resource that is to be deleted. */
  ghost predicate DeletesADependency(prior: Index, manifest: set<string>) {
    exists k :: k in prior && k !in manifest && HasKeptDependent(prior, manifest, k)
  }

  /**
   The guard against deleting such a resource is only as good as the luck of the iteration:
   there is always an order that trips it, and always one that slips past.
   */
  lemma GuardDependsOnOrder(prior: Index, manifest: set<string>) returns (trips: seq<string>, slips: seq<string>)
    requires Resolvable(prior)
    ensures Enumerates(trips, prior.Keys)
    ensures (GuardFires(prior, manifest, trips) <==> DeletesADependency(prior, manifest))
    ensures Enumerates(slips, prior.Keys) && !GuardFires(prior, manifest, slips)
  {
    var kept := SomeOrder(prior.Keys * manifest);
    var gone := SomeOrder(prior.Keys - manifest);
    slips := kept + gone;
    ConcatEnumerates(kept, gone, prior.Keys * manifest, prior.Keys - manifest);
    assert prior.Keys * manifest + (prior.Keys - manifest) == prior.Keys;
    forall i | 0 <= i < |slips| ensures !GuardFiresAt(prior, manifest, slips, i) {
      KeptFirstSlips(prior, manifest, kept, gone, i);
    }
    if k :| k in prior && k !in manifest && HasKeptDependent(prior, manifest, k) {
      var rest := SomeOrder(prior.Keys - {k});
      trips := [k] + rest;
      ConcatEnumerates([k], rest, {k}, prior.Keys - {k});
      assert {k} + (prior.Keys - {k}) == prior.Keys;
      assert GuardFiresAt(prior, manifest, trips, 0);
    } else {
      trips := slips;
    }
  }

  lemma KeptFirstSlips(prior: Index, manifest: set<string>, kept: seq<string>, gone: seq<string>, i: nat)
    requires Elements(kept) == prior.Keys * manifest && i < |kept + gone|
    ensures !GuardFiresAt(prior, manifest, kept + gone, i)
  {
    var slips := kept + gone;
    if i < |kept| {
      assert kept[i] in Elements(kept);
    } else if v :| v in prior && v in manifest && slips[i] in prior[v].dependsOn {
      assert v in Elements(kept);
      var j :| 0 <= j < |kept| && kept[j] == v;
      assert slips[j] == v && slips[i] in Deps(prior[slips[j]]);
    }
  }

  lemma SomeOrder(keys: set<string>) returns (order: seq<string>)
    ensures Enumerates(order, keys)
  {
    if keys == {} {
      order := [];
    } else {
      var k :| k in keys;
      var rest := SomeOrder(keys - {k});
      order := [k] + rest;
      ConcatEnumerates([k], rest, {k}, keys - {k});
      assert {k} + (keys - {k}) == keys;
    }
  }

  lemma ConcatEnumerates(a: seq<string>, b: seq<string>, x: set<string>, y: set<string>)
    requires Enumerates(a, x) && Enumerates(b, y) && x !! y
    ensures Enumerates(a + b, x + y)
  {
    assert Elements(a + b) == Elements(a) + Elements(b);
    forall i, j | 0 <= i < j < |a + b| ensures (a + b)[i] != (a + b)[j] {
      if i < |a| <= j {
        assert a[i] in Elements(a) && b[j - |a|] in Elements(b);
      }
    }
  }

  // ---- A spec that a preview has resolved ----

  /** after is the spec a preview leaves behind: dependencies written out, no new reference in its attributes. */
  ghost predicate ResolvedInPlace(before: Index, after: Index) {
    && after.Keys == before.Keys
    && forall k :: k in before ==>
      && Elements(after[k].dependsOn) == Deps(before[k])
      && Refs(after[k].attributes) <= Refs(before[k].attributes)
      && (HasEmptyRef(after[k].attributes) ==> HasEmptyRef(before[k].attributes))
  }

  /** Resolving a spec in place takes nothing from the order in which it will be applied. */
  lemma ResolvedSpecOrdersAlike(before: Index, after: Index, prior: Index)
    requires ResolvedInPlace(before, after)
    ensures ApplyEdges(after, prior) == ApplyEdges(before, prior)
    ensures Resolvable(before) ==> Resolvable(after)
  {
    assert forall k :: k in before ==> Deps(after[k]) == Deps(before[k]);
    assert SpecLinks(after, after.Keys) == SpecLinks(before, before.Keys);
  }
}
