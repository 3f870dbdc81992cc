/**
 Destroying what an apply has recorded: when the destroy goes against the order of the apply.
 The record of a resource left alone keeps the dependencies recorded for it earlier, so it may
 order more than the spec, or less.
 */
module Destroys {
  import opened Models
  import opened Reachability
  import opened Parsers
  import opened Graphs
  import opened Engine
  import opened Safety
  import opened Resolved
  import opened Converge

  ghost function RecordLinks(c: Config, s: State): Edges {
    SpecLinks(Latest(c, s), Latest(c, s).Keys)
  }

  ghost function OwnLinks(c: Config): Edges {
    SpecLinks(c.spec, c.spec.Keys)
  }

  /** The graph of a destroy of what was recorded. */
  ghost function DestroyEdges(c: Config, s: State): Edges {
    Cover(ApplyEdges(map[], Latest(c, s)))
  }

  ghost predicate AllReach(links: Edges, parents: set<string>, n: string) {
    forall p :: p in parents ==> Reaches(links, p, n)
  }

  lemma RecordedLink(c: Config, s: State, p: string, n: string)
    requires WellFormed(c) && Resolving(c) && Completed(c, s)
    ensures (p, n) in RecordLinks(c, s) <==>
      n in c.spec && p in if KeptRecord(c, s, n) then Elements(c.prior[n].dependsOn) else Deps(c.spec[n])
  {
    RecordedKeys(c, s);
    if n in c.spec {
      RecordedDeps(c, s, n);
    }
  }

  /** Two sets of resources are ordered alike if and only if each orders what the other links. */
  lemma IndexesOrderAlike(a: Index, b: Index)
    requires a.Keys == b.Keys
    ensures SameReach(SpecLinks(a, a.Keys), SpecLinks(b, b.Keys))
      <==> forall n :: n in a ==>
             AllReach(SpecLinks(b, b.Keys), Deps(a[n]), n) && AllReach(SpecLinks(a, a.Keys), Deps(b[n]), n)
  {
    var x, y := SpecLinks(a, a.Keys), SpecLinks(b, b.Keys);
    if SameReach(x, y) {
      forall n, p | n in a && p in Deps(a[n]) ensures Reaches(y, p, n) { EdgeReaches(x, p, n); }
      forall n, p | n in b && p in Deps(b[n]) ensures Reaches(x, p, n) { EdgeReaches(y, p, n); }
    } else if forall n :: n in a ==> AllReach(y, Deps(a[n]), n) && AllReach(x, Deps(b[n]), n) {
      forall e | e in x ensures Reaches(y, e.0, e.1) { assert AllReach(y, Deps(a[e.1]), e.1); }
      forall e | e in y ensures Reaches(x, e.0, e.1) { assert AllReach(x, Deps(b[e.1]), e.1); }
      ThroughBoth(x, y);
    }
  }

  lemma LinksReach(index: Index, n: string)
    requires n in index
    ensures AllReach(SpecLinks(index, index.Keys), Deps(index[n]), n)
  {
    forall p | p in Deps(index[n]) ensures Reaches(SpecLinks(index, index.Keys), p, n) {
      EdgeReaches(SpecLinks(index, index.Keys), p, n);
    }
  }

  /** The record of this resource puts before it, in effect, what the spec asks for, and nothing else. */
  ghost predicate RecordsWhatSpecOrders(c: Config, s: State, n: string)
    requires n in c.spec && n in c.prior
  {
    AllReach(OwnLinks(c), Elements(c.prior[n].dependsOn), n) && AllReach(RecordLinks(c, s), Deps(c.spec[n]), n)
  }

  /**
   The record orders the resources as the spec does if and only if, for each resource left alone, the
   spec orders it after everything it still records and the record after everything the spec asks for.
   */
  lemma RecordKeepsOrder(c: Config, s: State)
    requires WellFormed(c) && Resolving(c) && Completed(c, s)
    ensures SameReach(RecordLinks(c, s), OwnLinks(c))
      <==> forall n :: n in c.spec && KeptRecord(c, s, n) ==> RecordsWhatSpecOrders(c, s, n)
  {
    RecordedKeys(c, s);
    var latest := Latest(c, s);
    IndexesOrderAlike(latest, c.spec);
    forall n | n in c.spec
      ensures AllReach(OwnLinks(c), Deps(latest[n]), n) && AllReach(RecordLinks(c, s), Deps(c.spec[n]), n)
        <==> (KeptRecord(c, s, n) ==> RecordsWhatSpecOrders(c, s, n))
    {
      RecordOrdersAt(c, s, n);
    }
  }

  lemma RecordOrdersAt(c: Config, s: State, n: string)
    requires WellFormed(c) && Resolving(c) && Completed(c, s) && n in c.spec
    ensures n in Latest(c, s)
    ensures AllReach(OwnLinks(c), Deps(Latest(c, s)[n]), n) && AllReach(RecordLinks(c, s), Deps(c.spec[n]), n)
      <==> (KeptRecord(c, s, n) ==> RecordsWhatSpecOrders(c, s, n))
  {
    RecordedDeps(c, s, n);
    LinksReach(c.spec, n);
    LinksReach(Latest(c, s), n);
  }

  lemma ThroughBoth(a: Edges, b: Edges)
    requires forall e :: e in a ==> Reaches(b, e.0, e.1)
    requires forall e :: e in b ==> Reaches(a, e.0, e.1)
    ensures SameReach(a, b)
  {
    forall u, v ensures Reaches(a, u, v) <==> Reaches(b, u, v) {
      if Reaches(a, u, v) { ReachesThrough(a, b, u, v); }
      if Reaches(b, u, v) { ReachesThrough(b, a, u, v); }
    }
  }

  // ---- Against the order of the spec ----

  lemma RecordIsAcyclic(c: Config, s: State)
    requires WellFormed(c) && Resolving(c) && Completed(c, s) && Resolvable(Latest(c, s))
    ensures Acyclic(RecordLinks(c, s)) && NoReservedIds(Latest(c, s).Keys) && Latest(c, s).Keys == c.spec.Keys
    ensures RecordLinks(c, s) <= DependencyLinks(c.spec, c.prior)
  {
    RecordedKeys(c, s);
    RecordLinksAreKept(c, s);
    KeptLinksAreLinks(c);
    forall v ensures !Reaches(RecordLinks(c, s), v, v) {
      if Reaches(RecordLinks(c, s), v, v) {
        ReachesMonotone(RecordLinks(c, s), DependencyLinks(c.spec, c.prior), v, v);
      }
    }
  }

  /** Between resources the destroy graph is the converse of the recorded links. */
  lemma DestroyFollowsRecord(c: Config, s: State, u: string, v: string)
    requires WellFormed(c) && Resolving(c) && Completed(c, s) && Resolvable(Latest(c, s))
    requires u in c.spec && v in c.spec
    ensures Reaches(DestroyEdges(c, s), u, v) <==> Reaches(RecordLinks(c, s), v, u)
  {
    RecordIsAcyclic(c, s);
    DestroyFollowsLinks(Latest(c, s), u, v);
  }

  lemma SpecGraphFollowsSpec(c: Config, u: string, v: string)
    requires WellFormed(c) && v in c.spec
    ensures Reaches(Cover(ApplyEdges(c.spec, map[])), v, u) <==> Reaches(OwnLinks(c), v, u)
  {
    LinksWithin(c.spec, c.prior);
    SpecGraphFollowsLinks(c.spec, v, u);
  }

  /** Every pair of resources ordered by one graph is ordered the other way round by the other, and no other pair. */
  ghost predicate Reverses(keys: set<string>, destroy: Edges, walk: Edges) {
    forall u, v :: u in keys && v in keys ==> (Reaches(destroy, u, v) <==> Reaches(walk, v, u))
  }

  /** Graphs that follow links, one of them backwards, are the reverse of one another if the links order alike. */
  lemma ReversesIfAlike(keys: set<string>, destroy: Edges, walk: Edges, a: Edges, b: Edges)
    requires Endpoints(a) <= keys && Endpoints(b) <= keys
    requires forall u, v :: u in keys && v in keys ==> (Reaches(destroy, u, v) <==> Reaches(a, v, u))
    requires forall u, v :: u in keys && v in keys ==> (Reaches(walk, v, u) <==> Reaches(b, v, u))
    ensures Reverses(keys, destroy, walk) <==> SameReach(a, b)
  {
    if Reverses(keys, destroy, walk) {
      forall u, v ensures Reaches(a, v, u) <==> Reaches(b, v, u) {
        if Reaches(a, v, u) { ReachesEndpoints(a, v, u); }
        if Reaches(b, v, u) { ReachesEndpoints(b, v, u); }
      }
    }
  }

  lemma LinksWithinSpec(c: Config, s: State)
    requires WellFormed(c) && Resolving(c) && Completed(c, s) && Resolvable(Latest(c, s))
    ensures Endpoints(RecordLinks(c, s)) <= c.spec.Keys && Endpoints(OwnLinks(c)) <= c.spec.Keys
  {
    RecordedKeys(c, s);
    SpecLinksWithin(Latest(c, s));
    SpecLinksWithin(c.spec);
  }

  /**
   The record of a complete apply that parses is destroyed against the order of the spec's own graph
   if and only if each resource left alone still records, in effect, what the spec asks for.
   */
  lemma DestroyReversesRecordedApply(c: Config, s: State)
    requires WellFormed(c) && Resolving(c) && Completed(c, s) && Resolvable(Latest(c, s))
    ensures Reverses(c.spec.Keys, DestroyEdges(c, s), Cover(ApplyEdges(c.spec, map[])))
      <==> forall n :: n in c.spec && KeptRecord(c, s, n) ==> RecordsWhatSpecOrders(c, s, n)
  {
    LinksWithinSpec(c, s);
    forall u, v | u in c.spec && v in c.spec
      ensures Reaches(DestroyEdges(c, s), u, v) <==> Reaches(RecordLinks(c, s), v, u)
      ensures Reaches(Cover(ApplyEdges(c.spec, map[])), v, u) <==> Reaches(OwnLinks(c), v, u)
    {
      DestroyFollowsRecord(c, s, u, v);
      SpecGraphFollowsSpec(c, u, v);
    }
    ReversesIfAlike(c.spec.Keys, DestroyEdges(c, s), Cover(ApplyEdges(c.spec, map[])), RecordLinks(c, s), OwnLinks(c));
    RecordKeepsOrder(c, s);
  }

  // ---- Against the order of the walk ----

  /** What the walk of the apply put before a resource of the spec: what the spec asks for, and what was recorded. */
  ghost function KeptDeps(c: Config, n: string): set<string>
    requires n in c.spec
  {
    Deps(c.spec[n]) + if n in c.prior then Deps(c.prior[n]) * c.spec.Keys else {}
  }

  ghost function KeptLinks(c: Config): Edges {
    set n, p | n in c.spec && p in KeptDeps(c, n) :: (p, n)
  }

  /** A resource to be deleted comes before none that is kept. */
  lemma DeletedComeLast(c: Config, e: (Vertex, Vertex))
    requires WellFormed(c) && e in DependencyLinks(c.spec, c.prior)
    ensures e.1 in c.spec ==> e.0 in c.spec && e in KeptLinks(c)
  {
    if e !in SpecLinks(c.spec, c.spec.Keys) {
      var k, p :| k in c.prior && p in Deps(c.prior[k]) && e == Link(k, p, Delete, c.spec.Keys);
    }
  }

  lemma KeptLinksAreLinks(c: Config)
    requires WellFormed(c)
    ensures KeptLinks(c) <= DependencyLinks(c.spec, c.prior)
  {
    forall n, p | n in c.spec && p in KeptDeps(c, n) ensures (p, n) in DependencyLinks(c.spec, c.prior) {
      if p !in Deps(c.spec[n]) {
        assert Link(n, p, Delete, c.spec.Keys) == (p, n);
      }
    }
  }

  lemma WalkFollowsKeptLinks(c: Config, u: string, v: string)
    requires WellFormed(c) && u in c.spec && v in c.spec
    ensures Reaches(c.edges, u, v) <==> Reaches(KeptLinks(c), u, v)
  {
    var links := DependencyLinks(c.spec, c.prior);
    ApplyGraphOrders(c.spec, c.prior);
    KeptLinksAreLinks(c);
    if Reaches(KeptLinks(c), u, v) {
      ReachesMonotone(KeptLinks(c), links, u, v);
    }
    if Reaches(links, u, v) {
      var closed := iset x | x !in c.spec || Reaches(KeptLinks(c), u, x);
      forall e | e in links && (e.0 == u || e.0 in closed) ensures e.1 in closed {
        DeletedComeLast(c, e);
        if e.1 in c.spec {
          EdgeReaches(KeptLinks(c), e.0, e.1);
          if e.0 != u { ReachesTransitive(KeptLinks(c), u, e.0, e.1); }
        }
      }
      ReachesStaysIn(links, u, v, closed);
    }
  }

  /** A destroy of the record never goes along with the order of the walk that wrote it. */
  lemma DestroyNeverFollowsWalk(c: Config, s: State, u: string, v: string)
    requires WellFormed(c) && Resolving(c) && Completed(c, s) && Resolvable(Latest(c, s))
    requires u in c.spec && v in c.spec
    ensures Reaches(DestroyEdges(c, s), u, v) ==> Reaches(c.edges, v, u)
  {
    DestroyFollowsRecord(c, s, u, v);
    RecordIsAcyclic(c, s);
    ApplyGraphOrders(c.spec, c.prior);
    if Reaches(RecordLinks(c, s), v, u) {
      ReachesMonotone(RecordLinks(c, s), DependencyLinks(c.spec, c.prior), v, u);
    }
  }

  lemma KeptLinksWithin(c: Config)
    requires WellFormed(c)
    ensures Endpoints(KeptLinks(c)) <= c.spec.Keys
  {
    forall n | n in c.spec ensures KeptDeps(c, n) <= c.spec.Keys { SpecDepsWithin(c, n); }
  }

  lemma RecordLinksAreKept(c: Config, s: State)
    requires WellFormed(c) && Resolving(c) && Completed(c, s) && Resolvable(Latest(c, s))
    ensures RecordLinks(c, s) <= KeptLinks(c)
  {
    LinksWithinSpec(c, s);
    forall e | e in RecordLinks(c, s) ensures e in KeptLinks(c) { RecordLinkIsKept(c, s, e.0, e.1); }
  }

  lemma RecordLinkIsKept(c: Config, s: State, p: string, n: string)
    requires WellFormed(c) && Resolving(c) && Completed(c, s)
    requires (p, n) in RecordLinks(c, s) && Endpoints(RecordLinks(c, s)) <= c.spec.Keys
    ensures (p, n) in KeptLinks(c)
  {
    RecordedLink(c, s, p, n);
    assert p in Endpoints(RecordLinks(c, s));
    assert p in KeptDeps(c, n);
  }

  /** Fewer links order as much as more if and only if they order all that the others link. */
  lemma FewerLinksOrderAlike(fewer: Edges, more: Edges)
    requires fewer <= more
    ensures SameReach(fewer, more) <==> forall e :: e in more ==> Reaches(fewer, e.0, e.1)
  {
    if SameReach(fewer, more) {
      forall e | e in more ensures Reaches(fewer, e.0, e.1) { EdgeReaches(more, e.0, e.1); }
    } else if forall e :: e in more ==> Reaches(fewer, e.0, e.1) {
      forall e | e in fewer ensures Reaches(more, e.0, e.1) { EdgeReaches(more, e.0, e.1); }
      ThroughBoth(fewer, more);
    }
  }

  lemma KeptLinksReach(c: Config, links: Edges)
    ensures (forall e :: e in KeptLinks(c) ==> Reaches(links, e.0, e.1))
      <==> forall n :: n in c.spec ==> AllReach(links, KeptDeps(c, n), n)
  {
    if forall e :: e in KeptLinks(c) ==> Reaches(links, e.0, e.1) {
      forall n, p | n in c.spec && p in KeptDeps(c, n) ensures Reaches(links, p, n) {
        assert (p, n) in KeptLinks(c);
      }
    }
  }

  /**
   It goes against all of that order if and only if the record still puts before each resource, in
   effect, all that the walk put before it.
   */
  lemma DestroyReversesTheWalk(c: Config, s: State)
    requires WellFormed(c) && Resolving(c) && Completed(c, s) && Resolvable(Latest(c, s))
    ensures Reverses(c.spec.Keys, DestroyEdges(c, s), c.edges)
      <==> forall n :: n in c.spec ==> AllReach(RecordLinks(c, s), KeptDeps(c, n), n)
  {
    RecordLinksAreKept(c, s);
    KeptLinksWithin(c);
    LinksWithinSpec(c, s);
    forall u, v | u in c.spec && v in c.spec
      ensures Reaches(DestroyEdges(c, s), u, v) <==> Reaches(RecordLinks(c, s), v, u)
      ensures Reaches(c.edges, v, u) <==> Reaches(KeptLinks(c), v, u)
    {
      DestroyFollowsRecord(c, s, u, v);
      WalkFollowsKeptLinks(c, v, u);
    }
    ReversesIfAlike(c.spec.Keys, DestroyEdges(c, s), c.edges, RecordLinks(c, s), KeptLinks(c));
    FewerLinksOrderAlike(RecordLinks(c, s), KeptLinks(c));
    KeptLinksReach(c, RecordLinks(c, s));
  }
}
