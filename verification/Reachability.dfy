/**
 Reachability in finite directed graphs: what the engine means by "ordered before".
 A vertex is a hash code, an edge a pair of them.
 */
module Reachability {

  type Vertex = string
  type Edges = set<(Vertex, Vertex)>

  ghost predicate IsPath(edges: Edges, path: seq<Vertex>) {
    forall i :: 0 <= i < |path| - 1 ==> (path[i], path[i + 1]) in edges
  }

  ghost predicate PathFromTo(edges: Edges, path: seq<Vertex>, u: Vertex, v: Vertex) {
    |path| >= 2 && path[0] == u && path[|path| - 1] == v && IsPath(edges, path)
  }

  /** v can be reached from u over one or more edges. */
  ghost predicate Reaches(edges: Edges, u: Vertex, v: Vertex) {
    exists path :: PathFromTo(edges, path, u, v)
  }

  ghost predicate Acyclic(edges: Edges) {
    forall v :: !Reaches(edges, v, v)
  }

  ghost predicate SameReach(a: Edges, b: Edges) {
    forall u, v :: Reaches(a, u, v) <==> Reaches(b, u, v)
  }

  function Targets(edges: Edges, u: Vertex): set<Vertex> {
    set e | e in edges && e.0 == u :: e.1
  }

  function Sources(edges: Edges, v: Vertex): set<Vertex> {
    set e | e in edges && e.1 == v :: e.0
  }

  function Endpoints(edges: Edges): set<Vertex> {
    (set e | e in edges :: e.0) + (set e | e in edges :: e.1)
  }

  function Converse(edges: Edges): Edges {
    set e | e in edges :: (e.1, e.0)
  }

  lemma EdgeReaches(edges: Edges, u: Vertex, v: Vertex)
    requires (u, v) in edges
    ensures Reaches(edges, u, v)
  {
    assert PathFromTo(edges, [u, v], u, v);
  }

  lemma ReachesTransitive(edges: Edges, u: Vertex, v: Vertex, w: Vertex)
    requires Reaches(edges, u, v) && Reaches(edges, v, w)
    ensures Reaches(edges, u, w)
  {
    var p :| PathFromTo(edges, p, u, v);
    var q :| PathFromTo(edges, q, v, w);
    var path := p + q[1..];
    forall i | 0 <= i < |path| - 1 ensures (path[i], path[i + 1]) in edges {
      if i >= |p| - 1 {
        assert path[i] == q[i - |p| + 1] && path[i + 1] == q[i - |p| + 2];
      }
    }
    assert PathFromTo(edges, path, u, w);
  }

  lemma ReachesMonotone(a: Edges, b: Edges, u: Vertex, v: Vertex)
    requires a <= b && Reaches(a, u, v)
    ensures Reaches(b, u, v)
  {
    var p :| PathFromTo(a, p, u, v);
    assert PathFromTo(b, p, u, v);
  }

  /** Induction over reachability: what contains the targets of u and is closed contains all that u reaches. */
  lemma ReachesStaysIn(edges: Edges, u: Vertex, v: Vertex, closed: iset<Vertex>)
    requires Reaches(edges, u, v)
    requires forall e :: e in edges && e.0 == u ==> e.1 in closed
    requires forall e :: e in edges && e.0 in closed ==> e.1 in closed
    ensures v in closed
  {
    var p :| PathFromTo(edges, p, u, v);
    var i := 1;
    while i < |p| - 1
      invariant 1 <= i <= |p| - 1 && p[i] in closed
    {
      assert (p[i], p[i + 1]) in edges;
      i := i + 1;
    }
  }

  /** The same induction against the edges. */
  lemma ReachedFromStaysIn(edges: Edges, u: Vertex, v: Vertex, closed: iset<Vertex>)
    requires Reaches(edges, u, v)
    requires forall e :: e in edges && e.1 == v ==> e.0 in closed
    requires forall e :: e in edges && e.1 in closed ==> e.0 in closed
    ensures u in closed
  {
    ConverseReaches(edges, u, v);
    ReachesStaysIn(Converse(edges), v, u, closed);
  }

  lemma ConverseReaches(edges: Edges, u: Vertex, v: Vertex)
    ensures Reaches(edges, u, v) <==> Reaches(Converse(edges), v, u)
  {
    if Reaches(edges, u, v) {
      ReachesBackwards(edges, u, v);
    }
    if Reaches(Converse(edges), v, u) {
      ReachesBackwards(Converse(edges), v, u);
      assert Converse(Converse(edges)) == edges by {
        forall e | e in edges ensures e in Converse(Converse(edges)) {
          assert (e.1, e.0) in Converse(edges);
        }
      }
    }
  }

  lemma ReachesBackwards(edges: Edges, u: Vertex, v: Vertex)
    requires Reaches(edges, u, v)
    ensures Reaches(Converse(edges), v, u)
  {
    var p :| PathFromTo(edges, p, u, v);
    var q := seq(|p|, i requires 0 <= i < |p| => p[|p| - 1 - i]);
    forall i | 0 <= i < |q| - 1 ensures (q[i], q[i + 1]) in Converse(edges) {
      assert (p[|p| - 2 - i], p[|p| - 1 - i]) in edges;
    }
    assert PathFromTo(Converse(edges), q, v, u);
  }

  lemma FirstStep(edges: Edges, u: Vertex, v: Vertex) returns (w: Vertex)
    requires Reaches(edges, u, v)
    ensures (u, w) in edges && (w == v || Reaches(edges, w, v))
  {
    var p :| PathFromTo(edges, p, u, v);
    w := p[1];
    assert (p[0], p[1]) in edges;
    if |p| > 2 {
      assert PathFromTo(edges, p[1..], w, v) by {
        forall i | 0 <= i < |p| - 2 ensures (p[1..][i], p[1..][i + 1]) in edges {
          assert (p[i + 1], p[i + 2]) in edges;
        }
      }
    }
  }

  lemma LastStep(edges: Edges, u: Vertex, v: Vertex) returns (w: Vertex)
    requires Reaches(edges, u, v)
    ensures (w, v) in edges && (w == u || Reaches(edges, u, w))
  {
    ConverseReaches(edges, u, v);
    w := FirstStep(Converse(edges), v, u);
    ConverseReaches(edges, u, w);
  }

  lemma ReachesEndpoints(edges: Edges, u: Vertex, v: Vertex)
    requires Reaches(edges, u, v)
    ensures u in Endpoints(edges) && v in Endpoints(edges)
  {
    var w := FirstStep(edges, u, v);
    var x := LastStep(edges, u, v);
  }

  // ---- Covering edges: the transitive reduction of an acyclic graph ----

  /** w lies strictly between u and v. */
  ghost predicate Between(edges: Edges, u: Vertex, w: Vertex, v: Vertex) {
    Reaches(edges, u, w) && Reaches(edges, w, v)
  }

  /** The edges that no other path can stand in for. */
  ghost function Cover(edges: Edges): Edges {
    set e | e in edges && !exists w :: Between(edges, e.0, w, e.1)
  }

  ghost function Interval(edges: Edges, u: Vertex, v: Vertex): set<Vertex> {
    set w | w in Endpoints(edges) && Between(edges, u, w, v)
  }

  lemma IntervalShrinks(edges: Edges, u: Vertex, w: Vertex, v: Vertex)
    requires Acyclic(edges) && Between(edges, u, w, v)
    ensures Interval(edges, u, w) < Interval(edges, u, v)
    ensures Interval(edges, w, v) < Interval(edges, u, v)
  {
    ReachesEndpoints(edges, u, w);
    forall x | x in Interval(edges, u, w) ensures x in Interval(edges, u, v) {
      ReachesTransitive(edges, x, w, v);
    }
    forall x | x in Interval(edges, w, v) ensures x in Interval(edges, u, v) {
      ReachesTransitive(edges, u, w, x);
    }
    assert w in Interval(edges, u, v) && w !in Interval(edges, u, w) && w !in Interval(edges, w, v);
  }

  /** Dropping any edges outside the cover leaves reachability as it was. */
  lemma {:induction false} CoverReaches(edges: Edges, kept: Edges, u: Vertex, v: Vertex)
    requires Acyclic(edges) && Cover(edges) <= kept && Reaches(edges, u, v)
    ensures Reaches(kept, u, v)
    decreases |Interval(edges, u, v)|
  {
    if w :| Between(edges, u, w, v) {
      IntervalShrinks(edges, u, w, v);
      ProperSubsetIsSmaller(Interval(edges, u, w), Interval(edges, u, v));
      ProperSubsetIsSmaller(Interval(edges, w, v), Interval(edges, u, v));
      CoverReaches(edges, kept, u, w);
      CoverReaches(edges, kept, w, v);
      ReachesTransitive(kept, u, w, v);
    } else {
      var x := FirstStep(edges, u, v);
      if x != v {
        EdgeReaches(edges, u, x);
        assert Between(edges, u, x, v);
      }
      EdgeReaches(kept, u, v);
    }
  }

  lemma ProperSubsetIsSmaller(a: set<Vertex>, b: set<Vertex>)
    requires a < b
    ensures |a| < |b|
  {
    assert b == a + (b - a);
    assert |b| == |a| + |b - a|;
  }

  lemma CoverKeepsReach(edges: Edges, kept: Edges)
    requires Acyclic(edges) && Cover(edges) <= kept <= edges
    ensures SameReach(edges, kept)
  {
    forall u, v ensures Reaches(edges, u, v) <==> Reaches(kept, u, v) {
      if Reaches(edges, u, v) { CoverReaches(edges, kept, u, v); }
      if Reaches(kept, u, v) { ReachesMonotone(kept, edges, u, v); }
    }
  }

  /** The cover is determined by reachability alone: graphs that order alike have one reduction. */
  lemma CoverIsUnique(a: Edges, b: Edges)
    requires Acyclic(a) && SameReach(a, b)
    ensures Cover(a) == Cover(b)
  {
    CoverWithin(a, b);
    CoverWithin(b, a);
  }

  lemma CoverWithin(a: Edges, b: Edges)
    requires Acyclic(a) && SameReach(a, b)
    ensures Cover(a) <= Cover(b)
  {
    forall e | e in Cover(a) ensures e in Cover(b) {
      EdgeReaches(a, e.0, e.1);
      var w := FirstStep(b, e.0, e.1);
      if w != e.1 {
        EdgeReaches(b, e.0, w);
        assert Between(a, e.0, w, e.1);
      }
      forall w ensures !Between(b, e.0, w, e.1) {
        if Between(b, e.0, w, e.1) { assert Between(a, e.0, w, e.1); }
      }
    }
  }

  // ---- Rooted graphs ----

  /** Everything that reaches v, as a finite set. */
  ghost function Before(edges: Edges, v: Vertex): set<Vertex> {
    set u | u in Endpoints(edges) && Reaches(edges, u, v)
  }

  /** In an acyclic graph where only root has no source, root reaches every vertex. */
  lemma {:induction false} RootReachesAll(edges: Edges, vertices: set<Vertex>, root: Vertex, v: Vertex)
    requires Acyclic(edges) && Endpoints(edges) <= vertices
    requires forall x :: x in vertices && x != root ==> Sources(edges, x) != {}
    requires v in vertices && v != root
    ensures Reaches(edges, root, v)
    decreases |Before(edges, v)|
  {
    var u :| u in Sources(edges, v);
    EdgeReaches(edges, u, v);
    if u != root {
      forall x | x in Before(edges, u) ensures x in Before(edges, v) {
        ReachesTransitive(edges, x, u, v);
      }
      assert u in Before(edges, v) && u !in Before(edges, u);
      ProperSubsetIsSmaller(Before(edges, u), Before(edges, v));
      RootReachesAll(edges, vertices, root, u);
      ReachesTransitive(edges, root, u, v);
    }
  }

  /** Roots are the vertices that no edge targets. */
  ghost predicate IsOnlyRoot(vertices: set<Vertex>, edges: Edges, root: Vertex) {
    root in vertices && forall v :: v in vertices ==> (Sources(edges, v) == {} <==> v == root)
  }

  function RootEdges(root: Vertex, vertices: set<Vertex>): Edges {
    set v | v in vertices :: (root, v)
  }

  /** Edges out of a root change nothing among the other vertices. */
  lemma RootEdgesAreNeutral(edges: Edges, extra: Edges, root: Vertex, u: Vertex, v: Vertex)
    requires forall e :: e in extra ==> e.0 == root && e.1 != root
    requires forall e :: e in edges ==> e.1 != root
    requires u != root
    ensures Reaches(edges + extra, u, v) <==> Reaches(edges, u, v)
  {
    if Reaches(edges + extra, u, v) {
      var after := iset x | x != root && Reaches(edges, u, x);
      forall e | e in edges + extra && (e.0 == u || e.0 in after) ensures e.1 in after {
        EdgeReaches(edges, e.0, e.1);
        if e.0 in after { ReachesTransitive(edges, u, e.0, e.1); }
      }
      ReachesStaysIn(edges + extra, u, v, after);
    }
    if Reaches(edges, u, v) { ReachesMonotone(edges, edges + extra, u, v); }
  }

  lemma NothingReachesRoot(edges: Edges, root: Vertex, u: Vertex)
    requires forall e :: e in edges ==> e.1 != root
    ensures !Reaches(edges, u, root)
  {
    if Reaches(edges, u, root) {
      var w := LastStep(edges, u, root);
    }
  }

  lemma RootEdgesKeepAcyclic(edges: Edges, extra: Edges, root: Vertex)
    requires forall e :: e in extra ==> e.0 == root && e.1 != root
    requires forall e :: e in edges ==> e.1 != root
    ensures Acyclic(edges + extra) <==> Acyclic(edges)
  {
    NothingReachesRoot(edges + extra, root, root);
    NothingReachesRoot(edges, root, root);
    forall v | v != root ensures Reaches(edges + extra, v, v) <==> Reaches(edges, v, v) {
      RootEdgesAreNeutral(edges, extra, root, v, v);
    }
    if Acyclic(edges) {
      forall v ensures !Reaches(edges + extra, v, v) {
        if v != root { assert !Reaches(edges, v, v); }
      }
    }
    if Acyclic(edges + extra) {
      forall v ensures !Reaches(edges, v, v) {
        if v != root { assert !Reaches(edges + extra, v, v); }
      }
    }
  }

  /** Links among vertices, hung below a root: one root, and no cycle but those of the links. */
  lemma HungBelowRoot(links: Edges, root: Vertex, vertices: set<Vertex>)
    requires Endpoints(links) <= vertices && root !in vertices
    ensures Endpoints(links + RootEdges(root, vertices)) <= {root} + vertices
    ensures IsOnlyRoot({root} + vertices, links + RootEdges(root, vertices), root)
    ensures Acyclic(links + RootEdges(root, vertices)) <==> Acyclic(links)
    ensures forall e :: e in links ==> e.1 != root
  {
    forall v | v in vertices ensures Sources(links + RootEdges(root, vertices), v) != {} {
      assert (root, v) in RootEdges(root, vertices);
      assert root in Sources(links + RootEdges(root, vertices), v);
    }
    RootEdgesKeepAcyclic(links, RootEdges(root, vertices), root);
  }

  // ---- Comparing graphs edge by edge ----

  /** If every edge of a is a path of b, then so is every path of a. */
  lemma ReachesThrough(a: Edges, b: Edges, u: Vertex, v: Vertex)
    requires forall e :: e in a ==> Reaches(b, e.0, e.1)
    requires Reaches(a, u, v)
    ensures Reaches(b, u, v)
  {
    var after := iset x | Reaches(b, u, x);
    forall e | e in a && e.0 in after ensures e.1 in after {
      ReachesTransitive(b, u, e.0, e.1);
    }
    ReachesStaysIn(a, u, v, after);
  }

  lemma SameReachUnion(a: Edges, b: Edges, more: Edges)
    requires SameReach(a, b)
    ensures SameReach(a + more, b + more)
  {
    forall u, v ensures Reaches(a + more, u, v) <==> Reaches(b + more, u, v) {
      if Reaches(a + more, u, v) { UnionReaches(a, b, more, u, v); }
      if Reaches(b + more, u, v) { UnionReaches(b, a, more, u, v); }
    }
  }

  lemma UnionReaches(a: Edges, b: Edges, more: Edges, u: Vertex, v: Vertex)
    requires SameReach(a, b) && Reaches(a + more, u, v)
    ensures Reaches(b + more, u, v)
  {
    forall e | e in a + more ensures Reaches(b + more, e.0, e.1) {
      if e in a {
        EdgeReaches(a, e.0, e.1);
        ReachesMonotone(b, b + more, e.0, e.1);
      } else {
        EdgeReaches(b + more, e.0, e.1);
      }
    }
    ReachesThrough(a + more, b + more, u, v);
  }

  lemma SameReachAcyclic(a: Edges, b: Edges)
    requires SameReach(a, b)
    ensures Acyclic(a) <==> Acyclic(b)
  {
    if Acyclic(a) {
      forall v ensures !Reaches(b, v, v) { assert !Reaches(a, v, v); }
    }
    if Acyclic(b) {
      forall v ensures !Reaches(a, v, v) { assert !Reaches(b, v, v); }
    }
  }

  /** Two ways of hanging a graph below a root order everything alike, as long as nothing is left hanging. */
  lemma RootingsAgree(base: Edges, a: Edges, b: Edges, root: Vertex, vertices: set<Vertex>)
    requires forall e :: e in base ==> e.1 != root
    requires forall e :: e in a + b ==> e.0 == root && e.1 != root
    requires Acyclic(base) && Endpoints(base + a) <= vertices && Endpoints(base + b) <= vertices
    requires forall v :: v in vertices && v != root ==> Sources(base + a, v) != {}
    requires forall v :: v in vertices && v != root ==> Sources(base + b, v) != {}
    ensures SameReach(base + a, base + b)
  {
    RootEdgesKeepAcyclic(base, a, root);
    RootEdgesKeepAcyclic(base, b, root);
    forall u, v ensures Reaches(base + a, u, v) <==> Reaches(base + b, u, v) {
      if u != root {
        RootEdgesAreNeutral(base, a, root, u, v);
        RootEdgesAreNeutral(base, b, root, u, v);
      } else {
        NothingReachesRoot(base + a, root, root);
        NothingReachesRoot(base + b, root, root);
        if v in vertices && v != root {
          RootReachesAll(base + a, vertices, root, v);
          RootReachesAll(base + b, vertices, root, v);
        } else {
          if Reaches(base + a, u, v) { ReachesEndpoints(base + a, u, v); }
          if Reaches(base + b, u, v) { ReachesEndpoints(base + b, u, v); }
        }
      }
    }
  }
}
