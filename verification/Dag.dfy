/**
 The graph the engine builds and walks. Vertices are keyed by hash code; an edge
 set stands for the edge, down-edge and up-edge indexes, which always agree.
 */
module Dag {
  import opened Reachability

  /** Every element of a set once, in whatever order the map iteration yields them. */
  method ToSeq<T(==)>(s: set<T>) returns (r: seq<T>)
    ensures forall x :: x in r <==> x in s
  {
    r := [];
    var rest := s;
    while rest != {}
      invariant rest <= s
      invariant forall x :: x in r <==> x in s - rest
    {
      var x :| x in rest;
      r, rest := r + [x], rest - {x};
    }
  }

  class AcyclicGraph<T(==)> {
    var vertices: map<Vertex, T>
    var edges: Edges

    constructor ()
      ensures vertices == map[] && edges == {}
    {
      vertices, edges := map[], {};
    }

    ghost predicate Closed()
      reads this
    {
      Endpoints(edges) <= vertices.Keys
    }

    predicate HasVertex(v: Vertex)
      reads this
    {
      v in vertices
    }

    method Add(v: Vertex, node: T)
      modifies this`vertices
      ensures vertices == old(vertices)[v := node]
    {
      vertices := vertices[v := node];
    }

    method Connect(source: Vertex, target: Vertex)
      modifies this`edges
      ensures edges == old(edges) + {(source, target)}
    {
      edges := edges + {(source, target)};
    }

    method RemoveEdge(source: Vertex, target: Vertex)
      modifies this`edges
      ensures edges == old(edges) - {(source, target)}
    {
      edges := edges - {(source, target)};
    }

    /** The single vertex without sources, or failure when there is none or more than one. */
    method Root() returns (found: bool, root: Vertex)
      ensures found ==> IsOnlyRoot(vertices.Keys, edges, root)
      ensures !found ==> forall r :: !IsOnlyRoot(vertices.Keys, edges, r)
    {
      var roots := [];
      var rest := vertices.Keys;
      while rest != {}
        invariant rest <= vertices.Keys
        invariant forall v :: v in roots <==> v in vertices.Keys - rest && Sources(edges, v) == {}
        invariant forall i, j :: 0 <= i < j < |roots| ==> roots[i] != roots[j]
      {
        var v :| v in rest;
        if Sources(edges, v) == {} {
          roots := roots + [v];
        }
        rest := rest - {v};
      }
      found := |roots| == 1;
      root := if found then roots[0] else "";
      assert forall v :: v in vertices && Sources(edges, v) == {} ==> v in roots;
      assert |roots| > 0 ==> roots[0] in roots;
      assert |roots| > 1 ==> roots[1] in roots;
    }

    /** All vertices met when walking down from v: exactly what v reaches. */
    method Ancestors(v: Vertex) returns (met: set<Vertex>)
      requires Closed()
      ensures forall w :: w in met <==> Reaches(edges, v, w)
    {
      met := {};
      var frontier := ToSeq(Targets(edges, v));
      forall w | w in frontier ensures Reaches(edges, v, w) { EdgeReaches(edges, v, w); }
      while frontier != []
        invariant forall w :: w in met || w in frontier ==> Reaches(edges, v, w)
        invariant forall e :: e in edges && (e.0 == v || e.0 in met) ==> e.1 in met || e.1 in frontier
        invariant met <= vertices.Keys
        decreases vertices.Keys - met, |frontier|
      {
        var current := frontier[|frontier| - 1];
        assert forall w :: w in frontier ==> w == current || w in frontier[..|frontier| - 1];
        frontier := frontier[..|frontier| - 1];
        if current !in met {
          ReachesEndpoints(edges, v, current);
          met := met + {current};
          var next := ToSeq(Targets(edges, current));
          forall w | w in next ensures Reaches(edges, v, w) {
            EdgeReaches(edges, current, w);
            ReachesTransitive(edges, v, current, w);
          }
          frontier := frontier + next;
        }
      }
      ghost var closed := iset w | w in met;
      forall w | Reaches(edges, v, w) ensures w in met {
        ReachesStaysIn(edges, v, w, closed);
      }
    }

    /** One root, no cycle and no self edge. */
    method Validate() returns (ok: bool)
      requires Closed()
      ensures ok <==> Acyclic(edges) && exists r :: IsOnlyRoot(vertices.Keys, edges, r)
    {
      var found, root := Root();
      if !found {
        return false;
      }
      var rest := vertices.Keys;
      while rest != {}
        invariant rest <= vertices.Keys
        invariant forall v :: v in vertices.Keys - rest ==> !Reaches(edges, v, v)
      {
        var v :| v in rest;
        var met := Ancestors(v);
        if v in met {
          return false;
        }
        rest := rest - {v};
      }
      forall v ensures !Reaches(edges, v, v) {
        if Reaches(edges, v, v) { ReachesEndpoints(edges, v, v); }
      }
      return true;
    }

    /** Removes, in place, every edge that a longer path stands in for, and no other. */
    method TransitiveReduction()
      requires Closed() && Acyclic(edges)
      modifies this`edges
      ensures edges == Cover(old(edges))
      ensures SameReach(edges, old(edges))
    {
      ghost var whole := edges;
      var rest := vertices.Keys;
      while rest != {}
        invariant rest <= vertices.Keys
        invariant Cover(whole) <= edges <= whole
        invariant forall e :: e in edges && e.0 in vertices.Keys - rest ==> e in Cover(whole)
      {
        var u :| u in rest;
        ReduceFrom(u, whole);
        rest := rest - {u};
      }
      assert forall e :: e in edges ==> e.0 in Endpoints(whole);
      assert edges == Cover(whole);
      CoverKeepsReach(whole, edges);
    }

    /** The depth-first walk below u that drops u's edges to what a deeper vertex also targets. */
    method ReduceFrom(u: Vertex, ghost whole: Edges)
      requires Closed() && Acyclic(whole) && Endpoints(whole) <= vertices.Keys
      requires Cover(whole) <= edges <= whole
      modifies this`edges
      ensures Cover(whole) <= edges <= old(edges)
      ensures forall e :: e in old(edges) && e.0 != u ==> e in edges
      ensures forall e :: e in edges && e.0 == u ==> e in Cover(whole)
    {
      ghost var before := edges;
      CoverKeepsReach(whole, before);
      var seen: set<Vertex> := {};
      var frontier := ToSeq(Targets(edges, u));
      forall w | w in frontier ensures Reaches(whole, u, w) { EdgeReaches(whole, u, w); }
      while frontier != []
        invariant Cover(whole) <= edges <= before
        invariant forall e :: e in before && e.0 != u ==> e in edges
        invariant forall w :: w in seen || w in frontier ==> Reaches(whole, u, w)
        invariant forall e :: e in before && (e.0 == u || e.0 in seen) ==> e.1 in seen || e.1 in frontier
        invariant forall v, x :: v in seen && (v, x) in before ==> (u, x) !in edges
        invariant seen <= vertices.Keys
        decreases vertices.Keys - seen, |frontier|
      {
        var current := frontier[|frontier| - 1];
        assert forall w :: w in frontier ==> w == current || w in frontier[..|frontier| - 1];
        frontier := frontier[..|frontier| - 1];
        if current !in seen {
          ReachesEndpoints(whole, u, current);
          assert current != u;
          DropShared(u, current, whole);
          seen := seen + {current};
          var next := ToSeq(Targets(edges, current));
          forall w | w in next ensures Reaches(whole, u, w) {
            EdgeReaches(whole, current, w);
            ReachesTransitive(whole, u, current, w);
          }
          frontier := frontier + next;
        }
      }
      forall e | e in edges && e.0 == u ensures e in Cover(whole) {
        forall w ensures !Between(whole, u, w, e.1) {
          if Between(whole, u, w, e.1) {
            var x := LastStep(before, w, e.1);
            if x != w { ReachesTransitive(before, u, w, x); }
            ReachesStaysIn(before, u, x, iset y | y in seen);
          }
        }
      }
    }

    /** Removes u's edges to the targets it shares with v. */
    method DropShared(u: Vertex, v: Vertex, ghost whole: Edges)
      requires Acyclic(whole) && Cover(whole) <= edges <= whole
      requires Reaches(whole, u, v)
      modifies this`edges
      ensures Cover(whole) <= edges <= old(edges)
      ensures forall e :: e in old(edges) && e.0 != u ==> e in edges
      ensures forall x :: (v, x) in edges ==> (u, x) !in edges
    {
      var shared := Targets(edges, u) * Targets(edges, v);
      ghost var before := edges;
      while shared != {}
        invariant Cover(whole) <= edges <= before
        invariant shared <= Targets(before, u) * Targets(before, v)
        invariant forall e :: e in before && e.0 != u ==> e in edges
        invariant forall x :: (v, x) in before && (u, x) in edges ==> x in shared
      {
        var x :| x in shared;
        EdgeReaches(whole, v, x);
        assert Between(whole, u, v, x);
        RemoveEdge(u, x);
        shared := shared - {x};
      }
    }
  }
}
