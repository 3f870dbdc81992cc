/**
 The two parsers that turn the spec and the recorded resources into one graph.
 A Go range over a map visits its keys in any order, so each Parse takes that
 order as an argument and promises its result for all of them.
 */
module Parsers {
  import opened Models
  import opened References
  import opened Reachability
  import opened Dag

  const ROOT := "RootNode"
  const ROOT_NAME := "root"

  /** Update nodes point into the spec, Delete nodes into the recorded resources. */
  datatype Node = RootNode | ResourceNode(action: ActionType)

  datatype Status =
    | Parsed
    | EmptyId
    | MissingKey(key: string)
    | CannotDelete(key: string)
    | CircleFound
    | NoVertices
    | EmptyReference

  type Index = map<string, Resource>

  /** Resources shared by reference between the parser, the graph nodes and the engine. */
  class ResourceTable {
    var index: Index

    constructor (index: Index)
      ensures this.index == index
    {
      this.index := index;
    }
  }

  // ---- Dependencies ----

  /** What a resource depends on, explicitly or through a reference. */
  function Deps(r: Resource): set<string> {
    Elements(r.dependsOn) + Refs(r.attributes)
  }

  /** The resource as updateDependencies leaves it: all dependencies written out, each once. */
  ghost predicate IsLinked(r: Resource, linked: Resource) {
    && linked.id == r.id && linked.attributes == r.attributes
    && NoDuplicates(linked.dependsOn) && Elements(linked.dependsOn) == Deps(r)
    && Dedup(r.dependsOn) <= linked.dependsOn
    && (Refs(r.attributes) == {} ==> linked.dependsOn == Dedup(r.dependsOn))
  }

  function Dedup(s: seq<string>): (r: seq<string>)
    ensures Elements(r) == Elements(s)
    ensures forall i, j :: 0 <= i < j < |r| ==> r[i] != r[j]
  {
    if s == [] then []
    else
      var front := Dedup(s[..|s| - 1]);
      var last := s[|s| - 1];
      assert s == s[..|s| - 1] + [last];
      assert Elements(s) == Elements(s[..|s| - 1]) + {last};
      if last in front then
        assert last in Elements(front);
        front
      else
        assert Elements(front + [last]) == Elements(front) + {last};
        front + [last]
  }

  /** The i-th key kept stands where it first appears: what is before it there is what is kept before it. */
  lemma {:induction false} DedupAt(s: seq<string>, i: nat) returns (p: nat)
    requires i < |Dedup(s)|
    ensures p < |s| && s[p] == Dedup(s)[i] && Elements(s[..p]) == Elements(Dedup(s)[..i])
  {
    var front := s[..|s| - 1];
    if i < |Dedup(front)| {
      p := DedupAt(front, i);
      assert s[..p] == front[..p] && Dedup(s)[..i] == Dedup(front)[..i];
    } else {
      p := |s| - 1;
      assert Dedup(s)[..i] == Dedup(front);
    }
  }

  lemma {:induction false} DedupOfDistinct(s: seq<string>)
    requires NoDuplicates(s)
    ensures Dedup(s) == s
  {
    if s != [] {
      var front := s[..|s| - 1];
      DedupOfDistinct(front);
      assert s == front + [s[|s| - 1]];
    }
  }

  /** Keys added behind others leave the order of those in front alone. */
  lemma {:induction false} DedupPrefix(s: seq<string>, more: seq<string>)
    ensures Dedup(s) <= Dedup(s + more)
  {
    if more == [] {
      assert s + more == s;
    } else {
      assert (s + more)[..|s + more| - 1] == s + more[..|more| - 1];
      DedupPrefix(s, more[..|more| - 1]);
    }
  }

  method Deduplicate(refNodeKeys: seq<string>) returns (res: seq<string>)
    ensures res == Dedup(refNodeKeys)
  {
    var allKeys: set<string> := {};
    res := [];
    for i := 0 to |refNodeKeys|
      invariant allKeys == Elements(res)
      invariant res == Dedup(refNodeKeys[..i])
    {
      assert refNodeKeys[..i + 1][..i] == refNodeKeys[..i];
      var item := refNodeKeys[i];
      if item !in allKeys {
        allKeys := allKeys + {item};
        res := res + [item];
      }
    }
    assert refNodeKeys[..|refNodeKeys|] == refNodeKeys;
  }

  method UpdateDependencies(table: ResourceTable, key: string) returns (refNodeKeys: seq<string>, s: Status)
    requires key in table.index
    modifies table
    ensures s == if HasEmptyRef(old(table.index[key]).attributes) then EmptyReference else Parsed
    ensures !s.Parsed? ==> table.index == old(table.index)
    ensures s.Parsed? ==> table.index == old(table.index)[key := old(table.index[key]).(dependsOn := refNodeKeys)]
    ensures s.Parsed? ==> IsLinked(old(table.index[key]), table.index[key])
  {
    var resource := table.index[key];
    refNodeKeys := resource.dependsOn;
    var implicitRefKeys, outcome := ReplaceRef(resource.attributes, Env(Stub(resource.attributes), None));
    StubFailsOnEmptyRef(resource.attributes, resource.attributes);
    if !outcome.Ok? {
      return [], EmptyReference;
    }
    assert Elements(refNodeKeys + implicitRefKeys) == Elements(refNodeKeys) + Elements(implicitRefKeys);
    if implicitRefKeys != [] {
      assert implicitRefKeys[0] in Elements(implicitRefKeys);
    } else {
      assert refNodeKeys + implicitRefKeys == refNodeKeys;
    }
    DedupPrefix(refNodeKeys, implicitRefKeys);
    refNodeKeys := Deduplicate(refNodeKeys + implicitRefKeys);
    table.index := table.index[key := resource.(dependsOn := refNodeKeys)];
    s := Parsed;
  }

  // ---- Links ----

  /** The edge between a child and one of its parents: a deleted parent comes after its child. */
  function Link(child: string, parent: string, action: ActionType, manifest: set<string>): (Vertex, Vertex) {
    if action.Delete? && parent !in manifest then (child, parent) else (parent, child)
  }

  function LinksOf(child: string, parents: set<string>, action: ActionType, manifest: set<string>): Edges {
    set p | p in parents :: Link(child, p, action, manifest)
  }

  method LinkRefNodes(g: AcyclicGraph<Node>, refNodeKeys: seq<string>, resourceIndex: set<string>, rn: string,
                      defaultAction: ActionType, manifest: set<string>)
    returns (s: Status)
    requires defaultAction.Delete? ==> manifest <= g.vertices.Keys
    modifies g
    ensures s.Parsed? <==> Elements(refNodeKeys) <= resourceIndex - {""}
    ensures s.Parsed? || s.MissingKey? || s.EmptyId?
    ensures s.Parsed? ==> g.edges == old(g.edges) + LinksOf(rn, Elements(refNodeKeys), defaultAction, manifest)
    ensures s.Parsed? ==> Extended(old(g.vertices), g.vertices, Elements(refNodeKeys), defaultAction)
  {
    if |refNodeKeys| == 0 {
      return Parsed;
    }
    ghost var before := g.vertices;
    for i := 0 to |refNodeKeys|
      invariant defaultAction.Delete? ==> manifest <= g.vertices.Keys
      invariant Elements(refNodeKeys[..i]) <= resourceIndex - {""}
      invariant g.edges == old(g.edges) + LinksOf(rn, Elements(refNodeKeys[..i]), defaultAction, manifest)
      invariant Extended(before, g.vertices, Elements(refNodeKeys[..i]), defaultAction)
    {
      var parentKey := refNodeKeys[i];
      assert parentKey in Elements(refNodeKeys);
      if parentKey !in resourceIndex {
        return MissingKey(parentKey);
      }
      if parentKey == "" {
        return EmptyId;
      }
      LinkParent(g, parentKey, rn, defaultAction, manifest);
      assert refNodeKeys[..i + 1] == refNodeKeys[..i] + [parentKey];
      assert Elements(refNodeKeys[..i + 1]) == Elements(refNodeKeys[..i]) + {parentKey};
      LinksOfMore(rn, Elements(refNodeKeys[..i]), parentKey, defaultAction, manifest);
    }
    assert refNodeKeys[..|refNodeKeys|] == refNodeKeys;
    s := Parsed;
  }

  /** after is before with a node for each of keys that had none. */
  ghost predicate Extended(before: map<Vertex, Node>, after: map<Vertex, Node>, keys: set<string>, action: ActionType) {
    && after.Keys == before.Keys + keys
    && forall v :: v in after ==> after[v] == if v in before then before[v] else ResourceNode(action)
  }

  lemma LinksOfMore(child: string, parents: set<string>, more: string, action: ActionType, manifest: set<string>)
    ensures LinksOf(child, parents + {more}, action, manifest)
         == LinksOf(child, parents, action, manifest) + {Link(child, more, action, manifest)}
  {
    forall p | p in parents + {more}
      ensures Link(child, p, action, manifest)
           in LinksOf(child, parents, action, manifest) + {Link(child, more, action, manifest)} {
    }
  }

  method LinkParent(g: AcyclicGraph<Node>, parentKey: string, rn: string, defaultAction: ActionType,
                    manifest: set<string>)
    requires defaultAction.Delete? ==> manifest <= g.vertices.Keys
    modifies g
    ensures g.edges == old(g.edges) + {Link(rn, parentKey, defaultAction, manifest)}
    ensures Extended(old(g.vertices), g.vertices, {parentKey}, defaultAction)
  {
    match defaultAction
    case Delete =>
      if parentKey !in manifest {
        if !g.HasVertex(parentKey) {
          g.Add(parentKey, ResourceNode(defaultAction));
        }
        g.Connect(rn, parentKey);
      } else {
        g.Connect(parentKey, rn);
      }
    case _ =>
      if !g.HasVertex(parentKey) {
        g.Add(parentKey, ResourceNode(defaultAction));
      }
      g.Connect(parentKey, rn);
  }

  // ---- The spec ----

  /** No empty ID, no empty reference, and every dependency among the resources themselves. */
  ghost predicate Resolvable(index: Index) {
    "" !in index && forall k :: k in index ==> Deps(index[k]) <= index.Keys && !HasEmptyRef(index[k].attributes)
  }

  /** Parents before children. */
  ghost function SpecLinks(index: Index, among: set<string>): Edges {
    set c, p | c in among && c in index && p in Deps(index[c]) :: (p, c)
  }

  ghost function DepsOf(index: Index, among: set<string>): set<string> {
    set c, p | c in among && c in index && p in Deps(index[c]) :: p
  }

  ghost predicate NoReservedIds(keys: set<string>) {
    ROOT !in keys && ROOT_NAME !in keys
  }

  /** The nodes of a graph over the given resources, below the root. */
  function NodeMap(kept: set<string>, deleted: set<string>): map<Vertex, Node> {
    map k | k in {ROOT} + kept + deleted ::
      if k == ROOT then RootNode else if k in kept then ResourceNode(Update) else ResourceNode(Delete)
  }

  lemma DepsOfWithin(index: Index)
    requires Resolvable(index)
    ensures DepsOf(index, index.Keys) <= index.Keys
  {
  }

  /** index' is index with updateDependencies applied to the resources in done. */
  ghost predicate LinkedOn(index: Index, index': Index, done: set<string>) {
    && index'.Keys == index.Keys
    && forall k :: k in index ==> if k in done then IsLinked(index[k], index'[k]) else index'[k] == index[k]
  }

  lemma OnlyRootIsUnique(vertices: set<Vertex>, edges: Edges, a: Vertex, b: Vertex)
    requires IsOnlyRoot(vertices, edges, a) && IsOnlyRoot(vertices, edges, b)
    ensures a == b
  {
  }

  lemma SpecLinksOfMore(index: Index, among: set<string>, k: string)
    requires k in index
    ensures SpecLinks(index, among + {k}) == SpecLinks(index, among) + LinksOf(k, Deps(index[k]), Update, {})
    ensures DepsOf(index, among + {k}) == DepsOf(index, among) + Deps(index[k])
  {
    forall p | p in Deps(index[k]) ensures Link(k, p, Update, {}) in SpecLinks(index, among + {k}) {
    }
    forall e | e in SpecLinks(index, among + {k})
      ensures e in SpecLinks(index, among) + LinksOf(k, Deps(index[k]), Update, {})
    {
      if e.1 == k { assert e == Link(k, e.0, Update, {}); }
    }
  }

  class SpecParser {
    const spec: ResourceTable

    constructor (spec: ResourceTable)
      ensures this.spec == spec
    {
      this.spec := spec;
    }

    method Parse(g: AcyclicGraph<Node>, order: seq<string>) returns (s: Status)
      requires g.vertices == map[ROOT := RootNode] && g.edges == {}
      requires Enumerates(order, spec.index.Keys) && NoReservedIds(spec.index.Keys)
      modifies g, spec
      ensures s.Parsed? <==> Resolvable(old(spec.index)) && Acyclic(SpecLinks(old(spec.index), old(spec.index.Keys)))
      ensures s.CircleFound?
        <==> Resolvable(old(spec.index)) && !Acyclic(SpecLinks(old(spec.index), old(spec.index.Keys)))
      ensures !s.CannotDelete?
      ensures s.Parsed? ==> LinkedOn(old(spec.index), spec.index, spec.index.Keys)
      ensures s.Parsed? ==> g.vertices == NodeMap(spec.index.Keys, {})
      ensures s.Parsed? ==>
        g.edges == Cover(SpecLinks(old(spec.index), spec.index.Keys) + RootEdges(ROOT, spec.index.Keys))
    {
      ghost var index := spec.index;
      var found, root := g.Root();
      assert IsOnlyRoot(g.vertices.Keys, g.edges, ROOT);
      OnlyRootIsUnique(g.vertices.Keys, g.edges, ROOT, root);
      SpecProgressStart(index);
      s := VisitAll(g, root, order);
      if !s.Parsed? {
        return s;
      }
      SpecGraphIsRooted(index, spec.index, g.vertices, g.edges);
      s := ValidateAndReduce(g);
    }

    method VisitAll(g: AcyclicGraph<Node>, root: Vertex, order: seq<string>) returns (s: Status)
      requires root == ROOT && Enumerates(order, spec.index.Keys)
      requires SpecProgress(spec.index, spec.index, g.vertices, g.edges, {})
      modifies g, spec
      ensures s.Parsed? <==> Resolvable(old(spec.index))
      ensures !s.CannotDelete? && !s.CircleFound?
      ensures s.Parsed? ==> SpecProgress(old(spec.index), spec.index, g.vertices, g.edges, old(spec.index.Keys))
    {
      ghost var index := spec.index;
      for i := 0 to |order|
        invariant SpecProgress(index, spec.index, g.vertices, g.edges, Elements(order[..i]))
      {
        var key := order[i];
        NextInOrder(order, i, index.Keys);
        ghost var table, vertices, edges := spec.index, g.vertices, g.edges;
        s := Visit(g, root, key);
        if !s.Parsed? {
          UnresolvableAt(index, key);
          return s;
        }
        SpecProgressStep(index, table, spec.index, vertices, g.vertices, edges, g.edges, Elements(order[..i]), key);
      }
      assert order[..|order|] == order;
      AllResolvable(index);
      s := Parsed;
    }

    /** One iteration: the node, its root edge, and the edges from its parents. */
    method Visit(g: AcyclicGraph<Node>, root: Vertex, key: string) returns (s: Status)
      requires key in spec.index
      modifies g, spec
      ensures s.Parsed? <==> ResolvableAt(old(spec.index), key)
      ensures !s.CannotDelete? && !s.CircleFound?
      ensures s.Parsed? ==> LinkedAt(old(spec.index), spec.index, key)
      ensures s.Parsed? ==> Extended(old(g.vertices), g.vertices, {key} + Deps(old(spec.index)[key]), Update)
      ensures s.Parsed? ==>
        g.edges == old(g.edges) + {(root, key)} + LinksOf(key, Deps(old(spec.index)[key]), Update, {})
    {
      if key == "" {
        return EmptyId;
      }
      if !g.HasVertex(key) {
        g.Add(key, ResourceNode(Update));
      }
      g.Connect(root, key);
      var refNodeKeys;
      refNodeKeys, s := UpdateDependencies(spec, key);
      if !s.Parsed? {
        return s;
      }
      s := LinkRefNodes(g, refNodeKeys, spec.index.Keys, key, Update, {});
    }
  }

  // ---- What holds when the resources in done have been visited ----

  ghost predicate SpecProgress(index: Index, index': Index, vertices: map<Vertex, Node>, edges: Edges,
                               done: set<string>) {
    && NoReservedIds(index.Keys)
    && LinkedOn(index, index', done)
    && SpecVertices(index, vertices, done)
    && edges == SpecEdges(index, done)
    && ResolvableOn(index, done)
  }

  ghost predicate SpecVertices(index: Index, vertices: map<Vertex, Node>, done: set<string>) {
    && vertices.Keys == {ROOT} + done + DepsOf(index, done)
    && forall v :: v in vertices ==> vertices[v] == if v == ROOT then RootNode else ResourceNode(Update)
  }

  ghost function SpecEdges(index: Index, done: set<string>): Edges {
    SpecLinks(index, done) + RootEdges(ROOT, done)
  }

  /** The resource at key links without error. */
  ghost predicate ResolvableAt(index: Index, key: string)
    requires key in index
  {
    key != "" && Deps(index[key]) <= index.Keys - {""} && !HasEmptyRef(index[key].attributes)
  }

  ghost predicate ResolvableOn(index: Index, done: set<string>) {
    done <= index.Keys && forall k :: k in done ==> ResolvableAt(index, k)
  }

  ghost predicate LinkedAt(table: Index, table': Index, key: string) {
    && key in table && table'.Keys == table.Keys
    && (forall k :: k in table && k != key ==> table'[k] == table[k])
    && IsLinked(table[key], table'[key])
  }

  lemma SpecProgressStep(index: Index, table: Index, table': Index, vertices: map<Vertex, Node>,
                         vertices': map<Vertex, Node>,
                         edges: Edges, edges': Edges, done: set<string>, key: string)
    requires SpecProgress(index, table, vertices, edges, done)
    requires key in index && key !in done && ResolvableAt(table, key) && LinkedAt(table, table', key)
    requires Extended(vertices, vertices', {key} + Deps(table[key]), Update)
    requires edges' == edges + {(ROOT, key)} + LinksOf(key, Deps(table[key]), Update, {})
    ensures SpecProgress(index, table', vertices', edges', done + {key})
  {
    LinkedOnStep(index, table, table', done, key);
    SpecVerticesStep(index, vertices, vertices', done, key);
    SpecEdgesStep(index, done, key);
  }

  lemma SpecVerticesStep(index: Index, vertices: map<Vertex, Node>, vertices': map<Vertex, Node>, done: set<string>,
                         key: string)
    requires SpecVertices(index, vertices, done) && NoReservedIds(index.Keys) && key in index
    requires Deps(index[key]) <= index.Keys
    requires Extended(vertices, vertices', {key} + Deps(index[key]), Update)
    ensures SpecVertices(index, vertices', done + {key})
  {
    SpecLinksOfMore(index, done, key);
  }

  lemma SpecEdgesStep(index: Index, done: set<string>, key: string)
    requires key in index
    ensures SpecEdges(index, done + {key}) == SpecEdges(index, done) + {(ROOT, key)}
      + LinksOf(key, Deps(index[key]), Update, {})
  {
    SpecLinksOfMore(index, done, key);
    assert RootEdges(ROOT, done + {key}) == RootEdges(ROOT, done) + {(ROOT, key)};
  }

  lemma LinkedOnStep(index: Index, table: Index, table': Index, done: set<string>, key: string)
    requires LinkedOn(index, table, done) && key in index && key !in done && LinkedAt(table, table', key)
    ensures LinkedOn(index, table', done + {key})
  {
  }

  lemma SpecProgressStart(index: Index)
    requires NoReservedIds(index.Keys)
    ensures SpecProgress(index, index, map[ROOT := RootNode], {}, {})
  {
  }

  lemma SpecGraphIsRooted(index: Index, index': Index, vertices: map<Vertex, Node>, edges: Edges)
    requires SpecProgress(index, index', vertices, edges, index.Keys)
    ensures Resolvable(index)
    ensures vertices == NodeMap(index.Keys, {})
    ensures Endpoints(edges) <= vertices.Keys && IsOnlyRoot(vertices.Keys, edges, ROOT)
    ensures edges == SpecLinks(index, index.Keys) + RootEdges(ROOT, index.Keys)
    ensures Acyclic(edges) <==> Acyclic(SpecLinks(index, index.Keys))
  {
    AllResolvable(index);
    SpecVerticesAtEnd(index, vertices);
    SpecEdgesAreRooted(index);
  }

  lemma SpecVerticesAtEnd(index: Index, vertices: map<Vertex, Node>)
    requires Resolvable(index) && NoReservedIds(index.Keys) && SpecVertices(index, vertices, index.Keys)
    ensures vertices.Keys == {ROOT} + index.Keys
    ensures vertices == NodeMap(index.Keys, {})
  {
    DepsOfWithin(index);
    assert vertices.Keys == {ROOT} + index.Keys;
  }

  lemma UnresolvableAt(index: Index, key: string)
    requires key in index && !ResolvableAt(index, key)
    ensures !Resolvable(index)
  {
  }

  lemma AllResolvable(index: Index)
    requires ResolvableOn(index, index.Keys)
    ensures Resolvable(index)
  {
    assert forall k :: k in index ==> ResolvableAt(index, k);
  }

  /** The unreduced spec graph has one root, and its cycles are those of the dependencies. */
  lemma SpecEdgesAreRooted(index: Index)
    requires Resolvable(index) && NoReservedIds(index.Keys)
    ensures Endpoints(SpecEdges(index, index.Keys)) <= {ROOT} + index.Keys
    ensures IsOnlyRoot({ROOT} + index.Keys, SpecEdges(index, index.Keys), ROOT)
    ensures Acyclic(SpecEdges(index, index.Keys)) <==> Acyclic(SpecLinks(index, index.Keys))
  {
    SpecLinksWithin(index);
    HungBelowRoot(SpecLinks(index, index.Keys), ROOT, index.Keys);
  }

  lemma SpecLinksWithin(index: Index)
    requires Resolvable(index)
    ensures Endpoints(SpecLinks(index, index.Keys)) <= index.Keys
  {
  }

  lemma NextInOrder(order: seq<string>, i: nat, keys: set<string>)
    requires Enumerates(order, keys) && i < |order|
    ensures order[i] in keys && order[i] !in Elements(order[..i])
    ensures Elements(order[..i + 1]) == Elements(order[..i]) + {order[i]}
    ensures Elements(order[..i]) <= keys
  {
    assert order[i] in Elements(order);
    forall k | k in Elements(order[..i]) ensures k in keys { assert k in Elements(order); }
    assert order[..i + 1] == order[..i] + [order[i]];
  }

  /** The common end of both parsers. */
  method ValidateAndReduce(g: AcyclicGraph<Node>) returns (s: Status)
    requires g.Closed() && exists r :: IsOnlyRoot(g.vertices.Keys, g.edges, r)
    modifies g
    ensures s == if Acyclic(old(g.edges)) then Parsed else CircleFound
    ensures g.vertices == old(g.vertices)
    ensures s.Parsed? ==> g.edges == Cover(old(g.edges))
  {
    var valid := g.Validate();
    if !valid {
      return CircleFound;
    }
    g.TransitiveReduction();
    s := Parsed;
  }

  // ---- Recorded resources ----

  /** Parents before children while the parent is kept, children before a parent that is deleted. */
  ghost function PriorLinks(prior: Index, among: set<string>, manifest: set<string>): Edges {
    set c, p | c in among && c in prior && p in Deps(prior[c]) :: Link(c, p, Delete, manifest)
  }

  lemma PriorLinksOfMore(prior: Index, among: set<string>, manifest: set<string>, k: string)
    requires k in prior
    ensures PriorLinks(prior, among + {k}, manifest) == PriorLinks(prior, among, manifest)
      + LinksOf(k, Deps(prior[k]), Delete, manifest)
  {
    forall p | p in Deps(prior[k]) ensures Link(k, p, Delete, manifest) in PriorLinks(prior, among + {k}, manifest) {
    }
  }

  /** Some kept resource has a recorded, explicit dependency on key. */
  ghost predicate HasKeptDependent(prior: Index, manifest: set<string>, key: string) {
    exists v :: v in prior && v in manifest && key in prior[v].dependsOn
  }

  /** key is looked at before any resource that depends on it. */
  ghost predicate ComesFirst(prior: Index, order: seq<string>, i: nat)
    requires i < |order|
  {
    forall j :: 0 <= j < i && order[j] in prior ==> order[i] !in Deps(prior[order[j]])
  }

  /** The deletion guard refuses the i-th resource of the order. */
  ghost predicate GuardFiresAt(prior: Index, manifest: set<string>, order: seq<string>, i: nat)
    requires i < |order|
  {
    order[i] !in manifest && ComesFirst(prior, order, i) && HasKeptDependent(prior, manifest, order[i])
  }

  ghost predicate GuardFires(prior: Index, manifest: set<string>, order: seq<string>) {
    exists i :: 0 <= i < |order| && GuardFiresAt(prior, manifest, order, i)
  }

  /** For every key, the resources with an explicit dependency on it. */
  ghost predicate IsDependents(index: Index, dependents: map<string, set<string>>) {
    forall dp, k :: dp in dependents && k in dependents[dp] <==> k in index && dp in index[k].dependsOn
  }

  /** A graph as the spec parser leaves it: its resource nodes are the manifest. */
  ghost predicate IsManifestGraph(vertices: map<Vertex, Node>, edges: Edges, manifest: set<string>) {
    && vertices == NodeMap(manifest, {})
    && NoReservedIds(manifest)
    && Endpoints(edges) <= vertices.Keys
    && IsOnlyRoot(vertices.Keys, edges, ROOT)
  }

  class DeleteResourceParser {
    const prior: ResourceTable

    constructor (prior: ResourceTable)
      ensures this.prior == prior
    {
      this.prior := prior;
    }

    method Parse(g: AcyclicGraph<Node>, order: seq<string>) returns (s: Status)
      requires g.vertices == map[] || IsManifestGraph(g.vertices, g.edges, g.vertices.Keys - {ROOT})
      requires Enumerates(order, prior.index.Keys) && NoReservedIds(prior.index.Keys)
      modifies g, prior
      ensures s.NoVertices? <==> old(g.vertices) == map[]
      ensures old(g.vertices) != map[] ==>
        var index, manifest, base := old(prior.index), old(g.vertices.Keys) - {ROOT}, old(g.edges);
        && (s.Parsed? <==>
              Resolvable(index) && !GuardFires(index, manifest, order) &&
              Acyclic(base + PriorLinks(index, index.Keys, manifest)))
        && (Resolvable(index) ==> (s.CannotDelete? <==> GuardFires(index, manifest, order)))
        && (s.CircleFound? <==>
              Resolvable(index) && !GuardFires(index, manifest, order) &&
              !Acyclic(base + PriorLinks(index, index.Keys, manifest)))
        && (s.Parsed? ==>
              && LinkedOn(index, prior.index, index.Keys)
              && g.vertices == NodeMap(manifest, index.Keys - manifest)
              && g.edges == Cover(base + PriorLinks(index, index.Keys, manifest)
                  + RootEdges(ROOT, index.Keys - manifest)))
    {
      if g.vertices == map[] {
        return NoVertices;
      }
      ghost var index, manifest, base := prior.index, g.vertices.Keys - {ROOT}, g.edges;
      var manifestGraphMap := ManifestGraphMap(g);
      var found, root := g.Root();
      OnlyRootIsUnique(g.vertices.Keys, g.edges, ROOT, root);
      var priorDependsOn := PriorDependsOn();
      PriorProgressStart(index, manifest, g.vertices, base);
      s := VisitAll(g, root, order, priorDependsOn, manifestGraphMap);
      if s.Parsed? {
        s := Finish(g, index, manifest, base);
      }
    }

    method Finish(g: AcyclicGraph<Node>, ghost index: Index, ghost manifest: set<string>, ghost base: Edges)
      returns (s: Status)
      requires PriorProgress(index, prior.index, manifest, g.vertices, base, g.edges, index.Keys)
      requires IsOnlyRoot(manifest + {ROOT}, base, ROOT)
      modifies g
      ensures s == if Acyclic(base + PriorLinks(index, index.Keys, manifest)) then Parsed else CircleFound
      ensures s.Parsed? ==> g.vertices == NodeMap(manifest, index.Keys - manifest)
      ensures s.Parsed? ==>
        g.edges == Cover(base + PriorLinks(index, index.Keys, manifest) + RootEdges(ROOT, index.Keys - manifest))
    {
      ghost var extra := PriorGraphIsRooted(index, prior.index, g.vertices, base, g.edges, manifest);
      s := ValidateAndReduce(g);
      if s.Parsed? {
        RootEdgesDoNotMatter(index, manifest, base, extra);
      }
    }

    method ManifestGraphMap(g: AcyclicGraph<Node>) returns (manifest: set<string>)
      requires IsManifestGraph(g.vertices, g.edges, g.vertices.Keys - {ROOT})
      ensures manifest == g.vertices.Keys - {ROOT}
    {
      manifest := {};
      var rest := g.vertices.Keys;
      while rest != {}
        invariant rest <= g.vertices.Keys
        invariant manifest == (g.vertices.Keys - rest) - {ROOT}
      {
        var v :| v in rest;
        if g.vertices[v].ResourceNode? {
          manifest := manifest + {v};
        }
        rest := rest - {v};
      }
    }

    method PriorDependsOn() returns (dependents: map<string, set<string>>)
      ensures IsDependents(prior.index, dependents)
    {
      dependents := map[];
      var rest := prior.index.Keys;
      while rest != {}
        invariant rest <= prior.index.Keys
        invariant forall dp, k :: dp in dependents && k in dependents[dp] <==>
          k in prior.index.Keys - rest && dp in prior.index[k].dependsOn
      {
        var key :| key in rest;
        var v := prior.index[key];
        for i := 0 to |v.dependsOn|
          invariant forall dp, k :: dp in dependents && k in dependents[dp] <==>
            (k in prior.index.Keys - rest && dp in prior.index[k].dependsOn) || (k == key && dp in v.dependsOn[..i])
        {
          var dp := v.dependsOn[i];
          dependents := dependents[dp := (if dp in dependents then dependents[dp] else {}) + {key}];
          assert v.dependsOn[..i + 1] == v.dependsOn[..i] + [dp];
        }
        assert v.dependsOn[..|v.dependsOn|] == v.dependsOn;
        rest := rest - {key};
      }
    }

    method VisitAll(g: AcyclicGraph<Node>, root: Vertex, order: seq<string>,
                    priorDependsOn: map<string, set<string>>, manifest: set<string>)
      returns (s: Status)
      requires root == ROOT && Enumerates(order, prior.index.Keys)
      requires PriorProgress(prior.index, prior.index, manifest, g.vertices, g.edges, g.edges, {})
      requires IsDependents(prior.index, priorDependsOn)
      modifies g, prior
      ensures !s.NoVertices? && !s.CircleFound?
      ensures s.Parsed? <==> Resolvable(old(prior.index)) && !GuardFires(old(prior.index), manifest, order)
      ensures Resolvable(old(prior.index)) ==> (s.CannotDelete? <==> GuardFires(old(prior.index), manifest, order))
      ensures s.Parsed? ==> PriorProgress(old(prior.index), prior.index, manifest, g.vertices, old(g.edges), g.edges,
        old(prior.index.Keys))
    {
      ghost var index, base := prior.index, g.edges;
      assert Elements(order[..0]) == {};
      for i := 0 to |order|
        invariant PriorProgress(index, prior.index, manifest, g.vertices, base, g.edges, Elements(order[..i]))
        invariant forall j :: 0 <= j < i ==> !GuardFiresAt(index, manifest, order, j)
      {
        s := VisitNext(g, root, order, i, order[i], priorDependsOn, manifest, index, base);
        if !s.Parsed? {
          return;
        }
      }
      assert order[..|order|] == order;
      AllResolvable(index);
      s := Parsed;
    }

    /** The next resource in the order, after those before it. */
    method VisitNext(g: AcyclicGraph<Node>, root: Vertex, ghost order: seq<string>, ghost i: nat, key: string,
                     priorDependsOn: map<string, set<string>>, manifest: set<string>, ghost index: Index,
                     ghost base: Edges)
      returns (s: Status)
      requires root == ROOT && Enumerates(order, index.Keys) && i < |order| && key == order[i]
      requires PriorProgress(index, prior.index, manifest, g.vertices, base, g.edges, Elements(order[..i]))
      requires IsDependents(index, priorDependsOn)
      modifies g, prior
      ensures !s.NoVertices? && !s.CircleFound?
      ensures s.Parsed? ==> !GuardFiresAt(index, manifest, order, i)
      ensures s.Parsed? ==> PriorProgress(index, prior.index, manifest, g.vertices, base, g.edges,
        Elements(order[..i + 1]))
      ensures s.CannotDelete? ==> GuardFiresAt(index, manifest, order, i)
      ensures !s.Parsed? && !s.CannotDelete? ==> !Resolvable(index)
    {
      NextInOrder(order, i, index.Keys);
      GuardAt(index, manifest, g.vertices, order, i, priorDependsOn);
      ghost var table, vertices, edges := prior.index, g.vertices, g.edges;
      s := Visit(g, root, key, priorDependsOn, manifest);
      if s.Parsed? {
        PriorProgressStep(index, table, prior.index, manifest, vertices, g.vertices, base, edges, g.edges,
          Elements(order[..i]), key);
      } else if !s.CannotDelete? {
        UnresolvableAt(index, key);
      }
    }

    /** Whether a kept resource records a dependency on the one to be deleted. */
    method Guard(key: string, priorDependsOn: map<string, set<string>>, manifest: set<string>) returns (refused: bool)
      ensures refused <==> key in priorDependsOn && priorDependsOn[key] * manifest != {}
    {
      var dependents := if key in priorDependsOn then priorDependsOn[key] else {};
      while dependents != {}
        invariant key in priorDependsOn ==> dependents <= priorDependsOn[key]
        invariant key in priorDependsOn ==> (priorDependsOn[key] - dependents) * manifest == {}
      {
        var v :| v in dependents;
        if v in manifest {
          assert v in priorDependsOn[key] * manifest;
          return true;
        }
        dependents := dependents - {v};
      }
      refused := false;
    }

    /** One iteration: the guard and root edge of a node seen first, then the links to its parents. */
    method Visit(g: AcyclicGraph<Node>, root: Vertex, key: string,
                 priorDependsOn: map<string, set<string>>, manifest: set<string>)
      returns (s: Status)
      requires key in prior.index && manifest <= g.vertices.Keys
      modifies g, prior
      ensures !s.NoVertices? && !s.CircleFound?
      ensures var guarded := key !in old(g.vertices) && key in priorDependsOn && priorDependsOn[key] * manifest != {};
        && (s.CannotDelete? <==> key != "" && guarded)
        && (s.Parsed? <==> ResolvableAt(old(prior.index), key) && !guarded)
      ensures s.Parsed? ==> LinkedAt(old(prior.index), prior.index, key)
      ensures s.Parsed? ==> Extended(old(g.vertices), g.vertices, {key} + Deps(old(prior.index)[key]), Delete)
      ensures s.Parsed? ==>
        g.edges == old(g.edges) + (if key in old(g.vertices) then {} else {(root, key)})
          + LinksOf(key, Deps(old(prior.index)[key]), Delete, manifest)
    {
      if key == "" {
        return EmptyId;
      }
      if !g.HasVertex(key) && key !in manifest {
        var refused := Guard(key, priorDependsOn, manifest);
        if refused {
          return CannotDelete(key);
        }
        g.Add(key, ResourceNode(Delete));
        g.Connect(root, key);
      }
      var refNodeKeys;
      refNodeKeys, s := UpdateDependencies(prior, key);
      if !s.Parsed? {
        return s;
      }
      s := LinkRefNodes(g, refNodeKeys, prior.index.Keys, key, Delete, manifest);
    }
  }

  // ---- What holds when the recorded resources in done have been visited ----

  ghost predicate PriorProgress(index: Index, index': Index, manifest: set<string>, vertices: map<Vertex, Node>,
                                base: Edges, edges: Edges, done: set<string>) {
    exists extra :: HasProgressed(extra, index, index', manifest, vertices, base, edges, done)
  }

  /** extra are the root edges added so far: which ones depends on the order. */
  ghost predicate HasProgressed(extra: Edges, index: Index, index': Index, manifest: set<string>,
                                vertices: map<Vertex, Node>,
                                base: Edges, edges: Edges, done: set<string>) {
    && NoReservedIds(index.Keys) && NoReservedIds(manifest)
    && LinkedOn(index, index', done)
    && PriorVertices(index, manifest, vertices, done)
    && IsExtra(extra, index.Keys - manifest) && edges == base + PriorLinks(index, done, manifest) + extra
    && AllHang(vertices.Keys, edges)
    && (forall e :: e in base ==> e.1 != ROOT) && Endpoints(base) <= manifest + {ROOT}
    && ResolvableOn(index, done)
  }

  ghost predicate PriorVertices(index: Index, manifest: set<string>, vertices: map<Vertex, Node>, done: set<string>) {
    && vertices.Keys == {ROOT} + manifest + done + DepsOf(index, done)
    && forall v :: v in vertices ==>
      vertices[v] == if v == ROOT then RootNode else if v in manifest then ResourceNode(Update)
        else ResourceNode(Delete)
  }

  ghost predicate IsExtra(extra: Edges, targets: set<string>) {
    extra <= RootEdges(ROOT, targets)
  }

  ghost predicate AllHang(vertices: set<Vertex>, edges: Edges) {
    forall v :: v in vertices && v != ROOT ==> Sources(edges, v) != {}
  }

  lemma PriorProgressStart(index: Index, manifest: set<string>, vertices: map<Vertex, Node>, base: Edges)
    requires IsManifestGraph(vertices, base, manifest) && NoReservedIds(index.Keys)
    ensures PriorProgress(index, index, manifest, vertices, base, base, {})
  {
    assert base == base + PriorLinks(index, {}, manifest) + {} && IsExtra({}, index.Keys - manifest);
    forall e | e in base ensures e.1 != ROOT { assert e.0 in Sources(base, e.1); }
    assert HasProgressed({}, index, index, manifest, vertices, base, base, {});
  }

  /** The test Parse makes is the guard as stated over the order. */
  lemma GuardAt(index: Index, manifest: set<string>, vertices: map<Vertex, Node>, order: seq<string>, i: nat,
                priorDependsOn: map<string, set<string>>)
    requires Enumerates(order, index.Keys) && i < |order| && NoReservedIds(index.Keys)
    requires PriorVertices(index, manifest, vertices, Elements(order[..i]))
    requires IsDependents(index, priorDependsOn)
    ensures GuardFiresAt(index, manifest, order, i) <==>
      order[i] !in vertices && order[i] in priorDependsOn && priorDependsOn[order[i]] * manifest != {}
  {
    var key := order[i];
    NextInOrder(order, i, index.Keys);
    assert ComesFirst(index, order, i) <==> key !in DepsOf(index, Elements(order[..i])) by {
      forall j | 0 <= j < i ensures order[j] in Elements(order[..i]) { assert order[..i][j] == order[j]; }
    }
    DependentsAt(index, manifest, priorDependsOn, key);
  }

  lemma DependentsAt(index: Index, manifest: set<string>, priorDependsOn: map<string, set<string>>, key: string)
    requires IsDependents(index, priorDependsOn)
    ensures HasKeptDependent(index, manifest, key) <==> key in priorDependsOn && priorDependsOn[key] * manifest != {}
  {
    if v :| v in index && v in manifest && key in index[v].dependsOn {
      assert key in priorDependsOn && v in priorDependsOn[key] * manifest;
    }
    if key in priorDependsOn && priorDependsOn[key] * manifest != {} {
      var v :| v in priorDependsOn[key] * manifest;
      assert v in index && v in manifest && key in index[v].dependsOn;
    }
  }

  lemma PriorProgressStep(index: Index, table: Index, table': Index, manifest: set<string>,
                          vertices: map<Vertex, Node>, vertices': map<Vertex, Node>,
                          base: Edges, edges: Edges, edges': Edges, done: set<string>, key: string)
    requires PriorProgress(index, table, manifest, vertices, base, edges, done)
    requires key in index && key !in done && ResolvableAt(table, key) && LinkedAt(table, table', key)
    requires Extended(vertices, vertices', {key} + Deps(table[key]), Delete)
    requires edges' == edges + (if key in vertices then {} else {(ROOT, key)})
      + LinksOf(key, Deps(table[key]), Delete, manifest)
    ensures PriorProgress(index, table', manifest, vertices', base, edges', done + {key})
  {
    var extra :| HasProgressed(extra, index, table, manifest, vertices, base, edges, done);
    var added := if key in vertices then {} else {(ROOT, key)};
    LinkedOnStep(index, table, table', done, key);
    PriorVerticesStep(index, manifest, vertices, vertices', done, key);
    PriorEdgesStep(index, manifest, vertices.Keys, base, edges, edges', done, key, extra, added);
    AllHangStep(index, manifest, vertices.Keys, vertices'.Keys, edges, edges', done, key);
    assert HasProgressed(extra + added, index, table', manifest, vertices', base, edges', done + {key});
  }

  lemma PriorVerticesStep(index: Index, manifest: set<string>, vertices: map<Vertex, Node>,
                          vertices': map<Vertex, Node>,
                          done: set<string>, key: string)
    requires PriorVertices(index, manifest, vertices, done) && NoReservedIds(index.Keys) && key in index
    requires Deps(index[key]) <= index.Keys
    requires Extended(vertices, vertices', {key} + Deps(index[key]), Delete)
    ensures PriorVertices(index, manifest, vertices', done + {key})
  {
    assert DepsOf(index, done + {key}) == DepsOf(index, done) + Deps(index[key]);
  }

  lemma PriorEdgesStep(index: Index, manifest: set<string>, vertices: set<Vertex>, base: Edges, edges: Edges,
                       edges': Edges,
                       done: set<string>, key: string, extra: Edges, added: Edges)
    requires key in index && manifest <= vertices && added == if key in vertices then {} else {(ROOT, key)}
    requires IsExtra(extra, index.Keys - manifest) && edges == base + PriorLinks(index, done, manifest) + extra
    requires edges' == edges + added + LinksOf(key, Deps(index[key]), Delete, manifest)
    ensures IsExtra(extra + added, index.Keys - manifest)
    ensures edges' == base + PriorLinks(index, done + {key}, manifest) + (extra + added)
  {
    PriorLinksOfMore(index, done, manifest, key);
  }

  /** A new vertex hangs below the root, or below the child that brought it in. */
  lemma AllHangStep(index: Index, manifest: set<string>, vertices: set<Vertex>, vertices': set<Vertex>,
                    edges: Edges, edges': Edges, done: set<string>, key: string)
    requires key in index && manifest <= vertices && AllHang(vertices, edges)
    requires vertices' == vertices + ({key} + Deps(index[key]))
    requires edges' == edges + (if key in vertices then {} else {(ROOT, key)})
      + LinksOf(key, Deps(index[key]), Delete, manifest)
    ensures AllHang(vertices', edges')
  {
    forall v | v in vertices' && v != ROOT ensures Sources(edges', v) != {} {
      if v in vertices {
        assert Sources(edges, v) <= Sources(edges', v);
      } else if v == key {
        assert ROOT in Sources(edges', v);
      } else {
        assert Link(key, v, Delete, manifest) in edges';
        assert key in Sources(edges', v);
      }
    }
  }

  lemma PriorGraphIsRooted(index: Index, index': Index, vertices: map<Vertex, Node>, base: Edges, edges: Edges,
                           manifest: set<string>)
    returns (extra: Edges)
    requires PriorProgress(index, index', manifest, vertices, base, edges, index.Keys)
    ensures IsExtra(extra, index.Keys - manifest) && edges == base + PriorLinks(index, index.Keys, manifest) + extra
    ensures vertices == NodeMap(manifest, index.Keys - manifest)
    ensures Endpoints(edges) <= vertices.Keys && IsOnlyRoot(vertices.Keys, edges, ROOT)
    ensures Acyclic(edges) <==> Acyclic(base + PriorLinks(index, index.Keys, manifest))
  {
    extra :| IsExtra(extra, index.Keys - manifest) && edges == base + PriorLinks(index, index.Keys, manifest) + extra;
    AllResolvable(index);
    PriorVerticesAtEnd(index, manifest, vertices);
    PriorEdgesAvoidRoot(index, manifest, base, extra);
    RootEdgesKeepAcyclic(base + PriorLinks(index, index.Keys, manifest), extra, ROOT);
  }

  lemma PriorVerticesAtEnd(index: Index, manifest: set<string>, vertices: map<Vertex, Node>)
    requires Resolvable(index) && NoReservedIds(index.Keys) && NoReservedIds(manifest)
    requires PriorVertices(index, manifest, vertices, index.Keys)
    ensures vertices.Keys == {ROOT} + manifest + index.Keys
    ensures vertices == NodeMap(manifest, index.Keys - manifest)
  {
    DepsOfWithin(index);
    assert vertices.Keys == {ROOT} + manifest + index.Keys;
  }

  lemma PriorEdgesAvoidRoot(index: Index, manifest: set<string>, base: Edges, extra: Edges)
    requires Resolvable(index) && NoReservedIds(index.Keys) && NoReservedIds(manifest)
    requires IsExtra(extra, index.Keys - manifest)
    requires Endpoints(base) <= manifest + {ROOT} && forall e :: e in base ==> e.1 != ROOT
    ensures forall e :: e in base + PriorLinks(index, index.Keys, manifest) ==> e.1 != ROOT
    ensures forall e :: e in extra ==> e.0 == ROOT && e.1 != ROOT
    ensures Endpoints(base + PriorLinks(index, index.Keys, manifest) + extra) <= {ROOT} + manifest + index.Keys
  {
    PriorLinksWithin(index, manifest);
  }

  lemma PriorLinksWithin(index: Index, manifest: set<string>)
    requires Resolvable(index)
    ensures forall e :: e in PriorLinks(index, index.Keys, manifest) ==> e.0 in index.Keys && e.1 in index.Keys
  {
  }

  /** Which deleted nodes got a root edge depends on the order; the reduced graph does not. */
  lemma RootEdgesDoNotMatter(index: Index, manifest: set<string>, base: Edges, extra: Edges)
    requires Resolvable(index) && NoReservedIds(index.Keys) && NoReservedIds(manifest)
    requires IsExtra(extra, index.Keys - manifest)
    requires Endpoints(base) <= manifest + {ROOT} && IsOnlyRoot(manifest + {ROOT}, base, ROOT)
    requires Acyclic(base + PriorLinks(index, index.Keys, manifest))
    requires AllHang({ROOT} + manifest + index.Keys, base + PriorLinks(index, index.Keys, manifest) + extra)
    ensures Cover(base + PriorLinks(index, index.Keys, manifest) + extra)
         == Cover(base + PriorLinks(index, index.Keys, manifest) + RootEdges(ROOT, index.Keys - manifest))
  {
    var links, full := base + PriorLinks(index, index.Keys, manifest), RootEdges(ROOT, index.Keys - manifest);
    var vertices := {ROOT} + manifest + index.Keys;
    forall e | e in base ensures e.1 != ROOT { assert e.0 in Sources(base, e.1); }
    PriorEdgesAvoidRoot(index, manifest, base, extra);
    PriorEdgesAvoidRoot(index, manifest, base, full);
    forall v | v in vertices && v != ROOT ensures Sources(links + full, v) != {} {
      if v in manifest {
        assert Sources(base, v) <= Sources(links + full, v);
      } else {
        assert (ROOT, v) in full;
        assert ROOT in Sources(links + full, v);
      }
    }
    RootingsAgree(links, extra, full, ROOT, vertices);
    RootEdgesKeepAcyclic(links, extra, ROOT);
    CoverIsUnique(links + extra, links + full);
  }
}
