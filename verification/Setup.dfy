/**
 How an operation begins: the request is checked, its resources and the recorded ones are indexed,
 the graph is built, and the operation context is set up on it. What comes out is well formed, which
 is all that the walk is asked for elsewhere.
 */
module Setup {
  import opened Models
  import opened References
  import opened Reachability
  import opened Parsers
  import opened Graphs
  import opened Engine
  import opened Operations

  /** A stored state, as far as an operation looks at it. */
  datatype Stored = Stored(resources: seq<Resource>, serial: nat)

  datatype Outcome = DuplicateResource | NotParsed(status: Status) | Ready

  function Ids(resources: seq<Resource>): set<string> {
    set r | r in resources :: r.id
  }

  /** No two resources of a request share a key. */
  ghost predicate DistinctIds(resources: seq<Resource>) {
    forall i, j :: 0 <= i < j < |resources| ==> resources[i].id != resources[j].id
  }

  method ValidateRequest(resources: seq<Resource>) returns (ok: bool)
    ensures ok <==> DistinctIds(resources)
  {
    var resourceKeyMap: set<string> := {};
    for i := 0 to |resources|
      invariant forall k :: k in resourceKeyMap <==> exists j :: 0 <= j < i && resources[j].id == k
      invariant DistinctIds(resources[..i])
    {
      if resources[i].id in resourceKeyMap {
        return false;
      }
      resourceKeyMap := resourceKeyMap + {resources[i].id};
    }
    assert resources[..|resources|] == resources;
    ok := true;
  }

  method IndexResources(resources: seq<Resource>) returns (index: Index)
    ensures index == IndexOf(resources)
  {
    index := map[];
    for i := 0 to |resources|
      invariant index == IndexOf(resources[..i])
    {
      assert resources[..i + 1][..i] == resources[..i];
      index := index[resources[i].id := resources[i]];
    }
    assert resources[..|resources|] == resources;
  }

  /** An index has exactly the IDs of its resources, each resource under its own. */
  lemma {:induction false} IndexIsKeyed(resources: seq<Resource>)
    ensures IndexOf(resources).Keys == Ids(resources)
    ensures forall k :: k in IndexOf(resources) ==> IndexOf(resources)[k].id == k && IndexOf(resources)[k] in resources
  {
    if resources != [] {
      var front := resources[..|resources| - 1];
      IndexIsKeyed(front);
      assert resources == front + [resources[|resources| - 1]];
    }
  }

  /** Of several resources with one key an index has the last. */
  lemma {:induction false} IndexKeepsLast(resources: seq<Resource>, k: string) returns (i: nat)
    requires k in Ids(resources)
    ensures i < |resources| && resources[i].id == k && forall j :: i < j < |resources| ==> resources[j].id != k
    ensures k in IndexOf(resources) && IndexOf(resources)[k] == resources[i]
  {
    i := |resources| - 1;
    if resources[i].id != k {
      var front := resources[..i];
      assert forall r :: r in resources && r != resources[i] ==> r in front;
      i := IndexKeepsLast(front, k);
    }
  }

  /** A request that passes the check loses nothing by being indexed. */
  lemma {:induction false} ValidRequestIsKept(resources: seq<Resource>, i: nat)
    requires DistinctIds(resources) && i < |resources|
    ensures resources[i].id in IndexOf(resources) && IndexOf(resources)[resources[i].id] == resources[i]
  {
    var front := resources[..|resources| - 1];
    if i < |front| {
      ValidRequestIsKept(front, i);
      assert front[i] == resources[i];
    }
  }

  /** InitStates: what is recorded, and the serial to go on from; nothing and zero if no state is stored. */
  method InitStates(latest: Option<Stored>) returns (resources: seq<Resource>, serial: nat)
    ensures latest.Some? ==> resources == latest.value.resources && serial == latest.value.serial
    ensures latest.None? ==> resources == [] && serial == 0
  {
    if latest.None? {
      return [], 0;
    }
    resources, serial := latest.value.resources, latest.value.serial;
  }

  /** The recorded resources: none if no state is stored. */
  ghost function Recorded(latest: Option<Stored>): seq<Resource> {
    if latest.None? then [] else latest.value.resources
  }

  /** The operation goes on from the stored serial, or from zero. */
  ghost predicate GoesOnFrom(latest: Option<Stored>, serial: nat) {
    (latest.Some? ==> serial == latest.value.serial) && (latest.None? ==> serial == 0)
  }

  /** The index holds these resources, each under its own key with its dependencies written out. */
  ghost predicate Holds(index: Index, resources: seq<Resource>) {
    && (forall r :: r in resources ==> r.id in index)
    && (forall k :: k in index ==> exists r :: r in resources && r.id == k && IsLinked(r, index[k]))
  }

  lemma LinkedHolds(resources: seq<Resource>, linked: Index)
    requires LinkedOn(IndexOf(resources), linked, IndexOf(resources).Keys)
    ensures Holds(linked, resources)
  {
    IndexIsKeyed(resources);
    forall r | r in resources ensures r.id in linked { assert r.id in Ids(resources); }
    forall k | k in linked ensures exists r :: r in resources && r.id == k && IsLinked(r, linked[k]) {
      assert IndexOf(resources)[k] in resources;
    }
  }

  ghost predicate HasOwnIds(index: Index) {
    forall k :: k in index ==> index[k].id == k
  }

  /** What the parsers leave behind is well formed. */
  lemma LinkedIsWellFormed(spec: Index, prior: Index, c: Config)
    requires Buildable(spec, prior) && HasOwnIds(spec) && HasOwnIds(prior) && (IsDestroy(c.op) ==> spec == map[])
    requires LinkedOn(spec, c.spec, spec.Keys) && LinkedOn(prior, c.prior, prior.Keys)
    requires c.edges == Cover(ApplyEdges(spec, prior))
    ensures WellFormed(c)
  {
    LinkedIndex(spec, c.spec);
    LinkedIndex(prior, c.prior);
    SameLinks(spec, c.spec, prior, c.prior);
  }

  lemma LinkedIndex(index: Index, linked: Index)
    requires LinkedOn(index, linked, index.Keys) && HasOwnIds(index) && Resolvable(index)
    ensures HasOwnIds(linked) && Resolvable(linked)
    ensures forall k :: k in linked ==> Deps(linked[k]) == Deps(index[k]) && IsWrittenOut(linked[k])
  {
    forall k | k in linked
      ensures linked[k].id == k && Deps(linked[k]) == Deps(index[k]) && IsWrittenOut(linked[k])
    {
      assert IsLinked(index[k], linked[k]);
    }
  }

  lemma SameLinks(spec: Index, spec': Index, prior: Index, prior': Index)
    requires spec'.Keys == spec.Keys && forall k :: k in spec ==> Deps(spec'[k]) == Deps(spec[k])
    requires prior'.Keys == prior.Keys && forall k :: k in prior ==> Deps(prior'[k]) == Deps(prior[k])
    ensures DependencyLinks(spec', prior') == DependencyLinks(spec, prior)
    ensures ApplyEdges(spec', prior') == ApplyEdges(spec, prior)
  {
    assert SpecLinks(spec', spec'.Keys) == SpecLinks(spec, spec.Keys);
    assert PriorLinks(prior', prior'.Keys, spec'.Keys) == PriorLinks(prior, prior.Keys, spec.Keys);
  }

  /** The operation stands at the start of a walk over the graph of these resources. */
  ghost predicate IsSetUp(o: Operation, spec: Index, prior: Index)
    reads o
  {
    var c := o.config;
    && WellFormed(c) && o.View() == Initial(c) && Reachable(c, o.View())
    && AreBuilt(spec, prior, c.spec, c.prior, c.edges)
  }

  /** Apply, and Preview of an apply, up to the walk; only a preview is given the ignored fields. */
  method SetUpApply(preview: bool, request: seq<Resource>, latest: Option<Stored>, specOrder: seq<string>,
                    priorOrder: seq<string>, live: map<string, Value>, rt: Runtime,
                    secrets: Option<string -> Reply<string>>, ignore: seq<string>)
    returns (outcome: Outcome, o: Operation?)
    requires Enumerates(specOrder, Ids(request)) && NoReservedIds(Ids(request))
    requires Enumerates(priorOrder, Ids(Recorded(latest))) && NoReservedIds(Ids(Recorded(latest)))
    ensures outcome.DuplicateResource? <==> !DistinctIds(request)
    ensures var spec, prior := IndexOf(request), IndexOf(Recorded(latest));
      && (outcome.Ready? <==>
            && DistinctIds(request) && Resolvable(spec) && Resolvable(prior)
            && !GuardFires(prior, spec.Keys, priorOrder) && Acyclic(DependencyLinks(spec, prior)))
      && (outcome.Ready? ==> o != null && fresh(o) && IsSetUp(o, spec, prior))
    ensures outcome.Ready? ==>
      && Holds(o.config.spec, request)
      && (latest.Some? ==> Holds(o.config.prior, latest.value.resources)) && (latest.None? ==> o.config.prior == map[])
      && GoesOnFrom(latest, o.config.serial)
    ensures outcome.Ready? ==>
      && o.config.op == (if preview then ApplyPreview else Apply) && o.config.ignore == (if preview then ignore else [])
      && o.config.live == live && o.config.rt == rt && o.config.secrets == secrets
  {
    o := null;
    var valid := ValidateRequest(request);
    if !valid {
      return DuplicateResource, null;
    }
    var priorResources, serial := InitStates(latest);
    var s, spec, prior, edges := BuildApply(request, priorResources, specOrder, priorOrder);
    if !s.Parsed? {
      return NotParsed(s), null;
    }
    var op, ignored := if preview then ApplyPreview else Apply, if preview then ignore else [];
    var c := Config(op, spec, prior, edges, live, serial, rt, secrets, ignored);
    BuiltIsWellFormed(request, priorResources, c);
    o := new Operation(c);
    outcome := Ready;
  }

  /** What the parsers leave of the resources, linked and over the reduced graph. */
  ghost predicate AreBuilt(spec: Index, prior: Index, spec': Index, prior': Index, edges: Edges) {
    && LinkedOn(spec, spec', spec.Keys) && LinkedOn(prior, prior', prior.Keys)
    && edges == Cover(ApplyEdges(spec, prior))
  }

  lemma BuiltIsWellFormed(request: seq<Resource>, recorded: seq<Resource>, c: Config)
    requires AreBuilt(IndexOf(request), IndexOf(recorded), c.spec, c.prior, c.edges) && !IsDestroy(c.op)
    requires Resolvable(IndexOf(request)) && Resolvable(IndexOf(recorded))
    requires Acyclic(DependencyLinks(IndexOf(request), IndexOf(recorded)))
    requires NoReservedIds(Ids(request)) && NoReservedIds(Ids(recorded))
    ensures WellFormed(c) && Reachable(c, Initial(c))
  {
    IndexIsKeyed(request);
    IndexIsKeyed(recorded);
    LinkedIsWellFormed(IndexOf(request), IndexOf(recorded), c);
    StartIsReachable(c);
  }

  method BuildApply(request: seq<Resource>, recorded: seq<Resource>, specOrder: seq<string>, priorOrder: seq<string>)
    returns (s: Status, spec: Index, prior: Index, edges: Edges)
    requires Enumerates(specOrder, Ids(request)) && NoReservedIds(Ids(request))
    requires Enumerates(priorOrder, Ids(recorded)) && NoReservedIds(Ids(recorded))
    ensures var specIndex, priorIndex := IndexOf(request), IndexOf(recorded);
      && (s.Parsed? <==>
            && Resolvable(specIndex) && Resolvable(priorIndex)
            && !GuardFires(priorIndex, specIndex.Keys, priorOrder) && Acyclic(DependencyLinks(specIndex, priorIndex)))
      && (s.Parsed? ==> AreBuilt(specIndex, priorIndex, spec, prior, edges))
    ensures s.Parsed? ==> Holds(spec, request) && Holds(prior, recorded)
  {
    var specIndex := IndexResources(request);
    var priorIndex := IndexResources(recorded);
    IndexIsKeyed(request);
    IndexIsKeyed(recorded);
    var specTable := new ResourceTable(specIndex);
    var priorTable := new ResourceTable(priorIndex);
    var g;
    g, s := NewApplyGraph(specTable, priorTable, specOrder, priorOrder);
    spec, prior, edges := specTable.index, priorTable.index, g.edges;
    if s.Parsed? {
      LinkedHolds(request, spec);
      LinkedHolds(recorded, prior);
    }
  }

  method BuildDestroy(resources: seq<Resource>, order: seq<string>) returns (s: Status, prior: Index, edges: Edges)
    requires Enumerates(order, Ids(resources)) && NoReservedIds(Ids(resources))
    ensures var index := IndexOf(resources);
      && (s.Parsed? <==> Resolvable(index) && Acyclic(SpecLinks(index, index.Keys)))
      && (s.Parsed? ==> AreBuilt(map[], index, map[], prior, edges))
    ensures s.Parsed? ==> Holds(prior, resources)
  {
    var index := IndexResources(resources);
    IndexIsKeyed(resources);
    var table := new ResourceTable(index);
    var g;
    g, s := NewDestroyGraph(table, order);
    prior, edges := table.index, g.edges;
    if s.Parsed? {
      LinkedHolds(resources, prior);
    }
  }

  /** Destroy works on the recorded resources, the preview of one on those of its request. */
  ghost function ToDestroy(preview: bool, request: seq<Resource>, latest: Option<Stored>): seq<Resource> {
    if preview then request else Recorded(latest)
  }

  /** Destroy, and Preview of a destroy, up to the walk. */
  method SetUpDestroy(preview: bool, request: seq<Resource>, latest: Option<Stored>, order: seq<string>,
                      live: map<string, Value>, rt: Runtime)
    returns (outcome: Outcome, o: Operation?)
    requires var ids := Ids(ToDestroy(preview, request, latest)); Enumerates(order, ids) && NoReservedIds(ids)
    ensures outcome.DuplicateResource? <==> !DistinctIds(request)
    ensures var index := IndexOf(ToDestroy(preview, request, latest));
      && (outcome.Ready? <==> DistinctIds(request) && Resolvable(index) && Acyclic(SpecLinks(index, index.Keys)))
      && (outcome.Ready? ==> o != null && fresh(o) && IsSetUp(o, map[], index))
    ensures outcome.Ready? ==>
      && (preview ==> Holds(o.config.prior, request))
      && (!preview && latest.Some? ==> Holds(o.config.prior, latest.value.resources))
      && (!preview && latest.None? ==> o.config.prior == map[])
      && o.config.spec == map[] && GoesOnFrom(latest, o.config.serial)
    ensures outcome.Ready? ==>
      && o.config.op == (if preview then DestroyPreview else Destroy)
      && o.config.live == live && o.config.rt == rt
  {
    o := null;
    var valid := ValidateRequest(request);
    if !valid {
      return DuplicateResource, null;
    }
    var priorResources, serial := InitStates(latest);
    var resources := if preview then request else priorResources;
    var s, prior, edges := BuildDestroy(resources, order);
    if !s.Parsed? {
      return NotParsed(s), null;
    }
    var op := if preview then DestroyPreview else Destroy;
    var c := Config(op, map[], prior, edges, live, serial, rt, None, []);
    IndexIsKeyed(resources);
    NothingKept(IndexOf(resources), c);
    StartIsReachable(c);
    o := new Operation(c);
    outcome := Ready;
  }

  lemma NothingKept(index: Index, c: Config)
    requires Resolvable(index) && NoReservedIds(index.Keys) && Acyclic(SpecLinks(index, index.Keys)) && HasOwnIds(index)
    requires c.spec == map[] && LinkedOn(index, c.prior, index.Keys) && c.edges == Cover(ApplyEdges(map[], index))
    ensures WellFormed(c)
  {
    DestroyIsBuildable(index);
    LinkedIsWellFormed(map[], index, c);
  }

  lemma DestroyIsBuildable(index: Index)
    requires Resolvable(index) && NoReservedIds(index.Keys) && Acyclic(SpecLinks(index, index.Keys))
    ensures Buildable(map[], index)
  {
    DestroyLinks(index);
  }
}
