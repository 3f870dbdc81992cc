/**
 Concrete runs: one that meets all the convergence theorem asks for, references included, and two
 in which a promise fails that only holds under its condition.
 */
module Examples {
  import opened Models
  import opened References
  import opened Reachability
  import opened Parsers
  import opened Graphs
  import opened Engine
  import opened Safety
  import opened Resolved
  import opened Determined
  import opened Progress
  import opened Converge
  import opened Findings
  import Fields

  // ---- A reference ----

  const IDENTIFIED := Obj(map["id" := Scalar(7)])

  const TO_ID := "$kusion_path.a.id"

  /** A runtime that gives every resource the same identity. */
  function Identifying(): Runtime {
    Runtime(
      (n, plan, prior, live) => Ok(Some(IDENTIFIED)),
      (n, prior, plan, live) => Ok(IDENTIFIED),
      (n, prior, plan, live) => (Ok(IDENTIFIED), Some(IDENTIFIED)),
      (n, plan, live) => Ok(IDENTIFIED),
      (n, prior, live) => (Ok(()), None),
      (live, dry) => Ok(live == Some(dry)))
  }

  predicate HasId(v: Value) {
    v.Obj? && "id" in v.fields && !v.fields["id"].Null?
  }

  /** "b" takes the identity of "a"; nothing is recorded or live yet. */
  ghost function RefersToId(): Config {
    var spec := map["a" := Resource("a", EMPTY, []), "b" := Resource("b", Obj(map["from" := Str(TO_ID)]), ["a"])];
    Config(Apply, spec, map[], Cover(ApplyEdges(spec, map[])), map[], 0, Identifying(), None, [])
  }

  lemma SplitsToId()
    ensures IsRef(TO_ID) && RefPath(TO_ID) == "a.id" && Split("a.id", '.') == ["a", "id"] && RefKey(TO_ID) == "a"
  {
    assert TO_ID == IMPLICIT_REF_PREFIX + "a.id";
    SplitAtFirst("a", "id", '.');
    SplitOfOne("id", '.');
    assert "a" + ['.'] + "id" == "a.id";
  }

  lemma StringOfField(name: string, text: string)
    ensures Strings(Obj(map[name := Str(text)])) == {text}
  {
    var v := Obj(map[name := Str(text)]);
    assert v.fields.Keys == {name} && Strings(Str(text)) == {text};
    assert text in Strings(v);
  }

  lemma StringsOfB(c: Config)
    requires c == RefersToId()
    ensures c.spec.Keys == {"a", "b"} && Strings(c.spec["a"].attributes) == {}
    ensures Strings(c.spec["b"].attributes) == {TO_ID}
    ensures Refs(c.spec["a"].attributes) == {} && Refs(c.spec["b"].attributes) == {"a"}
    ensures Deps(c.spec["a"]) == {} && Deps(c.spec["b"]) == {"a"}
  {
    SplitsToId();
    StringOfField("from", TO_ID);
    assert Elements(["a"]) == {"a"};
  }

  lemma RefersIsWellFormed(c: Config)
    requires c == RefersToId()
    ensures WellFormed(c)
  {
    StringsOfB(c);
    assert ("a", "b") in SpecLinks(c.spec, c.spec.Keys);
    assert SpecLinks(c.spec, c.spec.Keys) == {("a", "b")};
    assert DependencyLinks(c.spec, c.prior) == {("a", "b")};
    OneEdgeIsAcyclic("a", "b");
    RefersResolves(c);
    RefersIsKeyed(c);
  }

  lemma RefersResolves(c: Config)
    requires c == RefersToId()
    ensures Resolvable(c.spec) && Resolvable(c.prior) && NoReservedIds(c.spec.Keys) && NoReservedIds(c.prior.Keys)
  {
    StringsOfB(c);
    assert |ROOT| > 1 && |ROOT_NAME| > 1 && |TO_ID| > |IMPLICIT_REF_PREFIX|;
  }

  lemma RefersIsKeyed(c: Config)
    requires c == RefersToId()
    ensures Keyed(c)
    ensures forall k :: k in c.spec ==> IsWrittenOut(c.spec[k])
  {
    StringsOfB(c);
    assert IsWrittenOut(c.spec["a"]) && IsWrittenOut(c.spec["b"]);
  }

  lemma IdResolves(index: ResourceIndex)
    requires "a" in index && index["a"].Some? && HasId(index["a"].value.attributes)
    ensures Lookup(index, "a.id").Ok?
  {
    SplitsToId();
    var v := index["a"].value.attributes;
    assert Descend(v.fields["id"], [], "a.id").Ok?;
    assert Split("a.id", '.')[1..] == ["id"] && ["id"][1..] == [];
    assert Descend(v, ["id"], "a.id") == Descend(v.fields["id"], [], "a.id");
  }

  lemma ResolvesWithIds(v: Value)
    requires Strings(v) <= {TO_ID}
    ensures ResolvesAgainst(v, HasId, None)
  {
    SplitsToId();
    forall index: ResourceIndex, s | s in Strings(v)
        && forall k :: k in Refs(v) ==> k in index && index[k].Some? && HasId(index[k].value.attributes)
      ensures Leaf(Env(Resolve(index), None), s).Ok?
    {
      assert "a" in Refs(v);
      IdResolves(index);
    }
  }

  lemma RefersOnlyNeedsIds(c: Config)
    requires c == RefersToId()
    ensures OnlyDeletionsFail(c, HasId) && Resolving(c) && Settles(c.rt)
  {
    StringsOfB(c);
    ResolvesWithIds(c.spec["a"].attributes);
    ResolvesWithIds(c.spec["b"].attributes);
    IdentifyingSettles();
    IdentifyingOnlyFails(c);
  }

  lemma IdentifyingOnlyFails(c: Config)
    requires c.op.Apply? && c.ignore == [] && c.prior == map[] && c.rt == Identifying() && c.secrets.None?
    requires forall n :: n in c.spec ==> ResolvesAgainst(c.spec[n].attributes, HasId, None)
    ensures OnlyDeletionsFail(c, HasId)
  {
    IdentifyingSettles();
  }

  lemma IdentifyingSettles()
    ensures Settles(Identifying()) && RuntimeRefFree(Identifying()) && HasId(IDENTIFIED)
  {
    assert Strings(Scalar(7)) == {};
    assert Strings(IDENTIFIED) == {};
    assert IDENTIFIED.fields["id"] == Scalar(7);
    assert SplitAll([]) == [];
    assert Compare(Identifying(), [], Some(IDENTIFIED), IDENTIFIED) == Ok(true);
  }

  /** An apply with a reference that meets everything the convergence of a second apply asks for. */
  lemma SomeApplyConverges() returns (c: Config, s: State, d: Config)
    ensures c == RefersToId() && FirstApply(c, s) && IsSecondApply(c, s, d) && WellFormed(d) && Reachable(d, Initial(d))
  {
    c := RefersToId();
    RefersIsWellFormed(c);
    RefersOnlyNeedsIds(c);
    StartsHealthily(c, HasId);
    s := FinishHealthily(c, Initial(c), HasId);
    NothingPanics(c, s, HasId);
    forall n | n in c.spec ensures !DependsOnDeleted(c, s, n) { assert n !in c.prior; }
    d := SecondApplyExists(c, s);
  }

  // ---- Ignored fields ----

  /** A runtime that plans what it is given, and compares it with what is live. */
  function Comparing(): Runtime {
    Runtime(
      (n, plan, prior, live) => Ok(live),
      (n, prior, plan, live) => Ok(plan),
      (n, prior, plan, live) => (Ok(plan), Some(plan)),
      (n, plan, live) => Ok(plan),
      (n, prior, live) => (Ok(()), None),
      (live, dry) => Ok(live == Some(dry)))
  }

  /** One resource, live with another value of "a" than its spec has. */
  ghost function Differs(op: OperationType, ignore: seq<string>): Config {
    var spec := map["r" := Resource("r", Obj(map["a" := Scalar(1)]), [])];
    Config(op, spec, map[], Cover(ApplyEdges(spec, map[])), map["r" := Obj(map["a" := Scalar(0)])], 0, Comparing(),
      None, ignore)
  }

  /** The state after "r" has started and computed its action. */
  lemma DecidesFirst(c: Config) returns (s: State)
    requires c == Differs(Apply, []) || c == Differs(ApplyPreview, ["a"])
    ensures Reachable(c, s) && "r" in s.phase && s.phase["r"].Decided?
    ensures s.phase["r"].action == if c.ignore == [] then Update else UnChange
  {
    var v := c.spec["r"].attributes;
    NothingRefersInR(c);
    StartsHealthily(c, ANYTHING);
    var t := Initial(c);
    assert Parents(c, "r") == {} by { OnlyR(c); }
    InertUnchanged(v, EnvOf(c, t.ctx));
    OneMoreStep(c, t, Start("r", Ok(v)));
    s := DecidesNext(c, Next(c, t, Start("r", Ok(v))));
  }

  lemma DecidesNext(c: Config, u: State) returns (s: State)
    requires c == Differs(Apply, []) || c == Differs(ApplyPreview, ["a"])
    requires Reachable(c, u) && Steppable(c, u, Compute("r"))
    requires "r" in u.spec && u.spec["r"] == c.spec["r"] && u.prior == map[] && u.live == c.live
    ensures Reachable(c, s) && "r" in s.phase && s.phase["r"].Decided?
    ensures s.phase["r"].action == if c.ignore == [] then Update else UnChange
  {
    DecidesOnR(c, c.spec["r"].attributes);
    OneMoreStep(c, u, Compute("r"));
    s := Next(c, u, Compute("r"));
  }

  lemma DecidesOnR(c: Config, v: Value)
    requires (c == Differs(Apply, []) || c == Differs(ApplyPreview, ["a"])) && v == c.spec["r"].attributes
    ensures var d := Decide(c, "r", Some(c.spec["r"].(attributes := v)), None, Some(c.live["r"]));
      d.Ok? && d.value.action == if c.ignore == [] then Update else UnChange
  {
    IgnoringA();
  }

  lemma NothingRefersInR(c: Config)
    requires c == Differs(c.op, c.ignore)
    ensures c.spec.Keys == {"r"} && Strings(c.spec["r"].attributes) == {} && RefFree(c.spec["r"].attributes)
  {
    assert Strings(Scalar(1)) == {};
    assert c.spec["r"].attributes.fields.Keys == {"a"};
  }

  lemma OnlyR(c: Config)
    requires c == Differs(c.op, c.ignore)
    ensures Nodes(c) == {"r"} && ("r", "r") !in c.edges
  {
    NothingRefersInR(c);
    assert Deps(c.spec["r"]) == {};
  }

  lemma SplitsToA()
    ensures SplitAll(["a"]) == [["a"]] && SplitAll([]) == []
  {
    SplitOfOne("a", '.');
  }

  /** Without "a" the two sides of the comparison are the same, with it they are not. */
  lemma IgnoringA()
    ensures Compare(Comparing(), ["a"], Some(Obj(map["a" := Scalar(0)])), Obj(map["a" := Scalar(1)])) == Ok(true)
    ensures Compare(Comparing(), [], Some(Obj(map["a" := Scalar(0)])), Obj(map["a" := Scalar(1)])) == Ok(false)
  {
    SplitsToA();
    var live, dry := Obj(map["a" := Scalar(0)]), Obj(map["a" := Scalar(1)]);
    assert Fields.RemoveField(live, ["a"]).fields == map[] == Fields.RemoveField(dry, ["a"]).fields;
    assert Fields.RemoveFields(live, [["a"]]) == Fields.RemoveField(live, ["a"]);
    assert Fields.RemoveFields(dry, [["a"]]) == Fields.RemoveField(dry, ["a"]);
    assert live.fields["a"] != dry.fields["a"];
  }

  /** A preview that ignores "a" and shows "r" as unchanged, and an apply of the same inputs that updates it. */
  lemma PreviewCanHideAnUpdate() returns (preview: Config, apply: Config, s: State, t: State)
    ensures SameInputs(preview, apply) && apply.ignore == []
    ensures Reachable(preview, s) && Reachable(apply, t)
    ensures "r" in s.phase && s.phase["r"].Decided? && s.phase["r"].action.UnChange?
    ensures "r" in t.phase && t.phase["r"].Decided? && t.phase["r"].action.Update?
    ensures IgnoringMatters(preview, "r")
  {
    preview, apply := Differs(ApplyPreview, ["a"]), Differs(Apply, []);
    s := DecidesFirst(preview);
    t := DecidesFirst(apply);
    NothingRefersInR(apply);
    PreviewAgreesWithApply(preview, apply, s, t, "r");
  }

  // ---- A recorded secret ----

  const SECRET := "ref+vault://key"

  /** A resource recorded with a secret that can no longer be had, and that is to be deleted. */
  ghost function DropsSecret(): Config {
    var prior := map["q" := Resource("q", Obj(map["a" := Str(SECRET)]), [])];
    var lost: Option<string -> Reply<string>> := Some(_ => Err(SecretUnavailable));
    Config(Apply, map[], prior, Cover(ApplyEdges(map[], prior)), map[], 0, Comparing(), lost, [])
  }

  /** Its deletion fails before the runtime is asked, although its record holds no reference. */
  lemma RecordedSecretCanStopDeletion() returns (c: Config)
    ensures IsDeleteNode(c, "q") && RefFree(c.prior["q"].attributes)
    ensures Enabled(c, Initial(c), Start("q", Err(SecretUnavailable)))
    ensures !SecretsStand(c.prior["q"].attributes, c.secrets)
  {
    c := DropsSecret();
    OnlyQ(c);
    assert SECRET[0] == 'r' && IMPLICIT_REF_PREFIX[0] == '$';
    assert SECRET == VAULT_PREFIX + "key";
    assert Leaf(EnvOf(c, map[]), SECRET) == Err(SecretUnavailable);
  }

  lemma OnlyQ(c: Config)
    requires c == DropsSecret()
    ensures Nodes(c) == {"q"} && Parents(c, "q") == {} && Strings(c.prior["q"].attributes) == {SECRET}
  {
    StringOfField("a", SECRET);
    assert SECRET[0] == 'r' && IMPLICIT_REF_PREFIX[0] == '$';
    assert Refs(c.prior["q"].attributes) == {};
    assert Deps(c.prior["q"]) == {};
  }
}
