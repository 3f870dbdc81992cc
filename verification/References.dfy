/**
 Implicit references ("$kusion_path.key.a.b") and secret references in attributes:
 ReplaceRef, which collects the keys while the graph is built and substitutes the
 values while the graph is walked.
 */
module References {
  import opened Models

  const IMPLICIT_REF_PREFIX := "$kusion_path."
  const VAULT_PREFIX := "ref+vault://"

  predicate IsRef(s: string) {
    IMPLICIT_REF_PREFIX <= s
  }

  predicate IsSecured(s: string) {
    VAULT_PREFIX <= s
  }

  /** strings.Split: never empty, and joining with the separator gives s back. */
  function Split(s: string, sep: char): (parts: seq<string>)
    ensures |parts| > 0
  {
    if s == "" then [""]
    else
      var rest := Split(s[1..], sep);
      if s[0] == sep then [""] + rest else [[s[0]] + rest[0]] + rest[1..]
  }

  function Join(parts: seq<string>, sep: char): string
    requires |parts| > 0
  {
    if |parts| == 1 then parts[0] else parts[0] + [sep] + Join(parts[1..], sep)
  }

  function RefPath(s: string): string
    requires IsRef(s)
  {
    s[|IMPLICIT_REF_PREFIX|..]
  }

  /** The resource a reference string points into. */
  function RefKey(s: string): string
    requires IsRef(s)
  {
    Split(RefPath(s), '.')[0]
  }

  /** The keys of all references in a tree. */
  function Refs(v: Value): set<string> {
    set s | s in Strings(v) && IsRef(s) :: RefKey(s)
  }

  ghost predicate RefFree(v: Value) {
    forall s :: s in Strings(v) ==> !IsRef(s)
  }

  /** A "$kusion_path." with nothing behind it, on which ReplaceRef panics. */
  ghost predicate HasEmptyRef(v: Value) {
    IMPLICIT_REF_PREFIX in Strings(v)
  }

  type ResourceIndex = map<string, Option<Resource>>

  /** What ReplaceRef is passed: no function, a stub that ignores its input, or ImplicitReplaceFun on an index. */
  datatype Implicit = Off | Stub(value: Value) | Resolve(index: ResourceIndex)

  datatype Env = Env(implicit: Implicit, secrets: Option<string -> Reply<string>>)

  /** The walk of ImplicitReplaceFun below the attributes. */
  function Descend(v: Value, keys: seq<string>, ref: string): Reply<Value> {
    if keys == [] then Ok(v)
    else match v
      case Obj(fields) =>
        if keys[0] !in fields || fields[keys[0]].Null? then Err(ValueNotFound(ref))
        else Descend(fields[keys[0]], keys[1..], ref)
      case _ => Panic
  }

  function Lookup(index: ResourceIndex, ref: string): Reply<Value> {
    var split := Split(ref, '.');
    var key := split[0];
    if key !in index || index[key].None? then Err(ResourceNotFound(key))
    else
      var attributes := index[key].value.attributes;
      if attributes.Null? then Err(AttributesAreNil(key)) else Descend(attributes, split[1..], ref)
  }

  /** What ReplaceRef makes of one string. */
  function Leaf(env: Env, s: string): Reply<Value> {
    if IsRef(s) && !env.implicit.Off? then
      if RefPath(s) == "" then Panic
      else match env.implicit
        case Stub(value) => Ok(value)
        case Resolve(index) => Lookup(index, RefPath(s))
    else if IsSecured(s) && env.secrets.Some? then
      match env.secrets.value(s)
      case Ok(t) => Ok(Str(t))
      case Err(_) => Err(SecretUnavailable)
      case Panic => Panic
    else Ok(Str(s))
  }

  ghost predicate AllOk(v: Value, env: Env) {
    forall s :: s in Strings(v) ==> Leaf(env, s).Ok?
  }

  /** Structural substitution: every string replaced where it stands, nothing replaced twice. */
  function Subst(v: Value, env: Env): Value {
    match v
    case Str(text) => if Leaf(env, text).Ok? then Leaf(env, text).value else v
    case List(items) => List(seq(|items|, i requires 0 <= i < |items| => Subst(items[i], env)))
    case Obj(fields) => Obj(map k | k in fields :: Subst(fields[k], env))
    case _ => v
  }

  /** The outcomes ReplaceRef can have: which failing string is met first depends on map order. */
  ghost predicate MayYield(v: Value, env: Env, outcome: Reply<Value>) {
    if outcome.Ok? then AllOk(v, env) && outcome.value == Subst(v, env)
    else exists s :: s in Strings(v) && Leaf(env, s) == outcome
  }

  method ReplaceRef(v: Value, env: Env) returns (refs: seq<string>, outcome: Reply<Value>)
    ensures MayYield(v, env, outcome)
    ensures outcome.Ok? ==> Elements(refs) == if env.implicit.Off? then {} else Refs(v)
    decreases v
  {
    refs := [];
    match v
    case Null => return [], Ok(v);
    case Scalar(_) => return [], Ok(v);
    case Str(text) =>
      outcome := Leaf(env, text);
      if outcome.Ok? && IsRef(text) && !env.implicit.Off? {
        refs := [RefKey(text)];
      }
    case List(items) =>
      var made: seq<Value> := [];
      for i := 0 to |items|
        invariant |made| == i
        invariant forall j :: 0 <= j < i ==> made[j] == Subst(items[j], env) && AllOk(items[j], env)
        invariant forall r :: r in refs <==>
          exists j :: 0 <= j < i && r in (if env.implicit.Off? then {} else Refs(items[j]))
      {
        var more, tv := ReplaceRef(items[i], env);
        if !tv.Ok? {
          return [], tv;
        }
        made := made + [tv.value];
        refs := refs + more;
        assert forall r :: r in more <==> r in Elements(more);
      }
      assert made == Subst(v, env).items;
      outcome := Ok(List(made));
    case Obj(fields) =>
      var made: map<string, Value> := map[];
      var rest := fields.Keys;
      while rest != {}
        invariant rest <= fields.Keys
        invariant made.Keys == fields.Keys - rest
        invariant forall k :: k in made ==> made[k] == Subst(fields[k], env) && AllOk(fields[k], env)
        invariant forall r :: r in refs <==>
          exists k :: k in made && r in (if env.implicit.Off? then {} else Refs(fields[k]))
      {
        var k :| k in rest;
        var more, tv := ReplaceRef(fields[k], env);
        if !tv.Ok? {
          return [], tv;
        }
        assert forall r :: r in more <==> r in Elements(more);
        made := made[k := tv.value];
        refs := refs + more;
        rest := rest - {k};
      }
      assert made == Subst(v, env).fields;
      outcome := Ok(Obj(made));
  }

  /** The stub fails on nothing but an empty reference. */
  lemma StubFailsOnEmptyRef(v: Value, stub: Value)
    ensures AllOk(v, Env(Stub(stub), None)) <==> !HasEmptyRef(v)
    ensures forall o :: MayYield(v, Env(Stub(stub), None), o) && !o.Ok? ==> HasEmptyRef(v)
    ensures forall s :: IsRef(s) && s != IMPLICIT_REF_PREFIX ==> Leaf(Env(Stub(stub), None), s) == Ok(stub)
  {
    var env := Env(Stub(stub), None);
    assert Leaf(env, IMPLICIT_REF_PREFIX) == Panic;
    forall s ensures Leaf(env, s).Ok? <==> s != IMPLICIT_REF_PREFIX {
      if IsRef(s) { assert s == IMPLICIT_REF_PREFIX + RefPath(s); }
    }
  }

  // ---- What substitution means ----

  /** Below every position of the original tree stands the substitution of what stood there. */
  lemma {:induction false} SubstAlongPath(v: Value, env: Env, path: seq<Step>)
    requires At(v, path).Some?
    ensures At(Subst(v, env), path) == Some(Subst(At(v, path).value, env))
  {
    if path != [] {
      match (v, path[0])
      case (List(items), Index(i)) => SubstAlongPath(items[i], env, path[1..]);
      case (Obj(fields), Field(name)) => SubstAlongPath(fields[name], env, path[1..]);
    }
  }

  /** A tree that resolves comes back unchanged exactly when each of its strings does. */
  lemma {:induction false} UnchangedByStrings(v: Value, env: Env)
    requires AllOk(v, env)
    ensures Subst(v, env) == v <==> forall s :: s in Strings(v) ==> Leaf(env, s) == Ok(Str(s))
  {
    if forall s :: s in Strings(v) ==> Leaf(env, s) == Ok(Str(s)) {
      FixedStrings(v, env);
    } else {
      var s :| s in Strings(v) && Leaf(env, s) != Ok(Str(s));
      var path := StringsAreAtPaths(v, s);
      SubstAlongPath(v, env, path);
    }
  }

  lemma {:induction false} FixedStrings(v: Value, env: Env)
    requires forall s :: s in Strings(v) ==> Leaf(env, s) == Ok(Str(s))
    ensures Subst(v, env) == v
  {
    match v
    case List(items) =>
      forall i | 0 <= i < |items| ensures Subst(items[i], env) == items[i] {
        assert items[i] in items;
        FixedStrings(items[i], env);
      }
      assert Subst(v, env).items == items;
    case Obj(fields) =>
      forall k | k in fields ensures Subst(fields[k], env) == fields[k] {
        FixedStrings(fields[k], env);
      }
      assert Subst(v, env).fields == fields;
    case _ =>
  }

  /** A position the original tree lacks lies inside the replacement of one of its strings. */
  lemma {:induction false} SubstAddsOnlyReplacements(v: Value, env: Env, path: seq<Step>) returns (n: nat)
    requires At(v, path).None? && At(Subst(v, env), path).Some?
    ensures n < |path| && At(v, path[..n]).Some? && At(v, path[..n]).value.Str?
    ensures At(Subst(At(v, path[..n]).value, env), path[n..]) == At(Subst(v, env), path)
  {
    if v.Str? {
      n := 0;
      assert path[..0] == [] && path[0..] == path;
    } else {
      match (v, path[0])
      case (List(items), Index(i)) =>
        var m := SubstAddsOnlyReplacements(items[i], env, path[1..]);
        n := m + 1;
        assert path[..n][1..] == path[1..][..m] && path[n..] == path[1..][m..];
      case (Obj(fields), Field(name)) =>
        var m := SubstAddsOnlyReplacements(fields[name], env, path[1..]);
        n := m + 1;
        assert path[..n][1..] == path[1..][..m] && path[n..] == path[1..][m..];
    }
  }

  /** Environments that agree on a tree's strings substitute alike. */
  lemma {:induction false} SubstAgrees(v: Value, env: Env, env': Env)
    requires forall s :: s in Strings(v) ==> Leaf(env, s) == Leaf(env', s)
    ensures Subst(v, env) == Subst(v, env')
    ensures AllOk(v, env) <==> AllOk(v, env')
  {
    match v
    case List(items) =>
      forall i | 0 <= i < |items|
        ensures Subst(items[i], env) == Subst(items[i], env')
      {
        SubstAgrees(items[i], env, env');
      }
      assert Subst(v, env).items == Subst(v, env').items;
    case Obj(fields) =>
      forall k | k in fields
        ensures Subst(fields[k], env) == Subst(fields[k], env')
      {
        SubstAgrees(fields[k], env, env');
      }
      assert Subst(v, env).fields == Subst(v, env').fields;
    case _ =>
  }

  ghost predicate Inert(v: Value, env: Env) {
    forall s :: s in Strings(v) ==> !(IsRef(s) && !env.implicit.Off?) && !(IsSecured(s) && env.secrets.Some?)
  }

  /** A tree with nothing to replace comes back unchanged, whatever the environment. */
  lemma {:induction false} InertUnchanged(v: Value, env: Env)
    requires Inert(v, env)
    ensures AllOk(v, env) && Subst(v, env) == v
  {
    match v
    case List(items) =>
      forall i | 0 <= i < |items| ensures Subst(items[i], env) == items[i] { InertUnchanged(items[i], env); }
      assert Subst(v, env).items == items;
    case Obj(fields) =>
      forall k | k in fields ensures Subst(fields[k], env) == fields[k] { InertUnchanged(fields[k], env); }
      assert Subst(v, env).fields == fields;
    case _ =>
  }

  /** Every string of the result is a string of some replacement. */
  lemma {:induction false} SubstStrings(v: Value, env: Env, s: string) returns (t: string)
    requires AllOk(v, env) && s in Strings(Subst(v, env))
    ensures t in Strings(v) && s in Strings(Leaf(env, t).value)
  {
    match v
    case Str(text) => t := text;
    case List(items) =>
      var i :| 0 <= i < |items| && s in Strings(Subst(items[i], env));
      t := SubstStrings(items[i], env, s);
    case Obj(fields) =>
      var k :| k in fields && s in Strings(Subst(fields[k], env));
      t := SubstStrings(fields[k], env, s);
  }

  // ---- Lookups ----

  /** A lookup reads one entry of the index: that of the reference's key. */
  lemma LookupReadsOneKey(index: ResourceIndex, index': ResourceIndex, s: string)
    requires IsRef(s)
    requires RefKey(s) in index && RefKey(s) in index' && index[RefKey(s)] == index'[RefKey(s)]
    ensures Lookup(index, RefPath(s)) == Lookup(index', RefPath(s))
  {
  }

  function AsSteps(keys: seq<string>): seq<Step> {
    seq(|keys|, i requires 0 <= i < |keys| => Field(keys[i]))
  }

  lemma {:induction false} DescendMeans(v: Value, keys: seq<string>, ref: string, w: Value)
    ensures Descend(v, keys, ref) == Ok(w) <==> At(v, AsSteps(keys)) == Some(w) && (keys == [] || !w.Null?)
  {
    if keys != [] {
      assert AsSteps(keys)[1..] == AsSteps(keys[1..]);
      if v.Obj? && keys[0] in v.fields {
        DescendMeans(v.fields[keys[0]], keys[1..], ref, w);
      }
    }
  }

  /**
   A reference yields what stands at its path, read as map keys, in the attributes of the resource
   it names; it yields nothing else, and it fails if there is none or only a null.
   */
  lemma LookupMeans(index: ResourceIndex, s: string, w: Value)
    requires IsRef(s)
    ensures var (key, keys) := (RefKey(s), Split(RefPath(s), '.')[1..]);
      Lookup(index, RefPath(s)) == Ok(w) <==>
        && key in index && index[key].Some? && !w.Null?
        && At(index[key].value.attributes, AsSteps(keys)) == Some(w)
  {
    var key, keys := RefKey(s), Split(RefPath(s), '.')[1..];
    if key in index && index[key].Some? {
      DescendMeans(index[key].value.attributes, keys, RefPath(s), w);
      assert keys != [] && index[key].value.attributes.Null? ==> At(index[key].value.attributes, AsSteps(keys)) == None;
    }
  }

  lemma {:induction false} DescendStrings(v: Value, keys: seq<string>, ref: string)
    requires Descend(v, keys, ref).Ok?
    ensures Strings(Descend(v, keys, ref).value) <= Strings(v)
  {
    if keys != [] {
      DescendStrings(v.fields[keys[0]], keys[1..], ref);
    }
  }

  /** Indexes that agree on the keys a tree refers to resolve it alike. */
  lemma ResolutionReadsRefs(v: Value, index: ResourceIndex, index': ResourceIndex,
                            secrets: Option<string -> Reply<string>>)
    requires forall k :: k in Refs(v) ==> k in index && k in index' && index[k] == index'[k]
    ensures Subst(v, Env(Resolve(index), secrets)) == Subst(v, Env(Resolve(index'), secrets))
    ensures AllOk(v, Env(Resolve(index), secrets)) <==> AllOk(v, Env(Resolve(index'), secrets))
    ensures forall o :: MayYield(v, Env(Resolve(index), secrets), o) <==> MayYield(v, Env(Resolve(index'), secrets), o)
  {
    var env, env' := Env(Resolve(index), secrets), Env(Resolve(index'), secrets);
    forall s | s in Strings(v) ensures Leaf(env, s) == Leaf(env', s) {
      if IsRef(s) {
        assert RefKey(s) in Refs(v);
        LookupReadsOneKey(index, index', s);
      }
    }
    SubstAgrees(v, env, env');
  }

  /** The only resource a failing tree can miss is one it refers to and the index lacks. */
  lemma OnlyRefsAreMissed(v: Value, index: ResourceIndex, secrets: Option<string -> Reply<string>>, key: string)
    requires MayYield(v, Env(Resolve(index), secrets), Err(ResourceNotFound(key)))
    ensures key in Refs(v) && (key !in index || index[key].None?)
  {
    var env := Env(Resolve(index), secrets);
    var s :| s in Strings(v) && Leaf(env, s) == Err(ResourceNotFound(key));
    var ref := RefPath(s);
    if RefKey(s) in index && index[RefKey(s)].Some? {
      DescendMissesNoResource(index[RefKey(s)].value.attributes, Split(ref, '.')[1..], ref, key);
    }
  }

  lemma {:induction false} DescendMissesNoResource(v: Value, keys: seq<string>, ref: string, key: string)
    ensures Descend(v, keys, ref) != Err(ResourceNotFound(key))
  {
    if keys != [] && v.Obj? && keys[0] in v.fields {
      DescendMissesNoResource(v.fields[keys[0]], keys[1..], ref, key);
    }
  }

  /** Environments that agree on a tree's strings have the same possible outcomes. */
  lemma OutcomesAgree(v: Value, env: Env, env': Env)
    requires forall s :: s in Strings(v) ==> Leaf(env, s) == Leaf(env', s)
    ensures forall o :: MayYield(v, env, o) <==> MayYield(v, env', o)
  {
    SubstAgrees(v, env, env');
    forall o ensures MayYield(v, env, o) <==> MayYield(v, env', o) {
      if !o.Ok? {
        assert forall s :: s in Strings(v) ==> (Leaf(env, s) == o <==> Leaf(env', s) == o);
      }
    }
  }

  /** When nothing can fail there is one outcome. */
  lemma AllOkDecides(v: Value, env: Env, outcome: Reply<Value>)
    requires AllOk(v, env) && MayYield(v, env, outcome)
    ensures outcome == Ok(Subst(v, env))
  {
  }

  /** A tree that resolves finds every resource it refers to. */
  lemma ResolvedRefsArePresent(v: Value, index: ResourceIndex, secrets: Option<string -> Reply<string>>, key: string)
    requires AllOk(v, Env(Resolve(index), secrets)) && key in Refs(v)
    ensures key in index && index[key].Some?
  {
    var s :| s in Strings(v) && IsRef(s) && RefKey(s) == key;
    assert Leaf(Env(Resolve(index), secrets), s).Ok?;
  }

  // ---- Resolved trees stay resolved ----

  ghost predicate IndexRefFree(index: ResourceIndex) {
    forall k :: k in index && index[k].Some? ==> RefFree(index[k].value.attributes)
  }

  ghost predicate SecretsRefFree(secrets: Option<string -> Reply<string>>) {
    secrets.Some? ==> forall s :: secrets.value(s).Ok? ==> !IsRef(secrets.value(s).value)
  }

  /** Values taken from resolved resources bring in no reference. */
  lemma ResolutionIsRefFree(v: Value, index: ResourceIndex, secrets: Option<string -> Reply<string>>)
    requires AllOk(v, Env(Resolve(index), secrets)) && IndexRefFree(index) && SecretsRefFree(secrets)
    ensures RefFree(Subst(v, Env(Resolve(index), secrets)))
  {
    var env := Env(Resolve(index), secrets);
    forall s | s in Strings(Subst(v, env)) ensures !IsRef(s) {
      var t := SubstStrings(v, env, s);
      if IsRef(t) {
        DescendStrings(index[RefKey(t)].value.attributes, Split(RefPath(t), '.')[1..], RefPath(t));
      }
    }
  }

  // ---- The reference format ----

  lemma {:induction false} SplitJoin(s: string, sep: char)
    ensures Join(Split(s, sep), sep) == s
  {
    if s != "" {
      SplitJoin(s[1..], sep);
      var rest := Split(s[1..], sep);
      if s[0] == sep {
        assert ([""] + rest)[1..] == rest;
        assert Join([""] + rest, sep) == "" + [sep] + Join(rest, sep);
      } else {
        var first := [s[0]] + rest[0];
        assert ([first] + rest[1..])[1..] == rest[1..];
        if |rest| > 1 {
          assert Join([first] + rest[1..], sep) == first + [sep] + Join(rest[1..], sep);
          assert first + [sep] + Join(rest[1..], sep) == [s[0]] + (rest[0] + [sep] + Join(rest[1..], sep));
        }
      }
    }
  }

  /** The key of a reference is the text in front of its first dot, and no part contains a dot. */
  lemma {:induction false} SplitParts(s: string, sep: char, i: nat)
    requires i < |Split(s, sep)|
    ensures sep !in Split(s, sep)[i]
  {
    if s != "" {
      var rest := Split(s[1..], sep);
      if s[0] == sep {
        if i > 0 { SplitParts(s[1..], sep, i - 1); }
      } else {
        SplitParts(s[1..], sep, i);
      }
    }
  }

  lemma {:induction false} SplitAtFirst(a: string, b: string, sep: char)
    requires sep !in a
    ensures Split(a + [sep] + b, sep) == [a] + Split(b, sep)
  {
    var s := a + [sep] + b;
    if a == "" {
      assert s[1..] == b;
    } else {
      SplitAtFirst(a[1..], b, sep);
      var rest := Split(a[1..] + [sep] + b, sep);
      assert s[1..] == a[1..] + [sep] + b && s[0] == a[0] && a[0] in a;
      assert [a[0]] + rest[0] == a && rest[1..] == Split(b, sep);
    }
  }

  lemma {:induction false} SplitOfOne(a: string, sep: char)
    requires sep !in a
    ensures Split(a, sep) == [a]
  {
    if a != "" {
      SplitOfOne(a[1..], sep);
      assert a[0] in a && [a[0]] + a[1..] == a;
    }
  }

  /** Joining the parts of a split and splitting again gives the same parts. */
  lemma {:induction false} SplitOfJoin(parts: seq<string>, sep: char)
    requires |parts| > 0 && forall i :: 0 <= i < |parts| ==> sep !in parts[i]
    ensures Split(Join(parts, sep), sep) == parts
  {
    if |parts| == 1 {
      SplitOfOne(parts[0], sep);
    } else {
      SplitOfJoin(parts[1..], sep);
      SplitAtFirst(parts[0], Join(parts[1..], sep), sep);
      assert parts == [parts[0]] + parts[1..];
    }
  }

  lemma {:induction false} JoinConcat(a: seq<string>, b: seq<string>, sep: char)
    requires |a| > 0 && |b| > 0
    ensures Join(a + b, sep) == Join(a, sep) + [sep] + Join(b, sep)
  {
    if |a| == 1 {
      assert (a + b)[1..] == b;
    } else {
      JoinConcat(a[1..], b, sep);
      assert (a + b)[1..] == a[1..] + b;
    }
  }

  lemma SplitConcat(a: string, b: string, sep: char)
    ensures Split(a + [sep] + b, sep) == Split(a, sep) + Split(b, sep)
  {
    var parts := Split(a, sep) + Split(b, sep);
    JoinConcat(Split(a, sep), Split(b, sep), sep);
    SplitJoin(a, sep);
    SplitJoin(b, sep);
    forall i | 0 <= i < |parts| ensures sep !in parts[i] {
      if i < |Split(a, sep)| {
        SplitParts(a, sep, i);
      } else {
        SplitParts(b, sep, i - |Split(a, sep)|);
      }
    }
    SplitOfJoin(parts, sep);
  }
}
