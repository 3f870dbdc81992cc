/**
 What ReplaceRef makes of a tree, told by positions: what stands where a reference, a secret or
 anything else stood, and when the whole fails. Nothing here is stated through the functions that
 compute it.
 */
module Resolution {
  import opened Models
  import opened References

  /** The reference string that names a resource by key, and a place in it by map keys. */
  function RefTo(key: string, keys: seq<string>): string {
    IMPLICIT_REF_PREFIX + Join([key] + keys, '.')
  }

  predicate NoDots(parts: seq<string>) {
    forall i :: 0 <= i < |parts| ==> '.' !in parts[i]
  }

  /** The tree has this string at this position. */
  ghost predicate HasString(v: Value, path: seq<Step>, s: string) {
    At(v, path) == Some(Str(s))
  }

  lemma {:induction false} StringsOccur(v: Value, path: seq<Step>, s: string)
    requires HasString(v, path, s)
    ensures s in Strings(v)
  {
    if path != [] {
      match (v, path[0])
      case (List(items), Index(i)) => StringsOccur(items[i], path[1..], s);
      case (Obj(fields), Field(name)) => StringsOccur(fields[name], path[1..], s);
    }
  }

  /** The strings of a tree are those that stand at its positions. */
  lemma StringsMean(v: Value, s: string)
    ensures s in Strings(v) <==> exists path :: HasString(v, path, s)
  {
    if s in Strings(v) {
      var path := StringsAreAtPaths(v, s);
      assert HasString(v, path, s);
    }
    if path :| HasString(v, path, s) {
      StringsOccur(v, path, s);
    }
  }

  /** A string with the prefix is a reference in exactly one way. */
  lemma RefParts(key: string, keys: seq<string>)
    requires NoDots([key] + keys)
    ensures IsRef(RefTo(key, keys)) && RefKey(RefTo(key, keys)) == key
    ensures Split(RefPath(RefTo(key, keys)), '.') == [key] + keys
  {
    assert RefPath(RefTo(key, keys)) == Join([key] + keys, '.');
    SplitOfJoin([key] + keys, '.');
  }

  lemma EveryRefHasParts(s: string) returns (key: string, keys: seq<string>)
    requires IsRef(s)
    ensures NoDots([key] + keys) && s == RefTo(key, keys) && key == RefKey(s) && keys == Split(RefPath(s), '.')[1..]
  {
    var parts := Split(RefPath(s), '.');
    key, keys := parts[0], parts[1..];
    assert parts == [key] + keys;
    forall i | 0 <= i < |parts| ensures '.' !in parts[i] { SplitParts(RefPath(s), '.', i); }
    SplitJoin(RefPath(s), '.');
    assert s == IMPLICIT_REF_PREFIX + RefPath(s);
  }

  /** The keys collected from a tree are those of the references that stand in it. */
  lemma RefsMean(v: Value, key: string)
    ensures key in Refs(v) <==> exists path, keys :: NoDots([key] + keys) && HasString(v, path, RefTo(key, keys))
  {
    if key in Refs(v) {
      var s :| s in Strings(v) && IsRef(s) && RefKey(s) == key;
      var k, keys := EveryRefHasParts(s);
      StringsMean(v, s);
      var path :| HasString(v, path, s);
      assert NoDots([key] + keys) && HasString(v, path, RefTo(key, keys));
    }
    if path, keys :| NoDots([key] + keys) && HasString(v, path, RefTo(key, keys)) {
      StringsOccur(v, path, RefTo(key, keys));
      RefParts(key, keys);
    }
  }

  // ---- What a reference finds ----

  /** The index has a resource for the key, and w stands at the keys in its attributes. */
  ghost predicate Finds(index: ResourceIndex, key: string, keys: seq<string>, w: Value) {
    && key in index && index[key].Some?
    && At(index[key].value.attributes, AsSteps(keys)) == Some(w)
  }

  /** The reference finds a value; the empty reference never does. */
  ghost predicate HasTarget(index: ResourceIndex, key: string, keys: seq<string>) {
    RefTo(key, keys) != IMPLICIT_REF_PREFIX && exists w :: Finds(index, key, keys, w) && !w.Null?
  }

  /** On the way the reference meets a value that is neither missing nor a map. */
  ghost predicate MeetsNoMap(index: ResourceIndex, key: string, keys: seq<string>) {
    exists i, w :: 0 <= i < |keys| && Finds(index, key, keys[..i], w) && !w.Null? && !w.Obj?
  }

  lemma {:induction false} DescendPanics(v: Value, keys: seq<string>, ref: string)
    requires !v.Null?
    ensures Descend(v, keys, ref).Panic? <==>
      exists i, w :: 0 <= i < |keys| && At(v, AsSteps(keys[..i])) == Some(w) && !w.Null? && !w.Obj?
  {
    if keys != [] {
      assert keys[..0] == [] && AsSteps(keys[..0]) == [];
      if v.Obj? && keys[0] in v.fields && !v.fields[keys[0]].Null? {
        var next := v.fields[keys[0]];
        DescendPanics(next, keys[1..], ref);
        forall i | 0 <= i < |keys| - 1
          ensures At(v, AsSteps(keys[..i + 1])) == At(next, AsSteps(keys[1..][..i]))
        {
          FieldBelow(v, keys, i);
        }
        if i, w :| 0 <= i < |keys| && At(v, AsSteps(keys[..i])) == Some(w) && !w.Null? && !w.Obj? {
          assert At(next, AsSteps(keys[1..][..i - 1])) == Some(w);
        }
        if i, w :| 0 <= i < |keys[1..]| && At(next, AsSteps(keys[1..][..i])) == Some(w) && !w.Null? && !w.Obj? {
          assert At(v, AsSteps(keys[..i + 1])) == Some(w);
        }
      } else if v.Obj? {
        forall i, w | 0 <= i < |keys| && At(v, AsSteps(keys[..i])) == Some(w) && !w.Null? ensures w.Obj? {
          if i > 0 { FieldBelow(v, keys, i - 1); }
        }
      }
    }
  }

  lemma FieldBelow(v: Value, keys: seq<string>, i: nat)
    requires v.Obj? && i < |keys|
    ensures At(v, AsSteps(keys[..i + 1])) ==
      if keys[0] in v.fields then At(v.fields[keys[0]], AsSteps(keys[1..][..i])) else None
  {
    assert AsSteps(keys[..i + 1])[1..] == AsSteps(keys[1..][..i]);
  }

  /** A reference alone: what it becomes, when it cannot be resolved, and when it panics. */
  lemma RefMeans(index: ResourceIndex, secrets: Option<string -> Reply<string>>, key: string, keys: seq<string>)
    requires NoDots([key] + keys)
    ensures var found := Leaf(Env(Resolve(index), secrets), RefTo(key, keys));
      && (found.Ok? <==> HasTarget(index, key, keys))
      && (found.Ok? ==> Finds(index, key, keys, found.value) && !found.value.Null?)
      && (found.Panic? <==> RefTo(key, keys) == IMPLICIT_REF_PREFIX || MeetsNoMap(index, key, keys))
  {
    var s := RefTo(key, keys);
    RefParts(key, keys);
    assert RefPath(s) == "" <==> s == IMPLICIT_REF_PREFIX;
    forall w ensures Lookup(index, RefPath(s)) == Ok(w) <==> Finds(index, key, keys, w) && !w.Null? {
      LookupMeans(index, s, w);
    }
    LookupPanics(index, key, keys);
    if HasTarget(index, key, keys) {
      var w :| Finds(index, key, keys, w) && !w.Null?;
    }
  }

  lemma LookupPanics(index: ResourceIndex, key: string, keys: seq<string>)
    requires NoDots([key] + keys)
    ensures Lookup(index, RefPath(RefTo(key, keys))).Panic? <==> MeetsNoMap(index, key, keys)
  {
    var s := RefTo(key, keys);
    RefParts(key, keys);
    assert ([key] + keys)[1..] == keys;
    if key in index && index[key].Some? {
      var v := index[key].value.attributes;
      if v.Null? {
        forall i | 0 <= i < |keys| ensures At(v, AsSteps(keys[..i])) == if i == 0 then Some(v) else None {
          if i == 0 { assert AsSteps(keys[..0]) == []; }
        }
      } else {
        DescendPanics(v, keys, RefPath(s));
      }
    }
  }

  // ---- What stands in the result ----

  /** Where a reference stood, the result has what it finds in the index, and that is never null. */
  lemma ReferencesAreReplaced(v: Value, index: ResourceIndex, secrets: Option<string -> Reply<string>>, r: Value,
                              path: seq<Step>, key: string, keys: seq<string>)
    requires MayYield(v, Env(Resolve(index), secrets), Ok(r))
    requires NoDots([key] + keys) && HasString(v, path, RefTo(key, keys))
    ensures key in index && index[key].Some?
    ensures At(r, path) == At(index[key].value.attributes, AsSteps(keys))
    ensures At(r, path).Some? && !At(r, path).value.Null?
  {
    StringsOccur(v, path, RefTo(key, keys));
    RefMeans(index, secrets, key, keys);
    SubstAlongPath(v, Env(Resolve(index), secrets), path);
  }

  /** Where a secret stood, the result has the store's answer. */
  lemma SecretsAreReplaced(v: Value, env: Env, r: Value, path: seq<Step>, s: string)
    requires MayYield(v, env, Ok(r)) && env.secrets.Some?
    requires HasString(v, path, s) && VAULT_PREFIX <= s
    ensures env.secrets.value(s).Ok? && At(r, path) == Some(Str(env.secrets.value(s).value))
  {
    StringsOccur(v, path, s);
    assert s[0] == 'r' && IMPLICIT_REF_PREFIX[0] == '$';
    SubstAlongPath(v, env, path);
  }

  /** The string is neither a reference nor a secret that this environment replaces. */
  predicate Stands(env: Env, s: string) {
    && (env.implicit.Off? || !(IMPLICIT_REF_PREFIX <= s))
    && (env.secrets.None? || !(VAULT_PREFIX <= s))
  }

  /** Everything else stays where it stood: leaves as they are, maps with their keys, lists with their lengths. */
  lemma OthersStand(v: Value, env: Env, r: Value, path: seq<Step>, x: Value)
    requires MayYield(v, env, Ok(r)) && At(v, path) == Some(x)
    ensures x.Null? || x.Scalar? || (x.Str? && Stands(env, x.text)) ==> At(r, path) == Some(x)
    ensures x.Obj? ==> At(r, path).Some? && At(r, path).value.Obj? && At(r, path).value.fields.Keys == x.fields.Keys
    ensures x.List? ==> At(r, path).Some? && At(r, path).value.List? && |At(r, path).value.items| == |x.items|
  {
    SubstAlongPath(v, env, path);
  }

  // ---- When it fails ----

  /** Every reference of the tree finds a value, and every secret is to be had. */
  ghost predicate AllCanBeReplaced(v: Value, index: ResourceIndex, secrets: Option<string -> Reply<string>>) {
    && (forall path, key, keys :: NoDots([key] + keys) && HasString(v, path, RefTo(key, keys)) ==>
          HasTarget(index, key, keys))
    && (secrets.Some? ==>
          forall path, s :: HasString(v, path, s) && VAULT_PREFIX <= s ==> secrets.value(s).Ok?)
  }

  /** Some reference of the tree is empty or leads through no map, or the store panics on a secret. */
  ghost predicate CanPanic(v: Value, index: ResourceIndex, secrets: Option<string -> Reply<string>>) {
    || (exists path, key, keys :: NoDots([key] + keys) && HasString(v, path, RefTo(key, keys)) &&
          (RefTo(key, keys) == IMPLICIT_REF_PREFIX || MeetsNoMap(index, key, keys)))
    || (secrets.Some? && exists path, s :: HasString(v, path, s) && VAULT_PREFIX <= s && secrets.value(s).Panic?)
  }

  lemma LeafCanBeReplaced(v: Value, index: ResourceIndex, secrets: Option<string -> Reply<string>>, s: string)
    requires s in Strings(v)
    ensures AllCanBeReplaced(v, index, secrets) ==> Leaf(Env(Resolve(index), secrets), s).Ok?
    ensures Leaf(Env(Resolve(index), secrets), s).Panic? ==> CanPanic(v, index, secrets)
  {
    StringsMean(v, s);
    var path :| HasString(v, path, s);
    if IsRef(s) {
      var key, keys := EveryRefHasParts(s);
      RefMeans(index, secrets, key, keys);
    }
  }

  /**
   Replacing succeeds exactly when every reference finds a value and every secret is to be had; and it
   panics, instead of failing, only for an empty reference, one that leads through no map, or a store that does.
   */
  lemma ReplaceSucceedsExactly(v: Value, index: ResourceIndex, secrets: Option<string -> Reply<string>>,
                               outcome: Reply<Value>)
    requires MayYield(v, Env(Resolve(index), secrets), outcome)
    ensures outcome.Ok? <==> AllCanBeReplaced(v, index, secrets)
    ensures outcome.Panic? ==> CanPanic(v, index, secrets)
    ensures outcome.Err? ==> !AllCanBeReplaced(v, index, secrets)
  {
    forall s | s in Strings(v)
      ensures AllCanBeReplaced(v, index, secrets) ==> Leaf(Env(Resolve(index), secrets), s).Ok?
      ensures Leaf(Env(Resolve(index), secrets), s).Panic? ==> CanPanic(v, index, secrets)
    {
      LeafCanBeReplaced(v, index, secrets, s);
    }
    if outcome.Ok? {
      forall path, key, keys | NoDots([key] + keys) && HasString(v, path, RefTo(key, keys))
        ensures HasTarget(index, key, keys)
      {
        StringsOccur(v, path, RefTo(key, keys));
        RefMeans(index, secrets, key, keys);
      }
      forall path, s | secrets.Some? && HasString(v, path, s) && VAULT_PREFIX <= s ensures secrets.value(s).Ok? {
        SecretsAreReplaced(v, Env(Resolve(index), secrets), outcome.value, path, s);
      }
    }
  }
}
