/**
 Two operations on trees: deleting ignored fields before a diff (removeNestedField)
 and reducing a live object to the fields its configuration has (removeFields).
 */
module Fields {
  import opened Models

  // ---- removeNestedField ----

  /** The tree without the entries at a field path; lists are looked through. */
  function RemoveField(v: Value, path: seq<string>): Value
    requires path != []
  {
    match v
    case Obj(fields) =>
      if |path| == 1 then Obj(fields - {path[0]})
      else Obj(map k | k in fields :: if k == path[0] then RemoveField(fields[k], path[1..]) else fields[k])
    case List(items) => List(seq(|items|, i requires 0 <= i < |items| => RemoveField(items[i], path)))
    case _ => v
  }

  /** The key path of a position, list indices left out. */
  function KeyPath(path: seq<Step>): seq<string> {
    if path == [] then []
    else match path[0]
      case Field(name) => [name] + KeyPath(path[1..])
      case Index(_) => KeyPath(path[1..])
  }

  /** The position is a map entry named by fields, or lies inside one. */
  ghost predicate IsUnder(path: seq<Step>, fields: seq<string>) {
    exists i :: 0 <= i < |path| && path[i].Field? && KeyPath(path[..i + 1]) == fields
  }

  lemma IsUnderField(path: seq<Step>, fields: seq<string>)
    requires path != [] && path[0].Field? && fields != []
    ensures IsUnder(path, fields) <==> path[0].name == fields[0] && (|fields| == 1 || IsUnder(path[1..], fields[1..]))
  {
    if IsUnder(path, fields) {
      var i :| 0 <= i < |path| && path[i].Field? && KeyPath(path[..i + 1]) == fields;
      assert path[..i + 1][1..] == path[1..][..i];
      if |fields| > 1 {
        assert i > 0;
        assert path[1..][i - 1].Field? && KeyPath(path[1..][..i - 1 + 1]) == fields[1..];
      }
    }
    if path[0].name == fields[0] {
      if |fields| == 1 {
        assert path[..1][1..] == [];
        assert path[0].Field? && KeyPath(path[..0 + 1]) == fields;
      } else if IsUnder(path[1..], fields[1..]) {
        var i :| 0 <= i < |path[1..]| && path[1..][i].Field? && KeyPath(path[1..][..i + 1]) == fields[1..];
        assert path[..i + 2][1..] == path[1..][..i + 1];
        assert path[i + 1].Field? && KeyPath(path[..i + 1 + 1]) == fields;
      }
    }
  }

  lemma IsUnderIndex(path: seq<Step>, fields: seq<string>)
    requires path != [] && path[0].Index?
    ensures IsUnder(path, fields) <==> IsUnder(path[1..], fields)
  {
    if IsUnder(path, fields) {
      var i :| 0 <= i < |path| && path[i].Field? && KeyPath(path[..i + 1]) == fields;
      assert path[..i + 1][1..] == path[1..][..i - 1 + 1];
      assert path[1..][i - 1].Field?;
    }
    if IsUnder(path[1..], fields) {
      var i :| 0 <= i < |path[1..]| && path[1..][i].Field? && KeyPath(path[1..][..i + 1]) == fields;
      assert path[..i + 1 + 1][1..] == path[1..][..i + 1];
      assert path[i + 1].Field?;
    }
  }

  predicate IsLeaf(v: Value) {
    v.Str? || v.Scalar? || v.Null?
  }

  /** Exactly the positions under the field path disappear; every other one keeps its place and its trimmed value. */
  lemma {:induction false} RemoveFieldAt(v: Value, fields: seq<string>, path: seq<Step>)
    requires fields != []
    ensures At(RemoveField(v, fields), path).Some? <==> At(v, path).Some? && !IsUnder(path, fields)
    ensures At(RemoveField(v, fields), path).Some? && IsLeaf(At(v, path).value)
         ==> At(RemoveField(v, fields), path) == At(v, path)
    ensures At(RemoveField(v, fields), path).Some? && At(v, path).value.List? ==>
      && At(RemoveField(v, fields), path).value.List?
      && |At(RemoveField(v, fields), path).value.items| == |At(v, path).value.items|
    ensures At(RemoveField(v, fields), path).Some? && At(v, path).value.Obj? ==>
      At(RemoveField(v, fields), path).value.Obj?
  {
    if path == [] {
      assert !IsUnder(path, fields);
    } else if path[0].Index? {
      IsUnderIndex(path, fields);
      if v.List? && path[0].i < |v.items| {
        RemoveFieldAt(v.items[path[0].i], fields, path[1..]);
      }
    } else {
      IsUnderField(path, fields);
      if v.Obj? && path[0].name in v.fields && path[0].name == fields[0] && |fields| > 1 {
        RemoveFieldAt(v.fields[path[0].name], fields[1..], path[1..]);
      }
    }
  }

  /** Removing twice is removing once, and the order of two removals does not matter. */
  lemma {:induction false} RemovalsCommute(v: Value, a: seq<string>, b: seq<string>)
    requires a != [] && b != []
    ensures RemoveField(RemoveField(v, a), b) == RemoveField(RemoveField(v, b), a)
    ensures RemoveField(RemoveField(v, a), a) == RemoveField(v, a)
  {
    match v
    case List(items) =>
      forall i | 0 <= i < |items|
        ensures RemoveField(RemoveField(items[i], a), b) == RemoveField(RemoveField(items[i], b), a)
        ensures RemoveField(RemoveField(items[i], a), a) == RemoveField(items[i], a)
      {
        RemovalsCommute(items[i], a, b);
      }
      assert RemoveField(RemoveField(v, a), b).items == RemoveField(RemoveField(v, b), a).items;
      assert RemoveField(RemoveField(v, a), a).items == RemoveField(v, a).items;
    case Obj(fields) =>
      if |a| > 1 && a[0] in fields {
        RemovalsCommute(fields[a[0]], a[1..], if |b| > 1 then b[1..] else a[1..]);
      }
      assert RemoveField(RemoveField(v, a), b).fields == RemoveField(RemoveField(v, b), a).fields;
      assert RemoveField(RemoveField(v, a), a).fields == RemoveField(v, a).fields;
    case _ =>
  }

  /** All ignored fields removed, one after the other. */
  function RemoveFields(v: Value, ignored: seq<seq<string>>): Value
    requires forall i :: 0 <= i < |ignored| ==> ignored[i] != []
    decreases |ignored|
  {
    if ignored == [] then v else RemoveFields(RemoveField(v, ignored[0]), ignored[1..])
  }

  /** w is v without exactly the positions under one of the ignored fields. */
  ghost predicate IsTrimmed(v: Value, w: Value, ignored: seq<seq<string>>) {
    forall path :: IsTrimmedAt(v, w, ignored, path)
  }

  ghost predicate IsTrimmedAt(v: Value, w: Value, ignored: seq<seq<string>>, path: seq<Step>) {
    && (At(w, path).Some? <==> At(v, path).Some? && forall i :: 0 <= i < |ignored| ==> !IsUnder(path, ignored[i]))
    && (At(w, path).Some? ==>
          var x, y := At(v, path).value, At(w, path).value;
          && (IsLeaf(x) ==> y == x) && (x.Obj? ==> y.Obj?) && (x.List? ==> y.List? && |y.items| == |x.items|))
  }

  /** Of all positions exactly those under an ignored field disappear. */
  lemma {:induction false} RemoveFieldsTrims(v: Value, ignored: seq<seq<string>>)
    requires forall i :: 0 <= i < |ignored| ==> ignored[i] != []
    ensures IsTrimmed(v, RemoveFields(v, ignored), ignored)
    decreases |ignored|
  {
    if ignored != [] {
      var next := RemoveField(v, ignored[0]);
      RemoveFieldsTrims(next, ignored[1..]);
      forall path ensures IsTrimmedAt(v, RemoveFields(v, ignored), ignored, path) {
        RemoveFieldAt(v, ignored[0], path);
        assert IsTrimmedAt(next, RemoveFields(v, ignored), ignored[1..], path);
        assert (forall i :: 0 <= i < |ignored| ==> !IsUnder(path, ignored[i])) <==>
          !IsUnder(path, ignored[0]) && forall i :: 0 <= i < |ignored[1..]| ==> !IsUnder(path, ignored[1..][i]);
      }
    }
  }

  /** The same kind of value stands at the position in both trees, and the same leaf. */
  ghost predicate AlikeAt(v: Value, w: Value, path: seq<Step>) {
    && (At(v, path).Some? <==> At(w, path).Some?)
    && (At(v, path).Some? ==>
          var x, y := At(v, path).value, At(w, path).value;
          && (IsLeaf(x) || IsLeaf(y) ==> x == y) && (x.Obj? <==> y.Obj?)
          && (x.List? && y.List? ==> |x.items| == |y.items|))
  }

  lemma AlikeBelow(v: Value, w: Value, step: Step, x: Value, y: Value)
    requires forall path :: AlikeAt(v, w, path)
    requires At(v, [step]) == Some(x) && At(w, [step]) == Some(y)
    ensures forall path :: AlikeAt(x, y, path)
  {
    forall path ensures AlikeAt(x, y, path) {
      assert ([step] + path)[1..] == path && [step][1..] == [];
      assert AlikeAt(v, w, [step] + path);
    }
  }

  /** A tree is determined by what stands at its positions. */
  lemma {:induction false} PositionsDetermine(v: Value, w: Value)
    requires forall path :: AlikeAt(v, w, path)
    ensures v == w
  {
    assert AlikeAt(v, w, []);
    match v
    case List(items) =>
      forall i | 0 <= i < |items| ensures items[i] == w.items[i] {
        assert [Index(i)][1..] == [];
        AlikeBelow(v, w, Index(i), items[i], w.items[i]);
        PositionsDetermine(items[i], w.items[i]);
      }
      assert items == w.items;
    case Obj(fields) =>
      forall k ensures k in fields <==> k in w.fields {
        assert [Field(k)][1..] == [];
        assert At(v, [Field(k)]) == if k in fields then At(fields[k], []) else None;
        assert At(w, [Field(k)]) == if k in w.fields then At(w.fields[k], []) else None;
        assert AlikeAt(v, w, [Field(k)]);
      }
      forall k | k in fields ensures fields[k] == w.fields[k] {
        assert [Field(k)][1..] == [];
        AlikeBelow(v, w, Field(k), fields[k], w.fields[k]);
        PositionsDetermine(fields[k], w.fields[k]);
      }
      assert fields == w.fields;
    case _ =>
  }

  /** There is one such tree: removing the fields yields it, and nothing else is trimmed like it. */
  lemma TrimmedIsUnique(v: Value, w: Value, ignored: seq<seq<string>>)
    requires forall i :: 0 <= i < |ignored| ==> ignored[i] != []
    requires IsTrimmed(v, w, ignored)
    ensures w == RemoveFields(v, ignored)
  {
    RemoveFieldsTrims(v, ignored);
    forall path ensures AlikeAt(w, RemoveFields(v, ignored), path) {
      assert IsTrimmedAt(v, w, ignored, path) && IsTrimmedAt(v, RemoveFields(v, ignored), ignored, path);
    }
    PositionsDetermine(w, RemoveFields(v, ignored));
  }

  /** The order in which ignored fields are listed makes no difference. */
  lemma {:induction false} IgnoreOrderIrrelevant(v: Value, a: seq<seq<string>>, b: seq<seq<string>>)
    requires multiset(a) == multiset(b)
    requires forall i :: 0 <= i < |a| ==> a[i] != []
    requires forall i :: 0 <= i < |b| ==> b[i] != []
    ensures RemoveFields(v, a) == RemoveFields(v, b)
    decreases |a|
  {
    if a == [] {
      assert |multiset(b)| == |b|;
    } else {
      var i := MatchFirst(a, b);
      assert forall j :: 0 <= j < |a| - 1 ==> a[1..][j] == a[j + 1];
      IgnoreOrderIrrelevant(RemoveField(v, a[0]), a[1..], Without(b, i));
      PullForward(v, b, i);
    }
  }

  lemma MatchFirst<T>(a: seq<T>, b: seq<T>) returns (i: nat)
    requires a != [] && multiset(a) == multiset(b)
    ensures i < |b| && b[i] == a[0] && multiset(a[1..]) == multiset(Without(b, i))
  {
    assert a == [a[0]] + a[1..];
    assert a[0] in multiset(b);
    i :| 0 <= i < |b| && b[i] == a[0];
    WithoutMultiset(b, i);
    assert multiset(a[1..]) == multiset(a) - multiset{a[0]};
  }

  function Without<T>(s: seq<T>, i: nat): (r: seq<T>)
    requires i < |s|
    ensures |r| == |s| - 1
    ensures forall j :: 0 <= j < |r| ==> r[j] == if j < i then s[j] else s[j + 1]
  {
    s[..i] + s[i + 1..]
  }

  lemma WithoutMultiset<T>(s: seq<T>, i: nat)
    requires i < |s|
    ensures multiset(s) == multiset{s[i]} + multiset(Without(s, i))
  {
    assert s == s[..i] + [s[i]] + s[i + 1..];
  }

  lemma {:induction false} PullForward(v: Value, b: seq<seq<string>>, i: nat)
    requires i < |b| && forall j :: 0 <= j < |b| ==> b[j] != []
    ensures RemoveFields(v, b) == RemoveFields(RemoveField(v, b[i]), Without(b, i))
    decreases |b|
  {
    if i == 0 {
      assert Without(b, 0) == b[1..];
    } else {
      var rest := Without(b, i);
      assert Without(b[1..], i - 1) == rest[1..];
      assert RemoveFields(v, b) == RemoveFields(RemoveField(RemoveField(v, b[0]), b[i]), rest[1..]) by {
        PullForward(RemoveField(v, b[0]), b[1..], i - 1);
      }
      RemovalsCommute(v, b[0], b[i]);
    }
  }

  // ---- removeFields ----

  /** removeFields: what is left of live when map keys unknown to config go. */
  function Prune(config: Value, live: Value): Value {
    match (config, live)
    case (Obj(c), Obj(l)) => Obj(map k | k in l && k in c :: if l[k].Null? then l[k] else Prune(c[k], l[k]))
    case (List(c), List(l)) =>
      List(seq(|l|, i requires 0 <= i < |l| => if i < |c| && !l[i].Null? then Prune(c[i], l[i]) else l[i]))
    case _ => live
  }

  method PruneFields(config: Value, live: Value) returns (r: Value)
    ensures r == Prune(config, live)
    decreases live
  {
    match (config, live)
    case (Obj(c), Obj(l)) =>
      r := RemoveMapFields(c, l);
    case (List(c), List(l)) =>
      r := RemoveListFields(c, l);
    case _ =>
      r := live;
  }

  method RemoveMapFields(config: map<string, Value>, live: map<string, Value>) returns (r: Value)
    ensures r == Prune(Obj(config), Obj(live))
    decreases Obj(live), 0
  {
    var result: map<string, Value> := map[];
    var rest := config.Keys;
    while rest != {}
      invariant rest <= config.Keys
      invariant result.Keys == (config.Keys - rest) * live.Keys
      invariant forall k :: k in result ==> result[k] == if live[k].Null? then live[k] else Prune(config[k], live[k])
    {
      var k :| k in rest;
      if k in live {
        var v2 := live[k];
        if !v2.Null? {
          v2 := PruneFields(config[k], v2);
        }
        result := result[k := v2];
      }
      rest := rest - {k};
    }
    r := Obj(result);
    assert result == Prune(Obj(config), Obj(live)).fields;
  }

  method RemoveListFields(config: seq<Value>, live: seq<Value>) returns (r: Value)
    ensures r == Prune(List(config), List(live))
    decreases List(live), 0
  {
    var result: seq<Value> := [];
    for i := 0 to |live|
      invariant |result| == i
      invariant forall j :: 0 <= j < i ==> result[j] == if j < |config| && !live[j].Null? then Prune(config[j], live[j])
        else live[j]
    {
      var v2 := live[i];
      if i < |config| && !v2.Null? {
        v2 := PruneFields(config[i], v2);
      }
      result := result + [v2];
    }
    r := List(result);
    assert result == Prune(List(config), List(live)).items;
  }

  /** part is whole with some map entries left out, at any depth. */
  ghost predicate IsPart(part: Value, whole: Value) {
    match (part, whole)
    case (Obj(p), Obj(w)) => forall k :: k in p ==> k in w && IsPart(p[k], w[k])
    case (List(p), List(w)) => |p| == |w| && forall i :: 0 <= i < |p| ==> IsPart(p[i], w[i])
    case _ => part == whole
  }

  /** Wherever config has a value, v has only keys that config has. */
  ghost predicate Conforms(v: Value, config: Value) {
    match (v, config)
    case (Obj(f), Obj(c)) => forall k :: k in f ==> k in c && Conforms(f[k], c[k])
    case (List(f), List(c)) => forall i :: 0 <= i < |f| && i < |c| ==> Conforms(f[i], c[i])
    case _ => true
  }

  lemma {:induction false} IsPartReflexive(v: Value)
    ensures IsPart(v, v)
  {
    match v
    case Obj(f) => forall k | k in f ensures IsPart(f[k], f[k]) { IsPartReflexive(f[k]); }
    case List(f) => forall i | 0 <= i < |f| ensures IsPart(f[i], f[i]) { IsPartReflexive(f[i]); }
    case _ =>
  }

  /** The result is a part of live that conforms to config. */
  lemma {:induction false} PruneConforms(config: Value, live: Value)
    ensures IsPart(Prune(config, live), live) && Conforms(Prune(config, live), config)
    decreases live
  {
    match (config, live)
    case (Obj(c), Obj(l)) =>
      forall k | k in l && k in c && !l[k].Null? { PruneConforms(c[k], l[k]); }
    case (List(c), List(l)) =>
      forall i | 0 <= i < |l|
        ensures IsPart(Prune(config, live).items[i], l[i]) && (i < |c| ==> Conforms(Prune(config, live).items[i], c[i]))
      {
        if i < |c| && !l[i].Null? { PruneConforms(c[i], l[i]); } else { IsPartReflexive(l[i]); }
      }
    case _ => IsPartReflexive(live);
  }

  /** It is the largest such part: every other one is a part of it. */
  lemma {:induction false} PruneIsLargest(config: Value, live: Value, other: Value)
    requires IsPart(other, live) && Conforms(other, config)
    ensures IsPart(other, Prune(config, live))
    decreases live
  {
    match (config, live)
    case (Obj(c), Obj(l)) =>
      forall k | k in other.fields ensures IsPart(other.fields[k], Prune(config, live).fields[k]) {
        if !l[k].Null? { PruneIsLargest(c[k], l[k], other.fields[k]); }
      }
    case (List(c), List(l)) =>
      forall i | 0 <= i < |l| ensures IsPart(other.items[i], Prune(config, live).items[i]) {
        if i < |c| && !l[i].Null? { PruneIsLargest(c[i], l[i], other.items[i]); }
      }
    case _ =>
  }

  /** A live object that already conforms is left as it is; so pruning twice is pruning once. */
  lemma {:induction false} ConformingIsUnchanged(config: Value, live: Value)
    requires Conforms(live, config)
    ensures Prune(config, live) == live
    decreases live
  {
    match (config, live)
    case (Obj(c), Obj(l)) =>
      forall k | k in l && !l[k].Null? ensures Prune(c[k], l[k]) == l[k] { ConformingIsUnchanged(c[k], l[k]); }
      assert Prune(config, live).fields == l;
    case (List(c), List(l)) =>
      forall i | 0 <= i < |l| && i < |c| && !l[i].Null?
        ensures Prune(c[i], l[i]) == l[i]
      {
        ConformingIsUnchanged(c[i], l[i]);
      }
      assert Prune(config, live).items == l;
    case _ =>
  }

  lemma PruneIsProjection(config: Value, live: Value)
    ensures Prune(config, Prune(config, live)) == Prune(config, live)
    ensures Prune(live, live) == live
    ensures config.List? && live.List? ==> |Prune(config, live).items| == |live.items|
  {
    PruneConforms(config, live);
    ConformingIsUnchanged(config, Prune(config, live));
    ConformsReflexive(live);
    ConformingIsUnchanged(live, live);
  }

  lemma {:induction false} ConformsReflexive(v: Value)
    ensures Conforms(v, v)
  {
    match v
    case Obj(f) => forall k | k in f ensures Conforms(f[k], f[k]) { ConformsReflexive(f[k]); }
    case List(f) => forall i | 0 <= i < |f| ensures Conforms(f[i], f[i]) { ConformsReflexive(f[i]); }
    case _ =>
  }
}
