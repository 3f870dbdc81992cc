/**
 Resources and the tree-shaped values in their attributes.
 */
module Models {

  datatype Option<+T> = None | Some(value: T)

  /**
   The outcome of a Go call: a result, an error status, or a panic that unwinds to the
   nearest deferred recover.
   */
  datatype Reply<+T> = Ok(value: T) | Err(error: Error) | Panic

  datatype Error =
    | ResourceNotFound(key: string)
    | AttributesAreNil(key: string)
    | ValueNotFound(path: string)
    | SecretUnavailable
    | RuntimeFailure

  /** A decoded JSON or YAML value. Scalar stands for a number or a boolean. */
  datatype Value =
    | Null
    | Scalar(id: int)
    | Str(text: string)
    | List(items: seq<Value>)
    | Obj(fields: map<string, Value>)

  /** Nil attributes are Null; any other attributes are an Obj. */
  datatype Resource = Resource(id: string, attributes: Value, dependsOn: seq<string>)

  datatype ActionType = UnChange | Create | Update | Delete

  datatype OperationType = Apply | ApplyPreview | Destroy | DestroyPreview

  function Elements<T>(s: seq<T>): set<T> {
    set x | x in s
  }

  ghost predicate NoDuplicates<T>(s: seq<T>) {
    forall i, j :: 0 <= i < j < |s| ==> s[i] != s[j]
  }

  /** One possible order in which a Go range visits the keys of a map. */
  ghost predicate Enumerates(order: seq<string>, keys: set<string>) {
    NoDuplicates(order) && Elements(order) == keys
  }

  /** All strings that occur as values in the tree. */
  function Strings(v: Value): set<string> {
    match v
    case Str(text) => {text}
    case List(items) => set x, s | x in items && s in Strings(x) :: s
    case Obj(fields) => set k, s | k in fields && s in Strings(fields[k]) :: s
    case _ => {}
  }

  /** A position in a tree: map keys and list indices from the root. */
  datatype Step = Field(name: string) | Index(i: nat)

  function At(v: Value, path: seq<Step>): (r: Option<Value>) {
    if path == [] then Some(v)
    else match (v, path[0])
      case (List(items), Index(i)) => if i < |items| then At(items[i], path[1..]) else None
      case (Obj(fields), Field(name)) => if name in fields then At(fields[name], path[1..]) else None
      case _ => None
  }

  lemma {:induction false} StringsAreAtPaths(v: Value, s: string) returns (path: seq<Step>)
    requires s in Strings(v)
    ensures At(v, path) == Some(Str(s))
  {
    match v
    case Str(_) => path := [];
    case List(items) =>
      var x :| x in items && s in Strings(x);
      var i :| 0 <= i < |items| && items[i] == x;
      var rest := StringsAreAtPaths(x, s);
      path := [Index(i)] + rest;
      assert path[1..] == rest;
    case Obj(fields) =>
      var k :| k in fields && s in Strings(fields[k]);
      var rest := StringsAreAtPaths(fields[k], s);
      path := [Field(k)] + rest;
      assert path[1..] == rest;
  }
}
