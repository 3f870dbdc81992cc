/**
 What the decision about a resource and the call that follows mean, in terms of the runtime's own
 answers: which answer makes which action, and which error ends the vertex.
 */
module Decisions {
  import opened Models
  import opened References
  import opened Resolution
  import opened Engine
  import Fields

  // ---- Ignored fields ----

  /** The ignored fields as key paths: what their dots separate. */
  ghost predicate ArePaths(ignore: seq<string>, paths: seq<seq<string>>) {
    && |paths| == |ignore|
    && forall i :: 0 <= i < |ignore| ==> paths[i] != [] && NoDots(paths[i]) && Join(paths[i], '.') == ignore[i]
  }

  /** Splitting the ignored fields at their dots gives their key paths, and there are no others. */
  lemma SplitAllMeans(ignore: seq<string>, paths: seq<seq<string>>)
    ensures ArePaths(ignore, paths) <==> paths == SplitAll(ignore)
  {
    forall i | 0 <= i < |ignore|
      ensures SplitAll(ignore)[i] != [] && NoDots(SplitAll(ignore)[i]) && Join(SplitAll(ignore)[i], '.') == ignore[i]
    {
      SplitJoin(ignore[i], '.');
      forall j | 0 <= j < |Split(ignore[i], '.')| ensures '.' !in Split(ignore[i], '.')[j] {
        SplitParts(ignore[i], '.', j);
      }
    }
    if ArePaths(ignore, paths) {
      forall i | 0 <= i < |ignore| ensures paths[i] == SplitAll(ignore)[i] { SplitOfJoin(paths[i], '.'); }
    }
  }

  /** w is v without exactly what the ignored fields name. */
  ghost predicate IsWithout(ignore: seq<string>, v: Value, w: Value) {
    exists paths :: ArePaths(ignore, paths) && Fields.IsTrimmed(v, w, paths)
  }

  lemma WithoutMeans(ignore: seq<string>, v: Value, w: Value)
    ensures IsWithout(ignore, v, w) <==> w == Fields.RemoveFields(v, SplitAll(ignore))
  {
    SplitAllMeans(ignore, SplitAll(ignore));
    Fields.RemoveFieldsTrims(v, SplitAll(ignore));
    if IsWithout(ignore, v, w) {
      var paths :| ArePaths(ignore, paths) && Fields.IsTrimmed(v, w, paths);
      SplitAllMeans(ignore, paths);
      Fields.TrimmedIsUnique(v, w, paths);
    }
  }

  // ---- The comparison ----

  /** The reply to the question whether the live resource, which may be missing, is as its dry run. */
  ghost predicate Answers(rt: Runtime, ignore: seq<string>, live: Attributes, dry: Value, reply: Reply<bool>) {
    if ignore == [] then reply == rt.diff(live, dry)
    else if live.None? then reply.Panic?
    else exists x, y :: IsWithout(ignore, live.value, x) && IsWithout(ignore, dry, y) && reply == rt.diff(Some(x), y)
  }

  lemma CompareMeans(rt: Runtime, ignore: seq<string>, live: Attributes, dry: Value, reply: Reply<bool>)
    ensures Answers(rt, ignore, live, dry, reply) <==> reply == Compare(rt, ignore, live, dry)
  {
    var paths := SplitAll(ignore);
    forall w ensures IsWithout(ignore, dry, w) <==> w == Fields.RemoveFields(dry, paths) {
      WithoutMeans(ignore, dry, w);
    }
    if live.Some? {
      forall w ensures IsWithout(ignore, live.value, w) <==> w == Fields.RemoveFields(live.value, paths) {
        WithoutMeans(ignore, live.value, w);
      }
    }
    if ignore == [] {
      assert paths == [];
      assert Fields.RemoveFields(dry, []) == dry;
      assert live.Some? ==> Fields.RemoveFields(live.value, []) == live.value;
    } else if live.Some? {
      assert IsWithout(ignore, dry, Fields.RemoveFields(dry, paths));
      assert IsWithout(ignore, live.value, Fields.RemoveFields(live.value, paths));
    }
  }

  // ---- The decision ----

  /** The three answers a decision rests on. */
  function ReadOf(c: Config, n: string, plan: Option<Resource>, prior: Option<Resource>, live: Attributes)
    : Reply<Attributes>
  {
    c.rt.read(n, if plan.Some? then Some(plan.value.attributes) else None,
              if prior.Some? then Some(prior.value.attributes) else None, live)
  }

  function DryRunOf(c: Config, n: string, plan: Resource, prior: Option<Resource>, live: Attributes): Reply<Value> {
    c.rt.dryRun(n, if prior.Some? then Some(prior.value.attributes) else None, plan.attributes, live)
  }

  /** A plan that is recorded or live is compared; any other is created. */
  ghost predicate IsCompared(c: Config, plan: Option<Resource>, prior: Option<Resource>, read: Attributes) {
    plan.Some? && !c.op.Destroy? && !c.op.DestroyPreview? && (prior.Some? || read.Some?)
  }

  /** The comparison of a plan comes out as this. */
  ghost predicate ComparedAs(c: Config, n: string, plan: Option<Resource>, prior: Option<Resource>, live: Attributes,
                             reply: Reply<bool>)
  {
    var read := ReadOf(c, n, plan, prior, live);
    && read.Ok? && IsCompared(c, plan, prior, read.value)
    && var dry := DryRunOf(c, n, plan.value, prior, live);
       dry.Ok? && Answers(c.rt, c.ignore, read.value, dry.value, reply)
  }

  /** Reading, dry run or comparison ends in an error; or in a panic. */
  ghost predicate DecisionErrs(c: Config, n: string, plan: Option<Resource>, prior: Option<Resource>,
                               live: Attributes)
  {
    var read := ReadOf(c, n, plan, prior, live);
    || read.Err?
    || (read.Ok? && IsCompared(c, plan, prior, read.value) && DryRunOf(c, n, plan.value, prior, live).Err?)
    || exists e :: ComparedAs(c, n, plan, prior, live, Err(e))
  }

  ghost predicate DecisionPanics(c: Config, n: string, plan: Option<Resource>, prior: Option<Resource>,
                                 live: Attributes)
  {
    var read := ReadOf(c, n, plan, prior, live);
    || read.Panic?
    || (read.Ok? && IsCompared(c, plan, prior, read.value) && DryRunOf(c, n, plan.value, prior, live).Panic?)
    || ComparedAs(c, n, plan, prior, live, Panic)
  }

  /** The action decided on, from the answers alone. */
  ghost predicate ActionFollows(c: Config, n: string, plan: Option<Resource>, prior: Option<Resource>, live: Attributes,
                                action: ActionType)
  {
    match action
    case Delete => plan.None? || c.op.Destroy? || c.op.DestroyPreview?
    case Create => plan.Some? && !c.op.Destroy? && !c.op.DestroyPreview? && prior.None?
                   && ReadOf(c, n, plan, prior, live) == Ok(None)
    case UnChange => ComparedAs(c, n, plan, prior, live, Ok(true))
    case Update => ComparedAs(c, n, plan, prior, live, Ok(false))
  }

  /** What a preview shows: the plan, if new or to be deleted, and otherwise the dry run without the ignored fields. */
  ghost predicate DryRunFollows(c: Config, n: string, plan: Option<Resource>, prior: Option<Resource>, live: Attributes,
                                action: ActionType, dryRun: Option<Resource>)
  {
    match action
    case Delete => dryRun == plan
    case Create => dryRun == plan
    case _ =>
      plan.Some? && exists w ::
        DryRunOf(c, n, plan.value, prior, live).Ok? &&
        IsWithout(c.ignore, DryRunOf(c, n, plan.value, prior, live).value, w) &&
        dryRun == Some(plan.value.(attributes := w))
  }

  /** A decision follows from the runtime's answers: what it is, and when it fails. */
  lemma DecideMeans(c: Config, n: string, plan: Option<Resource>, prior: Option<Resource>, live: Attributes)
    ensures var d := Decide(c, n, plan, prior, live);
      && (d.Err? <==> DecisionErrs(c, n, plan, prior, live))
      && (d.Panic? <==> DecisionPanics(c, n, plan, prior, live))
      && (d.Ok? ==>
            && ActionFollows(c, n, plan, prior, live, d.value.action)
            && DryRunFollows(c, n, plan, prior, live, d.value.action, d.value.dryRun))
  {
    var read := ReadOf(c, n, plan, prior, live);
    if read.Ok? && IsCompared(c, plan, prior, read.value) && DryRunOf(c, n, plan.value, prior, live).Ok? {
      var dry := DryRunOf(c, n, plan.value, prior, live).value;
      forall reply
        ensures Answers(c.rt, c.ignore, read.value, dry, reply) <==>
          reply == Compare(c.rt, c.ignore, read.value, dry)
      {
        CompareMeans(c.rt, c.ignore, read.value, dry, reply);
      }
      WithoutMeans(c.ignore, dry, Fields.RemoveFields(dry, SplitAll(c.ignore)));
      var compared := Compare(c.rt, c.ignore, read.value, dry);
      assert ComparedAs(c, n, plan, prior, live, compared);
    }
  }

  // ---- The call ----

  /** The reply a call rests on, for an action that changes or adopts the resource of a plan. */
  function ApplyOf(c: Config, n: string, plan: Resource, prior: Option<Resource>, live: Attributes)
    : (Reply<Value>, Attributes)
  {
    c.rt.apply(n, if prior.Some? then Some(prior.value.attributes) else None, plan.attributes, live)
  }

  /**
   An error of apply or import is an error of the call, and only a panic is a panic; a success records
   the plan with the attributes returned. A resource left alone is recorded as it was, without a call.
   A deletion ends in nothing or, if refused, in a panic.
   */
  ghost predicate CallFollows(c: Config, n: string, action: ActionType, plan: Option<Resource>, prior: Option<Resource>,
                              live: Attributes, r: Reply<Option<Resource>>, live': Attributes)
  {
    match action
    case Delete =>
      var (reply, left) := c.rt.delete(n, if prior.Some? then Some(prior.value.attributes) else None, live);
      live' == left && r == if reply.Ok? then Ok(None) else Panic
    case UnChange =>
      plan.Some? && live' == live &&
      (if prior.Some? then r == Ok(prior)
       else FollowsReply(r, plan.value, c.rt.imported(n, plan.value.attributes, live)))
    case _ =>
      plan.Some? && live' == ApplyOf(c, n, plan.value, prior, live).1 &&
      FollowsReply(r, plan.value, ApplyOf(c, n, plan.value, prior, live).0)
  }

  ghost predicate FollowsReply(r: Reply<Option<Resource>>, plan: Resource, reply: Reply<Value>) {
    && (r.Err? <==> reply.Err?) && (r.Panic? <==> reply.Panic?)
    && (reply.Ok? ==> r == Ok(Some(plan.(attributes := reply.value))))
  }

  lemma CallMeans(c: Config, n: string, action: ActionType, plan: Option<Resource>, prior: Option<Resource>,
                  live: Attributes)
    requires action.Delete? || plan.Some?
    ensures var (r, live') := CallRuntime(c, n, action, plan, prior, live);
      CallFollows(c, n, action, plan, prior, live, r, live')
  {
  }
}
