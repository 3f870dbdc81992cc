/**
 What becomes of a resource, told before the operation begins: for a resource with nothing to
 resolve, its end in every run follows from the inputs, and so does what is recorded of it.
 */
module Outcomes {
  import opened Models
  import opened References
  import opened Parsers
  import opened Engine
  import opened Safety
  import opened Resolved
  import opened Determined
  import opened Decisions

  /** The resource a vertex starts with. */
  ghost function OwnResource(c: Config, n: string): Resource
    requires n in Nodes(c)
  {
    if n in c.spec then c.spec[n] else c.prior[n]
  }

  /** PreExecute has nothing to replace in the resource. */
  ghost predicate NothingToResolve(c: Config, n: string)
    requires n in Nodes(c)
  {
    IsDestroy(c.op)
    || forall t :: t in Strings(OwnResource(c, n).attributes) ==> !IsRef(t) && (IsSecured(t) ==> c.secrets.None?)
  }

  /** What reading, comparing and calling the runtime come to, on the inputs of the operation. */
  ghost function FateOf(c: Config, n: string): Reply<Option<Resource>> {
    var plan, prior, live := Get(c.spec, n), Get(c.prior, n), Get(c.live, n);
    match Decide(c, n, plan, prior, live)
    case Err(e) => Err(e)
    case Panic => Panic
    case Ok(d) => CallRuntime(c, n, d.action, plan, prior, live).0
  }

  /** The vertex has come to its fate, if it has come to any. */
  ghost predicate FollowsFate(c: Config, s: State, n: string)
    requires n in s.phase
  {
    && (s.phase[n].Panicked? ==> FateOf(c, n).Panic?)
    && (s.phase[n].Failed? ==> FateOf(c, n).Err?)
    && (HasCalled(s.phase[n]) ==> FateOf(c, n) == Ok(s.phase[n].result))
  }

  ghost predicate Untouched(c: Config, s: State, n: string) {
    Get(s.spec, n) == Get(c.spec, n) && Get(s.prior, n) == Get(c.prior, n)
  }

  lemma StartsUnchanged(c: Config, s: State, e: Event)
    requires Steppable(c, s, e) && Enabled(c, s, e) && e.Start? && NothingToResolve(c, e.n) && Untouched(c, s, e.n)
    ensures e.outcome == Ok(OwnResource(c, e.n).attributes)
  {
    var v := OwnResource(c, e.n).attributes;
    assert NodeResource(c, s, e.n) == OwnResource(c, e.n);
    InertUnchanged(v, EnvOf(c, s.ctx));
    AllOkDecides(v, EnvOf(c, s.ctx), e.outcome);
  }

  lemma FateStep(c: Config, s: State, e: Event, n: string)
    requires !IsPreview(c.op) && Enabled(c, s, e) && n in Nodes(c) && NothingToResolve(c, n)
    requires Untouched(c, s, n) && FollowsFate(c, s, n) && DeterminedAt(c, s, n) && DeterminedAt(c, Next(c, s, e), n)
    ensures Untouched(c, Next(c, s, e), n) && FollowsFate(c, Next(c, s, e), n)
  {
    if e.n == n && e.Start? {
      StartsUnchanged(c, s, e);
    }
  }

  /** In every run a resource with nothing to resolve meets the fate its inputs give it. */
  lemma FateIsSealed(c: Config, s: State, n: string)
    requires Keyed(c) && Reachable(c, s) && !IsPreview(c.op) && n in Nodes(c) && NothingToResolve(c, n)
    ensures n in s.phase && FollowsFate(c, s, n)
  {
    forall t: State, e: Event | Reachable(c, t) && (n in t.phase && Untouched(c, t, n) && FollowsFate(c, t, n))
      && Enabled(c, t, e)
      ensures Untouched(c, Next(c, t, e), n) && FollowsFate(c, Next(c, t, e), n)
    {
      VertexIsDetermined(c, t, n);
      OneMoreStep(c, t, e);
      VertexIsDetermined(c, Next(c, t, e), n);
      FateStep(c, t, e, n);
    }
    HoldsAlways(c, s, (t: State) => n in t.phase && Untouched(c, t, n) && FollowsFate(c, t, n));
  }

  /**
   A deletion on the inputs: after an operation that reports no error, a prior-only resource recorded
   with plain values is still recorded if and only if reading it panics or the runtime refuses the deletion.
   */
  lemma DeletionIsRecorded(c: Config, s: State, n: string)
    requires Keyed(c) && Reachable(c, s) && !IsPreview(c.op) && WalkSucceeds(c, s)
    requires IsDeleteNode(c, n) && NothingToResolve(c, n)
    ensures var recorded, live := Some(c.prior[n].attributes), Get(c.live, n);
      n in Latest(c, s) <==> c.rt.read(n, None, recorded, live).Panic? || !c.rt.delete(n, recorded, live).0.Ok?
  {
    NodeFacts(c, s, n);
    FateIsSealed(c, s, n);
    assert FateOf(c, n).Panic? <==> s.phase[n].Panicked?;
    VertexIsDetermined(c, s, n);
  }

  /**
   The recorded IDs on the inputs: when everything that is created or deleted has nothing to resolve,
   an operation that reports no error records the spec's IDs if and only if none of it comes to a panic.
   */
  lemma RecordedIdsOnInputs(c: Config, s: State)
    requires Keyed(c) && Reachable(c, s) && !IsPreview(c.op) && WalkSucceeds(c, s)
    requires forall n :: n in Nodes(c) && (n in c.spec <==> n !in c.prior) ==> NothingToResolve(c, n)
    ensures Latest(c, s).Keys == c.spec.Keys
      <==> forall n :: n in Nodes(c) && (n in c.spec <==> n !in c.prior) ==> !FateOf(c, n).Panic?
  {
    RecordedIds(c, s);
    forall n | n in Nodes(c) && (n in c.spec <==> n !in c.prior)
      ensures PanickedOutOfStep(c, s, n) <==> FateOf(c, n).Panic?
    {
      FateIsSealed(c, s, n);
      assert n in s.phase && WalkerOk(s.phase[n]);
    }
  }

  // ---- No error goes unreported ----

  /** The inputs lead to one action at most. */
  lemma ActionIsUnique(c: Config, n: string, plan: Option<Resource>, prior: Option<Resource>, live: Attributes,
                       a: ActionType, b: ActionType)
    requires ActionFollows(c, n, plan, prior, live, a) && ActionFollows(c, n, plan, prior, live, b)
    ensures a == b
  {
    if ComparedAs(c, n, plan, prior, live, Ok(true)) && ComparedAs(c, n, plan, prior, live, Ok(false)) {
      ComparedOnce(c, n, plan, prior, live, Ok(true), Ok(false));
    }
  }

  /** The runtime refuses what the inputs lead to: to create or update the resource, or to adopt it. */
  ghost predicate CallErrs(c: Config, n: string, plan: Resource, prior: Option<Resource>, live: Attributes) {
    || (Leads(c, n, Some(plan), prior, live, Create) && ApplyOf(c, n, plan, prior, live).0.Err?)
    || (Leads(c, n, Some(plan), prior, live, Update) && ApplyOf(c, n, plan, prior, live).0.Err?)
    || (Leads(c, n, Some(plan), prior, live, UnChange) && prior.None? && c.rt.imported(n, plan.attributes, live).Err?)
  }

  ghost predicate Leads(c: Config, n: string, plan: Option<Resource>, prior: Option<Resource>, live: Attributes,
                        action: ActionType)
  {
    !DecisionPanics(c, n, plan, prior, live) && ActionFollows(c, n, plan, prior, live, action)
  }

  /** On its inputs the resource meets an error: on the way to its action, or when the runtime refuses it. */
  ghost predicate MeetsError(c: Config, n: string) {
    var plan, prior, live := Get(c.spec, n), Get(c.prior, n), Get(c.live, n);
    DecisionErrs(c, n, plan, prior, live) || (plan.Some? && CallErrs(c, n, plan.value, prior, live))
  }

  lemma FateErrs(c: Config, n: string)
    requires n in Nodes(c) && Keyed(c)
    ensures FateOf(c, n).Err? <==> MeetsError(c, n)
  {
    var plan, prior, live := Get(c.spec, n), Get(c.prior, n), Get(c.live, n);
    DecideMeans(c, n, plan, prior, live);
    var d := Decide(c, n, plan, prior, live);
    if d.Ok? {
      forall a | ActionFollows(c, n, plan, prior, live, a) ensures a == d.value.action {
        ActionIsUnique(c, n, plan, prior, live, a, d.value.action);
      }
      CallMeans(c, n, d.value.action, plan, prior, live);
    }
  }

  /**
   On the inputs: an operation that reports no error met none. No resource with nothing to resolve had
   its read, dry run, comparison, apply or import refused.
   */
  lemma SuccessMeansAccepted(c: Config, s: State, n: string)
    requires Keyed(c) && Reachable(c, s) && !IsPreview(c.op) && WalkSucceeds(c, s)
    requires n in Nodes(c) && NothingToResolve(c, n)
    ensures !MeetsError(c, n)
  {
    FateIsSealed(c, s, n);
    FateErrs(c, n);
    assert WalkerOk(s.phase[n]);
  }
}
