/**
 The walk always comes to an end: no state is stuck before every vertex has finished, and
 no run is longer than a fixed number of steps per vertex.
 */
module Progress {
  import opened Models
  import opened References
  import opened Reachability
  import opened Parsers
  import opened Graphs
  import opened Engine
  import opened Safety
  import opened Determined

  ghost predicate AllFinished(c: Config, s: State) {
    forall n :: n in Nodes(c) ==> n in s.phase && HasEnded(s.phase[n])
  }

  function Rank(p: Phase): nat {
    match p
    case Waiting => 0
    case Started => 1
    case Decided(_, _) => 2
    case Called(_, _) => 3
    case Published(_, _) => 4
    case _ => 5
  }

  // ---- No deadlock ----

  /** An enabled step in which nothing fails that need not. */
  ghost predicate IsHealthy(c: Config, s: State, e: Event) {
    && Enabled(c, s, e)
    && (e.Persist? ==> e.written)
    && (e.Start? && AllOk(NodeResource(c, s, e.n).attributes, EnvOf(c, s.ctx)) ==> e.outcome.Ok?)
  }

  /** The step a vertex under way can take. */
  lemma UnderWayCanMove(c: Config, s: State, n: string) returns (e: Event)
    requires Keyed(c) && Reachable(c, s) && n in Nodes(c)
    requires n in s.phase && !s.phase[n].Waiting? && !HasEnded(s.phase[n])
    requires IsPreview(c.op) ==> !s.phase[n].Called?
    ensures IsHealthy(c, s, e)
  {
    NodeFacts(c, s, n);
    e := match s.phase[n]
      case Started => Compute(n)
      case Decided(_, _) => if IsPreview(c.op) then Refresh(n) else Call(n)
      case Called(_, _) => Refresh(n)
      case _ => if IsPreview(c.op) then Order(n) else Persist(n, true);
  }

  /** ReplaceRef always has some outcome. */
  lemma SomeOutcome(v: Value, env: Env) returns (outcome: Reply<Value>)
    ensures MayYield(v, env, outcome)
    ensures AllOk(v, env) ==> outcome == Ok(Subst(v, env))
  {
    if AllOk(v, env) {
      outcome := Ok(Subst(v, env));
    } else {
      var s :| s in Strings(v) && !Leaf(env, s).Ok?;
      outcome := Leaf(env, s);
    }
  }

  /** A waiting vertex whose parents have finished can start or be skipped. */
  lemma WaitingCanMove(c: Config, s: State, n: string) returns (e: Event)
    requires Keyed(c) && Reachable(c, s) && n in Nodes(c) && n in s.phase && s.phase[n].Waiting?
    requires forall u :: u in Parents(c, n) ==> u in s.phase && HasEnded(s.phase[u])
    ensures IsHealthy(c, s, e)
  {
    NodeFacts(c, s, n);
    if ParentsOk(c, s, n) {
      var outcome := SomeOutcome(NodeResource(c, s, n).attributes, EnvOf(c, s.ctx));
      e := Start(n, outcome);
    } else {
      e := Skip(n);
    }
  }

  ghost function WaitingBefore(c: Config, s: State, n: string): set<string> {
    set u | u in Before(c.edges, n) && u in s.phase && s.phase[u].Waiting?
  }

  /** Among waiting vertices one is not behind another. */
  lemma {:induction false} FirstWaiting(c: Config, s: State, n: string) returns (m: string)
    requires WellFormed(c) && s.phase.Keys == Nodes(c) && n in Nodes(c) && s.phase[n].Waiting?
    ensures m in Nodes(c) && s.phase[m].Waiting?
    ensures forall u :: u in Parents(c, m) ==> !s.phase[u].Waiting?
    decreases |WaitingBefore(c, s, n)|
  {
    if u :| u in Parents(c, n) && s.phase[u].Waiting? {
      GraphIsAcyclic(c);
      EdgeReaches(c.edges, u, n);
      forall x | x in WaitingBefore(c, s, u) ensures x in WaitingBefore(c, s, n) {
        ReachesTransitive(c.edges, x, u, n);
      }
      assert u in WaitingBefore(c, s, n) && u !in WaitingBefore(c, s, u);
      ProperSubsetIsSmaller(WaitingBefore(c, s, u), WaitingBefore(c, s, n));
      m := FirstWaiting(c, s, u);
    } else {
      m := n;
    }
  }

  lemma GraphIsAcyclic(c: Config)
    requires WellFormed(c)
    ensures Acyclic(c.edges)
  {
    ApplyGraphOrders(c.spec, c.prior);
  }

  /** In a preview no vertex is ever between a runtime call and its publication. */
  lemma PreviewsDoNotCall(c: Config, s: State, n: string)
    requires Reachable(c, s) && IsPreview(c.op) && n in Nodes(c)
    ensures n in s.phase && !s.phase[n].Called?
  {
    forall t: State, e: Event | (n in t.phase && !t.phase[n].Called?) && Enabled(c, t, e)
      ensures n in Next(c, t, e).phase && !Next(c, t, e).phase[n].Called?
    {
    }
    HoldsAlways(c, s, (t: State) => n in t.phase && !t.phase[n].Called?);
  }

  /** Until every vertex has finished, some vertex can take a step, and nothing need fail that can succeed. */
  lemma NeverStuck(c: Config, s: State) returns (e: Event)
    requires WellFormed(c) && Reachable(c, s) && !AllFinished(c, s)
    ensures IsHealthy(c, s, e)
  {
    PhaseKeys(c, s);
    var n :| n in Nodes(c) && !HasEnded(s.phase[n]);
    if m :| m in Nodes(c) && !s.phase[m].Waiting? && !HasEnded(s.phase[m]) {
      if IsPreview(c.op) { PreviewsDoNotCall(c, s, m); }
      e := UnderWayCanMove(c, s, m);
    } else {
      var m := FirstWaiting(c, s, n);
      assert forall u :: u in Parents(c, m) ==> u in Nodes(c) && HasEnded(s.phase[u]);
      e := WaitingCanMove(c, s, m);
    }
  }

  lemma PhaseKeys(c: Config, s: State)
    requires Keyed(c) && Reachable(c, s)
    ensures s.phase.Keys == Nodes(c) && s.spec.Keys == c.spec.Keys && s.prior.Keys == c.prior.Keys
  {
    InvHolds(c, s);
  }

  // ---- Bounded runs ----

  ghost function Work(phase: map<string, Phase>, nodes: set<string>): nat {
    if nodes == {} then 0
    else
      var n := Pick(nodes);
      (if n in phase then Rank(phase[n]) else 0) + Work(phase, nodes - {n})
  }

  ghost function Pick(nodes: set<string>): string
    requires nodes != {}
    ensures Pick(nodes) in nodes
  {
    var n :| n in nodes; n
  }

  lemma {:induction false} WorkUpdate(phase: map<string, Phase>, nodes: set<string>, n: string, p: Phase)
    requires n in phase
    ensures Work(phase[n := p], nodes) == Work(phase, nodes) + if n in nodes then Rank(p) - Rank(phase[n]) else 0
  {
    if nodes != {} {
      WorkUpdate(phase, nodes - {Pick(nodes)}, n, p);
    }
  }

  lemma {:induction false} WorkIsBounded(phase: map<string, Phase>, nodes: set<string>)
    ensures Work(phase, nodes) <= 5 * |nodes|
  {
    if nodes != {} {
      WorkIsBounded(phase, nodes - {Pick(nodes)});
    }
  }

  lemma StepsDoWork(c: Config, s: State, e: Event)
    requires Steppable(c, s, e)
    ensures Work(Next(c, s, e).phase, Nodes(c)) > Work(s.phase, Nodes(c))
  {
    WorkUpdate(s.phase, Nodes(c), e.n, PhaseAfter(c, s, e));
  }

  lemma {:induction false} WorkAlongRun(c: Config, events: seq<Event>, states: seq<State>, i: nat)
    requires IsRun(c, events, states) && i < |states|
    ensures Work(states[i].phase, Nodes(c)) >= i
  {
    if i > 0 {
      WorkAlongRun(c, events, states, i - 1);
      StepsDoWork(c, states[i - 1], events[i - 1]);
    }
  }

  /** Every walk ends: no run has more than five steps for each resource. */
  lemma RunsAreBounded(c: Config, events: seq<Event>, states: seq<State>)
    requires IsRun(c, events, states)
    ensures |events| <= 5 * |Nodes(c)|
  {
    WorkAlongRun(c, events, states, |events|);
    WorkIsBounded(states[|events|].phase, Nodes(c));
  }

  // ---- What a failure stops ----

  /** A skipped vertex has a parent that failed or was skipped. */
  ghost predicate SkippedAt(c: Config, s: State, n: string) {
    n in s.phase && (s.phase[n].Skipped? ==>
      exists u :: u in Parents(c, n) && u in s.phase && WalkerFailed(s.phase[u]))
  }

  lemma SkippedAtStep(c: Config, s: State, e: Event, n: string)
    requires Enabled(c, s, e) && n in Nodes(c) && SkippedAt(c, s, n)
    ensures SkippedAt(c, Next(c, s, e), n)
  {
    if s.phase[n].Skipped? {
      var u :| u in Parents(c, n) && u in s.phase && WalkerFailed(s.phase[u]);
      PhaseOfOthers(c, s, e, u);
      PhaseOfOthers(c, s, e, n);
    } else if e.Skip? && e.n == n {
      var u :| u in Parents(c, n) && WalkerFailed(s.phase[u]);
      assert u != n;
    }
  }

  lemma SkippedHolds(c: Config, s: State, n: string)
    requires Reachable(c, s) && n in Nodes(c)
    ensures SkippedAt(c, s, n)
  {
    forall t: State, e: Event | SkippedAt(c, t, n) && Enabled(c, t, e) ensures SkippedAt(c, Next(c, t, e), n) {
      SkippedAtStep(c, t, e, n);
    }
    HoldsAlways(c, s, (t: State) => SkippedAt(c, t, n));
  }

  /** The vertex failed itself, and was not merely skipped. */
  predicate IsCulprit(p: Phase) {
    p.Failed? || p.Unsaved?
  }

  /** No vertex is skipped without one before it that failed. */
  lemma {:induction false} SkippedHasCause(c: Config, s: State, n: string) returns (u: string)
    requires WellFormed(c) && Reachable(c, s) && n in Nodes(c) && n in s.phase && s.phase[n].Skipped?
    ensures u in Nodes(c) && u in s.phase && IsCulprit(s.phase[u]) && Reaches(c.edges, u, n)
    decreases |Before(c.edges, n)|
  {
    SkippedHolds(c, s, n);
    var v :| v in Parents(c, n) && v in s.phase && WalkerFailed(s.phase[v]);
    EdgeReaches(c.edges, v, n);
    if s.phase[v].Skipped? {
      FewerBefore(c, v, n);
      u := SkippedHasCause(c, s, v);
      ReachesTransitive(c.edges, u, v, n);
    } else {
      u := v;
    }
  }

  lemma FewerBefore(c: Config, v: string, n: string)
    requires WellFormed(c) && Reaches(c.edges, v, n)
    ensures |Before(c.edges, v)| < |Before(c.edges, n)|
  {
    GraphIsAcyclic(c);
    forall x | x in Before(c.edges, v) ensures x in Before(c.edges, n) { ReachesTransitive(c.edges, x, v, n); }
    ReachesEndpoints(c.edges, v, n);
    assert v in Before(c.edges, n) && v !in Before(c.edges, v);
    ProperSubsetIsSmaller(Before(c.edges, v), Before(c.edges, n));
  }

  /** Nothing behind a vertex that failed is ever started, and when the walk has ended all of it was skipped. */
  lemma DescendantsAreSkipped(c: Config, s: State, u: string, n: string)
    requires WellFormed(c) && Reachable(c, s) && Reaches(c.edges, u, n)
    requires n in Nodes(c) && u in Nodes(c) && u in s.phase && WalkerFailed(s.phase[u])
    ensures n in s.phase && IsHeldBack(s.phase[n])
  {
    OrderHolds(c, s);
    BehindFailure(c, s, u, n);
  }

  /** Not started: still waiting, or skipped once its vertices before it have ended. */
  predicate IsHeldBack(p: Phase) {
    p.Waiting? || p.Skipped?
  }

  lemma BehindFailure(c: Config, s: State, u: string, n: string)
    requires WellFormed(c) && Ordered(c, s) && Reaches(c.edges, u, n)
    requires n in Nodes(c) && u in Nodes(c) && WalkerFailed(s.phase[u])
    ensures n in s.phase && IsHeldBack(s.phase[n])
  {
    NoRootAmong(c, u);
    if HasStarted(s.phase[n]) {
      AncestorsFinished(c, s, u, n);
    }
  }

  lemma NoRootAmong(c: Config, u: string)
    requires WellFormed(c) && u in Nodes(c)
    ensures u != ROOT
  {
  }

  // ---- Runs in which nothing fails ----

  /** The tree resolves in every index that has good attributes for the resources it refers to. */
  ghost predicate ResolvesAgainst(v: Value, good: Value -> bool, secrets: Option<string -> Reply<string>>) {
    forall index: ResourceIndex ::
      (forall k :: k in Refs(v) ==> k in index && index[k].Some? && good(index[k].value.attributes))
      ==> AllOk(v, Env(Resolve(index), secrets))
  }

  /**
   An apply over a runtime that may refuse deletions but nothing else, and that answers with good
   attributes, which are all that the references of the spec need.
   */
  ghost predicate OnlyDeletionsFail(c: Config, good: Value -> bool) {
    && c.op.Apply? && c.ignore == []
    && (forall n :: n in c.spec ==> ResolvesAgainst(c.spec[n].attributes, good, c.secrets))
    && (forall n :: n in c.spec && n in c.prior ==> good(c.prior[n].attributes))
    && (forall n, index :: n in c.prior && n !in c.spec ==>
         AllOk(c.prior[n].attributes, Env(Resolve(index), c.secrets)))
    && (forall n, plan, prior, live :: c.rt.read(n, plan, prior, live).Ok?)
    && (forall n, prior, plan, live :: c.rt.dryRun(n, prior, plan, live).Ok?)
    && (forall n, prior, plan, live :: IsGood(c.rt.apply(n, prior, plan, live).0, good))
    && (forall n, plan, live :: IsGood(c.rt.imported(n, plan, live), good))
    && (forall live, dry :: c.rt.diff(live, dry).Ok?)
  }

  predicate IsGood(reply: Reply<Value>, good: Value -> bool) {
    reply.Ok? && good(reply.value)
  }

  /** The vertex has not failed, panicked only if its deletion was refused, and otherwise has a good result. */
  ghost predicate HealthyAt(c: Config, s: State, n: string, good: Value -> bool) {
    && n in s.phase && !WalkerFailed(s.phase[n])
    && (s.phase[n].Panicked? ==> IsDeleteNode(c, n) && exists prior, live :: !c.rt.delete(n, prior, live).0.Ok?)
    && (n in c.spec && HasCalled(s.phase[n]) ==> s.phase[n].result.Some? && good(s.phase[n].result.value.attributes))
  }

  lemma HealthyDecision(c: Config, n: string, plan: Option<Resource>, prior: Option<Resource>, live: Attributes,
                        good: Value -> bool)
    requires OnlyDeletionsFail(c, good)
    ensures Decide(c, n, plan, prior, live).Ok?
  {
  }

  lemma HealthyCall(c: Config, n: string, action: ActionType, plan: Option<Resource>, prior: Option<Resource>,
                    live: Attributes,
                    good: Value -> bool)
    requires OnlyDeletionsFail(c, good) && n in Nodes(c) && (action.Delete? <==> IsDeleteNode(c, n))
    requires (plan.Some? <==> n in c.spec) && (n in c.spec && prior.Some? ==> good(prior.value.attributes))
    ensures var r := CallRuntime(c, n, action, plan, prior, live).0;
      || (r.Ok? && (n in c.spec ==> r.value.Some? && good(r.value.value.attributes)))
      || (r.Panic? && IsDeleteNode(c, n) && !c.rt.delete(n, AttributesOf(prior), live).0.Ok?)
  {
    if plan.Some? {
      assert IsGood(c.rt.apply(n, AttributesOf(prior), plan.value.attributes, live).0, good);
      assert IsGood(c.rt.imported(n, plan.value.attributes, live), good);
    }
  }

  /** A vertex that can start has all it refers to, with good attributes. */
  lemma HealthyRef(c: Config, s: State, n: string, k: string, good: Value -> bool)
    requires WellFormed(c) && Reachable(c, s) && Healthy(c, s, good)
    requires n in c.spec && ParentsOk(c, s, n) && k in Refs(c.spec[n].attributes)
    ensures k in s.ctx && s.ctx[k].Some? && good(s.ctx[k].value.attributes)
  {
    ReferencesArePublished(c, s, n, k);
    assert HealthyAt(c, s, k, good);
    NodeFacts(c, s, k);
  }

  lemma HealthyStart(c: Config, s: State, e: Event, good: Value -> bool)
    requires WellFormed(c) && Reachable(c, s) && Healthy(c, s, good)
    requires OnlyDeletionsFail(c, good) && IsHealthy(c, s, e) && FactsAt(c, s, e.n) && e.Start?
    ensures PhaseAfter(c, s, e).Started?
  {
    var n := e.n;
    if n in c.spec {
      forall k | k in Refs(c.spec[n].attributes)
        ensures k in s.ctx && s.ctx[k].Some? && good(s.ctx[k].value.attributes)
      {
        HealthyRef(c, s, n, k, good);
      }
      assert ResolvesAgainst(c.spec[n].attributes, good, c.secrets);
    }
    assert AllOk(NodeResource(c, s, n).attributes, EnvOf(c, s.ctx));
  }

  lemma HealthyDecided(c: Config, s: State, e: Event, good: Value -> bool)
    requires OnlyDeletionsFail(c, good) && IsHealthy(c, s, e) && e.Compute?
    ensures PhaseAfter(c, s, e).Decided?
  {
    HealthyDecision(c, e.n, PlanOf(c, s, e.n), Get(s.prior, e.n), Get(s.live, e.n), good);
  }

  lemma HealthyPhase(c: Config, s: State, e: Event, good: Value -> bool)
    requires c.op.Apply? && IsHealthy(c, s, e) && HealthyAt(c, s, e.n, good)
    requires !e.Skip? && !e.Call? && (e.Start? ==> PhaseAfter(c, s, e).Started?)
    requires (e.Compute? ==> PhaseAfter(c, s, e).Decided?)
    ensures HealthyAt(c, Next(c, s, e), e.n, good)
  {
  }

  lemma HealthyCalled(c: Config, s: State, e: Event, good: Value -> bool)
    requires OnlyDeletionsFail(c, good) && IsHealthy(c, s, e) && FactsAt(c, s, e.n) && e.Call?
    ensures HealthyAt(c, Next(c, s, e), e.n, good)
  {
    HealthyCall(c, e.n, s.phase[e.n].action, PlanOf(c, s, e.n), Get(s.prior, e.n), Get(s.live, e.n), good);
  }

  ghost predicate Healthy(c: Config, s: State, good: Value -> bool) {
    forall n :: n in Nodes(c) ==> HealthyAt(c, s, n, good)
  }

  lemma HealthyStep(c: Config, s: State, e: Event, good: Value -> bool)
    requires WellFormed(c) && OnlyDeletionsFail(c, good) && Reachable(c, s) && Healthy(c, s, good) && IsHealthy(c, s, e)
    ensures Healthy(c, Next(c, s, e), good)
  {
    NodeFacts(c, s, e.n);
    HealthyAtStep(c, s, e, good);
    forall n | n in Nodes(c) ensures HealthyAt(c, Next(c, s, e), n, good) {
      HealthyElsewhere(c, s, e, n, good);
    }
  }

  lemma HealthyAtStep(c: Config, s: State, e: Event, good: Value -> bool)
    requires WellFormed(c) && OnlyDeletionsFail(c, good) && Reachable(c, s) && Healthy(c, s, good) && IsHealthy(c, s, e)
    requires FactsAt(c, s, e.n)
    ensures HealthyAt(c, Next(c, s, e), e.n, good)
  {
    assert HealthyAt(c, s, e.n, good);
    NothingToSkip(c, s, e, good);
    if e.Call? {
      HealthyCalled(c, s, e, good);
    } else {
      if e.Start? { HealthyStart(c, s, e, good); }
      if e.Compute? { HealthyDecided(c, s, e, good); }
      HealthyPhase(c, s, e, good);
    }
  }

  lemma HealthyElsewhere(c: Config, s: State, e: Event, n: string, good: Value -> bool)
    requires Steppable(c, s, e) && n in Nodes(c) && HealthyAt(c, s, n, good)
    requires HealthyAt(c, Next(c, s, e), e.n, good)
    ensures HealthyAt(c, Next(c, s, e), n, good)
  {
  }

  lemma NothingToSkip(c: Config, s: State, e: Event, good: Value -> bool)
    requires Enabled(c, s, e) && Healthy(c, s, good)
    ensures !e.Skip?
  {
    forall u | u in Parents(c, e.n) ensures u in s.phase && !WalkerFailed(s.phase[u]) {
      assert HealthyAt(c, s, u, good);
    }
  }

  /**
   From any point at which nothing has failed, the walk can be finished without a failure. A vertex
   may end in a panic, but only one whose deletion was refused.
   */
  lemma {:induction false} FinishHealthily(c: Config, s: State, good: Value -> bool) returns (t: State)
    requires WellFormed(c) && OnlyDeletionsFail(c, good) && Reachable(c, s) && Healthy(c, s, good)
    ensures Reachable(c, t) && WalkSucceeds(c, t) && Healthy(c, t, good)
    decreases 5 * |Nodes(c)| - Work(s.phase, Nodes(c))
  {
    if AllFinished(c, s) {
      t := s;
      HealthyWalkSucceeds(c, s, good);
    } else {
      var e := NeverStuck(c, s);
      HealthyStep(c, s, e, good);
      OneMoreStep(c, s, e);
      StepsDoWork(c, s, e);
      WorkIsBounded(Next(c, s, e).phase, Nodes(c));
      t := FinishHealthily(c, Next(c, s, e), good);
    }
  }

  lemma HealthyWalkSucceeds(c: Config, s: State, good: Value -> bool)
    requires AllFinished(c, s) && Healthy(c, s, good)
    ensures WalkSucceeds(c, s)
  {
    forall n | n in Nodes(c) ensures n in s.phase && WalkerOk(s.phase[n]) { assert HealthyAt(c, s, n, good); }
  }
}
