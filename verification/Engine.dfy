/**
 The concurrent walk over the graph as a system of steps. Every vertex runs Execute in its own
 goroutine once the vertices its edges come from have finished; what it shares with the others it
 touches in separate, atomic steps, and the steps of different vertices interleave freely.
 */
module Engine {
  import opened Models
  import opened References
  import opened Reachability
  import opened Parsers
  import opened Graphs
  import Fields

  type Attributes = Option<Value>

  /**
   A deterministic runtime. Every call concerns one resource and sees only that resource: its ID,
   its planned and recorded attributes, and its live state. The resource a call returns carries the
   planned ID and dependencies, so only attributes are modelled. apply and delete also yield the
   live state they leave behind; read, dryRun and imported change nothing. diff tells whether a
   live and a dry-run resource are equal.
   */
  datatype Runtime = Runtime(
    read: (string, Attributes, Attributes, Attributes) -> Reply<Attributes>,
    dryRun: (string, Attributes, Value, Attributes) -> Reply<Value>,
    apply: (string, Attributes, Value, Attributes) -> (Reply<Value>, Attributes),
    imported: (string, Value, Attributes) -> Reply<Value>,
    delete: (string, Attributes, Attributes) -> (Reply<()>, Attributes),
    diff: (Attributes, Value) -> Reply<bool>)

  /** One operation: its inputs as the parsers leave them, and the world it starts in. */
  datatype Config = Config(
    op: OperationType,
    spec: Index,
    prior: Index,
    edges: Edges,
    live: map<string, Value>,
    serial: nat,
    rt: Runtime,
    secrets: Option<string -> Reply<string>>,
    ignore: seq<string>)

  ghost function Nodes(c: Config): set<string> {
    c.spec.Keys + c.prior.Keys
  }

  ghost predicate IsDeleteNode(c: Config, n: string) {
    n in c.prior && n !in c.spec
  }

  predicate IsPreview(op: OperationType) {
    op.ApplyPreview? || op.DestroyPreview?
  }

  predicate IsDestroy(op: OperationType) {
    op.Destroy? || op.DestroyPreview?
  }

  /** The inputs are what NewApplyGraph or NewDestroyGraph accepted and linked, and the walk is over their graph. */
  ghost predicate WellFormed(c: Config) {
    && Keyed(c)
    && Buildable(c.spec, c.prior) && IsGraphOf(c.edges, c.spec, c.prior)
    && (forall k :: k in c.spec ==> IsWrittenOut(c.spec[k]))
    && (forall k :: k in c.prior ==> IsWrittenOut(c.prior[k]))
  }

  ghost predicate IsGraphOf(edges: Edges, spec: Index, prior: Index) {
    edges == Cover(ApplyEdges(spec, prior))
  }

  /** All dependencies are in DependsOn, each once. */
  ghost predicate IsWrittenOut(r: Resource) {
    NoDuplicates(r.dependsOn) && Elements(r.dependsOn) == Deps(r)
  }

  ghost predicate Keyed(c: Config) {
    && (forall k :: k in c.spec ==> c.spec[k].id == k)
    && (forall k :: k in c.prior ==> c.prior[k].id == k)
    && (IsDestroy(c.op) ==> c.spec == map[])
  }

  // ---- States ----

  /**
   How far a vertex has come. Panicked is a panic that applyWalkFun recovers from: it leaves no
   diagnostics behind, so the walker takes the vertex for a success.
   */
  datatype Phase =
    | Waiting
    | Started
    | Decided(action: ActionType, result: Option<Resource>)
    | Called(action: ActionType, result: Option<Resource>)
    | Published(action: ActionType, result: Option<Resource>)
    | Succeeded(action: ActionType, result: Option<Resource>)
    | Unsaved(action: ActionType, result: Option<Resource>)
    | Failed
    | Panicked
    | Skipped

  datatype Save = Save(serial: nat, resources: Index)

  datatype ChangeStep = ChangeStep(action: ActionType, to: Option<Resource>)

  /** spec and prior are the resources the vertices point to, ctx and state the two shared indexes. */
  datatype State = State(
    phase: map<string, Phase>,
    spec: Index,
    prior: Index,
    ctx: ResourceIndex,
    state: ResourceIndex,
    live: map<string, Value>,
    serial: nat,
    saves: seq<Save>,
    stepKeys: seq<string>,
    changeSteps: map<string, ChangeStep>)

  ghost function Initial(c: Config): State {
    State(map n | n in Nodes(c) :: Waiting, c.spec, c.prior, map[], map k | k in c.prior :: Some(c.prior[k]),
          c.live, c.serial, [], [], map[])
  }

  predicate WalkerOk(p: Phase) {
    p.Succeeded? || p.Panicked?
  }

  predicate WalkerFailed(p: Phase) {
    p.Failed? || p.Unsaved? || p.Skipped?
  }

  predicate IsPublished(p: Phase) {
    p.Published? || p.Succeeded? || p.Unsaved?
  }

  predicate HasStarted(p: Phase) {
    !p.Waiting? && !p.Skipped?
  }

  /** The resources a vertex waits for. The root finishes at once and is left out. */
  ghost function Parents(c: Config, n: string): set<string> {
    set u | u in Nodes(c) && (u, n) in c.edges
  }

  function Get<T>(m: map<string, T>, k: string): Option<T> {
    if k in m then Some(m[k]) else None
  }

  function AttributesOf(r: Option<Resource>): Attributes {
    if r.Some? then Some(r.value.attributes) else None
  }

  // ---- The body of a vertex ----

  /** The resource a vertex points to. */
  ghost function NodeResource(c: Config, s: State, n: string): Resource
    requires n in Nodes(c) && s.spec.Keys == c.spec.Keys && s.prior.Keys == c.prior.Keys
  {
    if n in c.spec then s.spec[n] else s.prior[n]
  }

  /** The replacements PreExecute makes; none for a destroy. */
  function PreExecuteEnv(op: OperationType, hasPrior: bool, ctx: ResourceIndex,
                         secrets: Option<string -> Reply<string>>): Env {
    match op
    case ApplyPreview => if hasPrior then Env(Resolve(ctx), secrets) else Env(Off, secrets)
    case Apply => Env(Resolve(ctx), secrets)
    case _ => Env(Off, None)
  }

  ghost function EnvOf(c: Config, ctx: ResourceIndex): Env {
    PreExecuteEnv(c.op, c.prior != map[], ctx, c.secrets)
  }

  function SplitAll(ignore: seq<string>): (paths: seq<seq<string>>)
    ensures forall i :: 0 <= i < |paths| ==> paths[i] != []
  {
    seq(|ignore|, i requires 0 <= i < |ignore| => Split(ignore[i], '.'))
  }

  /** The comparison of a live and a dry-run resource without the ignored fields. */
  function Compare(rt: Runtime, ignore: seq<string>, live: Attributes, dry: Value): Reply<bool> {
    if ignore != [] && live.None? then Panic
    else if live.None? then rt.diff(live, dry)
    else rt.diff(Some(Fields.RemoveFields(live.value, SplitAll(ignore))), Fields.RemoveFields(dry, SplitAll(ignore)))
  }

  datatype Decision = Decision(action: ActionType, dryRun: Option<Resource>)

  /** initThreeWayDiffData and computeActionType. plan is None for a resource to be deleted. */
  function Decide(c: Config, n: string, plan: Option<Resource>, prior: Option<Resource>,
                  live: Attributes): Reply<Decision> {
    match c.rt.read(n, AttributesOf(plan), AttributesOf(prior), live)
    case Err(e) => Err(e)
    case Panic => Panic
    case Ok(read) =>
      if IsDestroy(c.op) then Ok(Decision(Delete, plan))
      else if plan.None? then Ok(Decision(Delete, None))
      else if prior.None? && read.None? then Ok(Decision(Create, plan))
      else match c.rt.dryRun(n, AttributesOf(prior), plan.value.attributes, live)
        case Err(e) => Err(e)
        case Panic => Panic
        case Ok(dry) =>
          match Compare(c.rt, c.ignore, read, dry)
          case Err(e) => Err(e)
          case Panic => Panic
          case Ok(same) =>
            Ok(Decision(if same then UnChange else Update,
                        Some(plan.value.(attributes := Fields.RemoveFields(dry, SplitAll(c.ignore))))))
  }

  /** The runtime call of applyResource: the resource to record, and the live state left behind. */
  function CallRuntime(c: Config, n: string, action: ActionType, plan: Option<Resource>, prior: Option<Resource>,
                       live: Attributes)
    : (Reply<Option<Resource>>, Attributes)
  {
    if action.Delete? then
      // A failed delete logs planed.ID, and planed is nil: the error becomes a panic.
      var (reply, live') := c.rt.delete(n, AttributesOf(prior), live);
      (if reply.Ok? then Ok(None) else Panic, live')
    else if plan.None? then (Panic, live)
    else match action
      case UnChange =>
        if prior.Some? then (Ok(prior), live)
        else (Record(plan.value, c.rt.imported(n, plan.value.attributes, live)), live)
      case _ =>
        var (reply, live') := c.rt.apply(n, AttributesOf(prior), plan.value.attributes, live);
        (Record(plan.value, reply), live')
  }

  function Record(plan: Resource, reply: Reply<Value>): Reply<Option<Resource>> {
    match reply
    case Ok(v) => Ok(Some(plan.(attributes := v)))
    case Err(e) => Err(e)
    case Panic => Panic
  }

  ghost function PlanOf(c: Config, s: State, n: string): Option<Resource> {
    if n in c.spec then Get(s.spec, n) else None
  }

  // ---- Shared state ----

  /** RefreshResourceIndex on one index: a deletion leaves an entry without a resource. */
  function Refreshed(index: ResourceIndex, n: string, result: Option<Resource>, action: ActionType): ResourceIndex {
    index[n := if action.Delete? then None else result]
  }

  /** The resources UpdateState hands to the storage. */
  function Snapshot(state: ResourceIndex): Index {
    map k | k in state && state[k].Some? :: state[k].value
  }

  // ---- Steps ----

  datatype Event =
    | Start(n: string, outcome: Reply<Value>)
    | Compute(n: string)
    | Call(n: string)
    | Refresh(n: string)
    | Persist(n: string, written: bool)
    | Order(n: string)
    | Skip(n: string)

  /** The vertex is at the point where the event takes it on. */
  ghost predicate IsAt(op: OperationType, p: Phase, e: Event) {
    match e
    case Start(_, _) => p.Waiting?
    case Compute(_) => p.Started?
    case Call(_) => !IsPreview(op) && p.Decided?
    case Refresh(_) => if IsPreview(op) then p.Decided? else p.Called?
    case Persist(_, _) => !IsPreview(op) && p.Published?
    case Order(_) => IsPreview(op) && p.Published?
    case Skip(_) => p.Waiting?
  }

  ghost predicate ParentsOk(c: Config, s: State, n: string) {
    forall u :: u in Parents(c, n) ==> u in s.phase && WalkerOk(s.phase[u])
  }

  ghost predicate SomeParentFailed(c: Config, s: State, n: string) {
    && (forall u :: u in Parents(c, n) ==> u in s.phase && (WalkerOk(s.phase[u]) || WalkerFailed(s.phase[u])))
    && (exists u :: u in Parents(c, n) && WalkerFailed(s.phase[u]))
  }

  ghost predicate Steppable(c: Config, s: State, e: Event) {
    && s.phase.Keys == Nodes(c) && s.spec.Keys == c.spec.Keys && s.prior.Keys == c.prior.Keys
    && e.n in Nodes(c) && IsAt(c.op, s.phase[e.n], e)
  }

  ghost predicate Enabled(c: Config, s: State, e: Event) {
    && Steppable(c, s, e)
    && (e.Start? ==> ParentsOk(c, s, e.n) && MayYield(NodeResource(c, s, e.n).attributes, EnvOf(c, s.ctx), e.outcome))
    && (e.Skip? ==> SomeParentFailed(c, s, e.n))
  }

  /** The next state, field by field. */
  ghost function Next(c: Config, s: State, e: Event): State
    requires Steppable(c, s, e)
  {
    State(
      s.phase[e.n := PhaseAfter(c, s, e)],
      if e.n in c.spec then Rewritten(s.spec, e) else s.spec,
      if e.n in c.spec then s.prior else Rewritten(s.prior, e),
      if e.Refresh? then Refreshed(s.ctx, e.n, s.phase[e.n].result, s.phase[e.n].action) else s.ctx,
      StateAfter(c, s, e),
      if e.Call? then WithLive(s.live, e.n, CallOutcome(c, s, e.n).1) else s.live,
      if e.Persist? then s.serial + 1 else s.serial,
      if e.Persist? && e.written then s.saves + [Save(s.serial + 1, Snapshot(s.state))] else s.saves,
      if e.Order? then s.stepKeys + [e.n] else s.stepKeys,
      if e.Order? then s.changeSteps[e.n := ChangeStep(s.phase[e.n].action, s.phase[e.n].result)] else s.changeSteps)
  }

  ghost function PhaseAfter(c: Config, s: State, e: Event): Phase
    requires Steppable(c, s, e)
  {
    var p := s.phase[e.n];
    match e
    case Start(_, outcome) => if outcome.Ok? then Started else if outcome.Err? then Failed else Panicked
    case Compute(n) =>
      var d := Decide(c, n, PlanOf(c, s, n), Get(s.prior, n), Get(s.live, n));
      if d.Ok? then Decided(d.value.action, d.value.dryRun) else if d.Err? then Failed else Panicked
    case Call(n) =>
      var r := CallOutcome(c, s, n).0;
      if r.Ok? then Called(p.action, r.value) else if r.Err? then Failed else Panicked
    case Refresh(_) => Published(p.action, p.result)
    case Persist(_, written) => if written then Succeeded(p.action, p.result) else Unsaved(p.action, p.result)
    case Order(_) => Succeeded(p.action, p.result)
    case Skip(_) => Skipped
  }

  ghost function CallOutcome(c: Config, s: State, n: string): (Reply<Option<Resource>>, Attributes)
    requires n in s.phase && s.phase[n].Decided?
  {
    CallRuntime(c, n, s.phase[n].action, PlanOf(c, s, n), Get(s.prior, n), Get(s.live, n))
  }

  /** PreExecute writes the replaced attributes into the resource its vertex points to. */
  ghost function Rewritten(index: Index, e: Event): Index {
    if e.Start? && e.outcome.Ok? && e.n in index then index[e.n := index[e.n].(attributes := e.outcome.value)]
      else index
  }

  /** The state index shares its entry for a prior-only resource with the prior index until it is refreshed. */
  ghost function StateAfter(c: Config, s: State, e: Event): ResourceIndex
    requires Steppable(c, s, e)
  {
    if e.Refresh? then Refreshed(s.state, e.n, s.phase[e.n].result, s.phase[e.n].action)
    else if e.Start? && e.outcome.Ok? && e.n !in c.spec
      then s.state[e.n := Some(s.prior[e.n].(attributes := e.outcome.value))]
    else s.state
  }

  function WithLive(live: map<string, Value>, n: string, v: Attributes): map<string, Value> {
    if v.Some? then live[n := v.value] else live - {n}
  }

  /** s can be reached from the start of the operation, by any interleaving, with any failures. */
  ghost predicate IsRun(c: Config, events: seq<Event>, states: seq<State>) {
    && |states| == |events| + 1 && states[0] == Initial(c)
    && forall i {:trigger events[i]} :: 0 <= i < |events| ==>
        Enabled(c, states[i], events[i]) && states[i + 1] == Next(c, states[i], events[i])
  }

  ghost predicate Reachable(c: Config, s: State) {
    exists events, states :: IsRun(c, events, states) && s == states[|states| - 1]
  }

  lemma StartIsReachable(c: Config)
    ensures Reachable(c, Initial(c))
  {
    assert IsRun(c, [], [Initial(c)]);
  }

  lemma RunIsReachable(c: Config, events: seq<Event>, states: seq<State>, i: nat)
    requires IsRun(c, events, states) && i < |states|
    ensures Reachable(c, states[i])
  {
    assert forall k :: 0 <= k < i ==> events[..i][k] == events[k];
    assert IsRun(c, events[..i], states[..i + 1]);
  }

  /** Induction over runs: what holds at the start and is kept by every step holds everywhere. */
  lemma HoldsAlways(c: Config, s: State, inv: State -> bool)
    requires Reachable(c, s) && inv(Initial(c))
    requires forall t, e :: Reachable(c, t) && inv(t) && Enabled(c, t, e) ==> inv(Next(c, t, e))
    ensures inv(s)
  {
    var events, states :| IsRun(c, events, states) && s == states[|states| - 1];
    var i := 0;
    while i < |events|
      invariant 0 <= i <= |events| && inv(states[i])
    {
      assert Enabled(c, states[i], events[i]);
      RunIsReachable(c, events, states, i);
      i := i + 1;
    }
  }

  lemma OneMoreStep(c: Config, s: State, e: Event)
    requires Reachable(c, s) && Enabled(c, s, e)
    ensures Reachable(c, Next(c, s, e))
  {
    var events, states :| IsRun(c, events, states) && s == states[|states| - 1];
    var events', states' := events + [e], states + [Next(c, s, e)];
    forall i {:trigger events'[i]} | 0 <= i < |events'|
      ensures Enabled(c, states'[i], events'[i]) && states'[i + 1] == Next(c, states'[i], events'[i])
    {
      if i < |events| { assert events'[i] == events[i]; }
    }
    assert IsRun(c, events', states');
  }
}
