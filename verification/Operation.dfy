/**
 The operation context and the body of a vertex, as the objects that the goroutines share and
 update. Each method is proved to be the step of the walk that it stands for.
 */
module Operations {
  import opened Models
  import opened References
  import opened Parsers
  import opened Engine
  import opened Safety
  import Fields

  /** Resources.Index: the last of several resources with one ID wins. */
  function IndexOf(resources: seq<Resource>): Index {
    if resources == [] then map[]
    else
      var last := resources[|resources| - 1];
      IndexOf(resources[..|resources| - 1])[last.id := last]
  }

  /** Every resource stands under its own ID. */
  ghost predicate IdsMatch(index: ResourceIndex) {
    forall k :: k in index && index[k].Some? ==> index[k].value.id == k
  }

  ghost function SnapshotOn(state: ResourceIndex, keys: set<string>): Index {
    map k | k in keys && k in state && state[k].Some? :: state[k].value
  }

  lemma SnapshotOnMore(state: ResourceIndex, keys: set<string>, k: string)
    requires k in state
    ensures SnapshotOn(state, keys + {k}) ==
      if state[k].Some? then SnapshotOn(state, keys)[k := state[k].value] else SnapshotOn(state, keys)
  {
  }

  class Operation {
    const config: Config
    var spec: Index
    var prior: Index
    var ctxResourceIndex: ResourceIndex
    var stateResourceIndex: ResourceIndex
    /** The world behind the runtimes. */
    var live: map<string, Value>
    var serial: nat
    /** The states the storage has accepted, oldest first. */
    var saves: seq<Save>
    var stepKeys: seq<string>
    var changeSteps: map<string, ChangeStep>
    ghost var phase: map<string, Phase>

    ghost function View(): State
      reads this
    {
      State(phase, spec, prior, ctxResourceIndex, stateResourceIndex, live, serial, saves, stepKeys, changeSteps)
    }

    /** The set-up Apply, Preview and Destroy share. */
    constructor (config: Config)
      ensures this.config == config && View() == Initial(config)
    {
      this.config := config;
      spec, prior := config.spec, config.prior;
      ctxResourceIndex := map[];
      stateResourceIndex := map k | k in config.prior :: Some(config.prior[k]);
      live, serial, saves := config.live, config.serial, [];
      stepKeys, changeSteps := [], map[];
      phase := map n | n in Nodes(config) :: Waiting;
    }

    method RefreshResourceIndex(resourceKey: string, resource: Option<Resource>, actionType: ActionType)
      modifies this`ctxResourceIndex, this`stateResourceIndex
      ensures ctxResourceIndex == Refreshed(old(ctxResourceIndex), resourceKey, resource, actionType)
      ensures stateResourceIndex == Refreshed(old(stateResourceIndex), resourceKey, resource, actionType)
    {
      match actionType
      case Delete =>
        ctxResourceIndex := ctxResourceIndex[resourceKey := None];
        stateResourceIndex := stateResourceIndex[resourceKey := None];
      case _ =>
        ctxResourceIndex := ctxResourceIndex[resourceKey := resource];
        stateResourceIndex := stateResourceIndex[resourceKey := resource];
    }

    /** The serial grows even if the storage then refuses the state. */
    method UpdateState(written: bool)
      requires IdsMatch(stateResourceIndex)
      modifies this`serial, this`saves
      ensures serial == old(serial) + 1
      ensures saves == if written then old(saves) + [Save(serial, Snapshot(stateResourceIndex))] else old(saves)
    {
      serial := serial + 1;
      var res: seq<Resource> := [];
      var rest := stateResourceIndex.Keys;
      ghost var done: set<string> := {};
      while rest != {}
        invariant serial == old(serial) + 1 && saves == old(saves)
        invariant done + rest == stateResourceIndex.Keys
        invariant IndexOf(res) == SnapshotOn(stateResourceIndex, done)
        decreases rest
      {
        var key :| key in rest;
        SnapshotOnMore(stateResourceIndex, done, key);
        if stateResourceIndex[key].Some? {
          assert (res + [stateResourceIndex[key].value])[..|res|] == res;
          res := res + [stateResourceIndex[key].value];
        }
        rest, done := rest - {key}, done + {key};
      }
      assert SnapshotOn(stateResourceIndex, done) == Snapshot(stateResourceIndex);
      if written {
        saves := saves + [Save(serial, IndexOf(res))];
      }
    }

    method UpdateChangeOrder(id: string, action: ActionType, to: Option<Resource>)
      modifies this`stepKeys, this`changeSteps
      ensures stepKeys == old(stepKeys) + [id]
      ensures changeSteps == old(changeSteps)[id := ChangeStep(action, to)]
    {
      stepKeys := stepKeys + [id];
      changeSteps := changeSteps[id := ChangeStep(action, to)];
    }
  }

  /** The step of Execute that a vertex takes next. */
  datatype Stage = ToStart | ToCompute | ToCall | ToPublish | ToRecord | Done

  /** What Execute comes to for the walker. */
  datatype Result = Success | Failure | Panicking

  class ResourceNode {
    const id: string
    var action: ActionType
    /** How far Execute has come in its goroutine, and what it holds: the dry run, then the resource to record. */
    var stage: Stage
    var result: Option<Resource>

    constructor (id: string, action: ActionType)
      ensures this.id == id && this.action == action && stage == ToStart
    {
      this.id, this.action, stage, result := id, action, ToStart, None;
    }

    /** The goroutine is where the walk has this vertex, with the action and resource the walk has for it. */
    ghost predicate Tracks(o: Operation)
      reads this, o
    {
      id in o.phase && id in Nodes(o.config) &&
      match o.phase[id]
      case Waiting => stage == ToStart && BelongsTo(o)
      case Started => stage == ToCompute && BelongsTo(o)
      case Decided(a, r) => stage == (if IsPreview(o.config.op) then ToPublish else ToCall) && action == a
        && result == r
      case Called(a, r) => stage == ToPublish && action == a && result == r && !IsPreview(o.config.op)
      case Published(a, r) => stage == ToRecord && action == a && result == r
      case _ => stage == Done
    }

    /**
     One step of Execute, from whatever state the other vertices have brought the walk to since the
     last: it is an enabled step of the walk, and leaves every other vertex where it was.
     */
    method Advance(o: Operation, written: bool) returns (ghost e: Event)
      requires Keyed(o.config) && IsState(o.config, o.View()) && Tracks(o)
      requires stage != Done && (stage == ToStart ==> ParentsOk(o.config, o.View(), id))
      modifies this`action, this`stage, this`result, o
      ensures e.n == id && Enabled(o.config, old(o.View()), e) && o.View() == Next(o.config, old(o.View()), e)
      ensures Tracks(o) && OnlyMoved(o, old(o.phase))
    {
      ghost var s := o.View();
      match stage {
        case ToStart =>
          e := TakeStart(o);
        case ToCompute =>
          e := Compute(id);
          TakeCompute(o);
        case ToCall =>
          e := Call(id);
          TakeCall(o);
        case ToPublish =>
          e := Refresh(id);
          Publish(o, result);
          stage := ToRecord;
        case ToRecord =>
          e := if IsPreview(o.config.op) then Order(id) else Persist(id, written);
          TakeRecord(o, written);
          stage := Done;
      }
      StepMoves(o.config, s, e);
    }

    method TakeStart(o: Operation) returns (ghost e: Event)
      requires Keyed(o.config) && IsState(o.config, o.View()) && Tracks(o) && stage == ToStart
      requires ParentsOk(o.config, o.View(), id)
      modifies this`stage, o`spec, o`prior, o`stateResourceIndex, o`phase
      ensures e.n == id && Enabled(o.config, old(o.View()), e) && o.View() == Next(o.config, old(o.View()), e)
      ensures Tracks(o)
    {
      NodeFacts(o.config, o.View(), id);
      var outcome := PreExecute(o);
      stage := if outcome.Ok? then ToCompute else Done;
      e := Start(id, outcome);
    }

    method TakeCompute(o: Operation)
      requires Keyed(o.config) && IsState(o.config, o.View()) && Tracks(o) && stage == ToCompute
      modifies this`action, this`stage, this`result, o`phase
      ensures o.View() == Next(o.config, old(o.View()), Compute(id)) && Tracks(o)
    {
      var dryRun := ComputeActionType(o);
      result := if dryRun.Ok? then dryRun.value else None;
      stage := if !dryRun.Ok? then Done else if IsPreview(o.config.op) then ToPublish else ToCall;
    }

    method TakeCall(o: Operation)
      requires Keyed(o.config) && IsState(o.config, o.View()) && Tracks(o) && stage == ToCall
      modifies this`stage, this`result, o`live, o`phase
      ensures o.View() == Next(o.config, old(o.View()), Call(id)) && Tracks(o)
    {
      ActionFits(o.config, o.View(), id);
      var res := InvokeRuntime(o);
      result := if res.Ok? then res.value else None;
      stage := if res.Ok? then ToPublish else Done;
    }

    /** The last step: a change step in a preview, else a save. */
    method TakeRecord(o: Operation, written: bool)
      requires Keyed(o.config) && IsState(o.config, o.View()) && id in Nodes(o.config)
      requires o.phase[id] == Published(action, result)
      modifies o`stepKeys, o`changeSteps, o`serial, o`saves, o`phase
      ensures o.View() == Next(o.config, old(o.View()), if IsPreview(o.config.op) then Order(id)
        else Persist(id, written))
    {
      if IsPreview(o.config.op) {
        AppendStep(o, result);
      } else {
        StateIdsMatch(o.config, o.View());
        Save(o, written);
      }
    }

    /** The vertex is in the graph, and marked for deletion if and only if it is prior-only. */
    ghost predicate BelongsTo(o: Operation)
      reads this
    {
      id in Nodes(o.config) && (action.Delete? <==> IsDeleteNode(o.config, id))
    }

    /** The resource of the vertex, and its attributes with references and secrets replaced. */
    method Replace(o: Operation) returns (resource: Resource, outcome: Reply<Value>)
      requires BelongsTo(o) && Steppable(o.config, o.View(), Start(id, Panic))
      ensures resource == NodeResource(o.config, o.View(), id)
      ensures MayYield(resource.attributes, EnvOf(o.config, o.ctxResourceIndex), outcome)
    {
      resource := if action.Delete? then o.prior[id] else o.spec[id];
      var env := PreExecuteEnv(o.config.op, o.config.prior != map[], o.ctxResourceIndex, o.config.secrets);
      var refs;
      refs, outcome := ReplaceRef(resource.attributes, env);
    }

    method PreExecute(o: Operation) returns (outcome: Reply<Value>)
      requires BelongsTo(o) && Steppable(o.config, o.View(), Start(id, Panic)) && ParentsOk(o.config, o.View(), id)
      requires IsDeleteNode(o.config, id) ==> id in o.stateResourceIndex
      modifies o`spec, o`prior, o`stateResourceIndex, o`phase
      ensures Enabled(o.config, old(o.View()), Start(id, outcome))
      ensures o.View() == Next(o.config, old(o.View()), Start(id, outcome))
    {
      ghost var s := o.View();
      var resource;
      resource, outcome := Replace(o);
      if outcome.Ok? {
        if action.Delete? {
          o.prior := o.prior[id := resource.(attributes := outcome.value)];
          o.stateResourceIndex := o.stateResourceIndex[id := Some(resource.(attributes := outcome.value))];
        } else {
          o.spec := o.spec[id := resource.(attributes := outcome.value)];
        }
      }
      o.phase := o.phase[id := if outcome.Ok? then Started else if outcome.Err? then Failed else Panicked];
      StartMeans(o.config, s, id, resource, outcome);
    }

    /** initThreeWayDiffData and computeActionType; the action is kept in the vertex. */
    method ComputeActionType(o: Operation) returns (dryRun: Reply<Option<Resource>>)
      requires Keyed(o.config) && BelongsTo(o) && Steppable(o.config, o.View(), Compute(id))
      modifies this`action, o`phase
      ensures o.View() == Next(o.config, old(o.View()), Compute(id))
      ensures dryRun.Ok? <==> o.phase[id].Decided?
      ensures dryRun.Ok? ==> o.phase[id] == Decided(action, dryRun.value)
      ensures !dryRun.Ok? ==> o.phase[id] == if dryRun.Err? then Failed else Panicked
    {
      var c := o.config;
      ghost var s := o.View();
      var planed := if action.Delete? then None else Some(o.spec[id]);
      var prior := Get(o.prior, id);
      var live := Get(o.live, id);
      var read := c.rt.read(id, AttributesOf(planed), AttributesOf(prior), live);
      match read {
        case Err(e) => dryRun := Err(e);
        case Panic => dryRun := Panic;
        case Ok(liveResource) =>
          dryRun := Ok(planed);
          if IsDestroy(c.op) || planed.None? {
            action := Delete;
          } else if prior.None? && liveResource.None? {
            action := Create;
          } else {
            dryRun := DryRun(c, planed.value, prior, liveResource, live);
          }
      }
      assert PlanOf(c, s, id) == planed;
      ghost var failed := if dryRun.Err? then Failed else Panicked;
      o.phase := o.phase[id := if dryRun.Ok? then Decided(action, dryRun.value) else failed];
    }

    /** The dry run, and the comparison that tells UnChange from Update. */
    method DryRun(c: Config, planed: Resource, prior: Option<Resource>, liveResource: Attributes, live: Attributes)
      returns (dryRun: Reply<Option<Resource>>)
      requires !IsDestroy(c.op) && c.rt.read(id, Some(planed.attributes), AttributesOf(prior), live) == Ok(liveResource)
      requires prior.Some? || liveResource.Some?
      modifies this`action
      ensures Decide(c, id, Some(planed), prior, live) ==
        match dryRun case Ok(r) => Ok(Decision(action, r)) case Err(e) => Err(e) case Panic => Panic
    {
      var dry := c.rt.dryRun(id, AttributesOf(prior), planed.attributes, live);
      if !dry.Ok? {
        return match dry case Err(e) => Err(e) case _ => Panic;
      }
      var same := Compare(c.rt, c.ignore, liveResource, dry.value);
      if !same.Ok? {
        return match same case Err(e) => Err(e) case _ => Panic;
      }
      action := if same.value then UnChange else Update;
      dryRun := Ok(Some(planed.(attributes := Fields.RemoveFields(dry.value, SplitAll(c.ignore)))));
    }

    /** The runtime call of applyResource. */
    method InvokeRuntime(o: Operation) returns (res: Reply<Option<Resource>>)
      requires Keyed(o.config) && id in Nodes(o.config) && Steppable(o.config, o.View(), Call(id))
      requires o.phase[id].action == action && (action.Delete? <==> IsDeleteNode(o.config, id))
      modifies o`live, o`phase
      ensures o.View() == Next(o.config, old(o.View()), Call(id))
      ensures res.Ok? <==> o.phase[id].Called?
      ensures res.Ok? ==> o.phase[id] == Called(action, res.value)
      ensures !res.Ok? ==> o.phase[id] == if res.Err? then Failed else Panicked
    {
      var rt := o.config.rt;
      ghost var s := o.View();
      var prior, live := Get(o.prior, id), Get(o.live, id);
      match action {
        case Delete =>
          var (reply, left) := rt.delete(id, AttributesOf(prior), live);
          // planed is nil here, and logging its ID panics.
          res := if reply.Ok? then Ok(None) else Panic;
          o.live := WithLive(o.live, id, left);
        case UnChange =>
          var planed := o.spec[id];
          if prior.None? {
            res := Record(planed, rt.imported(id, planed.attributes, live));
          } else {
            res := Ok(prior);
          }
          assert WithLive(o.live, id, live) == o.live;
        case _ =>
          var planed := o.spec[id];
          var (reply, left) := rt.apply(id, AttributesOf(prior), planed.attributes, live);
          res := Record(planed, reply);
          o.live := WithLive(o.live, id, left);
      }
      assert CallOutcome(o.config, s, id).0 == res;
      o.phase := o.phase[id := if res.Ok? then Called(action, res.value) else if res.Err? then Failed else Panicked];
    }

    /** RefreshResourceIndex as this vertex calls it. */
    method Publish(o: Operation, resource: Option<Resource>)
      requires id in Nodes(o.config) && Steppable(o.config, o.View(), Refresh(id))
      requires o.phase[id].action == action && o.phase[id].result == resource
      modifies o`ctxResourceIndex, o`stateResourceIndex, o`phase
      ensures o.View() == Next(o.config, old(o.View()), Refresh(id))
    {
      o.RefreshResourceIndex(id, resource, action);
      o.phase := o.phase[id := Published(action, resource)];
    }

    /** UpdateState as this vertex calls it. */
    method Save(o: Operation, written: bool)
      requires id in Nodes(o.config) && Steppable(o.config, o.View(), Persist(id, written))
      requires IdsMatch(o.stateResourceIndex)
      modifies o`serial, o`saves, o`phase
      ensures o.View() == Next(o.config, old(o.View()), Persist(id, written))
    {
      o.UpdateState(written);
      o.phase := o.phase[id := PhaseAfter(o.config, old(o.View()), Persist(id, written))];
    }

    /** updateChangeOrder as this vertex calls it. */
    method AppendStep(o: Operation, resource: Option<Resource>)
      requires id in Nodes(o.config) && Steppable(o.config, o.View(), Order(id))
      requires o.phase[id].action == action && o.phase[id].result == resource
      modifies o`stepKeys, o`changeSteps, o`phase
      ensures o.View() == Next(o.config, old(o.View()), Order(id))
    {
      o.UpdateChangeOrder(id, action, resource);
      o.phase := o.phase[id := Succeeded(action, resource)];
    }

    /** The state is one of the walk, and only this vertex has moved since an earlier one. */
    ghost predicate OnlyMoved(o: Operation, phase: map<string, Phase>)
      reads o
    {
      IsMove(o.config, phase, o.View(), id)
    }

    /** The first half of Execute: resolve, read, compare. */
    method Prepare(o: Operation) returns (dryRun: Reply<Option<Resource>>)
      requires Keyed(o.config) && BelongsTo(o) && IsState(o.config, o.View())
      requires o.phase[id].Waiting? && ParentsOk(o.config, o.View(), id)
      modifies this`action, o`spec, o`prior, o`stateResourceIndex, o`phase
      ensures OnlyMoved(o, old(o.phase))
      ensures o.phase[id] == match dryRun case Ok(r) => Decided(action, r) case Err(_) => Failed case Panic => Panicked
    {
      NodeFacts(o.config, o.View(), id);
      ghost var s := o.View();
      var outcome := PreExecute(o);
      StepMoves(o.config, s, Start(id, outcome));
      if !outcome.Ok? {
        return match outcome case Err(e) => Err(e) case _ => Panic;
      }
      ghost var t := o.View();
      dryRun := ComputeActionType(o);
      StepMoves(o.config, t, Compute(id));
      MovesCompose(o.config, s.phase, t, o.View(), id);
    }

    method RecordPreview(o: Operation, dryRun: Option<Resource>)
      requires id in Nodes(o.config) && IsState(o.config, o.View()) && IsPreview(o.config.op)
      requires o.phase[id] == Decided(action, dryRun)
      modifies o
      ensures OnlyMoved(o, old(o.phase)) && o.phase[id].Succeeded?
    {
      ghost var s := o.View();
      Publish(o, dryRun);
      StepMoves(o.config, s, Refresh(id));
      ghost var t := o.View();
      AppendStep(o, dryRun);
      StepMoves(o.config, t, Order(id));
      MovesCompose(o.config, s.phase, t, o.View(), id);
    }

    /** The second half of applyResource, after a first half that moved no other vertex since phase. */
    method RecordResult(o: Operation, res: Option<Resource>, written: bool, ghost phase: map<string, Phase>)
      requires Keyed(o.config) && id in Nodes(o.config) && OnlyMoved(o, phase) && !IsPreview(o.config.op)
      requires o.phase[id] == Called(action, res)
      modifies o
      ensures OnlyMoved(o, phase)
      ensures o.phase[id] == if written then Succeeded(action, res) else Unsaved(action, res)
    {
      ghost var s := o.View();
      Publish(o, res);
      StepMoves(o.config, s, Refresh(id));
      MovesCompose(o.config, phase, s, o.View(), id);
      ghost var t := o.View();
      StateIdsMatch(o.config, t);
      Save(o, written);
      StepMoves(o.config, t, Persist(id, written));
      MovesCompose(o.config, phase, t, o.View(), id);
    }

    method Invoke(o: Operation) returns (res: Reply<Option<Resource>>)
      requires Keyed(o.config) && id in Nodes(o.config) && IsState(o.config, o.View()) && !IsPreview(o.config.op)
      requires o.phase[id].Decided? && o.phase[id].action == action
      modifies o`live, o`phase
      ensures OnlyMoved(o, old(o.phase))
      ensures o.phase[id] == match res case Ok(r) => Called(action, r) case Err(_) => Failed case Panic => Panicked
    {
      ActionFits(o.config, o.View(), id);
      ghost var s := o.View();
      res := InvokeRuntime(o);
      StepMoves(o.config, s, Call(id));
    }

    method ApplyResource(o: Operation, written: bool) returns (result: Result)
      requires Keyed(o.config) && id in Nodes(o.config) && IsState(o.config, o.View()) && !IsPreview(o.config.op)
      requires o.phase[id].Decided? && o.phase[id].action == action
      modifies o
      ensures OnlyMoved(o, old(o.phase))
      ensures match result
        case Success => o.phase[id].Succeeded? && written
        case Failure => WalkerFailed(o.phase[id])
        case Panicking => o.phase[id].Panicked?
    {
      ghost var phase := o.phase;
      var res := Invoke(o);
      match res
      case Err(_) => result := Failure;
      case Panic => result := Panicking;
      case Ok(resource) =>
        RecordResult(o, resource, written, phase);
        result := if written then Success else Failure;
    }

    /**
     The whole body of a vertex, here without the interference of others: it goes from one
     reachable state of the walk to another, and the walker sees how it ended.
     */
    method Execute(o: Operation, written: bool) returns (result: Result)
      requires Keyed(o.config) && BelongsTo(o) && IsState(o.config, o.View())
      requires o.phase[id].Waiting? && ParentsOk(o.config, o.View(), id)
      modifies this`action, o
      ensures OnlyMoved(o, old(o.phase))
      ensures match result
        case Success => o.phase[id].Succeeded? && (IsPreview(o.config.op) || written)
        case Failure => WalkerFailed(o.phase[id])
        case Panicking => o.phase[id].Panicked?
    {
      ghost var s := o.View();
      var dryRun := Prepare(o);
      ghost var t := o.View();
      if !dryRun.Ok? {
        return if dryRun.Err? then Failure else Panicking;
      }
      if IsPreview(o.config.op) {
        RecordPreview(o, dryRun.value);
        result := Success;
      } else {
        result := ApplyResource(o, written);
      }
      MovesCompose(o.config, s.phase, t, o.View(), id);
    }
  }

  /** What a start step changes. */
  lemma StartMeans(c: Config, s: State, n: string, r: Resource, outcome: Reply<Value>)
    requires Steppable(c, s, Start(n, outcome)) && r == NodeResource(c, s, n)
    ensures var after := r.(attributes := if outcome.Ok? then outcome.value else r.attributes);
      Next(c, s, Start(n, outcome)) == s.(
        phase := s.phase[n := if outcome.Ok? then Started else if outcome.Err? then Failed else Panicked],
        spec := if outcome.Ok? && n in c.spec then s.spec[n := after] else s.spec,
        prior := if outcome.Ok? && n !in c.spec then s.prior[n := after] else s.prior,
        state := if outcome.Ok? && n !in c.spec then s.state[n := Some(after)] else s.state)
  {
  }

  /** A reachable state, with the vertices and resources the operation began with. */
  ghost predicate IsState(c: Config, s: State) {
    Reachable(c, s) && s.phase.Keys == Nodes(c) && s.spec.Keys == c.spec.Keys && s.prior.Keys == c.prior.Keys
  }

  ghost predicate IsMove(c: Config, phase: map<string, Phase>, t: State, n: string) {
    && IsState(c, t) && phase.Keys == Nodes(c)
    && forall m :: m in Nodes(c) && m != n ==> t.phase[m] == phase[m]
  }

  lemma ActionFits(c: Config, s: State, n: string)
    requires Keyed(c) && Reachable(c, s) && n in Nodes(c) && n in s.phase && HasAction(s.phase[n])
    ensures s.phase[n].action.Delete? <==> IsDeleteNode(c, n)
  {
    NodeFacts(c, s, n);
  }

  lemma StepMoves(c: Config, s: State, e: Event)
    requires Reachable(c, s) && Enabled(c, s, e)
    ensures IsMove(c, s.phase, Next(c, s, e), e.n)
  {
    OneMoreStep(c, s, e);
  }

  lemma MovesCompose(c: Config, phase: map<string, Phase>, t: State, u: State, n: string)
    requires IsMove(c, phase, t, n) && IsMove(c, t.phase, u, n)
    ensures IsMove(c, phase, u, n)
  {
  }

  lemma StateIdsMatch(c: Config, s: State)
    requires Keyed(c) && Reachable(c, s)
    ensures IdsMatch(s.state)
  {
    IndexKeysWithin(c, s);
    forall k | k in s.state && s.state[k].Some? ensures s.state[k].value.id == k {
      NodeFacts(c, s, k);
    }
  }

  lemma IndexKeysWithin(c: Config, s: State)
    requires Keyed(c) && Reachable(c, s)
    ensures s.state.Keys <= Nodes(c)
  {
    InvHolds(c, s);
  }
}
