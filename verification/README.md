# Kusion's operation engine, modelled and verified

Kusion applies a spec of resources to the world behind a set of runtimes. This project models the
engine that does it, and proves what it keeps.

* **Parsing** (`Parsers.dfy`, `Graphs.dfy`, `Dag.dfy`, `Reachability.dfy`). The spec and the recorded
  prior state become one rooted graph. A resource of the spec is an Update vertex and comes after what
  it depends on; a resource that is only recorded is a Delete vertex and goes before what it depends
  on, if that goes too. Go ranges over maps in any order, so every order is an argument and the
  contracts hold for all of them.
* **References** (`References.dfy`, `Resolution.dfy`). `ReplaceRef` collects the keys of `$kusion_path.` strings while
  the graph is built and substitutes values while it is walked. `Resolution.dfy` tells by positions what stands in the result
  and when there is none.
* **The walk** (`Engine.dfy`, `Operation.dfy`). Every vertex runs `Execute` in its own goroutine. The
  walk is a step system over the shared indexes: start, compute, call, refresh, persist, order, skip.
  Any interleaving the graph allows, any failing call and any refused write is a run. `Operation.dfy`
  holds the same code as objects with fields and proves that each method is the step it stands for.
* **Setting up** (`Setup.dfy`). The request is checked and indexed, the graph is built, and the
  operation is set up on it; what comes out is the well-formed start of a walk.
* **What a step means** (`Decisions.dfy`, `Steps.dfy`): actions, results and errors in terms of the
  runtime's answers, the store of secrets and the published resources, not of the functions that the
  methods are proved against.
* **What the walk keeps** (`Safety.dfy`, `Resolved.dfy`, `Determined.dfy`, `Confluence.dfy`,
  `Outcomes.dfy`, `Previews.dfy`, `Converge.dfy`, `Destroys.dfy`, `Progress.dfy`). Invariants over all
  runs, and what they give: reference safety, no lost record, agreement of any two schedules,
  convergence of a second apply, agreement of preview and apply, deadlock freedom.
* **Concrete runs** (`Findings.dfy`, `Examples.dfy`): where a promise fails, and that the theorems
  have something to speak of.
* **Storage** (`Storage.dfy`): the append-only and the overwriting backend.
* **Beside the engine**: removing ignored fields and pruning live objects (`Fields.dfy`), and the
  search for downstream stacks (`Deps.dfy`).

A runtime is a set of arbitrary functions of one resource ID, its plan, its record and its live state
(`Engine.Runtime`): a call sees and changes one resource, a successful call returns one, and reads, dry
runs and imports change nothing. `IgnoreFields` reaches only previews; the operation built inside
`Apply` does not get it, so theorems about an apply are stated for `ignore == []`.

## Where the code does not do what one would expect

Each of these is proved with its exact condition, or with a concrete run.

1. **A refused deletion counts as a success.** After a failing `Delete` the code logs `planed.ID`
   while `planed` is nil. `applyWalkFun` recovers without leaving diagnostics, so the walk goes on and
   reports success. On the inputs: after a walk without diagnostics a prior-only resource recorded
   with plain values is still recorded exactly when the runtime refuses its deletion, or reading it
   panics (`DeletionIsRecorded`, `RecordedIdsOnInputs`, `SuccessfulApplyCanFailToDelete`).
2. **The deletion guard depends on luck.** Whenever a kept resource still records a dependency on a
   resource to be deleted, some iteration orders refuse the apply and others pass the guard
   (`GuardDependsOnOrder`).
3. **An unchanged resource keeps its earlier `DependsOn`.** A fully successful apply can therefore
   leave a record that neither the next apply nor a destroy can parse; it happens exactly when a
   resource left alone still records a dependency on a deleted one (`RecordParsesAgain`,
   `SuccessfulApplyCanStrandItsRecord`). A record that parses is destroyed against the order of the
   spec exactly when, for each resource left alone, the spec orders it after all it still records and
   the record after all the spec asks for (`DestroyReversesRecordedApply`); against the order of the
   apply's own walk exactly when the record orders all that the walk put before each resource
   (`DestroyReversesTheWalk`). An apply that only adds a dependency leaves a destroy without it
   (`SuccessfulApplyCanUnorderDestroy`).
4. **A recorded dependency cannot be turned round** between two kept resources: it is refused as a
   circle in every order that passes the guard (`FlippedDependencyIsRefused`).
5. **Only a preview ignores fields**, so it can show a resource as unchanged that the apply updates,
   exactly when the ignored fields decide the comparison (`PreviewAgreesWithApply`,
   `PreviewCanHideAnUpdate`).
6. **A recorded secret is resolved again when its resource is deleted.** A record free of references
   does not make `PreExecute` the identity: it is exactly when every secret string in it stands for
   itself (`DeletionsReplaceSecretsOnly`, `RecordedSecretCanStopDeletion`).
7. **The downstream search can miss a stack** whose entrance file depends on a file inside another
   stack's directory. The exact layout condition is `Confined` (`SearchIsExact`,
   `CrossDependencyIsMissed`).
8. **Serials wrap** at the end of their 64-bit range, and one write later the database returns an
   older record than the file (`AgreementNeedsRoom`).

## Model

| member | source | states |
|---|---|---|
| References.ReplaceRef | pkg/engine/operation/graph/resource_node.go:321-407 | On success the result is the structural substitution of every reference and secret string, and the collected keys are exactly the keys of the tree's references, whatever the replace function and the map order; a failure is the failure of one of its strings. What is substituted, and when it fails, is stated by positions in Resolution |
| References.StubFailsOnEmptyRef | pkg/engine/operation/parser/parser.go:22-29 | Collecting keys while the graph is built fails if and only if the tree holds an empty reference |
| References.SubstAlongPath | pkg/engine/operation/graph/resource_node.go:369-405 | Below every position of the original tree stands the substitution of what stood there |
| References.UnchangedByStrings | pkg/engine/operation/graph/resource_node.go:321-407 | A tree that resolves comes back unchanged if and only if each of its strings does |
| References.SubstAddsOnlyReplacements | pkg/engine/operation/graph/resource_node.go:339-356 | A position the original tree lacks lies inside the replacement of one of its strings, and what stands there comes from that replacement |
| References.InertUnchanged | pkg/engine/operation/graph/resource_node.go:339-368 | A tree without anything to replace comes back unchanged in every environment |
| References.SubstStrings | pkg/engine/operation/graph/resource_node.go:350-366 | Substituted values are not visited again: every string of the result is a string of some replacement |
| References.SubstAgrees | pkg/engine/operation/graph/resource_node.go:321-407 | Environments that agree on a tree's strings substitute alike and succeed alike |
| References.LookupMeans | pkg/engine/operation/graph/resource_node.go:284-311 | A reference yields exactly what stands at its path, read as map keys, in the attributes of the resource it names, and nothing if that is missing or null |
| References.LookupReadsOneKey | pkg/engine/operation/graph/resource_node.go:284-311 | A lookup reads one entry of the index, that of the key collected for the graph |
| References.ResolutionReadsRefs | pkg/engine/operation/graph/resource_node.go:32-58 | Indexes that agree on the collected keys resolve a tree alike, with the same possible outcomes |
| References.OnlyRefsAreMissed | pkg/engine/operation/graph/resource_node.go:284-292 | The resource a failing resolution misses is one of the collected keys, and absent or nil in the index |
| References.AllOkDecides | pkg/engine/operation/graph/resource_node.go:393-405 | When no string can fail there is one outcome, whatever the map order |
| References.ResolvedRefsArePresent | pkg/engine/operation/graph/resource_node.go:284-297 | A tree that resolves has found a non-nil resource under every collected key |
| References.ResolutionIsRefFree | pkg/engine/operation/graph/resource_node.go:321-407 | Values taken from an index without references bring in no reference |
| References.SplitJoin | pkg/engine/operation/graph/resource_node.go:286-287 | Joining the parts of a split path gives the path back |
| References.SplitParts | pkg/engine/operation/graph/resource_node.go:346-347 | No part contains the separator, so the key is the text in front of the first dot |
| References.SplitOfJoin | pkg/engine/operation/graph/resource_node.go:286-287 | Splitting what was joined from parts without separators gives the parts back |
| Resolution.StringsMean | pkg/engine/operation/graph/resource_node.go:321-407 | The strings ReplaceRef visits are exactly those that stand at a position of the tree |
| Resolution.RefsMean | pkg/engine/operation/graph/resource_node.go:343-349 | The collected keys are exactly the K of the strings `$kusion_path.K.a.b` that stand at a position of the tree |
| Resolution.RefMeans | pkg/engine/operation/graph/resource_node.go:284-311 | A reference `$kusion_path.K.a.b` is replaced if and only if the resource K has a value, not null, at the map keys a, b of its attributes, and by that value; it panics if and only if it is empty or the way leads through a value that is neither null nor a map |
| Resolution.ReferencesAreReplaced | pkg/engine/operation/graph/resource_node.go:339-356 | When replacing succeeds, where `$kusion_path.K.a.b` stood the result has exactly what stands at a, b in the attributes of the resource K of the index, and that is some value that is not null |
| Resolution.SecretsAreReplaced | pkg/engine/operation/graph/resource_node.go:357-366 | When replacing succeeds, where a secret stood the result has the string the store answered |
| Resolution.OthersStand | pkg/engine/operation/graph/resource_node.go:339-407 | Every other string, scalar and null stands where it stood, and maps keep their keys and lists their lengths |
| Resolution.ReplaceSucceedsExactly | pkg/engine/operation/graph/resource_node.go:284-407 | Replacing succeeds if and only if every reference standing in the tree finds a value and every secret in it is to be had; it panics only for an empty reference, one that leads through no map, or a store that does |
| Reachability.ReachesStaysIn | third_party/terraform/dag/dag.go:31-43 | Induction over reachability: a closed set with the targets of a vertex contains all that the vertex reaches |
| Reachability.CoverReaches | third_party/terraform/dag/dag.go:84-95 | Dropping any edges another path stands in for leaves reachability of an acyclic graph as it was |
| Reachability.CoverIsUnique | third_party/terraform/dag/dag.go:84-95 | Acyclic graphs that order alike have one transitive reduction |
| Reachability.RootReachesAll | third_party/terraform/dag/dag.go:114-145 | In an acyclic graph whose only vertex without sources is the root, the root reaches every vertex |
| Reachability.RootEdgesKeepAcyclic | pkg/engine/operation/parser/spec_parser.go:44-52 | Edges out of a root that nothing targets neither make nor break a cycle |
| Reachability.RootingsAgree | pkg/engine/operation/parser/delete_resource_parser.go:58-69 | Two choices of root edges that leave no vertex hanging give the same reachability |
| Dag.AcyclicGraph.Root | third_party/terraform/dag/dag.go:61-82 | Finds the vertex that alone has no sources, and fails only if there is no such vertex |
| Dag.AcyclicGraph.Ancestors | third_party/terraform/dag/dag.go:29-43 | The walk down meets exactly what the vertex reaches |
| Dag.AcyclicGraph.Validate | third_party/terraform/dag/dag.go:114-145 | Succeeds if and only if there is one root and neither a cycle nor a self edge |
| Dag.AcyclicGraph.TransitiveReduction | third_party/terraform/dag/dag.go:84-112 | Reducing in place leaves exactly the edges no other path stands in for, and the same reachability |
| Dag.AcyclicGraph.ReduceFrom | third_party/terraform/dag/dag.go:100-111 | One round of the reduction removes the superfluous edges of one vertex and nothing else |
| Parsers.Deduplicate | pkg/engine/operation/parser/parser.go:95-105 | The loop computes the list without its repetitions |
| Parsers.DedupAt | pkg/engine/operation/parser/parser.go:95-105 | Each key kept stands at its first appearance, after exactly the distinct keys before it |
| Parsers.DedupOfDistinct | pkg/engine/operation/parser/parser.go:95-105 | A list without duplicates is left as it is |
| Parsers.DedupPrefix | pkg/engine/operation/parser/parser.go:30-34 | What is kept of a list is kept in the same order, and in front, when keys are appended to it |
| Parsers.UpdateDependencies | pkg/engine/operation/parser/parser.go:18-36 | Writes the explicit and implicit dependencies into DependsOn, each once, the explicit ones first and in their order, and changes nothing else; an empty reference is the only failure and changes nothing |
| Parsers.LinkRefNodes | pkg/engine/operation/parser/parser.go:38-93 | Succeeds if and only if all keys are resources, and then adds exactly one edge a parent, in the direction its fate demands, and only the missing vertices |
| Parsers.LinkParent | pkg/engine/operation/parser/parser.go:63-89 | Adds one edge in the direction the parent's fate demands and the parent's vertex if it is missing |
| Parsers.SpecParser.Parse | pkg/engine/operation/parser/spec_parser.go:25-72 | For every iteration order: succeeds if and only if every dependency is in the spec and none is circular; the vertices are root and spec, the edges the reduction of the spec's dependencies hung below the root |
| Parsers.SpecParser.Visit | pkg/engine/operation/parser/spec_parser.go:38-65 | One iteration adds the vertex, its root edge and the edges from its parents, or reports what cannot be linked |
| Parsers.DeleteResourceParser.Parse | pkg/engine/operation/parser/delete_resource_parser.go:24-89 | For every iteration order: exactly when it succeeds and exactly when it refuses a deletion; the vertices and the reduced edges of a success do not depend on the order |
| Parsers.DeleteResourceParser.ManifestGraphMap | pkg/engine/operation/parser/delete_resource_parser.go:31-37 | The manifest is every vertex of the spec graph but the root |
| Parsers.DeleteResourceParser.PriorDependsOn | pkg/engine/operation/parser/delete_resource_parser.go:44-49 | Maps every key to exactly the recorded resources that explicitly depend on it |
| Parsers.DeleteResourceParser.Guard | pkg/engine/operation/parser/delete_resource_parser.go:61-66 | Refuses if and only if one of the recorded dependents is kept |
| Parsers.DeleteResourceParser.Visit | pkg/engine/operation/parser/delete_resource_parser.go:51-83 | One iteration: the guard holds only for a vertex seen first, which gets a root edge, and the links to its parents are added |
| Parsers.DeleteResourceParser.VisitAll | pkg/engine/operation/parser/delete_resource_parser.go:51-83 | The whole loop, for every order: it parses if and only if all dependencies are recorded and the guard fires nowhere |
| Parsers.GuardAt | pkg/engine/operation/parser/delete_resource_parser.go:58-66 | The test on vertices already present is the guard stated over the order: not in the spec, looked at before every dependent, and a kept resource records a dependency on it |
| Parsers.RootEdgesDoNotMatter | pkg/engine/operation/parser/delete_resource_parser.go:58-87 | Which deleted vertices got a root edge depends on the order; the reduced graph does not |
| Parsers.ValidateAndReduce | pkg/engine/operation/parser/delete_resource_parser.go:84-88 | Reports a circle if and only if there is one, and else leaves the reduction and the same vertices |
| Graphs.NewApplyGraph | pkg/engine/operation/apply.go:32-48 | For every pair of orders: succeeds if and only if all dependencies resolve, the guard does not fire and the links are acyclic, with the exact condition of the circle error; then the vertices are root, spec as Update and prior-only as Delete, and the edges do not depend on the orders |
| Graphs.CombinedGraph | pkg/engine/operation/apply.go:37-45 | Linking the recorded resources onto the already reduced spec graph is linking them onto the whole one |
| Graphs.ApplyGraphOrders | pkg/engine/operation/apply.go:32-48 | The graph is acyclic with one root that reaches every vertex, orders between resources exactly what the dependencies order, and no edge of it can be spared |
| Graphs.DependenciesAreOrdered | pkg/engine/operation/parser/parser.go:49-90 | Spec parents and kept prior parents reach their children; a prior child reaches its deleted parent |
| Graphs.NewDestroyGraph | pkg/engine/operation/destory.go:27-37 | For every order: succeeds if and only if all dependencies resolve and are acyclic; all resources are Delete vertices and the edges do not depend on the order |
| Graphs.DestroyReversesApply | pkg/engine/operation/destory.go:27-37 | Reachability between resources in the destroy graph is the converse of that in the spec graph of the same set |
| Graphs.DestroyReversesAlike | pkg/engine/operation/destory.go:27-37 | The same for any resource set with the same links |
| Graphs.FlippedDependencyIsRefused | pkg/engine/operation/parser/delete_resource_parser.go:71-86 | Turning round a recorded dependency between two kept resources makes the links circular, and that is what the parsers report in every order in which all resolves and the guard does not fire |
| Graphs.GuardDependsOnOrder | pkg/engine/operation/parser/delete_resource_parser.go:58-66 | There is an order under which the guard fires exactly when a kept resource depends on a deleted one, and always an order under which it does not fire |
| Graphs.ResolvedSpecOrdersAlike | pkg/engine/operation/parser/parser.go:30-35 | A spec whose references were resolved in place, with its dependencies written out, yields the very edges of the untouched spec |
| Fields.RemoveFieldAt | pkg/engine/operation/graph/resource_node.go:180-197 | Exactly the positions whose key path, list indices left out, is at or below the field path disappear; all others keep their leaf values, kinds and list lengths |
| Fields.RemoveFieldsTrims | pkg/engine/operation/graph/resource_node.go:129-134 | Of all positions exactly those under one of the ignored fields disappear, and the others keep their leaf values, kinds and list lengths |
| Fields.TrimmedIsUnique | pkg/engine/operation/graph/resource_node.go:129-134 | There is only one such tree, so this says what removing all the ignored fields yields |
| Fields.RemovalsCommute | pkg/engine/operation/graph/resource_node.go:129-134 | Removing twice is removing once, and the order of two removals does not matter |
| Fields.IgnoreOrderIrrelevant | pkg/engine/operation/graph/resource_node.go:129-134 | Any permutation of the ignored fields removes the same |
| Fields.PruneFields | pkg/util/json/json.go:10-29 | The case split computes the pruned tree |
| Fields.RemoveMapFields | pkg/util/json/json.go:31-45 | The loop over a map computes the pruned map, in any order |
| Fields.RemoveListFields | pkg/util/json/json.go:47-62 | The loop over a list computes the pruned list, surplus elements kept |
| Fields.PruneConforms | pkg/util/json/json.go:31-45 | The result is a part of live and has only keys that config has in matching positions |
| Fields.PruneIsLargest | pkg/util/json/json.go:31-62 | Every other such part of live is a part of the result |
| Fields.ConformingIsUnchanged | pkg/util/json/json.go:10-62 | A live object that conforms already is left as it is |
| Fields.PruneIsProjection | pkg/util/json/json.go:10-62 | Pruning is idempotent, is the identity when config equals live, and keeps list lengths |
| Engine.HoldsAlways | third_party/terraform/dag/walk.go:320-448 | Induction over runs: what holds at the start and is kept by every step holds at every reachable state |
| Engine.OneMoreStep | third_party/terraform/dag/walk.go:320-448 | An enabled step leads from a reachable state to a reachable state |
| Decisions.SplitAllMeans | pkg/engine/operation/graph/resource_node.go:130 | The path of an ignored field is the list of names that joins to it with dots and has none in a name, and no other |
| Decisions.CompareMeans | pkg/engine/operation/graph/resource_node.go:129-143 | Without ignored fields the comparison is the runtime's answer for the live resource, missing or not, and its dry run; with some it panics if nothing is live, and else is the answer for the two trees that lack exactly what the ignored fields name |
| Decisions.DecideMeans | pkg/engine/operation/graph/resource_node.go:60-178 | From the runtime's answers alone: an action is decided exactly when read, dry run and comparison answer, and it is Delete, Create if neither recorded nor read, UnChange if compared equal and Update if not; it fails exactly on an error of one of them and panics exactly on a panic |
| Decisions.CallMeans | pkg/engine/operation/graph/resource_node.go:199-234 | An error of apply or import is an error of the call and a panic a panic, a success is the plan with the returned attributes; a resource left alone is recorded as it was; a refused deletion is a panic |
| Steps.StartReplacesReferences | pkg/engine/operation/graph/resource_node.go:32-58 | In an apply, and in a preview over a recorded state, a vertex that starts has, where a reference stood in its resource, what CtxResourceIndex holds at that place of the resource named |
| Steps.FirstPreviewKeepsReferences | pkg/engine/operation/graph/resource_node.go:32-58 | In the first preview, with nothing recorded, references stay as they are |
| Steps.StartReplacesSecrets | pkg/engine/operation/graph/resource_node.go:32-58 | In an apply and its preview a vertex that starts has the store's answer where a secret stood |
| Steps.DestroyStartsUnchanged | pkg/engine/operation/graph/resource_node.go:32-58 | In a destroy and its preview starting never fails and leaves the recorded attributes as they are |
| Steps.StartSucceedsExactly | pkg/engine/operation/graph/resource_node.go:32-58 | Where references are resolved, starting succeeds if and only if all references and secrets of the resource can be replaced by what is published |
| Steps.StartEnds | pkg/engine/operation/graph/resource_node.go:32-58 | An error of PreExecute fails the vertex and changes nothing else; a success writes the replaced attributes into the spec resource, or into the recorded one and the state entry that shares it |
| Steps.ComputeEnds | pkg/engine/operation/graph/resource_node.go:102-178 | The vertex fails if and only if reading, dry run or comparison answers with an error, and panics if and only if one panics |
| Steps.CallEnds | pkg/engine/operation/graph/resource_node.go:199-234 | The vertex, and the live state of its resource, end as the runtime's reply for its resolved plan, its record and the live state at the start says |
| Steps.RefusedCallsFail | pkg/engine/operation/graph/resource_node.go:208-234 | A vertex that creates or updates fails if and only if the runtime's apply answers with an error, one that adopts a live resource if and only if the import does, and the walker never takes it for a success |
| Steps.FailuresAreReported | pkg/engine/operation/apply.go:159-175 | A vertex that failed, could not save, or was skipped stays so, and the operation reports an error at every later point |
| Safety.InvHolds | pkg/engine/operation/graph/resource_node.go:60-98 | At every reachable state, whatever fails: vertices touch only their own attributes, started vertices found their parents finished, exactly the prior-only resources are deleted, the indexes and the storage are as described below |
| Safety.IndexesStep | pkg/engine/operation/models/operation_context.go:86-102 | StateResourceIndex maps each refreshed ID to its result, nil if deleted, and every other ID to its prior resource; CtxResourceIndex holds exactly what was refreshed |
| Safety.SerialsStep | pkg/engine/operation/models/operation_context.go:133-147 | Serials never repeat and grow from save to save, also across refused writes |
| Safety.AncestorsFinished | third_party/terraform/dag/walk.go:320-448 | Whatever the graph puts, however far, before a vertex that starts has finished without diagnostics |
| Safety.ReferencesArePublished | pkg/engine/operation/graph/resource_node.go:32-58 | When a spec vertex can start, every key its attributes refer to is in the spec and its vertex has finished; unless that vertex panicked, CtxResourceIndex has a non-nil entry for it |
| Safety.OnlyPanickedResourcesAreMissed | pkg/engine/operation/graph/resource_node.go:284-292 | A missing resource at run time can only be one whose vertex panicked |
| Safety.RecordedIds | pkg/engine/operation/apply.go:131-176 | In terms of the panics of the run, for all specs: after a walk without diagnostics each ID is recorded as the spec has it or, if its vertex panicked, as the prior state had it; the recorded IDs are the spec's if and only if no vertex that creates or deletes panicked |
| Safety.FailedDeletionPasses | pkg/engine/operation/graph/resource_node.go:214-219 | The call step of a refused deletion, references in the record or not: the vertex counts as a success and its resource stays recorded |
| Outcomes.FateIsSealed | pkg/engine/operation/graph/resource_node.go:60-98 | In every run a resource with nothing to resolve ends as its inputs alone say: panicked, failed, or with this result |
| Outcomes.DeletionIsRecorded | pkg/engine/operation/graph/resource_node.go:214-219 | On the inputs: after a walk without diagnostics a prior-only resource with nothing to resolve is still recorded if and only if its read panics or the runtime refuses the deletion |
| Outcomes.RecordedIdsOnInputs | pkg/engine/operation/apply.go:131-176 | On the inputs: when all that is created or deleted has nothing to resolve, a walk without diagnostics records the spec's IDs if and only if none of it comes to a panic |
| Outcomes.SuccessMeansAccepted | pkg/engine/operation/apply.go:131-176 | On the inputs: a walk without diagnostics means that for no resource with nothing to resolve did the runtime answer the read, dry run, comparison, apply or import with an error |
| Safety.SuccessIsNeverLost | pkg/engine/operation/graph/resource_node.go:232-242 | Once a vertex has reported success the latest saved state has its result, or lacks it if it was deleted, at every later point of every run |
| Resolved.NeverRecordsAReference | pkg/engine/operation/graph/resource_node.go:32-58 | With a resolved prior state and runtimes and secrets that introduce no reference, no index and no saved state of any reachable state holds one |
| Resolved.DeletionsReplaceSecretsOnly | pkg/engine/operation/graph/resource_node.go:32-58 | PreExecute of a Delete vertex recorded without references replaces its secrets only and cannot fail on a reference; it is the identity if and only if every secret string in the record stands for itself |
| Determined.VertexIsDetermined | pkg/engine/operation/graph/resource_node.go:102-178 | At every reachable state what a vertex decided and did follows from its resolved plan, its prior resource and the initial live state, and the plan is the spec resolved against what has been published |
| Confluence.RunsAgree | pkg/engine/operation/graph/resource_node.go:32-178 | Any two reachable states of one operation, whatever the schedules and failures, references included, agree for each spec resource on its plan, action, result and live state as far as both have come |
| Confluence.CompleteAppliesAgree | pkg/engine/operation/apply.go:120-128 | Two complete applies of the same inputs leave the same record and the same live state of every spec resource |
| Determined.ActionsMean | pkg/engine/operation/graph/resource_node.go:102-149 | At every reachable state, from the runtime's answers for the resolved plan, the record and the world at the start: a deletion is of a prior-only resource, a creation of one neither recorded nor read, UnChange of one compared equal, a missing one too, and Update of one compared different; a preview shows the plan of a creation and else the dry run without the ignored fields |
| Determined.OutcomesMean | pkg/engine/operation/graph/resource_node.go:199-234 | At every reachable state, what a vertex recorded and left live is what the runtime's apply, import or delete returned for its resolved plan, its record and the world at the start, or the untouched prior resource and world if it was left alone |
| Determined.PreviewAgreesWithApply | pkg/engine/operation/preview.go:94-109 | For a spec without references, under any two schedules, the previewed action is the applied one if and only if the fields that only the preview ignores do not decide the comparison |
| Determined.IgnoreOrderKeepsDecision | pkg/engine/operation/graph/resource_node.go:129-143 | The order of IgnoreFields changes neither the action nor the dry run |
| Previews.PreviewOrder | pkg/engine/operation/graph/resource_node.go:261-278 | Under any schedule StepKeys is duplicate free, is the key set of ChangeSteps, which hold each vertex's action and result, and lists dependencies first; after a preview without errors it is all resources but panicked ones |
| Previews.PreviewKeepsApplyOrder | pkg/engine/operation/graph/resource_node.go:54-56 | At every point of a preview the spec it is resolving in place rebuilds the very graph the preview is ordered by |
| Converge.RecordedResource | pkg/engine/operation/graph/resource_node.go:199-247 | After a complete apply the record holds each spec resource with its result, and the dependencies of the spec unless it was left alone |
| Converge.RecordParsesAgain | pkg/engine/operation/graph/resource_node.go:228-230 | The record of a complete apply can be parsed again if and only if no resource left alone records a dependency on a deleted one |
| Converge.SecondGraphBuilds | pkg/engine/operation/apply.go:32-48 | Under exactly that condition the same spec builds its graph again, and nothing is to be deleted |
| Converge.FirstLeavesQuiet | pkg/engine/operation/graph/resource_node.go:199-231 | Whatever a complete apply did to a resource, comparing its record's dry run with the live state finds nothing |
| Converge.SecondApplyChangesNothing | pkg/engine/operation/apply.go:55-129 | In every reachable state of a second apply of the same spec, references included, no vertex deletes, fails or panics, every action is UnChange, the live world is untouched and the record is what the first apply left |
| Converge.SecondApplyExists | pkg/engine/operation/apply.go:80-128 | Whenever the record parses there is such a second apply, so the theorem is not empty |
| Destroys.RecordKeepsOrder | pkg/engine/operation/graph/resource_node.go:228-230 | The record and the spec have the same reachability if and only if, for each resource left alone, the spec orders it after all it still records and the record after all the spec asks for |
| Destroys.DestroyReversesRecordedApply | pkg/engine/operation/destory.go:41-110 | Under exactly that condition, a record that parses has a destroy graph that is the converse, between resources, of the spec's own graph |
| Destroys.DestroyNeverFollowsWalk | pkg/engine/operation/destory.go:41-110 | Whatever the destroy of a record that parses orders, the walk of the apply that wrote it ordered the other way round |
| Destroys.DestroyReversesTheWalk | pkg/engine/operation/destory.go:41-110 | It reverses all of that walk's order if and only if the record orders all that the walk put before each resource |
| Progress.NeverStuck | third_party/terraform/dag/walk.go:320-448 | Until every vertex has finished, some vertex can take a step |
| Progress.RunsAreBounded | third_party/terraform/dag/walk.go:320-448 | No run has more than five steps for each resource, so every walk ends |
| Progress.FinishHealthily | pkg/engine/operation/apply.go:120-128 | A walk over a runtime that refuses at most deletions, for a spec whose references resolve against what that runtime returns, can be finished from any point without a failure so far; no vertex fails, and only refused deletions panic |
| Progress.SkippedHasCause | third_party/terraform/dag/walk.go:320-448 | A vertex is skipped only if one the graph puts before it failed itself |
| Progress.DescendantsAreSkipped | third_party/terraform/dag/walk.go:320-448 | Once a vertex failed or was skipped, nothing the graph puts behind it, however far, is ever started |
| Findings.SuccessfulApplyCanStrandItsRecord | pkg/engine/operation/graph/resource_node.go:228-230 | A concrete run in which every vertex succeeds and the record can no longer be parsed |
| Findings.SuccessfulApplyCanFailToDelete | pkg/engine/operation/graph/resource_node.go:214-219 | A concrete run that succeeds although its deletion was refused and the resource is still recorded |
| Findings.SuccessfulApplyCanUnorderDestroy | pkg/engine/operation/graph/resource_node.go:228-230 | A concrete run that walks one resource before another, succeeds and leaves a record that parses, and whose destroy puts the two in no order |
| Examples.SomeApplyConverges | pkg/engine/operation/apply.go:55-129 | A concrete apply of a spec with a reference meets everything the convergence of a second apply asks for |
| Examples.PreviewCanHideAnUpdate | pkg/engine/operation/preview.go:94-109 | A concrete preview shows a resource as unchanged that the apply of the same inputs updates |
| Examples.RecordedSecretCanStopDeletion | pkg/engine/operation/graph/resource_node.go:45-53 | A concrete deletion of a resource recorded without references fails before the runtime is asked |
| Setup.ValidateRequest | pkg/engine/operation/apply.go:178-199 | Accepts a request if and only if no two of its resources share a key |
| Setup.IndexResources | pkg/engine/models/resource.go:42-48 | The loop computes the index, which IndexIsKeyed and IndexKeepsLast pin down |
| Setup.IndexIsKeyed | pkg/engine/models/resource.go:42-48 | An index has exactly the keys of its resources, each resource under its own |
| Setup.IndexKeepsLast | pkg/engine/models/resource.go:42-48 | Of several resources with one key the index has the last |
| Setup.ValidRequestIsKept | pkg/engine/operation/apply.go:188-196 | A request that passes the check loses no resource by being indexed |
| Setup.InitStates | pkg/engine/operation/models/operation_context.go:104-127 | The resources and the serial of the latest stored state, or no resources and serial zero if there is none |
| Setup.LinkedIsWellFormed | pkg/engine/operation/parser/parser.go:18-36 | What the parsers leave behind, dependencies written out and graph reduced, is the well-formed configuration that the walk is asked for |
| Setup.SetUpApply | pkg/engine/operation/apply.go:76-118 | From a request and the latest stored state: the exact condition of a duplicate and of a graph that is built; and then the operation stands at the start of a well-formed walk, whose spec has the resources of the request, whose prior has those of the latest state and none if there is none, each under its own key with its dependencies written out, and whose serial is the latest one or zero; fields are ignored only in a preview |
| Setup.SetUpDestroy | pkg/engine/operation/destory.go:60-100 | The same for a destroy, whose prior has the resources of the latest stored state, and for its preview, whose prior has those of the request; nothing is planned, and the serial goes on from the latest one |
| Operations.Operation.constructor | pkg/engine/operation/apply.go:83-118 | Given the configuration, which Setup builds, the operation context starts in the initial state of the walk |
| Operations.Operation.RefreshResourceIndex | pkg/engine/operation/models/operation_context.go:86-102 | Both indexes get the resource, or nil for a deletion, under the one key |
| Operations.Operation.UpdateState | pkg/engine/operation/models/operation_context.go:129-153 | The serial grows even if the storage refuses; an accepted state holds exactly the non-nil entries of the index, in any iteration order |
| Operations.Operation.UpdateChangeOrder | pkg/engine/operation/graph/resource_node.go:261-278 | Appends the key and records its step |
| Operations.ResourceNode.PreExecute | pkg/engine/operation/graph/resource_node.go:32-58 | Is an enabled start step of the walk: the attributes are resolved in place in the resource the vertex points to, also where indexes share it |
| Operations.ResourceNode.ComputeActionType | pkg/engine/operation/graph/resource_node.go:102-178 | Is the compute step of the walk, and leaves its action in the vertex |
| Operations.ResourceNode.DryRun | pkg/engine/operation/graph/resource_node.go:118-144 | The dry run and the comparison without ignored fields decide between UnChange and Update as specified |
| Operations.ResourceNode.InvokeRuntime | pkg/engine/operation/graph/resource_node.go:199-234 | Is the call step of the walk, with its three branches and the panic after a refused deletion |
| Operations.ResourceNode.ApplyResource | pkg/engine/operation/graph/resource_node.go:199-247 | Takes the walk from one reachable state to another, moves no other vertex, and reports a success exactly when the vertex has saved its result, a panic when it panicked, and a failure otherwise |
| Operations.ResourceNode.Advance | pkg/engine/operation/graph/resource_node.go:60-98 | The next step of Execute, from whatever state the other vertices have brought the walk to meanwhile, is an enabled step of the walk, moves no other vertex and leaves this one where the walk has it |
| Operations.ResourceNode.Execute | pkg/engine/operation/graph/resource_node.go:60-98 | The whole body of a vertex, run alone, leads from a reachable state to a reachable state, moves no other vertex, and reports a success, a panic or a failure as the vertex succeeded, panicked, or failed or could not save |
| Storage.DbState.GetLatestState | pkg/engine/states/remote/db/db_state.go:55-87 | Returns a matching row with the largest serial, nothing if no row matches, and refuses a query without tenant or project |
| Storage.EmptyPartsMatchAny | pkg/engine/states/remote/db/db_state.go:55-78 | A row matches if and only if its key is the query with some stack and cluster put in where the query leaves them empty |
| Storage.NextSerial | pkg/engine/operation/models/operation_context.go:133-135 | The serial grows by one up to the largest 64-bit number, and from there goes to zero |
| Storage.FileSystemState.Apply | pkg/engine/states/local/filesystem_state.go:59-80 | An accepted write is the last of all that was written and sets the time of modification; the time of creation stays that of the first |
| Storage.FileSystemState.GetLatestState | pkg/engine/states/local/filesystem_state.go:28-57 | Of all that was ever accepted returns the last, whatever the query, and nothing if there was none: overwriting loses nothing that a lookup would return |
| Storage.Perform | pkg/engine/operation/models/operation_context.go:111-147 | One action on both backend objects, an operation that begins, a write or a write under another key, is a step of the histories below |
| Storage.Replay | pkg/engine/states/local/filesystem_state.go:28-80 | Any history carried out on a new database and a new file: at its end both lookups return the same record, and it has the resources of the last accepted write |
| Storage.BackendsAgree | pkg/engine/states/remote/db/db_state.go:79-86 | For one writer on one full key, over any history of operations, refused writes and writes under other keys, the row with the largest serial is what the file holds |
| Storage.WritesGrow | pkg/engine/operation/models/operation_context.go:133-147 | Every accepted write has a larger serial than all writes under its key before it |
| Storage.AgreementNeedsRoom | pkg/engine/operation/models/operation_context.go:133-135 | After one more write both lookups return the same, whatever is written and whichever row a tie picks, if and only if the serial does not wrap; when it wraps past a recorded serial above zero, the database returns the older record |
| Storage.LastSaveIsLargest | pkg/engine/states/remote/db/db_state.go:79-86 | Within one walk the row with the largest serial is the last state saved |
| Deps.VisitStack | pkg/cmd/deps/options.go:198-251 | One stack: its focus files are dropped, and it is reported, refused for its settings, or indexed |
| Deps.FindDownStreams | pkg/cmd/deps/options.go:180-272 | The loops compute the search over all stacks in order, or fail with it; UnitAt says which stacks these are and under which names |
| Deps.UnitAt | pkg/cmd/deps/options.go:189-199 | The stacks are visited project by project in the order given; each goes by its project's directory if only projects are asked for, and by its own otherwise |
| Deps.UnitComesFrom | pkg/cmd/deps/options.go:189-199 | Nothing else is visited: the k-th unit is the stack at that place of some project |
| Deps.UnderMeans | pkg/cmd/deps/options.go:207 | A focus file lies under a stack if and only if the path components of the stack's directory are the first of its own, so a directory whose name merely begins alike does not count |
| Deps.ScanMeans | pkg/cmd/deps/options.go:188-252 | The loops fail exactly at a stack whose settings are needed and invalid, and otherwise leave the focus files under no stack, the reported names, and the owners of every entrance file of the other stacks |
| Deps.OnlyDownStreamsAreFound | pkg/cmd/deps/options.go:164-168 | Every reported name belongs to a stack with a documented reason, for every layout |
| Deps.SearchIsComplete | pkg/cmd/deps/options.go:200-202 | When every focus file is confined the search reports exactly the documented names |
| Deps.SearchIsExact | pkg/cmd/deps/options.go:164-272 | With settings that load, the search meets its definition for all sets of focus files if and only if every file that is not ignored is confined |
| Deps.CrossDependencyIsMissed | pkg/cmd/deps/options.go:200-213 | Two concrete stacks of which the search misses the one that uses a file of the other |
| Deps.SeparateStacksAreConfined | pkg/cmd/deps/options.go:164-168 | Stacks that no file of another stack concerns have a layout of that kind |
| Deps.ListDownStreams | pkg/cmd/deps/options.go:127-164 | Every name reported is the directory of a project, if only projects are asked for, or else of a stack, with a stack that a focus file concerns; and every such name is reported when the focus files are confined. Ignored focus paths are removed first; without any left the result is empty, and otherwise an error is returned exactly at a stack whose settings are needed and invalid |

## Left out

- Cycle detection: `Validate` finds cycles with Tarjan's strongly connected components; the model walks below every vertex instead and is proved to decide the same.
- Walker internals: channels, timeouts, cancellation and `Update` of a running walk; what remains is that a vertex starts when its sources have finished and is skipped when one failed.
- Shared subtrees: attributes are tree values, so two Go maps that alias one another are not captured; where the prior and state indexes share a resource pointer, the write of `PreExecute` is modelled explicitly.
- Fields.RemoveField: `removeNestedField` deletes in place; the model returns the trimmed tree, and aliasing between live and recorded maps is not captured.
- Edge hash codes: an edge is a pair of vertex hash codes; the parsers always connect the vertices that the graph holds.
- Panics outside a vertex: an empty reference while the graph is built is a failing status here, and `CheckNotError` on storage errors is not modelled.
- A spec whose resource list is nil: the parser returns a warning before adding anything.
- Types and extensions of resources, and the choice of a runtime by type: a runtime is keyed by resource ID.
- A runtime that returns a resource under another ID or with other dependencies than planned, or nil without an error.
- Warning statuses, and the From side of a change step.
- `ChangeOrder` given as nil: the steps are then recorded in an order nobody keeps.
- Secret stores: an arbitrary function from a secret string to a value or an error.
- `UpdateState` reading the index it is given: it takes the lock first, so it is one atomic step; `PreExecute` reads the context index without the lock, and is also one step.
- Resources whose key is `root` or `RootNode`: they would be taken for the root, and no contract speaks of them.
- A write that fails halfway and leaves a truncated state file behind: a refused write leaves the file as it was.
- Safety.RecordedIds: speaks of the panics of the run, because with references the fate of a vertex hangs on those before it; without them Outcomes states it on the inputs.
- Safety.FailedDeletionPasses: one step in one direction; over the whole walk and on the inputs it is Outcomes.DeletionIsRecorded, for records with nothing to resolve.
- Operations.ResourceNode.Execute: composed without steps of other vertices in between, which Advance allows after every step.
- Operations.Operation.constructor: takes its configuration as given; Setup builds it.
- Storage.DbState.GetLatestState: ties between equal serials may go either way; IDs, timestamps and the sorting of resources are not modelled.
- Storage.BackendsAgree: needs a query that names tenant, project, stack and cluster, because an empty stack or cluster matches the rows of all.
- Deps.FindDownStreams: which files depend on which is an arbitrary relation, and an error of the KCL library's file listing is not modelled.
- The OSS, S3 and HTTP backends, the runtimes themselves, watchers, workspaces, printers and commands.
