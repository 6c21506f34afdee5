# A verified model of kro's core

kro turns a set of Kubernetes resource templates into a dependency graph, applies the resources in
order, keeps a persisted inventory of what it owns, and tears everything down in reverse. This
project models the parts of kro that decide those things, and proves what they promise.

`dafny verify dfyconfig.toml` checks the whole project.

## What is modelled

- **The dependency graph.** `Digraph` defines paths, cycles, topological orders, the greedy
  (Order, ID) schedule and the layering by longest chain of dependents on plain values. `Dag` is the
  mutable graph with incremental edge insertion, rollback and its two searches; `CycleSearch` is the
  recursive search for a cycle; `DagSort` has the traversal with its counters and heap, `DagOrder` the
  two sorts. Both searches for a path or cycle are also given as functions of the graph, so what is
  reported is a function of the graph too. The order
  that is proved is the greedy one: at every step the least ready (Order, ID). The comment at
  `pkg/dag/dag.go:321-322` speaks of order "within each depth", which the code does not compute.
- **Which graph a resource set gets.** `CelInspector` is the walk over a CEL expression with its
  mutable set of loop variables; `CelCalls` says in terms of an expression's parts which functions it
  reports; `CelEval` is an evaluator over any interpretation of literals,
  operators and functions, used to say what "depends on" means. `References`, `GraphBuilder`,
  `ResourcePlan` and `GraphBuild` extract the dependencies of templates, forEach dimensions and
  includeWhen conditions and build the graph; `ApplyOrders` numbers the waves. Waves are numbered
  from dependents to dependencies, so a vertex nothing depends on is always in the highest wave, an
  isolated one included, whatever `pkg/metadata/annotations.go:18-22` says of leaves; only the
  relative order along edges is contractual.
- **The Graph controller.** `Tracking` is the inventory algebra. `GraphController` is the
  reconciler as a step machine: every API write is a step that may succeed, be lost, or take effect
  although it reports failure, and a crash may come between any two. `GraphSafety` proves the
  invariant of all its runs, `GraphHistory` how an entry leaves what is persisted and
  what each kind of cycle leaves there, and `GraphOrphans`
  exactly which writes a teardown can leave behind.
- **Instances.** `ApplySet` is the recorded scope (KEP-3659) and the labelled members;
  `InstanceInventory` the gated prune; `InstanceCycle` a whole reconcile cycle and runs of cycles.
  `DeletionWaves` and `DeletionRuns` are the deletion of an instance, wave by wave. Here too a write,
  a delete or a release that reports failure may have taken effect.
- **Conditions.** `Conditions` is the list of conditions with its derived root, `ReadyRuns` the runs
  of one object.
- **SimpleSchema.** `SimpleSchema` parses types and `Markers` parses markers character by character.
  `TypeTexts` and `MarkerErrors` say of any text what comes out, without the parser's own state.
- **Shared informers.** `WatchManager` is the lock-sectioned manager and all interleavings of its
  callers.

`Collections` has optional values and sequences as listings of sets, which all of these share.

## What was found

Each of these is proved with the exact condition under which the property does hold.

- An expression whose comprehension variable also occurs free in its own range or initial value (as
  in `items.map(items, ...)` or `cel.bind(a, a.spec, ...)`) does not report that identifier there: the
  inspector puts loop variables in scope before it walks the range
  (`pkg/cel/ast/inspector.go:331-363`). Unless another part of the expression reports the same
  identifier, the dependency is lost and its edge missing from the graph. The report of an expression
  and of all its parts is exact if and only if nothing captures itself
  (`CelInspector.ExactIffWellScoped`, `CelEval.SelfCaptureLosesDependency`).
- The Graph controller can leave an object behind. A write that nothing records afterwards can outlive
  the finalizer if and only if, at the moment of the write, no entry of the persisted inventory would
  delete the object as it then is; for an inventory without repeated identities, if and only if the
  inventory does not track it. The same holds of a contribution and the persisted ledger
  (`GraphOrphans.OutlivesIffUntracked`, `GraphOrphans.ContributionOutlivesIffUnrecorded`). One such
  write: a recorded object, deleted behind the controller's back, is recreated under a new UID by an
  apply that crashes before the UID is recorded; the delete precondition then carries the old UID and
  a mismatch is tolerated (`GraphOrphans.RecreateThenCrashOrphans`). Over runs without such writes, or
  once a status write follows, nothing is left (`GraphSafety.WrittenAheadRunsAreSafe`,
  `GraphSafety.PublishedCycleIsTracked`).
- A fully resolved instance cycle whose prune fails or meets a UID conflict skips every inventory
  write after its apply, so a namespace that only the apply resolved stays outside the recorded
  scope; so do a duplicate identity, a crash and a write that is lost. A cycle keeps every living
  member covered if and only if some such write took effect, reported or not, or all that it applied
  was foreseen (`InstanceCycle.CoverageIff`, `InstanceCycle.ConflictLosesNamespace`). And the grow-only write of a partial cycle unions with the
  annotations cloned before the pre-apply patch, so it drops candidates that were projected but not
  applied (`InstanceCycle.PartialWriteDropsCandidates`).
- The length test that skips the write-ahead is exact, whatever is intended, if and only if the
  previous inventory repeats no identity, and for contributions if and only if the ledger repeats none
  (`Tracking.LengthTestExactIffUnique`, `Tracking.ContributionTestExactIffDistinct`); otherwise it
  skips every single new identity (`Tracking.RepeatedIdentityHidesIntent`).
- A root that reports ready over present and current dependents of which none is False or Unknown is
  right if and only if none of them has a status outside True, False and Unknown
  (`ReadyRuns.ReadyIffNoneOdd`, `ReadyRuns.ReadyIffPassing`). Setting one dependent to such a status
  when all dependents are healthy leaves the root ready over it (`ReadyRuns.OddSetFoolsRoot`), and runs
  from every sound object reach this (`ReadyRuns.OddStatusFoolsRoot`).
- `For` trusts what it finds: on an object that other condition types have left behind, its root can be
  trusted if and only if, after pruning, some condition was missing, the root was not ready, or every
  dependent passes (`ReadyRuns.ForTrustedIff`, `ReadyRuns.OtherTypesFoolRoot`).
- `default="` makes the marker parser panic; exactly the texts whose last character opens a value's
  quotes do (`Markers.FaultIffLoneQuote`).
- A late sync timeout of one EnsureWatch call drops what another call under the same owner id
  retains (`WatchManager.OverlappingCallsLoseWatch`).

## Model

| member | source | states |
|---|---|---|
| Digraph.LessIsStrictTotalOrder | pkg/dag/dag.go:67-72 | the heap's comparison by (Order, ID) is a strict total order, so the popped minimum is unique |
| Digraph.StringLessIff | pkg/dag/dag.go:67-72 | names compare as texts do: the shorter of two prefixes first, else the smaller character where they first differ |
| Digraph.BeforeIff | pkg/dag/dag.go:67-72 | of two vertices the one with the smaller Order goes first, and of two with one Order the smaller name |
| Digraph.TopologicalImpliesAcyclic | pkg/dag/dag.go:323-345 | a graph with a dependency-respecting order of all its vertices has no cycle |
| Digraph.StuckImpliesCyclic | pkg/dag/dag.go:337-344 | vertices that never become ready contain a cycle |
| Digraph.GreedyIsLexLeast | pkg/dag/dag.go:323-345 | the greedy order is lexicographically at or below every other dependency-respecting order |
| Digraph.GreedyLeastAndUnique | pkg/dag/dag.go:323-345 | so it is the one least order, whatever order the map was iterated in |
| Digraph.GreedyTakesSmallest | pkg/dag/dag.go:323-345 | at every place of the greedy order, whatever else was ready has a larger Order, or the same and a larger name |
| Digraph.SortedIsUnchanged | pkg/dag/dag.go:323-345 | a dependency-respecting order that is already sorted by Order and name is what the sort returns |
| Digraph.LayerIsLongestChain | pkg/dag/dag.go:351-384 | a vertex's layer index is the length of the longest chain of dependents above it |
| Digraph.LayersOrderEdges | pkg/dag/dag.go:351-384 | layers are disjoint and a dependency lies in a strictly later layer than its dependent |
| Digraph.DependentsCyclic | pkg/dag/dag.go:351-384 | the reversed graph has a cycle exactly when the graph has |
| Digraph.NewCycleIffReachable | pkg/dag/dag.go:236-249 | in an acyclic graph new edges close a cycle exactly when one of their targets reaches the source |
| Dag.ClosingEdgeIffCyclic | pkg/dag/dag.go:236-249 | the search that AddDependencies runs finds a path back exactly when the grown graph has a cycle |
| Dag.FirstBadIs | pkg/dag/dag.go:222-230 | the dependency that is reported as undeclared or as the vertex itself is the first one that is so, and there is none exactly when all are declared and other vertices |
| Dag.DirectedAcyclicGraph.AddVertex | pkg/dag/dag.go:168-178 | a new vertex without edges, or a refusal of a known one that changes nothing |
| Dag.DirectedAcyclicGraph.AddDependencies | pkg/dag/dag.go:210-252 | succeeds exactly when every target is declared, none is the vertex itself and no cycle closes; then exactly those edges are added, else the exact prior edge set is back and a cycle error carries a real cycle through the vertex, which the graph and the new edges determine |
| Dag.DirectedAcyclicGraph.FindPath | pkg/dag/dag.go:256-280 | the fast search finds a path exactly when one exists, and what it returns is the path of the deterministic search |
| Dag.DirectedAcyclicGraph.FindSortedPath | pkg/dag/dag.go:284-319 | a path exactly when one exists, and always the same one for a graph, a set of starts and a target |
| Dag.SortedPathFound | pkg/dag/dag.go:284-319 | the depth-first search as a function finds a repetition-free real path exactly when the target can be reached, and nothing otherwise |
| CycleSearch.HasCycle | pkg/dag/dag.go:386-441 | true exactly when a cycle exists; the trimmed path is closed, follows edges, repeats only its end vertex, and is a function of the graph alone |
| CycleSearch.ReportedCycleReal | pkg/dag/dag.go:386-441 | the recursive search as a function of the graph ends on a path that closes on itself exactly when the graph is cyclic, and trimming it leaves a real cycle |
| DagSort.TopologicalTraversal.constructor | pkg/dag/dag.go:104-142 | counters are the numbers of unmet needs and the heap holds exactly the vertices that need nothing |
| DagSort.TopologicalTraversal.PopReady | pkg/dag/dag.go:144-146 | pops the least ready (Order, ID) |
| DagSort.TopologicalTraversal.Advance | pkg/dag/dag.go:148-158 | after a vertex is done the counters and the heap are again exact |
| DagOrder.TopologicalSort | pkg/dag/dag.go:323-345 | succeeds exactly on acyclic graphs, with the greedy dependency-respecting order; otherwise returns the real cycle that the graph determines |
| DagOrder.ReverseTopologicalLayers | pkg/dag/dag.go:351-384 | succeeds exactly on acyclic graphs, with all vertices layered by what is free of dependents, each layer in (Order, ID) order |
| ApplyOrders.ApplyOrdersForDAG | pkg/graph/graph.go:56-72 | succeeds exactly on acyclic graphs and numbers the layers downwards to 1 |
| ApplyOrders.OrdersFollowEdges | pkg/graph/graph.go:64-66 | every vertex has an order in 1..L, each of them is used, and a vertex's order is strictly greater than that of each dependency |
| ApplyOrders.OrderIsLongestChain | pkg/graph/graph.go:56-72 | the order is L less the longest chain of dependents; the top wave is exactly what nothing depends on |
| CelInspector.Inspector.InspectExpr | pkg/cel/ast/inspector.go:169-191 | reports what the analysis defines for the loop variables in scope, and leaves them as they were |
| CelInspector.Inspector.InspectCall | pkg/cel/ast/inspector.go:258-301 | inspects the arguments, and the target unless the call names a known namespaced function; which functions are reported is what the rows of CelCalls say |
| CelInspector.Inspector.InspectComprehension | pkg/cel/ast/inspector.go:318-384 | walks all five parts with the comprehension's variables in scope and restores shadowed ones |
| CelInspector.ReportsOnlyNeeded | pkg/cel/ast/inspector.go:207-243 | nothing is reported that is bound, internal or not free in the expression |
| CelInspector.ReportsAllNeeded | pkg/cel/ast/inspector.go:169-301 | in an expression without self-capture every free identifier is reported |
| CelInspector.ExactIffWellScoped | pkg/cel/ast/inspector.go:318-384 | the report is exact on an expression and all its parts if and only if no comprehension captures a visible identifier of its own range, initial value or result |
| CelCalls.NamespacedIff | pkg/cel/ast/inspector.go:267-281 | a member call is namespaced exactly when its target is a chain of names and that chain with the function is declared |
| CelCalls.UnknownFunctionsIff | pkg/cel/ast/inspector.go:258-301 | a function is reported unknown if and only if some part of the expression, other than what only stands in the target of a namespaced call, calls it directly and the environment lacks it |
| CelCalls.OmitIff | pkg/cel/ast/inspector.go:283-292 | the use of omit() is reported if and only if some such part calls it directly and the environment has it |
| CelCalls.ReportSorted | pkg/cel/ast/inspector.go:207-243 | every name reported as a resource is declared, and none reported as unknown is |
| CelCalls.InternalIff | pkg/cel/ast/inspector.go:504-508 | the internal names are @result and those that begin with $$ or @__ |
| CelEval.Coincidence | pkg/cel/expression.go:75-81 | evaluation depends only on the free identifiers, for every interpretation of the operators |
| CelEval.ReportedNamesDecide | pkg/cel/expression.go:75-81 | contexts that agree on the reported names give a well-scoped expression the same value |
| CelEval.SelfCaptureLosesDependency | pkg/cel/ast/inspector.go:331-363 | a range that mentions the loop variable's outer namesake is reported as needing nothing, and its value differs with it |
| References.ExtractDependencies | pkg/graph/builder.go:1095-1154 | accepts exactly the expressions that parse and are acceptable as the next row says, names the first offence otherwise, and then returns the other resources and the iterators; every reported identifier is a reference |
| References.AcceptableIff | pkg/graph/builder.go:1095-1154 | a well-scoped expression is acceptable if and only if every free name is a resource other than runtime or an iterator, omit() is called only behind its gate, and every function called in a walked part is declared; its dependencies are then its free resources but schema, and its iterators its other free names |
| GraphBuilder.Classify | pkg/graph/builder.go:655-663 | a variable's kind never goes down in Static, Dynamic, Iteration; it iterates exactly when it refers to an iterator or did before, and stays static exactly when it was and refers to nothing |
| GraphBuilder.ExtractTemplate | pkg/graph/builder.go:640-688 | all template dependencies, exactly the iterators used in name or, for namespaced resources, namespace, and every variable's kind afterwards, however often it is listed |
| GraphBuilder.ExtractForEach | pkg/graph/builder.go:695-720 | accepts exactly the dimensions that refer to no other dimension, and collects their dependencies |
| GraphBuilder.ExtractConditions | pkg/graph/builder.go:1159-1187 | accepts exactly the conditions without omit() and iterators, and collects their dependencies |
| GraphBuilder.ExprDepsMember | pkg/graph/builder.go:606-618 | whatever any of a node's expressions refers to is a dependency of the node |
| GraphBuild.ExtractNode | pkg/graph/builder.go:571-615 | a node passes exactly when all its expressions do and every forEach dimension is used in its identity; its dependency list is then complete and its variables classified |
| GraphBuilder.NodeOkIff | pkg/graph/builder.go:571-615 | a node is acceptable if and only if all its template expressions are with its iterators, its dimensions without any, its conditions without any and without omit(), and every dimension is used in its identity |
| GraphBuilder.IdentityMeans | pkg/graph/builder.go:655-688 | a dimension is used in the identity exactly when an expression at metadata.name or, for a namespaced resource, metadata.namespace mentions it |
| GraphBuild.BuildDependencyGraph | pkg/graph/builder.go:557-622 | in any visiting order, succeeds exactly when ids are distinct, nodes acceptable, references declared and not to oneself, and the whole reference graph acyclic; the result is that graph, every node lists what it depends on, every expression records all it refers to, and only the inspector, the nodes, their expressions and their variables are updated |
| ApplyOrders.EvaluationOrder | pkg/graph/builder.go:557-622 | the topological order places a node after everything its template, forEach and includeWhen expressions refer to |
| ApplyOrders.EvaluationNeedsOnlyEarlier | pkg/graph/builder.go:640-720 | so a well-scoped expression's value depends only on the schema, the node's iterators and nodes placed before it |
| ApplyOrders.KindBoundsNeeds | pkg/graph/variable/variable.go:65-95 | the value of a well-scoped variable left static depends on the schema alone, and that of a dynamic one on the schema and the nodes it refers to |
| ApplyOrders.ReferencesSuffice | pkg/graph/builder.go:1109-1114 | evaluation depends only on the recorded References |
| Tracking.UnionManagedResources | pkg/controller/graph/tracking.go:345-371 | computes the merge by identity that the next rows describe |
| Tracking.UnionCovers | pkg/controller/graph/tracking.go:345-371 | the union repeats no identity and names exactly those of both inputs |
| Tracking.UnionEntry | pkg/controller/graph/tracking.go:345-371 | each entry is the first one of its identity with the last non-empty UID |
| Tracking.UnionAssociative | pkg/controller/graph/tracking.go:345-371 | the union is associative |
| Tracking.DiffManagedResources | pkg/controller/graph/tracking.go:79-109 | computes the new set and the prune candidates that the next row describes |
| Tracking.DiffPartitions | pkg/controller/graph/tracking.go:79-109 | every previous entry is applied, kept because its node is unresolved, or prunable, and nothing prunable is applied |
| Tracking.SkipIffTracked | pkg/controller/graph/controller.go:210-216 | with distinct previous identities the write-ahead is skipped exactly when every intended identity is tracked |
| Tracking.RepeatedIdentityHidesIntent | pkg/controller/graph/controller.go:210-216 | whenever a previous identity is repeated, the length test skips every single intent that is not tracked |
| Tracking.LengthTestExactIffUnique | pkg/controller/graph/controller.go:210-216 | the length test is exact for every intent if and only if the previous inventory repeats no identity |
| Tracking.UnionContributions | pkg/controller/graph/tracking.go:456-473 | keeps both ledgers' contributions, each once |
| Tracking.DiffContributions | pkg/controller/graph/tracking.go:439-451 | exactly the prior contributions that are not current |
| Tracking.ContributionSkipIffTracked | pkg/controller/graph/controller.go:218-223 | with a ledger that repeats nothing, the contribution write-ahead is skipped exactly when every intended contribution is recorded |
| Tracking.ContributionTestExactIffDistinct | pkg/controller/graph/controller.go:218-223 | the contribution test is exact for every intent if and only if the ledger repeats nothing |
| Tracking.GroupOfVersioned | pkg/controller/graph/tracking.go:51-63 | the group of "group/version" is the group |
| Tracking.VersionsShareKey | pkg/controller/graph/tracking.go:44-63 | two served versions of one object have one identity |
| Tracking.KeyOfIff | pkg/controller/graph/tracking.go:44-63 | two entries have one key if and only if group, kind, namespace and name all agree |
| Tracking.UnionByObject | pkg/controller/graph/tracking.go:345-371 | the union names an object exactly when an input does, and none twice, in these four fields |
| Tracking.GroupOfOthers | pkg/controller/graph/tracking.go:51-63 | an apiVersion with no slash or with several has the empty group |
| GraphSafety.StepKeepsInv | pkg/controller/graph/controller.go:302-530 | every step of reconcile, teardown, crash and environment keeps the inventory invariant |
| GraphSafety.RunKeepsInv | pkg/controller/graph/controller.go:203-569 | so does every run |
| GraphSafety.CrashSafety | pkg/controller/graph/controller.go:356-530 | at every moment each live object and contribution is in the persisted inventory, unless it was written untracked and not recorded since |
| GraphSafety.FinalizerGoesLast | pkg/controller/graph/controller.go:229-300 | the finalizer is absent only when nothing else is live, on every error, retry and fallback-identity path |
| GraphSafety.PublishedCycleIsTracked | pkg/controller/graph/controller.go:742-779 | after a successful final status write everything the cycle wrote is tracked, foreseen or not |
| GraphSafety.WrittenAheadRunsAreSafe | pkg/controller/graph/controller.go:203-225 | when applies stay inside what was written ahead, nothing live is ever untracked and the finalizer goes only when nothing is live |
| GraphSafety.DeleteVerdict | pkg/controller/graph/controller.go:248-278 | a teardown delete counts as failed exactly when it failed, or was forbidden and the second identity was missing, failed or forbidden too |
| GraphSafety.ReleaseVerdict | pkg/controller/graph/controller.go:279-287 | a teardown release stops with a failure exactly then, and else goes on to the next contribution |
| GraphHistory.LeavesOnlyWhenGone | pkg/controller/graph/controller.go:452-489 | an identity that was persisted leaves only after a successful prune of the same cycle that had it among its candidates, or found it intended for the first time and not applied; what that prune saw tracked, or its cycle had written, is gone |
| GraphHistory.ContributionLeavesOnlyWhenReleased | pkg/controller/graph/controller.go:512-529 | a persisted contribution leaves only at the final ledger write after a successful release of the same cycle, which relinquished it, or if the cycle intended it for the first time and did not report it; what was relinquished, or patched by the cycle, is no longer owned |
| GraphHistory.CleanCycleLeaves | pkg/controller/graph/controller.go:742-779 | the converse over runs: a cycle whose apply and prune succeeded and whose spec did not change leaves, entry by entry, exactly what it applied and what it fetched, did not apply, and whose node is unresolved; every other candidate has left |
| GraphHistory.NotReadyCycleLeaves | pkg/controller/graph/controller.go:469-478 | a cycle that is only not ready leaves, by identity, the same and what it still intends after the prune |
| GraphHistory.FailedCycleKeeps | pkg/controller/graph/controller.go:452-487 | a cycle that failed hard, or whose prune failed, leaves every identity it fetched, intended or applied |
| GraphHistory.FailedIntentIsRecorded | pkg/controller/graph/controller.go:210-216 | when the write-ahead fails, the status write that follows still records what was fetched and intended |
| GraphHistory.ChangedSpecDropsNothing | pkg/controller/graph/controller.go:748-757 | if the generation is no longer the fetched one, the status write leaves exactly the persisted identities and those to publish, so none leaves |
| GraphHistory.ChangedSpecRecords | pkg/controller/graph/controller.go:748-757 | and all that a clean cycle applied is among them |
| GraphHistory.GenerationTells | pkg/controller/graph/controller.go:748-757 | the generation is the fetched one if and only if neither the spec changed nor a deletion was asked for since |
| GraphHistory.RecordLeaves | pkg/controller/graph/controller.go:512-529 | the final ledger write leaves exactly the contributions that the cycle's apply reported |
| GraphHistory.ReleasesOnlyAfterCleanApply | pkg/controller/graph/controller.go:489-528 | in every run only a clean apply is followed by a release or the final ledger write |
| GraphHistory.PruneDeletes | pkg/controller/graph/controller.go:425-465 | a prune removes no object but candidates, and none after a hard error |
| GraphOrphans.UntrackedWriteOrphans | pkg/graphengine/executor/simple.go:533-590 | after any write of an object that no entry of the inventory would delete, some run of successful requests ends without finalizer and Graph while the object lives on |
| GraphOrphans.UntrackedPatchOrphans | pkg/controller/graph/controller.go:229-300 | the same for any contribution outside the persisted ledger |
| GraphOrphans.OutlivesIffUntracked | pkg/controller/graph/controller.go:229-300 | a written object that nothing records afterwards can outlive the finalizer if and only if no entry of the inventory hits it at the write, that is, with distinct identities, if it is not tracked |
| GraphOrphans.ContributionOutlivesIffUnrecorded | pkg/controller/graph/controller.go:229-300 | a contribution that nothing records afterwards can outlive the finalizer if and only if the persisted ledger does not name it |
| GraphOrphans.RecreateThenCrashOrphans | pkg/graphengine/executor/simple.go:533-590 | in particular any recorded object recreated under a new UID that is not recorded outlives finalizer and Graph in some run |
| InstanceInventory.OwnedUnresolved | pkg/controller/instance/controller_graph_engine.go:356-375 | exactly the unresolved names of template nodes, subgraph nodes and non-nodes |
| InstanceInventory.OwningIff | pkg/controller/instance/controller_graph_engine.go:356-375 | with distinct node names a name is owning unless it is that of a patch, ref or def node |
| InstanceInventory.PruneGate | pkg/controller/instance/controller_graph_engine.go:332-347 | fully resolved exactly without hard error and unresolved owners; a restriction exactly on partial cycles, to observed templates that are not unresolved |
| InstanceInventory.ScopeFromApplied | pkg/controller/instance/controller_graph_engine.go:666-686 | the kinds of the batch and its namespaces other than the parent's |
| InstanceInventory.ScopeMeans | pkg/controller/instance/controller_graph_engine.go:666-686 | a kind or namespace is in the scope exactly when an entry with a readable apiVersion has it, and the namespace is not the parent's |
| ApplySet.ScopeSearches | pkg/controller/instance/applyset/applyset.go:478-486 | of a recorded kind a listing finds cluster-scoped objects, those in recorded namespaces, and those in the parent's own or, for a cluster-scoped parent, default |
| InstanceInventory.BatchCovers | pkg/controller/instance/controller_graph_engine.go:666-686 | a listing over the batch's own scope finds every object the batch records |
| InstanceInventory.ValidateAppliedIdentities | pkg/controller/instance/controller_graph_engine.go:495-509 | accepts exactly the batches in which no two nodes wrote one object, named by its apiVersion as written, kind, namespace and name |
| InstanceInventory.SortByOrder | pkg/controller/instance/controller_graph_engine.go:721-727 | the same candidates in descending apply order, those without a valid order first, and candidates of one order as they were listed |
| InstanceInventory.PruneFacts | pkg/controller/instance/controller_graph_engine.go:695-770 | only selected orphans change, and without failure or conflict each is gone if it is to be kept by the user, else gone or being deleted |
| InstanceInventory.PruneRequests | pkg/controller/instance/controller_graph_engine.go:729-764 | every request of a prune goes to a member that the restriction admits, and is a release exactly when the policy gate is on and the member is annotated Orphaned, else a delete; without failure every admitted candidate is asked |
| InstanceInventory.AnswersDecide | pkg/controller/instance/controller_graph_engine.go:729-770 | a prune fails exactly when the request for some selected orphan fails, and otherwise has conflicts exactly when one conflicts |
| InstanceInventory.PruneOrder | pkg/controller/instance/controller_graph_engine.go:721-764 | deletes and releases are sent in descending apply order |
| InstanceInventory.UnorderedFirst | pkg/controller/instance/controller_graph_engine.go:772-782 | members without a valid order are asked before all others |
| InstanceCycle.Instance.PreApply | pkg/controller/instance/controller_graph_engine.go:514-544 | the recorded scope becomes the union of the candidates and what was recorded, also when the write reports a failure after taking effect; otherwise nothing changes |
| InstanceCycle.Instance.ReconcileInventory | pkg/controller/instance/controller_graph_engine.go:405-491 | which scope is recorded and what is pruned on every path, with each request of the kind that gate and annotation call for, and exactly when each outcome occurs and when the scope is written, failed writes that took effect included |
| InstanceCycle.DiscoveryIffCovered | pkg/controller/instance/deletion.go:87-111 | listing by the recorded scope misses no living member exactly when the scope covers them all |
| InstanceCycle.WrittenCycleCovers | pkg/controller/instance/controller_graph_engine.go:439-479 | after a post-apply inventory write that took effect, reported or not, every living member is covered |
| InstanceCycle.CoverageIff | pkg/controller/instance/controller_graph_engine.go:405-491 | a cycle keeps coverage if and only if it wrote its inventory or applied nothing outside the pre-apply superset |
| InstanceCycle.ScopeOnlyGrows | pkg/controller/instance/controller_graph_engine.go:392-404 | over every run the recorded scope never shrinks except at fully resolved, conflict-free cycles whose final write took effect |
| InstanceCycle.DiscoveryFindsAll | pkg/controller/instance/deletion.go:85-111 | so deletion discovery from the recorded scope alone misses no living member |
| InstanceCycle.PartialWriteDropsCandidates | pkg/controller/instance/controller_graph_engine.go:452-465 | the grow-only write keeps the pre-apply superset exactly when every candidate was applied or recorded before |
| InstanceCycle.PruneGating | pkg/controller/instance/controller_graph_engine.go:332-347 | hard errors never prune, unrestricted pruning needs full resolution, partial cycles touch only orphans of observed, resolved template nodes, nothing applied under its UID is touched, requests are releases exactly for members to be kept, and such a member is released or left alone |
| InstanceCycle.PruneDependentsFirst | pkg/controller/instance/controller_graph_engine.go:721-727 | with the graph's apply orders, whatever a cycle asks of a dependent's member it asks before anything of its dependency's |
| InstanceCycle.NoOrphanLeft | pkg/controller/instance/controller_graph_engine.go:405-491 | after a fully resolved cycle that wrote its scope, no living member that it did not apply is left within the scope searched |
| InstanceCycle.RunCovers | pkg/controller/instance/controller_graph_engine.go:405-544 | over every run of cycles that write or foresee, coverage always holds |
| InstanceCycle.ConflictLosesNamespace | pkg/controller/instance/controller_graph_engine.go:467-489 | a run of a clean cycle and a fully resolved one that meets a conflict, after which an applied object is uncovered |
| DeletionWaves.HighestDeletionWave | pkg/controller/instance/deletion.go:161-179 | exactly the candidates of the highest order, missing, invalid and non-positive orders counting as 0 |
| DeletionWaves.ReleaseOrphanedResources | pkg/controller/instance/deletion.go:118-142 | only members annotated Orphaned are released, and only behind the gate; without error the rest is what remains to delete |
| DeletionWaves.Context.RemoveFinalizer | pkg/controller/instance/deletion.go:182-234 | the finalizer goes only after exactly kro's own contributions were released, even if its removal reports a failure, and only they are ever released; removal is reported exactly when nothing fails |
| DeletionWaves.Context.ReconcileDeletion | pkg/controller/instance/deletion.go:38-83 | deletes go only to the highest remaining wave, the finalizer only when nothing is left, and a round in which nothing fails removes the finalizer or gets rid of the whole highest wave and of all that is to be released |
| DeletionRuns.HighestGoesFirst | pkg/controller/instance/deletion.go:61-76 | in every run, from the moment a delete is sent no member to delete has a higher order |
| DeletionRuns.DependentsGoFirst | pkg/controller/instance/deletion.go:155-179 | with the graph's apply orders, once a dependency's member was deleted no member of a dependent is left to delete |
| DeletionRuns.UnorderedGoLast | pkg/controller/instance/deletion.go:155-179 | once a member without a positive order was deleted, none with one is left to delete |
| DeletionRuns.FinalizerLast | pkg/controller/instance/deletion.go:57-59 | in every run the finalizer is gone only when nothing is left and all of kro's contributions, and no others, were released |
| DeletionRuns.NothingAliveAtTheEnd | pkg/controller/instance/deletion.go:85-111 | with the coverage that reconcile cycles maintain, no living member outlasts the finalizer |
| DeletionRuns.RoundShrinks | pkg/controller/instance/deletion.go:61-82 | a reconcile without failures and conflicts that does not remove the finalizer gets rid of a member, once what it deletes is gone |
| DeletionRuns.RoundsEnd | pkg/controller/instance/deletion.go:38-83 | while the finalizer is there, every such round has removed a member |
| DeletionRuns.RoundIsSteps | pkg/controller/instance/deletion.go:38-83 | such a round consists of steps of the runs above, so their order and finalizer results hold of it |
| DeletionRuns.FinalizerGoes | pkg/controller/instance/deletion.go:38-83 | after one such round more than there were members, the finalizer is gone |
| Conditions.Set | pkg/apis/condition_set.go:159-220 | the list after a Set and the following root write, whether anything changed, and termination of the mutual recursion; the rows below say what that list holds |
| Conditions.RecomputeRoot | pkg/apis/condition_set.go:298-312 | writes the root that the dependents call for |
| Conditions.FindUnhealthyDependents | pkg/apis/condition_set.go:338-356 | exactly the dependents that are False, Unknown or stale, in descending order of transition time |
| Conditions.FindMostUnhealthy | pkg/apis/condition_set.go:314-336 | some False condition with the latest transition time, else some Unknown one, else none |
| Conditions.SetGet | pkg/apis/condition_set.go:159-220 | a Set stores its condition stamped, writes the root, and keeps every other condition up to the deletion bump |
| Conditions.SetLeavesOthers | pkg/apis/condition_set.go:168-174 | a Set leaves every condition but the root and the one set as it was, observed generation included, unless the object is being deleted; then only their observed generation changes, to the current one |
| Conditions.SetStores | pkg/apis/condition_set.go:167-195 | the condition set has the current generation, and keeps its time exactly as its status stays; a new status takes the present, a new dependent the time of creation; nothing is modified exactly when it stays equal |
| Conditions.ArrangedMeans | pkg/apis/condition_set.go:198-214 | the root stands last and the rest is in ascending time, those without a time first |
| Conditions.RootFollowsDependents | pkg/apis/condition_set.go:297-336 | after a modifying Set the root is False if any dependent is, else Unknown if any is, else True if all are current, else unchanged, with the latest offender's reason; the list ends with the root and the rest is sorted by time |
| Conditions.EchoIsLatest | pkg/apis/condition_set.go:314-336 | the status, reason and message of an unhealthy root are those of a dependent with that status whose time is the largest |
| Conditions.TrueRootSays | pkg/apis/condition_set.go:298-312 | a root set True has its type as reason, no message and the current generation |
| Conditions.NewConditionTypes | pkg/apis/condition_types.go:81-94 | computes the deduplicated dependents that the next row describes |
| Conditions.NewTypesAreValid | pkg/apis/condition_types.go:81-94 | the root never depends on itself, no dependent repeats, none is lost |
| Conditions.For | pkg/apis/condition_types.go:60-74 | prunes, then sets the root and each dependent Unknown where missing |
| Conditions.Clear | pkg/apis/condition_set.go:224-250 | refuses the root and its dependents, otherwise drops the condition and sorts by type |
| ReadyRuns.SetKeepsSound | pkg/apis/condition_set.go:159-220 | setting any condition but the root, to any status, keeps the invariant behind readiness |
| ReadyRuns.ForSound | pkg/apis/condition_types.go:60-74 | For leaves every dependent present and the invariant intact, whatever it pruned |
| ReadyRuns.ReadyIffNoneOdd | pkg/apis/condition_set.go:96-105 | in every run from a sound object, after For, a ready root means that every dependent is present, current and neither False nor Unknown, so that all are healthy if and only if no status is outside the three |
| ReadyRuns.ReadyIffPassing | pkg/apis/condition_set.go:298-312 | after a modifying Set the root is ready if and only if every dependent is present, current and neither False nor Unknown |
| ReadyRuns.ReadyIsSound | pkg/apis/condition_set.go:96-105 | in every run after For that sets only the three statuses, a ready root means every dependent is present, True and observed at the current generation |
| ReadyRuns.ReadyWasSetNow | pkg/apis/condition_set.go:167-174 | over runs without deletion a ready root means that each dependent was set, with the status it has, at the current generation, or stands as it did at the start |
| ReadyRuns.ChangedOnlyWhenSet | pkg/apis/condition_set.go:159-220 | without deletion a dependent changes only where it is set, or where For creates it, at the generation of that moment |
| ReadyRuns.ForLeaves | pkg/apis/condition_types.go:60-74 | For leaves what it finds and does not prune, creates missing dependents, and leaves none it prunes unless it is a dependent |
| ReadyRuns.ReadyIffHealthy | pkg/apis/condition_set.go:96-105 | after a modifying Set to one of the three statuses the root is ready if and only if all dependents are healthy |
| ReadyRuns.OddSetFoolsRoot | pkg/apis/condition_set.go:338-350 | from every sound object whose dependents are all healthy, any Set of one to another status leaves the root ready while that dependent is not True |
| ReadyRuns.OddStatusFoolsRoot | pkg/apis/condition_set.go:338-350 | a run from any sound object that ends so: For, every dependent set True, and one Set to another status |
| ReadyRuns.ForReadyIff | pkg/apis/condition_types.go:60-74 | on any object, For either finds every condition after pruning and changes nothing more, or leaves a root that is not ready |
| ReadyRuns.ForTrustedIff | pkg/apis/condition_types.go:41-46 | after For a ready root can be trusted if and only if the pruned object lacked a condition, had no ready root, or only dependents that pass |
| ReadyRuns.OtherTypesFoolRoot | pkg/apis/condition_types.go:41-46 | For keeps a ready root that other types left over dependents that are False |
| SimpleSchema.TypeRoundTrip | pkg/simpleschema/parse.go:79-133 | printing and parsing a type gives it back if and only if it has at most 16 wrappers |
| SimpleSchema.TypeRoundTripAt | pkg/simpleschema/parse.go:83-118 | at any depth, and otherwise the error is the nesting limit |
| TypeTexts.TypeTextParsed | pkg/simpleschema/parse.go:79-133 | a text that spells wrappers around a core, with any white space between, parses to that type, or is refused for its depth, a missing element or its map key, at the first of these from the left |
| TypeTexts.EveryTextSpells | pkg/simpleschema/parse.go:79-133 | and every text spells some wrappers around a core |
| Markers.ParseMarkers | pkg/simpleschema/markers.go:117-184 | the character loop computes the state machine's result, errors and panics included, which the rows below state on the text |
| Markers.UnescapeString | pkg/simpleschema/markers.go:197-220 | computes the unescaping that the next row inverts |
| Markers.UnescapeEscape | pkg/simpleschema/markers.go:197-220 | unescaping undoes escaping for any text |
| Markers.UnescapeLeaves | pkg/simpleschema/markers.go:206-212 | a backslash before anything but a quote or a backslash stays |
| Markers.FaultIffLoneQuote | pkg/simpleschema/markers.go:186-191 | the parser panics exactly when the last character is the opening quote of a value |
| Markers.MarkersRoundTrip | pkg/simpleschema/markers.go:117-220 | any non-empty list of markers prints and parses back, whether a value is written in quotes, which any text can be, or bare, which any trimmed text without quotes can be that balances its brackets and has white space only inside them |
| MarkerErrors.RejectedIff | pkg/simpleschema/markers.go:125-166 | the parser stops with an unmatched closing bracket, an empty or an unknown key if and only if some character is the first to close nothing or to end such a key |
| MarkerErrors.EndIff | pkg/simpleschema/markers.go:168-191 | on a text with no such character it fails for a key without a value, a panic on a lone quote, an open quote or an open bracket exactly when the text ends so, and else succeeds |
| Markers.ParseField | pkg/simpleschema/parse.go:35-50 | parses the type and the markers after the first bar |
| Markers.FieldRoundTrip | pkg/simpleschema/parse.go:35-50 | a printed type with any such markers parses back to the same, if and only if the type has at most 16 wrappers |
| WatchManager.Manager.Attach | pkg/watch/manager.go:120-142 | the locked part of EnsureWatch adds the owner and starts an informer only if none runs |
| WatchManager.Manager.ReleaseWatch | pkg/watch/manager.go:162-173 | drops the owner, and stops the informer exactly when it was the last one |
| WatchManager.Manager.Shutdown | pkg/watch/manager.go:194-203 | cancels each running informer once and clears everything |
| WatchManager.RunValid | pkg/watch/manager.go:120-276 | every interleaving keeps the manager's invariant |
| WatchManager.RunningIffOwned | pkg/watch/manager.go:45-55 | under every interleaving a kind has a running informer exactly when it has owners; each informer is started once and cancelled at most once |
| WatchManager.OwnerKeepsInformer | pkg/watch/manager.go:110-119 | an owner keeps the informer it waited for until it releases, one of its own calls times out, or Shutdown |
| WatchManager.OverlappingCallsLoseWatch | pkg/watch/manager.go:149-155 | overlapping calls under one id do not protect each other |

## Left out

- API server I/O, retries on conflict, field managers, impersonation, logging, metrics and events: an API call is one step that may fail.
- The executor, runtime, compiler and projection of intended resources: what they promise is a stated hypothesis. For the Graph controller, that Apply lists everything it wrote with the UID of each object, that a recorded UID is a delete precondition whose mismatch is tolerated, and that a nil Delete or Release means that what it named is gone. For instances, that Applied lists every written object with its UID and that a UID names one object.
- One reconciler runs per Graph and per instance and reads are fresh: concurrent reconciles of one object are not modelled.
- The service-account identity recorded with a Graph: its effect on teardown, whether a second identity may retry a forbidden call, is a nondeterministic flag.
- `container/heap`: the heap is a multiset whose least item is extracted; the sift operations are not part of this model.
- Vertex identifiers are strings, the only instantiation of the generic graph.
- CEL text, parsing, type checking and the cost limits: expressions are syntax trees, and a text that does not parse is a value of its own.
- CelInspector.Inspector.InspectExpr: the access paths and the rendered call arguments in the report are not modelled, and a namespaced function is recognised by the qualified name of its target, not by its rendered text.
- GraphBuild.BuildDependencyGraph: the nodes come as a sequence in any order, since a map's iteration order is arbitrary, and none lists dependencies yet.
- Tracking: an apiVersion is held as its parsed group and version.
- The step form of `controller.go`: the Graph object a reconcile holds in memory is a value of the step machine, not an object with fields.
- Backoff, requeue delays, status projection and author conditions of instances.
- ApplySet.ListOrphans: kinds whose mapping is missing have no live objects and are not listed; annotations are held parsed, and their hash and validation are one possible failure.
- InstanceInventory.ValidateAppliedIdentities: the key is a tuple, not its parts joined by slashes, which no kind, namespace or name contains.
- InstanceCycle.Cycle: terminating members are not required to be covered, since their deletion was already accepted.
- DeletionWaves.Context.RemoveFinalizer: an unset executor, which would skip the release of contributions, is not modelled.
- Conditions.Set: the empty condition set of a nil object, which does nothing, is not modelled, and the clock is a parameter.
- Conditions.RootFollowsDependents: which of several False dependents with one transition time is copied is left open, as the sort is unstable.
- ReadyRuns.ReadyIsSound: callers that set the root directly are not part of the runs, and the object a run starts from satisfies the invariant, as a new one does (ReadyRuns.NewObject); what For makes of others is ReadyRuns.ForReadyIff.
- SimpleSchema: strings are sequences of Unicode scalar values, so invalid UTF-8 is not modelled; applying markers to an OpenAPI schema and nested object specifications are left out.
- Informer events, resync, the sync wait itself and the metrics of the watch manager.
- The CEL function libraries, `krep`, the website and the CLI.
