# CodeAtlas: models and proofs of its analyses and protocols

CodeAtlas analyses a source graph (files, symbols, edges, contexts) and an architecture described
by documents. This project models the algorithms that decide its answers and proves what they
promise. Identifiers, paths and digests are opaque strings with equality and an order; the file
system, the network, clocks and serialization are parameters or left out.

One module models one component:

- `Walks`, `BreadthFirst`, `Texts`, `Timestamps`: walks in a directed graph, the invariant of the
  first-in first-out searches, string order, and timestamps in the form of RFC 3339.
- `SourceGraphs`: the source graph and its validation.
- `Effects`: propagation of callable effects from callees to callers under four limits.
- `Reachability`: which contexts reach which nodes and from which root, searched from all roots and
  searched backwards from a few targets.
- `DeadCode`: findings on unreached files and symbols, and when a finding may fail a build.
- `Cancellation`: registration of the budget an interrupt cancels, as interleaved atomic steps.
- `ImportCycles`, `Documents`: the two import-cycle checks, the bounded loader of architecture
  documents and their import closures.
- `RelationPaths`, `SourceConformance`: path and cycle constraints of the compiled graph, and
  forbidden dependency paths between workspace projects.
- `SymbolTrees`, `Representatives`, `PackageExports`: trees of declaration symbols, which original a
  merged symbol stands for at every place, and the merge.
- `ApiBaseline`, `ApiDiff`: the public API baseline and its comparison.
- `Conformance`: the evaluator of observed facts, its guard, and policy exceptions.
- `ProviderQuery`: the relation index and the query for approved providers.
- `InstallLock`: the installer's lock file and double-checked publication, as interleaved steps.

A loop over an ordered map or set takes the elements in any order, so what is proved holds for the
source's order too. Lists that the source keeps sorted and free of repetition are sets wherever the
order is not what is at stake.

## What the code does that its readers may not expect

- A policy exception is never applied to a result (`Conformance.Conform`). Exceptions are looked up
  only for results about constraints (`src/architecture/conformance.rs:539-543`), constraints only
  ever get advisory results (`src/architecture/conformance.rs:437-452`), and an id names either an
  object or a constraint, not both (`src/architecture/graph.rs:84-105`). Sections 6 and 8 of
  `spec/architecture/v0.1/spec/conformance-semantics.md` describe exceptions that change severities.
  `Conformance.RelaxedExactly` gives the exact condition on arbitrary results.
- A fact whose target is not declared, and whose own id is the id of a binding, replaces the
  binding's result. `Conformance.BindingReportedExactly` and `Conformance.ErrorLostExactly` say when a
  binding's result and when its error is lost, and `Conformance.FactHidesBinding` shows that it happens.
- A query for approved providers can crash on a compiled graph: the vocabulary lets a capability name no
  contract, and compilation does not check that what it names is one
  (`spec/architecture/v0.1/vocabularies/core.v0.1.atlas.yaml:64-68`, `src/architecture/graph.rs:173-190`).
  `ProviderQuery.MissingContractCrashes` and `ProviderQuery.CapabilityAsContractCrashes` are such graphs;
  `ProviderQuery.QueryApprovedProviders` says exactly when it happens.
- Below the top level a merge of symbols may keep a symbol that another one precedes, because absorbing an
  export path can make the kept symbol a root export before it meets the other
  (`src/analysis/package_exports.rs:45-61`, `:73-81`). It takes two packages of one key, an unnamed one and
  the one named public-api (`PackageExports.PromotionHappens`). The program's only caller never has them
  in one report: scanners give symbols no package, and annotation gives the package of the report to all of
  its symbols or to none (`src/commands/mod.rs:183-210`, `src/analysis/package_exports.rs:13-16`). Where
  nothing is promoted the least symbol is kept at every place (`PackageExports.LeastRepresentsBelow`), so for
  every report of either kind (`Representatives.AnnotatedIsUnpromoted`, `Representatives.UnnamedIsUnpromoted`);
  and every pair that is promoted goes wrong in some tree (`PackageExports.PromotionMisrepresents`), although
  not in every one: a root export of the same key comes before it. In the same way the first documentation
  is kept below the top level where documented symbols come first (`PackageExports.FirstDocsBelow`), and
  every pair in which they do not goes wrong in some tree (`PackageExports.LateDocsComeFirst`).
- The scheduler drops its context, the last owner of the budget, before the cancellation
  registration (`src/execution/scheduler.rs:39-43`). The drop then finds no live budget and leaves
  the latch set, and the next registration starts cancelled
  (`Cancellation.StaleLatchCancelsNextRun`). `Cancellation.NextIsCancelledExactly` says after which drops
  that happens in every run: those that find the latch set and no live owner in the slot.
- Removing a lock file because it is old is unsafe even if only the files of dead installers grow
  old: two installers may see the same file, and the later removal hits the lock the earlier one has
  created since (`InstallLock.OrphanRemovalRaces`). Mutual exclusion holds in every run in which no
  removal hits the lock of a working installer.
- Adding a context can only remove gating file findings, but it can create gating symbol findings
  (`DeadCode.AddingAContextExposesSymbol`); `DeadCode.SymbolFindingIsNewExactly` says when.
- A `no_path` constraint from an object to itself can never be met in the compiled graph
  (`RelationPaths.NoPathToItself`), while the same constraint is never reported for observed
  dependencies (`SourceConformance.DependencyPath`).

## Model

| member | source | states |
|---|---|---|
| Effects.AnnotateCallableEffects | src/analysis/effects.rs:42-170 | Succeeds exactly when nodes, edges, closure pairs and caller visits fit their limits; then every callable holds exactly the closure's effects, and on any error the graph is unchanged |
| Effects.ClosureIsFixpoint | src/analysis/effects.rs:112-154 | The closure holds every seed at its origin and hands every fact from callee to caller |
| Effects.ClosureIsLeast | src/analysis/effects.rs:112-154 | Every set with these two properties contains the closure |
| Effects.FixpointHolds | src/analysis/effects.rs:112-154 | A callable that reaches a fact's origin through calls has the fact in every fixpoint, also around cycles |
| Effects.AnnotatedEffects | src/analysis/effects.rs:156-212 | An annotated callable has an effect exactly when it reaches the origin of a seeded fact that reads so there; direct effects are seeds, propagated ones name another callable it reaches |
| Effects.AnnotationKeepsSeeds | src/analysis/effects.rs:61-110 | An annotated graph seeds the same facts: propagated effects are not seeded again, boundaries seed what they did |
| Effects.AnnotationIsIdempotent | src/analysis/effects.rs:38-170 | Annotating twice is annotating once, and the second run fits the limits when the first did |
| Effects.SeedDirectEffects | src/analysis/effects.rs:61-85 | Records every direct effect at its callable, or fails only when the whole closure exceeds a limit |
| Effects.SeedBoundaries | src/analysis/effects.rs:87-110 | Records an unknown effect for every non-complete boundary on a callable, or fails only when the closure exceeds a limit |
| Effects.CallersByCallee | src/analysis/effects.rs:112-127 | The callers of a callable are the callables with a lexical reference to it |
| Effects.Propagate | src/analysis/effects.rs:129-154 | Drains the worklist to exactly the closure with exactly the closure's work, or fails only when one of them exceeds its limit |
| Effects.HandToCallers | src/analysis/effects.rs:138-153 | Serving one pair hands it to all callers but its origin and counts each visit; skipping the origin loses nothing |
| Effects.DrainedIsClosure | src/analysis/effects.rs:112-154 | When nothing waits, the recorded pairs are the closure and the counted visits are its work, whatever the order |
| Effects.WriteBack | src/analysis/effects.rs:156-168 | Replaces the effects of every callable by those of its facts and changes nothing else |
| Effects.FactStore.InsertFact | src/analysis/effects.rs:172-188 | Adds a fact to a known callable only, says whether it is new, and fails exactly on a new fact beyond the limit |
| Effects.BumpedCount | src/analysis/effects.rs:138-188 | The saturating counters count distinct elements up to the largest machine word |
| Reachability.Analyze | src/analysis/reachability.rs:30-67 | Refuses exactly the invalid graphs; otherwise contexts, roles and roots of every node are those the graph determines |
| Reachability.AnalyzeValidated | src/analysis/reachability.rs:35-67 | For every node: exactly the contexts that reach it, their roles, and per context the root least by distance, then by position |
| Reachability.AnalyzeContext | src/analysis/reachability.rs:38-64 | One context adds exactly its witnesses and nothing else |
| Reachability.Drain | src/analysis/reachability.rs:53-63 | The queue visits every reached node once, under the least pair of distance and root position |
| Reachability.InitialQueue | src/analysis/reachability.rs:39-51 | The queue starts with the roots in order, or with the re-export closure of each root |
| Reachability.Reachability.Record | src/analysis/reachability.rs:69-85 | Adds one visit to contexts, roles and roots alike |
| Reachability.Adjacencies | src/analysis/reachability.rs:133-164 | Runtime edges and re-export edges are told apart exactly |
| Reachability.PublicSurfaceRoots | src/analysis/reachability.rs:166-181 | Exactly the nodes a root reaches by re-exports |
| Reachability.OneWitness | src/analysis/reachability.rs:38-64 | A context has a witness root for a node exactly when it reaches it, and never two |
| Reachability.NoContexts | src/analysis/reachability.rs:87-97 | A node has no context exactly when no context reaches it |
| Reachability.AnalyzeTargets | src/analysis/reachability/targets.rs:6-52 | The backward search gives each target the answers of the full analysis |
| Reachability.AnalyzeTarget | src/analysis/reachability/targets.rs:21-49 | One target adds exactly its visits |
| Reachability.SelectRoot | src/analysis/reachability/targets.rs:27-47 | Selects the least pair of distance and root position there is, or none if no root reaches the target |
| Reachability.RootDistance | src/analysis/reachability/targets.rs:31-42 | The distance of one root, or of the nearest node of its re-export closure |
| Reachability.ReverseAdjacency | src/analysis/reachability/targets.rs:55-68 | The adjacency of the turned edges |
| Reachability.ReverseDistances | src/analysis/reachability/targets.rs:70-86 | The search from the target visits every node under its least depth |
| Reachability.DistancesAreShortest | src/analysis/reachability/targets.rs:70-86 | Depths in the turned graph are shortest distances to the target |
| DeadCode.AnalyzeReport | src/dead_code/analyze.rs:106-303 | Lists exactly the findings files and symbols deserve, at most one for each node |
| DeadCode.FileFindings | src/dead_code/analyze.rs:106-181 | Exactly the deserved file findings, and the files that are unreached or not in production |
| DeadCode.SymbolFindings | src/dead_code/analyze.rs:182-303 | Exactly the deserved findings on symbols of live files |
| DeadCode.FileFinding | src/dead_code/analyze.rs:107-180 | The one finding a file deserves, if any |
| DeadCode.SymbolFinding | src/dead_code/analyze.rs:182-303 | The one finding a symbol deserves, if any |
| DeadCode.PublicDependencyNodes | src/dead_code/analyze.rs:516-555 | Exactly the nodes some public symbol depends on, directly or not |
| DeadCode.HighMeansCertain | src/analysis/reachability.rs:202-221 | A file's confidence is high exactly when its project is known and complete and no boundary concerns the file |
| DeadCode.GatingFileExactly | src/dead_code/model.rs:162-173 | A file may fail the build exactly when no context reaches it, no public symbol depends on it and its confidence is high |
| DeadCode.GatingSymbolExactly | src/dead_code/analyze.rs:182-303 | A symbol may fail the build exactly when its file is live, no context reaches it, no public symbol depends on it, it is not public and its confidence is high |
| DeadCode.LiveMeansProduction | src/dead_code/analyze.rs:121-187 | A file is live exactly when a production context reaches it |
| DeadCode.AddingContextsRemovesFileFindings | src/dead_code/analyze.rs:109-147 | Adding contexts or roots never makes a file fail the build |
| DeadCode.SymbolFindingIsNewExactly | src/dead_code/analyze.rs:182-303 | After adding contexts a failing symbol failed before exactly when its file was live before |
| DeadCode.AddingAContextExposesSymbol | src/dead_code/analyze.rs:182-303 | A graph in which one added production context makes a symbol fail the build |
| Cancellation.ReachableKeeps | src/execution/cancellation.rs:14-69 | Every interleaving keeps one claim to the owner slot and loses no interrupt |
| Cancellation.SlotClaimKept | src/execution/cancellation.rs:14-46 | Every step keeps that a budget being registered is the live owner, alone |
| Cancellation.LiveClaimKept | src/execution/cancellation.rs:14-46 | Every step keeps that the budget of a live registration is the live owner, alone |
| Cancellation.NothingLostKept | src/execution/cancellation.rs:22-69 | Every step keeps that an owed cancellation has happened or is still on its way |
| Cancellation.NoInterruptIsLost | src/execution/cancellation.rs:14-69 | While a registration stands and its budget lives, an interrupt latched at publication or stored since has cancelled it once no handler is at work |
| Cancellation.AtMostOneLiveOwner | src/execution/cancellation.rs:19-21 | At most one registration is live, and the slot holds its budget |
| Cancellation.DropClearsExactly | src/execution/cancellation.rs:31-46 | A drop resets owner and latch exactly when its budget is alive, and otherwise touches neither |
| Cancellation.NextStartsUncancelled | src/execution/cancellation.rs:31-46 | After a drop that found its budget alive nobody is cancelled until a handler runs, whatever falls between the two steps of the drop |
| Cancellation.NextIsCancelledExactly | src/execution/cancellation.rs:22-46 | After a drop, every run without further handler steps cancels the first budget published in it, exactly when the latch was set and no live owner was in the slot |
| Cancellation.ArmedRun | src/execution/cancellation.rs:22-29 | While the latch is set and there is no live owner, whoever publishes first is bound to be cancelled |
| Cancellation.OwnerHeldKept | src/execution/cancellation.rs:22-46 | Every step keeps that a live owner is being registered or has a registration |
| Cancellation.StaleLatchCancelsNextRun | src/execution/scheduler.rs:39-43 | A run in which a budget created after the last handler step is cancelled by an earlier interrupt |
| ImportCycles.ValidateImportCycles | src/architecture/graph.rs:281-321 | Reports nothing exactly when the imports are acyclic; a report is a real import walk that ends on a module it has passed |
| ImportCycles.Explore | src/architecture/graph.rs:284-318 | One root's stack search finishes every module behind it, imports before importers, or finds a returning walk |
| ImportCycles.ReturningWalk | src/architecture/graph.rs:293-306 | A reported walk proves a cycle |
| ImportCycles.CycleVisitor.Visit | src/architecture/documents.rs:307-332 | The recursive visit completes a module with all its imports, or names a module on a cycle |
| ImportCycles.ValidateImportCyclesByVisit | src/architecture/documents.rs:306-345 | The recursive check accepts exactly the graphs the stack search accepts |
| ImportCycles.SameCycles | src/architecture/documents.rs:316-325 | Imports of unknown modules close no cycle |
| Documents.Load | src/architecture/documents.rs:28-211 | Succeeds exactly on files that are loadable, have different ids, pin what they import and import without a cycle; then it holds exactly the needed documents by id, and the ids of the roots |
| Documents.LoadDocuments | src/architecture/documents.rs:47-153 | Reports nothing exactly when all documents reachable by imports are usable, at most 32 imports away, at most 4096 and at most 64 MiB together; then it holds exactly those |
| Documents.LoadOne | src/architecture/documents.rs:61-151 | One path loads exactly when depth, count, bytes and contents allow it, and contributes exactly its imports; otherwise every code names something wrong with it, and only the two ceilings stop the load |
| Documents.NextFails | src/architecture/documents.rs:57-151 | Whatever stops one path from loading makes the whole set unloadable |
| Documents.AllLoaded | src/architecture/documents.rs:57-153 | An emptied queue without report has loaded exactly the needed documents, each by a shortest chain within the ceilings |
| Documents.IndexById | src/architecture/documents.rs:155-168 | Reports duplicates exactly when two documents share an id, and otherwise indexes all of them |
| Documents.ValidateImports | src/architecture/documents.rs:257-304 | Reports nothing exactly when every import names the id, version and digest of the document its source leads to |
| Documents.ValidateImport | src/architecture/documents.rs:262-301 | The same for one import; it is unresolved exactly when no document has its id |
| Documents.RootIds | src/architecture/documents.rs:172-197 | Exactly the ids of the roots' documents; a report exactly when a root has none |
| Documents.ImportClosure | src/architecture/documents.rs:220-255 | Exactly the ids reached by imports, or nothing when one of them is unknown |
| Documents.ClosureIgnoresOrder | src/architecture/documents.rs:220-255 | The order and repetition of imports do not matter to a closure |
| Documents.ClosureFollowsFiles | src/architecture/documents.rs:220-255 | In an accepted set the closure over ids is the closure over files and never meets an unknown id |
| RelationPaths.EdgePathExists | src/architecture/graph.rs:640-655 | True exactly when a walk exists, of at least one edge when one is required |
| RelationPaths.ValidatePredicateCycles | src/architecture/graph.rs:585-615 | Reports nothing exactly when every predicate that forbids cycles has an acyclic relation graph; a report names such a predicate and a node on its cycle |
| RelationPaths.CyclesStartOnEdges | src/architecture/graph.rs:605-612 | It is enough to look for cycles through the sources of edges |
| RelationPaths.EvaluateConstraint | src/architecture/graph.rs:458-579 | Fails exactly when the rule's names are known and the graph does not do what the rule demands; unknown names are reported instead, one by one for paths |
| RelationPaths.EvaluateConstraints | src/architecture/graph.rs:448-583 | Raises nothing exactly when every constraint is known and met, and blames exactly the others |
| RelationPaths.MissingContracts | src/architecture/graph.rs:552-577 | Fails exactly when an object of the kind and visibility lacks a contract |
| RelationPaths.RelationEdges | src/architecture/graph.rs:617-638 | Exactly the edges of the listed predicates |
| RelationPaths.NoPathToItself | src/architecture/graph.rs:641-646 | A forbidden path from an object to itself always exists |
| RelationPaths.MorePredicatesForbidMore | src/architecture/graph.rs:617-638 | A path rule met for many predicates is met for some of them |
| SourceConformance.Analyze | src/architecture/source_conformance.rs:68-183 | A constraint is reported exactly when production code of a valid graph breaks it, with a shortest path among the connected projects and, for each hop, the first evidence of the edges that cross over; the counters are the numbers of evaluated and of unbound constraints |
| SourceConformance.CheckConstraint | src/architecture/source_conformance.rs:82-163 | A violation comes with a shortest path and one item of evidence for each hop |
| SourceConformance.DependencyPath | src/architecture/source_conformance.rs:323-353 | A path exactly when the target is another project the source reaches; it is a shortest walk of different projects between them |
| SourceConformance.PathTo | src/architecture/source_conformance.rs:341-346 | Following parents ends at the source and gives a walk as long as the target's level |
| SourceConformance.FoundByLevel | src/architecture/source_conformance.rs:328-351 | Whatever a walk reaches within the served levels was found no later |
| SourceConformance.FirstFound | src/architecture/source_conformance.rs:334-348 | A project not found yet has no walk within the levels seen so far |
| SourceConformance.EvidenceAlong | src/architecture/source_conformance.rs:139-148 | No hop of a dependency path is without evidence, and the first item in order is taken |
| SourceConformance.FirstOf | src/architecture/source_conformance.rs:226-231 | The least of the items by path, span and extractor |
| SourceConformance.WorkspaceDependencies | src/architecture/source_conformance.rs:185-233 | For each pair of projects exactly the evidence of the production edges between them, and no empty entry |
| SourceConformance.CollectedAll | src/architecture/source_conformance.rs:185-233 | One project depends on another exactly when some production edge crosses over; none on itself |
| PackageExports.MergeSymbols | src/analysis/package_exports.rs:44-84 | The merge as a function of the list; at every level different keys in ascending order and no fact lost or invented; at the top the first symbol and the first documentation of each key and, unless something is promoted, the least symbol at every place below; a merged list is left as it is |
| PackageExports.ScanReport.ConsolidateDeclarationSymbols | src/analysis/package_exports.rs:43-89 | The report's symbols become their merge, and are counted |
| PackageExports.ConsolidateTwice | src/analysis/package_exports.rs:43-89 | Consolidating twice is consolidating once |
| PackageExports.MergedSymbol | src/analysis/package_exports.rs:63-83 | A key's merged symbol exports the union, is referenced only if all are, is documented if one is, and is alone |
| PackageExports.KeyKept | src/analysis/package_exports.rs:63-85 | No key is lost |
| PackageExports.LeastRepresents | src/analysis/package_exports.rs:45-61 | At the top level a key is always represented by its least symbol, the earliest among equals |
| PackageExports.LeastRepresentsBelow | src/analysis/package_exports.rs:44-84 | Unless something is promoted, at every place of the tree the merged symbol is an original that none there precedes, is a root export exactly when it is, and has its documentation |
| PackageExports.FirstDocsBelow | src/analysis/package_exports.rs:76-78 | Where documented originals come first, the documentation at a place is that of an original that no documented one precedes |
| Representatives.MergedTwice | src/analysis/package_exports.rs:79-81 | Merging two merges represents the originals of both as one merge would |
| Representatives.StillUnpromoted | src/analysis/package_exports.rs:73-81 | Where the originals promote nothing, neither do their merges |
| Representatives.AnnotatedIsUnpromoted | src/analysis/package_exports.rs:13-16 | Symbols that were all given one package promote nothing |
| Representatives.UnnamedIsUnpromoted | src/commands/mod.rs:183-210 | Symbols of a report that is not annotated, none of which has a package, promote nothing either |
| PackageExports.PromotionMisrepresents | src/analysis/package_exports.rs:45-84 | Every pair of symbols of which one promotes the other makes the merge of some tree keep a symbol that another one precedes |
| PackageExports.LateDocsComeFirst | src/analysis/package_exports.rs:76-84 | Every pair of an undocumented symbol and a documented one it precedes makes the merge of some tree keep the documentation of a later symbol |
| PackageExports.PromotionHappens | src/analysis/package_exports.rs:66-72 | There are symbols of which one promotes the other |
| SymbolTrees.FirstIsLeast | src/analysis/package_exports.rs:45-61 | The first symbol of a key after the stable sort is the least one |
| PackageExports.GroupKnown | src/analysis/package_exports.rs:73-81 | Absorbing a symbol of a known key keeps what held in both, below them too |
| PackageExports.GroupNew | src/analysis/package_exports.rs:82-84 | A symbol of a new key stands for itself |
| ApiBaseline.BaselineFromReports | src/commands/diff.rs:290-355 | Lists every identity once, with exactly the sorted fingerprints of the symbols that share it, under the first header of each package |
| ApiBaseline.Collector.CollectSymbol | src/commands/diff.rs:357-434 | Files exactly what a symbol and those below it contribute, inherited exports included |
| ApiBaseline.FileOne | src/commands/diff.rs:405-420 | Filing one fingerprint adds it to its identity and keeps the lists ascending |
| ApiBaseline.ReportEntriesNamed | src/commands/diff.rs:328-337 | Every identity's package has been introduced |
| ApiBaseline.Finish | src/commands/diff.rs:336-347 | Packages by name and symbols by identity, with the exports sorted and nothing left behind |
| ApiBaseline.WrittenIsUnique | src/commands/diff.rs:336-347 | What is written in this order has no identity twice |
| ApiBaseline.FinishedDescribes | src/commands/diff.rs:328-355 | Nothing is lost when the maps become the baseline, and no identity occurs twice |
| ApiBaseline.FiledUnderNearest | src/commands/diff.rs:376-433 | A fingerprint is filed exactly for the symbols of the tree, each under the exports of the nearest symbol, itself or above it, that has any |
| ApiBaseline.BaselineIgnoresOrder | src/commands/diff.rs:290-434 | Reordering symbols at any level, or moving them to other files, gives the same baseline |
| ApiBaseline.ReorderedIsSame | src/commands/diff.rs:320-327 | A reordered list is the same forest |
| ApiDiff.SymbolsByStableKey | src/commands/diff.rs:454-475 | Refuses exactly the baselines in which an identity stands at two places, and otherwise lists all |
| ApiDiff.VerbatimRepetitionIsRefused | src/commands/diff.rs:465-470 | An entry repeated word for word is refused |
| ApiDiff.Compare | src/commands/diff.rs:162-267 | Fails exactly when something public is gone or has changed, in exact mode exactly when anything public differs |
| ApiDiff.DiffRebuilt | src/commands/diff.rs:162-475 | Baselines of reordered symbols compare clean in exact mode, and never fail on duplicates |
| Conformance.Evaluate | src/architecture/conformance.rs:208-262 | Every binding, unbound object, constraint and undeclared fact has its own result, except where an undeclared fact bears the id |
| Conformance.BindingFailsExactly | src/architecture/conformance.rs:264-403 | A binding is an error exactly when complete coverage and deterministic facts contradict its kind or cardinality |
| Conformance.BindingMatchesExactly | src/architecture/conformance.rs:264-403 | A binding matches exactly when complete coverage and deterministic facts confirm it |
| Conformance.ExpectedIsBacked | src/architecture/conformance.rs:597-649 | The guard has nothing against any result of the evaluator, and errors are only absent, conflicting or unexpected |
| Conformance.ValidateEvidence | src/architecture/conformance.rs:597-649 | The guard objects exactly to the results whose evidence does not carry them |
| Conformance.AppliesUntilExpiry | src/architecture/policy.rs:113-158 | An entitled exception applies exactly before the moment it expires and is expired from then on |
| Timestamps.OrderOfMoments | src/architecture/model.rs:54-66 | Valid timestamps are ordered as strings exactly as the moments they spell |
| Conformance.ApplyToResult | src/architecture/conformance.rs:561-581 | Every exception that concerns a result is listed once under its disposition; the first that applies lowers the severity, the others are irrelevant |
| Conformance.EveryExceptionIsListed | src/architecture/conformance.rs:561-581 | No exception that concerns a result is dropped from its lists or listed twice |
| Conformance.ListsInOrder | src/architecture/policy.rs:66-92 | Exceptions with different ids, sorted by them, give lists in that order and without repetition |
| Conformance.ApplyExceptions | src/architecture/conformance.rs:533-583 | The same for all results about constraints of locked modules; the others are untouched |
| Conformance.ExceptionsOnlyRelax | src/architecture/conformance.rs:561-581 | No severity is raised, at most one exception is applied, and exactly when the severity changes |
| Conformance.RelaxedExactly | src/architecture/conformance.rs:539-574 | A severity changes exactly when the result is above advisory, is about a constraint of a locked module, and an exception applies |
| Conformance.OnlyConstraintsAreConcerned | src/architecture/conformance.rs:437-452 | Exceptions meet only the advisory results of constraints |
| Conformance.Conform | src/architecture/conformance.rs:125-130 | Evaluated results always pass the guard, exceptions never apply to them or change them, the outcome has exactly the evaluator's errors, and exceptions sorted by id are listed in that order |
| Conformance.BindingReportedExactly | src/architecture/conformance.rs:215-260 | A binding's own result is reported exactly when no undeclared fact bears its id |
| Conformance.ErrorLostExactly | src/architecture/conformance.rs:250-260 | A binding's error is lost exactly when such a fact is inferred or not completely covered |
| Conformance.FactHidesBinding | src/architecture/conformance.rs:250-260 | It happens |
| Conformance.ErrorsExactly | src/architecture/conformance.rs:93-99 | The results have errors exactly when a binding that no undeclared fact hides is contradicted by complete deterministic evidence, or an undeclared fact is deterministic and completely covered |
| ProviderQuery.QueryApprovedProviders | src/architecture/provider_query.rs:46-256 | Answers exactly the well-formed queries, with exactly the approved approvals of the scope that cover the capability, strictly ascending by provider; crashes exactly when a selected approval of one provider meets a capability without contract, or with an implemented one that is none |
| ProviderQuery.MissingContractCrashes | src/architecture/provider_query.rs:194 | A compiled graph on which the first happens |
| ProviderQuery.CapabilityAsContractCrashes | src/architecture/provider_query.rs:219 | A compiled graph on which the second happens |
| ProviderQuery.RelationIndex.constructor | src/architecture/provider_query.rs:279-315 | Lookups answer as a scan of the relations would, in ascending order |
| ProviderQuery.Examine | src/architecture/provider_query.rs:83-232 | Crashes exactly on such an approval; otherwise passes it exactly when it is in order and classifies nothing that was classified before, and lists it exactly when selected |
| ProviderQuery.Classify | src/architecture/provider_query.rs:159-184 | Reports exactly the capabilities that were classified before or are not provided |
| ProviderQuery.Grant | src/architecture/provider_query.rs:186-232 | A selected approval is refused exactly when the capability's contract is missing from the graph or not implemented, and crashes when it is not named or has no version |
| ProviderQuery.OneEntryPerProvider | src/architecture/provider_query.rs:159-175 | Without duplicate classifications no provider is listed twice |
| ProviderQuery.EntryIsDetermined | src/architecture/provider_query.rs:214-232 | An entry is determined by its approval |
| InstallLock.MutualExclusion | bin/_installer.js:304-441 | In every run in which no removal hits a working installer's lock: at most one holder, at most one publisher, none when a binary was there, exactly one when a binary appears |
| InstallLock.FreshLocksRobNobody | bin/_installer.js:340-344 | When no lock outlives the stale limit no run removes a working installer's lock |
| InstallLock.HolderOwnsLockKept | bin/_installer.js:319-334 | Every such step keeps that whoever works under the lock created the file that is there |
| InstallLock.OnePublisherKept | bin/_installer.js:405-438 | Every step of a single holder keeps that no second process may publish |
| InstallLock.ReturnsOnlyInstalled | bin/_installer.js:386-438 | Whatever becomes of locks, a process returns only when the binary is there |
| InstallLock.OrphanBlocks | bin/_installer.js:323-358 | Without stale removal the lock of a process that is gone stays, and nobody publishes again |
| InstallLock.OrphanRemovalRaces | bin/_installer.js:340-344 | A run that removes only the lock of a dead process and ends with two holders |
| InstallLock.RobberyEndsExclusion | bin/_installer.js:340-344 | Whoever removes a working installer's lock while no binary is there can go on to hold the lock beside it |
| InstallLock.OrphanRemovalPublishesTwice | bin/_installer.js:340-344 | It goes on to two publishers |

## Left out

- DeadCode.AnalyzeReport: findings on unresolved edges, boundaries and fuzz directives (`src/dead_code/analyze.rs:305-506`), the order of findings and their labels are not modelled.
- Documents.Load: which of several errors are reported together, and their order, is stated only for import cycles, empty roots and unresolved modules; message texts are not modelled.
- Documents.ImportClosure: the digest computed over the closure is not modelled, only its members.
- ImportCycles.CycleVisitor.Visit: it is stated as an inductive step; the verdict on whole graphs is that of ImportCycles.ValidateImportCyclesByVisit.
- SourceConformance.Analyze: intrinsic findings on unexported and bypassing imports and the order of findings are not modelled.
- PackageExports.LeastRepresentsBelow: says nothing of which symbol is kept where something is promoted; that is what PackageExports.Merged computes.
- Conformance.Conform: request validation, vocabulary and policy loading, digests and the final schema validation are not modelled; explanations are left out.
- ProviderQuery.Examine: which of the diagnostics are raised is not stated, only whether there are any.
- ApiBaseline.BaselineFromReports: the fingerprint is any function of visibility and signature; format, schema and tool versions are left out.
- ApiDiff.Compare: reading a baseline file with its format and schema version, and printing the differences, are not modelled.
- Cancellation.NoInterruptIsLost: a poisoned lock and a failed installation of the handler are not modelled.
- InstallLock.MutualExclusion: speaks of runs in which no removal hits a working installer's lock; what other runs can do is shown by InstallLock.OrphanRemovalRaces.
- The module system's other checks (exports, references, reserved ids) and vocabulary validation: single field checks.
- Downloading, extracting and building in the installer: one step that may publish, then succeed or throw.
- Command line, rendering, containers, release tasks and language parsers: dispatch and input.
