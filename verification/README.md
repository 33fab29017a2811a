# Verified model of the fleet management operator

The operator keeps Kubernetes resources and Fleet Management in agreement. This project models its
controllers as reconcile state machines over two stores, the persisted status of each resource and Fleet, and
proves what every run of them keeps: with crashes between any two calls, lost status writes, foreign writers
and users editing in between. `dafny verify dfyconfig.toml` checks everything.

## How it is built

A controller has three parts. A **specification function** gives one reconcile as a function of the world it
finds and of a script that says how each call ends (answered, refused with or without having taken effect, or
the process dying at it) and what others did before it. A **reconciler class** has the fields the Go code
updates and follows it statement by statement; each of its methods is proved to leave exactly the world of the
specification function. The **runs module** quantifies over sequences of reconciles and of everything else
that can happen, and proves the invariants.

| modules | what they model |
|---|---|
| `Pipelines`, `FleetStore`, `FleetCalls` | Pipeline resources, desired Fleet names and the name-scope check; Fleet as a store keyed by name that issues ids |
| `PipelineReconcile`, `PipelineController`, `PipelineRuns`, `PipelineMigration`, `PipelineUniqueness`, `PipelineOutcomes`, `PipelineTenancy` | upsert by name, delete by id, renaming, recreation on 404, read-only mode, the observed-generation skip, what every answer leaves, many namespaces over one Fleet |
| `JsonPointer`, `AttributeDiff`, `AttributeMerge` | attribute paths, the JSON patch, layered precedence |
| `CollectorLayers`, `CollectorReconcile`, `CollectorController`, `CollectorRuns`, `CollectorPrecedence`, `CollectorFinalizer` | the Collector attribute loop, who wins an attribute, its ownership records and its deletion |
| `ExternalSource`, `ExternalSync`, `ExternalSyncController`, `ExternalSyncRuns`, `Handoff` | projection of fetched records, the published claim, and waking Collectors when a claim or policy changes |
| `SelectorMatch`, `PolicyController`, `PolicyRuns` | selectors, the index over them, and the policy status over whole runs |
| `DiscoveryNames`, `DiscoveryMirror`, `DiscoveryController`, `DiscoveryRuns`, `DiscoveryClaims`, `DiscoveryWrites` | discovered Collectors: names, ownership, claims and conflicts, stale marking and deletion |
| `ConditionScan`, `ConditionWorklist`, `ConditionExample` | the documentation check that follows condition reasons through parameters |
| `SqlReadOnly`, `IntFormat` | the read-only query check and the int64 printer |
| `Common`, `Strings`, `Sorting`, `StringSort` | options, string order, a stable sort standing for Go's |

## What is assumed

- Regular expressions, SHA-256, lower-casing, letter classes and `strings.TrimSpace` are function parameters;
  the few facts used are stated where they are used.
- Strings are sequences of characters. Fleet ids are numbers, 0 standing for the empty string.
- Fleet deletes by id and answers 404 only when the id is gone; a bulk update takes effect as a whole or not at
  all. Its operations mean what sections 4.1 to 4.3 of RFC 6902 say: replacing or removing an absent target fails.
- A reconcile reads the latest stored resource. A spec edit in the middle of a reconcile has the effect of
  one right after a reconcile whose status write met a conflict, and is modelled that way.
- A spec change bumps the generation; annotations and the cluster-wide name scope do not.
- `PipelineUniqueness.AtMostOneLivePipeline` is for runs whose steps are `Timely`: the desired name stays put
  between an applied Fleet write and the status recording it, no dry-run answers 404, no upsert that changed
  nothing answers 404 and is followed by a refused recreation and a stored status, and no read-only observation
  points status at another pipeline. `PipelineRuns.SkipIsSound` needs only the first.
- In `PipelineTenancy` a tenant is a scoped, non-discovered, writable pipeline for the whole run; a guarded
  pipeline is scoped, or opted out with an admitted non-empty spec.name, and writable. For other scoped or
  admitted opted-out pipelines, read-only ones included, the part about the desired name is proved.
- `DiscoveryRuns.PollMirrors` is for polls during which nobody seizes a Collector: others may do anything to
  Collectors the discovery does not own between any two calls, but do not change, replace or remove its own.
  `DiscoveryWrites` has no such limit, and `DiscoveryClaims.PollJudgesEveryId` is for polls nobody disturbs.
  Nobody labels a Collector whose name is not derived from its id (spec.id is immutable).
- `CollectorRuns` takes what `Diff` and `Merge` return as part of the script, constrained by their contracts;
  `CollectorController` shows that the real calls meet them.

## Promises the code does not keep

Each of these has a lemma with a failing case or, where there is one, the exact condition.

- The comment at `internal/controller/pipeline_controller.go:310` says a migration converges after a crash.
  It does after crashes, but not after a stored refusal of the recreate: `PipelineMigration.RefusedRecreateConvergesExactly`,
  `PipelineMigration.ScopeToggleCanStick`.
- A 404 to the dry-run recreates without deleting: `PipelineRuns.DuplicateExactlyOnDryRun404`.
- An upsert answered 404, a refused recreation and a stored status lose the id of a live pipeline; a later rename
  duplicates it and a deletion leaves it behind: `PipelineUniqueness.LosesTrackExactly`,
  `PipelineUniqueness.ForgottenThenRenamedDuplicates`, `PipelineUniqueness.RefusedRecreationOutlivesResource`.
- A retryable failure at an already observed generation is not always retried; leaving read-only mode, which does
  not bump the generation, is one way there: `PipelineRuns.RetryAbandonedExactly`,
  `PipelineRuns.LeavingReadOnlyIsNotRetried`.
- Read-only observation points status at the annotated pipeline without touching the recorded name, so a later
  rename deletes the wrong id: `PipelineMigration.ObservationRepoints`, `PipelineMigration.RepointedRenameDuplicatesExactly`.
- The name-scope check ignores metadata.name, and the comment at `api/v1alpha1/pipeline_webhook.go:107` overlooks
  that the pipeline id annotation also gives an unscoped name: `Pipelines.OptOutSafeExactly`,
  `Pipelines.WritableSafeExactly`, `Pipelines.DiscoveredNameEscapesTheGuard`.
- The Collector finaliser concatenates raw keys, while Diff escapes them: `CollectorFinalizer.FinalizerRemovesExactly`,
  `CollectorFinalizer.SlashedKeyNeverReleased`.
- It also removes recorded keys without looking whether they are still there, so one that another writer removed
  already holds the resource: `CollectorFinalizer.DeletionCleansUp`, `CollectorFinalizer.BlockedKeyNeverReleased`.
- A new key written by a patch that took effect without an answer or with an error, or before a lost status write, is
  not recorded, even when the error status is stored; dropped right after, it stays in Fleet for ever:
  `CollectorRuns.WrittenUnrecordedExactly`, `CollectorRuns.RemovedExactlyWhenRecorded`,
  `CollectorRuns.UnrecordedWriteThenDropLeaks`, `CollectorRuns.LeakStays`.
- The recorded owner of an attribute is its layer's first contributor, so it is the sync or policy the value came
  from only when that one claims the key: `CollectorLayers.OwnerIsFirstContributor`,
  `CollectorLayers.PolicyOwnerIsFirstContributor`, `CollectorLayers.WrongSyncIsRecorded`.
- Comparing claims reads a missing key as an empty value, so a change can go unheard: `ExternalSync.EntriesEqualExactly`,
  `Handoff.ChangeUnheardExactly`.
- The selector index misses selectors with both lists and matchers that accept the empty string:
  `SelectorMatch.IndexCompleteExactly`.
- The policy status check ignores Ready: `PolicyRuns.ReadyStaleExactly`, `PolicyRuns.StaleReadyStays`.
- The overflow check ignores the count in its message: `ExternalSyncRuns.OverflowSkipExactly`.
- Stale Collectors are patched and deleted by name, whoever owns them by then:
  `DiscoveryWrites.PollWritesOnlyItsOwnExactly`, `DiscoveryWrites.TakenOverIsDeleted`.
- The int64 printer returns a bare minus sign for the smallest value: `IntFormat.RoundTripExactly`.

## Model

| member | source | states |
|---|---|---|
| `PipelineUniqueness.AtMostOneLivePipeline` | internal/controller/pipeline_controller.go:267-340 | Over every run in which the desired name does not change between an applied Fleet write and the status recording it, no dry-run answers 404, no reconcile forgets and a read-only observation keeps the id, at most one live Fleet pipeline was created for the resource |
| `PipelineUniqueness.TimelyRunsAreStable` | internal/controller/pipeline_controller.go:157-261 | Over such a run status records every live pipeline whenever nothing waits to be recorded, so names only ever change over recorded pipelines |
| `PipelineUniqueness.NothingCreatedIsTracked` | internal/controller/pipeline_controller.go:267-287 | A resource with nothing live in Fleet starts such a run, whatever its status says |
| `PipelineUniqueness.LosesTrackExactly` | internal/controller/pipeline_controller.go:476-499 | An undisturbed reconcile of a live pipeline recorded under its desired name leaves it live and loses track of it if and only if the upsert answers 404, the recreation is refused with another error than 429 and the status is stored; with nothing waiting to be recorded if and only if neither call took effect |
| `PipelineUniqueness.ForgottenThenRenamedDuplicates` | internal/controller/pipeline_controller.go:476-543 | After such a reconcile a rename and a clean reconcile leave two live pipelines, though the name never changed between a write and its recording and no dry-run was made |
| `PipelineUniqueness.FinalisationLeavesExactly` | internal/controller/pipeline_controller.go:367-428 | An undisturbed finalisation of a writable pipeline leaves nothing of it in Fleet if and only if every live pipeline has the id in status |
| `PipelineUniqueness.FinalisationDropsExactly` | internal/controller/pipeline_controller.go:367-428 | For every answer to the delete and with others interfering, the finaliser goes if and only if its update is stored and the pipeline is read-only, or has no recorded id, or the delete was answered with success or a 404; the recorded id is then gone from Fleet |
| `PipelineUniqueness.RefusedDeleteIsReported` | internal/controller/pipeline_controller.go:392-406 | Any other refusal with a stored status keeps the finaliser, id and name, reports DeleteFailed, and is retried when transient |
| `PipelineUniqueness.DroppedMeansGone` | internal/controller/pipeline_controller.go:367-428 | Over the runs of the at-most-one theorem, a finaliser dropped with nothing left to record leaves nothing of the resource in Fleet, whatever the delete answered and whoever interfered |
| `PipelineUniqueness.FinalisationCleansUp` | internal/controller/pipeline_controller.go:367-428 | Over the runs of the at-most-one theorem, finalising a resource with nothing left to record leaves nothing of it in Fleet |
| `PipelineUniqueness.RefusedRecreationOutlivesResource` | internal/controller/pipeline_controller.go:367-428 | With the id cleared by a stored refusal, deletion succeeds and the Fleet pipeline stays |
| `PipelineRuns.NothingCreatedYet` | internal/controller/pipeline_controller.go:267-287 | With nothing live in Fleet the at-most-one invariant holds, whatever status says |
| `PipelineRuns.DuplicateExactlyOnDryRun404` | internal/controller/pipeline_controller.go:476-499 | With a live recorded pipeline and a rename pending, an undisturbed reconcile leaves two live pipelines if and only if the dry-run answers 404 and the recreation takes effect under a name nobody holds |
| `PipelineRuns.AtMostThreeCalls` | internal/controller/pipeline_controller.go:462-543 | One reconcile issues at most three upsert and delete calls, dry-run included, and only appends to the history |
| `PipelineRuns.ReadOnlyRunIssuesNothing` | internal/controller/pipeline_controller.go:345-384 | No step taken while the pipeline is read-only issues an upsert or delete, finalisation included |
| `PipelineRuns.SkipIsSound` | internal/controller/pipeline_controller.go:230-244 | When the observed-generation guard skips a Ready=True/Synced pipeline, its last Fleet write carried the contents, matchers, flag, type and source the spec has now, under the desired name, and nothing of it was deleted since |
| `PipelineRuns.RunKeepsSkipReady` | internal/controller/pipeline_controller.go:583-640 | The invariant behind that, over every run in which the desired name is frozen between a Fleet write and the status recording it |
| `PipelineRuns.FreshIsSkipReady` | internal/controller/pipeline_controller.go:157-261 | A never-reconciled resource starts such a run |
| `PipelineRuns.RetryableFailureIsRetried` | internal/controller/pipeline_controller.go:752-826 | After a retryable failure with ObservedGeneration below Generation, whatever is edited and however many more reconciles neither succeed nor fail for good, the next one is not skipped, and calls Fleet when active and writable |
| `PipelineRuns.RetryAbandonedExactly` | internal/controller/pipeline_controller.go:234-244 | After any retryable failure the next unedited reconcile is skipped if and only if the pipeline was active, the status was stored, its generation was already observed, and either it was read-only with the recorded id clear or the one to observe, or writable with no rename pending or the recorded id cleared by this reconcile |
| `PipelineRuns.LeavingReadOnlyIsNotRetried` | internal/controller/pipeline_controller.go:846-864 | A pipeline observed read-only at its generation loses the import-mode annotation and its upsert is refused once with a 503: Fleet stays as it was and every later reconcile is skipped |
| `PipelineRuns.StepKeepsConsistent` | internal/controller/pipeline_controller.go:157-261 | No step of a run makes two Fleet entries share an id or hold an unissued one |
| `PipelineRuns.StepKeepsOneAtMost` | internal/controller/pipeline_controller.go:157-261 | One step of the at-most-one invariant, for every branch of Reconcile |
| `PipelineRuns.StepKeepsSkipReady` | internal/controller/pipeline_controller.go:157-261 | One step of the skip-guard invariant, for every branch of Reconcile |
| `PipelineRuns.HandleApiErrorShape` | internal/controller/pipeline_controller.go:462-543 | Handling a failed call issues no further call, except the one upsert a 404 triggers while an id is recorded |
| `PipelineOutcomes.RefusedUpsertReported` | internal/controller/pipeline_controller.go:462-543 | A refused upsert: a 429 changes nothing, a 400 is a validation error with the generation observed, anything else a failed sync whose generation counts as observed unless the error is transient |
| `PipelineOutcomes.RecreatedOn404` | internal/controller/pipeline_controller.go:476-499 | A 404 for a recorded id leaves the spec in Fleet under the desired name, recorded under the id it has there |
| `PipelineOutcomes.ReadOnlyReported` | internal/controller/pipeline_controller.go:345-364 | What a read-only reconcile stores for a missing id and for every answer to the lookup |
| `PipelineOutcomes.ObservedIdExactly` | internal/controller/pipeline_controller.go:839-844 | The id looked up is the annotation's unless that is missing or empty, then the recorded one |
| `PipelineOutcomes.NothingDoneYet` | internal/controller/pipeline_controller.go:190-221 | Without the finaliser a live resource gets it and nothing else, and a paused or released one is left alone |
| `PipelineOutcomes.HistoryAccountsForFleet` | internal/controller/pipeline_controller.go:267-340 | The calls an undisturbed reconcile adds to its history, replayed on Fleet, give Fleet as it leaves it |
| `PipelineOutcomes.OutcomeMeans` | internal/controller/pipeline_controller.go:157-261 | A success means the live entry is recorded, a failure that its reason is reported or nothing changed, a skip, lost write, rate limit or crash that the stored resource is as it was |
| `PipelineOutcomes.AbruptEnds` | internal/controller/pipeline_controller.go:157-261 | A reconcile ends without a result only after a crash, and with a lost write only after a conflict or failed write |
| `PipelineOutcomes.StoppedMigrationKeepsFleet` | internal/controller/pipeline_controller.go:313-340 | A migration whose dry-run or delete does not go through leaves Fleet as it was and the rename pending |
| `PipelineMigration.MigrationIsCrashSafe` | internal/controller/pipeline_controller.go:313-340 | After any number of attempts cut short between dry-run, delete, recreate and status write, one clean reconcile leaves the old id gone, an entry with the spec's contents, matchers, flag, type and source under the desired name, its id and name in status, and every other Fleet entry untouched |
| `PipelineMigration.CleanReconcileApplies` | internal/controller/pipeline_controller.go:267-340 | A clean reconcile of an active, writable pipeline past the guard leaves the spec's contents, matchers, flag, type and source in Fleet under the desired name, its id, name and generation in status as Ready, and every other entry as it was, except that a rename removes the old one |
| `PipelineMigration.RefusedRecreateConvergesExactly` | internal/controller/pipeline_controller.go:313-340 | After a refused recreate, whether it took effect or not, the next clean reconcile completes the migration if and only if the error was a 429, or its status write was lost, or the generation was unobserved and the error is retried; the comment at line 310 promises it always does |
| `PipelineMigration.ScopeToggleCanStick` | internal/controller/pipeline_controller.go:234-244 | On a scope toggle a stored failure of the recreate makes every later clean reconcile skip: the old pipeline is gone, status has no id, and the new one exists only if the refused call took effect |
| `PipelineMigration.ObservationRepoints` | internal/controller/pipeline_controller.go:680-708 | Observing a read-only pipeline records the annotated id and leaves the recorded name as it was |
| `PipelineMigration.RepointedRenameDuplicatesExactly` | internal/controller/pipeline_controller.go:313-340 | Once writable again, an undisturbed rename leaves two live pipelines if and only if status records another id than the live one's and the desired name is free or held under that other id |
| `Pipelines.ScopedNameInjective` | api/v1alpha1/pipeline_naming.go:84-93 | `namespace + "." + base` determines both parts, namespaces being labels without dots |
| `Pipelines.TerritoriesDisjoint` | api/v1alpha1/pipeline_naming.go:84-93 | A Fleet name starts with the segment of at most one namespace |
| `Pipelines.ReservedPrefixMeansTerritory` | api/v1alpha1/pipeline_webhook.go:104-125 | The reserved-prefix expression matches exactly the names that start with some namespace's segment |
| `Pipelines.ScopedNameIsPrivate` | api/v1alpha1/pipeline_naming.go:56-93 | In a namespace-scoped cluster no scoped pipeline of another namespace, and no opted-out one with an admitted non-empty spec.name, desires a scoped pipeline's name |
| `Pipelines.DesiredNameExactly` | api/v1alpha1/pipeline_naming.go:40-93 | The Fleet name from the raw annotations, the source kind, the name fields and the cluster flag |
| `Pipelines.RequestConveysSpec` | internal/controller/pipeline_controller.go:431-457 | What is sent has the contents, matchers, flag and type of the spec, and its source if and only if that is Git, Terraform or Grafana |
| `Pipelines.OptOutSafeExactly` | api/v1alpha1/pipeline_webhook.go:110-125 | An admitted opt-out stays clear of every namespace's segment if and only if spec.name is set or metadata.name has no reserved prefix |
| `Pipelines.EmptySpecNameEscapesTheGuard` | api/v1alpha1/pipeline_webhook.go:110-125 | With an empty spec.name a dotted metadata.name is admitted and desires another namespace's scoped name |
| `Pipelines.WritableSafeExactly` | api/v1alpha1/pipeline_webhook.go:104-125 | An admitted writable pipeline of a namespace-scoped cluster stays clear of the other namespaces' names if and only if it is scoped, or opted out under a non-empty spec.name, or its base name has no other namespace's prefix |
| `Pipelines.DiscoveredNameEscapesTheGuard` | api/v1alpha1/pipeline_webhook.go:104-125 | With the user-settable pipeline id annotation a dotted spec.name is admitted and desires another namespace's scoped name, without any opt-out |
| `PipelineTenancy.TenantsNeverCollide` | internal/controller/pipeline_controller.go:267-340 | Over every admissible run of many pipelines over one Fleet, reconciling or finalising a tenant changes neither the entry under another namespace's desired name nor the entry its status records |
| `PipelineTenancy.ForeignTerritoryUntouched` | internal/controller/pipeline_controller.go:157-261 | Over the same runs an undisturbed reconcile or finalisation of a tenant or a guarded opt-out changes no entry in another namespace's territory |
| `PipelineTenancy.TenantReconcileIsLocal` | internal/controller/pipeline_controller.go:157-261 | An undisturbed reconcile of a tenant changes Fleet only under names in its own namespace's segment |
| `PipelineTenancy.RunKeepsHoused` | internal/controller/pipeline_controller.go:583-640 | Over every such run each recorded id belongs to the recorded name only, and that name is one the pipeline may hold |
| `PipelineTenancy.FreshClusterIsHoused` | internal/controller/pipeline_controller.go:157-261 | A cluster of never-reconciled pipelines starts such a run |
| `PipelineTenancy.ReconcileEvolves` | internal/controller/pipeline_controller.go:157-261 | No reconcile moves an issued id to another name |
| `PipelineController.PipelineReconciler.Reconcile` | internal/controller/pipeline_controller.go:157-261 | The reconciler leaves exactly the world and outcome of the specification function, through deletion, finaliser, pause, skip, read-only and normal branches |
| `PipelineController.PipelineReconciler.ReconcileNormal` | internal/controller/pipeline_controller.go:267-287 | Migration, upsert and the handling of either's failure |
| `PipelineController.PipelineReconciler.MigratePipelineName` | internal/controller/pipeline_controller.go:313-340 | Dry-run, delete by id, then the id cleared in the working copy only |
| `PipelineController.PipelineReconciler.HandleApiError` | internal/controller/pipeline_controller.go:462-543 | 400, 404 with and without an id, 429 and the rest; terminates because a 404 clears the id |
| `PipelineController.PipelineReconciler.ReconcileReadOnly` | internal/controller/pipeline_controller.go:345-362 | Observes the pipeline without writing to Fleet |
| `PipelineController.PipelineReconciler.ReconcileDelete` | internal/controller/pipeline_controller.go:367-428 | Deletes by recorded id unless read-only, then drops the finaliser |
| `PipelineController.PipelineReconciler.BackfillSyncedName` | internal/controller/pipeline_controller.go:294-303 | A status with an id and no name gets the unscoped name |
| `PipelineController.PipelineReconciler.UpdateStatusSuccess` | internal/controller/pipeline_controller.go:583-678 | Id, synced name, generation and Ready=True/Synced, stored unless the write is lost |
| `PipelineController.PipelineReconciler.UpdateStatusError` | internal/controller/pipeline_controller.go:752-826 | Ready=False; the generation is marked observed only for errors that are not retried |
| `PipelineController.PipelineReconciler.DeletePipeline` | pkg/fleetclient/client.go:215-231 | A 404 answer to a delete is success |
| `JsonPointer.PathDecodesToKey` | internal/controller/attributes/diff.go:96-104 | Every key's path decodes back to the key by section 4 of RFC 6901 |
| `JsonPointer.PathsInjective` | internal/controller/attributes/diff.go:96-104 | Different keys have different paths |
| `JsonPointer.PathSpelledOut` | internal/controller/attributes/diff.go:95-104 | A path is the prefix and the key character by character, a tilde written as ~0 and a slash as ~1 |
| `JsonPointer.FinalizerPathExactly` | internal/controller/collector_controller.go:402-408 | The finaliser's unescaped path is the one Diff writes if and only if the key has no tilde and no slash |
| `JsonPointer.FinalizerHitsAnotherKey` | internal/controller/collector_controller.go:402-408 | The raw path of a key with an escape sequence addresses another key |
| `AttributeDiff.Diff` | internal/controller/attributes/diff.go:45-94 | The operations are the wanted ADDs and REPLACEs and the dropped owned REMOVEs, as a multiset, sorted by path, for every order of walking the maps |
| `AttributeDiff.AddOrReplace` | internal/controller/attributes/diff.go:45-72 | One ADD or REPLACE for each desired key whose observed value differs |
| `AttributeDiff.DiffDeterministic` | internal/controller/attributes/diff.go:45-94 | Two results for the same inputs are equal, so map iteration order is irrelevant |
| `AttributeDiff.DiffInPathOrder` | internal/controller/attributes/diff.go:89-93 | The operations come in the order of their paths |
| `AttributeDiff.DiffMembers` | internal/controller/attributes/diff.go:45-94 | An operation is emitted if and only if it is the one its key needs |
| `AttributeDiff.PathsDistinctExactly` | internal/controller/attributes/diff.go:88-92 | The paths are strictly increasing if and only if no dropped key was listed twice as owned |
| `AttributeDiff.ApplyInAnyOrder` | internal/controller/attributes/diff.go:45-94 | Applied in any order the operations give observed, overridden by desired, minus the dropped owned keys |
| `AttributeDiff.EveryOpChanges` | internal/controller/attributes/diff.go:45-94 | Every emitted operation applies to the observed map and changes it |
| `AttributeDiff.RediffIsEmpty` | internal/controller/attributes/diff.go:45-94 | Diffing the result again yields no operations |
| `AttributeDiff.DiffIsMinimal` | internal/controller/attributes/diff.go:45-94 | No patch that reaches the same map has fewer operations |
| `AttributeMerge.Merge` | internal/controller/attributes/merge.go:49-75 | Each key gets its first claimant's value; the owners are one per key, strictly key-sorted, naming the claimant |
| `AttributeMerge.MergeLayer` | internal/controller/attributes/merge.go:52-67 | One layer fills only the keys no earlier layer claimed, in whatever order its map is walked |
| `AttributeMerge.SortByKey` | internal/controller/attributes/merge.go:77-87 | The in-place insertion sort yields a key-sorted permutation |
| `AttributeMerge.OwnersDeterministic` | internal/controller/attributes/merge.go:49-75 | The owners do not depend on map iteration order |
| `AttributeMerge.ResolvesUnique` | internal/controller/attributes/merge.go:49-75 | First claim decides the whole map |
| `AttributeMerge.ResolveConcat` | internal/controller/attributes/merge.go:49-75 | Resolving a concatenation resolves the parts with the front winning |
| `CollectorLayers.LayeredIsFlat` | internal/controller/collector_controller.go:189-229 | Merging the three per-kind layers gives every key the value of the first claimant in the flat order: usable syncs, then the spec, then matching policies, each kind in the order the precedence theorems spell out |
| `CollectorLayers.OwnerKindIsFlat` | internal/controller/collector_controller.go:189-229 | The recorded kind and value of a key are those of its first claimant in the flat order |
| `CollectorLayers.OwnerIsFirstContributor` | internal/controller/collector_controller.go:273-299 | An external key has the value of the first sync claiming it, and that sync is the recorded owner if and only if the first sync contributing to the collector claims the key |
| `CollectorLayers.PolicyOwnerIsFirstContributor` | internal/controller/collector_controller.go:363-384 | A policy key has the value of the first matching policy claiming it, and that policy is the recorded owner if and only if the first matching policy claims the key |
| `CollectorLayers.WrongSyncIsRecorded` | internal/controller/collector_controller.go:291-299 | Two usable syncs claim one key each; the record of the second's key names the first |
| `CollectorLayers.ExternalSyncLayer` | internal/controller/collector_controller.go:255-300 | Usable syncs in name order, first claim wins, owner the first contributor |
| `CollectorLayers.PolicyLayer` | internal/controller/collector_controller.go:323-384 | Matching policies sorted, first claim wins; PolicyKeyFromHighestPriority says which that is |
| `CollectorPrecedence.ExternalKeyFromLeastName` | internal/controller/collector_controller.go:264-299 | The external layer takes a key from the listed sync that publishes it, is not truncated and has the least full name, and lacks it if and only if none does |
| `CollectorPrecedence.PolicyKeyFromHighestPriority` | internal/controller/collector_controller.go:354-384 | The policy layer takes a key from the listed matching policy that sets it with the highest priority, then the least full name, and lacks it if and only if none does |
| `CollectorPrecedence.FleetFollowsPrecedence` | internal/controller/collector_controller.go:229-246 | A clean reconcile gives every key the value of its winner among the listed syncs, else of the spec, else of its winner among the listed policies; a key nobody claims goes if and only if status records it |
| `CollectorLayers.FindOwnedEntry` | internal/controller/collector_controller.go:303-310 | The loop returns the entry the search function finds |
| `CollectorLayers.FindEntryMeans` | internal/controller/collector_controller.go:303-310 | That entry is the first one for the collector, and there is one if and only if some entry names the collector |
| `CollectorLayers.SyncListOrderIrrelevant` | internal/controller/collector_controller.go:264-270 | The order in which the API lists the syncs of a namespace changes nothing |
| `CollectorLayers.PolicyListOrderIrrelevant` | internal/controller/collector_controller.go:340-362 | Nor does the order in which it lists the policies |
| `CollectorRuns.ForeignKeysKept` | internal/controller/collector_controller.go:229-246 | Over every run a key no layer ever desires has the value the other writers alone would have left |
| `CollectorRuns.WritesAreRecorded` | internal/controller/collector_controller.go:229-246 | If no key is dropped while the write of it is unrecorded, every key the controller wrote that is still in Fleet is recorded as owned or still desired |
| `CollectorRuns.DroppedKeyIsRemoved` | internal/controller/collector_controller.go:229-246 | After such a run a key dropped from all layers is gone with the next clean reconcile |
| `CollectorRuns.RemovedExactlyWhenRecorded` | internal/controller/collector_controller.go:229-246 | A clean reconcile removes an undesired key the controller wrote if and only if status records it |
| `CollectorRuns.WrittenUnrecordedExactly` | internal/controller/collector_controller.go:240-248 | An undisturbed reconcile that wants an unrecorded key leaves it written and unrecorded if and only if the patch took effect and it was not both answered and followed by a stored status |
| `CollectorRuns.UnrecordedWriteThenDropLeaks` | internal/controller/collector_controller.go:585-595 | A layer dropping the key after such a reconcile leaves the write unrecorded and undesired |
| `CollectorRuns.LeakStays` | internal/controller/collector_controller.go:229-246 | Such a key keeps its value in Fleet over every further run |
| `CollectorRuns.CleanRunRemote` | internal/controller/collector_controller.go:229-246 | A clean reconcile leaves observed overridden by desired minus the recorded keys nobody desires, even if its status write is lost |
| `CollectorRuns.CleanRunReports` | internal/controller/collector_controller.go:493-590 | A clean, stored reconcile reports registration, the collector's fields, every desired value and its owner, and Ready at the current generation |
| `CollectorRuns.NotRegisteredReported` | internal/controller/collector_controller.go:610-660 | A 404 reports the collector as not registered and changes nothing else |
| `CollectorRuns.FailedReadReported` | internal/controller/collector_controller.go:449-486 | Any other failing read is a validation error for a 400, nothing for a 429 and a failed sync otherwise; so is a failing list, and Fleet stays as it was |
| `CollectorRuns.RefusedPatchReported` | internal/controller/collector_controller.go:240-244 | A refused patch is reported likewise, over Fleet as the patch left it |
| `CollectorRuns.FleetGetsFirstClaims` | internal/controller/collector_controller.go:189-247 | End to end, a clean reconcile gives every claimed key its first claimant's value in the flat order, removes recorded keys nobody claims, and leaves every other key alone |
| `CollectorRuns.SecondReconcileIsIdle` | internal/controller/collector_controller.go:229-246 | After a clean, stored reconcile another one sends no operations and writes no status |
| `CollectorRuns.ReadyIsWhole` | internal/controller/collector_controller.go:493-590 | Over every run Ready=True carries the status's generation and a whole success write |
| `CollectorRuns.NoopIsExact` | internal/controller/collector_controller.go:511-547 | On such statuses the write is suppressed if and only if it would change nothing |
| `CollectorRuns.FreshStartsRecorded` | internal/controller/collector_controller.go:126-184 | A new resource starts such runs, whatever is in Fleet |
| `CollectorRuns.RunShape` | internal/controller/collector_controller.go:189-247 | A reconcile ends with Fleet as it was, as others made it, or patched; owners change only with a success status |
| `CollectorReconcile.OwnerSlicesEqualIsEquality` | internal/controller/collector_controller.go:984-1006 | For key-sorted records the comparison is equality |
| `CollectorReconcile.OwnedKeysSorted` | internal/controller/collector_controller.go:904-911 | Key-sorted records already are what allOwnedKeys returns |
| `CollectorController.CollectorReconciler.ReconcileNormal` | internal/controller/collector_controller.go:189-247 | The reconciler leaves exactly the world of the specification function, with operations and owners meeting the contracts of Diff and Merge |
| `CollectorController.CollectorReconciler.ReconcileFound` | internal/controller/collector_controller.go:216-247 | Layers, merge, diff, one bulk update and the status that follows |
| `CollectorController.CollectorReconciler.UpdateStatusSuccess` | internal/controller/collector_controller.go:493-606 | The full success status, or nothing when nothing observable changed |
| `CollectorController.CollectorReconciler.UpdateStatusError` | internal/controller/collector_controller.go:668-736 | Ready and Synced false at the current generation, not rewritten when already so |
| `CollectorController.CollectorReconciler.UpdateStatusNotRegistered` | internal/controller/collector_controller.go:610-662 | Registered false with its conditions, not rewritten when already so |
| `CollectorController.CollectorReconciler.HandleApiError` | internal/controller/collector_controller.go:449-486 | 400 is a validation error, 429 writes nothing, the rest is a sync failure |
| `CollectorController.CollectorReconciler.BulkUpdateCollectors` | pkg/fleetclient/collector.go:58-80 | All operations take effect or none |
| `CollectorController.CollectorReconciler.ReconcileDelete` | internal/controller/collector_controller.go:392-442 | Recorded keys are removed first; the finaliser goes after success or a 404 |
| `CollectorController.SameOwners` | internal/controller/collector_controller.go:988-1006 | The comparison through an index by key, last record winning |
| `CollectorController.MapsEqual` | internal/controller/collector_controller.go:943-953 | Equal sizes and equal values under the left map's keys mean equal maps |
| `CollectorController.AllOwnedKeys` | internal/controller/collector_controller.go:904-911 | Every recorded key, sorted |
| `CollectorFinalizer.FinalizerRemovesExactly` | internal/controller/collector_controller.go:400-425 | The finaliser's patch applies and removes exactly the recorded keys if and only if all are still in Fleet and none contains a slash or an escape sequence |
| `CollectorFinalizer.FinalizerAddresses` | internal/controller/collector_controller.go:402-408 | A raw path with a slash addresses nothing; any other addresses the decoded key |
| `CollectorFinalizer.DeletionCleansUp` | internal/controller/collector_controller.go:392-442 | A clean deletion releases the resource leaving exactly the other keys if and only if every recorded key is in Fleet and plain |
| `CollectorFinalizer.ReleasedExactly` | internal/controller/collector_controller.go:392-440 | For every answer and with others interfering, deletion releases the resource if and only if its update is stored and nothing was recorded, or the removals were applied and answered, or Fleet answered 404; any other answer is reported with the records kept |
| `CollectorFinalizer.BlockedOnce` | internal/controller/collector_controller.go:392-442 | An attempt that meets a slashed key, or a plain recorded key absent from Fleet, removes nothing and keeps the finaliser |
| `CollectorFinalizer.BlockedKeyNeverReleased` | internal/controller/collector_controller.go:411-423 | A recorded key that is slashed, or plain and absent from Fleet with nobody writing it again, holds the resource through any number of attempts until Fleet answers 404 |
| `CollectorFinalizer.SlashedKeyNeverReleased` | internal/controller/collector_controller.go:411-423 | A recorded key with a slash holds the resource through any number of attempts until Fleet answers 404 |
| `ExternalSource.FieldString` | pkg/sources/source.go:86-111 | Strings, booleans, integers and floats have a string form; nil and other types have none |
| `ExternalSource.Project` | internal/controller/external_sync_controller.go:686-734 | Each collector some record applies to gets the attributes of the last such record, and no other collector is claimed |
| `ExternalSource.ProjectRecords` | internal/controller/external_sync_controller.go:686-734 | The loop computes that projection and counts the applied records |
| `ExternalSource.ProjectionExactly` | internal/controller/external_sync_controller.go:686-733 | A collector is claimed if and only if some record names it, is complete and has a mapped field, and it gets exactly the mapped fields of the last such record, as text |
| `ExternalSource.AppliedCountExactly` | internal/controller/external_sync_controller.go:686-733 | The applied count is the number of such records |
| `ExternalSource.ClaimsAtMostApplied` | internal/controller/external_sync_controller.go:686-734 | There are no more claimed collectors than applied records |
| `ExternalSource.ClaimsAreReal` | internal/controller/external_sync_controller.go:695-728 | No claim is for the empty id or an unmatched collector, and none is empty |
| `ExternalSource.HasAllRequired` | internal/controller/external_sync_controller.go:986-993 | Every required key is present |
| `ExternalSync.EntriesSorted` | internal/controller/external_sync_controller.go:1000-1018 | The published entries are strictly sorted by collector id, one per claimed collector |
| `ExternalSync.OwnedKeyEntriesEqual` | internal/controller/external_sync_controller.go:1022-1040 | Pairwise comparison in which a key missing on the right reads as the empty string |
| `ExternalSync.EntriesEqualExactly` | internal/controller/external_sync_controller.go:1034-1036 | Entries that compare equal are equal if and only if no key of the left is missing on the right |
| `ExternalSync.EntriesEqualIsEquality` | internal/controller/external_sync_controller.go:1022-1040 | Without empty values the comparison is equality |
| `ExternalSync.EntriesEqualUnlessLost` | internal/controller/external_sync_controller.go:1034-1036 | Entries that compare equal are equal if and only if none lost an attribute with an empty value |
| `ExternalSync.EmptyValueGoesUnnoticed` | internal/controller/external_sync_controller.go:1034-1036 | Two different claims compare equal |
| `ExternalSyncRuns.ClaimInvariant` | internal/controller/external_sync_controller.go:319-443 | Over every run the claim is strictly sorted, at most 1000 entries, no longer than RecordsApplied, empty while Truncated, and empty or the whole projection of one past fetch |
| `ExternalSyncRuns.EmptyFetchKeepsClaim` | internal/controller/external_sync_controller.go:328-356 | With allowEmptyResults false an empty fetch never changes the claim, on any reachable status |
| `ExternalSyncRuns.StoredFetchPublishes` | internal/controller/external_sync_controller.go:295-466 | Over every run a stored fetch with a usable mapping publishes its whole projection with its counts, Ready and Synced true and neither Stalled nor Truncated, or keeps entries that differ only by a lost empty value; over the cap it publishes nothing and sets Truncated; under the empty-result guard it keeps the claim; Stalled is true if and only if that guard holds |
| `ExternalSyncRuns.FailureKeepsClaim` | internal/controller/external_sync_controller.go:738-780 | A stored failure, and a fetch with an empty id field, set Ready and Synced false at the current generation and keep everything else |
| `ExternalSyncRuns.SkipIsExact` | internal/controller/external_sync_controller.go:481-514 | On reachable statuses the success write would change nothing but timestamps if and only if the no-op check fires and no published entry lost an attribute with an empty value |
| `ExternalSyncRuns.OverflowSkipExactly` | internal/controller/external_sync_controller.go:519-549 | On reachable statuses the overflow write would change nothing but timestamps if and only if its check fires and the message already counts as many collectors |
| `ExternalSyncRuns.FreshIsSound` | internal/controller/external_sync_controller.go:198-225 | A new resource starts such runs |
| `ExternalSyncRuns.StepKeepsSound` | internal/controller/external_sync_controller.go:319-443 | One step of that invariant for fetches, failures, stalls, overflows, no-ops and spec edits |
| `ExternalSyncController.OwnedKeysToStatus` | internal/controller/external_sync_controller.go:1000-1018 | Past the cap nothing is published; otherwise the whole projection in id order |
| `ExternalSyncController.ExternalSyncReconciler.Reconcile` | internal/controller/external_sync_controller.go:198-472 | The reconciler leaves exactly the resource of the specification function |
| `ExternalSyncController.ExternalSyncReconciler.ReconcileFetched` | internal/controller/external_sync_controller.go:319-466 | An empty id field is reported; otherwise the projection is published |
| `ExternalSyncController.ExternalSyncReconciler.PublishClaim` | internal/controller/external_sync_controller.go:328-466 | Stall, overflow, no-op and success, in that order, each writing exactly its status |
| `ExternalSyncController.ExternalSyncReconciler.WriteStall` | internal/controller/external_sync_controller.go:328-356 | The previous claim and its count survive the stall |
| `ExternalSyncController.ExternalSyncReconciler.WriteExceeded` | internal/controller/external_sync_controller.go:366-418 | The claim is cleared rather than cut short |
| `ExternalSyncController.ExternalSyncReconciler.WriteSuccess` | internal/controller/external_sync_controller.go:438-466 | The whole success status |
| `ExternalSyncController.ExternalSyncReconciler.UpdateStatusError` | internal/controller/external_sync_controller.go:738-764 | Ready and Synced false, the claim untouched |
| `Handoff.SyncChangeWakes` | internal/controller/collector_controller.go:781-856 | Any creation, deletion or status step of a sync that changes a Collector's external layer enqueues that Collector from the old or new object, if and only if it is not an update at one generation whose entries compare equal while one lost an attribute with an empty value |
| `Handoff.RunStepWakes` | internal/controller/collector_controller.go:840-856 | That holds for every step of every run of the sync controller |
| `Handoff.ChangeUnheardExactly` | internal/controller/collector_controller.go:840-856 | At one generation, a change of the published entries is turned down by the predicate if and only if they compare equal while one lost an attribute with an empty value |
| `Handoff.EmptyValueChangeIsUnheard` | internal/controller/collector_controller.go:840-856 | Concrete statuses whose claim changes without passing the predicate |
| `Handoff.ClaimsCommuteWithSorting` | internal/controller/collector_controller.go:264-289 | Claims taken from the sorted syncs are the sorted claims, so one sync reaches the layer only through its own claim |
| `Handoff.LayerDependsOnClaim` | internal/controller/collector_controller.go:255-300 | A sync whose claim for the collector is unchanged leaves the collector's external layer unchanged, wherever it is listed |
| `Handoff.PolicyChangeWakes` | internal/controller/collector_controller.go:823-898 | Any creation, deletion or edit of a policy that changes a Collector's policy layer, whatever local attributes Fleet has, enqueues it if and only if the old or new policy matches the ones its status repeats; one of the two does match Fleet's |
| `Handoff.CollectorsTouchedBySync` | internal/controller/collector_controller.go:781-810 | The Collectors whose id the sync publishes, in list order; nobody when the list fails |
| `Handoff.CollectorIdsFromOwnedKeys` | internal/controller/collector_controller.go:812-821 | The published ids, the empty one left out |
| `Handoff.CollectorsMatchedByPolicy` | internal/controller/collector_controller.go:867-898 | The Collectors whose id or mirrored local attributes match, in list order |
| `SelectorMatch.MatcherKeys` | internal/controller/attributes/matcher_keys.go:47-68 | Exactly the keys of the parsed matchers, plus the negation sentinel if one of them negates |
| `SelectorMatch.IndexKeys` | internal/controller/policy_controller.go:438-462 | The extractor: matcher keys, plus the ids-only sentinel for selectors without matchers |
| `SelectorMatch.IndexCompleteExactly` | internal/controller/policy_controller.go:438-462 | Every matching collector finds the selector if and only if the selector is under an always-queried key, or has no id list and some matcher turns down collectors lacking its attribute |
| `SelectorMatch.UncoveredIsMissed` | internal/controller/policy_controller.go:449-455 | Every other selector matches a collector whose event does not find it |
| `SelectorMatch.IntendedShapesCovered` | internal/controller/attributes/matcher_keys.go:20-46 | Id-only selectors, and matcher-only ones whose positive matchers reject the empty string, are covered |
| `SelectorMatch.ChangeOfMatchWakes` | internal/controller/policy_controller.go:487-560 | A change of match between old and new collector wakes a covered selector |
| `SelectorMatch.CoveredIsWoken` | internal/controller/attributes/match.go:46-112 | A covered selector that matches is found through the index |
| `SelectorMatch.OperatorsMean` | internal/controller/attributes/match.go:76-112 | A one-matcher selector with each of the four operators selects by the value without one layer of quotes and by what the collector has under the key, the id for collector.id and the empty string for a missing attribute |
| `SelectorMatch.OppositesPartition` | internal/controller/attributes/match.go:92-110 | Opposite operators select complementary collectors, or none when the pattern does not compile |
| `SelectorMatch.SelectorIsConjunction` | internal/controller/attributes/match.go:46-66 | Listed ids are selected, others if and only if there are matchers and each of them alone selects them; one that does not parse selects nobody |
| `SelectorMatch.IndexedUnder` | internal/controller/policy_controller.go:443-455 | The index keys of a selector, spelled out |
| `SelectorMatch.AnchoredIsWoken` | internal/controller/policy_controller.go:487-503 | A collector selected by id alone, or by a selector with a matcher on the id, a negative one or, without listed ids, an equality with a non-empty value, finds it under one of its attributes or a key that is always looked up |
| `PolicyController.MapCollectorToAffectedPolicies` | internal/controller/policy_controller.go:504-560 | Duplicate-free, and exactly the policies of the namespace found under one of the collector's keys whose list succeeds |
| `PolicyController.MatchedPolicyIsEnqueued` | internal/controller/policy_controller.go:504-560 | Every covered policy that matches the collector is enqueued by its event, unless the list of a key it is indexed under fails |
| `PolicyController.EvaluatePolicySelector` | internal/controller/policy_controller.go:248-273 | Exactly the matched ids, strictly sorted |
| `PolicyController.EqualityMatchesExactly` | internal/controller/policy_controller.go:248-288 | A policy with one equality matcher matches exactly the listed ids and the collectors whose reported attribute, or id, is the value |
| `PolicyController.FailedListSticks` | internal/controller/policy_controller.go:190-194 | After a failed List, evaluations with the same outcome are skipped and the failure stays reported |
| `PolicyController.RemoteAttributePolicyReconciler.Reconcile` | internal/controller/policy_controller.go:121-205 | Evaluates to exactly the matched ids and leaves exactly the status of the specification function |
| `PolicyController.RemoteAttributePolicyReconciler.UpdateStatusMatched` | internal/controller/policy_controller.go:290-384 | Count, capped ids, Truncated, Ready and Synced of the evaluation |
| `PolicyController.RemoteAttributePolicyReconciler.UpdateStatusError` | internal/controller/policy_controller.go:389-428 | Ready and Synced report the failing list; the matched fields stay |
| `PolicyRuns.RunKeepsReadyTracks` | internal/controller/policy_controller.go:121-205 | Over every run Ready is the verdict of the stored matched fields at the observed generation, or a failing list's, and missing only before the first write |
| `PolicyRuns.StoredEvaluationPublishes` | internal/controller/policy_controller.go:290-384 | Over every run a stored evaluation leaves the full count, the first thousand ids, Truncated if and only if there are more, the current generation and, unless Ready is stale, the two conditions of its verdict |
| `PolicyRuns.FailedListReported` | internal/controller/policy_controller.go:389-428 | A stored failing list is reported in both conditions and keeps the matched fields |
| `PolicyRuns.ReadyStaleExactly` | internal/controller/policy_controller.go:186-200 | Over every run an evaluation leaves Ready stale if and only if the last status write was a failing list's and the evaluation's count, capped ids and generation are the stored ones |
| `PolicyRuns.StaleReadyStays` | internal/controller/policy_controller.go:186-200 | It stays stale through any number of evaluations that find the same |
| `PolicyRuns.FreshReadyTracks` | internal/controller/policy_controller.go:121-205 | A new policy starts such runs |
| `DiscoveryRuns.PollMirrors` | internal/controller/collector_discovery_controller.go:353-542 | An error-free poll during which nobody seizes a CR leaves an owned CR stale (Keep) or gone or going (Delete) if and only if its id is not among the surviving ones, managed counts the owned CRs remaining, and every surviving id is claimed or reported |
| `DiscoveryRuns.RunThenPollMirrors` | internal/controller/collector_discovery_controller.go:317-527 | That holds after every run of any discoveries and users, for the records that pass the filters |
| `DiscoveryClaims.PollJudgesEveryId` | internal/controller/collector_discovery_controller.go:353-453 | An error-free poll nobody disturbs creates a CR under every free name, claims the ids whose CR is its own, and reports every other id with the reason that holds of the CR under its name: no discovery, another one, or another id; it reports nothing else, in id order |
| `DiscoveryClaims.AnsweredPollCompletes` | internal/controller/collector_discovery_controller.go:204-286 | A poll whose calls are all answered and during which nobody seizes a CR completes |
| `DiscoveryClaims.VanishedItem` | internal/controller/collector_discovery_controller.go:547-574 | Marking or unmarking a CR that vanished since the listing is an error, deleting it is not |
| `DiscoveryClaims.IncompleteReportsNothing` | internal/controller/collector_discovery_controller.go:353-453 | A poll that stops early reports no conflicts, ids or counts |
| `DiscoveryClaims.BelongsIsOwned` | internal/controller/collector_discovery_controller.go:529-542 | Ownership is the two labels, or without the namespace label the annotation with namespace, slash and name |
| `DiscoveryWrites.PollWritesOnlyItsOwnExactly` | internal/controller/collector_discovery_controller.go:353-527 | Whatever fails and whoever interferes, a poll only creates absent CRs of its own and marks or removes ones it owns at that moment, if and only if no call takes effect on a CR that was its own when read and that others had taken over when written |
| `DiscoveryWrites.LostExactlyWhenHandedOver` | internal/controller/collector_discovery_controller.go:471-527 | An owned CR is no longer owned after others' acts if and only if one of them hands it over or removes it with none after it giving it back |
| `DiscoveryWrites.TakenWasHandedOver` | internal/controller/collector_discovery_controller.go:364-523 | A CR taken over was handed over by an act between that item's read and its write, the listing being the read of the stale phase |
| `DiscoveryWrites.PollWritesOnlyItsOwn` | internal/controller/collector_discovery_controller.go:353-527 | When nobody seizes a CR during the poll it writes only its own |
| `DiscoveryWrites.TakenOverIsDeleted` | internal/controller/collector_discovery_controller.go:504-512 | A CR a user takes over after the listing is deleted, the delete being by name alone |
| `DiscoveryWrites.GoodWriteSparesOthers` | internal/controller/collector_discovery_controller.go:533-542 | Such a write leaves every other discovery's CRs as they are, so it is among the interference the other's poll allows for |
| `DiscoveryRuns.NamesStayDerived` | internal/controller/collector_discovery_controller.go:353-465 | Over every run labelled CRs are named by chooseCRName of their id |
| `DiscoveryRuns.UpsertAllShape` | internal/controller/collector_discovery_controller.go:353-453 | With nobody seizing CRs the upsert phase loses or renames no owned CR, makes only new ones, and claims and unmarks every owned CR of a surviving id |
| `DiscoveryRuns.SweepAllShape` | internal/controller/collector_discovery_controller.go:471-527 | With nobody seizing CRs the stale phase gives each owned CR its final state, once, and counts and reports accordingly |
| `DiscoveryMirror.OwnerIsUnique` | internal/controller/collector_discovery_controller.go:529-542 | A CR belongs to at most one discovery, with or without the namespace label |
| `DiscoveryMirror.SurvivingExactly` | internal/controller/collector_discovery_controller.go:317-346 | An id survives if and only if it is not blank, the selector lists no ids or this one, and Fleet lists it as active, or as inactive with inactive ones included |
| `DiscoveryNames.ChosenNameIsValid` | internal/controller/collector_discovery_controller.go:459-465 | Whatever the id, the chosen name is a valid DNS-1123 label of at most 59 characters |
| `DiscoveryNames.NamesCollideExactly` | internal/controller/collector_discovery_controller.go:459-465 | Injective on lossless ids; two ids share a name if and only if both hash to the same base and digits, or one spells out the other's hashed name |
| `DiscoveryNames.LosslessExactly` | internal/controller/discovery/naming.go:61-87 | An id is kept as it is if and only if it is a clean label of at most 53 characters |
| `DiscoveryNames.SanitizedIsClean` | internal/controller/discovery/naming.go:61-87 | Label characters only, no adjacent, leading or trailing dash, at most 53 characters |
| `DiscoveryNames.SanitizedJoinsWords` | internal/controller/discovery/naming.go:61-87 | The sanitized name is the runs of lower-case letters and digits joined by single dashes, cut after 53 characters and freed of a trailing dash |
| `DiscoveryNames.ChosenNameExactly` | internal/controller/discovery/naming.go:97-105 | A lossless id is its own name; any other gets the sanitized form or c, a dash and five hexadecimal digits of its hash |
| `DiscoveryNames.SanitizedName` | internal/controller/discovery/naming.go:61-87 | The loop with its previous-dash flag computes the collapsed, trimmed, cut form |
| `DiscoveryNames.IsValidDNS1123` | internal/controller/discovery/naming.go:111-128 | Accepts exactly the non-empty labels of at most 63 characters that start and end alphanumeric |
| `DiscoveryController.FilterCollectors` | internal/controller/collector_discovery_controller.go:317-346 | The surviving ids, in list order |
| `DiscoveryController.CollectorDiscoveryReconciler.Poll` | internal/controller/collector_discovery_controller.go:204-286 | The reconciler leaves exactly the namespace and results of the specification function, for the listing the API returned |
| `DiscoveryController.CollectorDiscoveryReconciler.UpsertCollectorCRs` | internal/controller/collector_discovery_controller.go:353-453 | The upsert loop, stopping at the first failure |
| `DiscoveryController.CollectorDiscoveryReconciler.UpsertCollector` | internal/controller/collector_discovery_controller.go:364-447 | Name, Get, then create, adopt or report a conflict |
| `DiscoveryController.CollectorDiscoveryReconciler.ProcessStale` | internal/controller/collector_discovery_controller.go:471-527 | The stale loop, stopping at the first failure |
| `DiscoveryController.CollectorDiscoveryReconciler.SetStaleAnnotation` | internal/controller/collector_discovery_controller.go:547-560 | Patches the annotation unless already set |
| `DiscoveryController.CollectorDiscoveryReconciler.ClearStaleAnnotation` | internal/controller/collector_discovery_controller.go:564-574 | Removes the annotation if present |
| `ConditionWorklist.ScanConditionCalls` | hack/docgen/conditions.go:133-298 | Terminates with exactly the (CRD, type, reason) triples set directly or reachable through chains of parameter passing |
| `ConditionExample.ExampleResolves` | hack/docgen/conditions.go:133-298 | For a package with a helper, a method forwarding its reason, callers in two controllers and a local variable, exactly the four triples that can be set |
| `ConditionWorklist.Expand` | hack/docgen/conditions.go:205-296 | One frame yields exactly the triples and forwarded parameters of the call sites in its scope, each frame carrying its file's CRD, which is why the visited key can leave the CRD out |
| `ConditionWorklist.DoneIsExact` | hack/docgen/conditions.go:187-297 | An empty worklist means the triples are exactly the reachable ones |
| `ConditionWorklist.ReachedIsVisited` | hack/docgen/conditions.go:187-297 | No reachable parameter is missed |
| `ConditionScan.ParamIndex` | hack/docgen/conditions.go:502-519 | The position of each named parameter |
| `ConditionScan.LocalAssignments` | hack/docgen/conditions.go:462-497 | The constants assigned to a local variable, provided nothing else is |
| `ConditionScan.ScanFunc` | hack/docgen/conditions.go:338-455 | The direct triples and pending parameters of one function |
| `ConditionWorklist.ScanPackage` | hack/docgen/conditions.go:150-186 | The seeds of the whole package |
| `SqlReadOnly.WithQueryHasFinalSelect` | pkg/sources/sql/source.go:347-383 | Accepts if and only if the tokens are with, a greedy optional recursive, a comma list of `ident [group] as group`, then select; the scan strictly advances |
| `SqlReadOnly.AfterFirstExpression` | pkg/sources/sql/source.go:347-383 | After an opening, a name, optional columns, as and a body, delimited by depth, a query is accepted before select, goes on after a comma, and is rejected otherwise |
| `SqlReadOnly.NamelessRejected` | pkg/sources/sql/source.go:353-360 | Without an identifier where the name must stand it is rejected |
| `SqlReadOnly.ModifyingKeywordsRejected` | pkg/sources/sql/source.go:277-308 | A query with any of the fourteen modifying keywords as a token is rejected |
| `SqlReadOnly.SkipBalancedParens` | pkg/sources/sql/source.go:385-399 | The only index after a balanced group, or -1 if and only if there is none |
| `SqlReadOnly.SkipCte` | pkg/sources/sql/source.go:355-381 | Reads one table expression, or finds that none starts there |
| `SqlReadOnly.GroupExactly` | pkg/sources/sql/source.go:385-399 | A token sequence is a balanced group if and only if its depth returns to zero first at its end |
| `SqlReadOnly.GroupPrefixUnique` | pkg/sources/sql/source.go:385-399 | At most one prefix is a group |
| `SqlReadOnly.SqlTokens` | pkg/sources/sql/source.go:320-345 | The loop with its word buffer computes the tokens |
| `SqlReadOnly.TokensRoundTrip` | pkg/sources/sql/source.go:320-345 | Tokens written out with blanks read back as themselves |
| `SqlReadOnly.TokensExactly` | pkg/sources/sql/source.go:320-345 | Parentheses and commas are tokens and separate, other characters outside words separate, and a word is one token in lower case; this determines the tokens of every query |
| `SqlReadOnly.ValidateReadOnlyQuery` | pkg/sources/sql/source.go:294-318 | Accepts exactly single statements without a disallowed keyword that are a SELECT or such a WITH query |
| `IntFormat.RoundTripExactly` | pkg/sources/source.go:119-140 | Parsing the output gives the input if and only if the input is not -2^63 |
| `IntFormat.NoLeadingZero` | pkg/sources/source.go:119-140 | No leading zero, and a minus sign exactly for negative inputs |
| `IntFormat.FormatInt64` | pkg/sources/source.go:119-140 | The digits are written right to left and the write index never leaves the 20-byte buffer |

## Left out

- Transport, rate limiting, tracing, metrics, events, logging and flag wiring; requeue delays and outcome labels.
- Kubernetes caches and work queues: a stale informer read is not modelled, a lost wake-up appears only as an event that enqueues nobody.
- Schedule gating of external syncs and discoveries by wall-clock time, and status timestamps.
- Secret resolution, the source fetch itself and the rate limiters in front of it.
- Webhook checks other than the name-scope one, tenant checks and access reviews.
- `internal/controller/pipeline_discovery_controller.go`, close to the collector discovery, and the copy of the query check in `api/v1alpha1/external_sync_webhook.go`.
- `mapCollectorToAffectedSyncs`: the same lookup as `PolicyController.MapCollectorToAffectedPolicies` over another index.
- The discovery's own status, its conflict cap and its conditions; conflicts with equal ids are sorted stably.
- Adding the Collector finaliser, a one-branch step before the modelled reconcile.
- The documentation check's parsing of Go files, its unresolved-reason messages and its comparison with the document; a frame's parameter name and location, which only appear in those messages.
- ExternalSource.FieldString: does not compute the shortest decimal form of a float, which the standard library does; a float field carries its text.
- SelectorMatch.IndexCompleteExactly: matchers are parsed by a parameter, so nothing is said about which strings the matcher expression accepts.
- DiscoveryRuns.PollMirrors: not for polls during which somebody changes, replaces or removes a Collector the discovery owns, a finaliser being added or released included; `DiscoveryWrites` says what such a poll may write.
- DiscoveryClaims.PollJudgesEveryId: not for polls during which others act on Collectors, where the holder of a name can change between two reads; `DiscoveryRuns.PollMirrors` and `DiscoveryWrites` cover those.
