# GC summary state and node identifier index, modelled in Dafny

This project models two parts of a Fluid Framework repository and proves properties of the models.

**The garbage-collection summary-state tracker of the container runtime** (`GCSummaryStateTracker`).
- Version flags:
  - the summary state needs a reset exactly when the GC version recorded for the latest summary differs from the version in effect;
  - the GC state needs a reset when GC did not run in the base snapshot;
  - new summaries are written with the version in effect.
- The GC data of a summary is split into three categories: GC state, tombstones and deleted nodes.
- A summary writes the GC data incrementally:
  - one handle to the last acknowledged summary when nothing changed;
  - otherwise a tree with a handle for each unchanged category and a blob for each changed one;
  - blobs everywhere when a full tree is asked for, when state is not tracked, when there is no baseline, or when the GC version changed.
- The tracker keeps:
  - the baseline;
  - the data staged by the latest summary;
  - a running count of data stores updated since the last acknowledged summary.
- Refreshing after an acknowledged summary promotes the staged data, or the data fetched from a summary this tracker did not propose, and restarts the count.

Two files model the tracker:
- `gc_summary_state.dfy` holds the decisions as functions over values, with the lemmas about them;
- `gc_summary_state_tracker.dfy` holds the tracker as a class whose methods update its fields, each specified by the corresponding transition function.

**The node identifier index of the shared tree** (`identifiedNodes`).
- The index walks the tree in pre-order and maps each identified node's identifier to the node.
- A node has an identifier when all of these hold:
  - its schema declares the identifier global field, or admits extra global fields;
  - the field's first node holds a number.
- A second node with an identifier already seen is the error "Encountered duplicate node identifier".
- When the document's global field schema lacks the identifier field, the index is disabled and empty.

Four files model the index:
- `identifier_index.dfy`: the tree, the schema, the walk, and the index built from it;
- `identifier_edits.dfy`: `node.child = ...` as an edit of the tree, and how it changes the set of identifiers;
- `identifier_index_view.dfy`:
  - the index as an object whose map is rescanned in a loop;
  - the tree view whose root and fields change in place (`SetRoot`, `ClearRoot`, `SetChildField`);
- `identifier_index_scenarios.dfy`: the trees the index's tests build;
- `identifier_index_view_scenarios.dfy`: the tests that drive a tree view.

`wrappers.dfy` holds `Option`, `Result` and `Outcome`.

## Model

| member | source | states |
|---|---|---|
| GCSummaryState.EmittedCategories | packages/runtime/container-runtime/src/test/gc/gcSummaryStateTracker.spec.ts:151-163 | The GC state and deleted-node categories are always written. The tombstone category is written exactly in tombstone mode. |
| GCSummaryState.SummarizeGC | packages/runtime/container-runtime/src/test/gc/gcSummaryStateTracker.spec.ts:122-216 | No GC subtree exactly when GC does not run. A single whole-tree handle exactly when the baseline may be reused and every category equals it. Otherwise a tree over exactly the written categories: each blob carries the current content, each handle points at its own category and stands only where the baseline holds equal content, and with a reusable baseline every unchanged category is a handle. |
| GCSummaryState.SummaryResolvesToCurrentData | packages/runtime/container-runtime/src/test/gc/gcSummaryStateTracker.spec.ts:86-89 | Following a summary's handles into the last acknowledged summary yields exactly the current GC data, category by category. Incremental writing loses nothing. |
| GCSummaryState.FullTreeWritesEveryCategory | packages/runtime/container-runtime/src/test/gc/gcSummaryStateTracker.spec.ts:86-89 | A full-tree summary writes every category as a blob of its current content. |
| GCSummaryState.OnlyOneCategoryChanged | packages/runtime/container-runtime/src/test/gc/gcSummaryStateTracker.spec.ts:135-216 | When exactly one category differs from a reusable baseline, the summary is a tree with a blob for that category and a handle for each other one. |
| GCSummaryState.WithBaseState | packages/runtime/container-runtime/src/test/gc/gcSummaryStateTracker.spec.ts:115-119 | When GC runs, loading the base snapshot's GC data makes it the baseline and changes nothing else. With GC off nothing changes. |
| GCSummaryState.AfterSummarize | packages/runtime/container-runtime/src/test/gc/gcSummaryStateTracker.spec.ts:252-261 | A summary stages the data it was given when GC runs. It changes nothing else, and nothing at all when GC is off. |
| GCSummaryState.AfterGCRunStats | packages/runtime/container-runtime/src/test/gc/gcSummaryStateTracker.spec.ts:244-250 | A GC run adds its updated data-store count to the running count and changes nothing else. |
| GCSummaryState.AfterRefresh | packages/runtime/container-runtime/src/test/gc/gcSummaryStateTracker.spec.ts:272-295 | A refresh with no new summary changes nothing. The refresh fails exactly when a summary this tracker did not propose cannot be fetched. Every successful refresh of a new summary sets the count to 0. A tracked summary promotes the staged data and clears the version reset. An untracked one installs the fetched data and keeps the version. |
| GCSummaryState.StepKeepsConsistent | packages/runtime/container-runtime/src/test/gc/gcSummaryStateTracker.spec.ts:64-83 | Every call keeps the invariant: while GC is off there is no baseline and nothing is staged, and the recorded version is the base snapshot's or the one in effect. |
| GCSummaryState.RunKeepsConsistent | packages/runtime/container-runtime/src/test/gc/gcSummaryStateTracker.spec.ts:64-83 | Any sequence of calls keeps that invariant. |
| GCSummaryState.CountAccumulatesUntilCommit | packages/runtime/container-runtime/src/test/gc/gcSummaryStateTracker.spec.ts:252-270 | Over any sequence of calls that acknowledges no summary, the count grows by exactly the sum the GC runs report. The baseline and its version stay as they were. |
| GCSummaryState.CommitResetsCount | packages/runtime/container-runtime/src/test/gc/gcSummaryStateTracker.spec.ts:272-295 | An acknowledged summary sets the count to 0, unless the fetch of a foreign summary's data failed. |
| GCSummaryState.FailedFetchKeepsState | packages/runtime/container-runtime/src/test/gc/gcSummaryStateTracker.spec.ts:286-290 | A failed fetch of a foreign summary's GC data leaves the whole state unchanged. |
| GCSummaryState.RepeatedSummarizeIsStable | packages/runtime/container-runtime/src/test/gc/gcSummaryStateTracker.spec.ts:252-261 | A summary that is never acknowledged does not change what the next summary of the same data writes. |
| GCSummaryState.SummarizeAfterOwnCommitIsHandle | packages/runtime/container-runtime/src/test/gc/gcSummaryStateTracker.spec.ts:77-82 | Once this tracker's own summary of some data is acknowledged, the version needs no reset. The next incremental summary of the same data is one handle. |
| GCTracker.GCSummaryStateTracker.constructor | packages/runtime/container-runtime/src/test/gc/gcSummaryStateTracker.spec.ts:26-35 | A new tracker records the base snapshot's version, has no baseline, stages nothing and counts 0. |
| GCTracker.GCSummaryStateTracker.DoesGCStateNeedReset | packages/runtime/container-runtime/src/test/gc/gcSummaryStateTracker.spec.ts:36-36 | The GC state needs a reset exactly when GC did not run in the base snapshot. |
| GCTracker.GCSummaryStateTracker.DoesSummaryStateNeedReset | packages/runtime/container-runtime/src/test/gc/gcSummaryStateTracker.spec.ts:38-42 | A reset is needed exactly when the latest summary's version differs from the one new summaries use, older or newer. That can only be the base snapshot's version, and while it lasts no summary refers back to the latest one. |
| GCTracker.GCSummaryStateTracker.CurrentGCVersion | packages/runtime/container-runtime/src/test/gc/gcSummaryStateTracker.spec.ts:37-37 | New summaries use the GC version in effect. |
| GCTracker.GCSummaryStateTracker.InitializeBaseState | packages/runtime/container-runtime/src/test/gc/gcSummaryStateTracker.spec.ts:115-119 | The fields become the base-state transition of the old fields, so there is a baseline only when GC runs, and the invariant holds. |
| GCTracker.GCSummaryStateTracker.Summarize | packages/runtime/container-runtime/src/test/gc/gcSummaryStateTracker.spec.ts:125-131 | Returns the GC subtree that SummarizeGC decides for the old state. The fields become the summarize transition. The invariant holds. |
| GCTracker.GCSummaryStateTracker.UpdateStateFromGCRunStats | packages/runtime/container-runtime/src/test/gc/gcSummaryStateTracker.spec.ts:245-250 | The fields become the GC-run transition of the old fields. |
| GCTracker.GCSummaryStateTracker.RefreshLatestSummary | packages/runtime/container-runtime/src/test/gc/gcSummaryStateTracker.spec.ts:286-295 | On success it passes, and the fields become the refresh transition. On a failed fetch it fails with that error, and the fields stay as they were. An absent proposal handle is accepted. |
| GCTracker.VersionFlagsAfterConstruction | packages/runtime/container-runtime/src/test/gc/gcSummaryStateTracker.spec.ts:26-83 | With GC run in the base snapshot, the GC state needs no reset and the current version is the one in effect. The summary state needs a reset exactly when the base snapshot's version differs from it, whether older or newer. |
| GCTracker.NewInitializedTracker | packages/runtime/container-runtime/src/test/gc/gcSummaryStateTracker.spec.ts:103-120 | A tracker in tombstone mode has the initial GC data as its baseline. |
| GCTracker.SummaryWhenNothingChanges | packages/runtime/container-runtime/src/test/gc/gcSummaryStateTracker.spec.ts:122-133 | Summarizing the baseline's own data gives one whole-tree handle. |
| GCTracker.SummaryWhenOnlyGCStateChanges | packages/runtime/container-runtime/src/test/gc/gcSummaryStateTracker.spec.ts:135-164 | A new node in the GC state: that state is a blob of the new state. Tombstones and deleted nodes are handles. |
| GCTracker.SummaryWhenOnlyTombstonesChange | packages/runtime/container-runtime/src/test/gc/gcSummaryStateTracker.spec.ts:166-190 | One more tombstone: the tombstones are a blob of the new set. The other two are handles. |
| GCTracker.SummaryWhenOnlyDeletedNodesChange | packages/runtime/container-runtime/src/test/gc/gcSummaryStateTracker.spec.ts:192-216 | Any deleted-node set different from the baseline's is a blob of that set. The other two are handles. |
| GCTracker.UpdatedDataStoreCountAcrossSummaries | packages/runtime/container-runtime/src/test/gc/gcSummaryStateTracker.spec.ts:219-296 | Two runs of 10 around an unacknowledged summary count 10, then 20. A tracked, acknowledged summary reported without a proposal handle passes and brings the count to 0. |
| IdentifierIndexing.IdentifierOf | experimental/dds/tree2/src/test/feature-libraries/identifierIndex.spec.ts:253-316 | A node has an identifier exactly when its schema admits the identifier field (declared or through extra global fields), that field holds a node, and that node's value is a number; the identifier is that number. A node outside the schema, with an empty field, or with a missing or non-number value is skipped. |
| IdentifierIndexing.IndexNodes | experimental/dds/tree2/src/test/feature-libraries/identifierIndex.spec.ts:189-219 | Indexing a sequence of nodes succeeds exactly when their identifiers have no duplicate, and fails with the duplicate-identifier message otherwise. On success, the keys are exactly those identifiers and their number equals the number of identified nodes. Each entry maps to a listed node that carries its key, and each identified node is the entry under its identifier. |
| IdentifierIndexing.BuildIndex | experimental/dds/tree2/src/test/feature-libraries/identifierIndex.spec.ts:49-58 | The index of a tree is empty when the identifier field is not in the global schema. Otherwise it succeeds exactly when the tree's identifiers, in pre-order, have no duplicate, and an error is always the duplicate-identifier message. On success the keys are exactly those identifiers, one per identified node. Each entry maps to a node of the tree carrying its key, and each identified node of the tree is found under its identifier. |
| IdentifierIndexing.IndexingFailsFromPrefix | experimental/dds/tree2/src/test/feature-libraries/identifierIndex.spec.ts:189-219 | Once a prefix of the walk holds a duplicate, indexing the whole walk fails. |
| IdentifierIndexing.ForestIdsOfWalk | experimental/dds/tree2/src/test/feature-libraries/identifierIndex.spec.ts:77-147 | The identifiers collected node by node along the pre-order walk equal those collected structurally through global and then local fields, at every depth. |
| IdentifierIndexScenarios.IndexMatchesTree | experimental/dds/tree2/src/test/feature-libraries/identifierIndex.spec.ts:49-58 | An enabled index that builds passes the tests' check against the tree's own identifiers: the same size, every identifier present and mapped to a node carrying it, and no other key. |
| IdentifierIndexScenarios.InsertedNodeIsFound | experimental/dds/tree2/src/test/feature-libraries/identifierIndex.spec.ts:60-75 | A single identified root is indexed under its identifier and nothing else. |
| IdentifierIndexScenarios.DeepNodeIsFound | experimental/dds/tree2/src/test/feature-libraries/identifierIndex.spec.ts:77-108 | An identified grandchild of unidentified nodes is found. |
| IdentifierIndexScenarios.NodesOnOnePathAreFound | experimental/dds/tree2/src/test/feature-libraries/identifierIndex.spec.ts:110-147 | Three identified nodes on one path, with distinct identifiers, are all found. |
| IdentifierIndexScenarios.DuplicateIdentifierFails | experimental/dds/tree2/src/test/feature-libraries/identifierIndex.spec.ts:189-219 | A root and its child with the same identifier make indexing fail with "Encountered duplicate node identifier". |
| IdentifierIndexScenarios.NodeOutsideSchemaIsSkipped | experimental/dds/tree2/src/test/feature-libraries/identifierIndex.spec.ts:253-281 | A node whose schema does not declare the identifier field is skipped, and the index is empty. |
| IdentifierIndexScenarios.ExtraGlobalFieldsAreRespected | experimental/dds/tree2/src/test/feature-libraries/identifierIndex.spec.ts:351-381 | A node whose schema admits extra global fields is indexed even without declaring the identifier field. |
| IdentifierIndexScenarios.WrongTypeIdentifierIsSkipped | experimental/dds/tree2/src/test/feature-libraries/identifierIndex.spec.ts:284-298 | A node whose identifier value is not a number is skipped. |
| IdentifierIndexScenarios.MissingIdentifierIsSkipped | experimental/dds/tree2/src/test/feature-libraries/identifierIndex.spec.ts:301-316 | A node whose identifier node has no value is skipped. |
| IdentifierIndexScenarios.DisabledWithoutGlobalField | experimental/dds/tree2/src/test/feature-libraries/identifierIndex.spec.ts:318-349 | Without the identifier field in the global schema, identifiers are not in schema and the index of an identified node is empty. |
| IdentifierIndexScenarios.AttachedChildIsFound | experimental/dds/tree2/src/test/feature-libraries/identifierIndex.spec.ts:149-169 | Setting the `child` field of an identified root to a node with a fresh identifier gives a root with that child, and the index then holds exactly both identifiers. |
| IdentifierEdits.EditForest | experimental/dds/tree2/src/test/feature-libraries/identifierIndex.spec.ts:164-168 | `node.child = content` on the node carrying the target, as an edit of the whole tree: the tree keeps its number of root nodes. What the edit does to the target node and to the identifiers is stated by the lemmas below. |
| IdentifierEdits.SetFieldContent | experimental/dds/tree2/src/test/feature-libraries/identifierIndex.spec.ts:167-167 | Setting a field makes that field hold the new content and leaves every other field's content as it was. |
| IdentifierEdits.EditSetsTargetField | experimental/dds/tree2/src/test/feature-libraries/identifierIndex.spec.ts:164-168 | The node carrying the target keeps its identifier and global fields after the edit. Its edited field holds the new content, and its other local fields are unchanged. |
| IdentifierEdits.EditedNodeOfForest | experimental/dds/tree2/src/test/feature-libraries/identifierIndex.spec.ts:164-168 | Whenever the tree holds the target identifier, the edited tree has a node carrying the target whose edited field holds the new content. |
| IdentifierEdits.AttachedContentIsFound | experimental/dds/tree2/src/test/feature-libraries/identifierIndex.spec.ts:164-168 | When the edited tree indexes, the index entry under the target is a node whose edited field holds the new content. |
| IdentifierEdits.EditForestIds | experimental/dds/tree2/src/test/feature-libraries/identifierIndex.spec.ts:164-168 | When the target identifier occurs once, the edited node is in the tree and carries it. The tree's identifiers split as before + those below the replaced field + after, with the target in the first part. After the edit they are before + those of the new content + after. |
| IdentifierEdits.EditForestAbsent | experimental/dds/tree2/src/test/feature-libraries/identifierIndex.spec.ts:164-168 | An edit whose target identifier is not in the tree leaves the tree unchanged. |
| IdentifierEdits.AttachUpdatesIndex | experimental/dds/tree2/src/test/feature-libraries/identifierIndex.spec.ts:149-169 | Setting a field of an indexed node: the tree can be indexed again exactly when the new content has no duplicate and no identifier the tree keeps outside the replaced field. The new keys are then the kept ones, the target among them, plus those of the new content. |
| IdentifierIndexView.EmptyTreeHasEmptyIndex | experimental/dds/tree2/src/test/feature-libraries/identifierIndex.spec.ts:171-187 | The index of an empty tree is empty. |
| IdentifierIndexView.IdentifierIndex.IdentifiersAreInSchema | experimental/dds/tree2/src/test/feature-libraries/identifierIndex.spec.ts:318-349 | When the identifier field is not in the global schema, every tree indexes to an empty map. |
| IdentifierIndexView.IdentifierIndex.ScanIdentifiers | experimental/dds/tree2/src/test/feature-libraries/identifierIndex.spec.ts:49-58 | The loop over the pre-order walk leaves the map BuildIndex gives, or an empty map when it fails. It passes exactly when BuildIndex succeeds, and a failure carries the duplicate-identifier message. |
| IdentifierIndexView.TreeView.constructor | experimental/dds/tree2/src/test/feature-libraries/identifierIndex.spec.ts:60-62 | A new view has an empty tree and an index in sync with it. |
| IdentifierIndexView.TreeView.SetRoot | experimental/dds/tree2/src/test/feature-libraries/identifierIndex.spec.ts:63-73 | The tree becomes the content and the index is in sync with it. The rescan passes exactly when the content indexes, and fails with the duplicate-identifier message otherwise. |
| IdentifierIndexView.TreeView.ClearRoot | experimental/dds/tree2/src/test/feature-libraries/identifierIndex.spec.ts:185-186 | `tree.root = undefined` empties the tree, and the index then has size 0 and no keys. |
| IdentifierIndexView.TreeView.LookupsMatchTree | experimental/dds/tree2/src/test/feature-libraries/identifierIndex.spec.ts:49-58 | For an enabled index of a tree that indexes, `size` is the number of identified nodes and `keys` is the set of the tree's identifiers. `has(id)` holds exactly when some node of the tree carries `id`. `get(id)` only gives a node of the tree carrying `id`. Otherwise the index is empty. |
| IdentifierIndexView.TreeView.SetChildField | experimental/dds/tree2/src/test/feature-libraries/identifierIndex.spec.ts:164-168 | `node.child = ...` on an indexed node edits the tree in place and rescans. The rescan passes exactly when the new content has no duplicate and no identifier the tree keeps. The keys then become the kept ones, the target included, plus the new content's, and `get` of the target gives a node whose field holds the new content. |
| IdentifierIndexViewScenarios.LookUpInsertedNode | experimental/dds/tree2/src/test/feature-libraries/identifierIndex.spec.ts:60-75 | After inserting one identified root: size 1, `has` holds, `get` gives a node carrying the identifier, and the keys are exactly that identifier. |
| IdentifierIndexViewScenarios.InsertOverTime | experimental/dds/tree2/src/test/feature-libraries/identifierIndex.spec.ts:149-169 | Attaching a child with a fresh identifier under an identified root, through the view, passes. The index then matches both identifiers. |
| IdentifierIndexViewScenarios.ForgetDeletedNodes | experimental/dds/tree2/src/test/feature-libraries/identifierIndex.spec.ts:171-187 | An index that held one identifier is empty after `tree.root = undefined`. |

## Left out

- The model of `GCSummaryStateTracker` and of the identifier index is fixed by their tests and the design they follow. Their implementation files are not modelled line by line. These behaviours are modelling choices that no test pins down:
  - a summary with `fullTree` set, or without tracked state, writes every category as a blob;
  - so does a summary made while the version needs a reset;
  - refreshing after a summary this tracker did not propose installs the fetched data and keeps the recorded version;
  - after this tracker's own summary is acknowledged, the recorded version becomes the one in effect, so the reset is not repeated;
  - with GC off, `initializeBaseState` keeps no baseline.
- GCTracker.GCSummaryStateTracker.RefreshLatestSummary: reading the GC data of a summary this tracker did not propose is asynchronous I/O through a callback. It is a parameter holding the fetched data or the error the fetch raised.
- Blob serialisation and handle path strings are abstract. A blob carries the category's content, and a handle names either the whole GC subtree or one category.
- The tombstones are a list in the source (lines 99 and 169) but a set in the model. The order and duplicates of that list are not modelled; categories are compared by membership.
- The GC test at line 195 builds its new deleted-node set with JavaScript `Set` constructor semantics. The model only uses the fact that the set differs from the baseline's.
- "No GC contribution at all" arises only when GC does not run, because the GC state and deleted-node categories are always written.
- The recorded GC version of the latest summary starts at the base snapshot's and becomes the version in effect after this tracker's own summary is acknowledged. This follows the title of the version tests (line 25) and the comment at line 77, not a version fixed at construction.
- `doesGCStateNeedReset` is modelled as "GC did not run in the base snapshot". The tests only show the case where it did.
- Only the updated data-store count of a GC run is modelled. The other counters are carried in the statistics but dropped.
- IdentifierIndexView.IdentifierIndex.ScanIdentifiers: the index is rebuilt in full after each change, not updated incrementally. A failed rebuild leaves it empty. Only the resulting contents are modelled.
- Identifiers are unbounded integers. The tests number them from 42 with `makeId`, and their later compressed form is not modelled.
- The identifier index's behaviour on forks and merges (lines 447-501) is left out, because it depends on tree editing internals.
- The `afterBatch` event plumbing (lines 383-409) is left out, because it is event delivery. The `tree.root = undefined` of line 407 is `ClearRoot`.
- Loading a tree from a stored summary through a mock runtime and storage (lines 221-250) is left out, because it is I/O.
- The skipped schema-change test (lines 412-445) is left out.
- The command-line tool, the editor glue, and the devtools and agent-scheduler interfaces in the repository hold no tracker or index logic, and are left out.
