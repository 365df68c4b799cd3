/**
 * The garbage-collection summary state of a container runtime, as values:
 * which GC algorithm version the last summary was written with, whether the
 * GC data of a new summary can point back at the last acknowledged summary
 * (a handle) or must be written out (a blob), and how the tracked state moves
 * when a GC run reports its statistics, when a summary is generated and when
 * the outcome of a summary is reported back.
 */
module GCSummaryState {
  import opened Wrappers

  /** Identifier of a node of the container's object graph; "/" is the root. */
  type NodeId = string

  /** The GC state of one run: each node with its outbound routes, in order. */
  type GCNodes = map<NodeId, seq<NodeId>>

  /** The GC data of a container: node state, tombstoned nodes, deleted nodes. */
  datatype GCData = GCData(gcState: GCNodes, tombstones: set<NodeId>, deletedNodes: set<NodeId>)

  /** The three parts of the GC data, each stored under its own key of the GC subtree. */
  datatype Category = GCStateCategory | TombstoneCategory | DeletedNodesCategory

  /** What a blob of one category holds (its serialisation is kept abstract). */
  datatype BlobContent = StateBlob(gcNodes: GCNodes) | NodeSetBlob(nodeIds: set<NodeId>)

  /** Where a handle points in the previous summary: the whole GC subtree or one category's blob. */
  datatype HandlePath = GCTreePath | CategoryBlobPath(category: Category)

  /** A summary object: a tree of objects by key, a blob, or a handle into the previous summary. */
  datatype SummaryObject =
    | Tree(entries: map<Category, SummaryObject>)
    | Blob(content: BlobContent)
    | Handle(path: HandlePath)

  /** The configuration the tracker is constructed with; it never changes afterwards. */
  datatype GCConfig = GCConfig(
    shouldRunGC: bool,
    tombstoneMode: bool,
    gcVersionInBaseSnapshot: int,
    gcVersionInEffect: int)

  /** The statistics one GC run reports. */
  datatype GCStats = GCStats(
    nodeCount: nat,
    unrefNodeCount: nat,
    updatedNodeCount: nat,
    dataStoreCount: nat,
    unrefDataStoreCount: nat,
    updatedDataStoreCount: nat,
    attachmentBlobCount: nat,
    unrefAttachmentBlobCount: nat,
    updatedAttachmentBlobCount: nat)

  /** What the summarizer reports about the latest summary. */
  datatype RefreshSummaryResult = RefreshSummaryResult(
    latestSummaryUpdated: bool,
    wasSummaryTracked: bool,
    summaryRefSeq: int)

  /**
   * The tracker's mutable state: the GC version of the latest acknowledged
   * summary, the GC data it holds (the baseline; absent until the base state
   * is loaded), the GC data of the summary proposed last (pending), and the
   * number of data stores whose GC state changed since the last summary.
   */
  datatype TrackerState = TrackerState(
    latestSummaryGCVersion: int,
    latestSummaryData: Option<GCData>,
    pendingSummaryData: Option<GCData>,
    updatedDSCountSinceLastSummary: nat)

  // ---------------------------------------------------------------------
  // Version policy
  // ---------------------------------------------------------------------

  /** The reachability state must be rebuilt from scratch when GC did not run in the base snapshot. */
  function GCStateNeedsReset(wasGCRunInBaseSnapshot: bool): bool {
    !wasGCRunInBaseSnapshot
  }

  /**
   * GC data written by another GC version cannot serve as a baseline, whether
   * that version is older or newer (a rolled-back upgrade).
   */
  function SummaryStateNeedsReset(latestSummaryGCVersion: int, gcVersionInEffect: int): bool {
    latestSummaryGCVersion != gcVersionInEffect
  }

  /** The GC version a new summary is written with. */
  function CurrentGCVersion(config: GCConfig): int {
    config.gcVersionInEffect
  }

  // ---------------------------------------------------------------------
  // Category diff
  // ---------------------------------------------------------------------

  /** The content of category `c` of `d`. */
  function Content(d: GCData, c: Category): BlobContent {
    match c
    case GCStateCategory => StateBlob(d.gcState)
    case TombstoneCategory => NodeSetBlob(d.tombstones)
    case DeletedNodesCategory => NodeSetBlob(d.deletedNodes)
  }

  /** The categories a GC subtree holds: tombstones only in tombstone mode. */
  function EmittedCategories(tombstoneMode: bool): (cs: set<Category>)
    ensures GCStateCategory in cs && DeletedNodesCategory in cs
    ensures TombstoneCategory in cs <==> tombstoneMode
  {
    if tombstoneMode then {GCStateCategory, TombstoneCategory, DeletedNodesCategory}
    else {GCStateCategory, DeletedNodesCategory}
  }

  /** The content a GC subtree written from `d` holds, category by category. */
  function Written(tombstoneMode: bool, d: GCData): (w: map<Category, BlobContent>)
    ensures w.Keys == EmittedCategories(tombstoneMode)
  {
    map c | c in EmittedCategories(tombstoneMode) :: Content(d, c)
  }

  /** Category `c` holds the same value (map or set equality) in both triples. */
  predicate Unchanged(baseline: GCData, current: GCData, c: Category) {
    Content(baseline, c) == Content(current, c)
  }

  /**
   * The latest acknowledged summary may be referred to: the caller asked for
   * neither a full tree nor untracked state, the GC version did not change,
   * and a baseline exists.
   */
  predicate MayReuseBaseline(config: GCConfig, s: TrackerState, fullTree: bool, trackState: bool) {
    && !fullTree
    && trackState
    && !SummaryStateNeedsReset(s.latestSummaryGCVersion, config.gcVersionInEffect)
    && s.latestSummaryData.Some?
  }

  /**
   * The GC subtree of a new summary of `current`: nothing when GC does not
   * run; one handle when every category equals the baseline; otherwise a tree
   * with a handle for each unchanged category and a blob for each other one.
   */
  function SummarizeGC(config: GCConfig, s: TrackerState, fullTree: bool, trackState: bool, current: GCData): (r: Option<SummaryObject>)
    ensures r.None? <==> !config.shouldRunGC
    ensures r.Some? ==> r.value.Handle? || r.value.Tree?
    // One handle for the whole subtree exactly when the baseline may be
    // reused and every category it holds is unchanged.
    ensures r.Some? ==>
      (r.value.Handle? <==>
        MayReuseBaseline(config, s, fullTree, trackState) &&
        forall c | c in EmittedCategories(config.tombstoneMode) :: Unchanged(s.latestSummaryData.value, current, c))
    ensures r.Some? && r.value.Handle? ==> r.value.path == GCTreePath
    ensures r.Some? && r.value.Tree? ==> r.value.entries.Keys == EmittedCategories(config.tombstoneMode)
    // Every blob carries the current content of its category.
    ensures r.Some? && r.value.Tree? ==>
      forall c | c in r.value.entries && r.value.entries[c].Blob? :: r.value.entries[c].content == Content(current, c)
    // A handle is used only where the baseline holds the same content.
    ensures r.Some? && r.value.Tree? ==>
      forall c | c in r.value.entries && !r.value.entries[c].Blob? ::
        && r.value.entries[c] == Handle(CategoryBlobPath(c))
        && MayReuseBaseline(config, s, fullTree, trackState)
        && Unchanged(s.latestSummaryData.value, current, c)
    // Nothing unchanged is written again when the baseline may be reused.
    ensures r.Some? && r.value.Tree? && MayReuseBaseline(config, s, fullTree, trackState) ==>
      forall c | c in r.value.entries && Unchanged(s.latestSummaryData.value, current, c) :: r.value.entries[c].Handle?
  {
    if !config.shouldRunGC then None
    else
      var reuse := MayReuseBaseline(config, s, fullTree, trackState);
      var cats := EmittedCategories(config.tombstoneMode);
      if reuse && forall c | c in cats :: Unchanged(s.latestSummaryData.value, current, c) then
        Some(Handle(GCTreePath))
      else
        Some(Tree(map c | c in cats ::
          if reuse && Unchanged(s.latestSummaryData.value, current, c) then Handle(CategoryBlobPath(c))
          else Blob(Content(current, c))))
  }

  // ---------------------------------------------------------------------
  // Reading a summary back
  // ---------------------------------------------------------------------

  /** The content one entry of a GC subtree stands for, following a handle into `previous`. */
  function ResolveEntry(e: SummaryObject, previous: map<Category, BlobContent>): Option<BlobContent> {
    match e
    case Blob(content) => Some(content)
    case Handle(CategoryBlobPath(c)) => if c in previous then Some(previous[c]) else None
    case _ => None
  }

  /**
   * The category contents a reader of a GC subtree obtains, where `previous`
   * is what the GC subtree of the last acknowledged summary holds; None when a
   * handle points at nothing.
   */
  function Resolve(o: SummaryObject, previous: map<Category, BlobContent>): Option<map<Category, BlobContent>> {
    match o
    case Handle(GCTreePath) => Some(previous)
    case Tree(entries) =>
      if forall c | c in entries :: ResolveEntry(entries[c], previous).Some? then
        Some(map c | c in entries :: ResolveEntry(entries[c], previous).value)
      else None
    case _ => None
  }

  /** What the GC subtree of the last acknowledged summary holds. */
  function PreviousTree(config: GCConfig, s: TrackerState): map<Category, BlobContent> {
    if s.latestSummaryData.Some? then Written(config.tombstoneMode, s.latestSummaryData.value) else map[]
  }

  /**
   * Incremental summaries lose nothing: following the handles of a summary
   * into the last acknowledged summary yields exactly the current GC data.
   */
  lemma {:induction false} SummaryResolvesToCurrentData(config: GCConfig, s: TrackerState, fullTree: bool, trackState: bool, current: GCData)
    requires config.shouldRunGC
    ensures SummarizeGC(config, s, fullTree, trackState, current).Some?
    ensures Resolve(SummarizeGC(config, s, fullTree, trackState, current).value, PreviousTree(config, s))
         == Some(Written(config.tombstoneMode, current))
  {
    var o := SummarizeGC(config, s, fullTree, trackState, current).value;
    var previous := PreviousTree(config, s);
    var want := Written(config.tombstoneMode, current);
    if o.Handle? {
      var base := s.latestSummaryData.value;
      assert previous == Written(config.tombstoneMode, base);
      forall c | c in want ensures previous[c] == want[c] {
        assert Unchanged(base, current, c);
      }
      assert previous == want;
    } else {
      var entries := o.entries;
      forall c | c in entries ensures ResolveEntry(entries[c], previous) == Some(want[c]) {
        if !entries[c].Blob? {
          assert Unchanged(s.latestSummaryData.value, current, c);
        }
      }
      assert Resolve(o, previous) == Some(map c | c in entries :: ResolveEntry(entries[c], previous).value);
      assert (map c | c in entries :: ResolveEntry(entries[c], previous).value) == want;
    }
  }

  /** A full tree writes every category as a blob of its current content. */
  lemma FullTreeWritesEveryCategory(config: GCConfig, s: TrackerState, trackState: bool, current: GCData)
    requires config.shouldRunGC
    ensures SummarizeGC(config, s, true, trackState, current)
         == Some(Tree(map c | c in EmittedCategories(config.tombstoneMode) :: Blob(Content(current, c))))
  {
    var o := SummarizeGC(config, s, true, trackState, current).value;
    var want := map c | c in EmittedCategories(config.tombstoneMode) :: Blob(Content(current, c));
    assert o.Tree?;
    assert o.entries == want;
  }

  /**
   * When exactly one category differs from the baseline, the summary is a tree
   * with a blob for that category and handles for the others.
   */
  lemma OnlyOneCategoryChanged(config: GCConfig, s: TrackerState, current: GCData, changed: Category)
    requires config.shouldRunGC && changed in EmittedCategories(config.tombstoneMode)
    requires MayReuseBaseline(config, s, false, true)
    requires !Unchanged(s.latestSummaryData.value, current, changed)
    requires forall c | c in EmittedCategories(config.tombstoneMode) && c != changed ::
      Unchanged(s.latestSummaryData.value, current, c)
    ensures SummarizeGC(config, s, false, true, current)
         == Some(Tree(map c | c in EmittedCategories(config.tombstoneMode) ::
              if c == changed then Blob(Content(current, c)) else Handle(CategoryBlobPath(c))))
  {
    var o := SummarizeGC(config, s, false, true, current).value;
    var want := map c | c in EmittedCategories(config.tombstoneMode) ::
      if c == changed then Blob(Content(current, c)) else Handle(CategoryBlobPath(c));
    assert !o.Handle?;
    assert o.entries == want;
  }

  // ---------------------------------------------------------------------
  // State transitions
  // ---------------------------------------------------------------------

  /** A tracker before its base state is loaded. */
  function InitialState(config: GCConfig): TrackerState {
    TrackerState(config.gcVersionInBaseSnapshot, None, None, 0)
  }

  /**
   * Loading the GC data of the base snapshot makes it the baseline; with GC
   * off there is no baseline to keep, and nothing changes.
   */
  function WithBaseState(config: GCConfig, s: TrackerState, base: GCData): (r: TrackerState)
    ensures config.shouldRunGC ==> r.latestSummaryData == Some(base)
    ensures r.(latestSummaryData := s.latestSummaryData) == s
    ensures !config.shouldRunGC ==> r == s
  {
    if config.shouldRunGC then s.(latestSummaryData := Some(base)) else s
  }

  /** A summary stages the GC data it was given as pending, and changes nothing else. */
  function AfterSummarize(config: GCConfig, s: TrackerState, current: GCData): (r: TrackerState)
    ensures config.shouldRunGC ==> r.pendingSummaryData == Some(current)
    ensures r.(pendingSummaryData := s.pendingSummaryData) == s
    ensures !config.shouldRunGC ==> r == s
  {
    if config.shouldRunGC then s.(pendingSummaryData := Some(current)) else s
  }

  /** A GC run adds its updated data store count to the running total. */
  function AfterGCRunStats(s: TrackerState, stats: GCStats): (r: TrackerState)
    ensures r.updatedDSCountSinceLastSummary == s.updatedDSCountSinceLastSummary + stats.updatedDataStoreCount
    ensures r.(updatedDSCountSinceLastSummary := s.updatedDSCountSinceLastSummary) == s
  {
    s.(updatedDSCountSinceLastSummary := s.updatedDSCountSinceLastSummary + stats.updatedDataStoreCount)
  }

  /**
   * The outcome of a summary is reported. Nothing happens unless the latest
   * summary changed. If this tracker proposed it, the pending data becomes the
   * baseline at the GC version in effect; otherwise the GC data fetched from the
   * committed summary (`fetched`) becomes the baseline, and a failed fetch is
   * an error that leaves the state alone. Either way the running count restarts.
   */
  function AfterRefresh(config: GCConfig, s: TrackerState, result: RefreshSummaryResult, fetched: Result<GCData, string>)
    : (r: Result<TrackerState, string>)
    ensures !result.latestSummaryUpdated ==> r == Ok(s)
    ensures r.Err? <==>
      result.latestSummaryUpdated && config.shouldRunGC && !result.wasSummaryTracked && fetched.Err?
    ensures r.Ok? && result.latestSummaryUpdated ==> r.value.updatedDSCountSinceLastSummary == 0
    ensures r.Ok? && result.latestSummaryUpdated && !config.shouldRunGC ==>
      r.value.(updatedDSCountSinceLastSummary := s.updatedDSCountSinceLastSummary) == s
    ensures r.Ok? && result.latestSummaryUpdated && config.shouldRunGC && result.wasSummaryTracked ==>
      && r.value.latestSummaryData == s.pendingSummaryData
      && r.value.pendingSummaryData.None?
      && !SummaryStateNeedsReset(r.value.latestSummaryGCVersion, config.gcVersionInEffect)
    ensures r.Ok? && result.latestSummaryUpdated && config.shouldRunGC && !result.wasSummaryTracked ==>
      && r.value.latestSummaryData == Some(fetched.value)
      && r.value.pendingSummaryData.None?
      && r.value.latestSummaryGCVersion == s.latestSummaryGCVersion
  {
    if !result.latestSummaryUpdated then Ok(s)
    else if !config.shouldRunGC then Ok(s.(updatedDSCountSinceLastSummary := 0))
    else if result.wasSummaryTracked then
      Ok(TrackerState(config.gcVersionInEffect, s.pendingSummaryData, None, 0))
    else
      match fetched
      case Err(e) => Err(e)
      case Ok(d) => Ok(TrackerState(s.latestSummaryGCVersion, Some(d), None, 0))
  }

  /**
   * The tracker's invariant: with GC off there is never a baseline and
   * nothing is ever staged, and the recorded GC version is the base
   * snapshot's or the one in effect.
   */
  predicate Consistent(config: GCConfig, s: TrackerState) {
    && (!config.shouldRunGC ==> s.latestSummaryData.None? && s.pendingSummaryData.None?)
    && (s.latestSummaryGCVersion == config.gcVersionInBaseSnapshot ||
        s.latestSummaryGCVersion == config.gcVersionInEffect)
  }

  /** One call on the tracker after construction. */
  datatype TrackerCall =
    | SummarizeCall(fullTree: bool, trackState: bool, current: GCData)
    | GCRunStatsCall(stats: GCStats)
    | RefreshCall(proposalHandle: Option<string>, result: RefreshSummaryResult, fetched: Result<GCData, string>)

  /** The state after one call; a refresh that fails leaves the state as it was. */
  function Step(config: GCConfig, s: TrackerState, call: TrackerCall): TrackerState {
    match call
    case SummarizeCall(_, _, current) => AfterSummarize(config, s, current)
    case GCRunStatsCall(stats) => AfterGCRunStats(s, stats)
    case RefreshCall(_, result, fetched) =>
      match AfterRefresh(config, s, result, fetched)
      case Ok(s') => s'
      case Err(_) => s
  }

  /** The state after a sequence of calls, in order. */
  function Run(config: GCConfig, s: TrackerState, calls: seq<TrackerCall>): TrackerState
    decreases |calls|
  {
    if calls == [] then s else Run(config, Step(config, s, calls[0]), calls[1..])
  }

  /** A call that reports a committed summary. */
  predicate IsCommit(call: TrackerCall) {
    call.RefreshCall? && call.result.latestSummaryUpdated
  }

  /** The updated data store counts the GC runs among `calls` report, added up. */
  function UpdatedDSTotal(calls: seq<TrackerCall>): nat
    decreases |calls|
  {
    if calls == [] then 0
    else (if calls[0].GCRunStatsCall? then calls[0].stats.updatedDataStoreCount else 0) + UpdatedDSTotal(calls[1..])
  }

  /** Every call keeps the tracker's invariant. */
  lemma StepKeepsConsistent(config: GCConfig, s: TrackerState, call: TrackerCall)
    requires Consistent(config, s)
    ensures Consistent(config, Step(config, s, call))
  {
  }

  /** Any sequence of calls keeps the tracker's invariant. */
  lemma {:induction false} RunKeepsConsistent(config: GCConfig, s: TrackerState, calls: seq<TrackerCall>)
    requires Consistent(config, s)
    ensures Consistent(config, Run(config, s, calls))
    decreases |calls|
  {
    if calls != [] {
      StepKeepsConsistent(config, s, calls[0]);
      RunKeepsConsistent(config, Step(config, s, calls[0]), calls[1..]);
    }
  }

  /**
   * Until a summary is acknowledged, the count of updated data stores only
   * accumulates (summaries that fail in between lose nothing), and the baseline
   * and its GC version stay as they were.
   */
  lemma {:induction false} CountAccumulatesUntilCommit(config: GCConfig, s: TrackerState, calls: seq<TrackerCall>)
    requires forall i | 0 <= i < |calls| :: !IsCommit(calls[i])
    ensures Run(config, s, calls).updatedDSCountSinceLastSummary
         == s.updatedDSCountSinceLastSummary + UpdatedDSTotal(calls)
    ensures Run(config, s, calls).latestSummaryData == s.latestSummaryData
    ensures Run(config, s, calls).latestSummaryGCVersion == s.latestSummaryGCVersion
    decreases |calls|
  {
    if calls != [] {
      assert !IsCommit(calls[0]);
      var s' := Step(config, s, calls[0]);
      assert s'.latestSummaryData == s.latestSummaryData;
      CountAccumulatesUntilCommit(config, s', calls[1..]);
    }
  }

  /** An acknowledged summary restarts the count, unless it failed to fetch the committed data. */
  lemma CommitResetsCount(config: GCConfig, s: TrackerState, call: TrackerCall)
    requires IsCommit(call)
    requires call.result.wasSummaryTracked || call.fetched.Ok? || !config.shouldRunGC
    ensures Step(config, s, call).updatedDSCountSinceLastSummary == 0
  {
  }

  /** A failed fetch of a foreign summary's GC data leaves the whole state unchanged. */
  lemma FailedFetchKeepsState(config: GCConfig, s: TrackerState, call: TrackerCall)
    requires config.shouldRunGC
    requires call.RefreshCall? && call.fetched.Err? && !call.result.wasSummaryTracked
    ensures Step(config, s, call) == s
  {
  }

  /**
   * Summarizing the same data twice in a row, with no acknowledgment between,
   * gives the same GC subtree both times.
   */
  lemma RepeatedSummarizeIsStable(config: GCConfig, s: TrackerState, fullTree: bool, trackState: bool, current: GCData)
    ensures SummarizeGC(config, AfterSummarize(config, s, current), fullTree, trackState, current)
         == SummarizeGC(config, s, fullTree, trackState, current)
  {
  }

  /**
   * Once a summary of `current` is acknowledged as this tracker's own, an
   * incremental summary of the same data is one handle: nothing is rewritten,
   * and a GC version change is not reset a second time.
   */
  lemma SummarizeAfterOwnCommitIsHandle(
    config: GCConfig, s: TrackerState, current: GCData, refSeq: int, fetched: Result<GCData, string>)
    requires config.shouldRunGC
    ensures AfterRefresh(config, AfterSummarize(config, s, current), RefreshSummaryResult(true, true, refSeq), fetched).Ok?
    ensures var s' := AfterRefresh(config, AfterSummarize(config, s, current), RefreshSummaryResult(true, true, refSeq), fetched).value;
      && !SummaryStateNeedsReset(s'.latestSummaryGCVersion, config.gcVersionInEffect)
      && SummarizeGC(config, s', false, true, current) == Some(Handle(GCTreePath))
  {
  }
}
