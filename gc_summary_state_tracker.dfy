/**
 * The GC summary-state tracker as the long-lived object the container runtime
 * holds: its fields change across calls, and each method is specified by the
 * state transition of the same name in GCSummaryState.
 */
module GCTracker {
  import opened Wrappers
  import opened GCSummaryState

  class GCSummaryStateTracker {
    const configs: GCConfig
    const wasGCRunInBaseSnapshot: bool

    var latestSummaryGCVersion: int
    var latestSummaryData: Option<GCData>
    var pendingSummaryData: Option<GCData>
    var updatedDSCountSinceLastSummary: nat

    /** The tracker's fields as one value. */
    function State(): TrackerState
      reads this
    {
      TrackerState(latestSummaryGCVersion, latestSummaryData, pendingSummaryData, updatedDSCountSinceLastSummary)
    }

    ghost predicate Valid()
      reads this
    {
      Consistent(configs, State())
    }

    constructor (configs: GCConfig, wasGCRunInBaseSnapshot: bool)
      ensures Valid()
      ensures this.configs == configs && this.wasGCRunInBaseSnapshot == wasGCRunInBaseSnapshot
      ensures State() == InitialState(configs)
    {
      this.configs := configs;
      this.wasGCRunInBaseSnapshot := wasGCRunInBaseSnapshot;
      latestSummaryGCVersion := configs.gcVersionInBaseSnapshot;
      latestSummaryData := None;
      pendingSummaryData := None;
      updatedDSCountSinceLastSummary := 0;
    }

    // The three version flags below are the tracker's public face of the
    // version policy functions of GCSummaryState, read off its own fields.

    /** The reachability state is rebuilt from scratch exactly when GC did not run in the base snapshot. */
    function DoesGCStateNeedReset(): (r: bool)
      ensures r <==> !wasGCRunInBaseSnapshot
    {
      GCStateNeedsReset(wasGCRunInBaseSnapshot)
    }

    /**
     * The GC data of the latest summary cannot serve as a baseline: it was
     * written with another version than the one new summaries use. That is
     * only ever the base snapshot's version, and while it lasts no summary
     * may refer back to the latest one.
     */
    function DoesSummaryStateNeedReset(): (r: bool)
      reads this
      requires Valid()
      ensures r <==> latestSummaryGCVersion != CurrentGCVersion()
      ensures r ==> latestSummaryGCVersion == configs.gcVersionInBaseSnapshot
      ensures r ==> forall fullTree: bool, trackState: bool :: !MayReuseBaseline(configs, State(), fullTree, trackState)
    {
      SummaryStateNeedsReset(latestSummaryGCVersion, configs.gcVersionInEffect)
    }

    /** New summaries are written with the GC version in effect. */
    function CurrentGCVersion(): (r: int)
      ensures r == configs.gcVersionInEffect
    {
      GCSummaryState.CurrentGCVersion(configs)
    }

    /** Makes the GC data of the base snapshot the baseline, when GC runs. */
    method InitializeBaseState(baseSnapshotData: GCData)
      requires Valid()
      modifies this
      ensures Valid()
      ensures State() == WithBaseState(configs, old(State()), baseSnapshotData)
    {
      if configs.shouldRunGC {
        latestSummaryData := Some(baseSnapshotData);
      }
    }

    /** The GC subtree of a new summary; stages the given data as pending. */
    method Summarize(fullTree: bool, trackState: bool, gcState: GCNodes, deletedNodes: set<NodeId>, tombstones: set<NodeId>)
      returns (summary: Option<SummaryObject>)
      requires Valid()
      modifies this
      ensures Valid()
      ensures summary == SummarizeGC(configs, old(State()), fullTree, trackState, GCData(gcState, tombstones, deletedNodes))
      ensures State() == AfterSummarize(configs, old(State()), GCData(gcState, tombstones, deletedNodes))
    {
      var current := GCData(gcState, tombstones, deletedNodes);
      summary := SummarizeGC(configs, State(), fullTree, trackState, current);
      if configs.shouldRunGC {
        pendingSummaryData := Some(current);
      }
    }

    /** Adds the updated data store count of a GC run to the running total. */
    method UpdateStateFromGCRunStats(stats: GCStats)
      requires Valid()
      modifies this
      ensures Valid()
      ensures State() == AfterGCRunStats(old(State()), stats)
    {
      updatedDSCountSinceLastSummary := updatedDSCountSinceLastSummary + stats.updatedDataStoreCount;
    }

    /**
     * Takes in the outcome of a summary. `proposalHandle` may be absent and does
     * not affect the outcome; `fetched` is the GC data read from the committed
     * summary, or the error reading it raised.
     */
    method RefreshLatestSummary(proposalHandle: Option<string>, result: RefreshSummaryResult, fetched: Result<GCData, string>)
      returns (outcome: Outcome<string>)
      requires Valid()
      modifies this
      ensures Valid()
      ensures AfterRefresh(configs, old(State()), result, fetched).Ok? ==>
        outcome == Pass && State() == AfterRefresh(configs, old(State()), result, fetched).value
      ensures AfterRefresh(configs, old(State()), result, fetched).Err? ==>
        outcome == Fail(AfterRefresh(configs, old(State()), result, fetched).error) && State() == old(State())
    {
      if !result.latestSummaryUpdated {
        return Pass;
      }
      if !configs.shouldRunGC {
        updatedDSCountSinceLastSummary := 0;
        return Pass;
      }
      if result.wasSummaryTracked {
        latestSummaryGCVersion := configs.gcVersionInEffect;
        latestSummaryData := pendingSummaryData;
        pendingSummaryData := None;
        updatedDSCountSinceLastSummary := 0;
        return Pass;
      }
      match fetched
      case Err(e) =>
        outcome := Fail(e);
      case Ok(d) =>
        latestSummaryData := Some(d);
        pendingSummaryData := None;
        updatedDSCountSinceLastSummary := 0;
        outcome := Pass;
    }
  }

  // ---------------------------------------------------------------------
  // The scenarios the tracker's tests exercise
  // ---------------------------------------------------------------------

  /**
   * A tracker that has run GC in its base snapshot: GC state needs no reset,
   * the current version is the one in effect, and the summary state needs a
   * reset exactly when the base snapshot's version differs from it (older, or
   * newer after a rolled-back upgrade).
   */
  method VersionFlagsAfterConstruction(gcVersionInBaseSnapshot: int, gcVersionInEffect: int)
    returns (gcStateNeedsReset: bool, currentGCVersion: int, summaryStateNeedsReset: bool)
    ensures !gcStateNeedsReset
    ensures currentGCVersion == gcVersionInEffect
    ensures summaryStateNeedsReset <==> gcVersionInBaseSnapshot != gcVersionInEffect
  {
    var tracker := new GCSummaryStateTracker(
      GCConfig(true, false, gcVersionInBaseSnapshot, gcVersionInEffect), true);
    gcStateNeedsReset := tracker.DoesGCStateNeedReset();
    currentGCVersion := tracker.CurrentGCVersion();
    summaryStateNeedsReset := tracker.DoesSummaryStateNeedReset();
  }

  function InitialGCState(): GCNodes {
    map["/" := [], "node1" := [], "node2" := []]
  }

  function InitialTombstones(): set<NodeId> {
    {"node1", "node2"}
  }

  function InitialDeletedNodes(): set<NodeId> {
    {"node2"}
  }

  /** A tracker in tombstone mode whose baseline is the initial GC data. */
  method NewInitializedTracker(gcVersion: int) returns (tracker: GCSummaryStateTracker)
    ensures fresh(tracker) && tracker.Valid()
    ensures tracker.configs == GCConfig(true, true, gcVersion, gcVersion)
    ensures tracker.State()
         == TrackerState(gcVersion, Some(GCData(InitialGCState(), InitialTombstones(), InitialDeletedNodes())), None, 0)
  {
    tracker := new GCSummaryStateTracker(GCConfig(true, true, gcVersion, gcVersion), false);
    tracker.InitializeBaseState(GCData(InitialGCState(), InitialTombstones(), InitialDeletedNodes()));
  }

  /** Summarizing the baseline's own data yields one handle for the whole GC subtree. */
  method SummaryWhenNothingChanges(gcVersion: int) returns (summary: Option<SummaryObject>)
    ensures summary == Some(Handle(GCTreePath))
  {
    var tracker := NewInitializedTracker(gcVersion);
    summary := tracker.Summarize(false, true, InitialGCState(), InitialDeletedNodes(), InitialTombstones());
  }

  /** A new node in the GC state: the state is a blob, tombstones and deleted nodes are handles. */
  method SummaryWhenOnlyGCStateChanges(gcVersion: int) returns (summary: Option<SummaryObject>)
    ensures summary.Some? && summary.value.Tree?
    ensures summary.value.entries == map[
      GCStateCategory := Blob(StateBlob(InitialGCState()["node3" := []])),
      TombstoneCategory := Handle(CategoryBlobPath(TombstoneCategory)),
      DeletedNodesCategory := Handle(CategoryBlobPath(DeletedNodesCategory))]
  {
    var tracker := NewInitializedTracker(gcVersion);
    var newGCState := InitialGCState()["node3" := []];
    assert "node3" !in InitialGCState();
    assert newGCState != InitialGCState();
    OnlyOneCategoryChanged(tracker.configs, tracker.State(),
      GCData(newGCState, InitialTombstones(), InitialDeletedNodes()), GCStateCategory);
    summary := tracker.Summarize(false, true, newGCState, InitialDeletedNodes(), InitialTombstones());
    assert summary.value.entries == map[
      GCStateCategory := Blob(StateBlob(newGCState)),
      TombstoneCategory := Handle(CategoryBlobPath(TombstoneCategory)),
      DeletedNodesCategory := Handle(CategoryBlobPath(DeletedNodesCategory))];
  }

  /** A new tombstone: tombstones are a blob, the state and deleted nodes are handles. */
  method SummaryWhenOnlyTombstonesChange(gcVersion: int) returns (summary: Option<SummaryObject>)
    ensures summary.Some? && summary.value.Tree?
    ensures summary.value.entries == map[
      GCStateCategory := Handle(CategoryBlobPath(GCStateCategory)),
      TombstoneCategory := Blob(NodeSetBlob(InitialTombstones() + {"node3"})),
      DeletedNodesCategory := Handle(CategoryBlobPath(DeletedNodesCategory))]
  {
    var tracker := NewInitializedTracker(gcVersion);
    var newTombstones := InitialTombstones() + {"node3"};
    assert "node3" in newTombstones && "node3" !in InitialTombstones();
    OnlyOneCategoryChanged(tracker.configs, tracker.State(),
      GCData(InitialGCState(), newTombstones, InitialDeletedNodes()), TombstoneCategory);
    summary := tracker.Summarize(false, true, InitialGCState(), InitialDeletedNodes(), newTombstones);
    assert summary.value.entries == map[
      GCStateCategory := Handle(CategoryBlobPath(GCStateCategory)),
      TombstoneCategory := Blob(NodeSetBlob(newTombstones)),
      DeletedNodesCategory := Handle(CategoryBlobPath(DeletedNodesCategory))];
  }

  /** Deleted nodes that differ from the baseline: they are a blob, the other two are handles. */
  method SummaryWhenOnlyDeletedNodesChange(gcVersion: int, newDeletedNodes: set<NodeId>) returns (summary: Option<SummaryObject>)
    requires newDeletedNodes != InitialDeletedNodes()
    ensures summary.Some? && summary.value.Tree?
    ensures summary.value.entries == map[
      GCStateCategory := Handle(CategoryBlobPath(GCStateCategory)),
      TombstoneCategory := Handle(CategoryBlobPath(TombstoneCategory)),
      DeletedNodesCategory := Blob(NodeSetBlob(newDeletedNodes))]
  {
    var tracker := NewInitializedTracker(gcVersion);
    OnlyOneCategoryChanged(tracker.configs, tracker.State(),
      GCData(InitialGCState(), InitialTombstones(), newDeletedNodes), DeletedNodesCategory);
    summary := tracker.Summarize(false, true, InitialGCState(), newDeletedNodes, InitialTombstones());
    assert summary.value.entries == map[
      GCStateCategory := Handle(CategoryBlobPath(GCStateCategory)),
      TombstoneCategory := Handle(CategoryBlobPath(TombstoneCategory)),
      DeletedNodesCategory := Blob(NodeSetBlob(newDeletedNodes))];
  }

  /**
   * Two GC runs that each update 10 data stores, with a summary between them
   * that is never acknowledged, count 20; an acknowledged summary of this
   * tracker, reported without a proposal handle, brings the count back to 0.
   */
  method UpdatedDataStoreCountAcrossSummaries(gcVersion: int, parsed: Result<GCData, string>)
    returns (afterFirstRun: nat, afterSecondRun: nat, afterRefresh: nat, outcome: Outcome<string>)
    ensures afterFirstRun == 10 && afterSecondRun == 20 && afterRefresh == 0
    ensures outcome == Pass
  {
    var stats := GCStats(0, 0, 0, 0, 0, 10, 0, 0, 0);
    var tracker := new GCSummaryStateTracker(GCConfig(true, true, gcVersion, gcVersion), false);
    tracker.UpdateStateFromGCRunStats(stats);
    afterFirstRun := tracker.updatedDSCountSinceLastSummary;
    var _ := tracker.Summarize(false, true, map[], {}, {});
    tracker.UpdateStateFromGCRunStats(stats);
    afterSecondRun := tracker.updatedDSCountSinceLastSummary;
    var _ := tracker.Summarize(false, true, map[], {}, {});
    outcome := tracker.RefreshLatestSummary(None, RefreshSummaryResult(true, true, 0), parsed);
    afterRefresh := tracker.updatedDSCountSinceLastSummary;
  }
}
