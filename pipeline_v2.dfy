/** `create_dataset` of the improved processor: every capture is flattened,
    the base tables are concatenated, stops are detected over the one global
    timeline, the status log is joined and events label whole stops. */
module PipelineV2 {
  import opened Common
  import opened Telemetry
  import opened ProcessorV2
  import opened StopSegments
  import opened EventLabels
  import opened StopSegmentFacts
  import Sorting

  /** The labeled base table and the motion table. */
  datatype Dataset = Dataset(base: seq<LabeledRow>, motion: seq<MotionRow>)

  /** `json_files[:max_files]` when a cap is given. */
  function SelectFiles(files: seq<Capture>, maxFiles: Option<int>): (selected: seq<Capture>)
    ensures selected <= files
    ensures maxFiles.None? ==> selected == files
  {
    match maxFiles
    case None => files
    case Some(k) => SliceHead(files, k)
  }

  function BaseTables(files: seq<Capture>): (tables: seq<seq<BaseRow>>)
    ensures |tables| == |files|
  {
    seq(|files|, j requires 0 <= j < |files| => FileTables(files[j]).0)
  }

  function MotionTablesOfFiles(files: seq<Capture>): (tables: seq<seq<MotionRow>>)
    ensures |tables| == |files|
  {
    seq(|files|, j requires 0 <= j < |files| => FileTables(files[j]).1)
  }

  function LabeledByTime(a: LabeledRow, b: LabeledRow): bool
  {
    a.row.timestamp <= b.row.timestamp
  }

  function MotionByTime(a: MotionRow, b: MotionRow): bool
  {
    a.timestamp <= b.timestamp
  }

  function LabeledRows(out: seq<LabeledRow>): (rows: seq<BaseRow>)
    ensures |rows| == |out|
  {
    seq(|out|, i requires 0 <= i < |out| => out[i].row)
  }

  /** What the labeled base table promises about each row: its label is
      0, 1 or 2, only a stopped row carries a nonzero label, and only a
      row slower than the threshold is stopped. */
  ghost predicate WellLabeled(base: seq<LabeledRow>, threshold: real)
  {
    forall i :: 0 <= i < |base| ==>
      && base[i].rowLabel <= 2
      && (base[i].rowLabel > 0 ==> base[i].isStopped == 1)
      && (base[i].isStopped == 1 ==> base[i].row.speed < threshold)
  }

  /** Whether row `i` lies in a run of `runs` that qualifies as a stop. */
  ghost predicate InQualifyingRun(rows: seq<BaseRow>, runs: seq<Run>, i: int)
    requires Ordered(rows, runs)
  {
    exists k :: 0 <= k < |runs| && InRun(runs[k], i) && Qualifies(rows, runs[k])
  }

  /** The `is_stopped` flags of the labeled table mark exactly the rows of
      the qualifying maximal low-speed runs of its rows, in its order. */
  ghost predicate StopsMarked(base: seq<LabeledRow>, threshold: real)
  {
    exists runs :: IsRunDecomposition(LabeledRows(base), threshold, runs) &&
      forall i :: 0 <= i < |base| ==>
        base[i].isStopped == if InQualifyingRun(LabeledRows(base), runs, i) then 1 else 0
  }

  /** `create_dataset(max_files)` with the capture files already listed,
      the status log already read (`None` when the file is missing) and the
      stop-speed threshold. It fails when no capture file exists, then when
      every capture yields an empty table, then when the status log is
      missing. Otherwise the base table holds exactly the rows of the
      selected captures, in time order and labeled as above; a row is
      stopped exactly when it lies in a qualifying maximal low-speed run,
      and the labels are those the events of the time-ordered, segmented
      rows set (`Labeled(EventTable(...))`). The motion table holds exactly
      their motion rows, in time order. */
  method CreateDataset(files: seq<Capture>, maxFiles: Option<int>, log: Option<StatusLog>, threshold: real)
    returns (r: Result<Dataset>)
    ensures files == [] ==> r == Err(NoJsonFiles)
    ensures files != [] && Flatten(BaseTables(SelectFiles(files, maxFiles))) == [] ==> r == Err(NoDataExtracted)
    ensures files != [] && Flatten(BaseTables(SelectFiles(files, maxFiles))) != [] && log.None? ==>
              r == Err(MissingStatusLog)
    ensures r.Ok? <==> files != [] && Flatten(BaseTables(SelectFiles(files, maxFiles))) != [] && log.Some?
    ensures r.Ok? ==> multiset(LabeledRows(r.value.base)) == multiset(Flatten(BaseTables(SelectFiles(files, maxFiles))))
    ensures r.Ok? ==> Sorting.Sorted(r.value.base, LabeledByTime) && WellLabeled(r.value.base, threshold)
    ensures r.Ok? ==> StopsMarked(r.value.base, threshold)
    ensures r.Ok? ==> exists segmented :: IsSegmentation(Flatten(BaseTables(SelectFiles(files, maxFiles))), threshold, segmented) &&
                                         r.value.base == Labeled(EventTable(segmented, log.value))
    ensures r.Ok? ==> multiset(r.value.motion) == multiset(Flatten(MotionTablesOfFiles(SelectFiles(files, maxFiles))))
    ensures r.Ok? ==> Sorting.Sorted(r.value.motion, MotionByTime) && r.value.motion != []
  {
    if files == [] {
      return Err(NoJsonFiles);
    }
    var selected := SelectFiles(files, maxFiles);
    var allBase, allMotion := CollectTables(selected);
    FlattenOfNonEmpty(allBase);
    if allBase == [] {
      return Err(NoDataExtracted);
    }
    var baseAll := Flatten(allBase);
    var motionAll := Flatten(allMotion);
    var segmented := IdentifyStopSegments(baseAll, threshold);
    if log.None? {
      return Err(MissingStatusLog);
    }
    MotionFollowsBase(selected);
    var dataset := FinishDataset(baseAll, motionAll, segmented, log.value, threshold);
    r := Ok(dataset);
  }

  /** The stages of `create_dataset` after the status log is read: label
      the detected rows, then sort both tables by time. */
  method FinishDataset(baseAll: seq<BaseRow>, motionAll: seq<MotionRow>, segmented: seq<SegmentedRow>,
                       log: StatusLog, threshold: real) returns (d: Dataset)
    requires motionAll != []
    requires IsSegmentation(baseAll, threshold, segmented)
    requires forall i :: 0 <= i < |segmented| && segmented[i].stopSegment > 0 ==> segmented[i].row.speed < threshold
    ensures multiset(LabeledRows(d.base)) == multiset(baseAll)
    ensures Sorting.Sorted(d.base, LabeledByTime) && WellLabeled(d.base, threshold)
    ensures StopsMarked(d.base, threshold)
    ensures exists segmented' :: IsSegmentation(baseAll, threshold, segmented') && d.base == Labeled(EventTable(segmented', log))
    ensures multiset(d.motion) == multiset(motionAll)
    ensures Sorting.Sorted(d.motion, MotionByTime) && d.motion != []
  {
    var base := LabelEvents(segmented, log, threshold);
    LabeledStops(baseAll, threshold, segmented, log);
    var motion := Sorting.SortBy(motionAll, MotionByTime);
    assert Sorting.IsTotalPreorder(MotionByTime);
    Sorting.SortBySorted(motionAll, MotionByTime);
    d := Dataset(base, motion);
  }

  /** The stages after stop detection: `apply_event_labels`,
      `label_stop_segments` and the final sort by time. The detected rows
      come out in the same order with their stop flags, each labeled by the
      events of the event table. */
  method LabelEvents(segmented: seq<SegmentedRow>, log: StatusLog, threshold: real) returns (base: seq<LabeledRow>)
    requires Sorting.Sorted(segmented, SegmentedByTime)
    requires forall i :: 0 <= i < |segmented| ==>
               segmented[i].isStopped == if segmented[i].stopSegment > 0 then 1 else 0
    requires forall i :: 0 <= i < |segmented| && segmented[i].stopSegment > 0 ==> segmented[i].row.speed < threshold
    ensures LabeledRows(base) == RowsOf(segmented)
    ensures forall i :: 0 <= i < |base| ==> base[i].isStopped == segmented[i].isStopped
    ensures base == Labeled(EventTable(segmented, log))
    ensures Sorting.Sorted(base, LabeledByTime) && WellLabeled(base, threshold)
  {
    var events := ApplyEventLabels(segmented, log);
    var labeled := LabelStopSegments(events);
    base := Sorting.SortBy(labeled, LabeledByTime);
    LabeledOutput(segmented, events, labeled, threshold);
    Sorting.SortBySortedIsIdentity(labeled, LabeledByTime);
    assert LabeledRows(labeled) == RowsOf(segmented);
  }

  /** The file loop of `create_dataset`: processes every capture and keeps
      the non-empty tables, in file order. */
  method CollectTables(selected: seq<Capture>) returns (allBase: seq<seq<BaseRow>>, allMotion: seq<seq<MotionRow>>)
    ensures forall j :: 0 <= j < |allBase| ==> allBase[j] != []
    ensures Flatten(allBase) == Flatten(BaseTables(selected))
    ensures Flatten(allMotion) == Flatten(MotionTablesOfFiles(selected))
  {
    ghost var baseTables := BaseTables(selected);
    ghost var motionTables := MotionTablesOfFiles(selected);
    allBase, allMotion := [], [];
    for k := 0 to |selected|
      invariant forall j :: 0 <= j < |allBase| ==> allBase[j] != []
      invariant Flatten(allBase) == Flatten(baseTables[..k])
      invariant Flatten(allMotion) == Flatten(motionTables[..k])
    {
      var base, motion := ProcessJsonFile(selected[k]);
      assert baseTables[k] == base && motionTables[k] == motion;
      KeepNonEmptyStep(allBase, baseTables, k);
      KeepNonEmptyStep(allMotion, motionTables, k);
      if base != [] {
        allBase := allBase + [base];
      }
      if motion != [] {
        allMotion := allMotion + [motion];
      }
    }
    assert baseTables[..|selected|] == baseTables;
    assert motionTables[..|selected|] == motionTables;
  }

  /** Whenever some capture yields base rows it also yields motion rows,
      so the empty motion table `create_dataset` falls back to (which
      `sort_values('timestamp')` would reject) never occurs. */
  lemma MotionFollowsBase(files: seq<Capture>)
    ensures Flatten(BaseTables(files)) != [] ==> Flatten(MotionTablesOfFiles(files)) != []
  {
    var base := Flatten(BaseTables(files));
    if base != [] {
      var j := FlattenMember(BaseTables(files), base[0]);
      MotionEmptyIffBaseEmpty(files[j]);
      FlattenAt(MotionTablesOfFiles(files), j, 0);
    }
  }

  /** The three labeling stages keep the detector's rows, flags and order
      and label only stopped rows. */
  lemma LabeledOutput(segmented: seq<SegmentedRow>, events: seq<EventRow>, labeled: seq<LabeledRow>, threshold: real)
    requires Sorting.Sorted(segmented, SegmentedByTime)
    requires forall i :: 0 <= i < |segmented| ==>
               segmented[i].isStopped == if segmented[i].stopSegment > 0 then 1 else 0
    requires forall i :: 0 <= i < |segmented| && segmented[i].stopSegment > 0 ==> segmented[i].row.speed < threshold
    requires Sorting.Sorted(events, EventByTime)
    requires Sorting.Sorted(segmented, SegmentedByTime) ==> SegsOf(events) == segmented
    requires labeled == Labeled(Sorting.SortBy(events, EventByTime))
    ensures labeled == Labeled(events)
    ensures |labeled| == |segmented|
    ensures forall i :: 0 <= i < |labeled| ==>
              labeled[i].row == segmented[i].row && labeled[i].isStopped == segmented[i].isStopped
    ensures Sorting.Sorted(labeled, LabeledByTime)
    ensures WellLabeled(labeled, threshold)
  {
    Sorting.SortBySortedIsIdentity(events, EventByTime);
    assert labeled == Labeled(events);
    forall i | 0 <= i < |labeled|
      ensures labeled[i].row == segmented[i].row && labeled[i].isStopped == segmented[i].isStopped
      ensures labeled[i].rowLabel <= 2 && (labeled[i].rowLabel > 0 ==> segmented[i].stopSegment > 0)
    {
      assert events[i].seg == SegsOf(events)[i];
    }
    forall i, j | 0 <= i < j < |labeled|
      ensures LabeledByTime(labeled[i], labeled[j])
    {
      assert SegmentedByTime(segmented[i], segmented[j]);
    }
  }

  /** The labeled table of a segmentation marks exactly the rows of its
      qualifying runs as stopped. */
  lemma LabeledStops(rows: seq<BaseRow>, threshold: real, segmented: seq<SegmentedRow>, log: StatusLog)
    requires IsSegmentation(rows, threshold, segmented)
    ensures StopsMarked(Labeled(EventTable(segmented, log)), threshold)
  {
    var events := EventTable(segmented, log);
    var base := Labeled(events);
    var sorted := RowsOf(segmented);
    var runs :| IsRunDecomposition(sorted, threshold, runs) && MarksQualifyingRuns(sorted, runs, SegmentsOf(segmented));
    forall i | 0 <= i < |base|
      ensures LabeledRows(base)[i] == sorted[i]
      ensures base[i].isStopped == if InQualifyingRun(sorted, runs, i) then 1 else 0
    {
      assert events[i].seg == segmented[i];
      StoppedIffInQualifyingRun(sorted, runs, SegmentsOf(segmented), i);
    }
    assert LabeledRows(base) == sorted;
  }
}
