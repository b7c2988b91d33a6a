/** `identify_stop_segments`: sort the base table by time, cut it into
    maximal low-speed runs (a gap of more than 60 s closes a run early) and
    number the runs that qualify as stops 1, 2, ... in time order. */
module StopSegments {
  import opened Common
  import opened ProcessorV2
  import Sorting

  /** `time_gap > 60` seconds closes a run. */
  const MaxGapMs := 60000

  /** `time_diff >= 10.0` seconds is the shortest stop. */
  const MinStopMs := 10000

  /** `stop_speed_threshold`'s default, in km/h. */
  const DefaultThreshold: real := 10.0

  /** A base row with the two columns the detector adds. */
  datatype SegmentedRow = SegmentedRow(row: BaseRow, stopSegment: nat, isStopped: int)

  /** A half-open index range `[start, end)` of the time-sorted table. */
  type Run = (nat, nat)

  function ByTime(a: BaseRow, b: BaseRow): bool
  {
    a.timestamp <= b.timestamp
  }

  function SegmentedByTime(a: SegmentedRow, b: SegmentedRow): bool
  {
    a.row.timestamp <= b.row.timestamp
  }

  function RowsOf(out: seq<SegmentedRow>): (rows: seq<BaseRow>)
    ensures |rows| == |out|
  {
    seq(|out|, i requires 0 <= i < |out| => out[i].row)
  }

  function SegmentsOf(out: seq<SegmentedRow>): (segs: seq<nat>)
    ensures |segs| == |out|
  {
    seq(|out|, i requires 0 <= i < |out| => out[i].stopSegment)
  }

  /** `is_low_speed`. */
  predicate IsLow(rows: seq<BaseRow>, threshold: real, i: nat)
    requires i < |rows|
  {
    rows[i].speed < threshold
  }

  /** Row `i` lies more than 60 s after row `i - 1`. */
  predicate GapBefore(rows: seq<BaseRow>, i: nat)
    requires 0 < i < |rows|
  {
    rows[i].timestamp - rows[i - 1].timestamp > MaxGapMs
  }

  /** No run may extend to the left of `s`. */
  predicate OpensRun(rows: seq<BaseRow>, threshold: real, s: nat)
    requires s < |rows|
  {
    s == 0 || !IsLow(rows, threshold, s - 1) || GapBefore(rows, s)
  }

  /** No run may extend to the right of `e - 1`. */
  predicate ClosesRun(rows: seq<BaseRow>, threshold: real, e: nat)
    requires 0 < e <= |rows|
  {
    e == |rows| || !IsLow(rows, threshold, e) || GapBefore(rows, e)
  }

  /** A non-empty range of low-speed rows with no gap inside. */
  ghost predicate IsLowRun(rows: seq<BaseRow>, threshold: real, run: Run)
  {
    && run.0 < run.1 <= |rows|
    && (forall i :: run.0 <= i < run.1 ==> IsLow(rows, threshold, i))
    && (forall i :: run.0 < i < run.1 ==> !GapBefore(rows, i))
  }

  /** Runs lie inside the table, in order and without overlap. */
  ghost predicate Ordered(rows: seq<BaseRow>, runs: seq<Run>)
  {
    && (forall k :: 0 <= k < |runs| ==> runs[k].0 < runs[k].1 <= |rows|)
    && (forall k, k' :: 0 <= k < k' < |runs| ==> runs[k].1 <= runs[k'].0)
  }

  predicate InRun(run: Run, i: int)
  {
    run.0 <= i < run.1
  }

  /** Row `i` lies in one of `runs`. */
  ghost predicate Covered(runs: seq<Run>, i: int)
  {
    exists k :: 0 <= k < |runs| && InRun(runs[k], i)
  }

  /** Each run is a gap-free low-speed range that cannot be extended at
      either end. */
  ghost predicate AllMaximal(rows: seq<BaseRow>, threshold: real, runs: seq<Run>)
  {
    forall k :: 0 <= k < |runs| ==>
      IsLowRun(rows, threshold, runs[k]) &&
      OpensRun(rows, threshold, runs[k].0) && ClosesRun(rows, threshold, runs[k].1)
  }

  /** `runs` are the maximal low-speed runs of `rows`: each is a gap-free
      low-speed range that cannot be extended at either end, they come in
      order without overlap, and every low-speed row lies in one of them. */
  ghost predicate IsRunDecomposition(rows: seq<BaseRow>, threshold: real, runs: seq<Run>)
  {
    && Ordered(rows, runs)
    && AllMaximal(rows, threshold, runs)
    && (forall i :: 0 <= i < |rows| && IsLow(rows, threshold, i) ==> Covered(runs, i))
  }

  /** What appending a closed run to `low_speed_groups` keeps. */
  lemma AppendRun(rows: seq<BaseRow>, threshold: real, runs: seq<Run>, start: nat, end: nat)
    requires IsLowRun(rows, threshold, (start, end))
    requires OpensRun(rows, threshold, start) && ClosesRun(rows, threshold, end)
    requires Ordered(rows, runs) && AllMaximal(rows, threshold, runs)
    requires forall k :: 0 <= k < |runs| ==> runs[k].1 <= start
    ensures Ordered(rows, runs + [(start, end)])
    ensures AllMaximal(rows, threshold, runs + [(start, end)])
    ensures forall j :: start <= j < end ==> Covered(runs + [(start, end)], j)
    ensures forall j :: Covered(runs, j) ==> Covered(runs + [(start, end)], j)
  {
    var runs' := runs + [(start, end)];
    forall j | start <= j < end
      ensures Covered(runs', j)
    {
      assert InRun(runs'[|runs|], j);
    }
    forall j | Covered(runs, j)
      ensures Covered(runs', j)
    {
      var k :| 0 <= k < |runs| && InRun(runs[k], j);
      assert runs'[k] == runs[k];
    }
  }

  /** The scan of `identify_stop_segments` with `in_low_speed` and
      `start_idx`: it returns `low_speed_groups`, the maximal low-speed runs. */
  method FindLowSpeedRuns(rows: seq<BaseRow>, threshold: real) returns (runs: seq<Run>)
    ensures IsRunDecomposition(rows, threshold, runs)
  {
    runs := [];
    var inLowSpeed := false;
    var startIdx: Option<nat> := None;
    for i := 0 to |rows|
      invariant ScanState(rows, threshold, runs, inLowSpeed, startIdx, i)
    {
      runs, inLowSpeed, startIdx := ScanStep(rows, threshold, runs, inLowSpeed, startIdx, i);
    }
    if inLowSpeed && startIdx.Some? {
      CloseRunAt(rows, threshold, runs, startIdx.value, |rows|);
      runs := runs + [(startIdx.value, |rows|)];
    }
    ScanComplete(rows, threshold, runs);
  }

  /** The loop variables of the scan after the rows before `i`:
      `in_low_speed` says whether a run is open, which happens exactly when
      row `i - 1` is slow, and the run opened at `start_idx` lies before
      `i`. */
  ghost predicate ScanState(rows: seq<BaseRow>, threshold: real, runs: seq<Run>, inLowSpeed: bool, startIdx: Option<nat>, i: nat)
  {
    && (inLowSpeed <==> startIdx.Some?)
    && (0 < i <= |rows| ==> (inLowSpeed <==> IsLow(rows, threshold, i - 1)))
    && (startIdx.Some? ==> startIdx.value < i)
    && ScannedUpTo(rows, threshold, runs, startIdx, i)
  }

  /** One turn of the scan: a gap of more than 60 s closes the open run,
      then a slow row opens a run when none is open and a fast row closes
      the open one. */
  method ScanStep(rows: seq<BaseRow>, threshold: real, runs: seq<Run>, inLowSpeed: bool, startIdx: Option<nat>, i: nat)
    returns (runs': seq<Run>, inLowSpeed': bool, startIdx': Option<nat>)
    requires i < |rows| && ScanState(rows, threshold, runs, inLowSpeed, startIdx, i)
    ensures ScanState(rows, threshold, runs', inLowSpeed', startIdx', i + 1)
    ensures runs' == runs || (startIdx.Some? && runs' == runs + [(startIdx.value, i)])
  {
    runs', inLowSpeed', startIdx' := runs, inLowSpeed, startIdx;
    if i > 0 {
      var timeGap := rows[i].timestamp - rows[i - 1].timestamp;
      if timeGap > MaxGapMs && inLowSpeed' {
        if startIdx'.Some? {
          assert GapBefore(rows, i);
          CloseRunAt(rows, threshold, runs', startIdx'.value, i);
          runs' := runs' + [(startIdx'.value, i)];
        }
        inLowSpeed' := false;
        startIdx' := None;
      }
    }
    assert !inLowSpeed' ==> OpensRun(rows, threshold, i);
    if IsLow(rows, threshold, i) && !inLowSpeed' {
      OpenRunAt(rows, threshold, runs', i);
      inLowSpeed' := true;
      startIdx' := Some(i);
    } else if !IsLow(rows, threshold, i) && inLowSpeed' {
      inLowSpeed' := false;
      if startIdx'.Some? {
        CloseRunAt(rows, threshold, runs', startIdx'.value, i);
        runs' := runs' + [(startIdx'.value, i)];
        startIdx' := None;
      }
    }
    ScanRow(rows, threshold, runs', startIdx', i);
  }

  /** Once every row is scanned and no run is open, the closed runs are
      the decomposition. */
  lemma ScanComplete(rows: seq<BaseRow>, threshold: real, runs: seq<Run>)
    requires ScannedUpTo(rows, threshold, runs, None, |rows|)
    ensures IsRunDecomposition(rows, threshold, runs)
  {
  }

  /** The scan's state after the rows before `i`: `runs` are closed maximal
      runs ending by `i`, every earlier low-speed row lies in one of them or
      in the open run from `start`, which cannot extend to the left and so
      far holds only low-speed rows without a gap. */
  ghost predicate ScannedUpTo(rows: seq<BaseRow>, threshold: real, runs: seq<Run>, start: Option<nat>, i: nat)
  {
    && i <= |rows|
    && Ordered(rows, runs) && AllMaximal(rows, threshold, runs)
    && (forall k :: 0 <= k < |runs| ==> runs[k].1 <= i)
    && (start.Some? ==>
          && start.value <= i && start.value < |rows|
          && OpensRun(rows, threshold, start.value)
          && (forall k :: 0 <= k < |runs| ==> runs[k].1 <= start.value)
          && (forall j :: start.value <= j < i ==> IsLow(rows, threshold, j))
          && (forall j :: start.value < j < i ==> !GapBefore(rows, j)))
    && (forall j :: 0 <= j < i && IsLow(rows, threshold, j) ==>
          Covered(runs, j) || (start.Some? && start.value <= j))
  }

  /** Opening a run at a row that cannot extend the one before it. */
  lemma OpenRunAt(rows: seq<BaseRow>, threshold: real, runs: seq<Run>, i: nat)
    requires i < |rows| && ScannedUpTo(rows, threshold, runs, None, i)
    requires OpensRun(rows, threshold, i)
    ensures ScannedUpTo(rows, threshold, runs, Some(i), i)
  {
  }

  /** Closing the open run before a row that cannot extend it. */
  lemma CloseRunAt(rows: seq<BaseRow>, threshold: real, runs: seq<Run>, start: nat, i: nat)
    requires start < i && ScannedUpTo(rows, threshold, runs, Some(start), i)
    requires ClosesRun(rows, threshold, i)
    ensures ScannedUpTo(rows, threshold, runs + [(start, i)], None, i)
  {
    AppendRun(rows, threshold, runs, start, i);
  }

  /** Row `i` joins the open run, or is fast and left outside every run. */
  lemma ScanRow(rows: seq<BaseRow>, threshold: real, runs: seq<Run>, start: Option<nat>, i: nat)
    requires i < |rows| && ScannedUpTo(rows, threshold, runs, start, i)
    requires start.Some? ==> IsLow(rows, threshold, i) && (start.value < i ==> !GapBefore(rows, i))
    requires start.None? ==> !IsLow(rows, threshold, i)
    ensures ScannedUpTo(rows, threshold, runs, start, i + 1)
  {
  }

  /** `has_zero_speed`: some row of the run is at 0 km/h. */
  predicate HasZeroSpeed(rows: seq<BaseRow>, run: Run)
    requires run.1 <= |rows|
  {
    exists i :: run.0 <= i < run.1 && rows[i].speed == 0.0
  }

  /** A run is a stop when it has at least two rows, lasts at least 10 s and
      touches 0 km/h. */
  predicate Qualifies(rows: seq<BaseRow>, run: Run)
    requires run.0 < run.1 <= |rows|
  {
    && run.1 - run.0 >= 2
    && rows[run.1 - 1].timestamp - rows[run.0].timestamp >= MinStopMs
    && HasZeroSpeed(rows, run)
  }

  /** How many of `runs` qualify. */
  function CountQualifying(rows: seq<BaseRow>, runs: seq<Run>): nat
    requires Ordered(rows, runs)
  {
    if runs == [] then 0
    else
      CountQualifying(rows, runs[..|runs| - 1]) +
        if Qualifies(rows, runs[|runs| - 1]) then 1 else 0
  }

  /** The `stop_segment` id run `k` receives: its rank among the qualifying
      runs, or 0 when it does not qualify. */
  function SegmentId(rows: seq<BaseRow>, runs: seq<Run>, k: nat): nat
    requires Ordered(rows, runs) && k < |runs|
  {
    if Qualifies(rows, runs[k]) then CountQualifying(rows, runs[..k + 1]) else 0
  }

  /** `segment` holds run `k`'s id on each row of run `k` and 0 elsewhere. */
  ghost predicate MarksQualifyingRuns(rows: seq<BaseRow>, runs: seq<Run>, segment: seq<nat>)
    requires Ordered(rows, runs) && |segment| == |rows|
  {
    && (forall k, i :: 0 <= k < |runs| && InRun(runs[k], i) ==> segment[i] == SegmentId(rows, runs, k))
    && (forall i :: 0 <= i < |rows| && !Covered(runs, i) ==> segment[i] == 0)
  }

  /** The id row `i` holds once the first `n` runs have been marked. */
  function MarkAfter(rows: seq<BaseRow>, runs: seq<Run>, n: nat, i: nat): nat
    requires Ordered(rows, runs) && n <= |runs|
  {
    if n == 0 then 0
    else if InRun(runs[n - 1], i) then SegmentId(rows, runs, n - 1)
    else MarkAfter(rows, runs, n - 1, i)
  }

  lemma {:induction false} MarkAfterOutside(rows: seq<BaseRow>, runs: seq<Run>, n: nat, i: nat)
    requires Ordered(rows, runs) && n <= |runs|
    requires forall k :: 0 <= k < n ==> !InRun(runs[k], i)
    ensures MarkAfter(rows, runs, n, i) == 0
  {
    if n > 0 {
      MarkAfterOutside(rows, runs, n - 1, i);
    }
  }

  lemma {:induction false} MarkAfterInside(rows: seq<BaseRow>, runs: seq<Run>, n: nat, k: nat, i: nat)
    requires Ordered(rows, runs) && k < n <= |runs|
    requires InRun(runs[k], i)
    ensures MarkAfter(rows, runs, n, i) == SegmentId(rows, runs, k)
  {
    if k < n - 1 {
      assert !InRun(runs[n - 1], i);
      MarkAfterInside(rows, runs, n - 1, k, i);
    }
  }

  /** Writes `id` into `stop_segment` and 1 into `is_stopped` on the rows
      `[start, end)`, leaving every other row as it was. */
  method FillRun(stopSegment: array<nat>, isStopped: array<int>, start: nat, end: nat, id: nat)
    requires start <= end <= stopSegment.Length == isStopped.Length
    modifies stopSegment, isStopped
    ensures forall j :: 0 <= j < stopSegment.Length ==>
              stopSegment[j] == if start <= j < end then id else old(stopSegment[j])
    ensures forall j :: 0 <= j < isStopped.Length ==>
              isStopped[j] == if start <= j < end then 1 else old(isStopped[j])
  {
    for i := start to end
      invariant forall j :: 0 <= j < stopSegment.Length ==>
                  stopSegment[j] == if start <= j < i then id else old(stopSegment[j])
      invariant forall j :: 0 <= j < isStopped.Length ==>
                  isStopped[j] == if start <= j < i then 1 else old(isStopped[j])
    {
      stopSegment[i] := id;
      isStopped[i] := 1;
    }
  }

  /** The second loop of `identify_stop_segments`: it writes `stop_segment`
      and `is_stopped` on the rows of each qualifying run, numbering them
      with `segment_id`. */
  method MarkSegments(rows: seq<BaseRow>, runs: seq<Run>) returns (segment: seq<nat>, stopped: seq<int>)
    requires Ordered(rows, runs)
    ensures |segment| == |rows| && |stopped| == |rows|
    ensures MarksQualifyingRuns(rows, runs, segment)
    ensures forall i :: 0 <= i < |rows| ==> stopped[i] == if segment[i] > 0 then 1 else 0
  {
    var stopSegment := new nat[|rows|](_ => 0);
    var isStopped := new int[|rows|](_ => 0);
    var segmentId := 0;
    for k := 0 to |runs|
      invariant Ordered(rows, runs[..k]) && segmentId == CountQualifying(rows, runs[..k])
      invariant forall i :: 0 <= i < |rows| ==> stopSegment[i] == MarkAfter(rows, runs, k, i)
      invariant forall i :: 0 <= i < |rows| ==> isStopped[i] == if stopSegment[i] > 0 then 1 else 0
    {
      segmentId := MarkRun(stopSegment, isStopped, rows, runs, k, segmentId);
    }
    segment, stopped := stopSegment[..], isStopped[..];
    AllRunsMarked(rows, runs, segment);
  }

  /** One turn of the second loop: run `k` is a stop when it has at least
      two rows, lasts at least 10 s and touches 0 km/h; then it gets the
      next id and its rows are marked. */
  method MarkRun(stopSegment: array<nat>, isStopped: array<int>, rows: seq<BaseRow>, runs: seq<Run>, k: nat, segmentId: nat)
    returns (nextId: nat)
    requires stopSegment.Length == |rows| && isStopped.Length == |rows|
    requires Ordered(rows, runs) && k < |runs|
    requires Ordered(rows, runs[..k]) && segmentId == CountQualifying(rows, runs[..k])
    requires forall i :: 0 <= i < |rows| ==> stopSegment[i] == MarkAfter(rows, runs, k, i)
    requires forall i :: 0 <= i < |rows| ==> isStopped[i] == if stopSegment[i] > 0 then 1 else 0
    modifies stopSegment, isStopped
    ensures Ordered(rows, runs[..k + 1]) && nextId == CountQualifying(rows, runs[..k + 1])
    ensures forall i :: 0 <= i < |rows| ==> stopSegment[i] == MarkAfter(rows, runs, k + 1, i)
    ensures forall i :: 0 <= i < |rows| ==> isStopped[i] == if stopSegment[i] > 0 then 1 else 0
  {
    var (start, end) := runs[k];
    MarkStep(rows, runs, k, segmentId);
    nextId := segmentId;
    var isStop := end - start >= 2 &&
                  rows[end - 1].timestamp - rows[start].timestamp >= MinStopMs &&
                  HasZeroSpeed(rows, (start, end));
    if isStop {
      nextId := nextId + 1;
      FillRun(stopSegment, isStopped, start, end, nextId);
    }
  }

  /** Marking run `k`: the count of qualifying runs grows by one when it
      qualifies, and then its rows take the new count; no other row
      changes. */
  lemma MarkStep(rows: seq<BaseRow>, runs: seq<Run>, k: nat, id: nat)
    requires Ordered(rows, runs) && k < |runs|
    requires Ordered(rows, runs[..k]) && id == CountQualifying(rows, runs[..k])
    ensures Ordered(rows, runs[..k + 1])
    ensures CountQualifying(rows, runs[..k + 1]) == id + if Qualifies(rows, runs[k]) then 1 else 0
    ensures forall i :: 0 <= i < |rows| ==>
              MarkAfter(rows, runs, k + 1, i) ==
                if InRun(runs[k], i) && Qualifies(rows, runs[k]) then id + 1 else MarkAfter(rows, runs, k, i)
  {
    assert runs[..k + 1][..k] == runs[..k];
    forall j | runs[k].0 <= j < runs[k].1
      ensures MarkAfter(rows, runs, k, j) == 0
    {
      MarkAfterOutside(rows, runs, k, j);
    }
  }

  /** Once every run is marked, each row of a run holds the run's id and
      every other row 0. */
  lemma AllRunsMarked(rows: seq<BaseRow>, runs: seq<Run>, segment: seq<nat>)
    requires Ordered(rows, runs) && |segment| == |rows|
    requires forall i :: 0 <= i < |rows| ==> segment[i] == MarkAfter(rows, runs, |runs|, i)
    ensures MarksQualifyingRuns(rows, runs, segment)
  {
    forall k, i | 0 <= k < |runs| && InRun(runs[k], i)
      ensures segment[i] == SegmentId(rows, runs, k)
    {
      MarkAfterInside(rows, runs, |runs|, k, i);
    }
    forall i | 0 <= i < |rows| && !Covered(runs, i)
      ensures segment[i] == 0
    {
      MarkAfterOutside(rows, runs, |runs|, i);
    }
  }

  /** Marked rows lie in a run, so they are low-speed rows. */
  lemma StoppedRowsAreLow(rows: seq<BaseRow>, threshold: real, runs: seq<Run>, segment: seq<nat>)
    requires IsRunDecomposition(rows, threshold, runs) && |segment| == |rows|
    requires MarksQualifyingRuns(rows, runs, segment)
    ensures forall i :: 0 <= i < |rows| && segment[i] > 0 ==> IsLow(rows, threshold, i)
  {
    forall i | 0 <= i < |rows| && segment[i] > 0
      ensures IsLow(rows, threshold, i)
    {
      var k :| 0 <= k < |runs| && InRun(runs[k], i);
      assert IsLowRun(rows, threshold, runs[k]);
    }
  }

  /** `out` is what `identify_stop_segments` yields for `rows`: every row
      once, in time order, stopped exactly when its segment id is positive,
      the ids numbering the qualifying maximal low-speed runs. */
  ghost predicate IsSegmentation(rows: seq<BaseRow>, threshold: real, out: seq<SegmentedRow>)
  {
    && multiset(RowsOf(out)) == multiset(rows)
    && Sorting.Sorted(out, SegmentedByTime)
    && (forall i :: 0 <= i < |out| ==> out[i].isStopped == if out[i].stopSegment > 0 then 1 else 0)
    && exists runs :: IsRunDecomposition(RowsOf(out), threshold, runs) &&
                      MarksQualifyingRuns(RowsOf(out), runs, SegmentsOf(out))
  }

  /** `identify_stop_segments`: the time-sorted table with `stop_segment`
      and `is_stopped` added. It keeps every row, in time order; a row is
      stopped exactly when its segment id is positive, and only low-speed
      rows are stopped; the ids number the qualifying maximal low-speed
      runs. */
  method IdentifyStopSegments(rows: seq<BaseRow>, threshold: real) returns (out: seq<SegmentedRow>)
    ensures |out| == |rows|
    ensures multiset(RowsOf(out)) == multiset(rows)
    ensures Sorting.Sorted(out, SegmentedByTime)
    ensures forall i :: 0 <= i < |out| ==> out[i].isStopped == if out[i].stopSegment > 0 then 1 else 0
    ensures forall i :: 0 <= i < |out| && out[i].stopSegment > 0 ==> out[i].row.speed < threshold
    ensures exists runs :: IsRunDecomposition(RowsOf(out), threshold, runs) &&
                           MarksQualifyingRuns(RowsOf(out), runs, SegmentsOf(out))
  {
    var sorted := Sorting.SortBy(rows, ByTime);
    Sorting.SortBySorted(rows, ByTime);
    var runs := FindLowSpeedRuns(sorted, threshold);
    var segment, stopped := MarkSegments(sorted, runs);
    out := seq(|sorted|, i requires 0 <= i < |sorted| => SegmentedRow(sorted[i], segment[i], stopped[i]));
    assert RowsOf(out) == sorted;
    assert SegmentsOf(out) == segment;
    StoppedRowsAreLow(sorted, threshold, runs, segment);
    assert IsRunDecomposition(RowsOf(out), threshold, runs) &&
           MarksQualifyingRuns(RowsOf(out), runs, SegmentsOf(out));
  }
}

module StopSegmentFacts {
  import opened Common
  import opened ProcessorV2
  import opened StopSegments

  /** The ids already handed out grow with the number of runs scanned. */
  lemma {:induction false} CountQualifyingMonotone(rows: seq<BaseRow>, runs: seq<Run>, a: nat, b: nat)
    requires Ordered(rows, runs) && a <= b <= |runs|
    ensures CountQualifying(rows, runs[..a]) <= CountQualifying(rows, runs[..b])
    decreases b - a
  {
    if a < b {
      CountQualifyingMonotone(rows, runs, a, b - 1);
      assert runs[..b][..b - 1] == runs[..b - 1];
    }
  }

  /** A qualifying run gets a positive id and a run that does not qualify
      gets 0. */
  lemma SegmentIdPositive(rows: seq<BaseRow>, runs: seq<Run>, k: nat)
    requires Ordered(rows, runs) && k < |runs|
    ensures SegmentId(rows, runs, k) > 0 <==> Qualifies(rows, runs[k])
  {
    assert runs[..k + 1][k] == runs[k];
  }

  /** Ids increase strictly in scan (time) order, so no two segments share
      an id. */
  lemma SegmentIdsIncrease(rows: seq<BaseRow>, runs: seq<Run>, k: nat, k': nat)
    requires Ordered(rows, runs) && k < k' < |runs|
    requires Qualifies(rows, runs[k]) && Qualifies(rows, runs[k'])
    ensures 0 < SegmentId(rows, runs, k) < SegmentId(rows, runs, k')
  {
    SegmentIdPositive(rows, runs, k);
    CountQualifyingMonotone(rows, runs, k + 1, k');
    assert runs[..k' + 1][..k'] == runs[..k'];
    assert runs[..k' + 1][k'] == runs[k'];
  }

  /** Every id from 1 to the number of qualifying runs is used: the ids
      have no gaps. */
  lemma {:induction false} SegmentIdsDense(rows: seq<BaseRow>, runs: seq<Run>, id: nat) returns (k: nat)
    requires Ordered(rows, runs) && 1 <= id <= CountQualifying(rows, runs)
    ensures k < |runs| && Qualifies(rows, runs[k]) && SegmentId(rows, runs, k) == id
  {
    var init := runs[..|runs| - 1];
    assert runs[..|runs|] == runs;
    if id == CountQualifying(rows, runs) && Qualifies(rows, runs[|runs| - 1]) {
      k := |runs| - 1;
    } else {
      k := SegmentIdsDense(rows, init, id);
      assert init[..k + 1] == runs[..k + 1];
    }
  }

  /** No id exceeds the number of qualifying runs. */
  lemma SegmentIdBound(rows: seq<BaseRow>, runs: seq<Run>, k: nat)
    requires Ordered(rows, runs) && k < |runs|
    ensures SegmentId(rows, runs, k) <= CountQualifying(rows, runs)
  {
    CountQualifyingMonotone(rows, runs, k + 1, |runs|);
    assert runs[..|runs|] == runs;
  }

  /** A row is stopped exactly when it lies in a qualifying run. */
  lemma StoppedIffInQualifyingRun(rows: seq<BaseRow>, runs: seq<Run>, segment: seq<nat>, i: nat)
    requires Ordered(rows, runs) && |segment| == |rows| && i < |rows|
    requires MarksQualifyingRuns(rows, runs, segment)
    ensures segment[i] > 0 <==> exists k :: 0 <= k < |runs| && InRun(runs[k], i) && Qualifies(rows, runs[k])
  {
    if k :| 0 <= k < |runs| && InRun(runs[k], i) {
      SegmentIdPositive(rows, runs, k);
      forall k' | 0 <= k' < |runs| && InRun(runs[k'], i)
        ensures k' == k
      {
      }
    }
  }

  /** Rows sharing a positive id lie in one run, so `stop_segment == s`
      selects exactly the rows of one qualifying run. */
  lemma SameIdSameRun(rows: seq<BaseRow>, runs: seq<Run>, segment: seq<nat>, i: nat, j: nat) returns (k: nat)
    requires Ordered(rows, runs) && |segment| == |rows| && i < |rows| && j < |rows|
    requires MarksQualifyingRuns(rows, runs, segment)
    requires segment[i] > 0 && segment[i] == segment[j]
    ensures k < |runs| && InRun(runs[k], i) && InRun(runs[k], j) && Qualifies(rows, runs[k])
  {
    k :| 0 <= k < |runs| && InRun(runs[k], i);
    var k' :| 0 <= k' < |runs| && InRun(runs[k'], j);
    SegmentIdPositive(rows, runs, k);
    SegmentIdPositive(rows, runs, k');
    if k < k' {
      SegmentIdsIncrease(rows, runs, k, k');
    } else if k' < k {
      SegmentIdsIncrease(rows, runs, k', k);
    }
  }

  /** The run that covers the start of a run of another decomposition is
      that same run: a maximal run is determined by any of its rows. */
  lemma SameRunAt(rows: seq<BaseRow>, threshold: real, r1: seq<Run>, r2: seq<Run>, k: nat) returns (k': nat)
    requires IsRunDecomposition(rows, threshold, r1) && IsRunDecomposition(rows, threshold, r2)
    requires k < |r1|
    ensures k' < |r2| && r2[k'] == r1[k]
  {
    var (s, e) := r1[k];
    assert IsLowRun(rows, threshold, r1[k]);
    assert IsLow(rows, threshold, s);
    k' :| 0 <= k' < |r2| && InRun(r2[k'], s);
    var (s', e') := r2[k'];
    assert IsLowRun(rows, threshold, r2[k']);
  }

  /** In an ordered run list the starts increase strictly. */
  lemma StartsIncrease(rows: seq<BaseRow>, r: seq<Run>, i: nat, j: nat)
    requires Ordered(rows, r) && i < |r| && j < |r|
    ensures r[i].0 <= r[j].0 <==> i <= j
  {
  }

  /** Dropping the first run of two lists with the same runs and the same
      first run leaves two lists with the same runs. */
  lemma TailsSameRuns(rows: seq<BaseRow>, r1: seq<Run>, r2: seq<Run>)
    requires Ordered(rows, r1) && Ordered(rows, r2) && r1 != [] && r2 != [] && r1[0] == r2[0]
    requires forall k :: 0 <= k < |r1| ==> r1[k] in r2
    ensures forall k :: 0 <= k < |r1| - 1 ==> r1[1..][k] in r2[1..]
  {
    forall k | 0 <= k < |r1| - 1
      ensures r1[1..][k] in r2[1..]
    {
      assert r1[k + 1] in r2;
      var m :| 0 <= m < |r2| && r2[m] == r1[k + 1];
      StartsIncrease(rows, r1, 0, k + 1);
      StartsIncrease(rows, r2, m, 0);
      assert r2[1..][m - 1] == r1[1..][k];
    }
  }

  /** Two ordered run lists with the same runs are equal. */
  lemma {:induction false} OrderedSameRunsEqual(rows: seq<BaseRow>, r1: seq<Run>, r2: seq<Run>)
    requires Ordered(rows, r1) && Ordered(rows, r2)
    requires forall k :: 0 <= k < |r1| ==> r1[k] in r2
    requires forall k :: 0 <= k < |r2| ==> r2[k] in r1
    ensures r1 == r2
    decreases |r1|
  {
    if r1 != [] {
      assert r1[0] in r2;
    }
    if r2 != [] {
      assert r2[0] in r1;
    }
    if r1 != [] && r2 != [] {
      assert r1[0] == r2[0] by {
        var j :| 0 <= j < |r2| && r2[j] == r1[0];
        var i :| 0 <= i < |r1| && r1[i] == r2[0];
        StartsIncrease(rows, r1, i, 0);
        StartsIncrease(rows, r2, j, 0);
      }
      assert r1[1..] == r2[1..] by {
        TailsSameRuns(rows, r1, r2);
        TailsSameRuns(rows, r2, r1);
        OrderedTail(rows, r1);
        OrderedTail(rows, r2);
        OrderedSameRunsEqual(rows, r1[1..], r2[1..]);
      }
      assert r1 == [r1[0]] + r1[1..];
      assert r2 == [r2[0]] + r2[1..];
    }
  }

  lemma OrderedTail(rows: seq<BaseRow>, r: seq<Run>)
    requires Ordered(rows, r) && r != []
    ensures Ordered(rows, r[1..])
  {
  }

  /** The maximal low-speed runs of a table are unique, so the scan's
      result, and with it every `stop_segment` id, is determined by the
      time-sorted rows alone. */
  lemma RunDecompositionUnique(rows: seq<BaseRow>, threshold: real, r1: seq<Run>, r2: seq<Run>)
    requires IsRunDecomposition(rows, threshold, r1) && IsRunDecomposition(rows, threshold, r2)
    ensures r1 == r2
  {
    forall k | 0 <= k < |r1|
      ensures r1[k] in r2
    {
      var k' := SameRunAt(rows, threshold, r1, r2, k);
    }
    forall k | 0 <= k < |r2|
      ensures r2[k] in r1
    {
      var k' := SameRunAt(rows, threshold, r2, r1, k);
    }
    OrderedSameRunsEqual(rows, r1, r2);
  }

  /** Once the rows' time order is fixed, the segment ids and stop flags
      are determined: two segmentations that order the rows alike are
      equal. */
  lemma SegmentationUnique(rows: seq<BaseRow>, threshold: real, o1: seq<SegmentedRow>, o2: seq<SegmentedRow>)
    requires IsSegmentation(rows, threshold, o1) && IsSegmentation(rows, threshold, o2)
    requires RowsOf(o1) == RowsOf(o2)
    ensures o1 == o2
  {
    var sorted := RowsOf(o1);
    var r1 :| IsRunDecomposition(sorted, threshold, r1) && MarksQualifyingRuns(sorted, r1, SegmentsOf(o1));
    var r2 :| IsRunDecomposition(sorted, threshold, r2) && MarksQualifyingRuns(sorted, r2, SegmentsOf(o2));
    RunDecompositionUnique(sorted, threshold, r1, r2);
    forall i | 0 <= i < |o1|
      ensures o1[i] == o2[i]
    {
      assert o1[i].row == sorted[i] == o2[i].row;
      assert o1[i].stopSegment == SegmentsOf(o1)[i] && o2[i].stopSegment == SegmentsOf(o2)[i];
      if k :| 0 <= k < |r1| && InRun(r1[k], i) {
        assert SegmentsOf(o1)[i] == SegmentId(sorted, r1, k) == SegmentsOf(o2)[i];
      } else {
        assert !Covered(r1, i);
      }
    }
  }

  /** A base row at `t` ms with speed `v`; the other columns play no part
      in stop detection. */
  function RowAt(t: int, v: real): BaseRow
  {
    BaseRow(t, v, 0.0, 0.0, 0, 0)
  }

  /** Speeds 15, 8, 0, 5, 12 km/h one second apart. */
  function ShortDip(): seq<BaseRow>
  {
    [RowAt(0, 15.0), RowAt(1000, 8.0), RowAt(2000, 0.0), RowAt(3000, 5.0), RowAt(4000, 12.0)]
  }

  /** The dip to 0 km/h lasts only 2 s: its three rows form the one
      low-speed run, which does not qualify, so no row is stopped. */
  lemma ShortDipHasNoStop(runs: seq<Run>, segment: seq<nat>)
    requires IsRunDecomposition(ShortDip(), DefaultThreshold, runs)
    requires |segment| == 5 && MarksQualifyingRuns(ShortDip(), runs, segment)
    ensures runs == [(1, 4)]
    ensures forall i :: 0 <= i < 5 ==> segment[i] == 0
  {
    ShortDipRuns();
    RunDecompositionUnique(ShortDip(), DefaultThreshold, runs, [(1, 4)]);
    assert !Qualifies(ShortDip(), runs[0]);
  }

  lemma ShortDipRuns()
    ensures IsRunDecomposition(ShortDip(), DefaultThreshold, [(1, 4)])
  {
    var rows := ShortDip();
    var runs := [(1, 4)];
    assert forall i :: 0 <= i < 5 ==> (IsLow(rows, DefaultThreshold, i) <==> 1 <= i < 4);
    forall i | 0 <= i < 5 && IsLow(rows, DefaultThreshold, i)
      ensures Covered(runs, i)
    {
      assert InRun(runs[0], i);
    }
  }

  /** Speed at second `i` of the long stop: 15 km/h for five seconds, then
      the pattern 8, 3, 0, 4 fifteen times, then 15 km/h for five seconds. */
  function LongStopSpeed(i: nat): real
  {
    if i < 5 || 65 <= i then 15.0
    else if (i - 5) % 4 == 0 then 8.0
    else if (i - 5) % 4 == 1 then 3.0
    else if (i - 5) % 4 == 2 then 0.0
    else 4.0
  }

  function LongStop(): (rows: seq<BaseRow>)
    ensures |rows| == 70
  {
    seq(70, i requires 0 <= i => RowAt(1000 * i, LongStopSpeed(i)))
  }

  /** A one-minute low-speed stretch that reaches 0 km/h is exactly one
      stop, with id 1 on each of its rows and 0 elsewhere. */
  lemma LongStopIsOneSegment(runs: seq<Run>, segment: seq<nat>)
    requires IsRunDecomposition(LongStop(), DefaultThreshold, runs)
    requires |segment| == 70 && MarksQualifyingRuns(LongStop(), runs, segment)
    ensures runs == [(5, 65)]
    ensures forall i :: 0 <= i < 70 ==> segment[i] == if 5 <= i < 65 then 1 else 0
  {
    var rows := LongStop();
    LongStopRuns();
    RunDecompositionUnique(rows, DefaultThreshold, runs, [(5, 65)]);
    assert rows[7].speed == 0.0;
    assert Qualifies(rows, (5, 65));
    assert runs[..1] == runs;
    assert SegmentId(rows, runs, 0) == 1;
  }

  lemma LongStopRuns()
    ensures IsRunDecomposition(LongStop(), DefaultThreshold, [(5, 65)])
  {
    var rows := LongStop();
    assert forall i :: 0 <= i < 70 ==> (IsLow(rows, DefaultThreshold, i) <==> 5 <= i < 65);
    assert forall i :: 0 < i < 70 ==> !GapBefore(rows, i);
    assert forall i :: 5 <= i < 65 ==> InRun([(5, 65)][0], i);
  }

  /** Two stretches at 0 km/h, each 20 s long, 70 s apart. */
  function GapSplit(): seq<BaseRow>
  {
    [RowAt(0, 0.0), RowAt(20000, 0.0), RowAt(90000, 0.0), RowAt(110000, 0.0)]
  }

  /** A gap of more than 60 s cuts a low-speed run even though the speed
      never rises: the two halves become stops 1 and 2. */
  lemma GapSplitsStop(runs: seq<Run>, segment: seq<nat>)
    requires IsRunDecomposition(GapSplit(), DefaultThreshold, runs)
    requires |segment| == 4 && MarksQualifyingRuns(GapSplit(), runs, segment)
    ensures runs == [(0, 2), (2, 4)]
    ensures segment == [1, 1, 2, 2]
  {
    var rows := GapSplit();
    var halves := [(0, 2), (2, 4)];
    GapSplitRuns();
    RunDecompositionUnique(rows, DefaultThreshold, runs, halves);
    assert HasZeroSpeed(rows, runs[0]) && HasZeroSpeed(rows, runs[1]) by {
      assert rows[0].speed == 0.0 && rows[2].speed == 0.0;
    }
    assert runs[..1] == [(0, 2)] && runs[..2] == runs;
    assert SegmentId(rows, runs, 0) == 1;
    assert SegmentId(rows, runs, 1) == 2;
    assert InRun(runs[0], 0) && InRun(runs[0], 1) && InRun(runs[1], 2) && InRun(runs[1], 3);
  }

  lemma GapSplitRuns()
    ensures IsRunDecomposition(GapSplit(), DefaultThreshold, [(0, 2), (2, 4)])
  {
    var rows := GapSplit();
    var halves := [(0, 2), (2, 4)];
    assert GapBefore(rows, 2);
    assert InRun(halves[0], 0) && InRun(halves[0], 1) && InRun(halves[1], 2) && InRun(halves[1], 3);
  }
}
