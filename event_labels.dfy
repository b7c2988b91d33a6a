/** `apply_event_labels` and `label_stop_segments` of the improved
    processor: the status log is joined onto the base table by timestamp
    alone, each row gets an event type from its status transition, and each
    event then labels a whole stop segment. */
module EventLabels {
  import opened Common
  import opened ProcessorV2
  import opened StatusCodes
  import opened StopSegments
  import Sorting

  /** The status-change log keyed by `time_stamp` in ms; the model assumes
      the keys are unique. */
  type StatusLog = map<int, StatusEntry>

  /** A row of the left join: the segmented row and the log columns. */
  datatype MergedRow = MergedRow(seg: SegmentedRow, entry: StatusEntry)

  /** A row after `apply_event_labels`: the joined row, its
      `status_change` code and its `event_type`. */
  datatype EventRow = EventRow(seg: SegmentedRow, entry: StatusEntry, statusChange: string, eventType: nat)

  /** A row of the labeled base table: `stop_segment` and every helper
      column are gone, `is_stopped` and `label` remain. */
  datatype LabeledRow = LabeledRow(row: BaseRow, isStopped: int, rowLabel: nat)

  /** The log columns a row receives from the left join: NaN when no log
      row has its timestamp. */
  function LookUp(log: StatusLog, t: int): StatusEntry
  {
    if t in log then log[t] else StatusEntry(None, None)
  }

  function MergedByTime(a: MergedRow, b: MergedRow): bool
  {
    a.seg.row.timestamp <= b.seg.row.timestamp
  }

  function EventByTime(a: EventRow, b: EventRow): bool
  {
    a.seg.row.timestamp <= b.seg.row.timestamp
  }

  lemma ByTimeOrders()
    ensures Sorting.IsTotalPreorder(SegmentedByTime)
    ensures Sorting.IsTotalPreorder(MergedByTime)
    ensures Sorting.IsTotalPreorder(EventByTime)
  {
  }

  /** The log columns joined onto one row. */
  function Joined(log: StatusLog): SegmentedRow -> MergedRow
  {
    (r: SegmentedRow) => MergedRow(r, LookUp(log, r.row.timestamp))
  }

  /** `pd.merge(df, change_flag_df, left_on='timestamp_ms',
      right_on='time_stamp', how='left')`: every row keeps its place and
      gains the log columns of its timestamp. */
  function Merge(rows: seq<SegmentedRow>, log: StatusLog): (merged: seq<MergedRow>)
    ensures |merged| == |rows|
  {
    Sorting.Map(rows, Joined(log))
  }

  /** `status_change`: the row's status then the previous row's status
      (`shift(1)`, NaN on the first row), each zero-padded. */
  function StatusChanges(merged: seq<MergedRow>): (codes: seq<string>)
    ensures |codes| == |merged|
  {
    seq(|merged|, i requires 0 <= i < |merged| =>
      TransitionCode(merged[i].entry.status, if i == 0 then None else merged[i - 1].entry.status))
  }

  function ChangeFlags(merged: seq<MergedRow>): (flags: seq<Option<int>>)
    ensures |flags| == |merged|
  {
    seq(|merged|, i requires 0 <= i < |merged| => merged[i].entry.changeFlag)
  }

  /** `status_management.shift(1)`: the status of the row before, NaN on
      the first row. */
  function PreviousStatus(rows: seq<EventRow>, i: nat): Option<int>
    requires i < |rows|
  {
    if i == 0 then None else rows[i - 1].entry.status
  }

  /** Row `i`'s `status_change` is its own status followed by the status
      of the row before it. */
  predicate CodedFromPrevious(rows: seq<EventRow>, i: nat)
    requires i < |rows|
  {
    rows[i].statusChange == TransitionCode(rows[i].entry.status, PreviousStatus(rows, i))
  }

  function SegsOf(rows: seq<EventRow>): (segs: seq<SegmentedRow>)
    ensures |segs| == |rows|
  {
    seq(|rows|, i requires 0 <= i < |rows| => rows[i].seg)
  }

  /** The event table of a time-sorted table, row by row: row `i` keeps
      its segmented row, gains the log entry of its timestamp, the code of
      its status and the status row `i - 1` joined, and the staged event
      type of that code and its change flag. */
  function EventTable(rows: seq<SegmentedRow>, log: StatusLog): (events: seq<EventRow>)
    ensures |events| == |rows|
  {
    seq(|rows|, i requires 0 <= i < |rows| =>
      var entry := LookUp(log, rows[i].row.timestamp);
      var code := TransitionCode(entry.status, if i == 0 then None else LookUp(log, rows[i - 1].row.timestamp).status);
      EventRow(rows[i], entry, code, StagedLabel(entry.changeFlag, code)))
  }

  /** A table that keeps `rows` in order, joins each row's own log entry,
      codes each status with the one before it and stages the event type
      is exactly `EventTable(rows, log)`. */
  lemma EventTableUnique(rows: seq<SegmentedRow>, log: StatusLog, out: seq<EventRow>)
    requires SegsOf(out) == rows
    requires forall i :: 0 <= i < |out| ==> out[i].entry == LookUp(log, out[i].seg.row.timestamp)
    requires forall i :: 0 <= i < |out| ==> CodedFromPrevious(out, i)
    requires forall i :: 0 <= i < |out| ==> out[i].eventType == StagedLabel(out[i].entry.changeFlag, out[i].statusChange)
    ensures out == EventTable(rows, log)
  {
    var table := EventTable(rows, log);
    forall i | 0 <= i < |out|
      ensures out[i] == table[i]
    {
      EventRowAgrees(rows, log, out, i);
    }
  }

  lemma EventRowAgrees(rows: seq<SegmentedRow>, log: StatusLog, out: seq<EventRow>, i: nat)
    requires SegsOf(out) == rows && i < |out|
    requires out[i].entry == LookUp(log, out[i].seg.row.timestamp)
    requires i > 0 ==> out[i - 1].entry == LookUp(log, out[i - 1].seg.row.timestamp)
    requires CodedFromPrevious(out, i)
    requires out[i].eventType == StagedLabel(out[i].entry.changeFlag, out[i].statusChange)
    ensures out[i] == EventTable(rows, log)[i]
  {
    assert out[i].seg == SegsOf(out)[i] == rows[i];
    if i > 0 {
      assert out[i - 1].seg == SegsOf(out)[i - 1] == rows[i - 1];
    }
  }

  /** `apply_event_labels`: join, re-sort by time, compute the transition
      codes over the whole timeline and overwrite `event_type` in stages.
      Every row of the input is kept; the rows come out in time order; each
      carries the log entry of its own timestamp, the code of its status and
      the status of the row before it, and the staged event type of that
      code and its change flag. On time-sorted input the order is kept. */
  method ApplyEventLabels(rows: seq<SegmentedRow>, log: StatusLog) returns (out: seq<EventRow>)
    ensures |out| == |rows|
    ensures multiset(SegsOf(out)) == multiset(rows)
    ensures Sorting.Sorted(out, EventByTime)
    ensures forall i :: 0 <= i < |out| ==> out[i].entry == LookUp(log, out[i].seg.row.timestamp)
    ensures forall i :: 0 <= i < |out| ==> CodedFromPrevious(out, i)
    ensures forall i :: 0 <= i < |out| ==> out[i].eventType == StagedLabel(out[i].entry.changeFlag, out[i].statusChange)
    ensures Sorting.Sorted(rows, SegmentedByTime) ==> SegsOf(out) == rows && out == EventTable(rows, log)
  {
    var joined := Merge(rows, log);
    var merged := Sorting.SortBy(joined, MergedByTime);
    out := ClassifyEvents(merged);
    JoinedInTimeOrder(rows, log, merged, out);
    if Sorting.Sorted(rows, SegmentedByTime) {
      EventTableUnique(rows, log, out);
    }
  }

  /** Joining and then sorting by time is sorting by time and then joining:
      rows that keep the joined table's rows and entries in order hold
      every input row once, in time order, each with the log entry of its
      timestamp, and a table already in time order keeps its order. */
  lemma JoinedInTimeOrder(rows: seq<SegmentedRow>, log: StatusLog, merged: seq<MergedRow>, out: seq<EventRow>)
    requires merged == Sorting.SortBy(Merge(rows, log), MergedByTime)
    requires |out| == |merged|
    requires forall i :: 0 <= i < |out| ==> out[i].seg == merged[i].seg && out[i].entry == merged[i].entry
    ensures |out| == |rows|
    ensures multiset(SegsOf(out)) == multiset(rows)
    ensures Sorting.Sorted(out, EventByTime)
    ensures forall i :: 0 <= i < |out| ==> out[i].entry == LookUp(log, out[i].seg.row.timestamp)
    ensures Sorting.Sorted(rows, SegmentedByTime) ==> SegsOf(out) == rows
  {
    var sortedRows := Sorting.SortBy(rows, SegmentedByTime);
    Sorting.SortByMap(rows, Joined(log), SegmentedByTime, MergedByTime);
    assert merged == Sorting.Map(sortedRows, Joined(log));
    ByTimeOrders();
    Sorting.SortBySorted(rows, SegmentedByTime);
    forall i | 0 <= i < |out|
      ensures out[i].seg == sortedRows[i] && out[i].entry == LookUp(log, sortedRows[i].row.timestamp)
    {
      assert merged[i] == Joined(log)(sortedRows[i]);
    }
    assert SegsOf(out) == sortedRows;
    forall i, j | 0 <= i < j < |out|
      ensures EventByTime(out[i], out[j])
    {
      assert SegmentedByTime(sortedRows[i], sortedRows[j]);
    }
    if Sorting.Sorted(rows, SegmentedByTime) {
      Sorting.SortBySortedIsIdentity(rows, SegmentedByTime);
    }
  }

  /** The `status_change` and `event_type` columns of the joined, sorted
      table. */
  method ClassifyEvents(merged: seq<MergedRow>) returns (out: seq<EventRow>)
    ensures |out| == |merged|
    ensures forall i :: 0 <= i < |out| ==> out[i].seg == merged[i].seg && out[i].entry == merged[i].entry
    ensures forall i :: 0 <= i < |out| ==> CodedFromPrevious(out, i)
    ensures forall i :: 0 <= i < |out| ==> out[i].eventType == StagedLabel(out[i].entry.changeFlag, out[i].statusChange)
  {
    var codes := StatusChanges(merged);
    var eventTypes := LabelColumn(ChangeFlags(merged), codes);
    out := seq(|merged|, i requires 0 <= i < |merged| => EventRow(merged[i].seg, merged[i].entry, codes[i], eventTypes[i]));
    CodesFollowStatuses(merged, out);
  }

  lemma CodesFollowStatuses(merged: seq<MergedRow>, out: seq<EventRow>)
    requires |out| == |merged|
    requires forall i :: 0 <= i < |out| ==> out[i].entry == merged[i].entry
    requires forall i :: 0 <= i < |out| ==> out[i].statusChange == StatusChanges(merged)[i]
    ensures forall i :: 0 <= i < |out| ==> CodedFromPrevious(out, i)
  {
    forall i | 0 <= i < |out|
      ensures CodedFromPrevious(out, i)
    {
      CodeAt(merged, out, i);
    }
  }

  lemma CodeAt(merged: seq<MergedRow>, out: seq<EventRow>, i: nat)
    requires i < |out| == |merged|
    requires out[i].entry == merged[i].entry
    requires i > 0 ==> out[i - 1].entry == merged[i - 1].entry
    requires out[i].statusChange == StatusChanges(merged)[i]
    ensures CodedFromPrevious(out, i)
  {
    assert PreviousStatus(out, i) == if i == 0 then None else merged[i - 1].entry.status;
  }

  /** A stopped row strictly before `t`, or strictly after it. */
  predicate StoppedBefore(r: EventRow, t: int)
  {
    r.seg.row.timestamp < t && r.seg.isStopped == 1
  }

  predicate StoppedAfter(r: EventRow, t: int)
  {
    r.seg.row.timestamp > t && r.seg.isStopped == 1
  }

  /** `before_event[before_event['is_stopped'] == 1].iloc[-1]`: the last
      stopped row earlier than `t`, if any. */
  function LastStoppedBefore(rows: seq<EventRow>, t: int): (r: Option<nat>)
    ensures r.Some? ==> r.value < |rows| && StoppedBefore(rows[r.value], t)
    ensures r.Some? ==> forall j :: r.value < j < |rows| ==> !StoppedBefore(rows[j], t)
    ensures r.None? ==> forall j :: 0 <= j < |rows| ==> !StoppedBefore(rows[j], t)
  {
    if rows == [] then None
    else if StoppedBefore(rows[|rows| - 1], t) then Some(|rows| - 1)
    else LastStoppedBefore(rows[..|rows| - 1], t)
  }

  /** `after_event[after_event['is_stopped'] == 1].iloc[0]`: the first
      stopped row later than `t`, if any. */
  function FirstStoppedAfter(rows: seq<EventRow>, t: int): (r: Option<nat>)
    ensures r.Some? ==> r.value < |rows| && StoppedAfter(rows[r.value], t)
    ensures r.Some? ==> forall j :: 0 <= j < r.value ==> !StoppedAfter(rows[j], t)
    ensures r.None? ==> forall j :: 0 <= j < |rows| ==> !StoppedAfter(rows[j], t)
  {
    if rows == [] then None
    else if StoppedAfter(rows[0], t) then Some(0)
    else
      match FirstStoppedAfter(rows[1..], t)
      case None => None
      case Some(j) => Some(j + 1)
  }

  /** Row `j` is the last stopped row strictly before `t`. */
  ghost predicate IsLastStoppedBefore(rows: seq<EventRow>, t: int, j: int)
  {
    0 <= j < |rows| && StoppedBefore(rows[j], t) &&
    forall j' :: j < j' < |rows| ==> !StoppedBefore(rows[j'], t)
  }

  /** Row `j` is the first stopped row strictly after `t`. */
  ghost predicate IsFirstStoppedAfter(rows: seq<EventRow>, t: int, j: int)
  {
    0 <= j < |rows| && StoppedAfter(rows[j], t) &&
    forall j' :: 0 <= j' < j ==> !StoppedAfter(rows[j'], t)
  }

  /** The segment id the event on row `e` labels (0: none). A boarding
      event takes the segment of the last stopped row strictly before it,
      an alighting event that of the first stopped row strictly after it;
      an event with no stopped row on its side, and a row without an event,
      target nothing. */
  function EventTarget(rows: seq<EventRow>, e: nat): (target: nat)
    requires e < |rows|
    ensures target > 0 ==> rows[e].eventType == 1 || rows[e].eventType == 2
    ensures rows[e].eventType == 1 && target > 0 ==>
              exists j :: IsLastStoppedBefore(rows, rows[e].seg.row.timestamp, j) && rows[j].seg.stopSegment == target
    ensures rows[e].eventType == 2 && target > 0 ==>
              exists j :: IsFirstStoppedAfter(rows, rows[e].seg.row.timestamp, j) && rows[j].seg.stopSegment == target
  {
    var t := rows[e].seg.row.timestamp;
    if rows[e].eventType == 1 then
      match LastStoppedBefore(rows, t)
      case Some(j) => rows[j].seg.stopSegment
      case None => 0
    else if rows[e].eventType == 2 then
      match FirstStoppedAfter(rows, t)
      case Some(j) => rows[j].seg.stopSegment
      case None => 0
    else 0
  }

  /** The converse: a boarding event targets the segment of the last
      stopped row before it, an alighting event that of the first stopped
      row after it, and either targets nothing when no stopped row lies on
      its side. */
  lemma EventTargetOfEvent(rows: seq<EventRow>, e: nat, j: nat)
    requires e < |rows| && j < |rows|
    ensures rows[e].eventType == 1 && IsLastStoppedBefore(rows, rows[e].seg.row.timestamp, j) ==>
              EventTarget(rows, e) == rows[j].seg.stopSegment
    ensures rows[e].eventType == 2 && IsFirstStoppedAfter(rows, rows[e].seg.row.timestamp, j) ==>
              EventTarget(rows, e) == rows[j].seg.stopSegment
  {
    var t := rows[e].seg.row.timestamp;
    if rows[e].eventType == 1 && IsLastStoppedBefore(rows, t, j) {
      assert LastStoppedBefore(rows, t) == Some(j);
    }
    if rows[e].eventType == 2 && IsFirstStoppedAfter(rows, t, j) {
      assert FirstStoppedAfter(rows, t) == Some(j);
    }
  }

  /** An event with no stopped row on its side targets nothing. */
  lemma NothingOnItsSide(rows: seq<EventRow>, e: nat)
    requires e < |rows|
    ensures rows[e].eventType == 1 && (forall j :: 0 <= j < |rows| ==> !StoppedBefore(rows[j], rows[e].seg.row.timestamp)) ==>
              EventTarget(rows, e) == 0
    ensures rows[e].eventType == 2 && (forall j :: 0 <= j < |rows| ==> !StoppedAfter(rows[j], rows[e].seg.row.timestamp)) ==>
              EventTarget(rows, e) == 0
  {
  }

  /** The label of row `i` once the events among the first `n` rows have
      been applied in order. A label is at most 2 and is only ever written
      on a row of a segment. */
  function LabelAfter(rows: seq<EventRow>, n: nat, i: nat): (l: nat)
    requires n <= |rows| && i < |rows|
    ensures l <= 2
    ensures l > 0 ==> rows[i].seg.stopSegment > 0
  {
    if n == 0 then 0
    else
      var target := EventTarget(rows, n - 1);
      if target > 0 && rows[i].seg.stopSegment == target then rows[n - 1].eventType
      else LabelAfter(rows, n - 1, i)
  }

  function Labeled(rows: seq<EventRow>): (out: seq<LabeledRow>)
    ensures |out| == |rows|
  {
    seq(|rows|, i requires 0 <= i < |rows| => LabeledRow(rows[i].seg.row, rows[i].seg.isStopped, LabelAfter(rows, |rows|, i)))
  }

  /** `label_stop_segments`: reset `label` to 0, re-sort by time, then for
      each event row in order overwrite the label of every row of its target
      segment; the result drops `stop_segment` and the helper columns. */
  method LabelStopSegments(rows: seq<EventRow>) returns (out: seq<LabeledRow>)
    ensures out == Labeled(Sorting.SortBy(rows, EventByTime))
  {
    var sorted := Sorting.SortBy(rows, EventByTime);
    out := LabelInOrder(sorted);
  }

  /** The event loop of `label_stop_segments` over the time-sorted rows. */
  method LabelInOrder(sorted: seq<EventRow>) returns (out: seq<LabeledRow>)
    ensures out == Labeled(sorted)
  {
    var n := |sorted|;
    var column := new nat[n](_ => 0);
    for e := 0 to n
      invariant forall i :: 0 <= i < n ==> column[i] == LabelAfter(sorted, e, i)
    {
      var event := sorted[e];
      if event.eventType > 0 {
        var target := EventTarget(sorted, e);
        if target > 0 {
          LabelSegment(column, sorted, e, target);
        } else {
          NoTargetKeepsLabels(sorted, e);
        }
      } else {
        NoTargetKeepsLabels(sorted, e);
      }
    }
    var labels := column[..];
    out := seq(n, i requires 0 <= i < n => LabeledRow(sorted[i].seg.row, sorted[i].seg.isStopped, labels[i]));
    assert forall i :: 0 <= i < n ==> out[i] == Labeled(sorted)[i];
  }

  /** A row whose event targets no segment changes no label. */
  lemma NoTargetKeepsLabels(rows: seq<EventRow>, e: nat)
    requires e < |rows| && EventTarget(rows, e) == 0
    ensures forall i :: 0 <= i < |rows| ==> LabelAfter(rows, e + 1, i) == LabelAfter(rows, e, i)
  {
  }

  /** `df.loc[df['stop_segment'] == target_segment, 'label'] = event_type`:
      event `e` writes its type on every row of its target segment. */
  method LabelSegment(column: array<nat>, rows: seq<EventRow>, e: nat, target: nat)
    requires column.Length == |rows| && e < |rows|
    requires target > 0 && target == EventTarget(rows, e)
    requires forall i :: 0 <= i < |rows| ==> column[i] == LabelAfter(rows, e, i)
    modifies column
    ensures forall i :: 0 <= i < |rows| ==> column[i] == LabelAfter(rows, e + 1, i)
  {
    for i := 0 to |rows|
      invariant forall j :: 0 <= j < |rows| ==>
                  column[j] == if j < i then LabelAfter(rows, e + 1, j) else LabelAfter(rows, e, j)
    {
      if rows[i].seg.stopSegment == target {
        column[i] := rows[e].eventType;
      }
    }
  }

  /** The rows of one segment always share their label: an event labels
      a segment as a whole. */
  lemma {:induction false} WholeSegmentLabelled(rows: seq<EventRow>, n: nat, i: nat, j: nat)
    requires n <= |rows| && i < |rows| && j < |rows|
    requires rows[i].seg.stopSegment == rows[j].seg.stopSegment
    ensures LabelAfter(rows, n, i) == LabelAfter(rows, n, j)
  {
    if n > 0 {
      WholeSegmentLabelled(rows, n - 1, i, j);
    }
  }

  /** Of the events that target a row's segment, the last one sets its
      label. */
  lemma {:induction false} LastEventWins(rows: seq<EventRow>, n: nat, e: nat, i: nat)
    requires e < n <= |rows| && i < |rows|
    requires EventTarget(rows, e) > 0 && EventTarget(rows, e) == rows[i].seg.stopSegment
    requires forall e' :: e < e' < n ==> EventTarget(rows, e') != rows[i].seg.stopSegment
    ensures LabelAfter(rows, n, i) == rows[e].eventType
  {
    if e < n - 1 {
      LastEventWins(rows, n - 1, e, i);
    }
  }

  /** A row whose segment no event targets keeps label 0; in particular a
      row outside every segment (`stop_segment == 0`) is never labeled. */
  lemma {:induction false} UntargetedKeepsZero(rows: seq<EventRow>, n: nat, i: nat)
    requires n <= |rows| && i < |rows|
    requires forall e :: 0 <= e < n ==> EventTarget(rows, e) == 0 || EventTarget(rows, e) != rows[i].seg.stopSegment
    ensures LabelAfter(rows, n, i) == 0
  {
    if n > 0 {
      UntargetedKeepsZero(rows, n - 1, i);
    }
  }

  /** `is_stopped` agrees with `stop_segment`, as `identify_stop_segments`
      leaves it. */
  ghost predicate StopFlagsAgree(rows: seq<EventRow>)
  {
    forall i :: 0 <= i < |rows| ==> rows[i].seg.isStopped == if rows[i].seg.stopSegment > 0 then 1 else 0
  }

  /** On such a table a label is nonzero only on a stopped row, and is 1
      or 2. */
  lemma LabelsOnlyOnStoppedRows(rows: seq<EventRow>, i: nat)
    requires StopFlagsAgree(rows) && i < |rows|
    ensures Labeled(rows)[i].rowLabel <= 2
    ensures Labeled(rows)[i].rowLabel > 0 ==> Labeled(rows)[i].isStopped == 1
  {
  }

  function EventRowAt(t: int, stopSegment: nat, eventType: nat): EventRow
  {
    EventRow(SegmentedRow(BaseRow(t, 0.0, 0.0, 0.0, 0, 0), stopSegment, if stopSegment > 0 then 1 else 0),
             StatusEntry(None, None), "nannan", eventType)
  }

  /** A boarding event 5 s after a stop labels the whole stop 1; the rows
      outside it stay 0. */
  lemma BoardingLabelsPrecedingStop()
    ensures var rows := [EventRowAt(0, 1, 0), EventRowAt(10000, 1, 0), EventRowAt(15000, 0, 1), EventRowAt(20000, 0, 0)];
            seq(4, i requires 0 <= i < 4 => Labeled(rows)[i].rowLabel) == [1, 1, 0, 0]
  {
    var rows := [EventRowAt(0, 1, 0), EventRowAt(10000, 1, 0), EventRowAt(15000, 0, 1), EventRowAt(20000, 0, 0)];
    assert LastStoppedBefore(rows, 15000) == Some(1) by {
      assert LastStoppedBefore(rows[..2], 15000) == Some(1);
      assert rows[..3][..2] == rows[..2];
      assert rows[..4][..3] == rows[..3];
      assert rows[..4] == rows;
    }
    assert EventTarget(rows, 2) == 1;
  }

  /** Two events inside one stop: the boarding event labels it 1, then the
      later alighting event relabels it 2. */
  lemma AlightingOverwritesBoarding()
    ensures var rows := [EventRowAt(0, 1, 0), EventRowAt(5000, 1, 1), EventRowAt(10000, 1, 2),
                         EventRowAt(15000, 1, 0), EventRowAt(20000, 0, 0)];
            seq(5, i requires 0 <= i < 5 => Labeled(rows)[i].rowLabel) == [2, 2, 2, 2, 0]
  {
    var rows := [EventRowAt(0, 1, 0), EventRowAt(5000, 1, 1), EventRowAt(10000, 1, 2),
                 EventRowAt(15000, 1, 0), EventRowAt(20000, 0, 0)];
    assert FirstStoppedAfter(rows, 10000) == Some(3) by {
      assert FirstStoppedAfter(rows[3..], 10000) == Some(0);
      assert rows[1..][1..] == rows[2..] && rows[2..][1..] == rows[3..];
    }
    assert EventTarget(rows, 2) == 1;
  }
}
