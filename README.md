# Taxi telemetry event labeling, modelled in Dafny

This project models the labeling pipeline of the taxi dataset creators. The
pipeline turns trip captures into labeled rows:

- each capture is a JSON document with an `imei`, a `recordDateTime` and a
  list of per-second records carrying speed, GPS, six motion axes and
  turn-signal arrays;
- a status-change log (`change_flag_filled0.csv`) supplies the status codes;
- the rows are labeled 0 (no event), 1 (boarding) or 2 (alighting).

Three variants of the pipeline exist, and all three are modelled.

- **The improved processor** (`src/taxi_data_processor_v2.py`). It is
  modelled by modules `ProcessorV2`, `StopSegments`, `StopSegmentFacts`,
  `EventLabels` and `PipelineV2`.
  - Each capture is flattened into a base table (one row per record) and a
    motion table (one row per sub-sample, 10 ms apart, with short axes
    padded by NaN).
  - Stops are found on the global timeline. They are the maximal low-speed
    runs, cut by gaps of more than 60 s, that have at least two rows, last
    at least 10 s and touch 0 km/h.
  - The status log is joined by timestamp alone. Each row's transition code
    gives it an event type.
  - Each boarding event labels the whole stop before it. Each alighting
    event labels the whole stop after it. A later event overwrites an
    earlier one.
- **The per-sample processor** (`src/taxi_data_processor.py`). It is
  modelled by modules `SampleProcessor`, `CarLabels`, `SampleDataset` and
  `DatasetSplit`.
  - It emits one row per motion sub-sample, with its `sample_index`.
  - It joins the log on `(car_id, time_stamp)`. Transition codes pair a
    row's status with the previous row of the same car.
  - It overwrites the label column in stages, then sorts by car and time.
  - It splits every car's rows at `int(n * train_ratio)` into train and
    test tables.
- **The per-record processor** (`taxi_data_processor.py`). It is modelled by
  modules `RecordProcessor`, `CarLabels`, `RecordDataset` and
  `DatasetSplit`.
  - It emits one row per record.
  - It reduces each turn-signal array by strict majority.
  - Its labeling and split are the same as the per-sample processor's.

Shared parts:

- `Telemetry` holds the capture documents and the field decoders.
- `StatusCodes` holds the two 27-code transition tables and the staged
  label rule.
- `Sorting` holds a stable sort that stands in for `sort_values`.
- `Common` holds options, results, Python slicing and concatenation.

Each foreign decoder is modelled by its outcome. A JSON field is `Missing`,
`Parsed(value)` or `Malformed` (the decoder raised). NaN is `None`.
Timestamps are integer milliseconds, since `pd.Timestamp(ms, unit='ms')`
followed by `// 10**6` gives back the millisecond value. The capture list
and the status log are parameters. A missing log file is `None`.

Notes on how the code behaves, which the model follows:

- The transition code is the current status, zero-padded, followed by the
  previous one (`src/taxi_data_processor_v2.py:241-242`). It is not
  previous-then-current.
- A car's first row is still coded. Its previous status is NaN, so the
  code begins or ends in `nan`. `StatusCodes.NoTransitionWithoutChange`
  shows that such a code is in neither table.
- The improved processor detects stops and codes transitions over one
  timeline for all cars. It does not work per vehicle.
- In the per-car processors, the "previous row of the same car" is taken in
  concatenation order, before the final sort. It is not taken in time order.
- A boarding event looks for the last stopped row strictly before it. An
  alighting event looks for the first stopped row strictly after it. No
  segment that ends or starts at the event's own timestamp is chosen.
- The improved processor drops `stop_segment` from its output. It keeps
  `is_stopped` and `label`. Its base table is sorted by time only.

## Model

| member | source | states |
|---|---|---|
| Telemetry.ParseTimestamp | src/taxi_data_processor_v2.py:45-49 | A timestamp is produced exactly when the capture date parses and `timeStamp` does not fail to decode; an absent `timeStamp` gives 0 |
| Telemetry.TimestampIgnoresDate | taxi_data_processor.py:50-56 | Any two parseable capture dates give the same timestamp, which is the `timeStamp` milliseconds alone (0 when absent) |
| Telemetry.FloatOrZero | src/taxi_data_processor_v2.py:104-107 | `float(record.get(key, 0))` fails exactly on a malformed field |
| Telemetry.UndecodedAxesGiveOneSample | src/taxi_data_processor_v2.py:51-57 | A record whose six axis fields are all absent or undecodable still yields exactly one sub-sample, NaN on every axis |
| Telemetry.SampleCount | src/taxi_data_processor_v2.py:121-122 | The sub-sample count is at least 1, covers every axis, and is the length of some axis unless all are empty |
| Telemetry.AxisAt | src/taxi_data_processor_v2.py:131-136 | An axis value is present exactly when the index is inside the axis |
| Telemetry.DropNaNOfPadded | src/taxi_data_processor_v2.py:131-136 | Removing the NaN cells from the first `n` padded cells of an axis gives back the axis' first `n` elements |
| Telemetry.PaddingRoundTrip | src/taxi_data_processor_v2.py:121-136 | Over a record's sub-samples, each axis column with its NaN cells removed is the decoded axis: padding neither invents nor drops a value |
| Telemetry.Reduce | src/taxi_data_processor_v2.py:97-98 | A reduced turn signal is 0 or 1; any-nonzero is on iff the sum is nonzero, majority is on iff twice the sum exceeds the length |
| Telemetry.BlinkerFlags | src/taxi_data_processor_v2.py:94-101 | Each flag is 0 or 1, and is 1 exactly when neither array fails to decode and its own array is present and reduces to 1; an absent array (`'[0]'`) is off under both rules |
| Telemetry.AnyNonzeroMeansSomeFlag | src/taxi_data_processor.py:115-124 | On a 0/1 array the any-nonzero flag is on exactly when some entry is 1 |
| Telemetry.MajorityMeansMoreThanHalf | taxi_data_processor.py:133-142 | On a 0/1 array the majority flag is on exactly when more than half the entries are 1; an exactly half-on array is off; majority on implies any-nonzero on |
| StatusCodes.NatText | src/taxi_data_processor_v2.py:241-242 | `str(n)` is a non-empty run of digits, at least two for n >= 10 and three for n >= 100 |
| StatusCodes.ZFill2 | src/taxi_data_processor_v2.py:241-242 | `zfill(2)` yields at least two characters |
| StatusCodes.TransitionCode | src/taxi_data_processor_v2.py:241-242 | A transition code has at least four characters |
| StatusCodes.PaddedDigits | src/taxi_data_processor_v2.py:241-242 | A status pads to two digits exactly when it is a code in 0..99, and the two digits spell it |
| StatusCodes.CodePairOfTransition | src/taxi_data_processor_v2.py:241-242 | A transition code spells a pair exactly when both statuses are in 0..99, and then it spells (current, previous) in that order |
| StatusCodes.GetOnPairs | src/taxi_data_processor_v2.py:26-30 | Every boarding code spells a (current, previous) pair from {0,1,2,4,5,6,8,13,15} x {3,12,14} |
| StatusCodes.GetOffPairs | src/taxi_data_processor_v2.py:32-36 | Every alighting code spells a pair from {3,12,14} x {0,1,2,4,5,6,8,13,15} |
| StatusCodes.GetOnCovers | src/taxi_data_processor_v2.py:26-30 | Every pair from {0,1,2,4,5,6,8,13,15} x {3,12,14} has its code in the boarding table |
| StatusCodes.GetOffCovers | src/taxi_data_processor_v2.py:32-36 | Every pair from {3,12,14} x {0,1,2,4,5,6,8,13,15} has its code in the alighting table |
| StatusCodes.GetOnMeaning | src/taxi_data_processor_v2.py:26-30 | A transition is a boarding code iff the current status is in {0,1,2,4,5,6,8,13,15} and the previous one in {3,12,14} |
| StatusCodes.GetOffMeaning | src/taxi_data_processor_v2.py:32-36 | A transition is an alighting code iff the current status is in {3,12,14} and the previous one in {0,1,2,4,5,6,8,13,15} |
| StatusCodes.TablesDisjoint | src/taxi_data_processor_v2.py:26-36 | The boarding and alighting tables share no code |
| StatusCodes.NoTransitionWithoutChange | src/taxi_data_processor_v2.py:241-248 | An unchanged status, or a first row whose previous status is NaN, is in neither table |
| StatusCodes.StagedLabelPrecedence | src/taxi_data_processor_v2.py:245-248 | After the three overwrites the label is 2 iff the code is an alighting code; 1 iff not that and a boarding code or a change flag of 1; 0 otherwise |
| StatusCodes.LabelOfTransition | src/taxi_data_processor.py:204-220 | The staged label, stated directly over the current and previous status codes and the change flag |
| StatusCodes.LabelColumn | src/taxi_data_processor_v2.py:245-248 | The masked overwrites of the whole column leave every row with its staged label |
| ProcessorV2.ParseRecord | src/taxi_data_processor_v2.py:81-118 | A record decodes exactly when its timestamp, speed, latitude, longitude, altitude and heading all convert |
| ProcessorV2.MotionRowsOf | src/taxi_data_processor_v2.py:121-138 | A record yields `max(len(axes), 1)` motion rows |
| ProcessorV2.ParseAll | src/taxi_data_processor_v2.py:81-118 | The records decode as a whole iff each decodes, and then in order, one to one |
| ProcessorV2.ProcessJsonFile | src/taxi_data_processor_v2.py:59-144 | The nested append loops produce exactly the base and motion tables of the capture, or two empty tables on an exception |
| ProcessorV2.AppendMotionRows | src/taxi_data_processor_v2.py:125-138 | The inner loop appends the record's motion rows in order |
| ProcessorV2.EmptyCaptures | src/taxi_data_processor_v2.py:74-75 | An unreadable capture, a missing or empty `data`, or one record that fails to convert yields two empty tables |
| ProcessorV2.OneBaseRowPerRecord | src/taxi_data_processor_v2.py:81-118 | Otherwise the base table holds one row per record, in record order |
| ProcessorV2.MotionRowsPerRecord | src/taxi_data_processor_v2.py:121-138 | Record `k` owns the `SampleCount` consecutive motion rows from `Offset(MotionTables, k)` up to record `k + 1`'s offset; row `i` is stamped 10·i ms after the record and holds element `i` of each axis or NaN; the table's length is the sum of the per-record counts |
| ProcessorV2.MotionEmptyIffBaseEmpty | src/taxi_data_processor_v2.py:121-138 | A capture's motion table is empty exactly when its base table is |
| StopSegments.AppendRun | src/taxi_data_processor_v2.py:193-194 | Appending a closed maximal run keeps the runs ordered, maximal, and covering what they covered plus the new run |
| StopSegments.FindLowSpeedRuns | src/taxi_data_processor_v2.py:167-199 | The `in_low_speed`/`start_idx` scan returns the maximal low-speed runs: gap-free, in order, not overlapping, unextendable at either end, and covering every low-speed row |
| StopSegments.ScanStep | src/taxi_data_processor_v2.py:172-195 | One turn of the scan (gap close, open, close) keeps the scan's invariant and appends at most the run it closes |
| StopSegments.CloseRunAt | src/taxi_data_processor_v2.py:179-184 | Closing the open run before a gap or a fast row keeps the scan's invariant with no open run |
| StopSegments.FillRun | src/taxi_data_processor_v2.py:216-218 | The run's rows get the id and `is_stopped = 1`; every other row is unchanged |
| StopSegments.MarkRun | src/taxi_data_processor_v2.py:202-218 | One turn of the second loop hands the next id to a qualifying run, marks its rows, and keeps the count of qualifying runs |
| StopSegments.MarkStep | src/taxi_data_processor_v2.py:213-218 | Marking run `k` raises the count by one exactly when it qualifies and changes only that run's rows |
| StopSegments.MarkSegments | src/taxi_data_processor_v2.py:201-218 | Each row of a run holds the run's id (its rank among qualifying runs, 0 if it does not qualify), every other row 0, and `is_stopped` is 1 iff the id is positive |
| StopSegments.AllRunsMarked | src/taxi_data_processor_v2.py:201-218 | After all runs, each run's rows hold its id and uncovered rows 0 |
| StopSegments.StoppedRowsAreLow | src/taxi_data_processor_v2.py:153-154 | A row with a positive id is slower than the threshold |
| StopSegments.IdentifyStopSegments | src/taxi_data_processor_v2.py:146-223 | Every row is kept, in time order; `is_stopped` is 1 iff `stop_segment` > 0; stopped rows are slow; the ids number the qualifying maximal low-speed runs |
| StopSegmentFacts.CountQualifyingMonotone | src/taxi_data_processor_v2.py:213-214 | The number of ids handed out never decreases along the scan |
| StopSegmentFacts.SegmentIdPositive | src/taxi_data_processor_v2.py:205-214 | A run gets a positive id iff it has at least two rows, lasts at least 10 s and touches 0 km/h |
| StopSegmentFacts.SegmentIdsIncrease | src/taxi_data_processor_v2.py:213-214 | Ids increase strictly in time order, so no two segments share one |
| StopSegmentFacts.SegmentIdsDense | src/taxi_data_processor_v2.py:213-214 | Every id from 1 to the number of segments is used |
| StopSegmentFacts.SegmentIdBound | src/taxi_data_processor_v2.py:213-214 | No id exceeds the number of segments |
| StopSegmentFacts.StoppedIffInQualifyingRun | src/taxi_data_processor_v2.py:213-218 | A row is stopped iff it lies in a qualifying run |
| StopSegmentFacts.SameIdSameRun | src/taxi_data_processor_v2.py:276-277 | Rows sharing a positive id lie in one qualifying run, so `stop_segment == s` selects exactly one stop |
| StopSegmentFacts.OrderedSameRunsEqual | src/taxi_data_processor_v2.py:168-199 | Two ordered run lists holding the same runs are equal |
| StopSegmentFacts.RunDecompositionUnique | src/taxi_data_processor_v2.py:168-199 | The maximal low-speed runs of a table are unique, so the ids depend on the sorted rows alone |
| StopSegmentFacts.SegmentationUnique | src/taxi_data_processor_v2.py:146-223 | Two outputs of stop detection that order the rows alike carry the same ids and flags |
| StopSegmentFacts.ShortDipHasNoStop | src/taxi_data_processor_v2.py:205-213 | A 2-second dip to 0 km/h forms one run that is not a stop |
| StopSegmentFacts.LongStopIsOneSegment | src/taxi_data_processor_v2.py:202-218 | A one-minute slow stretch through 0 km/h is exactly stop 1 |
| StopSegmentFacts.GapSplitsStop | src/taxi_data_processor_v2.py:176-184 | A 70-second gap cuts a standstill into stops 1 and 2 |
| EventLabels.Merge | src/taxi_data_processor_v2.py:231-237 | The left join keeps one row per input row |
| EventLabels.ApplyEventLabels | src/taxi_data_processor_v2.py:225-250 | Every row is kept once, in time order, with the log entry of its own timestamp, the code of its status and the previous row's, and the staged event type; time-sorted input keeps its order and yields exactly `EventTable` |
| EventLabels.EventTableUnique | src/taxi_data_processor_v2.py:225-250 | A table that keeps the rows, joins each row's own entry, codes each status with its predecessor's and stages the event type is `EventTable` |
| EventLabels.JoinedInTimeOrder | src/taxi_data_processor_v2.py:231-240 | Joining then sorting by time equals sorting then joining: a permutation of the input rows, in time order, each with its own log entry |
| EventLabels.ClassifyEvents | src/taxi_data_processor_v2.py:241-248 | Each row's code pairs its status with the previous row's status, and its event type is the staged label of that code and its change flag |
| EventLabels.CodesFollowStatuses | src/taxi_data_processor_v2.py:241-242 | The `status_change` column is coded from each row's status and its predecessor's |
| EventLabels.LastStoppedBefore | src/taxi_data_processor_v2.py:268-273 | Finds a stopped row strictly before the event with no later such row, or reports that none exists |
| EventLabels.FirstStoppedAfter | src/taxi_data_processor_v2.py:281-286 | Finds a stopped row strictly after the event with no earlier such row, or reports that none exists |
| EventLabels.EventTarget | src/taxi_data_processor_v2.py:262-290 | A positive target comes from a boarding or alighting event and is the segment of the last stopped row before it, or of the first stopped row after it |
| EventLabels.EventTargetOfEvent | src/taxi_data_processor_v2.py:269-286 | Conversely, a boarding event targets the segment of the last stopped row before it, and an alighting event that of the first stopped row after it |
| EventLabels.NothingOnItsSide | src/taxi_data_processor_v2.py:269-286 | An event with no stopped row on its side targets nothing |
| EventLabels.LabelAfter | src/taxi_data_processor_v2.py:254-290 | A label is at most 2 and is only ever written on a row of a segment |
| EventLabels.LabelStopSegments | src/taxi_data_processor_v2.py:252-298 | The output is the time-sorted rows with every event applied in order |
| EventLabels.LabelInOrder | src/taxi_data_processor_v2.py:262-290 | The event loop over the label column leaves each row with the label of all events applied in order |
| EventLabels.LabelSegment | src/taxi_data_processor_v2.py:274-277 | The masked write labels every row of the target segment and no other |
| EventLabels.NoTargetKeepsLabels | src/taxi_data_processor_v2.py:269-274 | An event with no stopped row on its side changes no label |
| EventLabels.WholeSegmentLabelled | src/taxi_data_processor_v2.py:276-277 | Rows of one segment always share their label |
| EventLabels.LastEventWins | src/taxi_data_processor_v2.py:262-290 | Of the events that target a segment, the last one sets its label |
| EventLabels.UntargetedKeepsZero | src/taxi_data_processor_v2.py:254 | A row whose segment no event targets keeps label 0 |
| EventLabels.LabelsOnlyOnStoppedRows | src/taxi_data_processor_v2.py:254-290 | Labels are in 0..2 and nonzero only on stopped rows |
| EventLabels.BoardingLabelsPrecedingStop | src/taxi_data_processor_v2.py:266-277 | A boarding 5 s after a stop labels that whole stop 1 and nothing else |
| EventLabels.AlightingOverwritesBoarding | src/taxi_data_processor_v2.py:279-290 | A later alighting event inside a stop relabels the whole stop 2 |
| PipelineV2.SelectFiles | src/taxi_data_processor_v2.py:315-316 | `json_files[:max_files]` is a prefix of the list, all of it without a cap |
| PipelineV2.CreateDataset | src/taxi_data_processor_v2.py:300-357 | The three errors in their order; otherwise the base table holds exactly the captures' base rows, in time order; a row is stopped exactly when it lies in a qualifying maximal low-speed run; the labels are `Labeled(EventTable(...))` of a stop detection of those rows (0..2, nonzero only on stopped rows); the motion table holds exactly their motion rows, in time order |
| PipelineV2.FinishDataset | src/taxi_data_processor_v2.py:345-357 | The stages after the log is read: the same facts about the labeled and motion tables, given the detected rows |
| PipelineV2.LabelEvents | src/taxi_data_processor_v2.py:348-354 | The labeling stages keep the detector's rows, order and stop flags, and the labels are exactly `Labeled(EventTable(segmented, log))` |
| PipelineV2.LabeledStops | src/taxi_data_processor_v2.py:146-223 | In the labeled table, `is_stopped` marks exactly the rows of the qualifying maximal low-speed runs of its rows |
| PipelineV2.CollectTables | src/taxi_data_processor_v2.py:321-336 | The kept tables are non-empty and concatenate to all rows of all captures |
| PipelineV2.MotionFollowsBase | src/taxi_data_processor_v2.py:336 | Whenever some capture yields base rows the motion table is non-empty |
| PipelineV2.LabeledOutput | src/taxi_data_processor_v2.py:348-354 | Labeling equals `Labeled` of the event table, keeps rows, flags and time order, and labels only stopped rows |
| SampleProcessor.ParseRecord | src/taxi_data_processor.py:100-124 | A record decodes exactly when its timestamp and speed convert; its flags are the any-nonzero flags and its axes the decoded arrays |
| SampleProcessor.RecordSamples | src/taxi_data_processor.py:127-146 | A record yields `max(len(axes), 1)` rows |
| SampleProcessor.ParsedRecords | src/taxi_data_processor.py:100-124 | One decoded record per record |
| SampleProcessor.ProcessJsonFile | src/taxi_data_processor.py:75-152 | The nested loops produce exactly the capture's sample table, or an empty one on an exception |
| SampleProcessor.AppendSubSamples | src/taxi_data_processor.py:131-146 | The inner loop appends one row per sub-sample, in order |
| SampleProcessor.EmptySamples | src/taxi_data_processor.py:95-96 | The table is empty exactly when the capture is unreadable, has no records, or a record's timestamp or speed fails |
| SampleProcessor.SamplesPerRecord | src/taxi_data_processor.py:127-146 | Record `k` owns consecutive rows; row `i` has `sample_index` i, the record's car, timestamp, speed and flags, and element `i` of each axis or NaN; nothing else is in the table |
| SampleProcessor.SampleAtOffset | src/taxi_data_processor.py:131-146 | Sub-sample `i` of record `k` sits at the record's offset plus `i` |
| SampleProcessor.ConsecutiveSubSamples | src/taxi_data_processor.py:131-146 | Sub-sample `i > 0` directly follows sub-sample `i - 1` with the same car and timestamp |
| SampleProcessor.RowsOfOneCapture | src/taxi_data_processor.py:131-146 | Every row carries the capture's `imei`, a record's timestamp, an index below that record's count, and 0/1 flags |
| RecordProcessor.ParseRecord | taxi_data_processor.py:113-142 | A record decodes exactly when its timestamp and speed convert, into its car, timestamp, speed and majority flags |
| RecordProcessor.ProcessJsonFile | taxi_data_processor.py:89-150 | The loop produces exactly the capture's row table, or an empty one on an exception |
| RecordProcessor.OneRowPerRecord | taxi_data_processor.py:108-144 | The table is empty exactly in the failure cases; otherwise row `k` is record `k`, decoded |
| CarLabels.LastOfCar | src/taxi_data_processor.py:212-214 | Finds the last earlier row of the same car, or reports that there is none |
| CarLabels.StatusChanges | src/taxi_data_processor.py:212-214 | One code per row |
| CarLabels.LabeledTable | src/taxi_data_processor.py:203-220 | Every row keeps its place and gains a label |
| CarLabels.StringLeTotal | src/taxi_data_processor.py:228 | Any two car ids compare |
| CarLabels.StringLeAntisymmetric | src/taxi_data_processor.py:228 | Car ids that compare both ways are equal |
| CarLabels.StringLeTransitive | src/taxi_data_processor.py:228 | Car id order is transitive |
| CarLabels.KeyLeTotalPreorder | src/taxi_data_processor.py:228 | Car-then-time order is a total preorder |
| CarLabels.LabelAndSort | src/taxi_data_processor.py:203-228 | The output holds exactly the labeled rows, sorted by car and then time |
| CarLabels.RowLabelMeaning | src/taxi_data_processor.py:204-220 | A row's label over its own status and its car's previous status: 2 on an alighting pair, else 1 on a boarding pair or change flag 1, else 0 |
| CarLabels.NoTransitionNoEvent | src/taxi_data_processor.py:212-220 | A car's first row, or a row repeating its car's previous status, is labeled by its change flag only |
| CarLabels.RepeatedKeyKeepsFlag | src/taxi_data_processor.py:212-220 | A row with the key of the row just before it is labeled by its change flag only |
| CarLabels.RepeatedRowKeepsFlag | src/taxi_data_processor.py:212-220 | The same, stated on a table of rows |
| CarLabels.SingleCarIsGlobalShift | src/taxi_data_processor.py:212-214 | With one car the per-car shift is the plain shift by one row |
| CarLabels.LastOfCarSkipping | src/taxi_data_processor.py:212-214 | Removing another car's row only shifts the last-row search of a car |
| CarLabels.OtherCarsIgnored | src/taxi_data_processor.py:212-214 | Removing a row of another car leaves a row's label unchanged |
| SampleDataset.Tables | src/taxi_data_processor.py:169-174 | One table per capture file |
| SampleDataset.CreateDataset | src/taxi_data_processor.py:154-230 | The three errors in their order; otherwise exactly the labeled rows of the concatenated tables, sorted by car and time |
| SampleDataset.LaterSubSamplesOnlyFlagged | src/taxi_data_processor.py:212-220 | Every sub-sample after a record's first repeats the previous row's key, so only its change flag can label it |
| SampleDataset.SaveDataset | src/taxi_data_processor.py:232-256 | The errors of `create_dataset`; otherwise the full table and a split whose train and test tables hold each car's head and tail and together all rows |
| RecordDataset.Tables | taxi_data_processor.py:167-172 | One table per capture file |
| RecordDataset.CreateDataset | taxi_data_processor.py:152-224 | The three errors in their order; otherwise exactly the labeled rows of the concatenated tables, sorted by car and time |
| RecordDataset.SaveDataset | taxi_data_processor.py:226-250 | The errors of `create_dataset`; otherwise the full table and its lossless per-car split |
| DatasetSplit.Filter | src/taxi_data_processor.py:248 | A car's rows are rows of the table, all of that car |
| DatasetSplit.UniqueCars | src/taxi_data_processor.py:247 | Each car once, every row's car present, and each listed car has rows |
| DatasetSplit.TruncToInt | src/taxi_data_processor.py:251 | `int()` truncates toward zero: the result never has the opposite sign of `x` and lies within 1 of it on the side of zero (at most `x` when `x >= 0`, at least `x` when `x < 0`) |
| DatasetSplit.FilterAppend | src/taxi_data_processor.py:248 | Filtering distributes over concatenation |
| DatasetSplit.FilterOfOneCar | src/taxi_data_processor.py:248 | Rows of one car are kept whole by its filter and dropped by any other |
| DatasetSplit.FilterCount | src/taxi_data_processor.py:248 | A row occurs in its car's filter as often as in the table |
| DatasetSplit.SameCarsSameRows | src/taxi_data_processor.py:247-248 | Tables whose per-car rows agree hold the same rows |
| DatasetSplit.SplitByCar | src/taxi_data_processor.py:243-256 | Fails exactly on an empty table; otherwise train holds exactly each car's head and test each car's tail, in order, and together they hold every row |
| DatasetSplit.CollectStep | src/taxi_data_processor.py:252-253 | Appending a car's part gives that car its part and leaves the other cars unchanged |
| DatasetSplit.PartsOfCar | src/taxi_data_processor.py:248-253 | A car's head and tail hold only that car's rows |
| DatasetSplit.WholeSplit | src/taxi_data_processor.py:255-256 | The collected tables hold exactly each car's head and tail and together every row |
| DatasetSplit.AppendPart | src/taxi_data_processor.py:252-253 | Appending a car's part extends only that car's rows |
| DatasetSplit.TrainIsLeadingShare | src/taxi_data_processor.py:250-253 | With a ratio in [0, 1], train gets the first `floor(n·ratio)` rows of each car and test the rest |
| DatasetSplit.ShareOfRows | src/taxi_data_processor.py:251 | `int(n·ratio)` is `floor(n·ratio)` and lies in 0..n for a ratio in [0, 1] |
| DatasetSplit.LargeRatioTrainsAll | src/taxi_data_processor.py:251-253 | A ratio of at least 1 sends every row to training |
| DatasetSplit.AtLeastAll | src/taxi_data_processor.py:251 | `int(n·ratio)` is at least n once the ratio reaches 1 |
| Sorting.Insert | src/taxi_data_processor_v2.py:354 | Insertion adds exactly one element |
| Sorting.SortBy | src/taxi_data_processor_v2.py:354 | Sorting keeps exactly the elements |
| Sorting.InsertSorted | src/taxi_data_processor_v2.py:354 | Inserting into a sorted sequence keeps it sorted |
| Sorting.SortBySorted | src/taxi_data_processor_v2.py:354 | `sort_values` returns a sorted permutation of its input |
| Sorting.SortBySortedIsIdentity | src/taxi_data_processor_v2.py:257 | Re-sorting a sorted table leaves it unchanged |
| Sorting.SortByMap | src/taxi_data_processor_v2.py:240 | Sorting commutes with a row-wise join that keeps the sort key |
| Common.SliceHead | src/taxi_data_processor.py:252 | `seq[:k]` is always a prefix: of length `k` for `0 <= k <= len`, the whole sequence past the end, and for negative `k` it drops `-k` elements from the end, or all of them |
| Common.SliceTail | src/taxi_data_processor.py:253 | `seq[:k] + seq[k:]` is the sequence |
| Common.FlattenAt | src/taxi_data_processor_v2.py:335 | Row `i` of table `k` sits at the table's offset plus `i` in the concatenation |
| Common.FlattenTotal | src/taxi_data_processor_v2.py:335 | The concatenation's length is the sum of the tables' lengths |
| Common.FlattenMember | src/taxi_data_processor_v2.py:335 | Every row of the concatenation comes from one of the tables |
| Common.FlattenOfNonEmpty | src/taxi_data_processor_v2.py:331-335 | Non-empty tables concatenate to nothing only when there are none |
| Common.KeepNonEmptyStep | src/taxi_data_processor_v2.py:326-329 | Skipping empty tables does not change the concatenation |

## Left out

- File and CSV I/O, `glob`, `tqdm` and printing are left out. The capture list (in `glob` order) and the status log are parameters. A missing log file is `None`. The CSV writes and the printed statistics of `save_dataset` are not modelled. In the improved processor, `save_dataset` does only those, so it has no member.
- JSON decoding, `float()`, `int()` and `datetime.strptime` are foreign library calls. Each is modelled by its outcome per field (`Missing`, `Parsed`, `Malformed`). Which exception is raised, and in what order within a record, is not modelled, because any of them drops the whole capture.
- Floating-point values are modelled as mathematical reals. A NaN speed, and `float()` of `inf`, are not modelled. `speed < threshold` and `speed == 0` are exact comparisons.
- `extract_array_features` (the per-axis mean, max, min, standard deviation and median of the per-record processor) is numpy floating-point statistics. It is not modelled. `RecordProcessor.ParseRecord` keeps the car, timestamp, speed and turn-signal columns only.
- RecordProcessor.ParseRecord: does not model the summary-statistics columns, for the reason above.
- The status log is a map with unique keys: `time_stamp` for the improved processor, `(car_id, time_stamp)` for the others. A pandas left join with duplicate log keys would multiply rows. That case is not modelled.
- Status codes are optional integers, and the model pads the integer's decimal text. In pandas, `shift(1)` always turns the integer status column into floats, with NaN on the first row (`src/taxi_data_processor_v2.py:242`, `src/taxi_data_processor.py:213`, `taxi_data_processor.py:207`). So the previous half of every code is text such as `"3.0"` or `"nan"`, and the current half becomes such text too once the left join leaves a NaN. As written, no code can equal a four-digit table entry. Only `change_flag == 1` ever sets a label or event type, and label 2 never occurs. The model's transition labels are the evidently intended behaviour, not the as-written one.
- The root processor joins without casting `car_id` to `str`. If the log's `car_id` column is read as integers while the captures' `imei` values are text, pandas raises `ValueError` on the merge. That failure is not modelled. Car ids are strings on both sides, as in the per-car processor under `src/`, which casts both.
- `pd.Timestamp` range limits and 64-bit overflow of the millisecond values are not modelled. Timestamps are unbounded integers.
- Sorting.SortBy: the model sorts stably, by insertion. The multi-column `sort_values(['car_id', 'timestamp'])` of the per-car processors is stable in pandas, so there the model matches. The single-column `sort_values('timestamp')` of the improved processor uses an unstable quicksort. Rows with equal timestamps may then come out in another order than the model's. That order matters: on the one timeline, it decides where low-speed runs break. For example, take rows at t-1 (5 km/h), then A at t (5) and B at t (20), then t+1 (5). Order A, B gives runs [t-1, A] and [t+1, ...]; order B, A gives [t-1] and [A, t+1, ...]. So which stops qualify and which rows get labels can differ. The model states the improved processor's output for the stable order only. `StopSegmentFacts.SegmentationUnique` shows that ids and flags are determined once the row order is. The re-sorts in `apply_event_labels` and `label_stop_segments` leave an already sorted table unchanged in the model.
- The `if 'status_management' in merged_df.columns` guard of the per-car processors is always true after the join. The model always takes that branch.
- The setup script and the test and analysis scripts are not part of this model. They are subprocess calls, data-directory scripts and descriptive statistics.
