/** `process_json_file` of the improved processor: one capture becomes a
    base table (one row per record) and a motion table (one row per
    sub-sample, 10 ms apart). Any exception drops the whole capture. */
module ProcessorV2 {
  import opened Common
  import opened Telemetry

  /** Sub-samples are taken at 100 Hz. */
  const SampleSpacingMs := 10

  /** A row of the base table. */
  datatype BaseRow = BaseRow(
    timestamp: int,
    speed: real,
    latitude: real,
    longitude: real,
    rightBlinker: int,
    leftBlinker: int)

  /** A row of the motion (acceleration) table; NaN is `None`. */
  datatype MotionRow = MotionRow(timestamp: int, values: Axes<Option<real>>)

  /** What one record yields once every field has been decoded. */
  datatype ParsedRecord = ParsedRecord(base: BaseRow, axes: Axes<seq<real>>)

  /** Decodes one record; `None` when a field conversion raises (the
      timestamp, speed or one of the four GPS fields). */
  function ParseRecord(recordDateTime: Field<CivilTime>, r: Record): (p: Option<ParsedRecord>)
    ensures p.None? <==>
              ParseTimestamp(recordDateTime, r.timeStamp).None? || r.speed.Malformed? ||
              r.latitude.Malformed? || r.longitude.Malformed? ||
              r.altitude.Malformed? || r.heading.Malformed?
  {
    var timestamp := ParseTimestamp(recordDateTime, r.timeStamp);
    var speed := FloatOrZero(r.speed);
    var axes := DecodeAxes(r.motion);
    var (right, left) := BlinkerFlags(AnyNonzero, r.rightBlinker, r.leftBlinker);
    var latitude := FloatOrZero(r.latitude);
    var longitude := FloatOrZero(r.longitude);
    var altitude := FloatOrZero(r.altitude);
    var heading := FloatOrZero(r.heading);
    if timestamp.None? || speed.None? || latitude.None? || longitude.None? ||
       altitude.None? || heading.None?
    then None
    else Some(ParsedRecord(
      BaseRow(timestamp.value, speed.value, latitude.value, longitude.value, right, left),
      axes))
  }

  /** The motion rows of one record: sub-sample `i` is stamped `10 * i` ms
      after the record. */
  function MotionRowsOf(p: ParsedRecord): (rows: seq<MotionRow>)
    ensures |rows| == SampleCount(p.axes)
  {
    seq(SampleCount(p.axes), i requires 0 <= i => MotionRow(p.base.timestamp + SampleSpacingMs * i, SampleAt(p.axes, i)))
  }

  /** Decodes the records in order; `None` as soon as one raises. */
  function ParseAll(recordDateTime: Field<CivilTime>, records: seq<Record>): (ps: Option<seq<ParsedRecord>>)
    ensures ps.Some? <==> forall k :: 0 <= k < |records| ==> ParseRecord(recordDateTime, records[k]).Some?
    ensures ps.Some? ==> (|ps.value| == |records| &&
              forall k :: 0 <= k < |records| ==> ParseRecord(recordDateTime, records[k]) == Some(ps.value[k]))
  {
    if records == [] then Some([])
    else
      var init := records[..|records| - 1];
      match ParseAll(recordDateTime, init)
      case None => None
      case Some(front) =>
        match ParseRecord(recordDateTime, records[|records| - 1])
        case None => None
        case Some(p) => Some(front + [p])
  }

  function BaseRowsOf(ps: seq<ParsedRecord>): (rows: seq<BaseRow>)
    ensures |rows| == |ps|
  {
    seq(|ps|, k requires 0 <= k < |ps| => ps[k].base)
  }

  function MotionTables(ps: seq<ParsedRecord>): seq<seq<MotionRow>>
  {
    seq(|ps|, k requires 0 <= k < |ps| => MotionRowsOf(ps[k]))
  }

  /** The base and motion tables of one capture file. */
  function FileTables(file: Capture): (seq<BaseRow>, seq<MotionRow>)
  {
    if file.None? || RecordsOf(file.value) == [] then ([], [])
    else
      match ParseAll(file.value.recordDateTime, RecordsOf(file.value))
      case None => ([], [])
      case Some(ps) => (BaseRowsOf(ps), Flatten(MotionTables(ps)))
  }

  /** The loop of `process_json_file`: appends a base row and then the
      record's motion rows, record after record; an exception returns two
      empty tables. */
  method ProcessJsonFile(file: Capture) returns (base: seq<BaseRow>, motion: seq<MotionRow>)
    ensures (base, motion) == FileTables(file)
  {
    if file.None? || RecordsOf(file.value) == [] {
      return [], [];
    }
    var records := RecordsOf(file.value);
    var recordDateTime := file.value.recordDateTime;
    base, motion := [], [];
    ghost var parsed: seq<ParsedRecord> := [];
    for k := 0 to |records|
      invariant |parsed| == k
      invariant forall j :: 0 <= j < k ==> ParseRecord(recordDateTime, records[j]) == Some(parsed[j])
      invariant base == BaseRowsOf(parsed)
      invariant motion == Flatten(MotionTables(parsed))
    {
      var p := ParseRecord(recordDateTime, records[k]);
      if p.None? {
        EmptyCaptures(file);
        return [], [];
      }
      var record := p.value;
      base := base + [record.base];
      motion := AppendMotionRows(motion, record);
      RecordStep(parsed, record);
      parsed := parsed + [record];
    }
    ParsedInOrder(recordDateTime, records, parsed);
  }

  /** Records that all decode, to `parsed` in order, make `ParseAll`
      succeed with `parsed`. */
  lemma ParsedInOrder(recordDateTime: Field<CivilTime>, records: seq<Record>, parsed: seq<ParsedRecord>)
    requires |parsed| == |records|
    requires forall j :: 0 <= j < |records| ==> ParseRecord(recordDateTime, records[j]) == Some(parsed[j])
    ensures ParseAll(recordDateTime, records) == Some(parsed)
  {
    var all := ParseAll(recordDateTime, records);
    assert all.Some?;
    assert all.value == parsed;
  }

  /** The inner loop of `process_json_file`: one motion row per sub-sample
      of the record, appended in order. */
  method AppendMotionRows(motion: seq<MotionRow>, record: ParsedRecord) returns (extended: seq<MotionRow>)
    ensures extended == motion + MotionRowsOf(record)
  {
    extended := motion;
    var count := SampleCount(record.axes);
    for i := 0 to count
      invariant extended == motion + MotionRowsOf(record)[..i]
    {
      extended := extended + [MotionRow(record.base.timestamp + SampleSpacingMs * i, SampleAt(record.axes, i))];
    }
    assert MotionRowsOf(record)[..count] == MotionRowsOf(record);
  }

  /** Decoding one more record adds its base row and its motion rows at the
      end of the two tables. */
  lemma RecordStep(parsed: seq<ParsedRecord>, record: ParsedRecord)
    ensures BaseRowsOf(parsed + [record]) == BaseRowsOf(parsed) + [record.base]
    ensures Flatten(MotionTables(parsed + [record])) == Flatten(MotionTables(parsed)) + MotionRowsOf(record)
  {
    assert MotionTables(parsed + [record]) == MotionTables(parsed) + [MotionRowsOf(record)];
    FlattenSnoc(MotionTables(parsed), MotionRowsOf(record));
  }

  /** A capture that cannot be read, has no `data`, has an empty `data`
      list, or has one record whose conversion raises yields two empty
      tables. */
  lemma EmptyCaptures(file: Capture)
    requires file.None? || RecordsOf(file.value) == [] ||
             exists k :: 0 <= k < |RecordsOf(file.value)| &&
               ParseRecord(file.value.recordDateTime, RecordsOf(file.value)[k]).None?
    ensures FileTables(file) == ([], [])
  {
  }

  /** Otherwise the base table has one row per record, in record order. */
  lemma {:induction false} OneBaseRowPerRecord(doc: Document)
    requires forall k :: 0 <= k < |RecordsOf(doc)| ==> ParseRecord(doc.recordDateTime, RecordsOf(doc)[k]).Some?
    ensures |FileTables(Some(doc)).0| == |RecordsOf(doc)|
    ensures forall k :: 0 <= k < |RecordsOf(doc)| ==>
              FileTables(Some(doc)).0[k] == ParseRecord(doc.recordDateTime, RecordsOf(doc)[k]).value.base
  {
  }

  /** Otherwise record `k` owns `SampleCount` consecutive motion rows
      starting at `offset`; row `i` of them is stamped `10 * i` ms after the
      record and holds element `i` of each axis, or NaN past its end. The
      motion table holds nothing else. */
  lemma {:induction false} MotionRowsPerRecord(doc: Document, k: nat, i: nat) returns (offset: nat)
    requires forall j :: 0 <= j < |RecordsOf(doc)| ==> ParseRecord(doc.recordDateTime, RecordsOf(doc)[j]).Some?
    requires k < |RecordsOf(doc)|
    requires i < SampleCount(ParseRecord(doc.recordDateTime, RecordsOf(doc)[k]).value.axes)
    ensures var ps := ParseAll(doc.recordDateTime, RecordsOf(doc)).value;
            offset == Offset(MotionTables(ps), k) &&
            Offset(MotionTables(ps), k + 1) == offset + SampleCount(ps[k].axes)
    ensures offset + i < |FileTables(Some(doc)).1|
    ensures var p := ParseRecord(doc.recordDateTime, RecordsOf(doc)[k]).value;
            FileTables(Some(doc)).1[offset + i] ==
              MotionRow(p.base.timestamp + 10 * i, SampleAt(p.axes, i))
    ensures var ps := ParseAll(doc.recordDateTime, RecordsOf(doc)).value;
            |FileTables(Some(doc)).1| == TotalLength(MotionTables(ps))
  {
    var ps := ParseAll(doc.recordDateTime, RecordsOf(doc)).value;
    var tables := MotionTables(ps);
    FlattenAt(tables, k, i);
    FlattenTotal(tables);
    FlattenLength(tables, k);
    offset := Offset(tables, k);
  }

  /** Every record yields at least one motion row, so a capture's motion
      table is empty exactly when its base table is. */
  lemma {:induction false} MotionEmptyIffBaseEmpty(file: Capture)
    ensures FileTables(file).1 == [] <==> FileTables(file).0 == []
  {
    if file.Some? && RecordsOf(file.value) != [] {
      var doc := file.value;
      var ps := ParseAll(doc.recordDateTime, RecordsOf(doc));
      if ps.Some? {
        var i := MotionRowsPerRecord(doc, 0, 0);
      }
    }
  }
}
