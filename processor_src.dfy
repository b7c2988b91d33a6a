/** `process_json_file` of the processor under src/: one row per motion
    sub-sample, every row of a record repeating the record's car, timestamp,
    speed and turn-signal flags. Any exception drops the whole capture. */
module SampleProcessor {
  import opened Common
  import opened Telemetry

  /** One output row: sub-sample `sampleIndex` of a record. */
  datatype SampleRow = SampleRow(
    carId: string,
    timestamp: int,
    sampleIndex: nat,
    speed: real,
    values: Axes<Option<real>>,
    rightBlinker: int,
    leftBlinker: int)

  /** What one record yields once its fields are decoded. */
  datatype ParsedRecord = ParsedRecord(timestamp: int, speed: real, axes: Axes<seq<real>>, rightBlinker: int, leftBlinker: int)

  /** Decodes one record; `None` when the timestamp or the speed conversion
      raises. Motion arrays and turn signals never raise here. */
  function ParseRecord(recordDateTime: Field<CivilTime>, r: Record): (p: Option<ParsedRecord>)
    ensures p.None? <==> ParseTimestamp(recordDateTime, r.timeStamp).None? || r.speed.Malformed?
    ensures p.Some? ==> (p.value.rightBlinker, p.value.leftBlinker) == BlinkerFlags(AnyNonzero, r.rightBlinker, r.leftBlinker)
    ensures p.Some? ==> p.value.axes == DecodeAxes(r.motion)
  {
    var timestamp := ParseTimestamp(recordDateTime, r.timeStamp);
    var speed := FloatOrZero(r.speed);
    var axes := DecodeAxes(r.motion);
    var (right, left) := BlinkerFlags(AnyNonzero, r.rightBlinker, r.leftBlinker);
    if timestamp.None? || speed.None? then None
    else Some(ParsedRecord(timestamp.value, speed.value, axes, right, left))
  }

  /** The rows of one record, one per sub-sample. */
  function RecordSamples(carId: string, p: ParsedRecord): (rows: seq<SampleRow>)
    ensures |rows| == SampleCount(p.axes)
  {
    seq(SampleCount(p.axes), i requires 0 <= i =>
      SampleRow(carId, p.timestamp, i, p.speed, SampleAt(p.axes, i), p.rightBlinker, p.leftBlinker))
  }

  /** No record of the capture raises. */
  predicate AllParse(doc: Document)
  {
    forall k :: 0 <= k < |RecordsOf(doc)| ==> ParseRecord(doc.recordDateTime, RecordsOf(doc)[k]).Some?
  }

  function ParsedRecords(doc: Document): (ps: seq<ParsedRecord>)
    requires AllParse(doc)
    ensures |ps| == |RecordsOf(doc)|
  {
    seq(|RecordsOf(doc)|, k requires 0 <= k < |RecordsOf(doc)| =>
      ParseRecord(doc.recordDateTime, RecordsOf(doc)[k]).value)
  }

  function SampleTables(carId: string, ps: seq<ParsedRecord>): (tables: seq<seq<SampleRow>>)
    ensures |tables| == |ps|
  {
    seq(|ps|, k requires 0 <= k < |ps| => RecordSamples(carId, ps[k]))
  }

  /** The table of one capture file. */
  function FileSamples(file: Capture): seq<SampleRow>
  {
    if file.None? || RecordsOf(file.value) == [] || !AllParse(file.value) then []
    else Flatten(SampleTables(CarId(file.value), ParsedRecords(file.value)))
  }

  /** The loop of `process_json_file`: for each record, one row per index
      below `max_length`; an exception returns an empty table. */
  method ProcessJsonFile(file: Capture) returns (rows: seq<SampleRow>)
    ensures rows == FileSamples(file)
  {
    if file.None? || RecordsOf(file.value) == [] {
      return [];
    }
    var doc := file.value;
    var records := RecordsOf(doc);
    var imei := CarId(doc);
    rows := [];
    ghost var parsed: seq<ParsedRecord> := [];
    for k := 0 to |records|
      invariant |parsed| == k
      invariant forall j :: 0 <= j < k ==> ParseRecord(doc.recordDateTime, records[j]) == Some(parsed[j])
      invariant rows == Flatten(SampleTables(imei, parsed))
    {
      var p := ParseRecord(doc.recordDateTime, records[k]);
      if p.None? {
        assert !AllParse(doc);
        return [];
      }
      var record := p.value;
      rows := AppendSubSamples(rows, imei, record);
      RecordStep(imei, parsed, record);
      parsed := parsed + [record];
    }
    assert AllParse(doc);
    assert parsed == ParsedRecords(doc);
  }

  /** The inner loop of `process_json_file`: one row per sub-sample of the
      record, appended in order. */
  method AppendSubSamples(rows: seq<SampleRow>, carId: string, record: ParsedRecord) returns (extended: seq<SampleRow>)
    ensures extended == rows + RecordSamples(carId, record)
  {
    extended := rows;
    var maxLength := SampleCount(record.axes);
    for i := 0 to maxLength
      invariant extended == rows + RecordSamples(carId, record)[..i]
    {
      extended := extended + [SampleRow(carId, record.timestamp, i, record.speed, SampleAt(record.axes, i),
                                        record.rightBlinker, record.leftBlinker)];
    }
    assert RecordSamples(carId, record)[..maxLength] == RecordSamples(carId, record);
  }

  /** Decoding one more record appends its sub-sample rows to the table. */
  lemma RecordStep(carId: string, parsed: seq<ParsedRecord>, record: ParsedRecord)
    ensures Flatten(SampleTables(carId, parsed + [record])) == Flatten(SampleTables(carId, parsed)) + RecordSamples(carId, record)
  {
    assert SampleTables(carId, parsed + [record]) == SampleTables(carId, parsed) + [RecordSamples(carId, record)];
    FlattenSnoc(SampleTables(carId, parsed), RecordSamples(carId, record));
  }

  /** A capture that cannot be read, has no `data`, has an empty `data`
      list, or has one record whose timestamp or speed raises yields an
      empty table; any other capture yields a non-empty one. */
  lemma {:induction false} EmptySamples(file: Capture)
    ensures FileSamples(file) == [] <==>
              file.None? || RecordsOf(file.value) == [] ||
              exists k :: 0 <= k < |RecordsOf(file.value)| &&
                ParseRecord(file.value.recordDateTime, RecordsOf(file.value)[k]).None?
  {
    if file.Some? && RecordsOf(file.value) != [] && AllParse(file.value) {
      var i := SamplesPerRecord(file.value, 0, 0);
    }
  }

  /** Record `k` owns `SampleCount` consecutive rows starting at `offset`;
      row `i` of them is sub-sample `i` of the record, with the record's
      timestamp, speed and flags and each axis' element `i` or NaN. The
      table holds nothing else. */
  lemma {:induction false} SamplesPerRecord(doc: Document, k: nat, i: nat) returns (offset: nat)
    requires AllParse(doc) && k < |RecordsOf(doc)|
    requires i < SampleCount(ParseRecord(doc.recordDateTime, RecordsOf(doc)[k]).value.axes)
    ensures offset == Offset(SampleTables(CarId(doc), ParsedRecords(doc)), k)
    ensures offset + i < |FileSamples(Some(doc))|
    ensures var p := ParseRecord(doc.recordDateTime, RecordsOf(doc)[k]).value;
            FileSamples(Some(doc))[offset + i] ==
              SampleRow(CarId(doc), p.timestamp, i, p.speed, SampleAt(p.axes, i), p.rightBlinker, p.leftBlinker)
    ensures |FileSamples(Some(doc))| == TotalLength(SampleTables(CarId(doc), ParsedRecords(doc)))
  {
    var ps := ParsedRecords(doc);
    assert FileSamples(Some(doc)) == Flatten(SampleTables(CarId(doc), ps));
    offset := SampleAtOffset(CarId(doc), ps, k, i);
  }

  /** Sub-sample `i` of record `k` in the concatenated tables. */
  lemma SampleAtOffset(carId: string, ps: seq<ParsedRecord>, k: nat, i: nat) returns (offset: nat)
    requires k < |ps| && i < SampleCount(ps[k].axes)
    ensures offset == Offset(SampleTables(carId, ps), k)
    ensures offset + i < |Flatten(SampleTables(carId, ps))|
    ensures Flatten(SampleTables(carId, ps))[offset + i] ==
              SampleRow(carId, ps[k].timestamp, i, ps[k].speed, SampleAt(ps[k].axes, i), ps[k].rightBlinker, ps[k].leftBlinker)
    ensures |Flatten(SampleTables(carId, ps))| == TotalLength(SampleTables(carId, ps))
  {
    var tables := SampleTables(carId, ps);
    assert tables[k][i] == RecordSamples(carId, ps[k])[i];
    FlattenAt(tables, k, i);
    FlattenTotal(tables);
    offset := Offset(tables, k);
  }

  /** Sub-sample `i > 0` of record `k` directly follows sub-sample `i - 1`
      of the same record in the capture's table. */
  lemma ConsecutiveSubSamples(doc: Document, k: nat, i: nat) returns (p: nat)
    requires AllParse(doc) && k < |RecordsOf(doc)|
    requires 0 < i < SampleCount(ParseRecord(doc.recordDateTime, RecordsOf(doc)[k]).value.axes)
    ensures 0 < p < |FileSamples(Some(doc))|
    ensures FileSamples(Some(doc))[p].sampleIndex == i && FileSamples(Some(doc))[p - 1].sampleIndex == i - 1
    ensures FileSamples(Some(doc))[p].carId == FileSamples(Some(doc))[p - 1].carId
    ensures FileSamples(Some(doc))[p].timestamp == FileSamples(Some(doc))[p - 1].timestamp
  {
    var ps := ParsedRecords(doc);
    assert ps[k] == ParseRecord(doc.recordDateTime, RecordsOf(doc)[k]).value;
    assert FileSamples(Some(doc)) == Flatten(SampleTables(CarId(doc), ps));
    p := ConsecutiveInTables(CarId(doc), ps, k, i);
  }

  lemma ConsecutiveInTables(carId: string, ps: seq<ParsedRecord>, k: nat, i: nat) returns (p: nat)
    requires k < |ps| && 0 < i < SampleCount(ps[k].axes)
    ensures 0 < p < |Flatten(SampleTables(carId, ps))|
    ensures var rows := Flatten(SampleTables(carId, ps));
            rows[p].sampleIndex == i && rows[p - 1].sampleIndex == i - 1 &&
            rows[p].carId == rows[p - 1].carId && rows[p].timestamp == rows[p - 1].timestamp
  {
    var offset := SampleAtOffset(carId, ps, k, i);
    var offset' := SampleAtOffset(carId, ps, k, i - 1);
    p := offset + i;
  }

  /** Every row of a capture carries the capture's `imei`, a sub-sample
      index below its record's `max_length`, and the 0/1 turn-signal flags
      of the any-nonzero rule. */
  lemma RowsOfOneCapture(file: Capture, row: SampleRow)
    requires row in FileSamples(file)
    ensures file.Some? && row.carId == CarId(file.value)
    ensures exists k :: 0 <= k < |RecordsOf(file.value)| &&
              var p := ParseRecord(file.value.recordDateTime, RecordsOf(file.value)[k]);
              p.Some? && row.timestamp == p.value.timestamp && row.sampleIndex < SampleCount(p.value.axes)
    ensures row.rightBlinker in {0, 1} && row.leftBlinker in {0, 1}
  {
    var doc := file.value;
    var tables := SampleTables(CarId(doc), ParsedRecords(doc));
    var k := FlattenMember(tables, row);
    var i :| 0 <= i < |tables[k]| && tables[k][i] == row;
    var p := ParseRecord(doc.recordDateTime, RecordsOf(doc)[k]);
    assert p.Some? && row.timestamp == p.value.timestamp && row.sampleIndex < SampleCount(p.value.axes);
  }
}
