/** `process_json_file` of the root processor: one row per record, the
    turn signals reduced by majority. Any exception drops the whole
    capture. */
module RecordProcessor {
  import opened Common
  import opened Telemetry

  /** One output row. The per-axis summary statistics (mean, max, min,
      standard deviation, median) are not modelled. */
  datatype RecordRow = RecordRow(carId: string, timestamp: int, speed: real, rightBlinker: int, leftBlinker: int)

  /** Decodes one record; `None` when the timestamp or the speed conversion
      raises. The motion statistics and the turn signals never raise. */
  function ParseRecord(carId: string, recordDateTime: Field<CivilTime>, r: Record): (row: Option<RecordRow>)
    ensures row.None? <==> ParseTimestamp(recordDateTime, r.timeStamp).None? || r.speed.Malformed?
    ensures row.Some? ==> row.value.carId == carId && row.value.timestamp == ParseTimestamp(recordDateTime, r.timeStamp).value
    ensures row.Some? ==> row.value.speed == FloatOrZero(r.speed).value
    ensures row.Some? ==> (row.value.rightBlinker, row.value.leftBlinker) == BlinkerFlags(Majority, r.rightBlinker, r.leftBlinker)
  {
    var timestamp := ParseTimestamp(recordDateTime, r.timeStamp);
    var speed := FloatOrZero(r.speed);
    var (right, left) := BlinkerFlags(Majority, r.rightBlinker, r.leftBlinker);
    if timestamp.None? || speed.None? then None
    else Some(RecordRow(carId, timestamp.value, speed.value, right, left))
  }

  /** No record of the capture raises. */
  predicate AllParse(doc: Document)
  {
    forall k :: 0 <= k < |RecordsOf(doc)| ==> ParseRecord(CarId(doc), doc.recordDateTime, RecordsOf(doc)[k]).Some?
  }

  /** The table of one capture file. */
  function FileRows(file: Capture): seq<RecordRow>
  {
    if file.None? || RecordsOf(file.value) == [] || !AllParse(file.value) then []
    else
      var doc := file.value;
      seq(|RecordsOf(doc)|, k requires 0 <= k < |RecordsOf(doc)| =>
        ParseRecord(CarId(doc), doc.recordDateTime, RecordsOf(doc)[k]).value)
  }

  /** The loop of `process_json_file`: one row appended per record; an
      exception returns an empty table. */
  method ProcessJsonFile(file: Capture) returns (rows: seq<RecordRow>)
    ensures rows == FileRows(file)
  {
    if file.None? || RecordsOf(file.value) == [] {
      return [];
    }
    var doc := file.value;
    var records := RecordsOf(doc);
    var imei := CarId(doc);
    rows := [];
    for k := 0 to |records|
      invariant |rows| == k
      invariant forall j :: 0 <= j < k ==> ParseRecord(imei, doc.recordDateTime, records[j]) == Some(rows[j])
    {
      var row := ParseRecord(imei, doc.recordDateTime, records[k]);
      if row.None? {
        return [];
      }
      rows := rows + [row.value];
    }
  }

  /** A capture yields an empty table exactly when it cannot be read, has
      no records, or has a record whose timestamp or speed raises;
      otherwise row `k` is record `k`, decoded. */
  lemma OneRowPerRecord(file: Capture)
    ensures FileRows(file) == [] <==>
              file.None? || RecordsOf(file.value) == [] ||
              exists k :: 0 <= k < |RecordsOf(file.value)| &&
                ParseRecord(CarId(file.value), file.value.recordDateTime, RecordsOf(file.value)[k]).None?
    ensures FileRows(file) != [] ==>
              |FileRows(file)| == |RecordsOf(file.value)| &&
              forall k :: 0 <= k < |RecordsOf(file.value)| ==>
                Some(FileRows(file)[k]) == ParseRecord(CarId(file.value), file.value.recordDateTime, RecordsOf(file.value)[k])
  {
  }
}
