/** `create_dataset` of the root processor: the per-capture record tables
    are concatenated, labeled per car and sorted by car and time. */
module RecordDataset {
  import opened Common
  import opened Telemetry
  import opened RecordProcessor
  import opened CarLabels
  import opened DatasetSplit
  import Sorting

  /** A row's join key: its car and its timestamp in ms. */
  function RecordKey(r: RecordRow): Key
  {
    (r.carId, r.timestamp)
  }

  /** The table of every capture file, in file order. */
  function Tables(files: seq<Capture>): (tables: seq<seq<RecordRow>>)
    ensures |tables| == |files|
  {
    seq(|files|, j requires 0 <= j < |files| => FileRows(files[j]))
  }

  /** `create_dataset()` with the capture files already listed and the
      status log already read (`None` when the file is missing). It fails
      when no capture file exists, then when every capture yields an empty
      table, then when the log is missing; otherwise it returns exactly the
      labeled rows of the concatenated tables, sorted by car and time. */
  method CreateDataset(files: seq<Capture>, log: Option<CarStatusLog>) returns (r: Result<seq<CarLabeled<RecordRow>>>)
    ensures files == [] ==> r == Err(NoJsonFiles)
    ensures files != [] && Flatten(Tables(files)) == [] ==> r == Err(NoDataExtracted)
    ensures files != [] && Flatten(Tables(files)) != [] && log.None? ==> r == Err(MissingStatusLog)
    ensures r.Ok? <==> files != [] && Flatten(Tables(files)) != [] && log.Some?
    ensures r.Ok? ==> multiset(r.value) == multiset(LabeledTable(Flatten(Tables(files)), RecordKey, log.value))
    ensures r.Ok? ==> Sorting.Sorted(r.value, ByCarTime(RecordKey))
  {
    if files == [] {
      return Err(NoJsonFiles);
    }
    ghost var tables := Tables(files);
    var allData: seq<seq<RecordRow>> := [];
    for k := 0 to |files|
      invariant forall j :: 0 <= j < |allData| ==> allData[j] != []
      invariant Flatten(allData) == Flatten(tables[..k])
    {
      var df := ProcessJsonFile(files[k]);
      KeepNonEmptyStep(allData, tables, k);
      if df != [] {
        allData := allData + [df];
      }
    }
    assert tables[..|files|] == tables;
    FlattenOfNonEmpty(allData);
    if allData == [] {
      return Err(NoDataExtracted);
    }
    var combined := Flatten(allData);
    if log.None? {
      return Err(MissingStatusLog);
    }
    var labeled := LabelAndSort(combined, RecordKey, log.value);
    r := Ok(labeled);
  }

  /** The car of a labeled row. */
  function LabeledCar(x: CarLabeled<RecordRow>): string
  {
    x.row.carId
  }

  /** `save_dataset(train_ratio)` without the CSV writes: the full table
      of `create_dataset` and its per-car train/test split. The errors are
      those of `create_dataset`; the split never fails, because a created
      table is never empty. */
  method SaveDataset(files: seq<Capture>, log: Option<CarStatusLog>, trainRatio: real)
    returns (r: Result<(seq<CarLabeled<RecordRow>>, seq<CarLabeled<RecordRow>>, seq<CarLabeled<RecordRow>>)>)
    ensures files == [] ==> r == Err(NoJsonFiles)
    ensures files != [] && Flatten(Tables(files)) == [] ==> r == Err(NoDataExtracted)
    ensures files != [] && Flatten(Tables(files)) != [] && log.None? ==> r == Err(MissingStatusLog)
    ensures r.Ok? <==> files != [] && Flatten(Tables(files)) != [] && log.Some?
    ensures r.Ok? ==> multiset(r.value.0) == multiset(LabeledTable(Flatten(Tables(files)), RecordKey, log.value))
    ensures r.Ok? ==> Sorting.Sorted(r.value.0, ByCarTime(RecordKey))
    ensures r.Ok? ==> forall car :: Filter(r.value.1, LabeledCar, car) == TrainOf(r.value.0, LabeledCar, trainRatio, car)
    ensures r.Ok? ==> forall car :: Filter(r.value.2, LabeledCar, car) == TestOf(r.value.0, LabeledCar, trainRatio, car)
    ensures r.Ok? ==> multiset(r.value.1) + multiset(r.value.2) == multiset(r.value.0)
  {
    var created := CreateDataset(files, log);
    if created.Err? {
      return Err(created.error);
    }
    var dataset := created.value;
    assert |multiset(dataset)| == |LabeledTable(Flatten(Tables(files)), RecordKey, log.value)|;
    var split := SplitByCar(dataset, LabeledCar, trainRatio);
    r := Ok((dataset, split.value.0, split.value.1));
  }
}
