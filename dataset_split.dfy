/** The per-car train/test split of `save_dataset` (both per-car
    processors): for each car in order of first appearance, its rows in
    table order are cut at `int(len * train_ratio)`; the heads form the
    training table and the tails the test table. */
module DatasetSplit {
  import opened Common

  /** The rows of `car`, in table order (`dataset[dataset['car_id'] == car]`). */
  function Filter<R>(rows: seq<R>, carOf: R -> string, car: string): (r: seq<R>)
    ensures |r| <= |rows|
    ensures forall i :: 0 <= i < |r| ==> carOf(r[i]) == car
  {
    if rows == [] then []
    else
      var init := Filter(rows[..|rows| - 1], carOf, car);
      if carOf(rows[|rows| - 1]) == car then init + [rows[|rows| - 1]] else init
  }

  /** `dataset['car_id'].unique()`: each car once, in order of first
      appearance. */
  function UniqueCars<R>(rows: seq<R>, carOf: R -> string): (cars: seq<string>)
    ensures forall i, j :: 0 <= i < j < |cars| ==> cars[i] != cars[j]
    ensures forall i :: 0 <= i < |rows| ==> carOf(rows[i]) in cars
    ensures forall c :: c in cars ==> Filter(rows, carOf, c) != []
  {
    if rows == [] then []
    else
      var init := rows[..|rows| - 1];
      var cars := UniqueCars(init, carOf);
      var last := carOf(rows[|rows| - 1]);
      assert forall i :: 0 <= i < |init| ==> init[i] == rows[i];
      if last in cars then cars else cars + [last]
  }

  /** Python's `int(x)` on a float: truncation toward zero. The result is
      the integer nearest `x` on the side of zero: it never has the
      opposite sign, and lies less than 1 from `x`. */
  function TruncToInt(x: real): (n: int)
    ensures 0.0 <= x ==> 0 <= n && n as real <= x < n as real + 1.0
    ensures x < 0.0 ==> n <= 0 && n as real - 1.0 < x <= n as real
  {
    if 0.0 <= x then x.Floor else -((-x).Floor)
  }

  /** `split_idx = int(len(car_data) * train_ratio)`. */
  function SplitIndex(n: nat, ratio: real): int
  {
    TruncToInt(n as real * ratio)
  }

  /** `car_data.iloc[:split_idx]`. */
  function TrainOf<R>(rows: seq<R>, carOf: R -> string, ratio: real, car: string): seq<R>
  {
    var carData := Filter(rows, carOf, car);
    SliceHead(carData, SplitIndex(|carData|, ratio))
  }

  /** `car_data.iloc[split_idx:]`. */
  function TestOf<R>(rows: seq<R>, carOf: R -> string, ratio: real, car: string): seq<R>
  {
    var carData := Filter(rows, carOf, car);
    SliceTail(carData, SplitIndex(|carData|, ratio))
  }

  lemma {:induction false} FilterAppend<R>(a: seq<R>, b: seq<R>, carOf: R -> string, car: string)
    ensures Filter(a + b, carOf, car) == Filter(a, carOf, car) + Filter(b, carOf, car)
  {
    if b != [] {
      var init := b[..|b| - 1];
      assert (a + b)[..|a + b| - 1] == a + init;
      FilterAppend(a, init, carOf, car);
    } else {
      assert a + b == a;
    }
  }

  /** Rows that all belong to `car` are kept whole by its filter and
      dropped whole by every other car's. */
  lemma {:induction false} FilterOfOneCar<R>(rows: seq<R>, carOf: R -> string, car: string, other: string)
    requires forall i :: 0 <= i < |rows| ==> carOf(rows[i]) == car
    ensures Filter(rows, carOf, car) == rows
    ensures other != car ==> Filter(rows, carOf, other) == []
  {
    if rows != [] {
      var init := rows[..|rows| - 1];
      FilterOfOneCar(init, carOf, car, other);
      assert init + [rows[|rows| - 1]] == rows;
    }
  }

  /** A row occurs in a car's filter as often as in the table when it
      belongs to that car, and not at all otherwise. */
  lemma {:induction false} FilterCount<R>(rows: seq<R>, carOf: R -> string, car: string, x: R)
    ensures multiset(Filter(rows, carOf, car))[x] == if carOf(x) == car then multiset(rows)[x] else 0
  {
    if rows != [] {
      var init := rows[..|rows| - 1];
      FilterCount(init, carOf, car, x);
      assert rows == init + [rows[|rows| - 1]];
    }
  }

  /** Two tables whose rows of every car agree hold the same rows. */
  lemma SameCarsSameRows<R>(a: seq<R>, b: seq<R>, carOf: R -> string)
    requires forall car :: Filter(a, carOf, car) == Filter(b, carOf, car)
    ensures multiset(a) == multiset(b)
  {
    forall x: R
      ensures multiset(a)[x] == multiset(b)[x]
    {
      FilterCount(a, carOf, carOf(x), x);
      FilterCount(b, carOf, carOf(x), x);
    }
  }

  /** The loop of `save_dataset`: for each car, its head goes to `train`
      and its tail to `test`. `None` stands for the error `pd.concat`
      raises on an empty list, which happens exactly when the table is
      empty. Otherwise every car's rows are split at its own `split_idx`:
      the training table holds exactly each car's head and the test table
      exactly each car's tail, both in table order, and together they hold
      the table's rows. */
  method SplitByCar<R>(dataset: seq<R>, carOf: R -> string, ratio: real) returns (r: Option<(seq<R>, seq<R>)>)
    ensures r.None? <==> dataset == []
    ensures r.Some? ==> forall car :: Filter(r.value.0, carOf, car) == TrainOf(dataset, carOf, ratio, car)
    ensures r.Some? ==> forall car :: Filter(r.value.1, carOf, car) == TestOf(dataset, carOf, ratio, car)
    ensures r.Some? ==> multiset(r.value.0) + multiset(r.value.1) == multiset(dataset)
  {
    var cars := UniqueCars(dataset, carOf);
    var trainData: seq<seq<R>> := [];
    var testData: seq<seq<R>> := [];
    ghost var trainWant := (car: string) => TrainOf(dataset, carOf, ratio, car);
    ghost var testWant := (car: string) => TestOf(dataset, carOf, ratio, car);
    for k := 0 to |cars|
      invariant CollectedSoFar(Flatten(trainData), carOf, cars[..k], trainWant)
      invariant CollectedSoFar(Flatten(testData), carOf, cars[..k], testWant)
    {
      var carData := Filter(dataset, carOf, cars[k]);
      var splitIdx := SplitIndex(|carData|, ratio);
      var head, tail := SliceHead(carData, splitIdx), SliceTail(carData, splitIdx);
      PartsOfCar(dataset, carOf, ratio, cars[k]);
      assert head == trainWant(cars[k]) && tail == testWant(cars[k]);
      CollectStep(trainData, carOf, cars, k, trainWant);
      CollectStep(testData, carOf, cars, k, testWant);
      trainData := trainData + [head];
      testData := testData + [tail];
    }
    if cars == [] {
      return None;
    }
    var train, test := Flatten(trainData), Flatten(testData);
    r := Some((train, test));
    assert cars[..|cars|] == cars;
    WholeSplit(dataset, carOf, ratio, cars, train, test);
  }

  /** After the cars in `done`, each of them has exactly its wanted rows in
      `rows` and every other car none. */
  ghost predicate CollectedSoFar<R>(rows: seq<R>, carOf: R -> string, done: seq<string>, want: string -> seq<R>)
  {
    forall car :: Filter(rows, carOf, car) == if car in done then want(car) else []
  }

  /** One turn of the loop of `save_dataset`: appending car `k`'s part
      gives that car its part and leaves every other car as it was. */
  lemma CollectStep<R>(tables: seq<seq<R>>, carOf: R -> string, cars: seq<string>, k: nat, want: string -> seq<R>)
    requires k < |cars| && forall i, j :: 0 <= i < j < |cars| ==> cars[i] != cars[j]
    requires forall i :: 0 <= i < |want(cars[k])| ==> carOf(want(cars[k])[i]) == cars[k]
    requires CollectedSoFar(Flatten(tables), carOf, cars[..k], want)
    ensures CollectedSoFar(Flatten(tables + [want(cars[k])]), carOf, cars[..k + 1], want)
  {
    assert cars[..k + 1] == cars[..k] + [cars[k]];
    assert cars[k] !in cars[..k];
    forall car
      ensures Filter(Flatten(tables + [want(cars[k])]), carOf, car) ==
                if car in cars[..k + 1] then want(car) else []
    {
      AppendPart(tables, want(cars[k]), carOf, cars[k], car);
    }
  }

  /** A car's head and tail hold only rows of that car. */
  lemma PartsOfCar<R>(dataset: seq<R>, carOf: R -> string, ratio: real, car: string)
    ensures forall i :: 0 <= i < |TrainOf(dataset, carOf, ratio, car)| ==> carOf(TrainOf(dataset, carOf, ratio, car)[i]) == car
    ensures forall i :: 0 <= i < |TestOf(dataset, carOf, ratio, car)| ==> carOf(TestOf(dataset, carOf, ratio, car)[i]) == car
  {
    var carData := Filter(dataset, carOf, car);
    SlicesOfOneCar(carData, SplitIndex(|carData|, ratio), carOf, car);
  }

  lemma SlicesOfOneCar<R>(rows: seq<R>, cut: int, carOf: R -> string, car: string)
    requires forall i :: 0 <= i < |rows| ==> carOf(rows[i]) == car
    ensures forall i :: 0 <= i < |SliceHead(rows, cut)| ==> carOf(SliceHead(rows, cut)[i]) == car
    ensures forall i :: 0 <= i < |SliceTail(rows, cut)| ==> carOf(SliceTail(rows, cut)[i]) == car
  {
    var head, tail := SliceHead(rows, cut), SliceTail(rows, cut);
    assert forall i :: 0 <= i < |head| ==> head[i] == rows[i];
    assert forall i :: 0 <= i < |tail| ==> tail[i] == rows[|head| + i];
  }

  /** Once every car's head and tail are collected, each car's rows are in
      the two tables and nothing else is. */
  lemma WholeSplit<R>(dataset: seq<R>, carOf: R -> string, ratio: real, cars: seq<string>, train: seq<R>, test: seq<R>)
    requires forall i :: 0 <= i < |dataset| ==> carOf(dataset[i]) in cars
    requires CollectedSoFar(train, carOf, cars, (car: string) => TrainOf(dataset, carOf, ratio, car))
    requires CollectedSoFar(test, carOf, cars, (car: string) => TestOf(dataset, carOf, ratio, car))
    ensures forall car :: Filter(train, carOf, car) == TrainOf(dataset, carOf, ratio, car)
    ensures forall car :: Filter(test, carOf, car) == TestOf(dataset, carOf, ratio, car)
    ensures multiset(train) + multiset(test) == multiset(dataset)
  {
    forall car
      ensures Filter(train, carOf, car) == TrainOf(dataset, carOf, ratio, car)
      ensures Filter(test, carOf, car) == TestOf(dataset, carOf, ratio, car)
      ensures Filter(train + test, carOf, car) == Filter(dataset, carOf, car)
    {
      if car !in cars {
        FilterOfAbsentCar(dataset, carOf, car);
      }
      FilterAppend(train, test, carOf, car);
    }
    SameCarsSameRows(train + test, dataset, carOf);
  }

  lemma {:induction false} FilterOfAbsentCar<R>(rows: seq<R>, carOf: R -> string, car: string)
    requires forall i :: 0 <= i < |rows| ==> carOf(rows[i]) != car
    ensures Filter(rows, carOf, car) == []
  {
    if rows != [] {
      FilterOfAbsentCar(rows[..|rows| - 1], carOf, car);
    }
  }

  /** Appending one car's part extends that car's filter by the part and
      leaves every other car's as it was. */
  lemma AppendPart<R>(tables: seq<seq<R>>, part: seq<R>, carOf: R -> string, owner: string, car: string)
    requires forall i :: 0 <= i < |part| ==> carOf(part[i]) == owner
    ensures Filter(Flatten(tables + [part]), carOf, car) ==
              Filter(Flatten(tables), carOf, car) + (if car == owner then part else [])
  {
    FlattenSnoc(tables, part);
    FilterAppend(Flatten(tables), part, carOf, car);
    FilterOfOneCar(part, carOf, owner, car);
  }

  /** With a ratio between 0 and 1, each car's first `int(n * ratio)`
      rows (`floor(n * ratio)`, by `ShareOfRows`) go to training and the
      others to test. */
  lemma TrainIsLeadingShare<R>(dataset: seq<R>, carOf: R -> string, ratio: real, car: string)
    requires 0.0 <= ratio <= 1.0
    ensures var carData := Filter(dataset, carOf, car);
            var cut := SplitIndex(|carData|, ratio);
            0 <= cut <= |carData| &&
            TrainOf(dataset, carOf, ratio, car) == carData[..cut] &&
            TestOf(dataset, carOf, ratio, car) == carData[cut..]
  {
    ShareOfRows(|Filter(dataset, carOf, car)|, ratio);
  }

  /** `int(n * ratio)` for a ratio between 0 and 1 is a row count
      between 0 and `n`. */
  lemma ShareOfRows(n: nat, ratio: real)
    requires 0.0 <= ratio <= 1.0
    ensures SplitIndex(n, ratio) == (n as real * ratio).Floor
    ensures 0 <= SplitIndex(n, ratio) <= n
  {
    var share := n as real * ratio;
    assert share + n as real * (1.0 - ratio) == n as real;
    assert n as real * (1.0 - ratio) >= 0.0;
    assert 0.0 <= share <= n as real;
  }

  /** A ratio of 1 or more sends every row to training. */
  lemma LargeRatioTrainsAll<R>(dataset: seq<R>, carOf: R -> string, ratio: real, car: string)
    requires ratio >= 1.0
    ensures TrainOf(dataset, carOf, ratio, car) == Filter(dataset, carOf, car)
    ensures TestOf(dataset, carOf, ratio, car) == []
  {
    var carData := Filter(dataset, carOf, car);
    AtLeastAll(|carData|, ratio);
    SlicesPastEnd(carData, SplitIndex(|carData|, ratio));
  }

  /** `int(n * ratio)` is at least `n` once the ratio reaches 1. */
  lemma AtLeastAll(n: nat, ratio: real)
    requires ratio >= 1.0
    ensures SplitIndex(n, ratio) >= n
  {
    var x := n as real * ratio;
    assert x == n as real + n as real * (ratio - 1.0);
    assert n as real * (ratio - 1.0) >= 0.0;
  }

  lemma SlicesPastEnd<T>(s: seq<T>, k: int)
    requires k >= |s|
    ensures SliceHead(s, k) == s && SliceTail(s, k) == []
  {
  }
}
