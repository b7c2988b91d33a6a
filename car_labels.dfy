/** The labeling stage of the two per-car processors (under src/ and at the
    root): the status log is joined on `(car_id, time_stamp)`, each row's
    transition code pairs its status with the previous status of the same
    car, the label column is overwritten in stages and the table is sorted
    by car and then by time. */
module CarLabels {
  import opened Common
  import opened StatusCodes
  import Sorting

  /** `(car_id, timestamp_ms)`: the join key of a row. */
  type Key = (string, int)

  /** The status-change log keyed by car and `time_stamp` in ms; the model
      assumes the keys are unique. */
  type CarStatusLog = map<Key, StatusEntry>

  /** The log columns a row receives from the left join: NaN when no log
      row has its car and timestamp. */
  function LookUp(log: CarStatusLog, key: Key): StatusEntry
  {
    if key in log then log[key] else StatusEntry(None, None)
  }

  /** The last of the first `n` rows that belongs to `car`. */
  function LastOfCar(keys: seq<Key>, car: string, n: nat): (j: Option<nat>)
    requires n <= |keys|
    ensures j.Some? ==> j.value < n && keys[j.value].0 == car
    ensures j.Some? ==> forall k :: j.value < k < n ==> keys[k].0 != car
    ensures j.None? ==> forall k :: 0 <= k < n ==> keys[k].0 != car
  {
    if n == 0 then None
    else if keys[n - 1].0 == car then Some(n - 1)
    else LastOfCar(keys, car, n - 1)
  }

  /** `groupby('car_id')['status_management'].shift(1)`: the status of the
      nearest earlier row of the same car, NaN on a car's first row. */
  function PreviousStatusOfCar(keys: seq<Key>, log: CarStatusLog, i: nat): Option<int>
    requires i < |keys|
  {
    match LastOfCar(keys, keys[i].0, i)
    case None => None
    case Some(j) => LookUp(log, keys[j]).status
  }

  /** The `status_change` code of row `i`. */
  function StatusChange(keys: seq<Key>, log: CarStatusLog, i: nat): string
    requires i < |keys|
  {
    TransitionCode(LookUp(log, keys[i]).status, PreviousStatusOfCar(keys, log, i))
  }

  /** The `status_change` column. */
  function StatusChanges(keys: seq<Key>, log: CarStatusLog): (codes: seq<string>)
    ensures |codes| == |keys|
  {
    seq(|keys|, i requires 0 <= i < |keys| => StatusChange(keys, log, i))
  }

  /** The label of row `i` once the three staged overwrites are done. */
  function RowLabel(keys: seq<Key>, log: CarStatusLog, i: nat): nat
    requires i < |keys|
  {
    StagedLabel(LookUp(log, keys[i]).changeFlag, StatusChange(keys, log, i))
  }

  /** A row of the labeled table: the processor's row and its `label`. */
  datatype CarLabeled<R> = CarLabeled(row: R, rowLabel: nat)

  /** The concatenated table after the join and the labeling, before the
      final sort: every row keeps its place and gains its label. */
  function LabeledTable<R>(rows: seq<R>, keyOf: R -> Key, log: CarStatusLog): (out: seq<CarLabeled<R>>)
    ensures |out| == |rows|
  {
    var keys := Sorting.Map(rows, keyOf);
    seq(|rows|, i requires 0 <= i < |rows| => CarLabeled(rows[i], RowLabel(keys, log, i)))
  }

  /** Python's `<=` on strings: lexicographic by code point, a prefix
      first. */
  predicate StringLe(a: string, b: string)
  {
    if a == [] then true
    else if b == [] then false
    else if a[0] != b[0] then a[0] < b[0]
    else StringLe(a[1..], b[1..])
  }

  lemma {:induction false} StringLeTotal(a: string, b: string)
    ensures StringLe(a, b) || StringLe(b, a)
  {
    if a != [] && b != [] && a[0] == b[0] {
      StringLeTotal(a[1..], b[1..]);
    }
  }

  lemma {:induction false} StringLeAntisymmetric(a: string, b: string)
    requires StringLe(a, b) && StringLe(b, a)
    ensures a == b
  {
    if a != [] && b != [] {
      StringLeAntisymmetric(a[1..], b[1..]);
      assert a == [a[0]] + a[1..] && b == [b[0]] + b[1..];
    }
  }

  lemma {:induction false} StringLeTransitive(a: string, b: string, c: string)
    requires StringLe(a, b) && StringLe(b, c)
    ensures StringLe(a, c)
  {
    if a != [] && b != [] && c != [] && a[0] == b[0] && b[0] == c[0] {
      StringLeTransitive(a[1..], b[1..], c[1..]);
    }
  }

  /** `sort_values(['car_id', 'timestamp'])` on the keys. */
  function KeyLe(a: Key, b: Key): bool
  {
    if a.0 == b.0 then a.1 <= b.1 else StringLe(a.0, b.0)
  }

  /** The order the final table is sorted in. */
  function ByCarTime<R>(keyOf: R -> Key): (CarLabeled<R>, CarLabeled<R>) -> bool
  {
    (x: CarLabeled<R>, y: CarLabeled<R>) => KeyLe(keyOf(x.row), keyOf(y.row))
  }

  /** Car then time is a total preorder, so the sort is well defined up to
      the order of rows with equal keys. */
  lemma KeyLeTotalPreorder()
    ensures Sorting.IsTotalPreorder(KeyLe)
  {
    forall a: Key, b: Key
      ensures KeyLe(a, b) || KeyLe(b, a)
    {
      StringLeTotal(a.0, b.0);
    }
    forall a: Key, b: Key, c: Key | KeyLe(a, b) && KeyLe(b, c)
      ensures KeyLe(a, c)
    {
      if a.0 != b.0 && b.0 != c.0 {
        StringLeTransitive(a.0, b.0, c.0);
        if a.0 == c.0 {
          StringLeAntisymmetric(a.0, b.0);
        }
      }
    }
  }

  lemma ByCarTimeOrders<R(!new)>(keyOf: R -> Key)
    ensures Sorting.IsTotalPreorder(ByCarTime(keyOf))
  {
    KeyLeTotalPreorder();
    forall x: CarLabeled<R>, y: CarLabeled<R>
      ensures ByCarTime(keyOf)(x, y) || ByCarTime(keyOf)(y, x)
    {
      assert KeyLe(keyOf(x.row), keyOf(y.row)) || KeyLe(keyOf(y.row), keyOf(x.row));
    }
    forall x: CarLabeled<R>, y: CarLabeled<R>, z: CarLabeled<R> | ByCarTime(keyOf)(x, y) && ByCarTime(keyOf)(y, z)
      ensures ByCarTime(keyOf)(x, z)
    {
      assert KeyLe(keyOf(x.row), keyOf(y.row)) && KeyLe(keyOf(y.row), keyOf(z.row));
    }
  }

  /** The labeling part of `create_dataset` once the tables are
      concatenated and the log is read: join, code, overwrite the label
      column in stages and sort by car and time. The result holds exactly
      the labeled rows, in car-then-time order. */
  method LabelAndSort<R(!new)>(rows: seq<R>, keyOf: R -> Key, log: CarStatusLog) returns (out: seq<CarLabeled<R>>)
    ensures multiset(out) == multiset(LabeledTable(rows, keyOf, log))
    ensures Sorting.Sorted(out, ByCarTime(keyOf))
  {
    var keys := Sorting.Map(rows, keyOf);
    var flags := seq(|keys|, i requires 0 <= i < |keys| => LookUp(log, keys[i]).changeFlag);
    var codes := StatusChanges(keys, log);
    var labels := LabelColumn(flags, codes);
    var labeled := seq(|rows|, i requires 0 <= i < |rows| => CarLabeled(rows[i], labels[i]));
    assert labeled == LabeledTable(rows, keyOf, log);
    ByCarTimeOrders(keyOf);
    out := Sorting.SortBy(labeled, ByCarTime(keyOf));
    Sorting.SortBySorted(labeled, ByCarTime(keyOf));
  }

  /** A row's label in terms of its own status and its car's previous
      one: 2 when the row's status is in `OnPrevious` and the previous one
      in `OnCurrent`; otherwise 1 on the reverse pair or a change flag of 1;
      otherwise 0. */
  lemma RowLabelMeaning(keys: seq<Key>, log: CarStatusLog, i: nat)
    requires i < |keys|
    ensures var current := LookUp(log, keys[i]).status;
            var previous := PreviousStatusOfCar(keys, log, i);
            RowLabel(keys, log, i) ==
              if current.Some? && current.value in OnPrevious &&
                 previous.Some? && previous.value in OnCurrent then 2
              else if (current.Some? && current.value in OnCurrent &&
                       previous.Some? && previous.value in OnPrevious) ||
                      LookUp(log, keys[i]).changeFlag == Some(1) then 1
              else 0
  {
    LabelOfTransition(LookUp(log, keys[i]).changeFlag, LookUp(log, keys[i]).status, PreviousStatusOfCar(keys, log, i));
  }

  /** A car's first row, and any row whose status equals the car's previous
      one, can only be labeled by its change flag. */
  lemma NoTransitionNoEvent(keys: seq<Key>, log: CarStatusLog, i: nat)
    requires i < |keys|
    requires LastOfCar(keys, keys[i].0, i).None? ||
             PreviousStatusOfCar(keys, log, i) == LookUp(log, keys[i]).status
    ensures RowLabel(keys, log, i) == FlagStage(LookUp(log, keys[i]).changeFlag)
  {
    NoTransitionWithoutChange(LookUp(log, keys[i]).status, PreviousStatusOfCar(keys, log, i));
  }

  /** A row with the same car and timestamp as the row just before it
      joins the same log entry, so its code repeats one status twice and
      only its change flag can label it. */
  lemma RepeatedKeyKeepsFlag(keys: seq<Key>, log: CarStatusLog, i: nat)
    requires 0 < i < |keys| && keys[i - 1] == keys[i]
    ensures RowLabel(keys, log, i) == FlagStage(LookUp(log, keys[i]).changeFlag)
  {
    NoTransitionNoEvent(keys, log, i);
  }

  /** The same for a table: a row with the key of the row just before it
      keeps only its change-flag label. */
  lemma RepeatedRowKeepsFlag<R>(rows: seq<R>, keyOf: R -> Key, log: CarStatusLog, i: nat)
    requires 0 < i < |rows| && keyOf(rows[i - 1]) == keyOf(rows[i])
    ensures LabeledTable(rows, keyOf, log)[i].rowLabel == FlagStage(LookUp(log, keyOf(rows[i])).changeFlag)
  {
    var keys := Sorting.Map(rows, keyOf);
    assert keys[i - 1] == keys[i];
    RepeatedKeyKeepsFlag(keys, log, i);
  }

  /** With one car only, the per-car shift is the plain shift by one row. */
  lemma SingleCarIsGlobalShift(keys: seq<Key>, log: CarStatusLog, i: nat)
    requires i < |keys|
    requires forall k :: 0 <= k < |keys| ==> keys[k].0 == keys[0].0
    ensures PreviousStatusOfCar(keys, log, i) == if i == 0 then None else LookUp(log, keys[i - 1]).status
  {
    if i > 0 {
      assert keys[i - 1].0 == keys[i].0;
    }
  }

  /** Removing a row of one car leaves the last-row search of every other
      car where it was, shifted down past the removed row. */
  lemma {:induction false} LastOfCarSkipping(keys: seq<Key>, j: nat, car: string, n: nat)
    requires j < |keys| && keys[j].0 != car && n <= |keys|
    ensures var removed := keys[..j] + keys[j + 1..];
            LastOfCar(removed, car, if n <= j then n else n - 1) ==
              match LastOfCar(keys, car, n)
              case None => None
              case Some(k) => Some(if k < j then k else k - 1)
  {
    var removed := keys[..j] + keys[j + 1..];
    if n > 0 {
      LastOfCarSkipping(keys, j, car, n - 1);
      if n - 1 < j {
        assert removed[n - 1] == keys[n - 1];
      } else if n - 1 > j {
        assert removed[n - 2] == keys[n - 1];
      }
    }
  }

  /** The rows of other cars do not influence a row's label: removing a row
      of a different car leaves it unchanged. */
  lemma OtherCarsIgnored(keys: seq<Key>, log: CarStatusLog, j: nat, i: nat)
    requires j < |keys| && i < |keys| && keys[j].0 != keys[i].0
    ensures var removed := keys[..j] + keys[j + 1..];
            var i' := if i < j then i else i - 1;
            i' < |removed| && removed[i'] == keys[i] &&
            RowLabel(removed, log, i') == RowLabel(keys, log, i)
  {
    var removed := keys[..j] + keys[j + 1..];
    var i' := if i < j then i else i - 1;
    assert removed[i'] == keys[i];
    assert PreviousStatusOfCar(removed, log, i') == PreviousStatusOfCar(keys, log, i) by {
      LastOfCarSkipping(keys, j, keys[i].0, i);
      match LastOfCar(keys, keys[i].0, i)
      case None =>
      case Some(k) =>
        assert removed[if k < j then k else k - 1] == keys[k];
    }
    assert StatusChange(removed, log, i') == StatusChange(keys, log, i);
  }
}
