/** One trip capture as the processors read it, and the per-field decoders
    they share: timestamp parsing, array extraction, turn-signal reduction
    and the ragged-axis padding rule. */
module Telemetry {
  import opened Common

  /** What `datetime.strptime(recordDateTime, "%Y%m%d%H%M%S")` yields. */
  datatype CivilTime = CivilTime(year: int, month: int, day: int, hour: int, minute: int, second: int)

  /** The six motion axes, in the order accX, accY, accZ, radX, radY, radZ. */
  datatype Axes<+T> = Axes(accX: T, accY: T, accZ: T, radX: T, radY: T, radZ: T)

  /** One element of a capture's `data` list, each field already run through
      the decoder the source applies to it. */
  datatype Record = Record(
    timeStamp: Field<int>,
    speed: Field<real>,
    latitude: Field<real>,
    longitude: Field<real>,
    altitude: Field<real>,
    heading: Field<real>,
    motion: Axes<Field<seq<real>>>,
    rightBlinker: Field<seq<int>>,
    leftBlinker: Field<seq<int>>)

  /** A capture document: `imei`, `recordDateTime` and the `data` list
      (`None` when the key is absent). */
  datatype Document = Document(imei: Option<string>, recordDateTime: Field<CivilTime>, data: Option<seq<Record>>)

  /** A capture file: `None` when it cannot be opened or is not JSON. */
  type Capture = Option<Document>

  /** `data.get('imei', '')`. */
  function CarId(doc: Document): string
  {
    match doc.imei
    case Some(id) => id
    case None => ""
  }

  /** The records of a capture, or `[]` when `data` is absent or empty. */
  function RecordsOf(doc: Document): seq<Record>
  {
    match doc.data
    case Some(rs) => rs
    case None => []
  }

  /** `parse_timestamp(recordDateTime, record.get('timeStamp', '0'))`: the
      capture date must parse (an absent one is '' and does not) but only the
      millisecond field makes the result. `None` is a raised exception. */
  function ParseTimestamp(recordDateTime: Field<CivilTime>, timeStamp: Field<int>): (ms: Option<int>)
    ensures ms.Some? <==> recordDateTime.Parsed? && !timeStamp.Malformed?
  {
    if !recordDateTime.Parsed? then None
    else
      match timeStamp
      case Missing => Some(0)
      case Parsed(t) => Some(t)
      case Malformed => None
  }

  /** `float(record.get(key, 0))`; `None` is a raised exception. */
  function FloatOrZero(f: Field<real>): (v: Option<real>)
    ensures v.None? <==> f.Malformed?
  {
    match f
    case Missing => Some(0.0)
    case Parsed(x) => Some(x)
    case Malformed => None
  }

  /** `extract_array_values(record.get(axis, '[]'))`: text that does not
      decode to a list of numbers becomes the empty list. */
  function ExtractArrayValues(f: Field<seq<real>>): seq<real>
  {
    match f
    case Parsed(xs) => xs
    case _ => []
  }

  function DecodeAxes(a: Axes<Field<seq<real>>>): Axes<seq<real>>
  {
    Axes(ExtractArrayValues(a.accX), ExtractArrayValues(a.accY), ExtractArrayValues(a.accZ),
         ExtractArrayValues(a.radX), ExtractArrayValues(a.radY), ExtractArrayValues(a.radZ))
  }

  function Max(a: nat, b: nat): nat
  {
    if a < b then b else a
  }

  /** `max(len(acc_x), ..., len(rad_z), 1)`: the number of sub-samples
      a record yields. It is at least one, covers every axis and is the
      length of one of them unless all are empty. */
  function SampleCount(a: Axes<seq<real>>): (n: nat)
    ensures n >= 1
    ensures n >= |a.accX| && n >= |a.accY| && n >= |a.accZ|
    ensures n >= |a.radX| && n >= |a.radY| && n >= |a.radZ|
    ensures n == 1 || n == |a.accX| || n == |a.accY| || n == |a.accZ| ||
            n == |a.radX| || n == |a.radY| || n == |a.radZ|
  {
    Max(Max(Max(Max(Max(Max(|a.accX|, |a.accY|), |a.accZ|), |a.radX|), |a.radY|), |a.radZ|), 1)
  }

  /** `axis[i] if i < len(axis) else np.nan`. */
  function AxisAt(axis: seq<real>, i: nat): (v: Option<real>)
    ensures v.Some? <==> i < |axis|
  {
    if i < |axis| then Some(axis[i]) else None
  }

  /** The six axis values of sub-sample `i`; a short axis is padded with NaN. */
  function SampleAt(a: Axes<seq<real>>, i: nat): Axes<Option<real>>
  {
    Axes(AxisAt(a.accX, i), AxisAt(a.accY, i), AxisAt(a.accZ, i),
         AxisAt(a.radX, i), AxisAt(a.radY, i), AxisAt(a.radZ, i))
  }

  /** A record whose six axis fields are all absent or undecodable still
      yields exactly one sub-sample, with NaN on every axis. */
  lemma UndecodedAxesGiveOneSample(a: Axes<Field<seq<real>>>)
    requires !a.accX.Parsed? && !a.accY.Parsed? && !a.accZ.Parsed?
    requires !a.radX.Parsed? && !a.radY.Parsed? && !a.radZ.Parsed?
    ensures SampleCount(DecodeAxes(a)) == 1
    ensures SampleAt(DecodeAxes(a), 0) == Axes(None, None, None, None, None, None)
  {
  }

  /** The first `n` cells of an axis column, NaN past the axis' end. */
  function PaddedColumn(axis: seq<real>, n: nat): (column: seq<Option<real>>)
    ensures |column| == n
  {
    seq(n, i requires 0 <= i < n => AxisAt(axis, i))
  }

  /** The values of a column with its NaN cells removed, in order. */
  function DropNaN(column: seq<Option<real>>): seq<real>
  {
    if column == [] then []
    else DropNaN(column[..|column| - 1]) + (match column[|column| - 1] case Some(v) => [v] case None => [])
  }

  /** Dropping the NaN cells of the first `n` padded cells gives back the
      first `n` elements of the axis (all of it once `n` reaches its end). */
  lemma {:induction false} DropNaNOfPadded(axis: seq<real>, n: nat)
    ensures DropNaN(PaddedColumn(axis, n)) == axis[..if n <= |axis| then n else |axis|]
  {
    if n > 0 {
      var column := PaddedColumn(axis, n);
      assert column[..n - 1] == PaddedColumn(axis, n - 1);
      DropNaNOfPadded(axis, n - 1);
      if n <= |axis| {
        assert axis[..n] == axis[..n - 1] + [axis[n - 1]];
      }
    }
  }

  /** Padding is lossless: over a record's `SampleCount` sub-samples, each
      axis column with its NaN cells removed is the axis as decoded, so
      padding neither invents nor drops a value. */
  lemma PaddingRoundTrip(a: Axes<seq<real>>)
    ensures DropNaN(seq(SampleCount(a), i requires 0 <= i => SampleAt(a, i).accX)) == a.accX
    ensures DropNaN(seq(SampleCount(a), i requires 0 <= i => SampleAt(a, i).accY)) == a.accY
    ensures DropNaN(seq(SampleCount(a), i requires 0 <= i => SampleAt(a, i).accZ)) == a.accZ
    ensures DropNaN(seq(SampleCount(a), i requires 0 <= i => SampleAt(a, i).radX)) == a.radX
    ensures DropNaN(seq(SampleCount(a), i requires 0 <= i => SampleAt(a, i).radY)) == a.radY
    ensures DropNaN(seq(SampleCount(a), i requires 0 <= i => SampleAt(a, i).radZ)) == a.radZ
  {
    var n := SampleCount(a);
    assert seq(n, i requires 0 <= i => SampleAt(a, i).accX) == PaddedColumn(a.accX, n);
    assert seq(n, i requires 0 <= i => SampleAt(a, i).accY) == PaddedColumn(a.accY, n);
    assert seq(n, i requires 0 <= i => SampleAt(a, i).accZ) == PaddedColumn(a.accZ, n);
    assert seq(n, i requires 0 <= i => SampleAt(a, i).radX) == PaddedColumn(a.radX, n);
    assert seq(n, i requires 0 <= i => SampleAt(a, i).radY) == PaddedColumn(a.radY, n);
    assert seq(n, i requires 0 <= i => SampleAt(a, i).radZ) == PaddedColumn(a.radZ, n);
    DropNaNOfPadded(a.accX, n);
    DropNaNOfPadded(a.accY, n);
    DropNaNOfPadded(a.accZ, n);
    DropNaNOfPadded(a.radX, n);
    DropNaNOfPadded(a.radY, n);
    DropNaNOfPadded(a.radZ, n);
  }

  /** How a turn-signal array of 0/1 flags reduces to one flag: "any nonzero"
      (`sum != 0`, both files under src/) or "majority" (`sum > len / 2`,
      the root processor). */
  datatype BlinkerRule = AnyNonzero | Majority

  function Reduce(rule: BlinkerRule, flags: seq<int>): (on: int)
    ensures on == 0 || on == 1
    ensures rule.AnyNonzero? ==> (on == 1 <==> Sum(flags) != 0)
    ensures rule.Majority? ==> (on == 1 <==> 2 * Sum(flags) > |flags|)
  {
    match rule
    case AnyNonzero => if Sum(flags) != 0 then 1 else 0
    case Majority => if 2 * Sum(flags) > |flags| then 1 else 0
  }

  /** `json.loads(record.get(key, '[0]'))`. */
  function BlinkerArray(f: Field<seq<int>>): seq<int>
    requires !f.Malformed?
  {
    match f
    case Missing => [0]
    case Parsed(xs) => xs
  }

  /** The (right, left) turn-signal flags of one record: a failure to decode
      either array clears both. */
  /** An absent array reads as `[0]`, which is off under both rules, so
      a flag is on exactly when both arrays decode and its own array is
      present and reduces to 1. */
  function BlinkerFlags(rule: BlinkerRule, right: Field<seq<int>>, left: Field<seq<int>>): (flags: (int, int))
    ensures (flags.0 == 0 || flags.0 == 1) && (flags.1 == 0 || flags.1 == 1)
    ensures flags.0 == 1 <==> !left.Malformed? && right.Parsed? && Reduce(rule, right.value) == 1
    ensures flags.1 == 1 <==> !right.Malformed? && left.Parsed? && Reduce(rule, left.value) == 1
  {
    assert Sum([0]) == 0 by { assert [0][..0] == []; }
    if right.Malformed? || left.Malformed? then (0, 0)
    else (Reduce(rule, BlinkerArray(right)), Reduce(rule, BlinkerArray(left)))
  }

  predicate IsFlagArray(flags: seq<int>)
  {
    forall k :: 0 <= k < |flags| ==> flags[k] == 0 || flags[k] == 1
  }

  function CountOnes(flags: seq<int>): nat
  {
    if flags == [] then 0
    else CountOnes(flags[..|flags| - 1]) + (if flags[|flags| - 1] == 1 then 1 else 0)
  }

  /** On a 0/1 array the sum counts the set flags. */
  lemma {:induction false} SumCountsOnes(flags: seq<int>)
    requires IsFlagArray(flags)
    ensures Sum(flags) == CountOnes(flags)
    ensures CountOnes(flags) == 0 <==> forall k :: 0 <= k < |flags| ==> flags[k] == 0
  {
    if flags != [] {
      var init := flags[..|flags| - 1];
      assert IsFlagArray(init) by {
        forall k | 0 <= k < |init| ensures init[k] == 0 || init[k] == 1 {
          assert init[k] == flags[k];
        }
      }
      SumCountsOnes(init);
      assert forall k :: 0 <= k < |init| ==> init[k] == flags[k];
    }
  }

  /** "Any nonzero" on a 0/1 array: on exactly when some flag is set. */
  lemma AnyNonzeroMeansSomeFlag(flags: seq<int>)
    requires IsFlagArray(flags)
    ensures Reduce(AnyNonzero, flags) == 1 <==> exists k :: 0 <= k < |flags| && flags[k] == 1
  {
    SumCountsOnes(flags);
  }

  /** "Majority" on a 0/1 array: on exactly when more than half the flags
      are set, so an all-off or exactly half-on array is off; and whatever
      the majority rule turns on, the any-nonzero rule turns on too. */
  lemma MajorityMeansMoreThanHalf(flags: seq<int>)
    requires IsFlagArray(flags)
    ensures Reduce(Majority, flags) == 1 <==> 2 * CountOnes(flags) > |flags|
    ensures 2 * CountOnes(flags) == |flags| ==> Reduce(Majority, flags) == 0
    ensures Reduce(Majority, flags) == 1 ==> Reduce(AnyNonzero, flags) == 1
  {
    SumCountsOnes(flags);
  }

  /** The capture date must parse but is never used: two parseable dates give
      the same timestamp. */
  lemma TimestampIgnoresDate(d1: CivilTime, d2: CivilTime, timeStamp: Field<int>)
    ensures ParseTimestamp(Parsed(d1), timeStamp) == ParseTimestamp(Parsed(d2), timeStamp)
    ensures timeStamp.Parsed? ==> ParseTimestamp(Parsed(d1), timeStamp) == Some(timeStamp.value)
    ensures timeStamp.Missing? ==> ParseTimestamp(Parsed(d1), timeStamp) == Some(0)
  {
  }
}
