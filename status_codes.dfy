/** The fixed boarding/alighting transition tables and the staged label rule
    shared by all three processors. A transition code is the current status
    code, zero-padded to two characters, followed by the previous one. */
module StatusCodes {
  import opened Common

  /** One row of the status-change log: `status_management` and
      `change_flag` (NaN is `None`). */
  datatype StatusEntry = StatusEntry(status: Option<int>, changeFlag: Option<int>)

  /** `get_on_map`: transition codes that mark a boarding event. */
  const GetOnMap: set<string> :=
    {"0003", "0012", "0014", "0103", "0112", "0114",
     "0203", "0212", "0214", "0403", "0412", "0414",
     "0503", "0512", "0514", "0603", "0612", "0614",
     "0803", "0812", "0814", "1303", "1312", "1314",
     "1503", "1512", "1514"}

  /** `get_off_map`: transition codes that mark an alighting event. */
  const GetOffMap: set<string> :=
    {"0300", "1200", "1400", "0301", "1201", "1401",
     "0302", "1202", "1402", "0304", "1204", "1404",
     "0305", "1205", "1405", "0306", "1206", "1406",
     "0308", "1208", "1408", "0313", "1213", "1413",
     "0315", "1215", "1415"}

  /** The nine status codes that stand on the left of every `get_on_map`
      code (and on the right of every `get_off_map` code). */
  const OnCurrent: set<int> := {0, 1, 2, 4, 5, 6, 8, 13, 15}

  /** The three status codes that stand on the right of every `get_on_map`
      code (and on the left of every `get_off_map` code). */
  const OnPrevious: set<int> := {3, 12, 14}

  function DigitChar(d: int): char
    requires 0 <= d < 10
  {
    ('0' as int + d) as char
  }

  predicate IsDigit(c: char)
  {
    '0' <= c <= '9'
  }

  /** Python's `str(n)` for a non-negative integer. */
  function NatText(n: nat): (s: string)
    ensures |s| >= 1
    ensures forall k :: 0 <= k < |s| ==> IsDigit(s[k])
    ensures n >= 10 ==> |s| >= 2
    ensures n >= 100 ==> |s| >= 3
    decreases n
  {
    if n < 10 then [DigitChar(n)] else NatText(n / 10) + [DigitChar(n % 10)]
  }

  /** Python's `str(x)` of one value of the `status_management` column:
      the NaN that a failed left join leaves prints as "nan". */
  function StatusText(x: Option<int>): string
  {
    match x
    case None => "nan"
    case Some(n) => if n < 0 then "-" + NatText(-n) else NatText(n)
  }

  /** Python's `str.zfill(2)`: pad with '0' to width two, after a sign. */
  function ZFill2(s: string): (r: string)
    ensures |r| >= 2
  {
    if |s| >= 2 then s
    else if |s| == 1 && (s[0] == '-' || s[0] == '+') then [s[0], '0']
    else seq(2 - |s|, _ => '0') + s
  }

  /** The two characters a status code contributes to a transition code. */
  function Padded(x: Option<int>): (r: string)
    ensures |r| >= 2
  {
    ZFill2(StatusText(x))
  }

  /** `zfill2(current) + zfill2(previous)`: current code first. */
  function TransitionCode(current: Option<int>, previous: Option<int>): (code: string)
    ensures |code| >= 4
  {
    Padded(current) + Padded(previous)
  }

  /** The label after the change-flag stage: a change flag of 1 writes 1
      over the default 0. */
  function FlagStage(changeFlag: Option<int>): nat
  {
    if changeFlag == Some(1) then 1 else 0
  }

  /** The label after the boarding stage: a `get_on_map` code writes 1. */
  function GetOnStage(changeFlag: Option<int>, code: string): nat
  {
    if code in GetOnMap then 1 else FlagStage(changeFlag)
  }

  /** The label column as the processors overwrite it in stages: start at 0,
      a change flag of 1 writes 1, a `get_on_map` code writes 1, a
      `get_off_map` code writes 2 (the last write wins). */
  function StagedLabel(changeFlag: Option<int>, code: string): nat
  {
    if code in GetOffMap then 2 else GetOnStage(changeFlag, code)
  }

  /** The staged overwrites of the label column over a whole table, one
      masked assignment after another. */
  method LabelColumn(changeFlags: seq<Option<int>>, codes: seq<string>) returns (labels: seq<nat>)
    requires |changeFlags| == |codes|
    ensures |labels| == |codes|
    ensures forall i :: 0 <= i < |codes| ==> labels[i] == StagedLabel(changeFlags[i], codes[i])
  {
    var n := |codes|;
    var column := new nat[n](_ => 0);
    for i := 0 to n
      invariant forall j :: 0 <= j < n ==> column[j] == if j < i then FlagStage(changeFlags[j]) else 0
    {
      if changeFlags[i] == Some(1) {
        column[i] := 1;
      }
    }
    for i := 0 to n
      invariant forall j :: 0 <= j < n ==>
                  column[j] == if j < i then GetOnStage(changeFlags[j], codes[j]) else FlagStage(changeFlags[j])
    {
      if codes[i] in GetOnMap {
        column[i] := 1;
      }
    }
    for i := 0 to n
      invariant forall j :: 0 <= j < n ==>
                  column[j] == if j < i then StagedLabel(changeFlags[j], codes[j]) else GetOnStage(changeFlags[j], codes[j])
    {
      if codes[i] in GetOffMap {
        column[i] := 2;
      }
    }
    labels := column[..];
  }

  /** The value a two-digit string spells, if it is one. */
  function TwoDigits(s: string): Option<int>
  {
    if |s| == 2 && IsDigit(s[0]) && IsDigit(s[1])
    then Some((s[0] as int - '0' as int) * 10 + (s[1] as int - '0' as int))
    else None
  }

  /** The (current, previous) pair a four-digit transition code spells. */
  function CodePair(code: string): Option<(int, int)>
  {
    if |code| == 4 && TwoDigits(code[..2]).Some? && TwoDigits(code[2..]).Some?
    then Some((TwoDigits(code[..2]).value, TwoDigits(code[2..]).value))
    else None
  }

  /** A status code pads to two digits exactly when it lies in 0..99, and
      then the two digits spell it. */
  lemma PaddedDigits(x: Option<int>)
    ensures |Padded(x)| == 2 && TwoDigits(Padded(x)).Some? <==> x.Some? && 0 <= x.value <= 99
    ensures x.Some? && 0 <= x.value <= 99 ==>
              Padded(x) == [DigitChar(x.value / 10), DigitChar(x.value % 10)] &&
              TwoDigits(Padded(x)) == Some(x.value)
  {
    match x
    case None =>
    case Some(n) =>
      if n < 0 {
        assert StatusText(x)[0] == '-';
        assert |Padded(x)| == 2 ==> Padded(x)[0] == '-';
      } else if n < 10 {
        assert Padded(x) == ['0', DigitChar(n)];
      } else if n < 100 {
        assert NatText(n / 10) == [DigitChar(n / 10)];
        assert Padded(x) == [DigitChar(n / 10), DigitChar(n % 10)];
      }
  }

  /** A transition code spells a pair of codes exactly when both codes lie in
      0..99, and then it spells them in the order current, previous. */
  lemma CodePairOfTransition(current: Option<int>, previous: Option<int>)
    ensures CodePair(TransitionCode(current, previous)) ==
              if current.Some? && 0 <= current.value <= 99 && previous.Some? && 0 <= previous.value <= 99
              then Some((current.value, previous.value))
              else None
  {
    var code := TransitionCode(current, previous);
    PaddedDigits(current);
    PaddedDigits(previous);
    var a, b := Padded(current), Padded(previous);
    if |code| == 4 {
      assert |a| == 2 && |b| == 2;
      assert code[..2] == a && code[2..] == b;
    }
  }

  /** Every entry of `get_on_map` spells a pair from `OnCurrent` x `OnPrevious`. */
  lemma GetOnPairs(code: string)
    requires code in GetOnMap
    ensures CodePair(code).Some?
    ensures CodePair(code).value.0 in OnCurrent && CodePair(code).value.1 in OnPrevious
  {
  }

  /** Every entry of `get_off_map` spells a pair from `OnPrevious` x `OnCurrent`. */
  lemma GetOffPairs(code: string)
    requires code in GetOffMap
    ensures CodePair(code).Some?
    ensures CodePair(code).value.0 in OnPrevious && CodePair(code).value.1 in OnCurrent
  {
  }

  /** The padded pair of two codes in 0..99, written with digit characters. */
  lemma {:induction false} TransitionDigits(c: int, p: int)
    requires 0 <= c <= 99 && 0 <= p <= 99
    ensures TransitionCode(Some(c), Some(p)) ==
              [DigitChar(c / 10), DigitChar(c % 10), DigitChar(p / 10), DigitChar(p % 10)]
  {
    PaddedDigits(Some(c));
    PaddedDigits(Some(p));
  }

  /** Every pair from `OnPrevious` x `OnCurrent` has its code in `get_off_map`. */
  lemma GetOffCovers(c: int, p: int)
    requires c in OnPrevious && p in OnCurrent
    ensures TransitionCode(Some(c), Some(p)) in GetOffMap
  {
    TransitionDigits(c, p);
    if c == 3 {
      assert TransitionCode(Some(c), Some(p)) == ['0', '3', DigitChar(p / 10), DigitChar(p % 10)];
    } else if c == 12 {
      assert TransitionCode(Some(c), Some(p)) == ['1', '2', DigitChar(p / 10), DigitChar(p % 10)];
    } else {
      assert TransitionCode(Some(c), Some(p)) == ['1', '4', DigitChar(p / 10), DigitChar(p % 10)];
    }
  }

  /** Every pair from `OnCurrent` x `OnPrevious` has its code in `get_on_map`. */
  lemma GetOnCovers(c: int, p: int)
    requires c in OnCurrent && p in OnPrevious
    ensures TransitionCode(Some(c), Some(p)) in GetOnMap
  {
    TransitionDigits(c, p);
    if p == 3 {
      assert TransitionCode(Some(c), Some(p)) == [DigitChar(c / 10), DigitChar(c % 10), '0', '3'];
    } else if p == 12 {
      assert TransitionCode(Some(c), Some(p)) == [DigitChar(c / 10), DigitChar(c % 10), '1', '2'];
    } else {
      assert TransitionCode(Some(c), Some(p)) == [DigitChar(c / 10), DigitChar(c % 10), '1', '4'];
    }
  }

  /** Boarding table, read back as status codes: a code is in `get_on_map`
      exactly when the current status is in `OnCurrent` and the previous
      one in `OnPrevious`. */
  lemma GetOnMeaning(current: Option<int>, previous: Option<int>)
    ensures TransitionCode(current, previous) in GetOnMap <==>
              current.Some? && current.value in OnCurrent &&
              previous.Some? && previous.value in OnPrevious
  {
    var code := TransitionCode(current, previous);
    CodePairOfTransition(current, previous);
    if code in GetOnMap {
      GetOnPairs(code);
    }
    if current.Some? && current.value in OnCurrent && previous.Some? && previous.value in OnPrevious {
      GetOnCovers(current.value, previous.value);
    }
  }

  /** Alighting table, read back as status codes: a code is in `get_off_map`
      exactly when the current status is in `OnPrevious` and the previous
      one in `OnCurrent`, the reverse of a boarding transition. */
  lemma GetOffMeaning(current: Option<int>, previous: Option<int>)
    ensures TransitionCode(current, previous) in GetOffMap <==>
              current.Some? && current.value in OnPrevious &&
              previous.Some? && previous.value in OnCurrent
  {
    var code := TransitionCode(current, previous);
    CodePairOfTransition(current, previous);
    if code in GetOffMap {
      GetOffPairs(code);
    }
    if current.Some? && current.value in OnPrevious && previous.Some? && previous.value in OnCurrent {
      GetOffCovers(current.value, previous.value);
    }
  }

  /** The two tables never share a code. */
  lemma TablesDisjoint()
    ensures GetOnMap !! GetOffMap
  {
    forall code | code in GetOnMap
      ensures code !in GetOffMap
    {
      GetOnPairs(code);
      if code in GetOffMap {
        GetOffPairs(code);
      }
    }
  }

  /** A row whose status did not change (and the first row, whose previous
      status is NaN) never carries a transition event. */
  lemma NoTransitionWithoutChange(current: Option<int>, previous: Option<int>)
    requires current == previous || previous.None?
    ensures TransitionCode(current, previous) !in GetOnMap
    ensures TransitionCode(current, previous) !in GetOffMap
  {
    GetOnMeaning(current, previous);
    GetOffMeaning(current, previous);
  }

  /** The staged overwrites, in closed form: 2 exactly for an alighting
      code; 1 for a boarding code or a change flag of 1 that no alighting
      code overrides; 0 otherwise. */
  lemma StagedLabelPrecedence(changeFlag: Option<int>, code: string)
    ensures StagedLabel(changeFlag, code) <= 2
    ensures StagedLabel(changeFlag, code) == 2 <==> code in GetOffMap
    ensures StagedLabel(changeFlag, code) == 1 <==>
              code !in GetOffMap && (code in GetOnMap || changeFlag == Some(1))
    ensures StagedLabel(changeFlag, code) == 0 <==>
              code !in GetOffMap && code !in GetOnMap && changeFlag != Some(1)
  {
  }

  /** The label of one row in terms of its status codes and change flag. */
  lemma LabelOfTransition(changeFlag: Option<int>, current: Option<int>, previous: Option<int>)
    ensures StagedLabel(changeFlag, TransitionCode(current, previous)) ==
              if current.Some? && current.value in OnPrevious &&
                 previous.Some? && previous.value in OnCurrent then 2
              else if (current.Some? && current.value in OnCurrent &&
                       previous.Some? && previous.value in OnPrevious) ||
                      changeFlag == Some(1) then 1
              else 0
  {
    GetOnMeaning(current, previous);
    GetOffMeaning(current, previous);
  }
}
