/** Small value types shared by every stage of the labeling pipeline. */
module Common {

  /** A value that may be absent: pandas' NaN marker after a left join or
      after padding a short motion axis. */
  datatype Option<+T> = None | Some(value: T)

  /** The outcome of a foreign decoder (`json.loads`, `float()`, `int()`,
      `datetime.strptime`) applied to one field of a JSON object:
      the key was absent, the text decoded to a value, or decoding raised. */
  datatype Field<+T> = Missing | Parsed(value: T) | Malformed

  /** Errors that `create_dataset` raises before any table is returned. */
  datatype DatasetError =
    | NoJsonFiles        // glob found no capture file
    | NoDataExtracted    // every capture yielded an empty table
    | MissingStatusLog   // the status-change CSV does not exist

  datatype Result<+T> = Ok(value: T) | Err(error: DatasetError)

  /** Python's `seq[:k]` for an integer `k`: always a prefix; the first
      `k` elements, or all of them when `k` is past the end; a negative `k`
      drops `-k` elements from the end, or everything when `-k` is past it. */
  function SliceHead<T>(s: seq<T>, k: int): (r: seq<T>)
    ensures r <= s
    ensures 0 <= k <= |s| ==> |r| == k
    ensures |s| < k ==> r == s
    ensures k < 0 ==> |s| - |r| == if -k <= |s| then -k else |s|
  {
    if 0 <= k then s[..if k <= |s| then k else |s|]
    else s[..if -k <= |s| then |s| + k else 0]
  }

  /** Python's `seq[k:]`; together with `SliceHead` it splits `s` in two. */
  function SliceTail<T>(s: seq<T>, k: int): (r: seq<T>)
    ensures SliceHead(s, k) + r == s
  {
    s[|SliceHead(s, k)|..]
  }

  /** Python's `sum` over a list of integers. */
  function Sum(s: seq<int>): int
  {
    if s == [] then 0 else Sum(s[..|s| - 1]) + s[|s| - 1]
  }

  /** The rows of several per-record tables, one after another
      (`pd.concat` of the per-record row lists). */
  function Flatten<T>(xss: seq<seq<T>>): seq<T>
  {
    if xss == [] then [] else Flatten(xss[..|xss| - 1]) + xss[|xss| - 1]
  }

  /** Where the rows of table `k` start in `Flatten(xss)`. */
  function Offset<T>(xss: seq<seq<T>>, k: nat): nat
    requires k <= |xss|
  {
    |Flatten(xss[..k])|
  }

  lemma {:induction false} FlattenLength<T>(xss: seq<seq<T>>, k: nat)
    requires k < |xss|
    ensures Offset(xss, k) + |xss[k]| <= |Flatten(xss)|
    ensures Offset(xss, k + 1) == Offset(xss, k) + |xss[k]|
  {
    assert xss[..k + 1][..k] == xss[..k];
    if k + 1 < |xss| {
      FlattenLength(xss[..|xss| - 1], k);
      assert xss[..|xss| - 1][..k] == xss[..k];
      assert xss[..|xss| - 1][..k + 1] == xss[..k + 1];
    } else {
      assert xss[..k + 1] == xss;
    }
  }

  /** Row `i` of table `k` sits at `Offset(xss, k) + i` of the concatenation. */
  lemma {:induction false} FlattenAt<T>(xss: seq<seq<T>>, k: nat, i: nat)
    requires k < |xss| && i < |xss[k]|
    ensures Offset(xss, k) + i < |Flatten(xss)|
    ensures Flatten(xss)[Offset(xss, k) + i] == xss[k][i]
  {
    FlattenLength(xss, k);
    var init := xss[..|xss| - 1];
    if k < |xss| - 1 {
      FlattenAt(init, k, i);
      assert init[..k] == xss[..k];
    } else {
      assert xss[..k] == init;
    }
  }

  /** The summed lengths of several tables. */
  function TotalLength<T>(xss: seq<seq<T>>): nat
  {
    if xss == [] then 0 else TotalLength(xss[..|xss| - 1]) + |xss[|xss| - 1]|
  }

  /** The concatenation has exactly the rows of the tables: its length is
      the sum of theirs. */
  lemma {:induction false} FlattenTotal<T>(xss: seq<seq<T>>)
    ensures |Flatten(xss)| == TotalLength(xss) == Offset(xss, |xss|)
  {
    assert xss[..|xss|] == xss;
    if xss != [] {
      FlattenTotal(xss[..|xss| - 1]);
    }
  }

  /** Two neighbouring rows of one table stay neighbours in the
      concatenation. */
  lemma FlattenAdjacent<T>(xss: seq<seq<T>>, k: nat, i: nat) returns (g: nat)
    requires k < |xss| && 0 < i < |xss[k]|
    ensures 0 < g < |Flatten(xss)|
    ensures Flatten(xss)[g] == xss[k][i] && Flatten(xss)[g - 1] == xss[k][i - 1]
  {
    FlattenAt(xss, k, i);
    FlattenAt(xss, k, i - 1);
    g := Offset(xss, k) + i;
  }

  /** Appending a table appends its rows. */
  lemma FlattenSnoc<T>(xss: seq<seq<T>>, xs: seq<T>)
    ensures Flatten(xss + [xs]) == Flatten(xss) + xs
  {
    assert (xss + [xs])[..|xss|] == xss;
  }

  /** One step of a loop that keeps only the non-empty tables: the kept
      tables still concatenate to the rows of all tables seen so far. */
  lemma KeepNonEmptyStep<T>(kept: seq<seq<T>>, tables: seq<seq<T>>, k: nat)
    requires k < |tables|
    requires Flatten(kept) == Flatten(tables[..k])
    ensures Flatten(if tables[k] != [] then kept + [tables[k]] else kept) == Flatten(tables[..k + 1])
  {
    assert tables[..k + 1] == tables[..k] + [tables[k]];
    FlattenSnoc(tables[..k], tables[k]);
    FlattenSnoc(kept, tables[k]);
  }

  /** Every row of the concatenation comes from one of the tables. */
  lemma {:induction false} FlattenMember<T>(xss: seq<seq<T>>, x: T) returns (k: nat)
    requires x in Flatten(xss)
    ensures k < |xss| && x in xss[k]
  {
    var init := xss[..|xss| - 1];
    if x in xss[|xss| - 1] {
      k := |xss| - 1;
    } else {
      k := FlattenMember(init, x);
    }
  }

  /** Tables that are all non-empty concatenate to nothing only when there
      are none of them. */
  lemma FlattenOfNonEmpty<T>(xss: seq<seq<T>>)
    requires forall j :: 0 <= j < |xss| ==> xss[j] != []
    ensures Flatten(xss) == [] <==> xss == []
  {
    if xss != [] {
      assert |Flatten(xss)| >= |xss[|xss| - 1]| > 0;
    }
  }
}
