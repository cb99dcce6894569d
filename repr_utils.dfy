/** Row-level NaN handling of a gesture representation
    (gesture_repr/repr_modify_utils/utils.py): trimming the rows that
    contain a NaN off both ends, and the share of such rows. */
module ReprUtils {
  import opened Basics

  /** `np.isnan(row).any()`. */
  predicate HasNaN(row: seq<Sample>)
  {
    NaN in row
  }

  /** The first row at or after `from` without a NaN, or |rows| if none. */
  function FirstClean(rows: seq<seq<Sample>>, from: nat): (l: nat)
    requires from <= |rows|
    ensures from <= l <= |rows|
    ensures forall i :: from <= i < l ==> HasNaN(rows[i])
    ensures l < |rows| ==> !HasNaN(rows[l])
    decreases |rows| - from
  {
    if from == |rows| || !HasNaN(rows[from]) then from else FirstClean(rows, from + 1)
  }

  /** One past the last row in [lo, hi) without a NaN, or lo if none. */
  function LastClean(rows: seq<seq<Sample>>, lo: nat, hi: nat): (h: nat)
    requires lo <= hi <= |rows|
    ensures lo <= h <= hi
    ensures forall i :: h <= i < hi ==> HasNaN(rows[i])
    ensures h > lo ==> !HasNaN(rows[h - 1])
    decreases hi
  {
    if hi == lo || !HasNaN(rows[hi - 1]) then hi else LastClean(rows, lo, hi - 1)
  }

  /** What `erase_nan_prefix_suffix` returns: the rows between the first
      and the last NaN-free row, or None when there is no such row. */
  function Trim(rows: seq<seq<Sample>>): (r: Option<seq<seq<Sample>>>)
    ensures r.Some? ==> 0 < |r.value| <= |rows|
    ensures r.Some? ==> !HasNaN(r.value[0]) && !HasNaN(r.value[|r.value| - 1])
  {
    var l := FirstClean(rows, 0);
    var h := LastClean(rows, l, |rows|);
    if l == h then None else Some(rows[l..h])
  }

  /** Lines 11-18: advance `left` past the NaN rows, then pull `right`
      back past the NaN rows, never crossing `left`. */
  method EraseNanPrefixSuffix(rows: seq<seq<Sample>>) returns (r: Option<seq<seq<Sample>>>)
    ensures r == Trim(rows)
  {
    var left, right := 0, |rows|;
    while left < right && HasNaN(rows[left])
      invariant 0 <= left <= right == |rows|
      invariant FirstClean(rows, left) == FirstClean(rows, 0)
      decreases right - left
    {
      left := left + 1;
    }
    while left < right && HasNaN(rows[right - 1])
      invariant 0 <= left <= right <= |rows|
      invariant left == FirstClean(rows, 0)
      invariant LastClean(rows, left, right) == LastClean(rows, left, |rows|)
      decreases right
    {
      right := right - 1;
    }
    if left == right {
      return None;
    }
    return Some(rows[left..right]);
  }

  /** None exactly when every row has a NaN, the empty input included. */
  lemma TrimNoneIff(rows: seq<seq<Sample>>)
    ensures Trim(rows).None? <==> forall i :: 0 <= i < |rows| ==> HasNaN(rows[i])
  {
    var l := FirstClean(rows, 0);
    if l < |rows| {
      assert !HasNaN(rows[l]);
    }
  }

  /** Otherwise the result is the slice rows[l..h] that starts and ends
      with a NaN-free row and leaves out only NaN rows on either side;
      the rows inside it are kept as they are. */
  lemma TrimIsCleanSlice(rows: seq<seq<Sample>>)
    requires Trim(rows).Some?
    ensures exists l, h ::
      0 <= l < h <= |rows| && Trim(rows).value == rows[l..h] &&
      !HasNaN(rows[l]) && !HasNaN(rows[h - 1]) &&
      (forall i :: 0 <= i < l ==> HasNaN(rows[i])) &&
      (forall i :: h <= i < |rows| ==> HasNaN(rows[i]))
  {
    var l := FirstClean(rows, 0);
    var h := LastClean(rows, l, |rows|);
    assert Trim(rows).value == rows[l..h];
  }

  /** Trimming a trimmed representation changes nothing. */
  lemma TrimIdempotent(rows: seq<seq<Sample>>)
    requires Trim(rows).Some?
    ensures Trim(Trim(rows).value) == Trim(rows)
  {
    var y := Trim(rows).value;
    TrimIsCleanSlice(rows);
    assert !HasNaN(y[0]) && !HasNaN(y[|y| - 1]);
    assert FirstClean(y, 0) == 0;
    assert LastClean(y, 0, |y|) == |y|;
    assert y[0..|y|] == y;
  }

  /** The number of rows with a NaN. */
  function CountNaNRows(rows: seq<seq<Sample>>): (n: nat)
    ensures n <= |rows|
  {
    if rows == [] then 0 else (if HasNaN(rows[0]) then 1 else 0) + CountNaNRows(rows[1..])
  }

  /** `nan_percentage`: the share of rows with a NaN; numpy's 0 / 0 is a
      NaN for the empty input. */
  function NanPercentage(rows: seq<seq<Sample>>): (r: Sample)
    ensures r.NaN? <==> |rows| == 0
    ensures r.Num? ==> 0.0 <= r.v <= 1.0
  {
    if |rows| == 0 then NaN else Num(CountNaNRows(rows) as real / |rows| as real)
  }

  lemma {:induction false} CountZeroIff(rows: seq<seq<Sample>>)
    ensures CountNaNRows(rows) == 0 <==> forall i :: 0 <= i < |rows| ==> !HasNaN(rows[i])
  {
    if rows != [] {
      CountZeroIff(rows[1..]);
      assert forall i :: 1 <= i < |rows| ==> rows[i] == rows[1..][i - 1];
    }
  }

  lemma {:induction false} CountFullIff(rows: seq<seq<Sample>>)
    ensures CountNaNRows(rows) == |rows| <==> forall i :: 0 <= i < |rows| ==> HasNaN(rows[i])
  {
    if rows != [] {
      CountFullIff(rows[1..]);
      assert forall i :: 1 <= i < |rows| ==> rows[i] == rows[1..][i - 1];
    }
  }

  /** The percentage is 0 exactly when no row has a NaN and 1 exactly when
      every row has one. */
  lemma NanPercentageExtremes(rows: seq<seq<Sample>>)
    requires |rows| > 0
    ensures NanPercentage(rows) == Num(0.0) <==> forall i :: 0 <= i < |rows| ==> !HasNaN(rows[i])
    ensures NanPercentage(rows) == Num(1.0) <==> forall i :: 0 <= i < |rows| ==> HasNaN(rows[i])
  {
    CountZeroIff(rows);
    CountFullIff(rows);
    RatioExtremes(CountNaNRows(rows), |rows|);
  }

  lemma RatioExtremes(c: nat, n: nat)
    requires 0 < n && c <= n
    ensures c as real / n as real == 0.0 <==> c == 0
    ensures c as real / n as real == 1.0 <==> c == n
  {
    var q := c as real / n as real;
    assert q * n as real == c as real;
    if q == 0.0 {
      assert c as real == 0.0 * n as real;
    }
    if q == 1.0 {
      assert c as real == 1.0 * n as real;
    }
  }
}
