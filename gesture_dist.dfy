/** `gesture_series_dist` (distance/per_series_dist/gesture_dist.py): the
    per-channel distance vector of two gesture representations. A
    representation is a time × channels table; channel k of the first is
    compared with channel k of the second by the alignment distance. */
module GestureDist {
  import opened Basics
  import opened DpDist

  /** A gesture representation: one row per frame, `width` channels per
      row (numpy shape (|rows|, width)). */
  datatype Repr = Repr(rows: seq<seq<real>>, width: nat)

  /** Every row has `width` entries. */
  predicate WellShaped(g: Repr)
  {
    forall t :: 0 <= t < |g.rows| ==> |g.rows[t]| == g.width
  }

  /** `g[:, k]`: channel k over time. */
  function Column(g: Repr, k: nat): (c: seq<real>)
    requires WellShaped(g) && k < g.width
    ensures |c| == |g.rows|
    ensures forall t :: 0 <= t < |c| ==> c[t] == g.rows[t][k]
  {
    seq(|g.rows|, t requires 0 <= t < |g.rows| => g.rows[t][k])
  }

  /** The keyword parameters forwarded unchanged to every per-channel
      call. */
  datatype DistParams = DistParams(
    budget: Budget,
    pairwise: (real, real) -> real,
    erase: (seq<real>, nat) -> real)

  const DefaultParams: DistParams := DistParams(DefaultBudget, DefaultPairwise, DefaultErase)

  /** What a call needs: rectangular inputs, every channel of the first
      present in the second, and, when there is a channel to compare, a
      budget for which the terminal scan of the alignment is defined (all
      channels share the two lengths). With no channel the loop calls no
      distance, so any lengths and budget are accepted. */
  predicate Comparable(first: Repr, second: Repr, params: DistParams)
  {
    WellShaped(first) && WellShaped(second) && first.width <= second.width &&
    (first.width > 0 ==> ScanDefined(|first.rows|, |second.rows|, params.budget))
  }

  /** The distance of channel k, first representation first. */
  function ColumnDistance(first: Repr, second: Repr, params: DistParams, k: nat): Result<real>
    requires Comparable(first, second, params) && k < first.width
  {
    Distance(Column(first, k), Column(second, k), params.budget, params.pairwise, params.erase)
  }

  /** The vector for the channels below n, or the failure of the first
      channel whose distance fails. */
  function ChannelDistances(first: Repr, second: Repr, params: DistParams, n: nat): (r: Result<seq<real>>)
    requires Comparable(first, second, params) && n <= first.width
    ensures r.Success? <==> forall k :: 0 <= k < n ==> ColumnDistance(first, second, params, k).Success?
    ensures r.Success? ==> |r.value| == n
    ensures r.Success? ==> forall k :: 0 <= k < n ==> ColumnDistance(first, second, params, k) == Success(r.value[k])
  {
    if n == 0 then Success([])
    else
      match ChannelDistances(first, second, params, n - 1)
      case Failure(e) => Failure(e)
      case Success(v) =>
        match ColumnDistance(first, second, params, n - 1)
        case Failure(e) => Failure(e)
        case Success(d) => Success(v + [d])
  }

  /** Lines 22-25: fill a vector with one distance per channel of the
      first representation. */
  method GestureSeriesDist(first: Repr, second: Repr, params: DistParams) returns (r: Result<seq<real>>)
    requires Comparable(first, second, params)
    ensures r == ChannelDistances(first, second, params, first.width)
  {
    var ans := new real[first.width];
    ghost var done: seq<real> := [];
    for i := 0 to first.width
      invariant ans[..i] == done
      invariant ChannelDistances(first, second, params, i) == Success(done)
    {
      var d := DpTimeSeriesDistance(Column(first, i), Column(second, i), params.budget,
                                    params.pairwise, params.erase);
      assert d == ColumnDistance(first, second, params, i);
      if d.Failure? {
        ChannelDistancesFailsAt(first, second, params, i);
        return Failure(d.error);
      }
      ChannelDistancesAppend(first, second, params, i, done, d.value);
      ans[i] := d.value;
      done := done + [d.value];
    }
    assert ans[..] == ans[..first.width];
    return Success(ans[..]);
  }

  /** One iteration of the loop: the vector for one more channel. */
  lemma ChannelDistancesStep(first: Repr, second: Repr, params: DistParams, n: nat)
    requires Comparable(first, second, params) && 0 < n <= first.width
    ensures ChannelDistances(first, second, params, n) ==
      match ChannelDistances(first, second, params, n - 1)
      case Failure(e) => Failure(e)
      case Success(v) =>
        match ColumnDistance(first, second, params, n - 1)
        case Failure(e) => Failure(e)
        case Success(d) => Success(v + [d])
  {
  }

  /** A zero-channel first input is comparable with any rectangular second
      input, whatever the lengths and the budget, and the loop leaves the
      vector empty. */
  lemma NoChannelsEmptyVector(first: Repr, second: Repr, params: DistParams)
    requires WellShaped(first) && WellShaped(second) && first.width == 0
    ensures Comparable(first, second, params)
    ensures ChannelDistances(first, second, params, first.width) == Success([])
  {
  }

  /** The loop's success step: one more channel appended. */
  lemma ChannelDistancesAppend(first: Repr, second: Repr, params: DistParams, n: nat, v: seq<real>, d: real)
    requires Comparable(first, second, params) && n < first.width
    requires ChannelDistances(first, second, params, n) == Success(v)
    requires ColumnDistance(first, second, params, n) == Success(d)
    ensures ChannelDistances(first, second, params, n + 1) == Success(v + [d])
  {
    ChannelDistancesStep(first, second, params, n + 1);
  }

  /** The loop's failure step: the first failing channel decides. */
  lemma ChannelDistancesFailsAt(first: Repr, second: Repr, params: DistParams, n: nat)
    requires Comparable(first, second, params) && n < first.width
    requires ChannelDistances(first, second, params, n).Success?
    requires ColumnDistance(first, second, params, n).Failure?
    ensures ChannelDistances(first, second, params, first.width) ==
            Failure(ColumnDistance(first, second, params, n).error)
  {
    ChannelDistancesStep(first, second, params, n + 1);
    ChannelDistancesFailureKept(first, second, params, n + 1, first.width);
  }

  /** Once the vector fails for the first n channels it fails the same way
      for more. */
  lemma {:induction false} ChannelDistancesFailureKept(first: Repr, second: Repr, params: DistParams, n: nat, n2: nat)
    requires Comparable(first, second, params) && n <= n2 <= first.width
    requires ChannelDistances(first, second, params, n).Failure?
    ensures ChannelDistances(first, second, params, n2) == ChannelDistances(first, second, params, n)
    decreases n2
  {
    if n2 > n {
      ChannelDistancesFailureKept(first, second, params, n, n2 - 1);
      ChannelDistancesStep(first, second, params, n2);
    }
  }

  /** A failure is the failure of the first channel whose distance fails. */
  lemma {:induction false} ChannelDistancesFailure(first: Repr, second: Repr, params: DistParams, n: nat)
    returns (k: nat)
    requires Comparable(first, second, params) && n <= first.width
    requires ChannelDistances(first, second, params, n).Failure?
    ensures k < n && ColumnDistance(first, second, params, k) == Failure(ChannelDistances(first, second, params, n).error)
    ensures forall j :: 0 <= j < k ==> ColumnDistance(first, second, params, j).Success?
  {
    ChannelDistancesStep(first, second, params, n);
    if ChannelDistances(first, second, params, n - 1).Failure? {
      k := ChannelDistancesFailure(first, second, params, n - 1);
    } else {
      k := n - 1;
    }
  }

  /** With at least one channel, whether the vector exists is decided by
      the two lengths alone: every channel resolves and checks the same
      budget, so all fail together with the same error. */
  lemma ChannelsFailTogether(first: Repr, second: Repr, params: DistParams)
    requires Comparable(first, second, params) && first.width > 0
    ensures var lo := |Shorter(Column(first, 0), Column(second, 0))|;
            var hi := |Longer(Column(first, 0), Column(second, 0))|;
            match CheckedBudget(params.budget, lo, hi)
            case Failure(e) => ChannelDistances(first, second, params, first.width) == Failure(e)
            case Success(_) => ChannelDistances(first, second, params, first.width).Success?
  {
    var lo := |Shorter(Column(first, 0), Column(second, 0))|;
    var hi := |Longer(Column(first, 0), Column(second, 0))|;
    forall k | 0 <= k < first.width
      ensures ColumnDistance(first, second, params, k).Failure? <==> CheckedBudget(params.budget, lo, hi).Failure?
      ensures ColumnDistance(first, second, params, k).Failure? ==>
                ColumnDistance(first, second, params, k).error == CheckedBudget(params.budget, lo, hi).error
    {
      assert |Shorter(Column(first, k), Column(second, k))| == lo;
      assert |Longer(Column(first, k), Column(second, k))| == hi;
    }
    if ChannelDistances(first, second, params, first.width).Failure? {
      var k := ChannelDistancesFailure(first, second, params, first.width);
    }
  }

  /** Channels are independent: two pairs of inputs of the same shape that
      agree on channel k get the same distance there, whatever the other
      channels hold. */
  lemma ChannelIndependent(first: Repr, second: Repr, first2: Repr, second2: Repr,
                           params: DistParams, k: nat)
    requires Comparable(first, second, params) && Comparable(first2, second2, params)
    requires k < first.width && k < first2.width
    requires Column(first, k) == Column(first2, k) && Column(second, k) == Column(second2, k)
    requires ChannelDistances(first, second, params, first.width).Success?
    requires ChannelDistances(first2, second2, params, first2.width).Success?
    ensures ChannelDistances(first, second, params, first.width).value[k] ==
            ChannelDistances(first2, second2, params, first2.width).value[k]
  {
    assert ColumnDistance(first, second, params, k) == ColumnDistance(first2, second2, params, k);
  }
}
