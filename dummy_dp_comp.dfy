/** `DummyDPComparator` (examples/DP_app/dummy_dp_comp.py): a threshold
    and an append-only list of valid exemplar gestures. A query is valid
    when some exemplar's worst channel distance to it is within the
    threshold. */
module DummyDpComp {
  import opened Basics
  import opened DpDist
  import opened GestureDist

  /** The largest entry of a nonempty vector (numpy `.max()`). */
  function MaxSeq(v: seq<real>): (r: real)
    requires |v| > 0
    ensures forall k :: 0 <= k < |v| ==> v[k] <= r
    ensures exists k :: 0 <= k < |v| && v[k] == r
  {
    if |v| == 1 then v[0]
    else
      var rest := MaxSeq(v[1..]);
      assert forall k :: 1 <= k < |v| ==> v[k] == v[1..][k - 1];
      MaxReal(v[0], rest)
  }

  /** The mismatch score of a query against one exemplar: the largest of
      the per-channel distances, exemplar first. A zero-channel vector has
      no maximum. */
  function Score(exemplar: Repr, query: Repr, params: DistParams): (r: Result<real>)
    requires Comparable(exemplar, query, params)
    ensures exemplar.width == 0 ==> r == Failure(EmptyChannels)
    ensures r.Success? ==>
      forall k :: 0 <= k < exemplar.width ==>
        ColumnDistance(exemplar, query, params, k).Success? &&
        ColumnDistance(exemplar, query, params, k).value <= r.value
  {
    match ChannelDistances(exemplar, query, params, exemplar.width)
    case Failure(e) => Failure(e)
    case Success(v) => if |v| == 0 then Failure(EmptyChannels) else Success(MaxSeq(v))
  }

  /** The score is the worst channel: it exists exactly when there is a
      channel and every channel distance exists, and it is then the largest
      of them, reached at channel k. */
  lemma ScoreIsWorstChannel(exemplar: Repr, query: Repr, params: DistParams) returns (k: nat)
    requires Comparable(exemplar, query, params)
    ensures exemplar.width == 0 ==> Score(exemplar, query, params) == Failure(EmptyChannels)
    ensures Score(exemplar, query, params).Success? <==>
      exemplar.width > 0 &&
      forall j :: 0 <= j < exemplar.width ==> ColumnDistance(exemplar, query, params, j).Success?
    ensures Score(exemplar, query, params).Success? ==>
      (forall j :: 0 <= j < exemplar.width ==>
        ColumnDistance(exemplar, query, params, j).value <= Score(exemplar, query, params).value) &&
      k < exemplar.width && ColumnDistance(exemplar, query, params, k) == Score(exemplar, query, params)
  {
    k := 0;
    var v := ChannelDistances(exemplar, query, params, exemplar.width);
    if v.Success? && |v.value| > 0 {
      k :| 0 <= k < |v.value| && v.value[k] == MaxSeq(v.value);
      assert ColumnDistance(exemplar, query, params, k) == Success(v.value[k]);
    }
  }

  /** A zero-channel exemplar can be scored against any rectangular query,
      whatever the lengths and the budget: the vector is empty and `.max()`
      raises, here EmptyChannels. */
  lemma NoChannelsScore(exemplar: Repr, query: Repr, params: DistParams)
    requires WellShaped(exemplar) && WellShaped(query) && exemplar.width == 0
    ensures Comparable(exemplar, query, params)
    ensures Score(exemplar, query, params) == Failure(EmptyChannels)
  {
  }

  /** Every exemplar of the store can be compared with the query. */
  predicate Queryable(store: seq<Repr>, query: Repr, params: DistParams)
  {
    forall k :: 0 <= k < |store| ==> Comparable(store[k], query, params)
  }

  /** The score of every exemplar, in insertion order. */
  function Scores(store: seq<Repr>, query: Repr, params: DistParams): (r: seq<Result<real>>)
    requires Queryable(store, query, params)
    ensures |r| == |store|
    ensures forall k :: 0 <= k < |r| ==> r[k] == Score(store[k], query, params)
  {
    seq(|store|, k requires 0 <= k < |store| => Score(store[k], query, params))
  }

  /** What `is_valid` returns on the scores from position k on: the first
      score within the threshold decides, and a failing score raises before
      any later exemplar is looked at. */
  function AcceptsFrom(scores: seq<Result<real>>, k: nat, threshold: real): (r: Result<bool>)
    requires k <= |scores|
    ensures k == |scores| ==> r == Success(false)
    decreases |scores| - k
  {
    if k == |scores| then Success(false)
    else
      match scores[k]
      case Failure(e) => Failure(e)
      case Success(d) => if d <= threshold then Success(true) else AcceptsFrom(scores, k + 1, threshold)
  }

  function Accepts(scores: seq<Result<real>>, threshold: real): (r: Result<bool>)
    ensures scores == [] ==> r == Success(false)
    ensures |scores| > 0 && scores[0].Success? && scores[0].value <= threshold ==> r == Success(true)
    ensures |scores| > 0 && scores[0].Failure? ==> r == Failure(scores[0].error)
  {
    AcceptsFrom(scores, 0, threshold)
  }

  /** What `proba_is_valid` computes as `min_dist`, from position k on with
      the running minimum `acc` of the scores before k (None before the
      first one). */
  function MinFrom(scores: seq<Result<real>>, k: nat, acc: Option<real>): Result<real>
    requires k <= |scores| && (k > 0 ==> acc.Some?) && |scores| > 0
    decreases |scores| - k
  {
    if k == |scores| then Success(acc.value)
    else
      match scores[k]
      case Failure(e) => Failure(e)
      case Success(d) => MinFrom(scores, k + 1, NextMin(acc, d))
  }

  /** Line 40-41: the running minimum after seeing d. */
  function NextMin(acc: Option<real>, d: real): (r: Option<real>)
    ensures r.Some? && r.value <= d && (acc.Some? ==> r.value <= acc.value)
    ensures r == Some(d) || r == acc
  {
    if acc.None? || acc.value > d then Some(d) else acc
  }

  function MinDist(scores: seq<Result<real>>): (r: Result<real>)
    requires |scores| > 0
    ensures r.Failure? ==> exists j :: 0 <= j < |scores| && scores[j].Failure?
  {
    MinFromBelow(scores, 0, None);
    MinFrom(scores, 0, None)
  }

  /** The score of one exemplar, as both loops compute it. */
  method MismatchScore(exemplar: Repr, query: Repr, params: DistParams) returns (r: Result<real>)
    requires Comparable(exemplar, query, params)
    ensures r == Score(exemplar, query, params)
  {
    var v := GestureSeriesDist(exemplar, query, params);
    if v.Failure? {
      return Failure(v.error);
    }
    if |v.value| == 0 {
      return Failure(EmptyChannels);
    }
    return Success(MaxSeq(v.value));
  }

  /** Default threshold (line 14). */
  const DefaultThreshold: real := 0.2

  class DummyDPComparator {
    var threshold: real
    var params: DistParams
    var validGestures: seq<Repr>

    /** The constructor's assertion, kept by every method. */
    predicate Valid()
      reads this
    {
      threshold >= 0.0
    }

    /** Lines 16-18, once the assertion on line 15 has passed. */
    constructor Init(threshold: real, params: DistParams)
      requires threshold >= 0.0
      ensures Valid()
      ensures this.threshold == threshold && this.params == params && validGestures == []
    {
      this.threshold := threshold;
      this.params := params;
      validGestures := [];
    }

    /** Lines 14-18: a negative threshold fails the assertion; otherwise
        the comparator starts with an empty store. */
    static method Create(threshold: real, params: DistParams) returns (r: Result<DummyDPComparator>)
      ensures r.Failure? <==> threshold < 0.0
      ensures r.Failure? ==> r.error == InvalidThreshold
      ensures r.Success? ==> fresh(r.value) && r.value.Valid()
      ensures r.Success? ==> r.value.threshold == threshold && r.value.params == params
      ensures r.Success? ==> r.value.validGestures == []
    {
      if threshold < 0.0 {
        return Failure(InvalidThreshold);
      }
      var c := new DummyDPComparator.Init(threshold, params);
      return Success(c);
    }

    /** Line 21: append one exemplar; the threshold and the parameters are
        outside the frame and so unchanged. */
    method AddValidGesture(g: Repr)
      requires Valid()
      modifies this`validGestures
      ensures Valid()
      ensures validGestures == old(validGestures) + [g]
    {
      validGestures := validGestures + [g];
    }

    /** Lines 23-31: the first exemplar within the threshold returns true,
        an exhausted store returns false. */
    method IsValid(query: Repr) returns (r: Result<bool>)
      requires Queryable(validGestures, query, params)
      ensures r == Accepts(Scores(validGestures, query, params), threshold)
    {
      ghost var scores := Scores(validGestures, query, params);
      for k := 0 to |validGestures|
        invariant Accepts(scores, threshold) == AcceptsFrom(scores, k, threshold)
      {
        var dist := MismatchScore(validGestures[k], query, params);
        if dist.Failure? {
          return Failure(dist.error);
        }
        if dist.value <= threshold {
          return Success(true);
        }
      }
      return Success(false);
    }

    /** Lines 34-41: the running minimum of the scores (the float power on
        line 42 is not modelled). */
    method ProbaMinDist(query: Repr) returns (r: Result<real>)
      requires |validGestures| > 0 && Queryable(validGestures, query, params)
      ensures r == MinDist(Scores(validGestures, query, params))
    {
      ghost var scores := Scores(validGestures, query, params);
      var minDist: Option<real> := None;
      for k := 0 to |validGestures|
        invariant k > 0 ==> minDist.Some?
        invariant MinDist(scores) == MinFrom(scores, k, minDist)
      {
        var dist := MismatchScore(validGestures[k], query, params);
        if dist.Failure? {
          return Failure(dist.error);
        }
        minDist := NextMin(minDist, dist.value);
      }
      return Success(minDist.value);
    }
  }

  /** The values of the scores in [lo, hi), all of which exist. */
  predicate AllWithin(scores: seq<Result<real>>, lo: nat, hi: nat)
    requires lo <= hi <= |scores|
  {
    forall j :: lo <= j < hi ==> scores[j].Success?
  }

  /** `is_valid` in full: true exactly when some score is within the
      threshold and every earlier one exists and is above it; false exactly
      when every score exists and is above it. */
  lemma {:induction false} AcceptsFromIff(scores: seq<Result<real>>, k: nat, threshold: real)
    requires k <= |scores|
    ensures AcceptsFrom(scores, k, threshold) == Success(true) <==>
      exists f :: k <= f < |scores| && scores[f].Success? && scores[f].value <= threshold &&
        (forall j :: k <= j < f ==> scores[j].Success? && scores[j].value > threshold)
    ensures AcceptsFrom(scores, k, threshold) == Success(false) <==>
      forall j :: k <= j < |scores| ==> scores[j].Success? && scores[j].value > threshold
    decreases |scores| - k
  {
    if k < |scores| {
      AcceptsFromIff(scores, k + 1, threshold);
      if scores[k].Success? && scores[k].value > threshold {
        if AcceptsFrom(scores, k, threshold) == Success(true) {
          var f :| k + 1 <= f < |scores| && scores[f].Success? && scores[f].value <= threshold &&
            (forall j :: k + 1 <= j < f ==> scores[j].Success? && scores[j].value > threshold);
          assert forall j :: k <= j < f ==> scores[j].Success? && scores[j].value > threshold;
        }
      }
    }
  }

  lemma AcceptsIff(scores: seq<Result<real>>, threshold: real)
    ensures Accepts(scores, threshold) == Success(true) <==>
      exists f :: 0 <= f < |scores| && scores[f].Success? && scores[f].value <= threshold &&
        (forall j :: 0 <= j < f ==> scores[j].Success? && scores[j].value > threshold)
    ensures Accepts(scores, threshold) == Success(false) <==>
      forall j :: 0 <= j < |scores| ==> scores[j].Success? && scores[j].value > threshold
  {
    AcceptsFromIff(scores, 0, threshold);
  }

  /** The running minimum: it exists exactly when every score from k on
      exists, and it is then at most each of them and at most acc. */
  lemma {:induction false} MinFromBelow(scores: seq<Result<real>>, k: nat, acc: Option<real>)
    requires k <= |scores| && (k > 0 ==> acc.Some?) && |scores| > 0
    ensures MinFrom(scores, k, acc).Success? <==> AllWithin(scores, k, |scores|)
    ensures MinFrom(scores, k, acc).Success? ==>
      (forall j :: k <= j < |scores| ==> MinFrom(scores, k, acc).value <= scores[j].value) &&
      (acc.Some? ==> MinFrom(scores, k, acc).value <= acc.value)
    decreases |scores| - k
  {
    if k < |scores| && scores[k].Success? {
      var d := scores[k].value;
      MinFromBelow(scores, k + 1, NextMin(acc, d));
    }
  }

  /** The running minimum is acc or one of the scores from k on. */
  lemma {:induction false} MinFromAttained(scores: seq<Result<real>>, k: nat, acc: Option<real>) returns (f: int)
    requires k <= |scores| && (k > 0 ==> acc.Some?) && |scores| > 0
    requires MinFrom(scores, k, acc).Success?
    ensures f == -1 ==> acc == Some(MinFrom(scores, k, acc).value)
    ensures f != -1 ==> k <= f < |scores| && scores[f] == MinFrom(scores, k, acc)
    decreases |scores| - k
  {
    if k == |scores| {
      f := -1;
    } else {
      var d := scores[k].value;
      var next := NextMin(acc, d);
      f := MinFromAttained(scores, k + 1, next);
      if f == -1 && next == Some(d) {
        f := k;
      }
    }
  }

  /** `min_dist` is the minimum of the scores: it exists exactly when all of
      them do, lies below each and equals one. */
  lemma MinDistIsMinimum(scores: seq<Result<real>>) returns (f: nat)
    requires |scores| > 0
    ensures MinDist(scores).Success? <==> forall j :: 0 <= j < |scores| ==> scores[j].Success?
    ensures MinDist(scores).Success? ==>
      (forall j :: 0 <= j < |scores| ==> MinDist(scores).value <= scores[j].value) &&
      f < |scores| && scores[f] == MinDist(scores)
  {
    MinFromBelow(scores, 0, None);
    f := 0;
    if MinDist(scores).Success? {
      var g := MinFromAttained(scores, 0, None);
      f := g;
    }
  }

  /** For a nonempty store whose scores all exist, `is_valid` holds exactly
      when `min_dist` is within the threshold. */
  lemma ValidIffMinWithin(scores: seq<Result<real>>, threshold: real)
    requires |scores| > 0 && MinDist(scores).Success?
    ensures Accepts(scores, threshold) == Success(MinDist(scores).value <= threshold)
  {
    AcceptsIff(scores, threshold);
    var k := MinDistIsMinimum(scores);
    if MinDist(scores).value <= threshold {
      var first := FirstWithin(scores, threshold, k);
    }
  }

  /** The earliest score at or before k within the threshold, when all
      scores exist and score k is within it. */
  lemma {:induction false} FirstWithin(scores: seq<Result<real>>, threshold: real, k: nat) returns (f: nat)
    requires k < |scores| && forall j :: 0 <= j < |scores| ==> scores[j].Success?
    requires scores[k].value <= threshold
    ensures f <= k && scores[f].value <= threshold
    ensures forall j :: 0 <= j < f ==> scores[j].value > threshold
    decreases k
  {
    if exists j :: 0 <= j < k && scores[j].value <= threshold {
      var j :| 0 <= j < k && scores[j].value <= threshold;
      f := FirstWithin(scores, threshold, j);
    } else {
      f := k;
    }
  }
}
