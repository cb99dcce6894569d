/** The in-place table fill of `dp_time_series_distance`
    (distance/per_series_dist/dp_dist.py, lines 49-72), proved to leave
    Best(p, i, s, t) in every cell. */
module DpTable {
  import opened Basics
  import opened DpSpec

  /** Before the first relaxation only the start cell holds a value. */
  lemma ExpectedInitial(p: Problem, i: nat, s: nat, t: nat)
    ensures Expected(p, 0, 0, 0, i, s, t) == Start(i, s, t)
  {
  }

  /** When the loops reach a processed state, every move into it has been
      relaxed, so the cell already holds its final value. */
  lemma ExpectedAtSelf(p: Problem, i: nat, s: nat, t: nat)
    requires Processed(p, i, s, t)
    ensures Expected(p, i, s, t, i, s, t) == Best(p, i, s, t)
  {
  }

  /** The end of the innermost loop is the start of the next a_shift row. */
  lemma ExpectedRowEnd(p: Problem, i: nat, s: nat, x: nat, y: nat, z: nat)
    ensures Expected(p, i, s, p.m + 1, x, y, z) == Expected(p, i, s + 1, 0, x, y, z)
  {
  }

  /** Leaving the a_shift loop, either by the `break` (s > i) or at its end
      (s > m), is the start of the next a_id layer. */
  lemma ExpectedLayerEnd(p: Problem, i: nat, s: nat, x: nat, y: nat, z: nat)
    requires s > i || s > p.m
    ensures Expected(p, i, s, 0, x, y, z) == Expected(p, i + 1, 0, 0, x, y, z)
  {
  }

  /** After the last layer every cell holds its final value. */
  lemma ExpectedFinal(p: Problem, x: nat, y: nat, z: nat)
    ensures Expected(p, |p.a| + 1, 0, 0, x, y, z) == Best(p, x, y, z)
  {
  }

  /** Relaxing the three moves out of a processed state (i, s, t) changes
      exactly their three target cells, each by one `min`. */
  lemma ExpectedStep(p: Problem, i: nat, s: nat, t: nat, x: nat, y: nat, z: nat)
    requires Processed(p, i, s, t)
    ensures Expected(p, i, s, t + 1, x, y, z) ==
      if x == i + 1 && y == s && z == t && CanMatch(p, i, s, t) then
        MinOpt(Expected(p, i, s, t, x, y, z), AddOpt(Best(p, i, s, t), MatchCost(p, i, s, t)))
      else if x == i + 1 && y == s + 1 && z == t && CanEraseA(p, i, s, t) then
        MinOpt(Expected(p, i, s, t, x, y, z), AddOpt(Best(p, i, s, t), EraseACost(p, i, s, t)))
      else if x == i && y == s && z == t + 1 && CanEraseB(p, i, s, t) then
        MinOpt(Expected(p, i, s, t, x, y, z), AddOpt(Best(p, i, s, t), EraseBCost(p, i, s, t)))
      else
        Expected(p, i, s, t, x, y, z)
  {
  }

  /** The table has one cell per (a_id, a_shift, b_shift). */
  predicate Shaped(p: Problem, dp: array3<Option<real>>)
  {
    dp.Length0 == |p.a| + 1 && dp.Length1 == p.m + 1 && dp.Length2 == p.m + 1
  }

  /** The table matches Expected at program point (pi, ps, pt). */
  ghost predicate Holds(p: Problem, dp: array3<Option<real>>, pi: nat, ps: nat, pt: nat)
    reads dp
  {
    Shaped(p, dp) &&
    forall x, y, z :: 0 <= x < dp.Length0 && 0 <= y < dp.Length1 && 0 <= z < dp.Length2 ==>
      dp[x, y, z] == Expected(p, pi, ps, pt, x, y, z)
  }

  /** The table part-way through the loop body at (i, s, t): the first n
      of its three relaxations (match, erase from `a`, erase from `b`) are
      done. With n = 0 this is Expected at (i, s, t), with n = 3 it is
      Expected one program point later (ExpectedStep). */
  ghost function Relaxed(p: Problem, i: nat, s: nat, t: nat, n: nat, x: nat, y: nat, z: nat): Option<real>
    requires Processed(p, i, s, t)
  {
    var e := Expected(p, i, s, t, x, y, z);
    if n >= 1 && x == i + 1 && y == s && z == t && CanMatch(p, i, s, t) then
      MinOpt(e, AddOpt(Best(p, i, s, t), MatchCost(p, i, s, t)))
    else if n >= 2 && x == i + 1 && y == s + 1 && z == t && CanEraseA(p, i, s, t) then
      MinOpt(e, AddOpt(Best(p, i, s, t), EraseACost(p, i, s, t)))
    else if n >= 3 && x == i && y == s && z == t + 1 && CanEraseB(p, i, s, t) then
      MinOpt(e, AddOpt(Best(p, i, s, t), EraseBCost(p, i, s, t)))
    else e
  }

  /** The table matches Relaxed after n relaxations out of (i, s, t). */
  ghost predicate HoldsPart(p: Problem, dp: array3<Option<real>>, i: nat, s: nat, t: nat, n: nat)
    requires Processed(p, i, s, t)
    reads dp
  {
    Shaped(p, dp) &&
    forall x, y, z :: 0 <= x < dp.Length0 && 0 <= y < dp.Length1 && 0 <= z < dp.Length2 ==>
      dp[x, y, z] == Relaxed(p, i, s, t, n, x, y, z)
  }

  /** Lines 59-62: relax the match move into (i + 1, s, t). */
  method RelaxMatch(p: Problem, dp: array3<Option<real>>, i: nat, s: nat, t: nat)
    requires Processed(p, i, s, t) && HoldsPart(p, dp, i, s, t, 0)
    modifies dp
    ensures HoldsPart(p, dp, i, s, t, 1)
  {
    var bId := i - s + t;
    ExpectedAtSelf(p, i, s, t);
    if i < |p.a| && bId < |p.b| {
      dp[i + 1, s, t] := MinOpt(dp[i + 1, s, t], AddOpt(dp[i, s, t], p.pairwise(p.a[i], p.b[bId])));
    }
  }

  /** Lines 64-67: relax the erasure from `a` into (i + 1, s + 1, t). */
  method RelaxEraseA(p: Problem, dp: array3<Option<real>>, i: nat, s: nat, t: nat)
    requires Processed(p, i, s, t) && HoldsPart(p, dp, i, s, t, 1)
    modifies dp
    ensures HoldsPart(p, dp, i, s, t, 2)
  {
    ExpectedAtSelf(p, i, s, t);
    assert dp[i, s, t] == Relaxed(p, i, s, t, 1, i, s, t);
    if s < p.m && i < |p.a| {
      dp[i + 1, s + 1, t] := MinOpt(dp[i + 1, s + 1, t], AddOpt(dp[i, s, t], p.erase(p.a, i)));
    }
  }

  /** Lines 69-72: relax the erasure from `b` into (i, s, t + 1). */
  method RelaxEraseB(p: Problem, dp: array3<Option<real>>, i: nat, s: nat, t: nat)
    requires Processed(p, i, s, t) && HoldsPart(p, dp, i, s, t, 2)
    modifies dp
    ensures HoldsPart(p, dp, i, s, t, 3)
  {
    var bId := i - s + t;
    ExpectedAtSelf(p, i, s, t);
    assert dp[i, s, t] == Relaxed(p, i, s, t, 2, i, s, t);
    if t < p.m && bId < |p.b| {
      dp[i, s, t + 1] := MinOpt(dp[i, s, t + 1], AddOpt(dp[i, s, t], p.erase(p.b, bId)));
    }
  }

  /** The body of the innermost loop: the three `min`-relaxations out of
      state (i, s, t), with b_id derived from it. */
  method RelaxFrom(p: Problem, dp: array3<Option<real>>, i: nat, s: nat, t: nat)
    requires Processed(p, i, s, t)
    requires Holds(p, dp, i, s, t)
    modifies dp
    ensures Holds(p, dp, i, s, t + 1)
  {
    RelaxMatch(p, dp, i, s, t);
    RelaxEraseA(p, dp, i, s, t);
    RelaxEraseB(p, dp, i, s, t);
    forall x, y, z | 0 <= x < dp.Length0 && 0 <= y < dp.Length1 && 0 <= z < dp.Length2
      ensures dp[x, y, z] == Expected(p, i, s, t + 1, x, y, z)
    {
      ExpectedStep(p, i, s, t, x, y, z);
    }
  }

  /** Lines 49-72: allocate the table at the sentinel, set the start cell
      to zero and relax every processed state in loop order. Afterwards
      every cell holds the cheapest cost of reaching its state. */
  method FillTable(p: Problem) returns (dp: array3<Option<real>>)
    ensures fresh(dp) && Shaped(p, dp)
    ensures forall x, y, z :: 0 <= x < dp.Length0 && 0 <= y < dp.Length1 && 0 <= z < dp.Length2 ==>
      dp[x, y, z] == Best(p, x, y, z)
  {
    dp := new Option<real>[|p.a| + 1, p.m + 1, p.m + 1]((x, y, z) => None);
    dp[0, 0, 0] := Some(0.0);
    forall x, y, z | 0 <= x < dp.Length0 && 0 <= y < dp.Length1 && 0 <= z < dp.Length2
      ensures dp[x, y, z] == Expected(p, 0, 0, 0, x, y, z)
    {
      ExpectedInitial(p, x, y, z);
    }
    for i := 0 to |p.a| + 1
      invariant Holds(p, dp, i, 0, 0)
    {
      var s := 0;
      while s <= p.m
        invariant s <= p.m + 1 && s <= i + 1
        invariant Holds(p, dp, i, s, 0)
      {
        if i < s {
          break;
        }
        for t := 0 to p.m + 1
          invariant Holds(p, dp, i, s, t)
        {
          RelaxFrom(p, dp, i, s, t);
        }
        forall x, y, z | 0 <= x < dp.Length0 && 0 <= y < dp.Length1 && 0 <= z < dp.Length2
          ensures dp[x, y, z] == Expected(p, i, s + 1, 0, x, y, z)
        {
          ExpectedRowEnd(p, i, s, x, y, z);
        }
        s := s + 1;
      }
      forall x, y, z | 0 <= x < dp.Length0 && 0 <= y < dp.Length1 && 0 <= z < dp.Length2
        ensures dp[x, y, z] == Expected(p, i + 1, 0, 0, x, y, z)
      {
        ExpectedLayerEnd(p, i, s, x, y, z);
      }
    }
    forall x, y, z | 0 <= x < dp.Length0 && 0 <= y < dp.Length1 && 0 <= z < dp.Length2
      ensures dp[x, y, z] == Best(p, x, y, z)
    {
      ExpectedFinal(p, x, y, z);
    }
  }
}
