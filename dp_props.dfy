/** Properties of `dp_time_series_distance`
    (distance/per_series_dist/dp_dist.py) stated over its specification:
    nonnegativity, invariance under swapping the arguments, monotonicity in
    the erasure budget, and the two worked examples. */
module DpProps {
  import opened Basics
  import opened DpSpec
  import opened DpDist
  import DpReach

  ghost predicate NonNegativeCosts(pairwise: (real, real) -> real, erase: (seq<real>, nat) -> real)
  {
    (forall x, y :: pairwise(x, y) >= 0.0) && (forall x, k :: erase(x, k) >= 0.0)
  }

  ghost predicate Symmetric(pairwise: (real, real) -> real)
  {
    forall x, y :: pairwise(x, y) == pairwise(y, x)
  }

  /** The scanned minimum is one of the scanned values. */
  lemma {:induction false} ScanMinAttained(p: Problem, k: nat) returns (s: nat)
    requires Scannable(p) && k <= p.m - (|p.b| - |p.a|)
    ensures s <= k && ScanMin(p, k) == Terminal(p, s)
  {
    if k == 0 {
      s := 0;
    } else if ScanMin(p, k - 1) <= Terminal(p, k) {
      s := ScanMinAttained(p, k - 1);
    } else {
      s := k;
    }
  }

  /** With nonnegative costs every reachable cell holds a nonnegative cost. */
  lemma {:induction false} BestNonNegative(p: Problem, i: nat, s: nat, t: nat)
    requires NonNegativeCosts(p.pairwise, p.erase)
    ensures Best(p, i, s, t).Some? ==> Best(p, i, s, t).value >= 0.0
    decreases i, t
  {
    if i > 0 {
      BestNonNegative(p, i - 1, s, t);
      if s > 0 {
        BestNonNegative(p, i - 1, s - 1, t);
      }
    }
    if t > 0 {
      BestNonNegative(p, i, s, t - 1);
    }
    if i > 0 && CanMatch(p, i - 1, s, t) {
      var x, y := p.a[i - 1], p.b[BId(i - 1, s, t)];
      assert p.pairwise(x, y) >= 0.0;
    }
    if i > 0 && s > 0 && CanEraseA(p, i - 1, s - 1, t) {
      assert EraseACost(p, i - 1, s - 1, t) >= 0.0;
    }
    if t > 0 && CanEraseB(p, i, s, t - 1) {
      assert EraseBCost(p, i, s, t - 1) >= 0.0;
    }
  }

  lemma TerminalNonNegative(p: Problem, s: nat)
    requires Scannable(p) && s <= p.m - (|p.b| - |p.a|)
    requires NonNegativeCosts(p.pairwise, p.erase)
    ensures Terminal(p, s) >= 0.0
  {
    var d := |p.b| - |p.a|;
    BestNonNegative(p, |p.a|, s, s + d);
    DpReach.ReachableIff(p, |p.a|, s, s + d);
    var v := Best(p, |p.a|, s, s + d).value;
    var c := (|p.a| - s) as real;
    assert c > 0.0 && v >= 0.0;
    assert Terminal(p, s) == v / c;
  }

  /** With nonnegative costs the distance is nonnegative. */
  lemma DistanceNonNegative(a: seq<real>, b: seq<real>, budget: Budget,
                            pairwise: (real, real) -> real, erase: (seq<real>, nat) -> real)
    requires ScanDefined(|a|, |b|, budget)
    requires NonNegativeCosts(pairwise, erase)
    requires Distance(a, b, budget, pairwise, erase).Success?
    ensures Distance(a, b, budget, pairwise, erase).value >= 0.0
  {
    var m := CheckedBudget(budget, |Shorter(a, b)|, |Longer(a, b)|).value;
    var p := Resolve(a, b, m, pairwise, erase);
    var s := ScanMinAttained(p, m - (|p.b| - |p.a|));
    TerminalNonNegative(p, s);
  }

  /** The problem with the two series exchanged. */
  function Swapped(p: Problem): Problem
  {
    Problem(p.b, p.a, p.m, p.pairwise, p.erase)
  }

  lemma MirrorMatch(p: Problem, i: nat, s: nat, t: nat)
    requires |p.a| == |p.b| && Symmetric(p.pairwise)
    requires s <= i && DpReach.InRange(p, i, s, t)
    requires i > 0 && s < i ==> Best(p, i - 1, s, t) == Best(Swapped(p), i - s + t - 1, t, s)
    ensures IntoByMatch(p, i, s, t) == IntoByMatch(Swapped(p), i - s + t, t, s)
  {
    if i > 0 && CanMatch(p, i - 1, s, t) {
      var x, y := p.a[i - 1], p.b[BId(i - 1, s, t)];
      assert p.pairwise(x, y) == p.pairwise(y, x);
      assert MatchCost(p, i - 1, s, t) == MatchCost(Swapped(p), i - s + t - 1, t, s);
    }
  }

  lemma MirrorEraseA(p: Problem, i: nat, s: nat, t: nat)
    requires |p.a| == |p.b|
    requires s <= i && DpReach.InRange(p, i, s, t)
    requires i > 0 && s > 0 ==> Best(p, i - 1, s - 1, t) == Best(Swapped(p), i - s + t, t, s - 1)
    ensures IntoByEraseA(p, i, s, t) == IntoByEraseB(Swapped(p), i - s + t, t, s)
  {
  }

  lemma MirrorEraseB(p: Problem, i: nat, s: nat, t: nat)
    requires |p.a| == |p.b|
    requires s <= i && DpReach.InRange(p, i, s, t)
    requires t > 0 ==> Best(p, i, s, t - 1) == Best(Swapped(p), i - s + t - 1, t - 1, s)
    ensures IntoByEraseB(p, i, s, t) == IntoByEraseA(Swapped(p), i - s + t, t, s)
  {
  }

  /** Outside the reachable range both cells keep the sentinel. */
  lemma MirrorUnreachable(p: Problem, i: nat, s: nat, t: nat)
    requires |p.a| == |p.b| && s <= i && !DpReach.InRange(p, i, s, t)
    ensures Best(p, i, s, t) == Best(Swapped(p), i - s + t, t, s)
  {
    DpReach.ReachableIff(p, i, s, t);
    DpReach.ReachableIff(Swapped(p), i - s + t, t, s);
  }

  /** One step of BestMirror: the mirrored cell is combined from the
      mirrored predecessors by the same three moves, two of them exchanged. */
  lemma MirrorStep(p: Problem, q: Problem, i: nat, s: nat, t: nat, j: nat)
    requires q == Swapped(p) && j == i - s + t
    requires |p.a| == |p.b| && Symmetric(p.pairwise)
    requires s <= i && DpReach.InRange(p, i, s, t)
    requires i > 0 && s < i ==> Best(p, i - 1, s, t) == Best(q, j - 1, t, s)
    requires i > 0 && s > 0 ==> Best(p, i - 1, s - 1, t) == Best(q, j, t, s - 1)
    requires t > 0 ==> Best(p, i, s, t - 1) == Best(q, j - 1, t - 1, s)
    ensures Best(p, i, s, t) == Best(q, j, t, s)
  {
    MirrorMatch(p, i, s, t);
    MirrorEraseA(p, i, s, t);
    MirrorEraseB(p, i, s, t);
    MinOptComm(IntoByEraseA(p, i, s, t), IntoByEraseB(p, i, s, t));
  }

  /** For equal lengths no swap happens; with a symmetric pairwise cost the
      table of (b, a) is the table of (a, b) with the roles of the two
      erasure counters exchanged. */
  lemma {:induction false} BestMirror(p: Problem, i: nat, s: nat, t: nat)
    requires |p.a| == |p.b| && Symmetric(p.pairwise)
    requires s <= i
    ensures Best(p, i, s, t) == Best(Swapped(p), i - s + t, t, s)
    decreases i + (i - s + t), 2
  {
    if !DpReach.InRange(p, i, s, t) {
      MirrorUnreachable(p, i, s, t);
    } else {
      MirrorReachable(p, i, s, t);
    }
  }

  /** The inductive case of BestMirror: mirror the predecessors, then
      combine them with MirrorStep. */
  lemma {:induction false} MirrorReachable(p: Problem, i: nat, s: nat, t: nat)
    requires |p.a| == |p.b| && Symmetric(p.pairwise)
    requires s <= i && DpReach.InRange(p, i, s, t)
    ensures Best(p, i, s, t) == Best(Swapped(p), i - s + t, t, s)
    decreases i + (i - s + t), 1
  {
    MirrorBeforeMatch(p, i, s, t);
    MirrorBeforeEraseA(p, i, s, t);
    MirrorBeforeEraseB(p, i, s, t);
    MirrorStep(p, Swapped(p), i, s, t, i - s + t);
  }

  /** BestMirror at the predecessor through a match. */
  lemma {:induction false} MirrorBeforeMatch(p: Problem, i: nat, s: nat, t: nat)
    requires |p.a| == |p.b| && Symmetric(p.pairwise)
    requires s <= i
    ensures i > 0 && s < i ==> Best(p, i - 1, s, t) == Best(Swapped(p), (i - 1) - s + t, t, s)
    decreases i + (i - s + t), 0
  {
    if i > 0 && s < i {
      BestMirror(p, i - 1, s, t);
    }
  }

  /** BestMirror at the predecessor through an erasure from `a`. */
  lemma {:induction false} MirrorBeforeEraseA(p: Problem, i: nat, s: nat, t: nat)
    requires |p.a| == |p.b| && Symmetric(p.pairwise)
    requires s <= i
    ensures i > 0 && s > 0 ==> Best(p, i - 1, s - 1, t) == Best(Swapped(p), (i - 1) - (s - 1) + t, t, s - 1)
    decreases i + (i - s + t), 0
  {
    if i > 0 && s > 0 {
      BestMirror(p, i - 1, s - 1, t);
    }
  }

  /** BestMirror at the predecessor through an erasure from `b`. */
  lemma {:induction false} MirrorBeforeEraseB(p: Problem, i: nat, s: nat, t: nat)
    requires |p.a| == |p.b| && Symmetric(p.pairwise)
    requires s <= i
    ensures t > 0 ==> Best(p, i, s, t - 1) == Best(Swapped(p), i - s + (t - 1), t - 1, s)
    decreases i + (i - s + t), 0
  {
    if t > 0 {
      BestMirror(p, i, s, t - 1);
    }
  }

  /** Swapping the arguments gives the same result: for unequal lengths
      because the function swaps them itself, for equal lengths when the
      pairwise cost is symmetric. */
  lemma DistanceSymmetric(a: seq<real>, b: seq<real>, budget: Budget,
                          pairwise: (real, real) -> real, erase: (seq<real>, nat) -> real)
    requires ScanDefined(|a|, |b|, budget)
    requires |a| != |b| || Symmetric(pairwise)
    ensures ScanDefined(|b|, |a|, budget)
    ensures Distance(a, b, budget, pairwise, erase) == Distance(b, a, budget, pairwise, erase)
  {
    if |a| != |b| {
      DistanceSwapUnequal(a, b, budget, pairwise, erase);
    } else if CheckedBudget(budget, |a|, |b|).Success? {
      DistanceSwapEqual(a, b, budget, pairwise, erase, CheckedBudget(budget, |a|, |b|).value);
    }
  }

  /** Unequal lengths: both argument orders resolve to the same problem. */
  lemma DistanceSwapUnequal(a: seq<real>, b: seq<real>, budget: Budget,
                            pairwise: (real, real) -> real, erase: (seq<real>, nat) -> real)
    requires ScanDefined(|a|, |b|, budget) && |a| != |b|
    ensures ScanDefined(|b|, |a|, budget)
    ensures Distance(a, b, budget, pairwise, erase) == Distance(b, a, budget, pairwise, erase)
  {
    assert Shorter(a, b) == Shorter(b, a) && Longer(a, b) == Longer(b, a);
  }

  /** Equal lengths and an accepted budget: the mirrored tables give the
      same terminal scan. */
  lemma DistanceSwapEqual(a: seq<real>, b: seq<real>, budget: Budget,
                          pairwise: (real, real) -> real, erase: (seq<real>, nat) -> real, m: nat)
    requires ScanDefined(|a|, |b|, budget) && |a| == |b| && Symmetric(pairwise)
    requires CheckedBudget(budget, |a|, |b|) == Success(m)
    ensures ScanDefined(|b|, |a|, budget)
    ensures Distance(a, b, budget, pairwise, erase) == Distance(b, a, budget, pairwise, erase)
  {
    DistanceOnResolved(a, b, budget, pairwise, erase, m);
    DistanceOnResolved(b, a, budget, pairwise, erase, m);
    var p := Resolve(a, b, m, pairwise, erase);
    var q := Resolve(b, a, m, pairwise, erase);
    MirrorTerminals(p, q);
    ScanMinSame(p, q, m);
  }

  /** For equal lengths every scanned value of the swapped problem is the
      same as the original one: the terminal cells are their own mirrors. */
  lemma MirrorTerminals(p: Problem, q: Problem)
    requires Scannable(p) && |p.a| == |p.b| && Symmetric(p.pairwise) && q == Swapped(p)
    ensures Scannable(q)
    ensures forall s :: 0 <= s <= p.m ==> Terminal(p, s) == Terminal(q, s)
  {
    forall s | 0 <= s <= p.m
      ensures Terminal(p, s) == Terminal(q, s)
    {
      BestMirror(p, |p.a|, s, s);
    }
  }

  lemma {:induction false} ScanMinSame(p: Problem, q: Problem, k: nat)
    requires Scannable(p) && Scannable(q) && |p.a| == |q.a| && |p.b| == |q.b| && p.m == q.m
    requires k <= p.m - (|p.b| - |p.a|)
    requires forall s :: 0 <= s <= k ==> Terminal(p, s) == Terminal(q, s)
    ensures ScanMin(p, k) == ScanMin(q, k)
  {
    if k > 0 {
      ScanMinSame(p, q, k - 1);
    }
  }

  /** Cells whose erasure counters fit a smaller budget hold the same value
      under a larger one: a larger budget only adds states beyond them. */
  lemma {:induction false} BestBudgetIndependent(p: Problem, m2: nat, i: nat, s: nat, t: nat)
    requires p.m <= m2 && s <= p.m && t <= p.m
    ensures Best(p, i, s, t) == Best(p.(m := m2), i, s, t)
    decreases i, t
  {
    if i > 0 {
      BestBudgetIndependent(p, m2, i - 1, s, t);
      if s > 0 {
        BestBudgetIndependent(p, m2, i - 1, s - 1, t);
      }
    }
    if t > 0 {
      BestBudgetIndependent(p, m2, i, s, t - 1);
    }
    BudgetIndependentStep(p, p.(m := m2), i, s, t);
  }

  /** One step of BestBudgetIndependent: a guard that holds under the
      smaller budget also holds under the larger one and charges the same
      cost, and the moves it rules out lead outside the smaller table. */
  lemma BudgetIndependentStep(p: Problem, p2: Problem, i: nat, s: nat, t: nat)
    requires p2 == p.(m := p2.m) && p.m <= p2.m && s <= p.m && t <= p.m
    requires i > 0 ==> Best(p, i - 1, s, t) == Best(p2, i - 1, s, t)
    requires i > 0 && s > 0 ==> Best(p, i - 1, s - 1, t) == Best(p2, i - 1, s - 1, t)
    requires t > 0 ==> Best(p, i, s, t - 1) == Best(p2, i, s, t - 1)
    ensures Best(p, i, s, t) == Best(p2, i, s, t)
  {
    assert IntoByMatch(p, i, s, t) == IntoByMatch(p2, i, s, t);
    assert IntoByEraseA(p, i, s, t) == IntoByEraseA(p2, i, s, t);
    assert IntoByEraseB(p, i, s, t) == IntoByEraseB(p2, i, s, t);
  }

  /** Raising a literal budget that stays below the longer length never
      increases the distance. */
  lemma LargerBudgetNoWorse(a: seq<real>, b: seq<real>, m1: nat, m2: nat,
                            pairwise: (real, real) -> real, erase: (seq<real>, nat) -> real)
    requires m1 <= m2
    requires ScanDefined(|a|, |b|, Fixed(m1)) && ScanDefined(|a|, |b|, Fixed(m2))
    requires Distance(a, b, Fixed(m1), pairwise, erase).Success?
    ensures Distance(a, b, Fixed(m2), pairwise, erase).Success?
    ensures Distance(a, b, Fixed(m2), pairwise, erase).value <= Distance(a, b, Fixed(m1), pairwise, erase).value
  {
    var lo, hi := |Shorter(a, b)|, |Longer(a, b)|;
    assert CheckedBudget(Fixed(m1), lo, hi) == Success(m1);
    assert CheckedBudget(Fixed(m2), lo, hi) == Success(m2);
    DistanceOnResolved(a, b, Fixed(m1), pairwise, erase, m1);
    DistanceOnResolved(a, b, Fixed(m2), pairwise, erase, m2);
    ScanMinMonotone(Resolve(a, b, m1, pairwise, erase), Resolve(a, b, m2, pairwise, erase),
                    m1 - (hi - lo), m2 - (hi - lo));
  }

  /** The resolved form of LargerBudgetNoWorse: every value the smaller
      budget scans is scanned, unchanged, under the larger one. */
  lemma ScanMinMonotone(p1: Problem, p2: Problem, k1: nat, k2: nat)
    requires Scannable(p1) && Scannable(p2) && p2 == p1.(m := p2.m) && p1.m <= p2.m
    requires k1 == p1.m - (|p1.b| - |p1.a|) && k2 == p2.m - (|p2.b| - |p2.a|)
    ensures ScanMin(p2, k2) <= ScanMin(p1, k1)
  {
    var d := |p1.b| - |p1.a|;
    var s := ScanMinAttained(p1, k1);
    BestBudgetIndependent(p1, p2.m, |p1.a|, s, s + d);
    TerminalSameCell(p1, p2, s);
    ScanMinBelow(p2, k2, s);
  }

  lemma ScanMinBelow(p: Problem, k: nat, s: nat)
    requires Scannable(p) && s <= k <= p.m - (|p.b| - |p.a|)
    ensures ScanMin(p, k) <= Terminal(p, s)
  {
  }

  /** Two problems over the same series with the same terminal cell scan
      the same value there. */
  lemma TerminalSameCell(p1: Problem, p2: Problem, s: nat)
    requires Scannable(p1) && Scannable(p2) && p1.a == p2.a && p1.b == p2.b
    requires s <= p1.m - (|p1.b| - |p1.a|) && s <= p2.m - (|p2.b| - |p2.a|)
    requires Best(p1, |p1.a|, s, s + (|p1.b| - |p1.a|)) == Best(p2, |p2.a|, s, s + (|p2.b| - |p2.a|))
    ensures Terminal(p1, s) == Terminal(p2, s)
  {
  }

  /** Comparing a series with itself under any literal budget below its
      length gives zero, when the pairwise cost of equal elements is zero
      and all costs are nonnegative. */
  lemma IdenticalSeriesZero(a: seq<real>, m: nat, pairwise: (real, real) -> real,
                            erase: (seq<real>, nat) -> real)
    requires m < |a|
    requires NonNegativeCosts(pairwise, erase)
    requires forall k :: 0 <= k < |a| ==> pairwise(a[k], a[k]) == 0.0
    ensures ScanDefined(|a|, |a|, Fixed(m))
    ensures Distance(a, a, Fixed(m), pairwise, erase) == Success(0.0)
  {
    var p := Resolve(a, a, m, pairwise, erase);
    DiagonalZero(p, |a|);
    assert Terminal(p, 0) == 0.0;
    var s := ScanMinAttained(p, m);
    TerminalNonNegative(p, s);
  }

  lemma {:induction false} DiagonalZero(p: Problem, i: nat)
    requires p.a == p.b && i <= |p.a|
    requires forall k :: 0 <= k < |p.a| ==> p.pairwise(p.a[k], p.a[k]) == 0.0
    ensures Best(p, i, 0, 0) == Some(0.0)
  {
    if i > 0 {
      DiagonalZero(p, i - 1);
    }
  }

  /** The bottom two layers of the table, s = 0 and t in {0, 1}: only the
      match move leads into t = 0, and t = 1 is reached by a match or by
      erasing b[i]. */
  lemma LowLayersStep(p: Problem, i: nat)
    requires 0 < i <= |p.a| < |p.b| && 1 <= p.m
    ensures Best(p, i, 0, 0) == AddOpt(Best(p, i - 1, 0, 0), p.pairwise(p.a[i - 1], p.b[i - 1]))
    ensures Best(p, i, 0, 1) ==
      MinOpt(AddOpt(Best(p, i - 1, 0, 1), p.pairwise(p.a[i - 1], p.b[i])),
             AddOpt(Best(p, i, 0, 0), p.erase(p.b, i)))
  {
    assert IntoByEraseA(p, i, 0, 0) == None && IntoByEraseB(p, i, 0, 0) == None;
    assert IntoByEraseA(p, i, 0, 1) == None;
  }

  /** The worked example after the swap, budget 1, every erasure costing
      0.1. */
  ghost predicate OutlierProblem(p: Problem)
  {
    p.a == [0.0, 1.0, 2.0, 3.0] && p.b == [0.0, 1.0, 5.0, 2.0, 3.0] && p.m == 1 &&
    p.pairwise == DefaultPairwise && forall x, k :: p.erase(x, k) == 0.1
  }

  /** LowLayersStep on known values of the previous column. */
  lemma LowLayersValues(p: Problem, i: nat, v0: real, v1: real)
    requires 0 < i <= |p.a| < |p.b| && 1 <= p.m
    requires Best(p, i - 1, 0, 0) == Some(v0) && Best(p, i - 1, 0, 1) == Some(v1)
    ensures Best(p, i, 0, 0) == Some(v0 + p.pairwise(p.a[i - 1], p.b[i - 1]))
    ensures Best(p, i, 0, 1) ==
      Some(MinReal(v1 + p.pairwise(p.a[i - 1], p.b[i]),
                   v0 + p.pairwise(p.a[i - 1], p.b[i - 1]) + p.erase(p.b, i)))
  {
    LowLayersStep(p, i);
  }

  /** The cost of matching the first i elements of the worked example
      without erasures. */
  function OutlierDiagonal(i: nat): real
  {
    if i <= 2 then 0.0 else if i == 3 then 3.0 else 4.0
  }

  /** The cost of matching a[i - 1] with b[i] in the worked example. */
  function OutlierSkew(i: nat): real
  {
    if i == 1 then 1.0 else if i == 2 then 4.0 else 0.0
  }

  /** The costs of the moves into column i of the worked example. */
  lemma OutlierCosts(p: Problem, i: nat)
    requires OutlierProblem(p) && 0 < i <= 4
    ensures p.pairwise(p.a[i - 1], p.b[i - 1]) == OutlierDiagonal(i) - OutlierDiagonal(i - 1)
    ensures p.pairwise(p.a[i - 1], p.b[i]) == OutlierSkew(i)
    ensures p.erase(p.b, i) == 0.1
  {
  }

  /** The cells of the worked example the terminal scan reads from: with
      one erasure from `b` every prefix costs 0.1. */
  lemma {:induction false} OutlierCells(p: Problem, i: nat)
    requires OutlierProblem(p) && i <= 4
    ensures Best(p, i, 0, 0) == Some(OutlierDiagonal(i))
    ensures Best(p, i, 0, 1) == Some(0.1)
  {
    if i == 0 {
      assert Best(p, 0, 0, 1) == Some(0.1);
    } else {
      OutlierCells(p, i - 1);
      OutlierCosts(p, i);
      LowLayersValues(p, i, OutlierDiagonal(i - 1), 0.1);
    }
  }

  /** The worked example: erasing the 5 costs 0.1, the other four elements
      match exactly, so the average over the four matched pairs is 0.025. */
  lemma ExampleEraseOutlier(erase: (seq<real>, nat) -> real)
    requires forall x, k :: erase(x, k) == 0.1
    ensures ScanDefined(5, 4, Fixed(1))
    ensures Distance([0.0, 1.0, 5.0, 2.0, 3.0], [0.0, 1.0, 2.0, 3.0], Fixed(1),
                     DefaultPairwise, erase) == Success(0.025)
  {
    var p := Resolve([0.0, 1.0, 5.0, 2.0, 3.0], [0.0, 1.0, 2.0, 3.0], 1, DefaultPairwise, erase);
    OutlierCells(p, 4);
    assert Terminal(p, 0) == 0.025;
  }
}
