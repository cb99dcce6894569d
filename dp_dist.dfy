/** `dp_time_series_distance` (distance/per_series_dist/dp_dist.py):
    swap so that `a` is the shorter series, resolve and check the erasure
    budget, fill the table, and scan the terminal cells for the smallest
    average cost per matched pair. */
module DpDist {
  import opened Basics
  import opened DpSpec
  import DpReach
  import DpTable

  /** `max_erases`: a literal count, or a function of (shorter length,
      longer length). */
  datatype Budget = Fixed(n: int) | ByLengths(f: (nat, nat) -> int)

  /** Default `pairwise_distance` (line 8). */
  function DefaultPairwise(x: real, y: real): (r: real)
    ensures r >= 0.0 && (r == 0.0 <==> x == y)
    ensures r == AbsDiff(y, x)
  {
    AbsDiff(x, y)
  }

  /** Default `erase_cost` (line 10): a tenth of the step to the next
      element, or zero for the last one. */
  function DefaultErase(x: seq<real>, ind: nat): (r: real)
    ensures r >= 0.0
    ensures ind + 1 >= |x| ==> r == 0.0
    ensures ind + 1 < |x| && x[ind + 1] == x[ind] ==> r == 0.0
  {
    if ind + 1 < |x| then AbsDiff(x[ind + 1], x[ind]) / 10.0 else 0.0
  }

  /** Default budget (line 7). */
  const DefaultBudget: Budget := Fixed(10)

  /** The series that plays the role of `a` after the swap (lines 36-38). */
  function Shorter(a: seq<real>, b: seq<real>): seq<real>
  {
    if |a| > |b| then b else a
  }

  function Longer(a: seq<real>, b: seq<real>): seq<real>
  {
    if |a| > |b| then a else b
  }

  /** Lines 40-47, on the lengths after the swap: a negative literal is
      rejected, a function is applied to (la, lb), and a budget below the
      length gap makes the series incomparable. */
  function CheckedBudget(budget: Budget, la: nat, lb: nat): (r: Result<nat>)
    requires la <= lb
    ensures r.Success? ==> lb - la <= r.value
    ensures budget.Fixed? && budget.n < 0 ==> r == Failure(InvalidBudget)
    ensures budget.Fixed? && budget.n >= 0 ==> r == if lb - la <= budget.n then Success(budget.n) else Failure(Incomparable)
    ensures budget.ByLengths? ==>
      r == if lb - la <= budget.f(la, lb) then Success(budget.f(la, lb) as nat) else Failure(Incomparable)
  {
    var m := match budget
      case Fixed(n) => n
      case ByLengths(f) => f(la, lb);
    if budget.Fixed? && m < 0 then Failure(InvalidBudget)
    else if lb - la > m then Failure(Incomparable)
    else Success(m as nat)
  }

  /** The terminal scan divides by la - s for every scanned s; all of these
      divisors are positive exactly when the resolved budget stays below
      the longer length. This is what every caller must guarantee. */
  predicate ScanDefined(la: nat, lb: nat, budget: Budget)
  {
    var lo := if la > lb then lb else la;
    var hi := if la > lb then la else lb;
    CheckedBudget(budget, lo, hi).Success? ==> CheckedBudget(budget, lo, hi).value < hi
  }

  /** A resolved problem whose terminal scan is well defined. */
  predicate Scannable(p: Problem)
  {
    |p.a| <= |p.b| && |p.b| - |p.a| <= p.m < |p.b|
  }

  /** The value one scanned cell contributes: the cost of the terminal
      state with s erasures in `a` and s + d in `b`, divided by the number
      of matched pairs. */
  function Terminal(p: Problem, s: nat): real
    requires Scannable(p) && s <= p.m - (|p.b| - |p.a|)
  {
    var d := |p.b| - |p.a|;
    DpReach.ReachableIff(p, |p.a|, s, s + d);
    Best(p, |p.a|, s, s + d).value / (|p.a| - s) as real
  }

  /** The smallest scanned value over s in [0, k]. */
  function ScanMin(p: Problem, k: nat): (r: real)
    requires Scannable(p) && k <= p.m - (|p.b| - |p.a|)
    ensures forall s :: 0 <= s <= k ==> r <= Terminal(p, s)
  {
    if k == 0 then Terminal(p, 0) else MinReal(ScanMin(p, k - 1), Terminal(p, k))
  }

  /** The problem the function solves once the inputs are swapped and the
      budget is resolved to m. */
  function Resolve(a: seq<real>, b: seq<real>, m: nat, pairwise: (real, real) -> real,
                   erase: (seq<real>, nat) -> real): Problem
  {
    Problem(Shorter(a, b), Longer(a, b), m, pairwise, erase)
  }

  /** The distance the function returns, or the assertion it fails. */
  function Distance(a: seq<real>, b: seq<real>, budget: Budget, pairwise: (real, real) -> real,
                    erase: (seq<real>, nat) -> real): (r: Result<real>)
    requires ScanDefined(|a|, |b|, budget)
    ensures r.Failure? <==> CheckedBudget(budget, |Shorter(a, b)|, |Longer(a, b)|).Failure?
    ensures r.Failure? ==> r.error == CheckedBudget(budget, |Shorter(a, b)|, |Longer(a, b)|).error
  {
    match CheckedBudget(budget, |Shorter(a, b)|, |Longer(a, b)|)
    case Failure(e) => Failure(e)
    case Success(m) =>
      var p := Resolve(a, b, m, pairwise, erase);
      Success(ScanMin(p, m - (|p.b| - |p.a|)))
  }

  /** Lines 74-82: the minimum over s in [max(0, -d), min(m + 1, m - d + 1))
      of dp[la, s, s + d] / (la - s), with d = lb - la. */
  method ScanTerminals(p: Problem, dp: array3<Option<real>>) returns (ans: real)
    requires Scannable(p) && DpTable.Shaped(p, dp)
    requires forall x, y, z :: 0 <= x < dp.Length0 && 0 <= y < dp.Length1 && 0 <= z < dp.Length2 ==>
      dp[x, y, z] == Best(p, x, y, z)
    ensures ans == ScanMin(p, p.m - (|p.b| - |p.a|))
  {
    var lenA, m := |p.a|, p.m;
    var lenDiff := |p.b| - lenA;
    var first := if -lenDiff > 0 then -lenDiff else 0;
    var stop := if m + 1 < m - lenDiff + 1 then m + 1 else m - lenDiff + 1;
    assert first == 0 && stop == m - lenDiff + 1;
    DpReach.ReachableIff(p, lenA, 0, lenDiff);
    ans := dp[lenA, 0, lenDiff].value / lenA as real;
    for s := 1 to stop
      invariant ans == ScanMin(p, s - 1)
    {
      DpReach.ReachableIff(p, lenA, s, s + lenDiff);
      ans := MinReal(ans, dp[lenA, s, s + lenDiff].value / (lenA - s) as real);
    }
  }

  /** Once the budget resolves to m, the distance is the terminal scan of
      the resolved problem. */
  lemma DistanceOnResolved(a: seq<real>, b: seq<real>, budget: Budget, pairwise: (real, real) -> real,
                           erase: (seq<real>, nat) -> real, m: nat)
    requires ScanDefined(|a|, |b|, budget)
    requires CheckedBudget(budget, |Shorter(a, b)|, |Longer(a, b)|) == Success(m)
    ensures Scannable(Resolve(a, b, m, pairwise, erase))
    ensures Distance(a, b, budget, pairwise, erase) ==
            Success(ScanMin(Resolve(a, b, m, pairwise, erase), m - (|Longer(a, b)| - |Shorter(a, b)|)))
  {
  }

  /** Lines 40-47 as the function runs them, after the swap. */
  method ResolveBudget(maxErases: Budget, lenA: nat, lenB: nat) returns (r: Result<nat>)
    requires lenA <= lenB
    ensures r == CheckedBudget(maxErases, lenA, lenB)
  {
    var m: int;
    match maxErases {
      case Fixed(n) =>
        if n < 0 {
          return Failure(InvalidBudget);
        }
        m := n;
      case ByLengths(f) =>
        m := f(lenA, lenB);
    }
    if lenB - lenA > m {
      return Failure(Incomparable);
    }
    return Success(m);
  }

  /** Lines 49-82 on the swapped, budget-checked problem: fill the table,
      then scan its terminal states. */
  method Solve(p: Problem) returns (ans: real)
    requires Scannable(p)
    ensures ans == ScanMin(p, p.m - (|p.b| - |p.a|))
  {
    var dp := DpTable.FillTable(p);
    ans := ScanTerminals(p, dp);
  }

  /** The whole function: swap, budget checks, table fill and terminal scan. */
  method DpTimeSeriesDistance(a: seq<real>, b: seq<real>, maxErases: Budget,
                              pairwise: (real, real) -> real, erase: (seq<real>, nat) -> real)
    returns (r: Result<real>)
    requires ScanDefined(|a|, |b|, maxErases)
    ensures r == Distance(a, b, maxErases, pairwise, erase)
  {
    // `a0` and `b0` are the Python `a` and `b` after the swap.
    var a0, b0 := a, b;
    var lenA, lenB := |a0|, |b0|;
    if lenA > lenB {
      a0, b0 := b0, a0;
      lenA, lenB := lenB, lenA;
    }
    assert a0 == Shorter(a, b) && b0 == Longer(a, b);
    var budget := ResolveBudget(maxErases, lenA, lenB);
    if budget.Failure? {
      return Failure(budget.error);
    }
    var p := Problem(a0, b0, budget.value, pairwise, erase);
    assert p == Resolve(a, b, budget.value, pairwise, erase);
    DistanceOnResolved(a, b, maxErases, pairwise, erase, budget.value);
    var ans := Solve(p);
    return Success(ans);
  }
}
