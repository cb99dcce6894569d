/** Which cells of the alignment table end up with a value other than the
    sentinel: exactly the states inside the table whose derived b index
    does not run past the end of `b`. The bound b_id <= len_b holds for
    these reachable states only. The loops also visit processed states
    whose b_id is past len_b, such as (len_a, 0, M) whenever
    M > len_b - len_a; there only the guards of lines 59 and 69 of
    `dp_dist.py` keep the indices into `b` in range. */
module DpReach {
  import opened Basics
  import opened DpSpec

  /** A state some sequence of moves can reach. */
  predicate InRange(p: Problem, i: nat, s: nat, t: nat)
  {
    Processed(p, i, s, t) && BId(i, s, t) <= |p.b|
  }

  /** A cell is reachable if and only if it is in range: the sentinel
      survives exactly in the cells outside. In particular every reachable
      state has 0 <= b_id <= len_b and a_shift <= a_id; a processed state
      outside this range keeps the sentinel. */
  lemma {:induction false} ReachableIff(p: Problem, i: nat, s: nat, t: nat)
    ensures Best(p, i, s, t).Some? <==> InRange(p, i, s, t)
    decreases i, t
  {
    if InRange(p, i, s, t) {
      if i > s {
        ReachableIff(p, i - 1, s, t);
        assert IntoByMatch(p, i, s, t).Some?;
      } else if t > 0 {
        ReachableIff(p, i, s, t - 1);
        assert IntoByEraseB(p, i, s, t).Some?;
      } else if s > 0 {
        ReachableIff(p, i - 1, s - 1, t);
        assert IntoByEraseA(p, i, s, t).Some?;
      }
    }
    if Best(p, i, s, t).Some? {
      if IntoByEraseA(p, i, s, t).Some? {
        ReachableIff(p, i - 1, s - 1, t);
      }
    }
  }
}
