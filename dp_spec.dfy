/** The specification of the bounded-erasure alignment table of
    `dp_time_series_distance` (distance/per_series_dist/dp_dist.py).

    A state (i, s, t) says that i elements of the shorter series `a` are
    consumed, s of them erased, and t elements of `b` are erased; the number
    of consumed elements of `b` is then i - s + t. Best(p, i, s, t) is the
    cheapest total cost of reaching that state, or None when no sequence of
    moves reaches it. */
module DpSpec {
  import opened Basics

  /** One resolved alignment problem: `a` is the shorter series (after the
      swap), `m` the resolved erasure budget. */
  datatype Problem = Problem(
    a: seq<real>,
    b: seq<real>,
    m: nat,
    pairwise: (real, real) -> real,
    erase: (seq<real>, nat) -> real)

  /** The index into `b` that belongs to state (i, s, t). */
  function BId(i: nat, s: nat, t: nat): int
  {
    i - s + t
  }

  /** The states the three nested loops relax from: inside the table, and
      not cut off by the `break` on `a_id < a_shift`. */
  predicate Processed(p: Problem, i: nat, s: nat, t: nat)
  {
    i <= |p.a| && s <= p.m && t <= p.m && s <= i
  }

  /** The guards of the three relaxations, as the loop body tests them. */
  predicate CanMatch(p: Problem, i: nat, s: nat, t: nat)
  {
    Processed(p, i, s, t) && i < |p.a| && BId(i, s, t) < |p.b|
  }

  predicate CanEraseA(p: Problem, i: nat, s: nat, t: nat)
  {
    Processed(p, i, s, t) && s < p.m && i < |p.a|
  }

  predicate CanEraseB(p: Problem, i: nat, s: nat, t: nat)
  {
    Processed(p, i, s, t) && t < p.m && BId(i, s, t) < |p.b|
  }

  function MatchCost(p: Problem, i: nat, s: nat, t: nat): real
    requires CanMatch(p, i, s, t)
  {
    p.pairwise(p.a[i], p.b[BId(i, s, t)])
  }

  function EraseACost(p: Problem, i: nat, s: nat, t: nat): real
    requires CanEraseA(p, i, s, t)
  {
    p.erase(p.a, i)
  }

  function EraseBCost(p: Problem, i: nat, s: nat, t: nat): real
    requires CanEraseB(p, i, s, t)
  {
    p.erase(p.b, BId(i, s, t) as nat)
  }

  /** Zero at the start state, unreachable elsewhere. */
  function Start(i: nat, s: nat, t: nat): Option<real>
  {
    if i == 0 && s == 0 && t == 0 then Some(0.0) else None
  }

  /** The value the match move carries into (i, s, t) from its
      predecessor (i - 1, s, t), or None when the guard rules it out. */
  function IntoByMatch(p: Problem, i: nat, s: nat, t: nat): Option<real>
    decreases i, t, 0
  {
    if i > 0 && CanMatch(p, i - 1, s, t)
    then AddOpt(Best(p, i - 1, s, t), MatchCost(p, i - 1, s, t)) else None
  }

  /** The value erasing from `a` carries into (i, s, t) from (i - 1, s - 1, t). */
  function IntoByEraseA(p: Problem, i: nat, s: nat, t: nat): Option<real>
    decreases i, t, 0
  {
    if i > 0 && s > 0 && CanEraseA(p, i - 1, s - 1, t)
    then AddOpt(Best(p, i - 1, s - 1, t), EraseACost(p, i - 1, s - 1, t)) else None
  }

  /** The value erasing from `b` carries into (i, s, t) from (i, s, t - 1). */
  function IntoByEraseB(p: Problem, i: nat, s: nat, t: nat): Option<real>
    decreases i, t, 0
  {
    if t > 0 && CanEraseB(p, i, s, t - 1)
    then AddOpt(Best(p, i, s, t - 1), EraseBCost(p, i, s, t - 1)) else None
  }

  /** Cheapest cost of reaching (i, s, t): the minimum over the three moves
      that end in it. */
  function Best(p: Problem, i: nat, s: nat, t: nat): (r: Option<real>)
    ensures i == 0 && s == 0 && t == 0 ==> r == Some(0.0)
    ensures r.Some? ==> Processed(p, i, s, t)
    decreases i, t, 1
  {
    MinOpt(MinOpt(Start(i, s, t), IntoByMatch(p, i, s, t)),
           MinOpt(IntoByEraseA(p, i, s, t), IntoByEraseB(p, i, s, t)))
  }

  /** The loops visit states in lexicographic order of (a_id, a_shift,
      b_shift); a processed state is finished before program point
      (pi, ps, pt) when it comes earlier in that order. */
  predicate Before(p: Problem, i: nat, s: nat, t: nat, pi: nat, ps: nat, pt: nat)
  {
    Processed(p, i, s, t) && (i < pi || (i == pi && (s < ps || (s == ps && t < pt))))
  }

  /** What the table holds in cell (i, s, t) at program point (pi, ps, pt):
      every move into the cell from an already finished state has been
      relaxed, with that state's final value. */
  function Expected(p: Problem, pi: nat, ps: nat, pt: nat, i: nat, s: nat, t: nat): Option<real>
  {
    var viaMatch :=
      if i > 0 && Before(p, i - 1, s, t, pi, ps, pt) then IntoByMatch(p, i, s, t) else None;
    var viaEraseA :=
      if i > 0 && s > 0 && Before(p, i - 1, s - 1, t, pi, ps, pt) then IntoByEraseA(p, i, s, t) else None;
    var viaEraseB :=
      if t > 0 && Before(p, i, s, t - 1, pi, ps, pt) then IntoByEraseB(p, i, s, t) else None;
    MinOpt(MinOpt(Start(i, s, t), viaMatch), MinOpt(viaEraseA, viaEraseB))
  }
}
