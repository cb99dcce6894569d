/** An independent reading of the alignment table: explicit sequences of
    moves (match, erase from `a`, erase from `b`) followed from the start
    state. Best(p, i, s, t) is proved to be the cheapest total cost of such
    a sequence that reaches (i, s, t): this total is what the loops store,
    and the average the docstring speaks of is taken only in the final
    scan. */
module DpPaths {
  import opened Basics
  import opened DpSpec

  datatype Step = Match | EraseA | EraseB

  datatype State = State(i: nat, s: nat, t: nat)

  /** The guard the loop body tests before taking a move. */
  predicate Allowed(p: Problem, q: State, step: Step)
  {
    match step
    case Match => CanMatch(p, q.i, q.s, q.t)
    case EraseA => CanEraseA(p, q.i, q.s, q.t)
    case EraseB => CanEraseB(p, q.i, q.s, q.t)
  }

  function Next(q: State, step: Step): State
  {
    match step
    case Match => State(q.i + 1, q.s, q.t)
    case EraseA => State(q.i + 1, q.s + 1, q.t)
    case EraseB => State(q.i, q.s, q.t + 1)
  }

  function StepCost(p: Problem, q: State, step: Step): real
    requires Allowed(p, q, step)
  {
    match step
    case Match => MatchCost(p, q.i, q.s, q.t)
    case EraseA => EraseACost(p, q.i, q.s, q.t)
    case EraseB => EraseBCost(p, q.i, q.s, q.t)
  }

  /** Where a sequence of moves leads from (0, 0, 0) and its total cost
      (pairwise costs of the matches plus the erase costs), or None when
      one of its moves is not allowed. */
  function Walk(p: Problem, steps: seq<Step>): Option<(State, real)>
  {
    if steps == [] then Some((State(0, 0, 0), 0.0))
    else
      match Walk(p, steps[..|steps| - 1])
      case None => None
      case Some(w) =>
        var last := steps[|steps| - 1];
        if Allowed(p, w.0, last) then Some((Next(w.0, last), w.1 + StepCost(p, w.0, last))) else None
  }

  lemma WalkSnoc(p: Problem, steps: seq<Step>, last: Step)
    ensures Walk(p, steps + [last]) ==
      match Walk(p, steps)
      case None => None
      case Some(w) =>
        if Allowed(p, w.0, last) then Some((Next(w.0, last), w.1 + StepCost(p, w.0, last))) else None
  {
    assert (steps + [last])[..|steps + [last]| - 1] == steps;
  }

  /** No sequence of moves reaches a state more cheaply than its cell. */
  lemma {:induction false} BestBelowEveryWalk(p: Problem, steps: seq<Step>)
    requires Walk(p, steps).Some?
    ensures Best(p, Walk(p, steps).value.0.i, Walk(p, steps).value.0.s, Walk(p, steps).value.0.t).Some?
    ensures Best(p, Walk(p, steps).value.0.i, Walk(p, steps).value.0.s, Walk(p, steps).value.0.t).value
            <= Walk(p, steps).value.1
    decreases |steps|
  {
    if steps != [] {
      var prefix := steps[..|steps| - 1];
      var last := steps[|steps| - 1];
      BestBelowEveryWalk(p, prefix);
      var w := Walk(p, prefix).value;
      StepBound(p, w.0, last);
    }
  }

  /** One move from a reachable state reaches its target no more cheaply
      than the target's cell. */
  lemma StepBound(p: Problem, q: State, step: Step)
    requires Allowed(p, q, step) && Best(p, q.i, q.s, q.t).Some?
    ensures Best(p, Next(q, step).i, Next(q, step).s, Next(q, step).t).Some?
    ensures Best(p, Next(q, step).i, Next(q, step).s, Next(q, step).t).value <=
            Best(p, q.i, q.s, q.t).value + StepCost(p, q, step)
  {
    var n := Next(q, step);
    match step
    case Match => assert IntoByMatch(p, n.i, n.s, n.t).Some?;
    case EraseA => assert IntoByEraseA(p, n.i, n.s, n.t).Some?;
    case EraseB => assert IntoByEraseB(p, n.i, n.s, n.t).Some?;
  }

  /** Every value in the table is the cost of some sequence of moves that
      reaches its state. */
  lemma {:induction false} BestIsAttained(p: Problem, i: nat, s: nat, t: nat) returns (steps: seq<Step>)
    requires Best(p, i, s, t).Some?
    ensures Walk(p, steps) == Some((State(i, s, t), Best(p, i, s, t).value))
    decreases i, t
  {
    var start, q, step := LastMove(p, i, s, t);
    if start {
      steps := [];
    } else {
      var prefix := BestIsAttained(p, q.i, q.s, q.t);
      steps := prefix + [step];
      WalkSnoc(p, prefix, step);
    }
  }

  /** The move a cell's value comes from: the start state itself, or an
      allowed move out of an earlier reachable state whose cost adds up. */
  lemma LastMove(p: Problem, i: nat, s: nat, t: nat) returns (start: bool, q: State, step: Step)
    requires Best(p, i, s, t).Some?
    ensures start ==> i == 0 && s == 0 && t == 0 && Best(p, i, s, t) == Some(0.0)
    ensures !start ==>
      Allowed(p, q, step) && Next(q, step) == State(i, s, t) &&
      (q.i < i || (q.i == i && q.t < t)) && Best(p, q.i, q.s, q.t).Some? &&
      Best(p, i, s, t).value == Best(p, q.i, q.s, q.t).value + StepCost(p, q, step)
  {
    var best := Best(p, i, s, t);
    start, q, step := false, State(0, 0, 0), Match;
    if best == Start(i, s, t) {
      start := true;
    } else if best == IntoByMatch(p, i, s, t) {
      q := State(i - 1, s, t);
    } else if best == IntoByEraseA(p, i, s, t) {
      q, step := State(i - 1, s - 1, t), EraseA;
    } else {
      q, step := State(i, s, t - 1), EraseB;
    }
  }
}
