/** Small value types shared by the whole model: optional values, results
    that carry one of the errors the Python code raises, and the NaN-flagged
    samples that the preprocessing stages work on. */
module Basics {

  datatype Option<+T> = None | Some(value: T)

  /** The exceptions raised by the core, each named after its cause. */
  datatype Error =
    | InvalidBudget       // a literal erasure budget below zero
    | Incomparable        // the length gap exceeds the resolved erasure budget
    | EmptyChannels       // `.max()` of a per-channel vector with no channels
    | InvalidThreshold    // a comparator threshold below zero
    | WrongPointIndex     // an angle description naming a point outside [0, cnt_points)
    | WrongPointCount     // `transform` given the wrong number of points

  datatype Result<+T> = Success(value: T) | Failure(error: Error)

  /** A float that may be NaN. */
  datatype Sample = NaN | Num(v: real)

  function AbsDiff(x: real, y: real): real
  {
    if x >= y then x - y else y - x
  }

  function MinReal(x: real, y: real): (r: real)
    ensures r <= x && r <= y && (r == x || r == y)
  {
    if x <= y then x else y
  }

  function MaxReal(x: real, y: real): (r: real)
    ensures r >= x && r >= y && (r == x || r == y)
  {
    if x >= y then x else y
  }

  /** Minimum of two optional costs, where None stands for "unreachable",
      i.e. a value above every real. */
  function MinOpt(x: Option<real>, y: Option<real>): (r: Option<real>)
    ensures r.None? <==> x.None? && y.None?
    ensures r.Some? ==> (r == x || r == y)
    ensures x.Some? ==> r.Some? && r.value <= x.value
    ensures y.Some? ==> r.Some? && r.value <= y.value
  {
    match x
    case None => y
    case Some(u) =>
      match y
      case None => x
      case Some(v) => Some(MinReal(u, v))
  }

  /** Adding a cost to an unreachable value leaves it unreachable. */
  function AddOpt(x: Option<real>, c: real): (r: Option<real>)
    ensures r.Some? <==> x.Some?
    ensures r.Some? ==> r.value == x.value + c
  {
    match x
    case None => None
    case Some(u) => Some(u + c)
  }

  lemma MinOptComm(x: Option<real>, y: Option<real>)
    ensures MinOpt(x, y) == MinOpt(y, x)
  {
  }
}
