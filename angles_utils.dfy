/** `PointsToAnglesTransformer` (gesture_repr/angles_repr/utils.py): a
    registry of angle descriptions over `cnt_points` key points, and the
    map from one frame of points to one angle per description. */
module AnglesUtils {
  import opened Basics

  /** One key point; a frame without a detected hand has NaN coordinates. */
  datatype Vec3 = Vec3(x: Sample, y: Sample, z: Sample)

  /** Coordinate difference, NaN as soon as one side is NaN. */
  function SubSample(a: Sample, b: Sample): (r: Sample)
    ensures r.NaN? <==> a.NaN? || b.NaN?
  {
    if a.Num? && b.Num? then Num(a.v - b.v) else NaN
  }

  /** `points[to] - points[from]`. */
  function Sub(p: Vec3, q: Vec3): Vec3
  {
    Vec3(SubSample(p.x, q.x), SubSample(p.y, q.y), SubSample(p.z, q.z))
  }

  predicate HasNaNCoord(v: Vec3)
  {
    v.x.NaN? || v.y.NaN? || v.z.NaN?
  }

  /** `angle_between` (lines 43-49): NaN when either vector has a NaN
      coordinate, otherwise the arccos of the clipped dot product of the
      unit vectors, which is left as the parameter `arccosDot`. */
  function AngleBetween(first: Vec3, second: Vec3, arccosDot: (Vec3, Vec3) -> real): (r: Sample)
    ensures r.NaN? <==> HasNaNCoord(first) || HasNaNCoord(second)
    ensures r.Num? ==> r.v == arccosDot(first, second)
  {
    if HasNaNCoord(first) || HasNaNCoord(second) then NaN else Num(arccosDot(first, second))
  }

  /** ((first_from, first_to), (second_from, second_to)). */
  datatype AngleDescription = AngleDescription(firstFrom: int, firstTo: int, secondFrom: int, secondTo: int)

  /** The assertion on lines 22-23: all four indices in [0, cntPoints). */
  predicate DescriptionOk(d: AngleDescription, cntPoints: int)
  {
    0 <= d.firstFrom < cntPoints && 0 <= d.firstTo < cntPoints &&
    0 <= d.secondFrom < cntPoints && 0 <= d.secondTo < cntPoints
  }

  /** The angle one description picks out of a frame. */
  function Angle(points: seq<Vec3>, d: AngleDescription, arccosDot: (Vec3, Vec3) -> real): Sample
    requires DescriptionOk(d, |points|)
  {
    AngleBetween(Sub(points[d.firstTo], points[d.firstFrom]),
                 Sub(points[d.secondTo], points[d.secondFrom]), arccosDot)
  }

  /** The list comprehension on lines 31-33: one angle per description, in
      order. */
  function Angles(points: seq<Vec3>, descs: seq<AngleDescription>, arccosDot: (Vec3, Vec3) -> real)
    : (r: seq<Sample>)
    requires forall k :: 0 <= k < |descs| ==> DescriptionOk(descs[k], |points|)
    ensures |r| == |descs|
  {
    if descs == [] then []
    else Angles(points, descs[..|descs| - 1], arccosDot) + [Angle(points, descs[|descs| - 1], arccosDot)]
  }

  /** Entry k of the output is the angle of description k. */
  lemma {:induction false} AnglesAt(points: seq<Vec3>, descs: seq<AngleDescription>,
                                    arccosDot: (Vec3, Vec3) -> real, k: nat)
    requires forall j :: 0 <= j < |descs| ==> DescriptionOk(descs[j], |points|)
    requires k < |descs|
    ensures Angles(points, descs, arccosDot)[k] == Angle(points, descs[k], arccosDot)
    decreases |descs|
  {
    if k < |descs| - 1 {
      var init := descs[..|descs| - 1];
      AnglesAt(points, init, arccosDot, k);
    }
  }

  /** A point with a NaN coordinate makes NaN every angle that uses it. */
  lemma NaNPointGivesNaNAngle(points: seq<Vec3>, d: AngleDescription, arccosDot: (Vec3, Vec3) -> real)
    requires DescriptionOk(d, |points|)
    requires HasNaNCoord(points[d.firstFrom]) || HasNaNCoord(points[d.firstTo]) ||
             HasNaNCoord(points[d.secondFrom]) || HasNaNCoord(points[d.secondTo])
    ensures Angle(points, d, arccosDot) == NaN
  {
  }

  /** Default `cnt_points` (line 15): the 21 hand landmarks. */
  const DefaultCntPoints: int := 21

  class PointsToAnglesTransformer {
    var cntPoints: int
    var descriptions: seq<AngleDescription>

    /** Every stored description passed the index assertion. */
    predicate Valid()
      reads this
    {
      forall k :: 0 <= k < |descriptions| ==> DescriptionOk(descriptions[k], cntPoints)
    }

    /** Lines 16-17: no descriptions yet. */
    constructor Init(cntPoints: int)
      ensures Valid()
      ensures this.cntPoints == cntPoints && descriptions == []
    {
      this.cntPoints := cntPoints;
      descriptions := [];
    }

    /** Lines 14-19: register the given descriptions in order; the first
        one with an index out of range fails the assertion. */
    static method Create(descs: seq<AngleDescription>, cntPoints: int) returns (r: Result<PointsToAnglesTransformer>)
      ensures r.Failure? <==> exists k :: 0 <= k < |descs| && !DescriptionOk(descs[k], cntPoints)
      ensures r.Failure? ==> r.error == WrongPointIndex
      ensures r.Success? ==> fresh(r.value) && r.value.Valid()
      ensures r.Success? ==> r.value.cntPoints == cntPoints && r.value.descriptions == descs
    {
      var t := new PointsToAnglesTransformer.Init(cntPoints);
      for k := 0 to |descs|
        invariant t.Valid() && t.cntPoints == cntPoints && t.descriptions == descs[..k]
        invariant forall j :: 0 <= j < k ==> DescriptionOk(descs[j], cntPoints)
      {
        var d := descs[k];
        var ok := t.AddAngleDescription(d.firstFrom, d.firstTo, d.secondFrom, d.secondTo);
        if !ok {
          return Failure(WrongPointIndex);
        }
        assert descs[..k + 1] == descs[..k] + [d];
      }
      assert descs[..|descs|] == descs;
      return Success(t);
    }

    /** Lines 21-24: reject an index outside [0, cntPoints); otherwise
        append exactly one description at the end. */
    method AddAngleDescription(firstFrom: int, firstTo: int, secondFrom: int, secondTo: int) returns (ok: bool)
      requires Valid()
      modifies this`descriptions
      ensures Valid()
      ensures ok <==> DescriptionOk(AngleDescription(firstFrom, firstTo, secondFrom, secondTo), cntPoints)
      ensures descriptions ==
        if ok then old(descriptions) + [AngleDescription(firstFrom, firstTo, secondFrom, secondTo)]
        else old(descriptions)
    {
      var d := AngleDescription(firstFrom, firstTo, secondFrom, secondTo);
      ok := DescriptionOk(d, cntPoints);
      if ok {
        descriptions := descriptions + [d];
      }
    }

    /** `__len__` (lines 26-27): the number of registered descriptions. */
    function Length(): (n: nat)
      reads this
      ensures n == |descriptions|
    {
      |descriptions|
    }

    /** `transform` (lines 29-33): a frame with a point count other than
        cntPoints fails the assertion; otherwise one angle per description,
        in registration order. */
    function Transform(points: seq<Vec3>, arccosDot: (Vec3, Vec3) -> real): (r: Result<seq<Sample>>)
      reads this
      requires Valid()
      ensures r.Failure? <==> |points| != cntPoints
      ensures r.Failure? ==> r.error == WrongPointCount
      ensures r.Success? ==> |r.value| == Length()
    {
      if |points| != cntPoints then Failure(WrongPointCount)
      else Success(Angles(points, descriptions, arccosDot))
    }
  }

  /** Registering one more description adds exactly its angle at the end of
      every later transform. */
  lemma AnglesAppend(points: seq<Vec3>, descs: seq<AngleDescription>, d: AngleDescription,
                     arccosDot: (Vec3, Vec3) -> real)
    requires forall k :: 0 <= k < |descs| ==> DescriptionOk(descs[k], |points|)
    requires DescriptionOk(d, |points|)
    ensures Angles(points, descs + [d], arccosDot) == Angles(points, descs, arccosDot) + [Angle(points, d, arccosDot)]
  {
    assert (descs + [d])[..|descs + [d]| - 1] == descs;
  }
}
