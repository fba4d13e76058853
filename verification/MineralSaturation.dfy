/** The mineral-income curve of packages/legacy-replay-analysis/mineral_saturation.py.

    A calibrated model is a concave, non-decreasing polyline through the origin.  The
    main result, `RateIsSomeFacet` with `RateBelowFacets`, says that the rate of `w` workers
    on `p` patches is the least of finitely many linear forms in (w, p) with non-negative coefficients; all
    the economic laws of the curve are consequences of it. */
module MineralSaturation {

  const MAX_COUNT: int := 1_000_000_000_000

  datatype Point = Point(workers: int, rate: real)

  datatype Model = Model(referencePatches: int, points: seq<Point>)

  datatype CalibrationError =
    | BadReferencePatchCount
    | NoPoints
    | WorkersOutOfRange
    | NegativeRate
    | WorkersNotIncreasing
    | RatesNotMonotonic
    | MarginalRatesIncrease
    | NotThroughOrigin

  datatype Checked = Accepted(model: Model) | Rejected(error: CalibrationError)

  // ----- Validation -----

  /** Slope of the segment that ends at point `i`. */
  function Slope(points: seq<Point>, i: int): real
    requires 0 < i < |points|
    requires points[i - 1].workers < points[i].workers
  {
    (points[i].rate - points[i - 1].rate) / (points[i].workers - points[i - 1].workers) as real
  }

  predicate PointsInRange(points: seq<Point>) {
    forall i :: 0 <= i < |points| ==> 0 <= points[i].workers <= MAX_COUNT && 0.0 <= points[i].rate
  }

  predicate Increasing(points: seq<Point>) {
    forall i, j :: 0 <= i < j < |points| ==> points[i].workers < points[j].workers
  }

  ghost predicate SlopesFall(points: seq<Point>)
    requires Increasing(points)
  {
    && (forall i :: 0 < i < |points| ==> 0.0 <= Slope(points, i))
    && (forall i, j :: 0 < i <= j < |points| ==> Slope(points, j) <= Slope(points, i))
  }

  ghost predicate ValidCurve(points: seq<Point>) {
    PointsInRange(points) && Increasing(points) && SlopesFall(points)
  }

  ghost predicate ValidModel(m: Model) {
    && 0 < m.referencePatches <= MAX_COUNT
    && |m.points| > 0
    && m.points[0] == Point(0, 0.0)
    && ValidCurve(m.points)
  }

  /** The order in which the constructor checks. */
  function Rank(error: CalibrationError): nat {
    match error
    case BadReferencePatchCount => 0
    case NoPoints => 1
    case WorkersOutOfRange => 2
    case NegativeRate => 3
    case WorkersNotIncreasing => 4
    case RatesNotMonotonic => 5
    case MarginalRatesIncrease => 6
    case NotThroughOrigin => 7
  }

  /** Point `i` shows the defect that `error` names. */
  predicate DefectAt(error: CalibrationError, points: seq<Point>, i: nat) {
    i < |points|
    && match error
    case WorkersOutOfRange => !(0 <= points[i].workers <= MAX_COUNT)
    case NegativeRate => points[i].rate < 0.0
    case WorkersNotIncreasing => i > 0 && points[i].workers <= points[i - 1].workers
    case RatesNotMonotonic => i > 0 && points[i - 1].workers < points[i].workers && Slope(points, i) < 0.0
    case MarginalRatesIncrease =>
      && i > 1 && points[i - 2].workers < points[i - 1].workers < points[i].workers
      && Slope(points, i) > Slope(points, i - 1)
    case _ => false
  }

  /** The points before `i` show no defect, nor does `i` itself one that is checked before `rank`. */
  ghost predicate CleanBefore(points: seq<Point>, i: nat, rank: nat) {
    forall e: CalibrationError, j: nat :: j < i || (j == i && Rank(e) < rank) ==> !DefectAt(e, points, j)
  }

  /** `error` is the first thing that the constructor finds wrong. */
  ghost predicate Justifies(error: CalibrationError, referencePatches: int, points: seq<Point>) {
    match error
    case BadReferencePatchCount => !(0 < referencePatches <= MAX_COUNT)
    case NoPoints => 0 < referencePatches <= MAX_COUNT && points == []
    case NotThroughOrigin =>
      0 < referencePatches <= MAX_COUNT && points != [] && CleanBefore(points, |points|, 0) && points[0] != Point(0, 0.0)
    case _ => 0 < referencePatches <= MAX_COUNT && exists i: nat :: DefectAt(error, points, i) && CleanBefore(points, i, Rank(error))
  }

  /** No two errors are justified by the same arguments. */
  lemma {:induction false} JustifiesOnce(e: CalibrationError, f: CalibrationError, referencePatches: int, points: seq<Point>)
    requires Justifies(e, referencePatches, points) && Justifies(f, referencePatches, points)
    ensures e == f
  {
    hide DefectAt;
    if Rank(e) in {2, 3, 4, 5, 6} && Rank(f) in {2, 3, 4, 5, 6} {
      var i: nat :| DefectAt(e, points, i) && CleanBefore(points, i, Rank(e));
      var j: nat :| DefectAt(f, points, j) && CleanBefore(points, j, Rank(f));
    } else {
      assert forall x: CalibrationError, i: nat :: DefectAt(x, points, i) ==> i < |points| by {
        DefectsAreInside(points);
      }
    }
  }

  lemma {:induction false} DefectsAreInside(points: seq<Point>)
    ensures forall x: CalibrationError, i: nat :: DefectAt(x, points, i) ==> i < |points|
  {
  }

  /** A defective point makes the curve invalid. */
  lemma {:induction false} DefectRejects(error: CalibrationError, points: seq<Point>, i: nat)
    requires DefectAt(error, points, i)
    ensures !ValidCurve(points)
  {
    assert error == MarginalRatesIncrease ==> !(Increasing(points) && SlopesFall(points));
  }

  lemma {:induction false} FirstDefect(error: CalibrationError, referencePatches: int, points: seq<Point>, i: nat)
    requires 0 < referencePatches <= MAX_COUNT && CleanBefore(points, i, 0) && DefectAt(error, points, i)
    requires forall e: CalibrationError :: Rank(e) < Rank(error) ==> !DefectAt(e, points, i)
    ensures Justifies(error, referencePatches, points)
    ensures !ValidModel(Model(referencePatches, points))
  {
    DefectRejects(error, points, i);
    hide ValidCurve;
    assert error !in {BadReferencePatchCount, NoPoints, NotThroughOrigin};
    hide DefectAt;
    assert CleanBefore(points, i, Rank(error));
  }

  /** The constructor's check: one pass that remembers only the previous point and the
      previous slope accepts exactly the curves that are pairwise increasing and concave. */
  method MakeModel(referencePatches: int, points: seq<Point>) returns (r: Checked)
    ensures r.Accepted? <==> ValidModel(Model(referencePatches, points))
    ensures r.Accepted? ==> r.model == Model(referencePatches, points)
    ensures r.Rejected? ==> Justifies(r.error, referencePatches, points)
  {
    if !(0 < referencePatches <= MAX_COUNT) {
      return Rejected(BadReferencePatchCount);
    }
    if points == [] {
      return Rejected(NoPoints);
    }
    var previousSlope := 0.0;
    for i := 0 to |points|
      invariant ValidCurve(points[..i]) && CleanBefore(points, i, 0)
      invariant i >= 2 ==> points[i - 2].workers < points[i - 1].workers && previousSlope == Slope(points, i - 1)
    {
      hide ValidCurve, ValidModel, Justifies, CleanBefore;
      var point := points[i];
      if point.workers < 0 || point.workers > MAX_COUNT {
        FirstDefect(WorkersOutOfRange, referencePatches, points, i);
        return Rejected(WorkersOutOfRange);
      }
      if point.rate < 0.0 {
        FirstDefect(NegativeRate, referencePatches, points, i);
        return Rejected(NegativeRate);
      }
      if i > 0 {
        var previous := points[i - 1];
        if point.workers <= previous.workers {
          FirstDefect(WorkersNotIncreasing, referencePatches, points, i);
          return Rejected(WorkersNotIncreasing);
        }
        var slope := (point.rate - previous.rate) / (point.workers - previous.workers) as real;
        assert slope == Slope(points, i);
        if slope < 0.0 {
          FirstDefect(RatesNotMonotonic, referencePatches, points, i);
          return Rejected(RatesNotMonotonic);
        }
        if i > 1 && slope > previousSlope {
          FirstDefect(MarginalRatesIncrease, referencePatches, points, i);
          return Rejected(MarginalRatesIncrease);
        }
        previousSlope := slope;
      }
      assert forall e: CalibrationError :: !DefectAt(e, points, i);
      OneMoreClean(points, i);
      ExtendPrefix(points, i);
    }
    assert points[..|points|] == points;
    if points[0].workers != 0 || points[0].rate != 0.0 {
      return Rejected(NotThroughOrigin);
    }
    r := Accepted(Model(referencePatches, points));
  }

  lemma {:induction false} OneMoreClean(points: seq<Point>, i: nat)
    requires CleanBefore(points, i, 0) && forall e: CalibrationError :: !DefectAt(e, points, i)
    ensures CleanBefore(points, i + 1, 0)
  {
  }

  lemma {:induction false} ExtendPrefix(points: seq<Point>, i: nat)
    requires i < |points| && ValidCurve(points[..i])
    requires 0 <= points[i].workers <= MAX_COUNT && 0.0 <= points[i].rate
    requires i > 0 ==> points[i - 1].workers < points[i].workers && 0.0 <= Slope(points, i)
    requires i > 1 ==> points[i - 2].workers < points[i - 1].workers && Slope(points, i) <= Slope(points, i - 1)
    ensures ValidCurve(points[..i + 1])
  {
    var p := points[..i];
    assert p + [points[i]] == points[..i + 1];
    if i > 0 {
      assert Slope(p + [points[i]], i) == Slope(points, i);
    }
    if i > 1 {
      assert Slope(p, i - 1) == Slope(points, i - 1);
    }
    hide ValidCurve, Slope;
    ExtendCurve(p, points[i]);
  }

  lemma {:induction false} ExtendCurve(points: seq<Point>, p: Point)
    requires ValidCurve(points)
    requires 0 <= p.workers <= MAX_COUNT && 0.0 <= p.rate
    requires |points| > 0 ==> points[|points| - 1].workers < p.workers
    requires |points| > 0 ==> 0.0 <= Slope(points + [p], |points|)
    requires |points| > 1 ==> Slope(points + [p], |points|) <= Slope(points, |points| - 1)
    ensures ValidCurve(points + [p])
  {
    var q := points + [p];
    assert Increasing(q);
    assert PointsInRange(q);
    assert SlopesFall(q) by {
      forall i | 0 < i < |points|
        ensures Slope(q, i) == Slope(points, i)
      {
        assert q[i] == points[i] && q[i - 1] == points[i - 1];
      }
      hide Slope, Increasing, PointsInRange;
      forall i, j | 0 < i <= j < |q|
        ensures Slope(q, j) <= Slope(q, i)
      {
        if i < j == |points| {
          assert Slope(points, |points| - 1) <= Slope(points, i);
        }
      }
    }
    hide Slope, Increasing, PointsInRange, SlopesFall;
  }

  // ----- Evaluation -----

  /** Piecewise-linear interpolation of the reference curve. */
  function Interpolate(points: seq<Point>, x: real): real
    requires |points| > 0 && Increasing(points)
  {
    if x >= points[|points| - 1].workers as real then points[|points| - 1].rate
    else InterpolateFrom(points, x, 1)
  }

  /** The loop over adjacent pairs, from the pair that ends at point `i`. */
  function InterpolateFrom(points: seq<Point>, x: real, i: nat): real
    requires 0 < i <= |points| && Increasing(points)
    decreases |points| - i
  {
    if i == |points| then points[|points| - 1].rate
    else if x <= points[i].workers as real then
      points[i - 1].rate
      + (x - points[i - 1].workers as real) / (points[i].workers - points[i - 1].workers) as real
        * (points[i].rate - points[i - 1].rate)
    else InterpolateFrom(points, x, i + 1)
  }

  function Max(a: real, b: real): real { if a >= b then a else b }

  /** Total mineral income of `w` workers on `p` patches. */
  function Rate(m: Model, w: nat, p: nat): real
    requires 0 < m.referencePatches && |m.points| > 0 && Increasing(m.points)
  {
    var last := m.points[|m.points| - 1];
    if w == 0 || p == 0 then 0.0
    else if w * m.referencePatches >= last.workers * p then
      last.rate * p as real / m.referencePatches as real
    else
      Max(0.0, Interpolate(m.points, (w * m.referencePatches) as real / p as real)
               * p as real / m.referencePatches as real)
  }

  // ----- The rate as a lower envelope of linear forms -----

  /** Number of forms: one for each segment and one for the saturation cap. */
  function FacetSlope(points: seq<Point>, i: nat): real
    requires i < |points| && Increasing(points)
  {
    if i + 1 < |points| then Slope(points, i + 1) else 0.0
  }

  /** The `i`-th line of the polyline, at `x` reference workers. */
  function Line(points: seq<Point>, i: nat, x: real): real
    requires i < |points| && Increasing(points)
  {
    points[i].rate + FacetSlope(points, i) * (x - points[i].workers as real)
  }

  lemma {:induction false} SlopeTimesRun(points: seq<Point>, i: nat)
    requires Increasing(points) && i + 1 < |points|
    ensures points[i + 1].rate
         == points[i].rate + FacetSlope(points, i) * (points[i + 1].workers as real - points[i].workers as real)
  {
    var run := points[i + 1].workers as real - points[i].workers as real;
    assert run == (points[i + 1].workers - points[i].workers) as real > 0.0;
    assert FacetSlope(points, i) == (points[i + 1].rate - points[i].rate) / run;
  }

  lemma {:induction false} FacetSlopesFall(points: seq<Point>, i: nat)
    requires ValidCurve(points) && i < |points|
    ensures 0.0 <= FacetSlope(points, i)
    ensures i + 1 < |points| ==> FacetSlope(points, i + 1) <= FacetSlope(points, i)
  {
    assert SlopesFall(points);
    hide Slope, PointsInRange, Increasing;
    assert i + 1 < |points| ==> 0.0 <= Slope(points, i + 1);
    assert i + 2 < |points| ==> Slope(points, i + 2) <= Slope(points, i + 1);
  }

  /** Two neighbouring lines cross at their common point. */
  lemma {:induction false} NeighbourLines(points: seq<Point>, i: nat, x: real)
    requires ValidCurve(points) && i + 1 < |points|
    ensures x <= points[i + 1].workers as real ==> Line(points, i, x) <= Line(points, i + 1, x)
    ensures x >= points[i + 1].workers as real ==> Line(points, i + 1, x) <= Line(points, i, x)
  {
    SlopeTimesRun(points, i);
    FacetSlopesFall(points, i);
    var w, w' := points[i].workers as real, points[i + 1].workers as real;
    CrossingLines(points[i].rate, points[i + 1].rate, FacetSlope(points, i), FacetSlope(points, i + 1), w, w', x);
  }

  lemma {:induction false} CrossingLines(r: real, r': real, s: real, s': real, w: real, w': real, x: real)
    requires r' == r + s * (w' - w) && s' <= s
    ensures x <= w' ==> r + s * (x - w) <= r' + s' * (x - w')
    ensures x >= w' ==> r' + s' * (x - w') <= r + s * (x - w)
  {
    assert s * (x - w) == s * (x - w') + s * (w' - w);
    if x <= w' {
      assert s * (x - w') <= s' * (x - w') by { assert (s - s') * (w' - x) >= 0.0; }
    }
    if x >= w' {
      assert s' * (x - w') <= s * (x - w') by { assert (s - s') * (x - w') >= 0.0; }
    }
  }

  /** The line of the segment that contains `x` is the lowest line at `x`. */
  lemma {:induction false} OwnLineIsLowest(points: seq<Point>, k: nat, j: nat, x: real)
    requires ValidCurve(points) && k < |points| && j < |points|
    requires points[k].workers as real <= x
    requires k + 1 < |points| ==> x <= points[k + 1].workers as real
    ensures Line(points, k, x) <= Line(points, j, x)
    decreases if j >= k then j - k else k - j
  {
    if j > k {
      OwnLineIsLowest(points, k, j - 1, x);
      assert points[k + 1].workers <= points[j].workers;
      NeighbourLines(points, j - 1, x);
    } else if j < k {
      OwnLineIsLowest(points, k, j + 1, x);
      assert points[j + 1].workers <= points[k].workers;
      NeighbourLines(points, j, x);
    }
  }

  lemma {:induction false} ScanFindsSegment(points: seq<Point>, x: real, i: nat) returns (k: nat)
    requires Increasing(points) && 0 < i < |points|
    requires points[i - 1].workers as real <= x < points[|points| - 1].workers as real
    ensures k + 1 < |points| && points[k].workers as real <= x <= points[k + 1].workers as real
    ensures InterpolateFrom(points, x, i) == Line(points, k, x)
    decreases |points| - i
  {
    if x <= points[i].workers as real {
      k := i - 1;
      var dx, dw, dr := x - points[k].workers as real, (points[i].workers - points[k].workers) as real, points[i].rate - points[k].rate;
      QuotientTimes(dx, dw, dr);
      assert FacetSlope(points, k) == dr / dw;
    } else {
      k := ScanFindsSegment(points, x, i + 1);
    }
  }

  lemma {:induction false} QuotientTimes(a: real, b: real, c: real)
    requires b > 0.0
    ensures a / b * c == c / b * a
  {
    assert a / b * c == (a * c) / b;
    assert c / b * a == (c * a) / b;
  }

  lemma {:induction false} InterpolationIsLowestLine(points: seq<Point>, x: real) returns (k: nat)
    requires |points| > 0 && ValidCurve(points) && points[0].workers as real <= x
    ensures k < |points| && Interpolate(points, x) == Line(points, k, x)
    ensures forall j: nat :: j < |points| ==> Interpolate(points, x) <= Line(points, j, x)
  {
    if x >= points[|points| - 1].workers as real {
      k := |points| - 1;
      assert FacetSlope(points, k) == 0.0;
    } else {
      k := ScanFindsSegment(points, x, 1);
    }
    forall j: nat | j < |points|
      ensures Interpolate(points, x) <= Line(points, j, x)
    {
      OwnLineIsLowest(points, k, j, x);
    }
  }

  /** Every line meets the rate axis at or above the origin. */
  lemma {:induction false} InterceptsNonnegative(points: seq<Point>, i: nat)
    requires ValidCurve(points) && i < |points| && points[0] == Point(0, 0.0)
    ensures 0.0 <= Line(points, i, 0.0)
    ensures i == 0 ==> Line(points, i, 0.0) == 0.0
  {
    if i > 0 {
      InterceptsNonnegative(points, i - 1);
      NeighbourLines(points, i - 1, 0.0);
    }
  }

  /** A linear form in workers and patches. */
  function Form(s: real, a: real, w: nat, p: nat): real {
    s * w as real + a * p as real
  }

  /** A linear form s*w + a*p that is one of the model's facets. */
  ghost predicate IsFacet(m: Model, s: real, a: real)
    requires 0 < m.referencePatches && Increasing(m.points)
  {
    exists k: nat | k < |m.points| ::
      s == FacetSlope(m.points, k) && a == Line(m.points, k, 0.0) / m.referencePatches as real
  }

  lemma {:induction false} FacetsAreNonnegative(m: Model, s: real, a: real)
    requires ValidModel(m) && IsFacet(m, s, a)
    ensures 0.0 <= s && 0.0 <= a
  {
    var k: nat :| k < |m.points|
      && s == FacetSlope(m.points, k) && a == Line(m.points, k, 0.0) / m.referencePatches as real;
    InterceptsNonnegative(m.points, k);
    FacetSlopesFall(m.points, k);
  }

  /** Scaling a line from reference workers to `w` workers on `p` patches. */
  lemma {:induction false} ScaleLine(s: real, c: real, w: real, p: real, ref: real, x: real)
    requires p > 0.0 && ref > 0.0 && x == w * ref / p
    ensures (c + s * x) * p / ref == s * w + c / ref * p
  {
    assert x * p == w * ref;
    assert s * x * p == s * w * ref by { assert s * x * p == s * (x * p); assert s * (w * ref) == s * w * ref; }
    assert (c + s * x) * p == c * p + s * w * ref;
    assert c / ref * p * ref == c * p by { assert c / ref * ref == c; assert c / ref * p * ref == (c / ref * ref) * p; }
    assert (s * w + c / ref * p) * ref == c * p + s * w * ref;
  }


  /** The reference-curve equivalent of `w` workers on `p` patches. */
  function Equivalent(m: Model, w: nat, p: nat): (x: real)
    requires p > 0 && 0 < m.referencePatches
    ensures 0.0 <= x
  {
    (w * m.referencePatches) as real / p as real
  }

  /** A reference rate scaled to `p` patches. */
  function Scaled(m: Model, rate: real, p: nat): real
    requires 0 < m.referencePatches
  {
    rate * p as real / m.referencePatches as real
  }

  lemma {:induction false} ScaledMonotone(m: Model, a: real, b: real, p: nat)
    requires 0 < m.referencePatches && a <= b
    ensures Scaled(m, a, p) <= Scaled(m, b, p)
  {
    assert a * p as real <= b * p as real;
  }

  function Unclamped(m: Model, w: nat, p: nat): real
    requires p > 0 && 0 < m.referencePatches && |m.points| > 0 && Increasing(m.points)
  {
    Scaled(m, Interpolate(m.points, Equivalent(m, w, p)), p)
  }

  lemma {:induction false} EquivalentIsQuotient(m: Model, w: nat, p: nat)
    requires p > 0 && 0 < m.referencePatches
    ensures Equivalent(m, w, p) == w as real * m.referencePatches as real / p as real
  {
    assert (w * m.referencePatches) as real == w as real * m.referencePatches as real;
  }

  lemma {:induction false} ScaledLineIsFacet(m: Model, k: nat, w: nat, p: nat)
    requires ValidModel(m) && k < |m.points| && p > 0
    ensures Scaled(m, Line(m.points, k, Equivalent(m, w, p)), p)
         == Form(FacetSlope(m.points, k), Line(m.points, k, 0.0) / m.referencePatches as real, w, p)
  {
    hide Increasing, PointsInRange, SlopesFall, Line, FacetSlope, Equivalent;
    var s, c, x := FacetSlope(m.points, k), Line(m.points, k, 0.0), Equivalent(m, w, p);
    LineIsAffine(m.points, k, x);
    EquivalentIsQuotient(m, w, p);
    ScaleLine(s, c, w as real, p as real, m.referencePatches as real, x);
  }

  lemma {:induction false} LineIsAffine(points: seq<Point>, k: nat, x: real)
    requires Increasing(points) && k < |points|
    ensures Line(points, k, x) == Line(points, k, 0.0) + FacetSlope(points, k) * x
  {
    hide FacetSlope, Increasing;
    var s, w := FacetSlope(points, k), points[k].workers as real;
    assert s * (x - w) == s * x - s * w && s * (0.0 - w) == 0.0 - s * w;
  }

  lemma {:induction false} UnclampedIsSomeFacet(m: Model, w: nat, p: nat) returns (s: real, a: real)
    requires ValidModel(m) && p > 0
    ensures IsFacet(m, s, a) && Unclamped(m, w, p) == Form(s, a, w, p)
  {
    var k := InterpolationIsLowestLine(m.points, Equivalent(m, w, p));
    s, a := FacetSlope(m.points, k), Line(m.points, k, 0.0) / m.referencePatches as real;
    ScaledLineIsFacet(m, k, w, p);
    hide FacetSlope, Line, Equivalent, Interpolate, Form, Scaled;
  }

  lemma {:induction false} UnclampedBelowFacet(m: Model, s: real, a: real, w: nat, p: nat)
    requires ValidModel(m) && p > 0 && IsFacet(m, s, a)
    ensures Unclamped(m, w, p) <= Form(s, a, w, p)
  {
    var k: nat :| k < |m.points|
      && s == FacetSlope(m.points, k) && a == Line(m.points, k, 0.0) / m.referencePatches as real;
    hide FacetSlope, Line, Equivalent, Interpolate, Form, Scaled;
    var x := Equivalent(m, w, p);
    var own := InterpolationIsLowestLine(m.points, x);
    ScaledMonotone(m, Interpolate(m.points, x), Line(m.points, k, x), p);
    ScaledLineIsFacet(m, k, w, p);
  }

  lemma {:induction false} FormNonnegative(s: real, a: real, w: nat, p: nat)
    requires 0.0 <= s && 0.0 <= a
    ensures 0.0 <= Form(s, a, w, p)
  {
  }

  lemma {:induction false} UnclampedNonnegative(m: Model, w: nat, p: nat)
    requires ValidModel(m) && p > 0
    ensures 0.0 <= Unclamped(m, w, p)
  {
    var s, a := UnclampedIsSomeFacet(m, w, p);
    FacetsAreNonnegative(m, s, a);
    hide *;
    FormNonnegative(s, a, w, p);
  }

  /** The integer comparison that skips interpolation decides exactly whether the
      equivalent worker count is past the last calibrated point. */
  lemma {:induction false} SaturationTest(m: Model, w: nat, p: nat)
    requires ValidModel(m) && p > 0
    ensures w * m.referencePatches >= m.points[|m.points| - 1].workers * p
       <==> Equivalent(m, w, p) >= m.points[|m.points| - 1].workers as real
  {
    var last, n := m.points[|m.points| - 1].workers, w * m.referencePatches;
    hide *;
    EquivalentUnfolds(m, w, p);
    QuotientTest(n, last, p);
  }

  lemma {:induction false} EquivalentUnfolds(m: Model, w: nat, p: nat)
    requires p > 0 && 0 < m.referencePatches
    ensures Equivalent(m, w, p) == (w * m.referencePatches) as real / p as real
  {
  }

  /** Integer and real comparison of n / p with `last` agree. */
  lemma {:induction false} QuotientTest(n: int, last: int, p: nat)
    requires p > 0
    ensures n >= last * p <==> n as real / p as real >= last as real
  {
    var x := n as real / p as real;
    assert x * p as real == n as real;
    TimesInOrder(last as real, x, p as real);
    TimesInOrder(x, last as real, p as real);
    assert (last * p) as real == last as real * p as real;
  }

  lemma {:induction false} TimesInOrder(a: real, b: real, p: real)
    requires p > 0.0
    ensures a < b ==> a * p < b * p
  {
  }

  /** Neither the saturation shortcut nor the clamp at zero changes the value. */
  lemma {:induction false} ShortcutAgrees(m: Model, w: nat, p: nat)
    requires ValidModel(m) && w > 0 && p > 0
    ensures Rate(m, w, p) == Unclamped(m, w, p)
  {
    SaturationTest(m, w, p);
    UnclampedNonnegative(m, w, p);
    hide InterpolateFrom;
    var x := Equivalent(m, w, p);
    assert x == (w * m.referencePatches) as real / p as real;
    hide Equivalent, InterpolateFrom;
    assert Unclamped(m, w, p) == Interpolate(m.points, x) * p as real / m.referencePatches as real;
    var last := m.points[|m.points| - 1];
    if w * m.referencePatches >= last.workers * p {
      assert Interpolate(m.points, x) == last.rate;
    } else {
      assert Max(0.0, Unclamped(m, w, p)) == Unclamped(m, w, p);
    }
  }

  lemma {:induction false} OriginAndCapFacets(m: Model)
    requires ValidModel(m)
    ensures exists s :: IsFacet(m, s, 0.0)
    ensures exists a :: IsFacet(m, 0.0, a)
  {
    InterceptsNonnegative(m.points, 0);
    assert Line(m.points, 0, 0.0) / m.referencePatches as real == 0.0;
    assert IsFacet(m, FacetSlope(m.points, 0), 0.0);
    var n := |m.points| - 1;
    assert FacetSlope(m.points, n) == 0.0;
    assert IsFacet(m, 0.0, Line(m.points, n, 0.0) / m.referencePatches as real);
  }

  /** The rate is one of the facets... */
  lemma {:induction false} RateIsSomeFacet(m: Model, w: nat, p: nat) returns (s: real, a: real)
    requires ValidModel(m)
    ensures IsFacet(m, s, a) && 0.0 <= s && 0.0 <= a
    ensures Rate(m, w, p) == Form(s, a, w, p)
  {
    if p == 0 || w == 0 {
      assert Rate(m, w, p) == 0.0;
      OriginAndCapFacets(m);
      hide *;
      if p == 0 {
        s, a := 0.0, 0.0;
        a :| IsFacet(m, 0.0, a);
      } else {
        a, s := 0.0, 0.0;
        s :| IsFacet(m, s, 0.0);
      }
    } else {
      ShortcutAgrees(m, w, p);
      hide *;
      s, a := UnclampedIsSomeFacet(m, w, p);
    }
    FacetsAreNonnegative(m, s, a);
  }

  /** ... and lies on or below each of them: it is their lower envelope. */
  lemma {:induction false} RateBelowFacets(m: Model, s: real, a: real, w: nat, p: nat)
    requires ValidModel(m) && IsFacet(m, s, a)
    ensures 0.0 <= Rate(m, w, p) <= Form(s, a, w, p)
  {
    if p == 0 || w == 0 {
      assert Rate(m, w, p) == 0.0;
    } else {
      ShortcutAgrees(m, w, p);
      UnclampedNonnegative(m, w, p);
    }
    hide *;
    FacetsAreNonnegative(m, s, a);
    FormNonnegative(s, a, w, p);
    if w > 0 && p > 0 {
      UnclampedBelowFacet(m, s, a, w, p);
    }
  }

  // ----- Laws of the rate -----

  /** More workers or more patches never mine less. */
  lemma {:induction false} RateMonotone(m: Model, w1: nat, w2: nat, p1: nat, p2: nat)
    requires ValidModel(m) && w1 <= w2 && p1 <= p2
    ensures 0.0 <= Rate(m, w1, p1) <= Rate(m, w2, p2)
  {
    hide Rate, Form, IsFacet;
    var s, a := RateIsSomeFacet(m, w2, p2);
    RateBelowFacets(m, s, a, w1, p1);
    FormMonotone(s, a, w1, w2, p1, p2);
  }

  lemma {:induction false} FormMonotone(s: real, a: real, w1: nat, w2: nat, p1: nat, p2: nat)
    requires 0.0 <= s && 0.0 <= a && w1 <= w2 && p1 <= p2
    ensures Form(s, a, w1, p1) <= Form(s, a, w2, p2)
  {
    assert s * w1 as real <= s * w2 as real;
    assert a * p1 as real <= a * p2 as real;
  }

  /** The normalization by patch count makes the rate homogeneous. */
  lemma {:induction false} RateHomogeneous(m: Model, c: nat, w: nat, p: nat)
    requires ValidModel(m)
    ensures Rate(m, c * w, c * p) == c as real * Rate(m, w, p)
  {
    hide Rate, Form, IsFacet;
    var s, a := RateIsSomeFacet(m, w, p);
    var s', a' := RateIsSomeFacet(m, c * w, c * p);
    RateBelowFacets(m, s, a, c * w, c * p);
    RateBelowFacets(m, s', a', w, p);
    FormScales(s, a, c, w, p);
    FormScales(s', a', c, w, p);
    Scale(c, Rate(m, w, p), Form(s', a', w, p));
  }

  lemma {:induction false} Scale(c: nat, x: real, y: real)
    requires x <= y
    ensures c as real * x <= c as real * y
  {
  }

  lemma {:induction false} FormScales(s: real, a: real, c: nat, w: nat, p: nat)
    ensures Form(s, a, c * w, c * p) == c as real * Form(s, a, w, p)
  {
    assert (c * w) as real == c as real * w as real && (c * p) as real == c as real * p as real;
    assert s * (c as real * w as real) == c as real * (s * w as real);
    assert a * (c as real * p as real) == c as real * (a * p as real);
  }

  /** Joining two mineral lines never mines less than the two apart. */
  lemma {:induction false} RateSuperadditive(m: Model, w1: nat, p1: nat, w2: nat, p2: nat)
    requires ValidModel(m)
    ensures Rate(m, w1, p1) + Rate(m, w2, p2) <= Rate(m, w1 + w2, p1 + p2)
  {
    hide Rate, Form, IsFacet;
    var s, a := RateIsSomeFacet(m, w1 + w2, p1 + p2);
    RateBelowFacets(m, s, a, w1, p1);
    RateBelowFacets(m, s, a, w2, p2);
    FormAdds(s, a, w1, p1, w2, p2);
  }

  lemma {:induction false} FormAdds(s: real, a: real, w1: nat, p1: nat, w2: nat, p2: nat)
    ensures Form(s, a, w1 + w2, p1 + p2) == Form(s, a, w1, p1) + Form(s, a, w2, p2)
  {
    assert s * (w1 + w2) as real == s * w1 as real + s * w2 as real;
    assert a * (p1 + p2) as real == a * p1 as real + a * p2 as real;
  }

  /** Concavity in workers: over `w`, `w+j`, `w+k` with `j <= k` the middle value lies on
      or above the chord of the outer two. */
  lemma {:induction false} RateConcave(m: Model, w: nat, j: nat, k: nat, p: nat)
    requires ValidModel(m) && j <= k
    ensures k as real * Rate(m, w + j, p) >= j as real * Rate(m, w + k, p) + (k - j) as real * Rate(m, w, p)
  {
    hide Rate, Form, IsFacet;
    var s, a := RateIsSomeFacet(m, w + j, p);
    RateBelowFacets(m, s, a, w, p);
    RateBelowFacets(m, s, a, w + k, p);
    Scale(j, Rate(m, w + k, p), Form(s, a, w + k, p));
    Scale(k - j, Rate(m, w, p), Form(s, a, w, p));
    FormAffine(s, a, w, j, k, p);
  }

  lemma {:induction false} FormAffine(s: real, a: real, w: nat, j: nat, k: nat, p: nat)
    requires j <= k
    ensures k as real * Form(s, a, w + j, p)
         == j as real * Form(s, a, w + k, p) + (k - j) as real * Form(s, a, w, p)
  {
    var wr, jr, kr, b := w as real, j as real, k as real, a * p as real;
    assert kr * (s * (wr + jr) + b) == jr * (s * (wr + kr) + b) + (kr - jr) * (s * wr + b);
  }

  /** What one absence costs on average never rises with the number of absentees. */
  lemma {:induction false} EqualShareFalls(m: Model, w: nat, j: nat, k: nat, p: nat)
    requires ValidModel(m) && 0 < j <= k
    ensures 0.0 <= (Rate(m, w + k, p) - Rate(m, w, p)) / k as real
                <= (Rate(m, w + j, p) - Rate(m, w, p)) / j as real
  {
    hide Rate, Form, IsFacet;
    RateMonotone(m, w, w + k, p, p);
    RateConcave(m, w, j, k, p);
    var lk, lj := Rate(m, w + k, p) - Rate(m, w, p), Rate(m, w + j, p) - Rate(m, w, p);
    assert k as real * lj >= j as real * lk;
    CrossMultiply(lk, k as real, lj, j as real);
  }

  lemma {:induction false} CrossMultiply(a: real, b: real, c: real, d: real)
    requires b > 0.0 && d > 0.0 && a * d <= c * b && 0.0 <= a
    ensures 0.0 <= a / b <= c / d
  {
    assert (c / d - a / b) * (b * d) == c * b - a * d by {
      assert c / d * d == c;
      assert a / b * b == a;
      assert (c / d) * (b * d) == ((c / d) * d) * b;
      assert (a / b) * (b * d) == ((a / b) * b) * d;
    }
    assert b * d > 0.0;
  }

  // ----- The published calibration -----

  /** packages/legacy-replay-analysis/mineral_saturation_calibration.py, per second. */
  const DEFAULT_MODEL: Model :=
    Model(9, [Point(0, 0.0), Point(9, 585.0 / 60.0), Point(27, 1285.0 / 60.0)])

  lemma {:induction false} DefaultModelIsValid()
    ensures ValidModel(DEFAULT_MODEL)
  {
    var points := DEFAULT_MODEL.points;
    assert Slope(points, 1) == 585.0 / 60.0 / 9.0;
    assert Slope(points, 2) == 700.0 / 60.0 / 18.0;
  }
}
