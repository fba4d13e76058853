/** The curve of packages/legacy-replay-analysis/mineral_saturation.py in terms of its points
    alone: which lists of points are valid, and what the rate is on, between and beyond them. */
module CurvePoints {
  import opened MineralSaturation

  /** The slope from `a` to `b` is at least that from `b` to `c`, without division. */
  predicate Bends(a: Point, b: Point, c: Point) {
    (c.rate - b.rate) * (b.workers - a.workers) as real <= (b.rate - a.rate) * (c.workers - b.workers) as real
  }

  /** Point `i` is in range and continues its predecessors: more workers, no lower rate, no
      upward bend. */
  predicate Continues(points: seq<Point>, i: nat)
    requires i < |points|
  {
    && 0 <= points[i].workers <= 1_000_000_000_000 && 0.0 <= points[i].rate
    && (i > 0 ==> points[i - 1].workers < points[i].workers && points[i - 1].rate <= points[i].rate)
    && (i > 1 ==> Bends(points[i - 2], points[i - 1], points[i]))
  }

  lemma {:induction false} QuotientsCompare(a: real, b: real, c: real, d: real)
    requires b > 0.0 && d > 0.0
    ensures a / b <= c / d <==> a * d <= c * b
  {
    var x, y := a / b, c / d;
    assert x * b == a && y * d == c;
    assert a * d == x * (b * d) && c * b == y * (b * d);
    ProductOrder(x, y, b * d);
    ProductOrder(y, x, b * d);
  }

  lemma {:induction false} ProductOrder(x: real, y: real, z: real)
    requires z > 0.0
    ensures x <= y ==> x * z <= y * z
    ensures x < y ==> x * z < y * z
  {
  }

  lemma {:induction false} SlopeSign(points: seq<Point>, i: nat)
    requires 0 < i < |points| && points[i - 1].workers < points[i].workers
    ensures 0.0 <= Slope(points, i) <==> points[i - 1].rate <= points[i].rate
  {
    var s, dr, dw := Slope(points, i), points[i].rate - points[i - 1].rate, (points[i].workers - points[i - 1].workers) as real;
    assert s * dw == dr;
    ProductOrder(0.0, s, dw);
    ProductOrder(s, 0.0, dw);
  }

  lemma {:induction false} SlopesCompare(points: seq<Point>, i: nat)
    requires 1 < i < |points| && points[i - 2].workers < points[i - 1].workers < points[i].workers
    ensures Slope(points, i) <= Slope(points, i - 1) <==> Bends(points[i - 2], points[i - 1], points[i])
  {
    QuotientsCompare(points[i].rate - points[i - 1].rate, (points[i].workers - points[i - 1].workers) as real,
                     points[i - 1].rate - points[i - 2].rate, (points[i - 1].workers - points[i - 2].workers) as real);
  }

  lemma {:induction false} RegularPrefix(points: seq<Point>, n: nat)
    requires n <= |points| && forall i :: 0 <= i < n ==> Continues(points, i)
    ensures ValidCurve(points[..n])
  {
    if n == 0 {
      assert points[..0] == [];
    } else {
      RegularPrefix(points, n - 1);
      assert Continues(points, n - 1);
      if n > 1 {
        SlopeSign(points, n - 1);
      }
      if n > 2 {
        assert Continues(points, n - 2);
        SlopesCompare(points, n - 1);
      }
      hide ValidCurve, Slope, Bends;
      ExtendPrefix(points, n - 1);
    }
  }

  lemma {:induction false} ValidContinues(points: seq<Point>, i: nat)
    requires ValidCurve(points) && i < |points|
    ensures Continues(points, i)
  {
    assert Increasing(points) && SlopesFall(points);
    if i > 0 {
      SlopeSign(points, i);
    }
    if i > 1 {
      SlopesCompare(points, i);
      assert Slope(points, i) <= Slope(points, i - 1);
    }
    hide Slope, Bends;
  }

  /** Neighbouring points decide whether a curve is valid. */
  lemma {:induction false} CurveOnPoints(points: seq<Point>)
    ensures ValidCurve(points) <==> forall i :: 0 <= i < |points| ==> Continues(points, i)
  {
    hide ValidCurve, Continues;
    if forall i :: 0 <= i < |points| ==> Continues(points, i) {
      RegularPrefix(points, |points|);
      assert points[..|points|] == points;
    }
    if ValidCurve(points) {
      forall i | 0 <= i < |points|
        ensures Continues(points, i)
      {
        ValidContinues(points, i);
      }
    }
  }

  lemma {:induction false} SegmentInterpolates(points: seq<Point>, x: real, i: nat)
    requires ValidCurve(points) && i + 1 < |points| && points[0].workers as real <= x
    requires points[i].workers as real <= x <= points[i + 1].workers as real
    ensures Interpolate(points, x) == Line(points, i, x)
  {
    var k := InterpolationIsLowestLine(points, x);
    hide Interpolate, Line, PointsInRange, SlopesFall;
    OwnLineIsLowest(points, i, k, x);
  }

  /** The straight line through two points. */
  function Between(left: Point, right: Point, x: real): real
    requires left.workers < right.workers
  {
    left.rate + (right.rate - left.rate) / (right.workers - left.workers) as real * (x - left.workers as real)
  }

  lemma {:induction false} LineOnPoints(points: seq<Point>, i: nat, x: real)
    requires Increasing(points) && i + 1 < |points|
    ensures points[i].workers < points[i + 1].workers
    ensures Line(points, i, x) == Between(points[i], points[i + 1], x)
  {
  }

  lemma {:induction false} EquivalentBetween(m: Model, w: nat, p: nat, a: int, b: int)
    requires 0 < m.referencePatches && p > 0 && a * p <= w * m.referencePatches <= b * p
    ensures a as real <= Equivalent(m, w, p) <= b as real
  {
    var n := w * m.referencePatches;
    EquivalentUnfolds(m, w, p);
    QuotientTest(n, a, p);
    QuotientTest(-n, -b, p);
    var x := n as real / p as real;
    hide *;
    assert (-n) as real / p as real == -x;
    assert -n >= -b * p;
  }

  /** The rate on a segment of the curve, by the points at its ends... */
  lemma {:induction false} RateOnSegment(m: Model, w: nat, p: nat, i: nat)
    requires ValidModel(m) && w > 0 && p > 0 && i + 1 < |m.points|
    requires m.points[i].workers * p <= w * m.referencePatches <= m.points[i + 1].workers * p
    ensures m.points[i].workers < m.points[i + 1].workers
    ensures Rate(m, w, p)
         == Between(m.points[i], m.points[i + 1], (w * m.referencePatches) as real / p as real) * p as real / m.referencePatches as real
  {
    hide SlopesFall, PointsInRange, Increasing, Interpolate, Line, Rate, Equivalent, Between;
    var x := Equivalent(m, w, p);
    EquivalentBetween(m, w, p, m.points[i].workers, m.points[i + 1].workers);
    EquivalentUnfolds(m, w, p);
    ShortcutAgrees(m, w, p);
    SegmentInterpolates(m.points, x, i);
    LineOnPoints(m.points, i, x);
  }

  /** ... beyond the last point, and without workers or patches. */
  lemma {:induction false} RateAtEnds(m: Model, w: nat, p: nat)
    requires ValidModel(m)
    ensures w == 0 || p == 0 ==> Rate(m, w, p) == 0.0
    ensures w > 0 && p > 0 && w * m.referencePatches >= m.points[|m.points| - 1].workers * p ==>
              Rate(m, w, p) == m.points[|m.points| - 1].rate * p as real / m.referencePatches as real
  {
    hide Interpolate, SlopesFall;
  }

  lemma {:induction false} PointFacts(m: Model, i: nat)
    requires ValidModel(m) && i < |m.points|
    ensures 0 <= m.points[i].workers && (m.points[i].workers == 0 ==> m.points[i].rate == 0.0)
  {
    hide SlopesFall;
  }

  /** At the reference number of patches a calibrated number of workers has its calibrated rate. */
  lemma {:induction false} RateAtPoints(m: Model, i: nat)
    requires ValidModel(m) && i < |m.points|
    ensures 0 <= m.points[i].workers && Rate(m, m.points[i].workers, m.referencePatches) == m.points[i].rate
  {
    hide ValidCurve, Rate;
    PointFacts(m, i);
    var w, ref := m.points[i].workers, m.referencePatches;
    RateAtEnds(m, w, ref);
    TimesOver(m.points[i].rate, ref);
    if w > 0 && i + 1 < |m.points| {
      StartOfSegment(m, i);
    }
  }

  lemma {:induction false} StartOfSegment(m: Model, i: nat)
    requires ValidModel(m) && i + 1 < |m.points| && m.points[i].workers > 0
    ensures Rate(m, m.points[i].workers, m.referencePatches) == m.points[i].rate
  {
    hide ValidCurve, Rate, Between;
    var w, ref := m.points[i].workers, m.referencePatches;
    NextHasMore(m, i);
    ProductsInOrder(w, m.points[i + 1].workers, ref);
    RateOnSegment(m, w, ref, i);
    WholeQuotient(w, ref);
    StartsAtLeft(m.points[i], m.points[i + 1]);
    TimesOver(m.points[i].rate, ref);
  }

  lemma {:induction false} StartsAtLeft(left: Point, right: Point)
    requires left.workers < right.workers
    ensures Between(left, right, left.workers as real) == left.rate
  {
    assert (right.rate - left.rate) / (right.workers - left.workers) as real * 0.0 == 0.0;
  }

  /** The calibration shipped as the default: 585 minerals a minute with 9 workers and 1285 with 27,
      on nine patches, and no more beyond. */
  lemma {:induction false} DefaultRates()
    ensures ValidModel(DEFAULT_MODEL)
    ensures Rate(DEFAULT_MODEL, 0, 9) == 0.0
    ensures Rate(DEFAULT_MODEL, 9, 9) == 585.0 / 60.0
    ensures Rate(DEFAULT_MODEL, 27, 9) == Rate(DEFAULT_MODEL, 28, 9) == 1285.0 / 60.0
  {
    DefaultModelIsValid();
    hide ValidModel, Rate;
    RateAtPoints(DEFAULT_MODEL, 0);
    RateAtPoints(DEFAULT_MODEL, 1);
    RateAtPoints(DEFAULT_MODEL, 2);
    RateAtEnds(DEFAULT_MODEL, 28, 9);
    TimesOver(1285.0 / 60.0, 9);
  }

  lemma {:induction false} NextHasMore(m: Model, i: nat)
    requires ValidModel(m) && i + 1 < |m.points|
    ensures m.points[i].workers < m.points[i + 1].workers
  {
    hide SlopesFall;
  }

  lemma {:induction false} ProductsInOrder(a: int, b: int, n: nat)
    requires a <= b
    ensures a * n <= b * n
  {
  }

  lemma {:induction false} TimesOver(r: real, n: nat)
    requires n > 0
    ensures r * n as real / n as real == r
  {
  }

  lemma {:induction false} WholeQuotient(w: nat, n: nat)
    requires n > 0
    ensures (w * n) as real / n as real == w as real
  {
    assert (w * n) as real == w as real * n as real;
  }
}
