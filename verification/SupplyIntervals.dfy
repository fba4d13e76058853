/** The supply strip of the report viewer (apps/sc-forge/build-order.override.js): samples
    become intervals of one supply state, and a short healthy gap between two troubled
    intervals takes the worse trouble's colour.  The strip is compared with the step function
    that the samples draw, independently of any list of intervals. */
module SupplyIntervals {
  const GAP_MERGE_SECS: real := 5.0
  const TOUCHING: real := 0.000000001

  datatype Sample = Sample(time: real, current: real, max: real)

  datatype State = Zero | Ok | Warn | Capped | Over

  datatype Interval = Interval(start: real, end: real, state: State)

  datatype Point = Point(t: real, sample: Sample)

  function StateOf(s: Sample): State {
    if s.max == 0.0 then if s.current > 0.0 then Over else Zero
    else if s.current >= s.max then Capped
    else if s.current / s.max >= 0.9 then Warn
    else Ok
  }

  function Severity(s: State): nat {
    match s
    case Over => 3
    case Capped => 2
    case Warn => 1
    case Ok => 0
    case Zero => 0
  }

  // ----- The step function -----

  /** What the parser's sort guarantees; equal times are possible. */
  ghost predicate Ascending(samples: seq<Sample>) {
    forall i, j :: 0 <= i < j < |samples| ==> samples[i].time <= samples[j].time
  }

  /** The last sample at or before `t`; before every sample, the first one. */
  function Step(samples: seq<Sample>, t: real): Sample
    requires samples != []
  {
    var last := samples[|samples| - 1];
    if |samples| == 1 || last.time <= t then last else Step(samples[..|samples| - 1], t)
  }

  /** The supply state the samples give at time `t`. */
  function Drawn(samples: seq<Sample>, t: real): State
    requires samples != []
  {
    StateOf(Step(samples, t))
  }

  /** `k` is the last sample at or before `t`, or the first of all. */
  ghost predicate InForce(samples: seq<Sample>, t: real, k: nat) {
    && k < |samples|
    && (k > 0 ==> samples[k].time <= t)
    && (k + 1 < |samples| ==> t < samples[k + 1].time)
  }

  lemma {:induction false} StepIsInForce(samples: seq<Sample>, t: real, k: nat)
    requires Ascending(samples) && InForce(samples, t, k)
    ensures Step(samples, t) == samples[k]
  {
    if k + 1 < |samples| {
      assert samples[k + 1].time <= samples[|samples| - 1].time;
      StepIsInForce(samples[..|samples| - 1], t, k);
    }
  }

  /** `sampleSupplyAt`: the step function, except that a time no later than the first sample
      always answers with the first sample. */
  method SampleSupplyAt(samples: seq<Sample>, t: real) returns (r: Sample)
    requires Ascending(samples)
    ensures samples == [] ==> r.current == 0.0 == r.max
    ensures samples != [] ==> r == if t <= samples[0].time then samples[0] else Step(samples, t)
  {
    if samples == [] {
      return Sample(t, 0.0, 0.0);
    }
    if t <= samples[0].time {
      return samples[0];
    }
    r := samples[0];
    var i := 0;
    while i < |samples| && samples[i].time <= t
      invariant 0 <= i <= |samples|
      invariant r == samples[if i == 0 then 0 else i - 1]
      invariant i > 0 ==> samples[i - 1].time <= t
    {
      r := samples[i];
      i := i + 1;
    }
    StepIsInForce(samples, t, if i == 0 then 0 else i - 1);
  }

  // ----- Lists of intervals -----

  /** The intervals cover `lo` to `hi`, each starting where the previous one ends. */
  ghost predicate Tiles(s: seq<Interval>, lo: real, hi: real) {
    && (forall k :: 0 <= k < |s| ==> s[k].start < s[k].end)
    && (forall k, l :: 0 <= k && l == k + 1 && l < |s| ==> s[k].end == s[l].start)
    && if s == [] then lo >= hi else s[0].start == lo && s[|s| - 1].end == hi
  }

  ghost predicate NeighboursDiffer(s: seq<Interval>) {
    forall k, l :: 0 <= k && l == k + 1 && l < |s| ==> s[k].state != s[l].state
  }

  predicate Contains(i: Interval, t: real) { i.start <= t < i.end }

  ghost predicate Shows(s: seq<Interval>, t: real, g: State) {
    exists k :: 0 <= k < |s| && Contains(s[k], t) && s[k].state == g
  }

  lemma {:induction false} TilesInOrder(s: seq<Interval>, lo: real, hi: real, i: nat, j: nat)
    requires Tiles(s, lo, hi) && i < j < |s|
    ensures s[i].end <= s[j].start
    decreases j
  {
    if i + 1 < j {
      TilesInOrder(s, lo, hi, i, j - 1);
    }
  }

  /** A tiling covers every time of its range, and covers it once. */
  lemma {:induction false} TilesCover(s: seq<Interval>, lo: real, hi: real, t: real) returns (k: nat)
    requires Tiles(s, lo, hi) && lo <= t < hi
    ensures k < |s| && Contains(s[k], t)
    ensures forall j :: 0 <= j < |s| && Contains(s[j], t) ==> j == k
  {
    k := |s| - 1;
    while s[k].start > t
      decreases k
      invariant k < |s| && t < s[k].end
    {
      assert k > 0 && s[k - 1].end == s[k].start;
      k := k - 1;
    }
    forall j | 0 <= j < |s| && Contains(s[j], t)
      ensures j == k
    {
      if j < k {
        TilesInOrder(s, lo, hi, j, k);
      } else if k < j {
        TilesInOrder(s, lo, hi, k, j);
      }
    }
  }

  // ----- Merging -----

  /** One step of the merge loop: extend the last interval or append a new one. */
  function Absorb(merged: seq<Interval>, i: Interval): seq<Interval> {
    if merged != [] && Joins(merged[|merged| - 1], i)
    then merged[..|merged| - 1] + [merged[|merged| - 1].(end := i.end)]
    else merged + [i]
  }

  predicate Joins(last: Interval, i: Interval) {
    last.state == i.state && -TOUCHING < last.end - i.start < TOUCHING
  }

  function Merged(s: seq<Interval>, n: nat): seq<Interval>
    requires n <= |s|
  {
    if n == 0 then [] else Absorb(Merged(s, n - 1), s[n - 1])
  }

  /** `mergeSupplyIntervals`. */
  method MergeSupplyIntervals(s: seq<Interval>) returns (merged: seq<Interval>)
    ensures merged == Merged(s, |s|)
  {
    hide Joins;
    if s == [] {
      return [];
    }
    merged := [s[0]];
    assert merged == Merged(s, 1) by { assert Merged(s, 0) == []; }
    for i := 1 to |s|
      invariant merged == Merged(s, i) && merged != []
    {
      assert Merged(s, i + 1) == Absorb(merged, s[i]);
      hide Merged;
      var last, current := merged[|merged| - 1], s[i];
      if Joins(last, current) {
        merged := merged[..|merged| - 1] + [last.(end := current.end)];
      } else {
        merged := merged + [current];
      }
    }
  }

  lemma {:induction false} AbsorbKeepsTiling(merged: seq<Interval>, i: Interval, lo: real)
    requires Tiles(merged, lo, i.start) && NeighboursDiffer(merged) && i.start < i.end
    requires merged == [] ==> i.start == lo
    ensures Tiles(Absorb(merged, i), lo, i.end) && NeighboursDiffer(Absorb(merged, i))
    ensures Absorb(merged, i) != []
  {
    if merged != [] && Joins(merged[|merged| - 1], i) {
      var n := |merged| - 1;
      StretchKeepsTiling(merged, lo, i.end);
      hide Joins, Tiles, NeighboursDiffer;
    } else {
      hide Joins;
    }
  }

  lemma {:induction false} StretchKeepsTiling(s: seq<Interval>, lo: real, end: real)
    requires s != [] && s[|s| - 1].end < end && Tiles(s, lo, s[|s| - 1].end) && NeighboursDiffer(s)
    ensures var t := s[..|s| - 1] + [s[|s| - 1].(end := end)]; Tiles(t, lo, end) && NeighboursDiffer(t)
  {
    var n := |s| - 1;
    var t := s[..n] + [s[n].(end := end)];
    assert forall k :: 0 <= k < |t| ==>
        t[k].start == s[k].start && t[k].state == s[k].state && (k < n ==> t[k].end == s[k].end);
  }

  lemma {:induction false} AbsorbShows(merged: seq<Interval>, i: Interval, lo: real, t: real, g: State)
    requires Tiles(merged, lo, i.start) && i.start < i.end
    requires Shows(merged, t, g) || (Contains(i, t) && i.state == g)
    ensures Shows(Absorb(merged, i), t, g)
  {
    var r := Absorb(merged, i);
    if Shows(merged, t, g) {
      var k :| 0 <= k < |merged| && Contains(merged[k], t) && merged[k].state == g;
      assert Contains(r[k], t) && r[k].state == g;
    } else {
      assert Contains(r[|r| - 1], t) && r[|r| - 1].state == g;
    }
  }

  /** Merging a tiling gives a tiling whose neighbours differ and that shows the same state
      at every time. */
  lemma {:induction false} MergedTiles(s: seq<Interval>, lo: real, hi: real, n: nat)
    requires Tiles(s, lo, hi) && n <= |s|
    ensures NeighboursDiffer(Merged(s, n))
    ensures Merged(s, n) == [] <==> n == 0
    ensures n > 0 ==> Tiles(Merged(s, n), lo, s[n - 1].end)
  {
    if n > 0 {
      MergedTiles(s, lo, hi, n - 1);
      hide Absorb, NeighboursDiffer;
      if n == 1 {
        assert Tiles(Merged(s, 0), lo, s[0].start);
      } else {
        var k := n - 2;
        assert s[k].end == s[k + 1].start;
      }
      AbsorbKeepsTiling(Merged(s, n - 1), s[n - 1], lo);
    }
  }

  lemma {:induction false} MergedShows(s: seq<Interval>, lo: real, hi: real, n: nat, k: nat, t: real)
    requires Tiles(s, lo, hi) && k < n <= |s| && Contains(s[k], t)
    ensures Shows(Merged(s, n), t, s[k].state)
  {
    MergedTiles(s, lo, hi, n - 1);
    if k < n - 1 {
      MergedShows(s, lo, hi, n - 1, k, t);
    }
    hide Absorb, NeighboursDiffer, Shows;
    if n == 1 {
      assert Tiles(Merged(s, 0), lo, s[0].start);
    } else {
      var l := n - 2;
      assert s[l].end == s[l + 1].start;
    }
    AbsorbShows(Merged(s, n - 1), s[n - 1], lo, t, s[k].state);
  }

  // ----- Points and intervals -----

  function InnerPoints(samples: seq<Sample>, n: nat, lo: real, hi: real): seq<Point>
    requires n <= |samples|
  {
    if n == 0 then []
    else if lo < samples[n - 1].time < hi then
      InnerPoints(samples, n - 1, lo, hi) + [Point(samples[n - 1].time, samples[n - 1])]
    else InnerPoints(samples, n - 1, lo, hi)
  }

  function EdgeSample(samples: seq<Sample>, t: real): Sample
    requires samples != []
  {
    if t <= samples[0].time then samples[0] else Step(samples, t)
  }

  function Points(samples: seq<Sample>, lo: real, hi: real): seq<Point>
    requires samples != []
  {
    [Point(lo, EdgeSample(samples, lo))] + InnerPoints(samples, |samples|, lo, hi) + [Point(hi, EdgeSample(samples, hi))]
  }

  /** The intervals that start at the first `n` points. */
  function Pieces(points: seq<Point>, n: nat): seq<Interval>
    requires n < |points|
  {
    if n == 0 then []
    else if points[n].t <= points[n - 1].t then Pieces(points, n - 1)
    else Pieces(points, n - 1) + [Interval(points[n - 1].t, points[n].t, StateOf(points[n - 1].sample))]
  }

  /** What the viewer has after the first merge: the runs of equal state. */
  function Runs(samples: seq<Sample>, lo: real, hi: real): seq<Interval>
    requires samples != []
  {
    var points := Points(samples, lo, hi);
    var pieces := Pieces(points, |points| - 1);
    Merged(pieces, |pieces|)
  }

  /** `k` is how many samples lie at or before `x`. */
  ghost predicate CountsUpTo(samples: seq<Sample>, x: real, k: nat) {
    && k <= |samples|
    && (forall i :: 0 <= i < k ==> samples[i].time <= x)
    && (forall i :: k <= i < |samples| ==> x < samples[i].time)
  }

  /** `k` is how many samples lie before `x`. */
  ghost predicate CountsBefore(samples: seq<Sample>, x: real, k: nat) {
    && k <= |samples|
    && (forall i :: 0 <= i < k ==> samples[i].time < x)
    && (forall i :: k <= i < |samples| ==> x <= samples[i].time)
  }

  lemma {:induction false} CountUpTo(samples: seq<Sample>, x: real) returns (k: nat)
    requires Ascending(samples)
    ensures CountsUpTo(samples, x, k)
  {
    k := |samples|;
    while k > 0 && x < samples[k - 1].time
      invariant k <= |samples|
      invariant forall i :: k <= i < |samples| ==> x < samples[i].time
    {
      k := k - 1;
    }
  }

  lemma {:induction false} CountBefore(samples: seq<Sample>, x: real) returns (k: nat)
    requires Ascending(samples)
    ensures CountsBefore(samples, x, k)
  {
    k := |samples|;
    while k > 0 && x <= samples[k - 1].time
      invariant k <= |samples|
      invariant forall i :: k <= i < |samples| ==> x <= samples[i].time
    {
      k := k - 1;
    }
  }

  /** The inner points are a slice of the samples. */
  lemma {:induction false} InnerIsSlice(samples: seq<Sample>, n: nat, lo: real, hi: real, a: nat, b: nat)
    requires n <= |samples| && CountsUpTo(samples, lo, a) && CountsBefore(samples, hi, b)
    ensures var inner, m := InnerPoints(samples, n, lo, hi), if n < b then n else b;
            && |inner| == (if a < m then m - a else 0)
            && forall i :: 0 <= i < |inner| ==> a + i < |samples| && inner[i] == Point(samples[a + i].time, samples[a + i])
  {
    hide CountsUpTo, CountsBefore, InnerPoints;
    InnerUnfolds(samples, n, lo, hi);
    if n > 0 {
      InnerIsSlice(samples, n - 1, lo, hi, a, b);
      IsInner(samples, n, lo, hi, a, b);
    }
  }

  lemma {:induction false} InnerUnfolds(samples: seq<Sample>, n: nat, lo: real, hi: real)
    requires n <= |samples|
    ensures InnerPoints(samples, n, lo, hi)
         == if n == 0 then []
            else InnerPoints(samples, n - 1, lo, hi)
                 + if lo < samples[n - 1].time < hi then [Point(samples[n - 1].time, samples[n - 1])] else []
  {
  }

  lemma {:induction false} IsInner(samples: seq<Sample>, n: nat, lo: real, hi: real, a: nat, b: nat)
    requires 0 < n <= |samples| && CountsUpTo(samples, lo, a) && CountsBefore(samples, hi, b)
    ensures lo < samples[n - 1].time < hi <==> a < n <= b
  {
  }

  /** Samples tied at the left edge show one state.  `sampleSupplyAt` answers with the first
      of them, the step function with the last. */
  predicate EdgeAgrees(samples: seq<Sample>, lo: real)
    requires samples != []
  {
    lo == samples[0].time ==> StateOf(samples[0]) == Drawn(samples, lo)
  }

  /** Between two consecutive points the samples show the state of the first of the two. */
  lemma {:induction false} PointIsInForce(samples: seq<Sample>, lo: real, hi: real, a: nat, b: nat, n: nat, t: real)
    requires samples != [] && Ascending(samples) && lo < hi && EdgeAgrees(samples, lo)
    requires CountsUpTo(samples, lo, a) && CountsBefore(samples, hi, b)
    requires n + 1 < |Points(samples, lo, hi)|
    requires Points(samples, lo, hi)[n].t <= t < Points(samples, lo, hi)[n + 1].t
    ensures Drawn(samples, t) == StateOf(Points(samples, lo, hi)[n].sample)
  {
    hide InnerPoints, StateOf, Step;
    CountsInOrder(samples, lo, hi, a, b);
    InnerIsSlice(samples, |samples|, lo, hi, a, b);
    var points := Points(samples, lo, hi);
    assert |points| == b - a + 2;
    var k := if n == 0 then (if a == 0 then 0 else a - 1) else a + n - 1;
    assert n > 0 ==> points[n] == InnerPoints(samples, |samples|, lo, hi)[n - 1];
    assert n < b - a ==> points[n + 1] == InnerPoints(samples, |samples|, lo, hi)[n];
    assert n == b - a ==> points[n + 1].t == hi;
    assert InForce(samples, t, k);
    StepIsInForce(samples, t, k);
    if n == 0 {
      assert InForce(samples, lo, k);
      StepIsInForce(samples, lo, k);
    }
  }

  lemma {:induction false} CountsInOrder(samples: seq<Sample>, lo: real, hi: real, a: nat, b: nat)
    requires CountsUpTo(samples, lo, a) && CountsBefore(samples, hi, b) && lo < hi
    ensures a <= b
  {
    assert b < |samples| ==> hi <= samples[b].time;
  }

  lemma {:induction false} PointsAscend(samples: seq<Sample>, lo: real, hi: real, a: nat, b: nat, n: nat)
    requires samples != [] && Ascending(samples) && lo < hi
    requires CountsUpTo(samples, lo, a) && CountsBefore(samples, hi, b)
    requires n + 1 < |Points(samples, lo, hi)|
    ensures Points(samples, lo, hi)[n].t <= Points(samples, lo, hi)[n + 1].t
  {
    hide InnerPoints, EdgeSample;
    InnerIsSlice(samples, |samples|, lo, hi, a, b);
  }

  lemma {:induction false} PiecesTile(samples: seq<Sample>, lo: real, hi: real, a: nat, b: nat, n: nat)
    requires samples != [] && Ascending(samples) && lo < hi
    requires CountsUpTo(samples, lo, a) && CountsBefore(samples, hi, b)
    requires n < |Points(samples, lo, hi)|
    ensures lo <= Points(samples, lo, hi)[n].t
    ensures Tiles(Pieces(Points(samples, lo, hi), n), lo, Points(samples, lo, hi)[n].t)
  {
    var points := Points(samples, lo, hi);
    assert points[0].t == lo;
    if n > 0 {
      PiecesTile(samples, lo, hi, a, b, n - 1);
      PointsAscend(samples, lo, hi, a, b, n - 1);
      hide Points, StateOf, Ascending, CountsUpTo, CountsBefore;
      TilesSnoc(Pieces(points, n - 1), lo, points[n - 1].t, Interval(points[n - 1].t, points[n].t, StateOf(points[n - 1].sample)));
    }
  }

  lemma {:induction false} TilesSnoc(s: seq<Interval>, lo: real, mid: real, i: Interval)
    requires Tiles(s, lo, mid) && i.start == mid && lo <= mid
    ensures mid < i.end ==> Tiles(s + [i], lo, i.end)
  {
  }

  lemma {:induction false} PiecesShow(samples: seq<Sample>, lo: real, hi: real, a: nat, b: nat, n: nat, t: real) returns (k: nat)
    requires samples != [] && Ascending(samples) && lo < hi && EdgeAgrees(samples, lo)
    requires CountsUpTo(samples, lo, a) && CountsBefore(samples, hi, b)
    requires n < |Points(samples, lo, hi)| && lo <= t < Points(samples, lo, hi)[n].t
    ensures var pieces := Pieces(Points(samples, lo, hi), n);
            k < |pieces| && Contains(pieces[k], t) && pieces[k].state == Drawn(samples, t)
  {
    var points := Points(samples, lo, hi);
    assert points[0].t == lo;
    hide EdgeAgrees, StateOf, Drawn, CountsUpTo, CountsBefore, Points;
    if t < points[n - 1].t {
      k := PiecesShow(samples, lo, hi, a, b, n - 1, t);
    } else {
      k := |Pieces(points, n - 1)|;
      PointIsInForce(samples, lo, hi, a, b, n - 1, t);
    }
  }

  lemma {:induction false} NothingBetween(samples: seq<Sample>, n: nat, lo: real, hi: real)
    requires n <= |samples| && hi <= lo
    ensures InnerPoints(samples, n, lo, hi) == []
  {
    if n > 0 {
      NothingBetween(samples, n - 1, lo, hi);
    }
  }

  /** The runs tile the range and neighbouring runs differ, whatever the samples. */
  lemma {:induction false} RunsTile(samples: seq<Sample>, lo: real, hi: real)
    requires samples != [] && Ascending(samples)
    ensures Tiles(Runs(samples, lo, hi), lo, hi) && NeighboursDiffer(Runs(samples, lo, hi))
  {
    var points := Points(samples, lo, hi);
    var pieces := Pieces(points, |points| - 1);
    if lo < hi {
      var a := CountUpTo(samples, lo);
      var b := CountBefore(samples, hi);
      PiecesTile(samples, lo, hi, a, b, |points| - 1);
      assert points[|points| - 1].t == hi;
      hide Points, Pieces, Merged, NeighboursDiffer;
      MergedTiles(pieces, lo, hi, |pieces|);
      assert pieces != [];
      assert pieces[|pieces| - 1].end == hi;
    } else {
      NothingBetween(samples, |samples|, lo, hi);
      assert |points| == 2;
      assert pieces == Pieces(points, 0) == [];
    }
  }

  /** The runs are exact: at every time of the range they show what the samples draw. */
  lemma {:induction false} RunsAreExact(samples: seq<Sample>, lo: real, hi: real, t: real)
    requires samples != [] && Ascending(samples) && EdgeAgrees(samples, lo) && lo <= t < hi
    ensures Shows(Runs(samples, lo, hi), t, Drawn(samples, t))
  {
    var a := CountUpTo(samples, lo);
    var b := CountBefore(samples, hi);
    var points := Points(samples, lo, hi);
    var pieces := Pieces(points, |points| - 1);
    assert points[|points| - 1].t == hi;
    hide Points, Pieces, Merged, Shows, EdgeAgrees, Drawn;
    PiecesTile(samples, lo, hi, a, b, |points| - 1);
    var k := PiecesShow(samples, lo, hi, a, b, |points| - 1, t);
    MergedShows(pieces, lo, hi, |pieces|, k, t);
  }

  lemma {:induction false} FirstPiece(points: seq<Point>, n: nat)
    requires 0 < n < |points| && points[0].t < points[1].t
    ensures Pieces(points, n) != [] && Pieces(points, n)[0] == Interval(points[0].t, points[1].t, StateOf(points[0].sample))
  {
    if n > 1 {
      FirstPiece(points, n - 1);
    } else {
      assert Pieces(points, 0) == [];
    }
  }

  lemma {:induction false} InnerIsInside(samples: seq<Sample>, n: nat, lo: real, hi: real)
    requires n <= |samples|
    ensures forall i :: 0 <= i < |InnerPoints(samples, n, lo, hi)| ==> lo < InnerPoints(samples, n, lo, hi)[i].t < hi
  {
    if n > 0 {
      InnerIsInside(samples, n - 1, lo, hi);
      InnerUnfolds(samples, n, lo, hi);
      hide InnerPoints;
    }
  }

  lemma {:induction false} SecondPoint(samples: seq<Sample>, lo: real, hi: real)
    requires samples != [] && lo < hi
    ensures |Points(samples, lo, hi)| >= 2 && lo < Points(samples, lo, hi)[1].t <= hi
    ensures Points(samples, lo, hi)[0] == Point(lo, EdgeSample(samples, lo))
    ensures Points(samples, lo, hi)[|Points(samples, lo, hi)| - 1].t == hi
  {
    InnerIsInside(samples, |samples|, lo, hi);
    hide InnerPoints, EdgeSample;
  }

  /** Up to the first point after the left edge, the runs show the state of the edge sample. */
  lemma {:induction false} EdgeIsShown(samples: seq<Sample>, lo: real, hi: real, t: real)
    requires samples != [] && Ascending(samples) && lo < hi && |Points(samples, lo, hi)| >= 2
    requires lo <= t < Points(samples, lo, hi)[1].t
    ensures Shows(Runs(samples, lo, hi), t, StateOf(EdgeSample(samples, lo)))
  {
    hide Points, Merged, StateOf, EdgeSample, Ascending, Pieces;
    var a := CountUpTo(samples, lo);
    var b := CountBefore(samples, hi);
    var points := Points(samples, lo, hi);
    var pieces := Pieces(points, |points| - 1);
    SecondPoint(samples, lo, hi);
    FirstPiece(points, |points| - 1);
    PiecesTile(samples, lo, hi, a, b, |points| - 1);
    MergedShows(pieces, lo, hi, |pieces|, 0, t);
  }

  /** All of it is one run, the first. */
  lemma {:induction false} FirstRun(samples: seq<Sample>, lo: real, hi: real, t: real)
    requires samples != [] && Ascending(samples) && lo < hi && |Points(samples, lo, hi)| >= 2
    requires lo <= t < Points(samples, lo, hi)[1].t
    ensures Runs(samples, lo, hi) != [] && Contains(Runs(samples, lo, hi)[0], t)
    ensures Runs(samples, lo, hi)[0].state == StateOf(EdgeSample(samples, lo))
  {
    hide Points, Runs, StateOf, EdgeSample, Ascending;
    var runs := Runs(samples, lo, hi);
    RunsTile(samples, lo, hi);
    SecondPoint(samples, lo, hi);
    EdgeIsShown(samples, lo, hi, t);
    var k := TilesCover(runs, lo, hi, t);
    if k > 0 {
      InRange(runs, lo, hi, k);
      InRange(runs, lo, hi, k - 1);
      var u := runs[k - 1].start;
      assert Contains(runs[k - 1], u);
      EdgeIsShown(samples, lo, hi, u);
      var j := TilesCover(runs, lo, hi, u);
      assert false;
    }
  }

  lemma {:induction false} EdgeIsDrawn(samples: seq<Sample>, lo: real)
    requires samples != [] && Ascending(samples)
    ensures StateOf(EdgeSample(samples, lo)) == Drawn(samples, lo) <==> EdgeAgrees(samples, lo)
  {
    hide StateOf;
    if lo < samples[0].time {
      assert InForce(samples, lo, 0);
      StepIsInForce(samples, lo, 0);
    }
    hide Step;
  }

  /** They are exact only then: samples tied at the left edge with different states make the
      strip start with the first of them, which the step function never draws. */
  lemma {:induction false} EdgeMustAgree(samples: seq<Sample>, lo: real, hi: real)
    requires samples != [] && Ascending(samples) && lo < hi && !EdgeAgrees(samples, lo)
    ensures !Shows(Runs(samples, lo, hi), lo, Drawn(samples, lo))
  {
    SecondPoint(samples, lo, hi);
    EdgeIsShown(samples, lo, hi, lo);
    EdgeIsDrawn(samples, lo);
    RunsTile(samples, lo, hi);
    hide Points, Runs, StateOf, Step, EdgeSample, EdgeAgrees, Drawn;
    var k := TilesCover(Runs(samples, lo, hi), lo, hi, lo);
  }

  /** Such samples exist: over supply and healthy supply, both recorded at time zero. */
  lemma {:induction false} TiedEdgeExample()
    ensures var samples := [Sample(0.0, 5.0, 0.0), Sample(0.0, 1.0, 10.0)];
            Ascending(samples) && !EdgeAgrees(samples, 0.0)
            && Shows(Runs(samples, 0.0, 8.0), 0.0, Over) && Drawn(samples, 0.0) == Ok
  {
    var samples := [Sample(0.0, 5.0, 0.0), Sample(0.0, 1.0, 10.0)];
    assert InForce(samples, 0.0, 1);
    StepIsInForce(samples, 0.0, 1);
    assert InForce(samples, 8.0, 1);
    StepIsInForce(samples, 8.0, 1);
    assert InnerPoints(samples, 0, 0.0, 8.0) == [] && InnerPoints(samples, 1, 0.0, 8.0) == [];
    var points := Points(samples, 0.0, 8.0);
    assert points == [Point(0.0, samples[0]), Point(8.0, samples[1])];
    var pieces := Pieces(points, 1);
    assert Pieces(points, 0) == [];
    assert pieces == [Interval(0.0, 8.0, Over)];
    assert Merged(pieces, 0) == [];
    assert Merged(pieces, 1) == [Interval(0.0, 8.0, Over)];
    assert Contains(Runs(samples, 0.0, 8.0)[0], 0.0);
  }

  /** With strictly increasing sample times nothing is tied. */
  lemma {:induction false} DistinctTimesAgree(samples: seq<Sample>, lo: real)
    requires samples != [] && forall i, j :: 0 <= i < j < |samples| ==> samples[i].time < samples[j].time
    ensures EdgeAgrees(samples, lo)
  {
    if lo == samples[0].time {
      assert InForce(samples, lo, 0);
      StepIsInForce(samples, lo, 0);
    }
  }

  // ----- Bridging short gaps -----

  predicate Bridged(runs: seq<Interval>, k: nat)
    requires k < |runs|
  {
    && runs[k].state == Ok && 0 < k < |runs| - 1
    && runs[k].end - runs[k].start <= GAP_MERGE_SECS
    && Severity(runs[k - 1].state) != 0 && Severity(runs[k + 1].state) != 0
  }

  function Worse(p: State, q: State): State { if Severity(p) >= Severity(q) then p else q }

  function Patch(runs: seq<Interval>, k: nat): Interval
    requires k < |runs|
  {
    if Bridged(runs, k) then runs[k].(state := Worse(runs[k - 1].state, runs[k + 1].state)) else runs[k]
  }

  function Patched(runs: seq<Interval>): seq<Interval> {
    seq(|runs|, k requires 0 <= k < |runs| => Patch(runs, k))
  }

  function Strip(samples: seq<Sample>, lo: real, hi: real): seq<Interval>
    requires samples != []
  {
    var patched := Patched(Runs(samples, lo, hi));
    Merged(patched, |patched|)
  }

  method BuildPoints(samples: seq<Sample>, lo: real, hi: real) returns (points: seq<Point>)
    requires samples != [] && Ascending(samples)
    ensures points == Points(samples, lo, hi)
  {
    hide Step, Ascending;
    var edge := SampleSupplyAt(samples, lo);
    points := [Point(lo, edge)];
    for i := 0 to |samples|
      invariant points == [Point(lo, edge)] + InnerPoints(samples, i, lo, hi)
    {
      if samples[i].time > lo && samples[i].time < hi {
        points := points + [Point(samples[i].time, samples[i])];
      }
    }
    edge := SampleSupplyAt(samples, hi);
    points := points + [Point(hi, edge)];
  }

  /** `buildSupplyIntervals`. */
  method BuildSupplyIntervals(samples: seq<Sample>, lo: real, hi: real) returns (strip: seq<Interval>)
    requires Ascending(samples)
    ensures strip == if samples == [] then [] else Strip(samples, lo, hi)
  {
    hide StateOf, InnerPoints, Patch, Merged, EdgeSample, Ascending;
    if samples == [] {
      return [];
    }
    var points := BuildPoints(samples, lo, hi);
    var intervals := [];
    for i := 0 to |points| - 1
      invariant intervals == Pieces(points, i)
    {
      var current, next := points[i], points[i + 1];
      if next.t <= current.t {
        continue;
      }
      intervals := intervals + [Interval(current.t, next.t, StateOf(current.sample))];
    }
    var merged := MergeSupplyIntervals(intervals);
    strip := MergeSupplyIntervals(Patched(merged));
  }

  // ----- What the strip shows -----

  /** From `a` to `b` the samples draw a healthy state for at most five seconds, with one
      trouble from `e` up to `a` and another from `b` on. */
  ghost predicate IsGap(samples: seq<Sample>, lo: real, hi: real, e: real, a: real, b: real)
    requires samples != []
  {
    && lo <= e < a < b < hi && b - a <= GAP_MERGE_SECS
    && (forall x :: e <= x < a ==> Drawn(samples, x) == Drawn(samples, e))
    && (forall x :: a <= x < b ==> Drawn(samples, x) == Ok)
    && Severity(Drawn(samples, e)) > 0 && Severity(Drawn(samples, b)) > 0
  }

  ghost predicate InGap(samples: seq<Sample>, lo: real, hi: real, t: real)
    requires samples != []
  {
    exists e, a, b :: IsGap(samples, lo, hi, e, a, b) && a <= t < b
  }

  /** The state of the run that contains `t` is the one drawn at `t`. */
  lemma {:induction false} RunState(samples: seq<Sample>, lo: real, hi: real, k: nat, t: real)
    requires samples != [] && Ascending(samples) && EdgeAgrees(samples, lo)
    requires k < |Runs(samples, lo, hi)| && Contains(Runs(samples, lo, hi)[k], t)
    ensures Runs(samples, lo, hi)[k].state == Drawn(samples, t) && lo <= t < hi
  {
    hide Runs, Drawn, EdgeAgrees, Ascending;
    var runs := Runs(samples, lo, hi);
    RunsTile(samples, lo, hi);
    InRange(runs, lo, hi, k);
    RunsAreExact(samples, lo, hi, t);
    var j := TilesCover(runs, lo, hi, t);
  }

  lemma {:induction false} InRange(s: seq<Interval>, lo: real, hi: real, k: nat)
    requires Tiles(s, lo, hi) && k < |s|
    ensures lo <= s[k].start && s[k].end <= hi
    ensures k > 0 ==> s[k - 1].end == s[k].start && lo < s[k].start
    ensures k + 1 < |s| ==> s[k].end == s[k + 1].start && s[k].end < hi
    ensures k == 0 ==> s[k].start == lo
    ensures k + 1 == |s| ==> s[k].end == hi
  {
    if k > 0 {
      TilesInOrder(s, lo, hi, 0, k);
    }
    if k + 1 < |s| {
      TilesInOrder(s, lo, hi, k, |s| - 1);
    }
  }

  lemma {:induction false} BridgedIsGap(samples: seq<Sample>, lo: real, hi: real, k: nat)
    requires samples != [] && Ascending(samples) && EdgeAgrees(samples, lo)
    requires k < |Runs(samples, lo, hi)| && Bridged(Runs(samples, lo, hi), k)
    ensures var runs := Runs(samples, lo, hi);
            && IsGap(samples, lo, hi, runs[k - 1].start, runs[k].start, runs[k].end)
            && Drawn(samples, runs[k - 1].start) == runs[k - 1].state
            && Drawn(samples, runs[k].end) == runs[k + 1].state
  {
    hide Runs, Drawn, EdgeAgrees, Ascending;
    var runs := Runs(samples, lo, hi);
    RunsTile(samples, lo, hi);
    InRange(runs, lo, hi, k);
    InRange(runs, lo, hi, k - 1);
    forall x | runs[k - 1].start <= x < runs[k].start
      ensures Drawn(samples, x) == runs[k - 1].state
    {
      RunState(samples, lo, hi, k - 1, x);
    }
    forall x | runs[k].start <= x < runs[k].end
      ensures Drawn(samples, x) == Ok
    {
      RunState(samples, lo, hi, k, x);
    }
    RunState(samples, lo, hi, k + 1, runs[k].end);
  }

  /** A gap is a whole run, and it is bridged. */
  lemma {:induction false} GapIsBridged(samples: seq<Sample>, lo: real, hi: real, e: real, a: real, b: real, k: nat, t: real)
    requires samples != [] && Ascending(samples) && EdgeAgrees(samples, lo)
    requires IsGap(samples, lo, hi, e, a, b) && a <= t < b
    requires k < |Runs(samples, lo, hi)| && Contains(Runs(samples, lo, hi)[k], t)
    ensures Bridged(Runs(samples, lo, hi), k)
    ensures Patch(Runs(samples, lo, hi), k).state == Worse(Drawn(samples, e), Drawn(samples, b))
  {
    hide Runs, Drawn, EdgeAgrees, Ascending;
    var runs := Runs(samples, lo, hi);
    RunsTile(samples, lo, hi);
    InRange(runs, lo, hi, k);
    RunState(samples, lo, hi, k, t);
    var x := if runs[k].start < e then e else runs[k].start;
    if runs[k].start < a {
      RunState(samples, lo, hi, k, x);
      assert false;
    }
    InRange(runs, lo, hi, k - 1);
    var y := if runs[k - 1].start < a then a else runs[k - 1].start;
    if a < runs[k].start {
      RunState(samples, lo, hi, k - 1, y);
      assert false;
    }
    if b < runs[k].end {
      RunState(samples, lo, hi, k, b);
      assert false;
    }
    RunState(samples, lo, hi, k + 1, runs[k].end);
    assert runs[k].end == b;
    RunState(samples, lo, hi, k - 1, if runs[k - 1].start < e then e else runs[k - 1].start);
  }

  lemma {:induction false} PatchedTiles(runs: seq<Interval>, lo: real, hi: real)
    requires Tiles(runs, lo, hi)
    ensures Tiles(Patched(runs), lo, hi)
  {
  }

  /** The strip shows the patched state of the run that contains `t`. */
  lemma {:induction false} StripShows(samples: seq<Sample>, lo: real, hi: real, k: nat, t: real)
    requires samples != [] && Ascending(samples)
    requires k < |Runs(samples, lo, hi)| && Contains(Runs(samples, lo, hi)[k], t)
    ensures Shows(Strip(samples, lo, hi), t, Patch(Runs(samples, lo, hi), k).state)
  {
    hide Runs, Merged, Shows, Ascending;
    RunsTile(samples, lo, hi);
    var patched := Patched(Runs(samples, lo, hi));
    PatchedTiles(Runs(samples, lo, hi), lo, hi);
    MergedShows(patched, lo, hi, |patched|, k, t);
  }

  /** The strip tiles the range, and no two neighbours have the same state. */
  lemma {:induction false} StripTiles(samples: seq<Sample>, lo: real, hi: real)
    requires samples != [] && Ascending(samples)
    ensures Tiles(Strip(samples, lo, hi), lo, hi) && NeighboursDiffer(Strip(samples, lo, hi))
  {
    hide Runs, Merged, NeighboursDiffer, Ascending;
    RunsTile(samples, lo, hi);
    var patched := Patched(Runs(samples, lo, hi));
    PatchedTiles(Runs(samples, lo, hi), lo, hi);
    MergedTiles(patched, lo, hi, |patched|);
  }

  /** Inside a gap the strip shows the worse of the two troubles, the earlier one on a tie. */
  lemma {:induction false} GapsAreBridged(samples: seq<Sample>, lo: real, hi: real, e: real, a: real, b: real, t: real)
    requires samples != [] && Ascending(samples) && EdgeAgrees(samples, lo)
    requires IsGap(samples, lo, hi, e, a, b) && a <= t < b
    ensures Shows(Strip(samples, lo, hi), t, Worse(Drawn(samples, e), Drawn(samples, b)))
  {
    hide Runs, Strip, Shows, Drawn, EdgeAgrees, Ascending;
    RunsTile(samples, lo, hi);
    var k := TilesCover(Runs(samples, lo, hi), lo, hi, t);
    GapIsBridged(samples, lo, hi, e, a, b, k, t);
    StripShows(samples, lo, hi, k, t);
  }

  /** Outside every gap it shows exactly what the samples draw. */
  lemma {:induction false} OthersAreExact(samples: seq<Sample>, lo: real, hi: real, t: real)
    requires samples != [] && Ascending(samples) && EdgeAgrees(samples, lo)
    requires lo <= t < hi && !InGap(samples, lo, hi, t)
    ensures Shows(Strip(samples, lo, hi), t, Drawn(samples, t))
  {
    hide Runs, Strip, Shows, Drawn, EdgeAgrees, Ascending, IsGap;
    RunsTile(samples, lo, hi);
    var runs := Runs(samples, lo, hi);
    var k := TilesCover(runs, lo, hi, t);
    if Bridged(runs, k) {
      BridgedIsGap(samples, lo, hi, k);
    }
    RunState(samples, lo, hi, k, t);
    StripShows(samples, lo, hi, k, t);
  }

  /** Up to the first point after the left edge the strip shows the state of the edge sample,
      that is, of the first of the samples tied there. */
  lemma {:induction false} StripBegins(samples: seq<Sample>, lo: real, hi: real, t: real)
    requires samples != [] && Ascending(samples) && lo < hi && |Points(samples, lo, hi)| >= 2
    requires lo <= t < Points(samples, lo, hi)[1].t
    ensures Shows(Strip(samples, lo, hi), t, StateOf(EdgeSample(samples, lo)))
  {
    hide Points, Runs, StateOf, EdgeSample, Ascending, Strip, Shows;
    FirstRun(samples, lo, hi, t);
    StripShows(samples, lo, hi, 0, t);
  }

  /** The exact condition for the strip: outside gaps it shows what the samples draw if and only
      if samples tied at the left edge agree; otherwise it differs at the edge itself. */
  lemma {:induction false} StripIsExactIff(samples: seq<Sample>, lo: real, hi: real)
    requires samples != [] && Ascending(samples) && lo < hi
    ensures Shows(Strip(samples, lo, hi), lo, Drawn(samples, lo)) <==> EdgeAgrees(samples, lo)
    ensures (forall t :: lo <= t < hi && !InGap(samples, lo, hi, t) ==> Shows(Strip(samples, lo, hi), t, Drawn(samples, t)))
       <==> EdgeAgrees(samples, lo)
  {
    EdgeIsGapless(samples, lo, hi);
    StripAtEdge(samples, lo, hi);
    hide *;
    if EdgeAgrees(samples, lo) {
      forall t | lo <= t < hi && !InGap(samples, lo, hi, t)
        ensures Shows(Strip(samples, lo, hi), t, Drawn(samples, t))
      {
        OthersAreExact(samples, lo, hi, t);
      }
    }
  }

  lemma {:induction false} EdgeIsGapless(samples: seq<Sample>, lo: real, hi: real)
    requires samples != []
    ensures !InGap(samples, lo, hi, lo)
  {
    hide Drawn;
  }

  lemma {:induction false} StripAtEdge(samples: seq<Sample>, lo: real, hi: real)
    requires samples != [] && Ascending(samples) && lo < hi
    ensures Shows(Strip(samples, lo, hi), lo, Drawn(samples, lo)) <==> EdgeAgrees(samples, lo)
  {
    hide Points, StateOf, EdgeSample, Ascending, Strip, Drawn, EdgeAgrees;
    SecondPoint(samples, lo, hi);
    StripBegins(samples, lo, hi, lo);
    EdgeIsDrawn(samples, lo);
    StripTiles(samples, lo, hi);
    var k := TilesCover(Strip(samples, lo, hi), lo, hi, lo);
  }

  /** Smoothing never hides trouble. */
  lemma {:induction false} SeverityOnlyRises(samples: seq<Sample>, lo: real, hi: real, t: real, g: State)
    requires samples != [] && Ascending(samples) && EdgeAgrees(samples, lo)
    requires lo <= t < hi && Shows(Strip(samples, lo, hi), t, g)
    ensures g == Drawn(samples, t) || (Drawn(samples, t) == Ok && Severity(g) > 0)
  {
    hide Strip, Drawn, EdgeAgrees, Ascending, IsGap;
    StripTiles(samples, lo, hi);
    var k := TilesCover(Strip(samples, lo, hi), lo, hi, t);
    if InGap(samples, lo, hi, t) {
      var e, a, b :| IsGap(samples, lo, hi, e, a, b) && a <= t < b;
      GapsAreBridged(samples, lo, hi, e, a, b, t);
      GapIsHealthy(samples, lo, hi, e, a, b, t);
    } else {
      OthersAreExact(samples, lo, hi, t);
    }
  }

  lemma {:induction false} GapIsHealthy(samples: seq<Sample>, lo: real, hi: real, e: real, a: real, b: real, t: real)
    requires samples != [] && IsGap(samples, lo, hi, e, a, b) && a <= t < b
    ensures Drawn(samples, t) == Ok && Severity(Worse(Drawn(samples, e), Drawn(samples, b))) > 0
  {
  }

  // ----- The strip in terms of the samples alone -----

  /** The state drawn at `t` is that of the last sample at or before `t`, or of the first sample,
      by its current and maximal supply. */
  lemma {:induction false} DrawnOnSamples(samples: seq<Sample>, t: real, k: nat)
    requires Ascending(samples) && k < |samples|
    requires (k == 0 || samples[k].time <= t) && (k + 1 < |samples| ==> t < samples[k + 1].time)
    ensures Drawn(samples, t)
         == if samples[k].max == 0.0 then (if samples[k].current > 0.0 then Over else Zero)
            else if samples[k].current >= samples[k].max then Capped
            else if samples[k].current / samples[k].max >= 0.9 then Warn
            else Ok
  {
    assert InForce(samples, t, k);
    StepIsInForce(samples, t, k);
    hide Step;
  }

  predicate IsTrouble(s: State) { s == Over || s == Capped || s == Warn }

  /** A healthy stretch of at most five seconds between two troubles. */
  lemma {:induction false} GapOnSamples(samples: seq<Sample>, lo: real, hi: real, e: real, a: real, b: real)
    requires samples != []
    ensures IsGap(samples, lo, hi, e, a, b)
       <==> && lo <= e < a < b < hi && b - a <= 5.0
            && (forall x :: e <= x < a ==> Drawn(samples, x) == Drawn(samples, e))
            && (forall x :: a <= x < b ==> Drawn(samples, x) == Ok)
            && IsTrouble(Drawn(samples, e)) && IsTrouble(Drawn(samples, b))
  {
    hide Drawn;
  }

  /** It shows the worse of the two troubles: too much supply, then capped, then nearly so. */
  lemma {:induction false} GapShows(samples: seq<Sample>, lo: real, hi: real, e: real, a: real, b: real, t: real)
    requires samples != [] && Ascending(samples) && IsGap(samples, lo, hi, e, a, b) && a <= t < b
    requires lo == samples[0].time ==> Drawn(samples, lo) == StateOf(samples[0])
    ensures var x, y := Drawn(samples, e), Drawn(samples, b);
            Shows(Strip(samples, lo, hi), t,
                  if x == Over || y == Over then Over else if x == Capped || y == Capped then Capped else Warn)
  {
    GapsAreBridged(samples, lo, hi, e, a, b, t);
    GapOnSamples(samples, lo, hi, e, a, b);
    hide Drawn, Strip, Shows, IsGap;
  }
}
