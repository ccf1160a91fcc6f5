/** Piecewise-linear calibration: `crates/core/src/calibration.rs`, with reals for f32.

    `eps` stands for f32::EPSILON. Two values the code cannot tell apart are equal or
    less than `eps` apart; with `eps == 0.0` the tests are exact. */
module Calibrations {
  import opened Wrappers
  import opened Lines
  import Sorting

  datatype Calibration = Calibration(points: seq<Point>)

  function Abs(r: real): real {
    if r < 0.0 then -r else r
  }

  predicate Close(eps: real, a: real, b: real) {
    a == b || Abs(a - b) < eps
  }

  const BY_RAW: Point -> real := (p: Point) => p.x
  const BY_VALUE: real -> real := (x: real) => x

  ghost predicate Increasing(xs: seq<real>) {
    forall i, j :: 0 <= i < j < |xs| ==> xs[i] < xs[j]
  }

  /** What `New` guarantees of the table it stores. */
  ghost predicate Valid(c: Calibration) {
    |c.points| >= 2 &&
    forall i, j :: 0 <= i < j < |c.points| ==> c.points[i].x < c.points[j].x
  }

  // ----- construction -----

  predicate AdjacentClose(eps: real, pts: seq<Point>) {
    exists i :: 0 <= i < |pts| - 1 && Close(eps, pts[i].x, pts[i + 1].x)
  }

  function New(eps: real, points: seq<Point>): (r: Option<Calibration>) {
    var pts := Sorting.Sort(BY_RAW, points);
    if |points| < 2 || AdjacentClose(eps, pts) then None else Some(Calibration(pts))
  }

  method NewCalibration(eps: real, points: seq<Point>) returns (r: Option<Calibration>)
    ensures r == New(eps, points)
  {
    if |points| < 2 {
      return None;
    }
    var pts := Sorting.Sort(BY_RAW, points);
    var i := 0;
    while i < |pts| - 1
      invariant 0 <= i <= |pts| - 1
      invariant forall j :: 0 <= j < i ==> !Close(eps, pts[j].x, pts[j + 1].x)
    {
      if Close(eps, pts[i].x, pts[i + 1].x) {
        return None;
      }
      i := i + 1;
    }
    return Some(Calibration(pts));
  }

  /** `New` accepts exactly the point sets with two or more points whose inputs are
      pairwise distinguishable, and stores them in increasing order. */
  lemma {:induction false} NewAccepts(eps: real, points: seq<Point>)
    requires eps >= 0.0
    ensures New(eps, points).Some? <==>
      |points| >= 2 &&
      forall i, j :: 0 <= i < j < |points| ==> !Close(eps, points[i].x, points[j].x)
    ensures New(eps, points).Some? ==>
      Valid(New(eps, points).value) && multiset(New(eps, points).value.points) == multiset(points)
  {
    var pts := Sorting.Sort(BY_RAW, points);
    if |points| >= 2 {
      if AdjacentClose(eps, pts) {
        var k :| 0 <= k < |pts| - 1 && Close(eps, pts[k].x, pts[k + 1].x);
        var m, n := Sorting.PairSurvives(pts, points, k, k + 1);
      } else {
        forall i, j | 0 <= i < j < |pts|
          ensures pts[i].x < pts[j].x && !Close(eps, pts[i].x, pts[j].x)
        {
          assert !Close(eps, pts[i].x, pts[i + 1].x);
          assert BY_RAW(pts[i]) <= BY_RAW(pts[i + 1]);
          if i + 1 < j { assert BY_RAW(pts[i + 1]) <= BY_RAW(pts[j]); }
        }
        if i, j :| 0 <= i < j < |points| && Close(eps, points[i].x, points[j].x) {
          var m, n := Sorting.PairSurvives(points, pts, i, j);
        }
      }
    }
  }

  /** In terms of distances: with a positive tolerance the inputs are that far apart at least. */
  lemma {:induction false} NewNeedsGaps(eps: real, points: seq<Point>)
    requires eps > 0.0
    ensures New(eps, points).Some? <==>
      |points| >= 2 &&
      forall i, j :: 0 <= i < j < |points| ==> points[i].x - points[j].x >= eps || points[j].x - points[i].x >= eps
  {
    NewAccepts(eps, points);
    forall i, j | 0 <= i < j < |points|
      ensures !Close(eps, points[i].x, points[j].x) <==>
        points[i].x - points[j].x >= eps || points[j].x - points[i].x >= eps
    {
    }
  }

  // ----- evaluation -----

  function Interp(a: Point, b: Point, x: real): real
    requires a.x != b.x
  {
    var t := (x - a.x) / (b.x - a.x);
    a.y + t * (b.y - a.y)
  }

  lemma {:induction false} InterpIsLine(a: Point, b: Point, x: real)
    requires a.x != b.x
    ensures Interp(a, b, x) == At(Through(a, b), x)
  {
    var w := b.x - a.x;
    var h := b.y - a.y;
    var m := h / w;
    assert ((x - a.x) / w) * h == (x - a.x) * m by { Fraction(x - a.x, w, h); }
    assert (x - a.x) * m == m * x - m * a.x;
  }

  lemma {:induction false} Fraction(u: real, w: real, h: real)
    requires w != 0.0
    ensures (u / w) * h == u * (h / w)
  {
  }

  /** The scan over adjacent pairs from index `i`, then the last segment. */
  function ScanFrom(pts: seq<Point>, raw: real, i: nat): real
    requires |pts| >= 2
    requires forall a, b :: 0 <= a < b < |pts| ==> pts[a].x < pts[b].x
    decreases |pts| - i
  {
    var n := |pts|;
    if i + 1 >= n then
      Interp(pts[n - 2], pts[n - 1], raw)
    else if pts[i].x <= raw <= pts[i + 1].x then
      Interp(pts[i], pts[i + 1], raw)
    else
      ScanFrom(pts, raw, i + 1)
  }

  function Apply(c: Calibration, raw: real): real
    requires Valid(c)
  {
    if raw < c.points[0].x then
      Interp(c.points[0], c.points[1], raw)
    else
      ScanFrom(c.points, raw, 0)
  }

  /** What evaluating a stored table comes to, checked by `New` or not: a value, a read outside the
      table, which panics, or a division by the zero width of a segment, which gives no number. */
  datatype Reading = Value(y: real) | BadIndex(index: int) | NoNumber

  function Interpolated(a: Point, b: Point, x: real): Reading {
    if a.x == b.x then NoNumber else Value(Interp(a, b, x))
  }

  function ScanTable(pts: seq<Point>, raw: real, i: nat): Reading
    decreases |pts| - i
  {
    var n := |pts|;
    if i + 1 >= n then (if n < 2 then BadIndex(n - 2) else Interpolated(pts[n - 2], pts[n - 1], raw))
    else if pts[i].x <= raw <= pts[i + 1].x then Interpolated(pts[i], pts[i + 1], raw)
    else ScanTable(pts, raw, i + 1)
  }

  function ApplyTable(pts: seq<Point>, raw: real): Reading {
    if pts == [] then BadIndex(0)
    else if raw < pts[0].x then (if |pts| < 2 then BadIndex(1) else Interpolated(pts[0], pts[1], raw))
    else ScanTable(pts, raw, 0)
  }

  method ApplyRaw(c: Calibration, raw: real) returns (r: Reading)
    ensures r == ApplyTable(c.points, raw)
  {
    var pts := c.points;
    if |pts| <= 0 {
      return BadIndex(0);
    }
    if raw < pts[0].x {
      if |pts| <= 1 {
        return BadIndex(1);
      }
      return Interpolated(pts[0], pts[1], raw);
    }
    var i := 0;
    while i + 1 < |pts|
      invariant 0 <= i <= |pts| - 1
      invariant ScanTable(pts, raw, 0) == ScanTable(pts, raw, i)
    {
      if pts[i].x <= raw <= pts[i + 1].x {
        return Interpolated(pts[i], pts[i + 1], raw);
      }
      i := i + 1;
    }
    var n := |pts|;
    if n - 2 < 0 {
      return BadIndex(n - 2);
    }
    return Interpolated(pts[n - 2], pts[n - 1], raw);
  }

  /** A table that `New` accepts always gives its value. */
  lemma {:induction false} ValidReads(c: Calibration, raw: real)
    requires Valid(c)
    ensures ApplyTable(c.points, raw) == Value(Apply(c, raw))
  {
    if raw >= c.points[0].x {
      ValidScans(c.points, raw, 0);
    }
  }

  lemma {:induction false} ValidScans(pts: seq<Point>, raw: real, i: nat)
    requires Valid(Calibration(pts))
    ensures ScanTable(pts, raw, i) == Value(ScanFrom(pts, raw, i))
    decreases |pts| - i
  {
    var n := |pts|;
    assert pts[n - 2].x < pts[n - 1].x;
    if i + 1 < n {
      assert pts[i].x < pts[i + 1].x;
      ValidScans(pts, raw, i + 1);
    }
  }

  /** Evaluation reads outside the table exactly when it has fewer than two points: index 0 of an empty
      one; of a single point index 1 below its input, and else the index two before the end. */
  lemma {:induction false} ShortTablesPanic(pts: seq<Point>, raw: real)
    ensures ApplyTable(pts, raw).BadIndex? <==> |pts| < 2
    ensures |pts| == 0 ==> ApplyTable(pts, raw) == BadIndex(0)
    ensures |pts| == 1 ==> ApplyTable(pts, raw) == BadIndex(if raw < pts[0].x then 1 else -1)
  {
    ScanStays(pts, raw, 0);
  }

  lemma {:induction false} ScanStays(pts: seq<Point>, raw: real, i: nat)
    ensures |pts| >= 2 ==> !ScanTable(pts, raw, i).BadIndex?
    decreases |pts| - i
  {
    if i + 1 < |pts| {
      ScanStays(pts, raw, i + 1);
    }
  }

  // ----- segments -----

  function Last(c: Calibration): nat
    requires Valid(c)
  {
    |c.points| - 2
  }

  /** The line of segment `k`. */
  function Seg(c: Calibration, k: nat): Line
    requires Valid(c) && k <= Last(c)
  {
    Through(c.points[k], c.points[k + 1])
  }

  /** `x` lies on segment `k`; with `ext` the outer segments reach to infinity. */
  predicate On(c: Calibration, k: nat, x: real, ext: bool)
    requires Valid(c) && k <= Last(c)
  {
    (c.points[k].x <= x || (ext && k == 0)) &&
    (x <= c.points[k + 1].x || (ext && k == Last(c)))
  }

  /** `x` lies strictly inside segment `k`. */
  predicate Inside(c: Calibration, k: nat, x: real, ext: bool)
    requires Valid(c) && k <= Last(c)
  {
    (c.points[k].x < x || (ext && k == 0)) &&
    (x < c.points[k + 1].x || (ext && k == Last(c)))
  }

  /** Where the law is claimed: everywhere, or between the first and last breakpoints. */
  predicate Domain(c: Calibration, x: real, ext: bool)
    requires Valid(c)
  {
    ext || c.points[0].x <= x <= c.points[|c.points| - 1].x
  }

  /** `Apply` is the line of any segment that `x` lies on. */
  lemma {:induction false} ApplyOn(c: Calibration, k: nat, x: real)
    requires Valid(c) && k <= Last(c) && On(c, k, x, true)
    ensures Apply(c, x) == At(Seg(c, k), x)
  {
    var pts := c.points;
    if x < pts[0].x {
      assert k == 0;
      InterpIsLine(pts[0], pts[1], x);
    } else {
      ScanReaches(c, k, x, 0);
    }
  }

  lemma {:induction false} ScanReaches(c: Calibration, k: nat, x: real, i: nat)
    requires Valid(c) && i <= k <= Last(c) && On(c, k, x, true)
    requires c.points[i].x <= x
    ensures ScanFrom(c.points, x, i) == At(Seg(c, k), x)
    decreases k - i
  {
    var pts := c.points;
    if x <= pts[i + 1].x {
      InterpIsLine(pts[i], pts[i + 1], x);
      if i < k {
        assert i + 1 == k && x == pts[k].x;
        ThroughHits(pts[i], pts[k]);
        ThroughHits(pts[k], pts[k + 1]);
      }
    } else if i < k {
      ScanReaches(c, k, x, i + 1);
    } else {
      InterpIsLine(pts[k], pts[k + 1], x);
    }
  }

  /** Every point of the domain lies on a segment. */
  lemma {:induction false} Locate(c: Calibration, x: real, ext: bool) returns (k: nat)
    requires Valid(c) && Domain(c, x, ext)
    ensures k <= Last(c) && On(c, k, x, ext)
  {
    k := 0;
    while k < Last(c) && x > c.points[k + 1].x
      invariant k <= Last(c)
      invariant k > 0 ==> c.points[k].x < x
    {
      k := k + 1;
    }
  }
}
