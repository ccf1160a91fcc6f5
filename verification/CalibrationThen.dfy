/** `Calibration::then`: collapsing a composition into one table, and exactly when the
    table computes the composition. */
module Chaining {
  import opened Wrappers
  import opened Lines
  import opened Calibrations
  import Sorting

  function Min(a: real, b: real): real { if a <= b then a else b }

  function Max(a: real, b: real): real { if a <= b then b else a }

  // ----- pulling a value back through the table -----

  predicate Reaches(a: Point, b: Point, y: real) {
    Min(a.y, b.y) <= y <= Max(a.y, b.y)
  }

  /** The first segment, from `i` on, whose outputs reach `y`. */
  function FirstHit(pts: seq<Point>, y: real, i: nat): (r: Option<nat>)
    ensures r.Some? ==> i <= r.value < |pts| - 1 && Reaches(pts[r.value], pts[r.value + 1], y)
    ensures forall k :: i <= k < (if r.Some? then r.value else |pts| - 1) ==> !Reaches(pts[k], pts[k + 1], y)
    decreases |pts| - i
  {
    if i + 1 >= |pts| then None
    else if Reaches(pts[i], pts[i + 1], y) then Some(i)
    else FirstHit(pts, y, i + 1)
  }

  function Solve(eps: real, a: Point, b: Point, y: real): real
    requires eps >= 0.0
  {
    if Close(eps, b.y, a.y) then a.x
    else
      var t := (y - a.y) / (b.y - a.y);
      a.x + t * (b.x - a.x)
  }

  function Invert(eps: real, c: Calibration, y: real): Option<real>
    requires eps >= 0.0
  {
    match FirstHit(c.points, y, 0)
    case None => None
    case Some(k) => Some(Solve(eps, c.points[k], c.points[k + 1], y))
  }

  method InvertSelf(eps: real, c: Calibration, y: real) returns (r: Option<real>)
    requires eps >= 0.0
    ensures r == Invert(eps, c, y)
  {
    var i := 0;
    while i + 1 < |c.points|
      invariant 0 <= i
      invariant FirstHit(c.points, y, 0) == FirstHit(c.points, y, i)
    {
      if Reaches(c.points[i], c.points[i + 1], y) {
        return Some(Solve(eps, c.points[i], c.points[i + 1], y));
      }
      i := i + 1;
    }
    return None;
  }

  /** Solving on a segment stays on the segment, and on a sloped one finds the preimage. */
  lemma {:induction false} SolveOnSegment(c: Calibration, k: nat, y: real)
    requires Valid(c) && k <= Last(c) && Reaches(c.points[k], c.points[k + 1], y)
    ensures On(c, k, Solve(0.0, c.points[k], c.points[k + 1], y), false)
    ensures At(Seg(c, k), Solve(0.0, c.points[k], c.points[k + 1], y)) == y
  {
    var (a, b) := (c.points[k], c.points[k + 1]);
    var l := Seg(c, k);
    ThroughHits(a, b);
    if a.y != b.y {
      var (t, w, h) := ((y - a.y) / (b.y - a.y), b.x - a.x, b.y - a.y);
      SolveBetween(0.0, a, b, y);
      assert t * h == y - a.y by { Quotient(y - a.y, h); }
      assert l.slope * w == h by { Rise(l, a, b); }
      Products(l.slope, t, w, h);
      Step(l, a.x, t * w);
    }
  }

  lemma {:induction false} Quotient(u: real, h: real)
    requires h != 0.0
    ensures (u / h) * h == u
  {
  }

  lemma {:induction false} Rise(l: Line, a: Point, b: Point)
    requires At(l, a.x) == a.y && At(l, b.x) == b.y
    ensures l.slope * (b.x - a.x) == b.y - a.y
  {
    assert l.slope * (b.x - a.x) == l.slope * b.x - l.slope * a.x;
  }

  lemma {:induction false} Products(m: real, t: real, w: real, h: real)
    requires m * w == h
    ensures m * (t * w) == t * h
  {
    assert m * (t * w) == (m * w) * t;
  }

  lemma {:induction false} Step(l: Line, x: real, d: real)
    ensures At(l, x + d) == At(l, x) + l.slope * d
  {
    assert l.slope * (x + d) == l.slope * x + l.slope * d;
  }

  /** Whatever the tolerance, solving never leaves the segment. */
  lemma {:induction false} SolveBetween(eps: real, a: Point, b: Point, y: real)
    requires eps >= 0.0 && Reaches(a, b, y)
    ensures Min(a.x, b.x) <= Solve(eps, a, b, y) <= Max(a.x, b.x)
  {
    if !Close(eps, b.y, a.y) {
      Reached(a, b, y);
      var (t, w) := ((y - a.y) / (b.y - a.y), b.x - a.x);
      Mixed(a.x, w, t);
      assert Solve(eps, a, b, y) == a.x + t * w;
    }
  }

  lemma {:induction false} Mixed(p: real, w: real, t: real)
    requires 0.0 <= t <= 1.0
    ensures Min(p, p + w) <= p + t * w <= Max(p, p + w)
  {
    if w >= 0.0 {
      UnitScale(t, w);
    } else {
      UnitScale(t, -w);
      Opposite(t, -w, w);
    }
  }

  lemma {:induction false} Opposite(t: real, v: real, w: real)
    requires w == -v
    ensures t * w == -(t * v)
  {
  }

  lemma {:induction false} Reached(a: Point, b: Point, y: real)
    requires a.y != b.y && Reaches(a, b, y)
    ensures 0.0 <= (y - a.y) / (b.y - a.y) <= 1.0
  {
    UnitFraction(y - a.y, b.y - a.y);
  }

  lemma {:induction false} SolveIsPreimage(c: Calibration, k: nat, y: real)
    requires Valid(c) && k <= Last(c) && Reaches(c.points[k], c.points[k + 1], y)
    requires Seg(c, k).slope != 0.0
    ensures Solve(0.0, c.points[k], c.points[k + 1], y) == Preimage(Seg(c, k), y)
  {
    SolveOnSegment(c, k, y);
    PreimageUnique(Seg(c, k), Solve(0.0, c.points[k], c.points[k + 1], y));
  }

  /** Inverting never leaves the table's input range. */
  lemma {:induction false} InvertOnSegment(c: Calibration, y: real, x: real) returns (k: nat)
    requires Valid(c) && Invert(0.0, c, y) == Some(x)
    ensures k <= Last(c) && On(c, k, x, false) && FirstHit(c.points, y, 0) == Some(k)
  {
    k := FirstHit(c.points, y, 0).value;
    SolveOnSegment(c, k, y);
  }

  lemma {:induction false} InvertInDomain(c: Calibration, y: real, x: real)
    requires Valid(c) && Invert(0.0, c, y) == Some(x)
    ensures Domain(c, x, false)
  {
    var k := InvertOnSegment(c, y, x);
    SegmentInDomain(c, k, x);
  }

  lemma {:induction false} SegmentInDomain(c: Calibration, k: nat, x: real)
    requires Valid(c) && k <= Last(c) && On(c, k, x, false)
    ensures Domain(c, x, false)
  {
  }

  lemma {:induction false} UnitFraction(u: real, h: real)
    requires h != 0.0 && (0.0 <= u <= h || h <= u <= 0.0)
    ensures 0.0 <= u / h <= 1.0
  {
  }

  lemma {:induction false} UnitScale(t: real, w: real)
    requires 0.0 <= t <= 1.0 && w >= 0.0
    ensures 0.0 <= t * w <= w
  {
    assert (1.0 - t) * w >= 0.0;
  }

  // ----- the chained breakpoints -----

  function Lowest(pts: seq<Point>): (m: real)
    requires pts != []
    ensures forall p :: p in pts ==> m <= p.y
    ensures exists p :: p in pts && m == p.y
  {
    var n := |pts| - 1;
    assert pts == pts[..n] + [pts[n]];
    if n == 0 then pts[0].y else Min(Lowest(pts[..n]), pts[n].y)
  }

  function Highest(pts: seq<Point>): (m: real)
    requires pts != []
    ensures forall p :: p in pts ==> p.y <= m
    ensures exists p :: p in pts && m == p.y
  {
    var n := |pts| - 1;
    assert pts == pts[..n] + [pts[n]];
    if n == 0 then pts[0].y else Max(Highest(pts[..n]), pts[n].y)
  }

  function Raws(pts: seq<Point>): (r: seq<real>)
    ensures |r| == |pts| && forall i :: 0 <= i < |pts| ==> r[i] == pts[i].x
  {
    if pts == [] then [] else Raws(pts[..|pts| - 1]) + [pts[|pts| - 1].x]
  }

  /** The breakpoints `ops` of the second table that fall in the first one's output range,
      pulled back through it. */
  function PullBack(eps: real, c: Calibration, ops: seq<Point>): seq<real>
    requires eps >= 0.0
  {
    if ops == [] then [] else
      PullBack(eps, c, ops[..|ops| - 1]) + Pulled(eps, c, ops[|ops| - 1].x)
  }

  function Pulled(eps: real, c: Calibration, q: real): seq<real>
    requires eps >= 0.0
  {
    var x := Invert(eps, c, q);
    if c.points != [] && Lowest(c.points) <= q <= Highest(c.points) && x.Some? then [x.value] else []
  }

  /** The outputs' range; none for an empty table, whose bounds are infinite the wrong way round. */
  function OutputRange(pts: seq<Point>): Option<(real, real)> {
    if pts == [] then None else Some((Lowest(pts), Highest(pts)))
  }

  predicate InRange(range: Option<(real, real)>, y: real) {
    range.Some? && range.value.0 <= y <= range.value.1
  }

  lemma {:induction false} PullBackHas(eps: real, c: Calibration, ops: seq<Point>, j: nat)
    requires eps >= 0.0 && j < |ops| && Invert(eps, c, ops[j].x).Some?
    ensures Invert(eps, c, ops[j].x).value in PullBack(eps, c, ops)
  {
    if j < |ops| - 1 {
      PullBackHas(eps, c, ops[..|ops| - 1], j);
    } else {
      PulledHas(eps, c, ops[j].x);
    }
  }

  lemma {:induction false} PulledHas(eps: real, c: Calibration, y: real)
    requires eps >= 0.0 && Invert(eps, c, y).Some?
    ensures Pulled(eps, c, y) == [Invert(eps, c, y).value]
  {
    InvertInRange(eps, c, y);
  }

  lemma {:induction false} PullBackOnly(eps: real, c: Calibration, ops: seq<Point>, x: real) returns (j: nat)
    requires eps >= 0.0 && x in PullBack(eps, c, ops)
    ensures j < |ops| && Invert(eps, c, ops[j].x) == Some(x)
  {
    var m := |ops| - 1;
    if x in PullBack(eps, c, ops[..m]) {
      j := PullBackOnly(eps, c, ops[..m], x);
    } else {
      j := m;
    }
  }

  /** The range test of `then` never rejects a value that some segment reaches. */
  lemma {:induction false} InvertInRange(eps: real, c: Calibration, y: real)
    requires eps >= 0.0 && Invert(eps, c, y).Some?
    ensures c.points != [] && Lowest(c.points) <= y <= Highest(c.points)
  {
    var k := FirstHit(c.points, y, 0).value;
    assert c.points[k] in c.points && c.points[k + 1] in c.points;
  }

  /** `dedup_by`: an element close to the last one kept is dropped. */
  function Dedup(eps: real, xs: seq<real>): (r: seq<real>)
    ensures xs != [] ==> r != []
  {
    if |xs| <= 1 then xs else
      var kept := Dedup(eps, xs[..|xs| - 1]);
      var x := xs[|xs| - 1];
      if Close(eps, kept[|kept| - 1], x) then kept else kept + [x]
  }

  lemma {:induction false} DedupIncreasing(eps: real, xs: seq<real>)
    requires eps >= 0.0 && xs != [] && Sorting.SortedBy(BY_VALUE, xs)
    ensures var r := Dedup(eps, xs);
      r[0] == xs[0] && Increasing(r) && forall i :: 0 <= i < |r| - 1 ==> !Close(eps, r[i], r[i + 1])
    ensures forall x :: x in Dedup(eps, xs) ==> x in xs && x <= xs[|xs| - 1]
  {
    var n := |xs| - 1;
    if n > 0 {
      DedupIncreasing(eps, xs[..n]);
      DedupGrows(eps, xs, Dedup(eps, xs[..n]));
    }
  }

  lemma {:induction false} DedupGrows(eps: real, xs: seq<real>, kept: seq<real>)
    requires eps >= 0.0 && |xs| > 1 && Sorting.SortedBy(BY_VALUE, xs) && kept != [] && Increasing(kept)
    requires forall x :: x in kept ==> x in xs[..|xs| - 1] && x <= xs[|xs| - 2]
    ensures var (r, x) := (kept + [xs[|xs| - 1]], xs[|xs| - 1]);
      && (!Close(eps, kept[|kept| - 1], x) ==> Increasing(r))
      && (forall y :: y in r ==> y in xs && y <= x)
  {
    var n := |xs| - 1;
    assert BY_VALUE(xs[n - 1]) <= BY_VALUE(xs[n]);
    assert kept[|kept| - 1] in kept;
    forall i | 0 <= i < |kept| ensures kept[i] <= kept[|kept| - 1] {
      assert i == |kept| - 1 || kept[i] < kept[|kept| - 1];
    }
  }

  lemma {:induction false} DedupPrefix(eps: real, xs: seq<real>, m: nat)
    requires |xs| > 1 && m < |Dedup(eps, xs[..|xs| - 1])|
    ensures m < |Dedup(eps, xs)| && Dedup(eps, xs)[m] == Dedup(eps, xs[..|xs| - 1])[m]
  {
  }

  /** Every element is close to one that is kept and not larger. */
  lemma {:induction false} DedupCovers(eps: real, xs: seq<real>, i: nat) returns (m: nat)
    requires eps >= 0.0 && i < |xs| && Sorting.SortedBy(BY_VALUE, xs)
    ensures m < |Dedup(eps, xs)| && Dedup(eps, xs)[m] <= xs[i] && Close(eps, Dedup(eps, xs)[m], xs[i])
  {
    var n := |xs| - 1;
    if n == 0 {
      m := 0;
    } else if i < n {
      m := DedupCovers(eps, xs[..n], i);
      DedupPrefix(eps, xs, m);
    } else {
      DedupIncreasing(eps, xs[..n]);
      m := |Dedup(eps, xs)| - 1;
      var kept := Dedup(eps, xs[..n]);
      assert kept[|kept| - 1] in kept;
      assert BY_VALUE(xs[n - 1]) <= BY_VALUE(xs[n]);
    }
  }

  lemma {:induction false} DedupKeepsTwo(eps: real, xs: seq<real>, i: nat, j: nat)
    requires eps >= 0.0 && i < |xs| && j < |xs| && Sorting.SortedBy(BY_VALUE, xs)
    requires xs[i] < xs[j] && !Close(eps, xs[i], xs[j])
    ensures |Dedup(eps, xs)| >= 2
  {
    var m := DedupCovers(eps, xs, i);
    var n := DedupCovers(eps, xs, j);
  }

  function RawChain(eps: real, c: Calibration, other: Calibration): seq<real>
    requires eps >= 0.0
  {
    Sorting.Sort(BY_VALUE, Raws(c.points) + PullBack(eps, c, other.points))
  }

  function ChainXs(eps: real, c: Calibration, other: Calibration): seq<real>
    requires eps >= 0.0
  {
    Dedup(eps, RawChain(eps, c, other))
  }

  function Compose(c: Calibration, other: Calibration, x: real): real
    requires Valid(c) && Valid(other)
  {
    Apply(other, Apply(c, x))
  }

  function Pairs(c: Calibration, other: Calibration, xs: seq<real>): (r: seq<Point>)
    requires Valid(c) && Valid(other)
    ensures |r| == |xs| && forall i :: 0 <= i < |xs| ==> r[i] == Point(xs[i], Compose(c, other, xs[i]))
  {
    if xs == [] then [] else
      var n := |xs| - 1;
      Pairs(c, other, xs[..n]) + [Point(xs[n], Compose(c, other, xs[n]))]
  }

  /** `None` is the failure that the source's `expect` turns into a panic. */
  function Then(eps: real, c: Calibration, other: Calibration): Option<Calibration>
    requires eps >= 0.0 && Valid(c) && Valid(other)
  {
    New(eps, Pairs(c, other, ChainXs(eps, c, other)))
  }

  method PushOne(eps: real, c: Calibration, y: real, before: seq<real>, range: Option<(real, real)>)
    returns (xs: seq<real>)
    requires eps >= 0.0 && range == OutputRange(c.points)
    ensures xs == before + Pulled(eps, c, y)
  {
    xs := before;
    if InRange(range, y) {
      var x := InvertSelf(eps, c, y);
      if x.Some? {
        xs := xs + [x.value];
      }
    }
  }

  lemma {:induction false} PullBackSnoc(eps: real, c: Calibration, ops: seq<Point>, i: nat)
    requires eps >= 0.0 && i < |ops|
    ensures PullBack(eps, c, ops[..i + 1]) == PullBack(eps, c, ops[..i]) + Pulled(eps, c, ops[i].x)
  {
    assert ops[..i + 1][..i] == ops[..i];
  }

  /** `xs` after the first `i` breakpoints of the second table. */
  ghost predicate PushedUpTo(eps: real, c: Calibration, ops: seq<Point>, before: seq<real>, i: nat, xs: seq<real>)
    requires eps >= 0.0 && i <= |ops|
  {
    xs == before + PullBack(eps, c, ops[..i])
  }

  lemma {:induction false} PushedNext(eps: real, c: Calibration, ops: seq<Point>, before: seq<real>, i: nat,
      xs: seq<real>)
    requires eps >= 0.0 && i < |ops| && PushedUpTo(eps, c, ops, before, i, xs)
    ensures PushedUpTo(eps, c, ops, before, i + 1, xs + Pulled(eps, c, ops[i].x))
  {
    PullBackSnoc(eps, c, ops, i);
    Joined(before, PullBack(eps, c, ops[..i]), Pulled(eps, c, ops[i].x));
  }

  lemma {:induction false} Joined(a: seq<real>, b: seq<real>, c: seq<real>)
    ensures (a + b) + c == a + (b + c)
  {
  }

  method PushPulledBack(eps: real, c: Calibration, ops: seq<Point>, before: seq<real>, range: Option<(real, real)>)
    returns (xs: seq<real>)
    requires eps >= 0.0 && range == OutputRange(c.points)
    ensures xs == before + PullBack(eps, c, ops)
  {
    xs := before;
    var i := 0;
    while i < |ops|
      invariant 0 <= i <= |ops|
      invariant PushedUpTo(eps, c, ops, before, i, xs)
    {
      PushedNext(eps, c, ops, before, i, xs);
      xs := PushOne(eps, c, ops[i].x, xs, range);
      i := i + 1;
    }
    assert ops[..i] == ops;
  }

  lemma {:induction false} RawsSnoc(pts: seq<Point>, i: nat)
    requires 0 < i < |pts|
    ensures Raws(pts[..i + 1]) == Raws(pts[..i]) + [pts[i].x]
    ensures Lowest(pts[..i + 1]) == Min(Lowest(pts[..i]), pts[i].y)
    ensures Highest(pts[..i + 1]) == Max(Highest(pts[..i]), pts[i].y)
  {
    assert pts[..i + 1][..i] == pts[..i];
  }

  method RawsAndRange(pts: seq<Point>) returns (xs: seq<real>, range: Option<(real, real)>)
    ensures xs == Raws(pts) && range == OutputRange(pts)
  {
    if pts == [] {
      return [], None;
    }
    var lo, hi;
    xs, lo, hi := RawsAndBounds(pts);
    range := Some((lo, hi));
  }

  method RawsAndBounds(pts: seq<Point>) returns (xs: seq<real>, lo: real, hi: real)
    requires pts != []
    ensures xs == Raws(pts) && lo == Lowest(pts) && hi == Highest(pts)
  {
    xs, lo, hi := [pts[0].x], pts[0].y, pts[0].y;
    var i := 1;
    assert pts[..1] == [pts[0]];
    while i < |pts|
      invariant 1 <= i <= |pts|
      invariant xs == Raws(pts[..i]) && lo == Lowest(pts[..i]) && hi == Highest(pts[..i])
    {
      RawsSnoc(pts, i);
      xs, lo, hi := xs + [pts[i].x], Min(lo, pts[i].y), Max(hi, pts[i].y);
      i := i + 1;
    }
    assert pts[..i] == pts;
  }

  method DedupInPlace(eps: real, xs: seq<real>) returns (kept: seq<real>)
    ensures kept == Dedup(eps, xs)
  {
    if xs == [] {
      return [];
    }
    kept := [xs[0]];
    var i := 1;
    assert xs[..1] == [xs[0]];
    while i < |xs|
      invariant 1 <= i <= |xs|
      invariant kept == Dedup(eps, xs[..i])
    {
      assert xs[..i + 1][..i] == xs[..i];
      if !Close(eps, kept[|kept| - 1], xs[i]) {
        kept := kept + [xs[i]];
      }
      i := i + 1;
    }
    assert xs[..i] == xs;
  }

  // ----- when the `expect` fails -----

  /** The table's inputs in order. */
  function Inputs(pts: seq<Point>): seq<real> {
    Sorting.Sort(BY_VALUE, Raws(pts))
  }

  /** The smallest and the largest input cannot be told apart. */
  predicate Indistinct(eps: real, pts: seq<Point>)
    requires pts != []
  {
    Close(eps, Inputs(pts)[0], Inputs(pts)[|pts| - 1])
  }

  lemma {:induction false} InputsBound(pts: seq<Point>, i: nat)
    requires i < |pts|
    ensures |Inputs(pts)| == |pts| && Inputs(pts)[0] <= pts[i].x <= Inputs(pts)[|pts| - 1]
  {
    var (raws, r) := (Raws(pts), Inputs(pts));
    assert raws[i] == pts[i].x;
    Sorting.SameElements(BY_VALUE, raws, raws[i]);
    var j :| 0 <= j < |r| && r[j] == raws[i];
    assert BY_VALUE(r[0]) <= BY_VALUE(r[j]) || j == 0;
    assert BY_VALUE(r[j]) <= BY_VALUE(r[|r| - 1]) || j == |r| - 1;
  }

  lemma {:induction false} InvertInInputs(eps: real, c: Calibration, y: real)
    requires eps >= 0.0 && Invert(eps, c, y).Some?
    ensures c.points != [] &&
      Inputs(c.points)[0] <= Invert(eps, c, y).value <= Inputs(c.points)[|Inputs(c.points)| - 1]
  {
    var k := FirstHit(c.points, y, 0).value;
    SolveBetween(eps, c.points[k], c.points[k + 1], y);
    InputsBound(c.points, k);
    InputsBound(c.points, k + 1);
  }

  predicate WithinInputs(pts: seq<Point>, x: real) {
    pts != [] && Inputs(pts)[0] <= x <= Inputs(pts)[|Inputs(pts)| - 1]
  }

  lemma {:induction false} RawWithin(pts: seq<Point>, x: real)
    requires x in Raws(pts)
    ensures WithinInputs(pts, x)
  {
    var i :| 0 <= i < |Raws(pts)| && Raws(pts)[i] == x;
    InputsBound(pts, i);
  }

  lemma {:induction false} PulledWithin(eps: real, c: Calibration, ops: seq<Point>, x: real)
    requires eps >= 0.0 && x in PullBack(eps, c, ops)
    ensures WithinInputs(c.points, x)
  {
    var j := PullBackOnly(eps, c, ops, x);
    InvertInInputs(eps, c, ops[j].x);
  }

  lemma {:induction false} ChainMember(own: seq<real>, pulled: seq<real>, x: real)
    requires x in Sorting.Sort(BY_VALUE, own + pulled)
    ensures x in own || x in pulled
  {
    Sorting.SameElements(BY_VALUE, own + pulled, x);
  }

  /** No chained breakpoint lies outside the first table. */
  lemma {:induction false} ChainInInputs(eps: real, c: Calibration, other: Calibration, x: real)
    requires eps >= 0.0 && x in RawChain(eps, c, other)
    ensures WithinInputs(c.points, x)
  {
    ChainMember(Raws(c.points), PullBack(eps, c, other.points), x);
    if x in Raws(c.points) {
      RawWithin(c.points, x);
    } else {
      PulledWithin(eps, c, other.points, x);
    }
  }

  lemma {:induction false} InputIsChained(eps: real, c: Calibration, other: Calibration, x: real) returns (j: nat)
    requires eps >= 0.0 && x in Inputs(c.points)
    ensures j < |RawChain(eps, c, other)| && RawChain(eps, c, other)[j] == x
  {
    var (own, pulled) := (Raws(c.points), PullBack(eps, c, other.points));
    Sorting.SameElements(BY_VALUE, own, x);
    Sorting.SameElements(BY_VALUE, own + pulled, x);
    assert x in own + pulled;
    j :| 0 <= j < |RawChain(eps, c, other)| && RawChain(eps, c, other)[j] == x;
  }

  /** Two chained breakpoints are kept exactly if the first table's extreme inputs can be told apart. */
  lemma {:induction false} ChainKeepsTwoIff(eps: real, c: Calibration, other: Calibration)
    requires eps >= 0.0 && c.points != []
    ensures |ChainXs(eps, c, other)| >= 2 <==> !Indistinct(eps, c.points)
  {
    var (ins, sorted, n) := (Inputs(c.points), RawChain(eps, c, other), |c.points| - 1);
    var i := InputIsChained(eps, c, other, ins[0]);
    if Close(eps, ins[0], ins[n]) {
      forall x | x in sorted ensures ins[0] <= x <= ins[n] {
        ChainInInputs(eps, c, other, x);
      }
      DedupSpreads(eps, sorted, ins[0], ins[n]);
    } else {
      var j := InputIsChained(eps, c, other, ins[n]);
      InputsBound(c.points, 0);
      DedupKeepsTwo(eps, sorted, i, j);
    }
  }

  /** A dedup keeps two elements only of a range whose ends can be told apart. */
  lemma {:induction false} DedupSpreads(eps: real, xs: seq<real>, lo: real, hi: real)
    requires eps >= 0.0 && xs != [] && Sorting.SortedBy(BY_VALUE, xs)
    requires forall x :: x in xs ==> lo <= x <= hi
    ensures |Dedup(eps, xs)| >= 2 ==> !Close(eps, lo, hi)
  {
    DedupIncreasing(eps, xs);
    var r := Dedup(eps, xs);
    if |r| >= 2 {
      assert r[0] in r && r[1] in r;
      assert !Close(eps, r[0], r[1]) && r[0] < r[1];
    }
  }

  lemma {:induction false} EndsApart(eps: real, c: Calibration)
    requires eps >= 0.0 && Valid(c) && !AdjacentClose(eps, c.points)
    ensures !Close(eps, c.points[0].x, c.points[|c.points| - 1].x)
  {
    assert !Close(eps, c.points[0].x, c.points[0 + 1].x);
    assert c.points[1].x <= c.points[|c.points| - 1].x;
  }

  lemma {:induction false} InputsOfIncreasing(c: Calibration)
    requires Valid(c)
    ensures Inputs(c.points) == Raws(c.points)
  {
    Sorting.SortIdentity(BY_VALUE, Raws(c.points));
  }

  /** For every tolerance and every increasing table: `then` builds a table if and only if the first
      table's outer breakpoints can be told apart. Its breakpoints are the chained ones. */
  lemma {:induction false} ThenSucceedsIff(eps: real, c: Calibration, other: Calibration)
    requires eps >= 0.0 && Valid(c) && Valid(other)
    ensures Then(eps, c, other).Some? <==> !Close(eps, c.points[0].x, c.points[|c.points| - 1].x)
    ensures Then(eps, c, other).Some? ==>
      Valid(Then(eps, c, other).value) &&
      Then(eps, c, other).value.points == Pairs(c, other, ChainXs(eps, c, other))
  {
    InputsOfIncreasing(c);
    ChainKeepsTwoIff(eps, c, other);
    ChainNotEmpty(eps, c, other);
    NewTakesPairs(eps, c, other, RawChain(eps, c, other));
  }

  lemma {:induction false} NewTakesPairs(eps: real, c: Calibration, other: Calibration, raw: seq<real>)
    requires eps >= 0.0 && Valid(c) && Valid(other) && raw != [] && Sorting.SortedBy(BY_VALUE, raw)
    ensures var (xs, pairs) := (Dedup(eps, raw), Pairs(c, other, Dedup(eps, raw)));
      && (|xs| < 2 ==> New(eps, pairs).None?)
      && (|xs| >= 2 ==> New(eps, pairs) == Some(Calibration(pairs)) && Valid(Calibration(pairs)))
  {
    NewTakes(eps, raw, Pairs(c, other, Dedup(eps, raw)));
  }

  lemma {:induction false} ChainNotEmpty(eps: real, c: Calibration, other: Calibration)
    requires eps >= 0.0 && c.points != []
    ensures RawChain(eps, c, other) != []
  {
    var j := InputIsChained(eps, c, other, Inputs(c.points)[0]);
  }

  /** `new` takes what the dedup leaves, if that is two pairs or more. */
  lemma {:induction false} NewTakes(eps: real, xs: seq<real>, pts: seq<Point>)
    requires eps >= 0.0 && xs != [] && Sorting.SortedBy(BY_VALUE, xs)
    requires |pts| == |Dedup(eps, xs)| && forall i :: 0 <= i < |pts| ==> pts[i].x == Dedup(eps, xs)[i]
    ensures |pts| < 2 ==> New(eps, pts).None?
    ensures |pts| >= 2 ==> New(eps, pts) == Some(Calibration(pts)) && Valid(Calibration(pts))
  {
    DedupIncreasing(eps, xs);
    if |pts| >= 2 {
      NewOnIncreasing(eps, pts);
    }
  }

  /** In particular for every table that `new` accepts. */
  lemma {:induction false} ThenSucceeds(eps: real, c: Calibration, other: Calibration)
    requires eps >= 0.0 && Valid(c) && Valid(other)
    requires !AdjacentClose(eps, c.points)
    ensures Then(eps, c, other).Some?
    ensures Valid(Then(eps, c, other).value)
    ensures Then(eps, c, other).value.points == Pairs(c, other, ChainXs(eps, c, other))
  {
    ThenSucceedsIff(eps, c, other);
    EndsApart(eps, c);
  }

  /** A stored table that `new` would have refused: two points closer than the tolerance. */
  lemma {:induction false} ThenFails(eps: real, other: Calibration) returns (c: Calibration)
    requires eps > 0.0 && Valid(other)
    ensures Valid(c) && c.points == [Point(0.0, 0.0), Point(eps / 2.0, 1.0)] && Then(eps, c, other).None?
  {
    c := Calibration([Point(0.0, 0.0), Point(eps / 2.0, 1.0)]);
    ThenSucceedsIff(eps, c, other);
  }

  lemma {:induction false} NewOnIncreasing(eps: real, pts: seq<Point>)
    requires |pts| >= 2 && Valid(Calibration(pts)) && !AdjacentClose(eps, pts)
    ensures New(eps, pts) == Some(Calibration(pts))
  {
    Sorting.SortIdentity(BY_RAW, pts);
  }
}
