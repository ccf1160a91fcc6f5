/** When the chained table computes the composition: the law
    `self.then(other)(x) == other(self(x))` that the source documents for every `x`
    holds exactly when `OnceCrossed` does. Comparisons are exact (`eps == 0.0`). */
module ChainLaw {
  import opened Wrappers
  import opened Lines
  import opened Calibrations
  import opened Chaining
  import Sorting

  /** The slope of `o` changes at its breakpoint `j`. */
  predicate Kink(o: Calibration, j: nat)
    requires Valid(o)
  {
    1 <= j <= Last(o) && Seg(o, j - 1) != Seg(o, j)
  }

  /** The line of segment `k` of `s` passes the value `q`, away from the end points of the
      segment. With `ext` the outer segments count with their extrapolation. */
  predicate Crosses(s: Calibration, k: nat, q: real, ext: bool)
    requires Valid(s) && k <= Last(s)
  {
    Seg(s, k).slope != 0.0 && Inside(s, k, Preimage(Seg(s, k), q), ext)
  }

  /** `then` adds a breakpoint for `q` where segment `k` passes it. */
  predicate Kept(s: Calibration, k: nat, q: real)
    requires Valid(s) && k <= Last(s)
  {
    Crosses(s, k, q, false) && FirstHit(s.points, q, 0) == Some(k)
  }

  /** Every kink of `o` that a segment of `s` crosses is crossed between the breakpoints
      of `s`, and by the first segment that reaches it. */
  predicate OnceCrossed(s: Calibration, o: Calibration, ext: bool)
    requires Valid(s) && Valid(o)
  {
    forall j, k :: 1 <= j <= Last(o) && 0 <= k <= Last(s) && Kink(o, j) && Crosses(s, k, o.points[j].x, ext) ==>
      Kept(s, k, o.points[j].x)
  }

  /** The law, everywhere (`ext`) or between the first and last breakpoints of `s`. */
  ghost predicate Law(s: Calibration, o: Calibration, ext: bool)
    requires Valid(s) && Valid(o)
    requires Then(0.0, s, o).Some? && Valid(Then(0.0, s, o).value)
  {
    forall x :: Domain(s, x, ext) ==> Apply(Then(0.0, s, o).value, x) == Compose(s, o, x)
  }

  /** The chained table: its breakpoints are those of `s` and the pulled-back ones of
      `o`, none outside the range of `s`, each with the composition's value. */
  ghost predicate Table(s: Calibration, o: Calibration, c: Calibration) {
    && Valid(s) && Valid(o) && Valid(c)
    && c.points == Pairs(s, o, ChainXs(0.0, s, o))
    && c.points[0].x == s.points[0].x
    && c.points[|c.points| - 1].x == s.points[|s.points| - 1].x
    && (forall i :: 0 <= i < |s.points| ==> Breakpoint(c, s.points[i].x))
    && (forall j :: 0 <= j < |o.points| ==> PulledIn(s, c, o.points[j].x))
    && (forall i :: 0 <= i < |c.points| ==> Origin(s, o, c.points[i].x))
  }

  ghost predicate PulledIn(s: Calibration, c: Calibration, y: real) {
    Invert(0.0, s, y).Some? ==> Breakpoint(c, Invert(0.0, s, y).value)
  }

  lemma {:induction false} Chained(s: Calibration, o: Calibration) returns (c: Calibration)
    requires Valid(s) && Valid(o)
    ensures Then(0.0, s, o) == Some(c) && Table(s, o, c)
  {
    ThenSucceeds(0.0, s, o);
    c := Then(0.0, s, o).value;
    ChainHasAll(s, o, c);
    ChainHasOnly(s, o, c);
    ChainEnds(s, c);
  }

  lemma {:induction false} ChainHasAll(s: Calibration, o: Calibration, c: Calibration)
    requires Valid(s) && Valid(o) && c.points == Pairs(s, o, ChainXs(0.0, s, o))
    ensures forall i :: 0 <= i < |s.points| ==> Breakpoint(c, s.points[i].x)
    ensures forall j :: 0 <= j < |o.points| ==> PulledIn(s, c, o.points[j].x)
  {
    forall i | 0 <= i < |s.points|
      ensures Breakpoint(c, s.points[i].x)
    {
      ChainHas(s, o, c, s.points[i].x);
    }
    forall j | 0 <= j < |o.points|
      ensures PulledIn(s, c, o.points[j].x)
    {
      ChainHasPulled(s, o, c, j);
    }
  }

  lemma {:induction false} ChainHasOnly(s: Calibration, o: Calibration, c: Calibration)
    requires Valid(s) && Valid(o) && c.points == Pairs(s, o, ChainXs(0.0, s, o))
    ensures forall i :: 0 <= i < |c.points| ==> Origin(s, o, c.points[i].x) && Domain(s, c.points[i].x, false)
  {
    forall i | 0 <= i < |c.points|
      ensures Origin(s, o, c.points[i].x) && Domain(s, c.points[i].x, false)
    {
      ChainOnly(s, o, c.points[i].x);
      OriginInRange(s, o, c.points[i].x);
    }
  }

  lemma {:induction false} ChainHasPulled(s: Calibration, o: Calibration, c: Calibration, j: nat)
    requires Valid(s) && Valid(o) && c.points == Pairs(s, o, ChainXs(0.0, s, o)) && j < |o.points|
    ensures PulledIn(s, c, o.points[j].x)
  {
    if Invert(0.0, s, o.points[j].x).Some? {
      PullBackHas(0.0, s, o.points, j);
      ChainHas(s, o, c, Invert(0.0, s, o.points[j].x).value);
    }
  }

  lemma {:induction false} ChainEnds(s: Calibration, c: Calibration)
    requires Valid(s) && Valid(c)
    requires Breakpoint(c, s.points[0].x) && Breakpoint(c, s.points[|s.points| - 1].x)
    requires forall i :: 0 <= i < |c.points| ==> Domain(s, c.points[i].x, false)
    ensures c.points[0].x == s.points[0].x
    ensures c.points[|c.points| - 1].x == s.points[|s.points| - 1].x
  {
  }

  ghost predicate Breakpoint(c: Calibration, x: real) {
    exists i :: 0 <= i < |c.points| && c.points[i].x == x
  }

  /** Where a chained breakpoint comes from. */
  ghost predicate Origin(s: Calibration, o: Calibration, x: real) {
    Breakpoint(s, x) || exists j :: 0 <= j < |o.points| && Invert(0.0, s, o.points[j].x) == Some(x)
  }

  lemma {:induction false} ChainHas(s: Calibration, o: Calibration, c: Calibration, x: real)
    requires Valid(s) && Valid(o) && c.points == Pairs(s, o, ChainXs(0.0, s, o))
    requires x in PullBack(0.0, s, o.points) || Breakpoint(s, x)
    ensures Breakpoint(c, x)
  {
    var (own, pulled) := (Raws(s.points), PullBack(0.0, s, o.points));
    if Breakpoint(s, x) {
      var i :| 0 <= i < |s.points| && s.points[i].x == x;
      assert own[i] == x;
    }
    var raw := RawChain(0.0, s, o);
    assert raw == Sorting.Sort(BY_VALUE, own + pulled);
    Sorting.SameElements(BY_VALUE, own + pulled, x);
    KeptOf(raw, x, c.points);
  }

  lemma {:induction false} KeptOf(raw: seq<real>, x: real, pts: seq<Point>)
    requires Sorting.SortedBy(BY_VALUE, raw) && x in raw
    requires |pts| == |Dedup(0.0, raw)| && forall i :: 0 <= i < |pts| ==> pts[i].x == Dedup(0.0, raw)[i]
    ensures Breakpoint(Calibration(pts), x)
  {
    var i :| 0 <= i < |raw| && raw[i] == x;
    var m := DedupCovers(0.0, raw, i);
    assert pts[m].x == x;
  }

  lemma {:induction false} ChainOnly(s: Calibration, o: Calibration, x: real)
    requires Valid(s) && Valid(o) && x in ChainXs(0.0, s, o)
    ensures Origin(s, o, x)
  {
    var all := Raws(s.points) + PullBack(0.0, s, o.points);
    var raw := RawChain(0.0, s, o);
    assert raw != [];
    DedupIncreasing(0.0, raw);
    Sorting.SameElements(BY_VALUE, all, x);
    if x in Raws(s.points) {
      var i :| 0 <= i < |Raws(s.points)| && Raws(s.points)[i] == x;
    } else {
      var j := PullBackOnly(0.0, s, o.points, x);
    }
  }

  lemma {:induction false} OriginInRange(s: Calibration, o: Calibration, x: real)
    requires Valid(s) && Origin(s, o, x)
    ensures Domain(s, x, false)
  {
    if !Breakpoint(s, x) {
      var j :| 0 <= j < |o.points| && Invert(0.0, s, o.points[j].x) == Some(x);
      InvertInDomain(s, o.points[j].x, x);
    }
  }

  /** Every chained segment lies within one segment of `s`. */
  lemma {:induction false} Within(s: Calibration, c: Calibration, i: nat) returns (k: nat)
    requires Valid(s) && Valid(c) && i <= Last(c)
    requires forall m :: 0 <= m < |s.points| ==> Breakpoint(c, s.points[m].x)
    requires c.points[0].x == s.points[0].x
    requires c.points[|c.points| - 1].x == s.points[|s.points| - 1].x
    ensures k <= Last(s)
    ensures forall x, ext :: On(c, i, x, ext) ==> On(s, k, x, ext)
    ensures forall x, ext :: Inside(c, i, x, ext) ==> Inside(s, k, x, ext)
  {
    var x := c.points[i].x;
    k := 0;
    while k < Last(s) && s.points[k + 1].x <= x
      invariant k <= Last(s) && s.points[k].x <= x
    {
      k := k + 1;
    }
    var m :| 0 <= m < |c.points| && c.points[m].x == s.points[k + 1].x;
    var n :| 0 <= n < |c.points| && c.points[n].x == s.points[k].x;
    assert x < c.points[|c.points| - 1].x;
    assert x < s.points[k + 1].x;
  }

  // ----- the condition is enough -----

  /** Going up from `y` on segment `a`, past breakpoints that are no kinks, the line of
      segment `a` stays right. */
  lemma {:induction false} Climb(o: Calibration, a: nat, y: real, z: real)
    requires Valid(o) && a <= Last(o) && On(o, a, y, true) && y <= z
    requires forall j :: a < j <= Last(o) && y <= o.points[j].x < z ==> !Kink(o, j)
    ensures Apply(o, z) == At(Seg(o, a), z)
    decreases Last(o) - a
  {
    if a == Last(o) || z <= o.points[a + 1].x {
      ApplyOn(o, a, z);
    } else {
      assert !Kink(o, a + 1);
      Climb(o, a + 1, o.points[a + 1].x, z);
    }
  }

  lemma {:induction false} Descend(o: Calibration, a: nat, y: real, z: real)
    requires Valid(o) && a <= Last(o) && On(o, a, y, true) && z <= y
    requires forall j :: 0 < j <= a && z < o.points[j].x <= y ==> !Kink(o, j)
    ensures Apply(o, z) == At(Seg(o, a), z)
    decreases a
  {
    if a == 0 || o.points[a].x <= z {
      ApplyOn(o, a, z);
    } else {
      assert !Kink(o, a);
      Descend(o, a - 1, o.points[a].x, z);
    }
  }

  lemma {:induction false} InsideIsNoBreakpoint(c: Calibration, i: nat, p: real, ext: bool)
    requires Valid(c) && i <= Last(c) && Inside(c, i, p, ext)
    requires c.points[0].x < p < c.points[|c.points| - 1].x
    ensures !Breakpoint(c, p)
  {
  }

  lemma {:induction false} KeptIsBreakpoint(s: Calibration, o: Calibration, c: Calibration, k: nat, j: nat)
    requires Table(s, o, c) && k <= Last(s) && j < |o.points| && Kept(s, k, o.points[j].x)
    ensures Breakpoint(c, Preimage(Seg(s, k), o.points[j].x))
  {
    assert PulledIn(s, c, o.points[j].x);
    SolveIsPreimage(s, k, o.points[j].x);
  }

  /** Inside a chained segment the first table's line meets no kink of the second. */
  lemma {:induction false} NoKink(s: Calibration, o: Calibration, c: Calibration, i: nat, k: nat, ext: bool, j: nat)
    requires Table(s, o, c) && OnceCrossed(s, o, ext)
    requires i <= Last(c) && k <= Last(s) && 1 <= j <= Last(o) && Seg(s, k).slope != 0.0
    requires Inside(c, i, Preimage(Seg(s, k), o.points[j].x), ext)
    requires Inside(s, k, Preimage(Seg(s, k), o.points[j].x), ext)
    ensures !Kink(o, j)
  {
    var p := Preimage(Seg(s, k), o.points[j].x);
    if Kink(o, j) {
      assert Crosses(s, k, o.points[j].x, ext);
      assert Kept(s, k, o.points[j].x);
      KeptIsBreakpoint(s, o, c, k, j);
      assert s.points[0].x < p < s.points[|s.points| - 1].x;
      InsideIsNoBreakpoint(c, i, p, ext);
    }
  }

  /** On a chained segment the composition is one line: the chained table's own. */
  lemma {:induction false} SegmentLine(s: Calibration, o: Calibration, c: Calibration, i: nat, k: nat, a: nat, l: Line)
    requires Table(s, o, c) && i <= Last(c) && k <= Last(s) && a <= Last(o)
    requires l == After(Seg(o, a), Seg(s, k))
    requires Compose(s, o, c.points[i].x) == At(l, c.points[i].x)
    requires Compose(s, o, c.points[i + 1].x) == At(l, c.points[i + 1].x)
    ensures Seg(c, i) == l
  {
    ThroughHits(c.points[i], c.points[i + 1]);
    Determined(Seg(c, i), l, c.points[i].x, c.points[i + 1].x);
  }

  /** From the middle `m` of a chained segment to any `x` on it, `o` follows one line. */
  lemma {:induction false} Straight(s: Calibration, o: Calibration, c: Calibration, i: nat, k: nat, a: nat,
      m: real, x: real, ext: bool)
    requires Table(s, o, c) && OnceCrossed(s, o, ext)
    requires i <= Last(c) && k <= Last(s) && a <= Last(o)
    requires forall z, e :: On(c, i, z, e) ==> On(s, k, z, e)
    requires forall z, e :: Inside(c, i, z, e) ==> Inside(s, k, z, e)
    requires Inside(c, i, m, false) && On(c, i, x, ext) && On(o, a, At(Seg(s, k), m), true)
    ensures Compose(s, o, x) == At(After(Seg(o, a), Seg(s, k)), x)
  {
    var l := Seg(s, k);
    var (y, z) := (At(l, m), At(l, x));
    forall j | 1 <= j <= Last(o) && (y <= o.points[j].x < z || z < o.points[j].x <= y)
      ensures !Kink(o, j)
    {
      var p := TowardsMiddle(l, m, x, o.points[j].x);
      assert Inside(c, i, p, ext);
      NoKink(s, o, c, i, k, ext, j);
    }
    assert On(s, k, x, true);
    ApplyOn(s, k, x);
    if y <= z {
      Climb(o, a, y, z);
    } else {
      Descend(o, a, y, z);
    }
    AfterAt(Seg(o, a), l, x);
  }

  /** A value passed on the way from `m` to `x`, before the end, is taken before the end. */
  lemma {:induction false} TowardsMiddle(l: Line, m: real, x: real, q: real) returns (p: real)
    requires At(l, m) <= q < At(l, x) || At(l, x) < q <= At(l, m)
    ensures l.slope != 0.0 && p == Preimage(l, q)
    ensures m <= p < x || x < p <= m
  {
    if q == At(l, m) {
      p := m;
      if m < x { Monotone(l, m, x); } else if x < m { Monotone(l, x, m); }
    } else if m < x {
      p := Between(l, m, x, q);
    } else {
      p := Between(l, x, m, q);
    }
    PreimageUnique(l, p);
  }

  lemma {:induction false} ConditionSuffices(s: Calibration, o: Calibration, c: Calibration, ext: bool, x: real)
    requires Table(s, o, c) && OnceCrossed(s, o, ext) && Domain(s, x, ext)
    ensures Apply(c, x) == Compose(s, o, x)
  {
    var i := Locate(c, x, ext);
    var k := Within(s, c, i);
    var m := (c.points[i].x + c.points[i + 1].x) / 2.0;
    var a := Locate(o, At(Seg(s, k), m), true);
    Straight(s, o, c, i, k, a, m, c.points[i].x, ext);
    Straight(s, o, c, i, k, a, m, c.points[i + 1].x, ext);
    Straight(s, o, c, i, k, a, m, x, ext);
    SegmentLine(s, o, c, i, k, a, After(Seg(o, a), Seg(s, k)));
    ApplyOn(c, i, x);
  }

  // ----- the condition is needed -----

  /** From a point `p` where segment `k`'s line takes the value of `o`'s breakpoint `j`,
      one can step within the chained segment while staying on either side's segment
      `b` of `o`. */
  lemma {:induction false} SideStep(s: Calibration, o: Calibration, c: Calibration, i: nat, k: nat, j: nat, b: nat,
      ext: bool)
    returns (x: real)
    requires Valid(s) && Valid(o) && Valid(c) && i <= Last(c) && k <= Last(s)
    requires 1 <= j <= Last(o) && (b == j || b == j - 1) && Seg(s, k).slope != 0.0
    requires Inside(c, i, Preimage(Seg(s, k), o.points[j].x), ext)
    ensures x != Preimage(Seg(s, k), o.points[j].x) && On(c, i, x, ext)
    ensures On(o, b, At(Seg(s, k), x), true)
  {
    var l := Seg(s, k);
    var p := Preimage(l, o.points[j].x);
    var far := Preimage(l, o.points[if b == j then j + 1 else j - 1].x);
    if far > p {
      x := if p < c.points[i + 1].x < far then c.points[i + 1].x else far;
      Monotone(l, p, x);
      if x < far { Monotone(l, x, far); }
    } else {
      assert far != p;
      x := if far < c.points[i].x < p then c.points[i].x else far;
      Monotone(l, x, p);
      if far < x { Monotone(l, far, x); }
    }
  }

  /** If the law holds along the chained segment, the side segment `b` composes to the
      chained line. */
  lemma {:induction false} SideLine(s: Calibration, o: Calibration, c: Calibration, i: nat, k: nat, j: nat, b: nat,
      ext: bool)
    requires Valid(s) && Valid(o) && Valid(c) && i <= Last(c) && k <= Last(s)
    requires 1 <= j <= Last(o) && (b == j || b == j - 1) && Seg(s, k).slope != 0.0
    requires Inside(c, i, Preimage(Seg(s, k), o.points[j].x), ext)
    requires forall z, e :: On(c, i, z, e) ==> On(s, k, z, e)
    requires forall x :: On(c, i, x, ext) ==> Apply(c, x) == Compose(s, o, x)
    ensures Seg(c, i) == After(Seg(o, b), Seg(s, k))
  {
    var l := Seg(s, k);
    var p := Preimage(l, o.points[j].x);
    var x := SideStep(s, o, c, i, k, j, b, ext);
    OnLine(s, o, c, i, k, b, p, ext);
    OnLine(s, o, c, i, k, b, x, ext);
    Determined(Seg(c, i), After(Seg(o, b), l), p, x);
  }

  lemma {:induction false} OnLine(s: Calibration, o: Calibration, c: Calibration, i: nat, k: nat, b: nat, x: real,
      ext: bool)
    requires Valid(s) && Valid(o) && Valid(c) && i <= Last(c) && k <= Last(s) && b <= Last(o)
    requires On(c, i, x, ext) && On(s, k, x, ext) && On(o, b, At(Seg(s, k), x), true)
    requires Apply(c, x) == Compose(s, o, x)
    ensures At(Seg(c, i), x) == At(After(Seg(o, b), Seg(s, k)), x)
  {
    ApplyOn(c, i, x);
    ApplyOn(s, k, x);
    ApplyOn(o, b, At(Seg(s, k), x));
    AfterAt(Seg(o, b), Seg(s, k), x);
  }

  /** Two lines that agree after the same sloped line, and at one point, are the same. */
  lemma {:induction false} CancelInner(u: Line, v: Line, l: Line)
    requires l.slope != 0.0 && After(u, l) == After(v, l)
    ensures u == v
  {
    var d := u.slope - v.slope;
    assert d * l.slope == u.slope * l.slope - v.slope * l.slope == 0.0;
    if d != 0.0 {
      NonZeroProduct(d, l.slope);
    }
  }

  /** A chained breakpoint strictly inside segment `k` that takes the value of `o`'s
      breakpoint `j` was pulled back through segment `k`. */
  lemma {:induction false} BreakpointIsKept(s: Calibration, o: Calibration, c: Calibration, k: nat, j: nat)
    requires Table(s, o, c) && k <= Last(s) && 1 <= j <= Last(o)
    requires Crosses(s, k, o.points[j].x, false)
    requires Breakpoint(c, Preimage(Seg(s, k), o.points[j].x))
    ensures Kept(s, k, o.points[j].x)
  {
    var p := Preimage(Seg(s, k), o.points[j].x);
    assert Origin(s, o, p);
    InsideIsNoOwnBreakpoint(s, k, p);
    var n :| 0 <= n < |o.points| && Invert(0.0, s, o.points[n].x) == Some(p);
    var k' := InvertOnSegment(s, o.points[n].x, p);
    OneInside(s, k, k', p, false);
    InvertedValue(s, o.points[n].x, p, k);
    assert n == j;
  }

  lemma {:induction false} InsideIsNoOwnBreakpoint(s: Calibration, k: nat, p: real)
    requires Valid(s) && k <= Last(s) && Inside(s, k, p, false)
    ensures !Breakpoint(s, p)
  {
  }

  lemma {:induction false} OneInside(s: Calibration, k: nat, k': nat, p: real, ext: bool)
    requires Valid(s) && k <= Last(s) && k' <= Last(s) && Inside(s, k, p, ext) && On(s, k', p, false)
    ensures k == k'
  {
  }

  lemma {:induction false} InvertedValue(s: Calibration, y: real, x: real, k: nat)
    requires Valid(s) && Invert(0.0, s, y) == Some(x) && FirstHit(s.points, y, 0) == Some(k)
    ensures k <= Last(s) && At(Seg(s, k), x) == y
  {
    SolveOnSegment(s, k, y);
  }

  /** Two segments cannot both hold a point inside. */
  lemma {:induction false} OneHolder(s: Calibration, k: nat, k': nat, p: real, ext: bool)
    requires Valid(s) && k <= Last(s) && k' <= Last(s) && Inside(s, k, p, ext) && Inside(s, k', p, ext)
    ensures k == k'
  {
  }

  lemma {:induction false} ConditionNeeded(s: Calibration, o: Calibration, c: Calibration, ext: bool, j: nat, k: nat)
    requires Table(s, o, c) && 1 <= j <= Last(o) && k <= Last(s)
    requires forall x :: Domain(s, x, ext) ==> Apply(c, x) == Compose(s, o, x)
    requires Kink(o, j) && Crosses(s, k, o.points[j].x, ext)
    ensures Kept(s, k, o.points[j].x)
  {
    var p := Preimage(Seg(s, k), o.points[j].x);
    if !Kept(s, k, o.points[j].x) {
      var i := LocateInside(s, o, c, k, j, ext);
      HolderContains(s, o, c, i, k, p, ext);
      NoKinkUnderLaw(s, o, c, i, k, j, ext);
    }
  }

  lemma {:induction false} NoKinkUnderLaw(s: Calibration, o: Calibration, c: Calibration, i: nat, k: nat, j: nat,
      ext: bool)
    requires Valid(s) && Valid(o) && Valid(c) && i <= Last(c) && k <= Last(s)
    requires 1 <= j <= Last(o) && Seg(s, k).slope != 0.0
    requires Inside(c, i, Preimage(Seg(s, k), o.points[j].x), ext)
    requires forall z, e :: On(c, i, z, e) ==> On(s, k, z, e)
    requires forall x :: On(c, i, x, ext) ==> Apply(c, x) == Compose(s, o, x)
    ensures !Kink(o, j)
  {
    SideLine(s, o, c, i, k, j, j, ext);
    SideLine(s, o, c, i, k, j, j - 1, ext);
    CancelInner(Seg(o, j), Seg(o, j - 1), Seg(s, k));
  }

  /** The segment of `s` that holds a point of a chained segment inside contains it all. */
  lemma {:induction false} HolderContains(s: Calibration, o: Calibration, c: Calibration, i: nat, k: nat, p: real,
      ext: bool)
    requires Table(s, o, c) && i <= Last(c) && k <= Last(s)
    requires Inside(c, i, p, ext) && Inside(s, k, p, ext)
    ensures forall z, e :: On(c, i, z, e) ==> On(s, k, z, e)
    ensures forall z :: On(c, i, z, ext) ==> Domain(s, z, ext)
  {
    var k' := Within(s, c, i);
    OneHolder(s, k, k', p, ext);
    forall z | On(c, i, z, ext)
      ensures Domain(s, z, ext)
    {
      if !ext { SegmentInDomain(s, k, z); }
    }
  }

  /** A crossing that `then` adds no breakpoint for lies inside a chained segment. */
  lemma {:induction false} LocateInside(s: Calibration, o: Calibration, c: Calibration, k: nat, j: nat,
      ext: bool) returns (i: nat)
    requires Table(s, o, c) && 1 <= j <= Last(o) && k <= Last(s)
    requires Crosses(s, k, o.points[j].x, ext) && !Kept(s, k, o.points[j].x)
    ensures i <= Last(c) && Inside(c, i, Preimage(Seg(s, k), o.points[j].x), ext)
  {
    var p := Preimage(Seg(s, k), o.points[j].x);
    if p <= c.points[0].x {
      i := 0;
    } else if c.points[|c.points| - 1].x <= p {
      i := Last(c);
    } else {
      assert Crosses(s, k, o.points[j].x, false);
      if Breakpoint(c, p) {
        BreakpointIsKept(s, o, c, k, j);
      }
      i := Locate(c, p, ext);
    }
  }

  // ----- the law -----

  /** The documented law holds exactly when every kink of the second table is crossed
      between the breakpoints of the first, and by the first segment reaching it. */
  lemma {:induction false} LawIff(s: Calibration, o: Calibration, ext: bool)
    requires Valid(s) && Valid(o)
    ensures Then(0.0, s, o).Some? && Valid(Then(0.0, s, o).value)
    ensures Law(s, o, ext) <==> OnceCrossed(s, o, ext)
  {
    var c := Chained(s, o);
    if OnceCrossed(s, o, ext) {
      forall x | Domain(s, x, ext)
        ensures Apply(c, x) == Compose(s, o, x)
      {
        ConditionSuffices(s, o, c, ext, x);
      }
    }
    if Law(s, o, ext) {
      forall j, k | 1 <= j <= Last(o) && 0 <= k <= Last(s) && Kink(o, j) && Crosses(s, k, o.points[j].x, ext)
        ensures Kept(s, k, o.points[j].x)
      {
        ConditionNeeded(s, o, c, ext, j, k);
      }
    }
  }

  /** A second table of two points has no kink: the law holds for every real input. */
  lemma {:induction false} TwoPointLaw(s: Calibration, o: Calibration)
    requires Valid(s) && Valid(o) && |o.points| == 2
    ensures Then(0.0, s, o).Some? && Valid(Then(0.0, s, o).value)
    ensures Law(s, o, true)
  {
    LawIff(s, o, true);
  }

  ghost predicate StrictlyMonotone(s: Calibration) {
    (forall i, j :: 0 <= i < j < |s.points| ==> s.points[i].y < s.points[j].y) ||
    (forall i, j :: 0 <= i < j < |s.points| ==> s.points[i].y > s.points[j].y)
  }

  /** For a strictly monotone first table the law holds between its outer breakpoints. */
  lemma {:induction false} MonotoneLaw(s: Calibration, o: Calibration)
    requires Valid(s) && Valid(o) && StrictlyMonotone(s)
    ensures Then(0.0, s, o).Some? && Valid(Then(0.0, s, o).value)
    ensures Law(s, o, false)
  {
    LawIff(s, o, false);
    forall j, k | 1 <= j <= Last(o) && 0 <= k <= Last(s) && Crosses(s, k, o.points[j].x, false)
      ensures Kept(s, k, o.points[j].x)
    {
      var q := o.points[j].x;
      StrictlyWithin(s, k, q);
      OnlyHit(s, k, q);
    }
  }

  /** A value crossed inside a segment lies strictly between the segment's outputs. */
  lemma {:induction false} StrictlyWithin(s: Calibration, k: nat, q: real)
    requires Valid(s) && k <= Last(s) && Crosses(s, k, q, false)
    ensures s.points[k].y < q < s.points[k + 1].y || s.points[k + 1].y < q < s.points[k].y
  {
    var l := Seg(s, k);
    ThroughHits(s.points[k], s.points[k + 1]);
    Monotone(l, s.points[k].x, Preimage(l, q));
    Monotone(l, Preimage(l, q), s.points[k + 1].x);
  }

  lemma {:induction false} OnlyHit(s: Calibration, k: nat, q: real)
    requires Valid(s) && k <= Last(s) && StrictlyMonotone(s)
    requires s.points[k].y < q < s.points[k + 1].y || s.points[k + 1].y < q < s.points[k].y
    ensures FirstHit(s.points, q, 0) == Some(k)
  {
    var hit := FirstHit(s.points, q, 0);
    assert Reaches(s.points[k], s.points[k + 1], q);
  }

  /** The documented law is false in general: it fails for every pair of tables where the
      last output of the first is an inner peak of the second. Past that breakpoint the
      chained table goes on straight where the composition turns. */
  lemma {:induction false} LawFailsAtPeak(s: Calibration, o: Calibration, j: nat)
    requires Valid(s) && Valid(o) && 1 <= j <= Last(o)
    requires s.points[Last(s)].y < s.points[Last(s) + 1].y == o.points[j].x
    requires o.points[j - 1].y < o.points[j].y && o.points[j + 1].y < o.points[j].y
    ensures Then(0.0, s, o).Some? && Valid(Then(0.0, s, o).value)
    ensures !Law(s, o, true)
  {
    LawIff(s, o, true);
    SlopedWhereRising(s, Last(s));
    PeakIsKink(o, j);
    ExtrapolatedCrossing(s, o, j);
  }

  lemma {:induction false} SlopedWhereRising(c: Calibration, k: nat)
    requires Valid(c) && k <= Last(c)
    ensures c.points[k].y < c.points[k + 1].y ==> Seg(c, k).slope > 0.0
    ensures c.points[k].y > c.points[k + 1].y ==> Seg(c, k).slope < 0.0
    ensures At(Seg(c, k), c.points[k + 1].x) == c.points[k + 1].y
  {
    ThroughHits(c.points[k], c.points[k + 1]);
    Monotone(Seg(c, k), c.points[k].x, c.points[k + 1].x);
  }

  lemma {:induction false} PeakIsKink(o: Calibration, j: nat)
    requires Valid(o) && 1 <= j <= Last(o)
    requires o.points[j - 1].y < o.points[j].y && o.points[j + 1].y < o.points[j].y
    ensures Kink(o, j)
  {
    SlopedWhereRising(o, j - 1);
    SlopedWhereRising(o, j);
  }

  lemma {:induction false} ExtrapolatedCrossing(s: Calibration, o: Calibration, j: nat)
    requires Valid(s) && Valid(o) && 1 <= j <= Last(o) && Kink(o, j)
    requires Seg(s, Last(s)).slope != 0.0
    requires At(Seg(s, Last(s)), s.points[Last(s) + 1].x) == o.points[j].x
    ensures !OnceCrossed(s, o, true)
  {
    PreimageUnique(Seg(s, Last(s)), s.points[Last(s) + 1].x);
    assert Crosses(s, Last(s), o.points[j].x, true);
    assert !Kept(s, Last(s), o.points[j].x);
  }

  /** For instance the identity on [0, 1] chained with a tent on [0, 2]. */
  lemma {:induction false} LawFails() returns (s: Calibration, o: Calibration)
    ensures s.points == [Point(0.0, 0.0), Point(1.0, 1.0)]
    ensures o.points == [Point(0.0, 0.0), Point(1.0, 1.0), Point(2.0, 0.0)]
    ensures Valid(s) && Valid(o) && Then(0.0, s, o).Some? && Valid(Then(0.0, s, o).value)
    ensures !Law(s, o, true)
  {
    s := Calibration([Point(0.0, 0.0), Point(1.0, 1.0)]);
    o := Calibration([Point(0.0, 0.0), Point(1.0, 1.0), Point(2.0, 0.0)]);
    LawFailsAtPeak(s, o, 1);
  }

  // ----- with a tolerance -----

  /** The tolerance tests see no difference that exact tests would not: chained breakpoints
      are equal or `eps` apart, and so are the outputs at the ends of every segment. */
  ghost predicate Resolved(eps: real, s: Calibration, o: Calibration)
    requires eps >= 0.0 && Valid(s)
  {
    (forall x, y :: x in RawChain(0.0, s, o) && y in RawChain(0.0, s, o) && Close(eps, x, y) ==> x == y) &&
    (forall k :: 0 <= k <= Last(s) && Close(eps, s.points[k + 1].y, s.points[k].y) ==>
      s.points[k + 1].y == s.points[k].y)
  }

  /** On resolved tables the source's tolerance changes nothing, so every law about exact
      comparisons carries over. */
  lemma {:induction false} ToleranceIsExact(eps: real, s: Calibration, o: Calibration)
    requires eps >= 0.0 && Valid(s) && Valid(o) && Resolved(eps, s, o)
    ensures Then(eps, s, o) == Then(0.0, s, o)
  {
    SamePullBack(eps, s, o, o.points);
    var raw := RawChain(0.0, s, o);
    assert raw != [];
    SameDedup(eps, raw);
    DedupIncreasing(0.0, raw);
    var xs := ChainXs(0.0, s, o);
    ThenSucceeds(0.0, s, o);
    var pts := Pairs(s, o, xs);
    forall i | 0 <= i < |pts| - 1
      ensures !Close(eps, pts[i].x, pts[i + 1].x)
    {
      assert xs[i] in raw && xs[i + 1] in raw;
      assert xs[i] < xs[i + 1];
    }
    NewOnIncreasing(eps, pts);
  }

  lemma {:induction false} SamePullBack(eps: real, s: Calibration, o: Calibration, ops: seq<Point>)
    requires eps >= 0.0 && Valid(s) && Resolved(eps, s, o)
    ensures PullBack(eps, s, ops) == PullBack(0.0, s, ops)
  {
    if ops != [] {
      SamePullBack(eps, s, o, ops[..|ops| - 1]);
      SameInvert(eps, s, o, ops[|ops| - 1].x);
    }
  }

  lemma {:induction false} SameInvert(eps: real, s: Calibration, o: Calibration, y: real)
    requires eps >= 0.0 && Valid(s) && Resolved(eps, s, o)
    ensures Invert(eps, s, y) == Invert(0.0, s, y)
  {
  }

  lemma {:induction false} SameDedup(eps: real, xs: seq<real>)
    requires eps >= 0.0 && xs != [] && Sorting.SortedBy(BY_VALUE, xs)
    requires forall x, y :: x in xs && y in xs && Close(eps, x, y) ==> x == y
    ensures Dedup(eps, xs) == Dedup(0.0, xs)
  {
    var n := |xs| - 1;
    if n > 0 {
      SameDedup(eps, xs[..n]);
      DedupIncreasing(0.0, xs[..n]);
      var kept := Dedup(0.0, xs[..n]);
      assert kept[|kept| - 1] in xs[..n];
    }
  }
}
