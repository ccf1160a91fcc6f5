/** Straight lines over the reals. Every fact about slopes that the calibration
    proofs need is stated here once, so that they reason about lines as values. */
module Lines {

  datatype Point = Point(x: real, y: real)

  datatype Line = Line(slope: real, offset: real)

  function At(l: Line, x: real): real {
    l.slope * x + l.offset
  }

  /** The line through two points with different `x`. */
  function Through(a: Point, b: Point): Line
    requires a.x != b.x
  {
    var slope := (b.y - a.y) / (b.x - a.x);
    Line(slope, a.y - slope * a.x)
  }

  /** `outer` applied to the result of `inner`. */
  function After(outer: Line, inner: Line): Line {
    Line(outer.slope * inner.slope, outer.slope * inner.offset + outer.offset)
  }

  lemma {:induction false} AfterAt(outer: Line, inner: Line, x: real)
    ensures At(After(outer, inner), x) == At(outer, At(inner, x))
  {
    var (m, n, b) := (outer.slope, inner.slope, inner.offset);
    assert m * (n * x + b) == (m * n) * x + m * b;
  }

  lemma {:induction false} ThroughHits(a: Point, b: Point)
    requires a.x != b.x
    ensures At(Through(a, b), a.x) == a.y
    ensures At(Through(a, b), b.x) == b.y
  {
    var m := (b.y - a.y) / (b.x - a.x);
    assert m * (b.x - a.x) == b.y - a.y;
    assert m * (b.x - a.x) == m * b.x - m * a.x;
  }

  /** Two different places fix a line. */
  lemma {:induction false} Determined(l: Line, k: Line, x: real, z: real)
    requires x != z
    requires At(l, x) == At(k, x) && At(l, z) == At(k, z)
    ensures l == k
  {
    var d := l.slope - k.slope;
    assert d * x == l.slope * x - k.slope * x;
    assert d * z == l.slope * z - k.slope * z;
    assert d * (x - z) == d * x - d * z == 0.0;
    if d != 0.0 {
      NonZeroProduct(d, x - z);
    }
  }

  lemma {:induction false} NonZeroProduct(a: real, b: real)
    requires a != 0.0 && b != 0.0
    ensures a * b != 0.0
  {
  }

  /** Where a line that is not flat takes the value `q`. */
  function Preimage(l: Line, q: real): (p: real)
    requires l.slope != 0.0
    ensures At(l, p) == q
  {
    (q - l.offset) / l.slope
  }

  lemma {:induction false} PreimageUnique(l: Line, p: real)
    requires l.slope != 0.0
    ensures Preimage(l, At(l, p)) == p
  {
    var r := Preimage(l, At(l, p));
    assert l.slope * r == l.slope * p;
    assert l.slope * (r - p) == 0.0;
    if r != p {
      NonZeroProduct(l.slope, r - p);
    }
  }

  /** A line keeps or reverses the order of its arguments, according to its slope. */
  lemma {:induction false} Monotone(l: Line, x: real, z: real)
    requires x < z
    ensures l.slope > 0.0 ==> At(l, x) < At(l, z)
    ensures l.slope < 0.0 ==> At(l, x) > At(l, z)
    ensures l.slope == 0.0 ==> At(l, x) == At(l, z)
  {
    assert At(l, z) - At(l, x) == l.slope * (z - x);
    Signs(l.slope, z - x);
  }

  lemma {:induction false} Signs(a: real, b: real)
    requires b > 0.0
    ensures a > 0.0 ==> a * b > 0.0
    ensures a < 0.0 ==> a * b < 0.0
  {
  }

  /** A value strictly between the images of two arguments is taken strictly between them. */
  lemma {:induction false} Between(l: Line, x: real, z: real, q: real) returns (p: real)
    requires x < z
    requires At(l, x) < q < At(l, z) || At(l, z) < q < At(l, x)
    ensures x < p < z && At(l, p) == q && l.slope != 0.0
  {
    Monotone(l, x, z);
    p := Preimage(l, q);
    if p <= x {
      if p < x { Monotone(l, p, x); }
    } else if z <= p {
      if z < p { Monotone(l, z, p); }
    }
  }
}
