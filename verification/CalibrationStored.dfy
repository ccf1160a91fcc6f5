/** `Calibration::then` on tables of any content, as a stored configuration can hold them. */
module StoredChaining {
  import opened Wrappers
  import opened Lines
  import opened Calibrations
  import opened Chaining
  import Sorting

  /** What evaluating one table on the other's value comes to. */
  datatype Sample = Sampled(y: real) | OutOfBounds | NoSample

  /** What `then` comes to: a table, a panic, or a table with values that are not numbers. */
  datatype Outcome = Built(c: Calibration) | Panics | NotNumbers

  function SampleOf(r: Reading): Sample {
    match r
    case Value(y) => Sampled(y)
    case BadIndex(_) => OutOfBounds
    case NoNumber => NoSample
  }

  /** Evaluation on what is no number ends at the last two points, if there are two. */
  function Composed(c: Calibration, other: Calibration, x: real): Sample {
    match ApplyTable(c.points, x)
    case Value(y) => SampleOf(ApplyTable(other.points, y))
    case BadIndex(_) => OutOfBounds
    case NoNumber => if |other.points| < 2 then OutOfBounds else NoSample
  }

  method EvaluateOne(c: Calibration, other: Calibration, x: real) returns (r: Sample)
    ensures r == Composed(c, other, x)
  {
    var mid := ApplyRaw(c, x);
    match mid
    case Value(y) =>
      var out := ApplyRaw(other, y);
      r := SampleOf(out);
    case BadIndex(_) => r := OutOfBounds;
    case NoNumber => r := if |other.points| < 2 then OutOfBounds else NoSample;
  }

  predicate AnyOutOfBounds(c: Calibration, other: Calibration, xs: seq<real>) {
    exists i :: 0 <= i < |xs| && Composed(c, other, xs[i]).OutOfBounds?
  }

  predicate AllSampled(c: Calibration, other: Calibration, xs: seq<real>) {
    forall i :: 0 <= i < |xs| ==> Composed(c, other, xs[i]).Sampled?
  }

  /** The zero stands for a value that is no number. */
  function PairAt(c: Calibration, other: Calibration, x: real): Point {
    var sample := Composed(c, other, x);
    Point(x, if sample.Sampled? then sample.y else 0.0)
  }

  function StoredPairs(c: Calibration, other: Calibration, xs: seq<real>): (r: seq<Point>)
    ensures |r| == |xs| && forall i :: 0 <= i < |xs| ==> r[i] == PairAt(c, other, xs[i])
  {
    if xs == [] then [] else
      StoredPairs(c, other, xs[..|xs| - 1]) + [PairAt(c, other, xs[|xs| - 1])]
  }

  /** `then` on any two tables. */
  function ThenStored(eps: real, c: Calibration, other: Calibration): Outcome
    requires eps >= 0.0
  {
    var xs := ChainXs(eps, c, other);
    OutcomeOf(AnyOutOfBounds(c, other, xs), New(eps, StoredPairs(c, other, xs)), AllSampled(c, other, xs))
  }

  function OutcomeOf(outOfBounds: bool, built: Option<Calibration>, numbers: bool): Outcome {
    if outOfBounds || built.None? then Panics else if numbers then Built(built.value) else NotNumbers
  }

  method Chain(eps: real, c: Calibration, other: Calibration) returns (r: Outcome)
    requires eps >= 0.0
    ensures r == ThenStored(eps, c, other)
  {
    var xs, range := RawsAndRange(c.points);
    xs := PushPulledBack(eps, c, other.points, xs, range);
    xs := Sorting.Sort(BY_VALUE, xs);
    xs := DedupInPlace(eps, xs);
    var pairs, numbers := EvaluateAll(c, other, xs);
    if pairs.None? {
      return Panics;
    }
    var built := NewCalibration(eps, pairs.value);
    r := OutcomeOf(false, built, numbers);
  }

  lemma {:induction false} PairsSnoc(c: Calibration, other: Calibration, xs: seq<real>, i: nat)
    requires i < |xs|
    ensures StoredPairs(c, other, xs[..i + 1]) == StoredPairs(c, other, xs[..i]) + [PairAt(c, other, xs[i])]
  {
    assert xs[..i + 1][..i] == xs[..i];
  }

  /** The pairs, unless an evaluation panics, and whether all values are numbers. */
  method EvaluateAll(c: Calibration, other: Calibration, xs: seq<real>)
    returns (pairs: Option<seq<Point>>, numbers: bool)
    ensures pairs.None? <==> AnyOutOfBounds(c, other, xs)
    ensures pairs.Some? ==> pairs.value == StoredPairs(c, other, xs) && numbers == AllSampled(c, other, xs)
  {
    var done: seq<Point> := [];
    numbers := true;
    var i := 0;
    while i < |xs|
      invariant 0 <= i <= |xs|
      invariant forall j :: 0 <= j < i ==> !Composed(c, other, xs[j]).OutOfBounds?
      invariant numbers == forall j :: 0 <= j < i ==> Composed(c, other, xs[j]).Sampled?
      invariant done == StoredPairs(c, other, xs[..i])
    {
      PairsSnoc(c, other, xs, i);
      var sample := EvaluateOne(c, other, xs[i]);
      if sample.OutOfBounds? {
        return None, numbers;
      }
      numbers := numbers && sample.Sampled?;
      done := done + [Point(xs[i], if sample.Sampled? then sample.y else 0.0)];
      i := i + 1;
    }
    assert xs[..i] == xs;
    pairs := Some(done);
  }

  // ----- when it panics -----

  /** An evaluation leaves a table exactly if one of the two is too short. */
  lemma {:induction false} ComposedPanicsIff(c: Calibration, other: Calibration, x: real)
    ensures Composed(c, other, x).OutOfBounds? <==> |c.points| < 2 || |other.points| < 2
  {
    ShortTablesPanic(c.points, x);
    if ApplyTable(c.points, x).Value? {
      ShortTablesPanic(other.points, ApplyTable(c.points, x).y);
    }
  }

  lemma {:induction false} NewTakesChain(eps: real, c: Calibration, other: Calibration)
    requires eps >= 0.0 && c.points != []
    ensures var pairs := StoredPairs(c, other, ChainXs(eps, c, other));
      && pairs != []
      && (|pairs| < 2 ==> New(eps, pairs).None?)
      && (|pairs| >= 2 ==> New(eps, pairs) == Some(Calibration(pairs)) && Valid(Calibration(pairs)))
  {
    var j := InputIsChained(eps, c, other, Inputs(c.points)[0]);
    NewTakes(eps, RawChain(eps, c, other), StoredPairs(c, other, ChainXs(eps, c, other)));
  }

  lemma {:induction false} BoundsLeftIff(c: Calibration, other: Calibration, xs: seq<real>)
    requires xs != []
    ensures AnyOutOfBounds(c, other, xs) <==> |c.points| < 2 || |other.points| < 2
  {
    ComposedPanicsIff(c, other, xs[0]);
    forall i | 0 <= i < |xs|
      ensures Composed(c, other, xs[i]).OutOfBounds? <==> |c.points| < 2 || |other.points| < 2
    {
      ComposedPanicsIff(c, other, xs[i]);
    }
  }

  /** For all tables, unsorted, repeated or short: `then` panics exactly if one of them has fewer than two
      points or the first one's smallest and largest input cannot be told apart. */
  lemma {:induction false} ThenPanicsIff(eps: real, c: Calibration, other: Calibration)
    requires eps >= 0.0
    ensures ThenStored(eps, c, other).Panics? <==>
      |c.points| < 2 || |other.points| < 2 || Indistinct(eps, c.points)
  {
    if c.points == [] {
      NothingChained(eps, c, other);
    } else {
      NewTakesChain(eps, c, other);
      BoundsLeftIff(c, other, ChainXs(eps, c, other));
      ChainKeepsTwoIff(eps, c, other);
    }
  }

  lemma {:induction false} NothingChained(eps: real, c: Calibration, other: Calibration)
    requires eps >= 0.0 && c.points == []
    ensures ThenStored(eps, c, other).Panics?
  {
    var raw := RawChain(eps, c, other);
    if raw != [] {
      ChainInInputs(eps, c, other, raw[0]);
    }
    assert ChainXs(eps, c, other) == [];
    assert StoredPairs(c, other, []) == [];
  }

  // ----- tables without repeated inputs -----

  predicate NoRepeats(pts: seq<Point>) {
    forall i :: 0 <= i < |pts| - 1 ==> pts[i].x != pts[i + 1].x
  }

  lemma {:induction false} ScanSamples(pts: seq<Point>, raw: real, i: nat)
    requires NoRepeats(pts) && |pts| >= 2
    ensures ScanTable(pts, raw, i).Value?
    decreases |pts| - i
  {
    if i + 1 < |pts| {
      ScanSamples(pts, raw, i + 1);
    } else {
      assert pts[|pts| - 2].x != pts[|pts| - 2 + 1].x;
    }
  }

  lemma {:induction false} TableSamples(pts: seq<Point>, raw: real)
    requires NoRepeats(pts) && |pts| >= 2
    ensures ApplyTable(pts, raw).Value?
  {
    ScanSamples(pts, raw, 0);
    assert pts[0].x != pts[0 + 1].x;
  }

  /** Without neighbours of the same input, in whatever order, there is a table whenever `then` does not panic:
      the chained breakpoints with the composed values. */
  lemma {:induction false} ThenBuilds(eps: real, c: Calibration, other: Calibration)
    requires eps >= 0.0 && NoRepeats(c.points) && NoRepeats(other.points)
    ensures var xs := ChainXs(eps, c, other);
      match ThenStored(eps, c, other)
      case Panics => true
      case NotNumbers => false
      case Built(t) =>
        && |t.points| == |xs| >= 2 && Valid(t)
        && (forall i :: 0 <= i < |xs| ==> t.points[i].x == xs[i] && Sampled(t.points[i].y) == Composed(c, other, xs[i]))
  {
    ThenPanicsIff(eps, c, other);
    if !ThenStored(eps, c, other).Panics? {
      var xs := ChainXs(eps, c, other);
      forall x ensures Composed(c, other, x).Sampled? {
        TableSamples(c.points, x);
        TableSamples(other.points, ApplyTable(c.points, x).y);
      }
      NewTakesChain(eps, c, other);
    }
  }

  // ----- tables that `new` built -----

  /** For increasing tables this is `Then`. */
  lemma {:induction false} StoredIsThen(eps: real, c: Calibration, other: Calibration)
    requires eps >= 0.0 && Valid(c) && Valid(other)
    ensures ThenStored(eps, c, other) ==
      match Then(eps, c, other) case None => Panics case Some(t) => Built(t)
  {
    forall x ensures Composed(c, other, x) == Sampled(Compose(c, other, x)) {
      ValidReads(c, x);
      ValidReads(other, Apply(c, x));
    }
    var xs := ChainXs(eps, c, other);
    assert StoredPairs(c, other, xs) == Pairs(c, other, xs);
  }
}
