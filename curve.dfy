/**
  Tessellation of a Bezier curve into a line strip (src/curve.rs).

  The evaluator builds a half-size table of binomial coefficients for the
  degree n = |points| - 1, then evaluates the Bernstein form
    p(t) = sum over j of C(n, j) * t^j * (1 - t)^(n - j) * (x_j, y_j)
  at `samples` evenly spaced parameters t = i / (samples - 1).
  Arithmetic is over the reals; `Pow(x, 0)` is 1 for every x, as `powf` is.
*/
module Curve {
  import opened Common
  import opened Binomial

  /** A control point `[f32; 3]`; the evaluator reads only its first two components. */
  datatype ControlPoint = ControlPoint(x: real, y: real, w: real)

  /** The curve description the tessellator matches on: it has a single variant. */
  datatype Parameter = Bezier(points: seq<ControlPoint>, samples: nat)

  datatype CurveError = EmptyControlPoints

  /** The position a control point contributes, `Vector2::new(point[0], point[1])`. */
  function Position(p: ControlPoint): Point2
  {
    Point2(p.x, p.y)
  }

  // ---------------------------------------------------------------------------
  // The coefficient table
  // ---------------------------------------------------------------------------

  /** The number of entries of the table for `len` control points. */
  function TableSize(len: nat): nat
    requires len >= 1
  {
    (len - 1) / 2 + 1
  }

  /**
    Builds the table `cs` by the recurrence cs[i] = cs[i - 1] * (len - i) / i,
    starting from cs[0] = 1; entry k is then C(len - 1, k).
  */
  method CoefficientTable(len: nat) returns (cs: seq<real>)
    requires len >= 1
    ensures |cs| == TableSize(len)
    ensures cs[0] == 1.0
    ensures forall k :: 0 <= k < |cs| ==> cs[k] == Choose(len - 1, k) as real
  {
    var capacity := (len - 1) / 2 + 1;
    cs := [1.0];
    for i := 1 to capacity
      invariant |cs| == i
      invariant forall k :: 0 <= k < i ==> cs[k] == Choose(len - 1, k) as real
    {
      ChooseRatioReal(len - 1, i);
      cs := cs + [cs[i - 1] * (len - i) as real / i as real];
    }
  }

  /**
    The table slot read for control point j, `min(j, len - 1 - j)`: it lies
    inside the half-size table and, by symmetry, holds C(len - 1, j).
  */
  function SymmetricIndex(len: nat, j: nat): (k: nat)
    requires j < len
    ensures k < TableSize(len)
    ensures k == j || k == len - 1 - j
    ensures Choose(len - 1, k) == Choose(len - 1, j)
  {
    ChooseSymmetric(len - 1, j);
    Min(j, len - 1 - j)
  }

  // ---------------------------------------------------------------------------
  // Evaluation, as the program computes it
  // ---------------------------------------------------------------------------

  /** `cs` is the half-size table of binomial coefficients of degree len - 1. */
  predicate IsBinomialTable(cs: seq<real>, len: nat)
  {
    len >= 1 && |cs| == TableSize(len) && forall k :: 0 <= k < |cs| ==> cs[k] == Choose(len - 1, k) as real
  }

  /**
    Term j of the sum at parameter t, read through the table. With a table of
    binomial coefficients it is control point j weighted by Bernstein
    polynomial j of degree |points| - 1.
  */
  function Term(points: seq<ControlPoint>, cs: seq<real>, t: real, j: nat): (r: Point2)
    requires j < |points| && |cs| == TableSize(|points|)
    ensures IsBinomialTable(cs, |points|) ==> r == Scale(Bernstein(|points| - 1, j, t), Position(points[j]))
  {
    var n := |points| - 1;
    var r := Scale(Weight(cs[SymmetricIndex(|points|, j)], t, j, n - j), Position(points[j]));
    if IsBinomialTable(cs, |points|) then
      TableEntry(points, cs, j);
      BernsteinIsWeight(n, j, t);
      r
    else r
  }

  /** The weight `c * t^j * (1 - t)^rest` of one control point. */
  function Weight(c: real, t: real, j: nat, rest: nat): real
  {
    c * Pow(t, j) * Pow(1.0 - t, rest)
  }

  /**
    The sum of the first m terms, accumulated left to right from the origin;
    with a table of binomial coefficients, the same prefix of the Bernstein sum.
  */
  function PartialSum(points: seq<ControlPoint>, cs: seq<real>, t: real, m: nat): (r: Point2)
    requires m <= |points| && |points| >= 1 && |cs| == TableSize(|points|)
    ensures IsBinomialTable(cs, |points|) ==> r == BezierSum(points, t, m)
  {
    if m == 0 then Origin else Add(PartialSum(points, cs, t, m - 1), Term(points, cs, t, m - 1))
  }

  /** The point the program computes at t; with a table of binomial coefficients, the Bezier curve. */
  function Evaluate(points: seq<ControlPoint>, cs: seq<real>, t: real): (r: Point2)
    requires |points| >= 1 && |cs| == TableSize(|points|)
    ensures IsBinomialTable(cs, |points|) ==> r == BezierAt(points, t)
  {
    PartialSum(points, cs, t, |points|)
  }

  /** The parameter of sample i, `i / (samples - 1)`, for two or more samples. */
  function SampleParameter(i: nat, samples: nat): (t: real)
    requires i < samples && samples >= 2
    ensures 0.0 <= t <= 1.0
    ensures t == 0.0 <==> i == 0
    ensures t == 1.0 <==> i == samples - 1
  {
    i as real / (samples - 1) as real
  }

  /**
    A point of the line strip. With a single sample the parameter is 0 / 0, a
    NaN; `powf(NaN, 0)` is 1 and every other power of NaN is NaN.
  */
  datatype Sample = Finite(position: Point2) | NotANumber

  /**
    Sample i: the sum at i / (samples - 1), or at a NaN parameter when samples
    is 1, which is NaN unless the curve has a single control point.
  */
  function SampleAt(points: seq<ControlPoint>, cs: seq<real>, samples: nat, i: nat): (r: Sample)
    requires |points| >= 1 && |cs| == TableSize(|points|) && i < samples
    ensures r.NotANumber? <==> samples == 1 && |points| >= 2
    ensures IsBinomialTable(cs, |points|) && samples >= 2 ==>
              r == Finite(BezierAt(points, SampleParameter(i, samples)))
    ensures IsBinomialTable(cs, |points|) && |points| == 1 ==> r == Finite(Position(points[0]))
  {
    if samples == 1 then
      // All exponents are 0 for one control point, so the term is cs[0] * 1 * 1 * point.
      if |points| == 1 then
        assert IsBinomialTable(cs, |points|) ==> Scale(cs[0], Position(points[0])) == Position(points[0]);
        Finite(Scale(cs[0], Position(points[0])))
      else NotANumber
    else
      var t := SampleParameter(i, samples);
      if IsBinomialTable(cs, |points|) && |points| == 1 then
        BezierOfOnePoint(points, t);
        Finite(Evaluate(points, cs, t))
      else Finite(Evaluate(points, cs, t))
  }

  /** One point per sample index, in sample order. */
  function Samples(points: seq<ControlPoint>, cs: seq<real>, samples: nat): (r: seq<Sample>)
    requires |points| >= 1 && |cs| == TableSize(|points|)
    ensures |r| == samples
    ensures IsBinomialTable(cs, |points|) && samples >= 2 ==> forall i :: 0 <= i < samples ==>
              r[i] == Finite(BezierAt(points, SampleParameter(i, samples)))
    ensures IsBinomialTable(cs, |points|) && |points| == 1 ==> forall i :: 0 <= i < samples ==>
              r[i] == Finite(Position(points[0]))
    ensures samples == 1 && |points| >= 2 ==> r == [NotANumber]
  {
    seq(samples, i requires 0 <= i < samples => SampleAt(points, cs, samples, i))
  }

  /**
    `to_line_strip`: rejects an empty control-point list, otherwise returns
    `samples` points, point i being the Bezier curve of the control points at
    parameter i / (samples - 1). A single sample of a curve with two or more
    control points has NaN coordinates.
  */
  method ToLineStrip(parameter: Parameter) returns (r: Result<seq<Sample>, CurveError>)
    ensures r.Err? <==> |parameter.points| == 0
    ensures r.Ok? ==> |r.value| == parameter.samples
    ensures r.Ok? && parameter.samples >= 2 ==> forall i :: 0 <= i < |r.value| ==>
              r.value[i] == Finite(BezierAt(parameter.points, SampleParameter(i, parameter.samples)))
    ensures r.Ok? && parameter.samples >= 2 ==>
              r.value[0] == Finite(Position(parameter.points[0])) &&
              r.value[parameter.samples - 1] == Finite(Position(parameter.points[|parameter.points| - 1]))
    ensures r.Ok? && |parameter.points| == 1 ==>
              forall i :: 0 <= i < |r.value| ==> r.value[i] == Finite(Position(parameter.points[0]))
    ensures r.Ok? && parameter.samples == 1 && |parameter.points| >= 2 ==> r.value == [NotANumber]
  {
    match parameter
    case Bezier(points, samples) =>
      if |points| == 0 {
        return Err(EmptyControlPoints);
      }
      var cs := CoefficientTable(|points|);
      assert IsBinomialTable(cs, |points|);
      var line := Samples(points, cs, samples);
      if samples >= 2 {
        BezierAtStart(points);
        BezierAtEnd(points);
      }
      r := Ok(line);
  }

  // ---------------------------------------------------------------------------
  // The Bezier curve, from the definition
  // ---------------------------------------------------------------------------

  /**
    The Bernstein basis polynomial of index j and degree n at t: term j of the
    expansion of (t + (1 - t))^n.
  */
  function Bernstein(n: nat, j: nat, t: real): real
    requires j <= n
  {
    BinomialTerm(n, j, t, 1.0 - t)
  }

  function BezierSum(points: seq<ControlPoint>, t: real, m: nat): Point2
    requires m <= |points|
  {
    if m == 0 then Origin
    else Add(BezierSum(points, t, m - 1), Scale(Bernstein(|points| - 1, m - 1, t), Position(points[m - 1])))
  }

  /** The point at t of the Bezier curve with these control points. */
  function BezierAt(points: seq<ControlPoint>, t: real): Point2
    requires |points| >= 1
  {
    BezierSum(points, t, |points|)
  }

  lemma BernsteinIsWeight(n: nat, j: nat, t: real)
    requires j <= n
    ensures Bernstein(n, j, t) == Weight(Choose(n, j) as real, t, j, n - j)
  {
  }

  lemma TableEntry(points: seq<ControlPoint>, cs: seq<real>, j: nat)
    requires j < |points| && |cs| == TableSize(|points|)
    requires forall k :: 0 <= k < |cs| ==> cs[k] == Choose(|points| - 1, k) as real
    ensures cs[SymmetricIndex(|points|, j)] == Choose(|points| - 1, j) as real
  {
    var k := SymmetricIndex(|points|, j);
    assert cs[k] == Choose(|points| - 1, k) as real;
  }

  /** The curve starts at the first control point. */
  lemma BezierAtStart(points: seq<ControlPoint>)
    requires |points| >= 1
    ensures BezierAt(points, 0.0) == Position(points[0])
  {
    BezierSumAtStart(points, |points|);
  }

  lemma {:induction false} BezierSumAtStart(points: seq<ControlPoint>, m: nat)
    requires 1 <= m <= |points|
    ensures BezierSum(points, 0.0, m) == Position(points[0])
  {
    if m == 1 {
      PowOne(|points| - 1);
      assert Bernstein(|points| - 1, 0, 0.0) == 1.0;
    } else {
      BezierSumAtStart(points, m - 1);
      assert Pow(0.0, m - 1) == 0.0;
      assert Bernstein(|points| - 1, m - 1, 0.0) == 0.0;
    }
  }

  /** The curve ends at the last control point. */
  lemma BezierAtEnd(points: seq<ControlPoint>)
    requires |points| >= 1
    ensures BezierAt(points, 1.0) == Position(points[|points| - 1])
  {
    var n := |points| - 1;
    BezierSumAtEndVanishes(points, n);
    ChooseAll(n);
    PowOne(n);
    assert Bernstein(n, n, 1.0) == 1.0;
  }

  lemma {:induction false} BezierSumAtEndVanishes(points: seq<ControlPoint>, m: nat)
    requires m < |points|
    ensures BezierSum(points, 1.0, m) == Origin
  {
    if m > 0 {
      BezierSumAtEndVanishes(points, m - 1);
      var n := |points| - 1;
      assert Pow(1.0 - 1.0, n - (m - 1)) == 0.0;
      assert Bernstein(n, m - 1, 1.0) == 0.0;
    }
  }

  /** A single control point gives a constant curve. */
  lemma BezierOfOnePoint(points: seq<ControlPoint>, t: real)
    requires |points| == 1
    ensures BezierAt(points, t) == Position(points[0])
  {
    assert Bernstein(0, 0, t) == 1.0;
    assert BezierSum(points, t, 1) == Add(Origin, Scale(1.0, Position(points[0])));
  }

  /** Only the first two components of each control point matter. */
  lemma {:induction false} BezierIgnoresWeights(points: seq<ControlPoint>, others: seq<ControlPoint>, t: real, m: nat)
    requires |points| == |others| && m <= |points|
    requires forall j :: 0 <= j < |points| ==> points[j].x == others[j].x && points[j].y == others[j].y
    ensures BezierSum(points, t, m) == BezierSum(others, t, m)
  {
    if m > 0 {
      BezierIgnoresWeights(points, others, t, m - 1);
      assert Position(points[m - 1]) == Position(others[m - 1]);
    }
  }

  /** On [0, 1] every Bernstein basis polynomial is non-negative. */
  lemma BernsteinNonNegative(n: nat, j: nat, t: real)
    requires j <= n && 0.0 <= t <= 1.0
    ensures Bernstein(n, j, t) >= 0.0
  {
    PowNonNegative(t, j);
    PowNonNegative(1.0 - t, n - j);
    var c, p, q := Choose(n, j) as real, Pow(t, j), Pow(1.0 - t, n - j);
    NonNegativeProduct(c, p);
    NonNegativeProduct(c * p, q);
  }

  /** The corner-wise bounds lo <= p <= hi. */
  predicate Within(p: Point2, lo: Point2, hi: Point2)
  {
    lo.x <= p.x <= hi.x && lo.y <= p.y <= hi.y
  }

  /**
    A prefix of the Bezier sum lies between lo and hi scaled by the total
    weight of that prefix, when every control point lies between lo and hi.
  */
  lemma {:induction false} BezierSumBounded(points: seq<ControlPoint>, t: real, m: nat, lo: Point2, hi: Point2)
    requires 1 <= |points| && m <= |points| && 0.0 <= t <= 1.0
    requires forall j :: 0 <= j < |points| ==> Within(Position(points[j]), lo, hi)
    ensures Within(BezierSum(points, t, m), Scale(Prefix(Terms(|points| - 1, t, 1.0 - t), m), lo),
                   Scale(Prefix(Terms(|points| - 1, t, 1.0 - t), m), hi))
  {
    if m > 0 {
      var n := |points| - 1;
      BezierSumBounded(points, t, m - 1, lo, hi);
      BernsteinNonNegative(n, m - 1, t);
      var w, b := Prefix(Terms(n, t, 1.0 - t), m - 1), Bernstein(n, m - 1, t);
      assert Terms(n, t, 1.0 - t)[m - 1] == b;
      var p, q := BezierSum(points, t, m - 1), Position(points[m - 1]);
      assert BezierSum(points, t, m) == Add(p, Scale(b, q));
      assert Prefix(Terms(n, t, 1.0 - t), m) == w + b;
      BoundStep(lo, hi, w, b, w + b, p, q);
    }
  }

  /** Adding a point of non-negative weight b keeps the running sum within its scaled bounds. */
  lemma BoundStep(lo: Point2, hi: Point2, w: real, b: real, c: real, p: Point2, q: Point2)
    requires c == w + b
    requires b >= 0.0 && Within(p, Scale(w, lo), Scale(w, hi)) && Within(q, lo, hi)
    ensures Within(Add(p, Scale(b, q)), Scale(c, lo), Scale(c, hi))
  {
    AddBounded(lo.x, hi.x, w, b, c, p.x, q.x);
    AddBounded(lo.y, hi.y, w, b, c, p.y, q.y);
  }

  lemma AddBounded(lo: real, hi: real, w: real, b: real, c: real, s: real, x: real)
    requires c == w + b
    requires b >= 0.0 && w * lo <= s <= w * hi && lo <= x <= hi
    ensures c * lo <= s + b * x <= c * hi
  {
    MulLeft(b, lo, x);
    MulLeft(b, x, hi);
    DistributeReal(w, b, lo);
    DistributeReal(w, b, hi);
  }

  lemma MulLeft(b: real, x: real, y: real)
    requires b >= 0.0 && x <= y
    ensures b * x <= b * y
  {
  }

  lemma DistributeReal(w: real, b: real, c: real)
    ensures (w + b) * c == w * c + b * c
  {
  }

  /**
    For t in [0, 1] the curve stays inside every axis-aligned box that holds
    all the control points: the basis polynomials are non-negative and sum to one.
  */
  lemma BezierWithinBounds(points: seq<ControlPoint>, t: real, lo: Point2, hi: Point2)
    requires 1 <= |points| && 0.0 <= t <= 1.0
    requires forall j :: 0 <= j < |points| ==> Within(Position(points[j]), lo, hi)
    ensures Within(BezierAt(points, t), lo, hi)
  {
    var w := Prefix(Terms(|points| - 1, t, 1.0 - t), |points|);
    BezierSumBounded(points, t, |points|, lo, hi);
    PartitionOfUnity(|points| - 1, t);
    ScaleOne(w, lo);
    ScaleOne(w, hi);
  }

  lemma ScaleOne(c: real, p: Point2)
    requires c == 1.0
    ensures Scale(c, p) == p
  {
  }

  /** Control points that all sit at one position give a curve that stays there. */
  lemma BezierOfEqualPoints(points: seq<ControlPoint>, t: real, p: Point2)
    requires 1 <= |points| && 0.0 <= t <= 1.0
    requires forall j :: 0 <= j < |points| ==> Position(points[j]) == p
    ensures BezierAt(points, t) == p
  {
    BezierWithinBounds(points, t, p, p);
  }

  /** Samples are in increasing parameter order. */
  lemma SampleParameterIncreasing(i: nat, i': nat, samples: nat)
    requires i < i' < samples
    ensures SampleParameter(i, samples) < SampleParameter(i', samples)
  {
    var d := (samples - 1) as real;
    assert i as real < i' as real;
    assert i as real / d < i' as real / d;
  }
}
