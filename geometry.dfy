/**
 * Two-dimensional points with real coordinates (phase2/point.py).
 *
 * `Point` is a value: addition, subtraction and scaling return new points and
 * never change their operands. The in-place operators `+=` and `-=` mutate the
 * receiver and are modelled by the heap class `PointCell`.
 *
 * Dafny has no square root, so the Euclidean distance is not a function of this
 * module: every member that measures a distance receives a `Metric` and
 * requires `Euclidean(dist)`, which says that `dist(p, q)` is the non-negative
 * number whose square is dx*dx + dy*dy. That pins `dist` down to `sqrt`.
 */
module Geometry {

  datatype Point = Point(x: real, y: real) {

    /** `self + other` */
    function Add(other: Point): Point {
      Point(x + other.x, y + other.y)
    }

    /** `self - other` */
    function Sub(other: Point): Point {
      Point(x - other.x, y - other.y)
    }

    /** `self * scalar` */
    function Scale(scalar: real): Point {
      Point(x * scalar, y * scalar)
    }
  }

  /** `scalar * p`, which delegates to `p * scalar`. */
  function ScaleLeft(scalar: real, p: Point): (r: Point)
    ensures r == p.Scale(scalar)
  {
    p.Scale(scalar)
  }

  /** `a ** 2`. Squares are kept behind this function: the solver reasons about them more reliably. */
  function Sq(a: real): real {
    a * a
  }

  /** The squared Euclidean distance, the quantity under the square root. */
  function SqDist(p: Point, q: Point): real {
    Sq(p.x - q.x) + Sq(p.y - q.y)
  }

  /** The type of `distance_to`. */
  type Metric = (Point, Point) -> real

  /** `dist(p, q)` is the non-negative square root of the squared distance from p to q. */
  ghost predicate MeasuresPair(dist: Metric, p: Point, q: Point) {
    0.0 <= dist(p, q) && Sq(dist(p, q)) == SqDist(p, q)
  }

  /**
   * `dist` is `distance_to` on every pair of points. Proofs use one pair at a
   * time, by asserting `MeasuresPair` for it.
   */
  ghost predicate Euclidean(dist: Metric) {
    forall p: Point, q: Point :: MeasuresPair(dist, p, q)
  }

  // ---------------------------------------------------------------------------
  // Vector arithmetic

  /** `a + b == b + a` */
  lemma AddCommutes(a: Point, b: Point)
    ensures a.Add(b) == b.Add(a)
  {
  }

  /** `(a + b) - b == a` */
  lemma AddSubRoundTrip(a: Point, b: Point)
    ensures a.Add(b).Sub(b) == a
  {
  }

  /** `(a - b) + b == a` */
  lemma SubAddRoundTrip(a: Point, b: Point)
    ensures a.Sub(b).Add(b) == a
  {
  }

  /** `a - b == a + b * -1` */
  lemma SubIsAddNegated(a: Point, b: Point)
    ensures a.Sub(b) == a.Add(b.Scale(-1.0))
  {
  }

  /** Scaling by 1, from either side, leaves a point as it is. */
  lemma ScaleByOne(p: Point)
    ensures p.Scale(1.0) == p && ScaleLeft(1.0, p) == p
  {
  }

  /** `(p * k) * m == p * (k * m)`, and from the left `k * (m * p) == (k * m) * p`. */
  lemma ScaleCompose(p: Point, k: real, m: real)
    ensures p.Scale(k).Scale(m) == p.Scale(k * m)
    ensures ScaleLeft(k, ScaleLeft(m, p)) == ScaleLeft(k * m, p)
  {
  }

  /** `(a + b) * k == a * k + b * k` */
  lemma ScaleDistributes(a: Point, b: Point, k: real)
    ensures a.Add(b).Scale(k) == a.Scale(k).Add(b.Scale(k))
  {
  }

  // ---------------------------------------------------------------------------
  // Squares. Each step of non-linear reasoning is a lemma of its own.

  lemma SquareBelowProduct(a: real, b: real)
    requires 0.0 <= a < b
    ensures Sq(a) <= a * b
  {
  }

  lemma ProductBelowSquare(a: real, b: real)
    requires 0.0 <= a < b
    ensures a * b < Sq(b)
  {
  }

  /** Squaring is strictly increasing on the non-negative reals. */
  lemma SquareStrictlyIncreasing(a: real, b: real)
    requires 0.0 <= a < b
    ensures Sq(a) < Sq(b)
  {
    SquareBelowProduct(a, b);
    ProductBelowSquare(a, b);
  }

  lemma SquareOfNegation(a: real)
    ensures Sq(-a) == Sq(a)
  {
  }

  /** A non-zero real has a positive square. */
  lemma SquarePositive(a: real)
    requires a != 0.0
    ensures 0.0 < Sq(a)
  {
    if a < 0.0 {
      SquareOfNegation(a);
      SquareStrictlyIncreasing(0.0, -a);
    } else {
      SquareStrictlyIncreasing(0.0, a);
    }
  }

  lemma SquareNonNegative(a: real)
    ensures 0.0 <= Sq(a)
  {
    if a != 0.0 {
      SquarePositive(a);
    }
  }

  /** Two non-negative reals with the same square are equal. */
  lemma SquareRootUnique(a: real, b: real)
    requires 0.0 <= a && 0.0 <= b && Sq(a) == Sq(b)
    ensures a == b
  {
    if a < b {
      SquareStrictlyIncreasing(a, b);
    } else if b < a {
      SquareStrictlyIncreasing(b, a);
    }
  }

  /** On non-negative reals, squaring preserves strict order both ways. */
  lemma SquareMonotone(a: real, b: real)
    requires 0.0 <= a && 0.0 <= b
    ensures a < b <==> Sq(a) < Sq(b)
  {
    if a < b {
      SquareStrictlyIncreasing(a, b);
    } else if b < a {
      SquareStrictlyIncreasing(b, a);
    }
  }

  // ---------------------------------------------------------------------------
  // Distance

  /** `distance_to` is non-negative and symmetric. */
  lemma DistNonNegativeSymmetric(dist: Metric, p: Point, q: Point)
    requires Euclidean(dist)
    ensures 0.0 <= dist(p, q)
    ensures dist(p, q) == dist(q, p)
  {
    assert MeasuresPair(dist, p, q) && MeasuresPair(dist, q, p);
    SquareOfNegation(p.x - q.x);
    SquareOfNegation(p.y - q.y);
    assert SqDist(p, q) == SqDist(q, p);
    SquareRootUnique(dist(p, q), dist(q, p));
  }

  /** The distance is zero exactly between equal points. */
  lemma DistZeroIffEqual(dist: Metric, p: Point, q: Point)
    requires Euclidean(dist)
    ensures dist(p, q) == 0.0 <==> p == q
  {
    assert MeasuresPair(dist, p, q);
    var dx, dy := p.x - q.x, p.y - q.y;
    assert Sq(dist(p, q)) == Sq(dx) + Sq(dy);
    SquareNonNegative(dx);
    SquareNonNegative(dy);
    if dist(p, q) == 0.0 {
      if dx != 0.0 {
        SquarePositive(dx);
      }
      if dy != 0.0 {
        SquarePositive(dy);
      }
      assert p.x == q.x && p.y == q.y;
    } else {
      SquarePositive(dist(p, q));
      assert p != q;
    }
  }

  /** The documented example: the distance from (0,0) to (3,4) is 5. */
  lemma DistThreeFourFive(dist: Metric)
    requires Euclidean(dist)
    ensures dist(Point(0.0, 0.0), Point(3.0, 4.0)) == 5.0
  {
    assert MeasuresPair(dist, Point(0.0, 0.0), Point(3.0, 4.0));
    var d := dist(Point(0.0, 0.0), Point(3.0, 4.0));
    assert Sq(d) == 25.0 == Sq(5.0);
    SquareRootUnique(d, 5.0);
  }

  /** Along one axis the distance is the absolute coordinate difference. */
  lemma DistAlongAxis(dist: Metric, p: Point, q: Point)
    requires Euclidean(dist)
    requires p.y == q.y
    ensures dist(p, q) == if p.x <= q.x then q.x - p.x else p.x - q.x
  {
    assert MeasuresPair(dist, p, q);
    var e := if p.x <= q.x then q.x - p.x else p.x - q.x;
    SquareOfNegation(p.x - q.x);
    assert SqDist(p, q) == Sq(e);
    SquareRootUnique(dist(p, q), e);
  }

  /** Along the other axis likewise. */
  lemma DistAlongVertical(dist: Metric, p: Point, q: Point)
    requires Euclidean(dist)
    requires p.x == q.x
    ensures dist(p, q) == if p.y <= q.y then q.y - p.y else p.y - q.y
  {
    assert MeasuresPair(dist, p, q);
    var e := if p.y <= q.y then q.y - p.y else p.y - q.y;
    SquareOfNegation(p.y - q.y);
    assert SqDist(p, q) == Sq(e);
    SquareRootUnique(dist(p, q), e);
  }

  /** Comparing distances is comparing squared distances. */
  lemma DistLessIffSqDistLess(dist: Metric, a: Point, b: Point, c: Point, d: Point)
    requires Euclidean(dist)
    ensures dist(a, b) < dist(c, d) <==> SqDist(a, b) < SqDist(c, d)
  {
    assert MeasuresPair(dist, a, b) && MeasuresPair(dist, c, d);
    SquareMonotone(dist(a, b), dist(c, d));
  }

  /**
   * A heap point, for the in-place operators `p += q` and `p -= q`, which
   * change the receiver's coordinates and return the receiver itself.
   */
  class PointCell {
    var x: real
    var y: real

    function Value(): Point
      reads this
    {
      Point(x, y)
    }

    constructor (p: Point)
      ensures Value() == p
    {
      x, y := p.x, p.y;
    }

    /** `self += other` */
    method AddInPlace(other: Point) returns (self: PointCell)
      modifies this
      ensures self == this
      ensures Value() == old(Value()).Add(other)
    {
      x := x + other.x;
      y := y + other.y;
      self := this;
    }

    /** `self -= other` */
    method SubInPlace(other: Point) returns (self: PointCell)
      modifies this
      ensures self == this
      ensures Value() == old(Value()).Sub(other)
    {
      x := x - other.x;
      y := y - other.y;
      self := this;
    }
  }
}
