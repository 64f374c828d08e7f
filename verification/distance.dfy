/** The three distance calculators and the test the radius filter applies with
    them. Euclidean distance is handled through its square so that no square
    root is needed: for a radius `r >= 0`, `sqrt(s) > r` holds exactly when
    `s > r * r` (see `EuclideanExceedsAgreesWithRoot`). */
module Distance {
  import opened Geometry

  /** The norm selector: 0 is Euclidean (L2), 1 is Chebyshev (L-infinity),
      2 is Manhattan (L1). */
  datatype Metric = Euclidean | Chebyshev | Manhattan

  /** The norm number the user types for a metric. */
  function Norm(m: Metric): (n: int)
    ensures 0 <= n <= 2
  {
    match m
    case Euclidean => 0
    case Chebyshev => 1
    case Manhattan => 2
  }

  /** The calculator registered under a norm number in the searcher's constructor. */
  function MetricOf(norm: int): (m: Metric)
    requires 0 <= norm <= 2
    ensures Norm(m) == norm
  {
    if norm == 0 then Euclidean else if norm == 1 then Chebyshev else Manhattan
  }

  /** Selecting the calculator for a metric's own norm number gives that metric back. */
  lemma MetricOfNorm(m: Metric)
    ensures MetricOf(Norm(m)) == m
  {
  }

  /** Square of the Euclidean distance, `(dx)^2 + (dy)^2`. */
  function EuclideanSquared(a: Location, b: Location): (s: real)
    ensures s >= 0.0
    ensures s >= (a.x - b.x) * (a.x - b.x) && s >= (a.y - b.y) * (a.y - b.y)
  {
    (a.x - b.x) * (a.x - b.x) + (a.y - b.y) * (a.y - b.y)
  }

  /** Chebyshev distance: the larger coordinate offset. */
  function ChebyshevDistance(a: Location, b: Location): (d: real)
    ensures d >= 0.0
    ensures d >= Abs(a.x - b.x) && d >= Abs(a.y - b.y)
    ensures d == Abs(a.x - b.x) || d == Abs(a.y - b.y)
  {
    Max(Abs(a.x - b.x), Abs(a.y - b.y))
  }

  /** Manhattan distance: the sum of the coordinate offsets. */
  function ManhattanDistance(a: Location, b: Location): (d: real)
    ensures d >= 0.0
    ensures d >= Max(Abs(a.x - b.x), Abs(a.y - b.y))
  {
    Abs(a.x - b.x) + Abs(a.y - b.y)
  }

  /** The test `calculateDistance(c, p) > radius` that removes a city from the
      matching list. For the Euclidean metric it is stated on squares, which is
      faithful because the radius is non-negative. A point that passes the
      test under any metric lies in the axis box of the same radius, which is
      why the range scans never lose a city the exact filter keeps, and the
      center itself always passes. */
  function Exceeds(m: Metric, c: Location, p: Location, r: real): (far: bool)
    requires r >= 0.0
    ensures !far ==> InBox(c, p, r)
    ensures c == p ==> !far
  {
    SquareWithinOffsets(c, p, r);
    InBoxIffOffsets(c, p, r);
    match m
    case Euclidean => EuclideanSquared(c, p) > r * r
    case Chebyshev => ChebyshevDistance(c, p) > r
    case Manhattan => ManhattanDistance(c, p) > r
  }

  /** A squared Euclidean distance within `r * r` keeps both offsets within `r`. */
  lemma SquareWithinOffsets(c: Location, p: Location, r: real)
    requires r >= 0.0
    ensures EuclideanSquared(c, p) <= r * r ==> Abs(c.x - p.x) <= r && Abs(c.y - p.y) <= r
  {
    var ax, ay := Abs(c.x - p.x), Abs(c.y - p.y);
    assert ax * ax == (c.x - p.x) * (c.x - p.x);
    assert ay * ay == (c.y - p.y) * (c.y - p.y);
    SquareOrder(ax, r);
    SquareOrder(ay, r);
  }


  /** For non-negative reals, comparing squares is comparing the values. */
  lemma SquareOrder(u: real, v: real)
    requires u >= 0.0 && v >= 0.0
    ensures u <= v <==> u * u <= v * v
  {
    if u <= v {
      assert u * u <= u * v <= v * v;
    } else {
      StrictSquareOrder(v, u);
    }
  }

  /** A strictly smaller non-negative real has a strictly smaller square. */
  lemma StrictSquareOrder(v: real, u: real)
    requires 0.0 <= v < u
    ensures v * v < u * u
  {
    var vv, vu, uu := v * v, v * u, u * u;
    assert vv <= vu;
    assert vu < uu;
    assert vv < uu;
  }

  /** The squared comparison agrees with comparing any non-negative root of the
      squared distance (the value `std::sqrt` returns) against the radius. */
  lemma EuclideanExceedsAgreesWithRoot(c: Location, p: Location, r: real, d: real)
    requires r >= 0.0 && d >= 0.0 && d * d == EuclideanSquared(c, p)
    ensures Exceeds(Euclidean, c, p, r) <==> d > r
  {
    SquareOrder(d, r);
  }

  /** Any non-negative root of the squared Euclidean distance is at least each
      coordinate offset. */
  lemma EuclideanRootDominatesOffsets(a: Location, b: Location, d: real)
    requires d >= 0.0 && d * d == EuclideanSquared(a, b)
    ensures d >= Abs(a.x - b.x) && d >= Abs(a.y - b.y)
  {
    var ax, ay := Abs(a.x - b.x), Abs(a.y - b.y);
    assert ax * ax == (a.x - b.x) * (a.x - b.x);
    assert ay * ay == (a.y - b.y) * (a.y - b.y);
    SquareOrder(ax, d);
    SquareOrder(ay, d);
  }

  /** Every metric gives distance zero from a point to itself, so a point never
      exceeds a non-negative radius around itself. */
  lemma SelfDistanceZero(p: Location)
    ensures EuclideanSquared(p, p) == 0.0
    ensures ChebyshevDistance(p, p) == 0.0
    ensures ManhattanDistance(p, p) == 0.0
  {
  }

  /** Every metric is symmetric in its two arguments. */
  lemma DistanceSymmetric(a: Location, b: Location)
    ensures EuclideanSquared(a, b) == EuclideanSquared(b, a)
    ensures ChebyshevDistance(a, b) == ChebyshevDistance(b, a)
    ensures ManhattanDistance(a, b) == ManhattanDistance(b, a)
  {
    assert (a.x - b.x) * (a.x - b.x) == (b.x - a.x) * (b.x - a.x);
    assert (a.y - b.y) * (a.y - b.y) == (b.y - a.y) * (b.y - a.y);
  }

  /** Whether a point is within radius `r` does not depend on argument order. */
  lemma ExceedsSymmetric(m: Metric, a: Location, b: Location, r: real)
    requires r >= 0.0
    ensures Exceeds(m, a, b, r) <==> Exceeds(m, b, a, r)
  {
    DistanceSymmetric(a, b);
  }



  /** For Chebyshev distance the box prune is already exact. */
  lemma ChebyshevBallIsBox(c: Location, p: Location, r: real)
    requires r >= 0.0
    ensures !Exceeds(Chebyshev, c, p, r) <==> InBox(c, p, r)
  {
    InBoxIffOffsets(c, p, r);
  }

  /** The three norms are mutually bounded: the Chebyshev distance is at most
      the Manhattan distance, which is at most twice the Chebyshev distance, and
      the squared Euclidean distance lies between the squares of the other two. */
  lemma NormsOrdered(a: Location, b: Location)
    ensures ChebyshevDistance(a, b) <= ManhattanDistance(a, b) <= 2.0 * ChebyshevDistance(a, b)
    ensures ChebyshevDistance(a, b) * ChebyshevDistance(a, b) <= EuclideanSquared(a, b)
    ensures EuclideanSquared(a, b) <= ManhattanDistance(a, b) * ManhattanDistance(a, b)
  {
    var ax, ay := Abs(a.x - b.x), Abs(a.y - b.y);
    var ch, mh := ChebyshevDistance(a, b), ManhattanDistance(a, b);
    var xx, yy, xy := ax * ax, ay * ay, ax * ay;
    assert xx == (a.x - b.x) * (a.x - b.x) && yy == (a.y - b.y) * (a.y - b.y);
    assert xy >= 0.0;
    assert mh * mh == xx + 2.0 * xy + yy;
    assert ch == ax || ch == ay;
    assert ch * ch == xx || ch * ch == yy;
  }

  /** The worked example: from (0,0) to (3,4) the Euclidean distance is 5
      (squared 25), the Chebyshev distance 4 and the Manhattan distance 7. */
  lemma ThreeFourFive()
    ensures EuclideanSquared(Location(0.0, 0.0), Location(3.0, 4.0)) == 25.0 == 5.0 * 5.0
    ensures ChebyshevDistance(Location(0.0, 0.0), Location(3.0, 4.0)) == 4.0
    ensures ManhattanDistance(Location(0.0, 0.0), Location(3.0, 4.0)) == 7.0
  {
  }
}
