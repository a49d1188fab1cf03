/** Shared vocabulary of the FitFrame model: failure-compatible wrappers,
    pixel-space points and landmarks, and the abstract square root that
    the measurement code takes from numpy. */
module Common {

  datatype Option<+T> = None | Some(value: T) {
    function GetOr(default: T): T {
      match this
      case Some(v) => v
      case None => default
    }
  }

  /** The errors the pipeline can raise. */
  datatype Error =
    | ZeroDivision        // Python's ZeroDivisionError
    | PoseModelNotLoaded  // RuntimeError raised by the detector
    | NoPersonDetected    // the detector returned no landmarks

  datatype Result<+T> = Ok(value: T) | Err(error: Error)

  /** A 2D point in image pixels. */
  datatype Point = Point(x: real, y: real)

  /** A landmark record as the detector writes it into its dictionary. */
  datatype Landmark = Landmark(x: real, y: real, z: real, visibility: real) {
    function Pos(): Point { Point(x, y) }
  }

  /** `sqrt` is a square root on the non-negative reals.  numpy's `sqrt` is
      taken as a parameter that meets this contract. */
  ghost predicate IsSqrt(sqrt: real -> real) {
    forall v: real {:trigger sqrt(v)} :: 0.0 <= v ==> 0.0 <= sqrt(v) && sqrt(v) * sqrt(v) == v
  }

  function Abs(v: real): (r: real)
    ensures 0.0 <= r && (r == v || r == -v)
  {
    if v < 0.0 then -v else v
  }

  function Max(a: real, b: real): (r: real)
    ensures a <= r && b <= r && (r == a || r == b)
  {
    if a < b then b else a
  }

  function Min(a: real, b: real): (r: real)
    ensures r <= a && r <= b && (r == a || r == b)
  {
    if a < b then a else b
  }

  function SquaredDistance(p: Point, q: Point): real {
    (q.x - p.x) * (q.x - p.x) + (q.y - p.y) * (q.y - p.y)
  }

  /** The Euclidean distance `np.sqrt((q.x-p.x)**2 + (q.y-p.y)**2)`. */
  function Distance(sqrt: real -> real, p: Point, q: Point): (d: real)
    requires IsSqrt(sqrt)
    ensures 0.0 <= d && d * d == SquaredDistance(p, q)
  {
    SquaredNonNegative(p, q);
    sqrt(SquaredDistance(p, q))
  }

  lemma Square(v: real)
    ensures 0.0 <= v * v
  {
    if v < 0.0 { assert (-v) * (-v) == v * v; }
  }

  lemma SquaredNonNegative(p: Point, q: Point)
    ensures 0.0 <= SquaredDistance(p, q)
  {
    Square(q.x - p.x);
    Square(q.y - p.y);
  }

  /** Multiplying by a non-negative factor keeps an order. */
  lemma MulLeft(x: real, y: real, z: real)
    requires 0.0 <= x && y <= z
    ensures x * y <= x * z
  {
    assert x * z - x * y == x * (z - y);
  }

  lemma MulLeftStrict(x: real, y: real, z: real)
    requires 0.0 < x && y < z
    ensures x * y < x * z
  {
    assert x * z - x * y == x * (z - y);
  }

  lemma PositiveProduct(x: real, y: real)
    requires 0.0 < x && 0.0 < y
    ensures 0.0 < x * y
  {
  }

  /** Python's `int(v)` on a float: truncation toward zero. */
  function Trunc(v: real): int {
    if 0.0 <= v then v.Floor else -((-v).Floor)
  }

  /** `Trunc` drops the fractional part, moving toward zero. */
  lemma TruncTowardZero(v: real)
    ensures 0.0 <= v ==> Trunc(v) as real <= v < Trunc(v) as real + 1.0
    ensures v < 0.0 ==> Trunc(v) as real - 1.0 < v <= Trunc(v) as real
  {
  }
}
