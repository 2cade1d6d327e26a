/** A 2-D integer coordinate (pyfdl's `Point` dataclass).
    The dataclass is treated as an immutable value: subtraction builds a new
    point and never changes its operands. */
module Points {

  /** Sentinel values meaning "no coordinate on this axis". */
  const NO_X_COORDINATE: int := 0
  const NO_Y_COORDINATE: int := 0

  datatype Point = Point(x: int, y: int)

  /** The point built with all defaults, `Point()`. */
  function Default(): (p: Point)
    ensures p.x == NO_X_COORDINATE && p.y == NO_Y_COORDINATE
  {
    Point(NO_X_COORDINATE, NO_Y_COORDINATE)
  }

  /** True exactly for the sentinel point (both coordinates at their sentinels). */
  predicate NoCoordinates(p: Point)
    ensures NoCoordinates(p) <==> p == Default()
  {
    p.x == NO_X_COORDINATE && p.y == NO_Y_COORDINATE
  }

  /** Absolute difference of two integers, as Python's `abs(a - b)`. */
  function AbsDiff(a: int, b: int): (d: int)
    ensures d >= 0
    ensures d == a - b || d == b - a
  {
    if a >= b then a - b else b - a
  }

  /** `p - q`: the per-axis distance between the two points. */
  function Sub(p: Point, q: Point): (r: Point)
    ensures r.x >= 0 && r.y >= 0
    ensures r.x == p.x - q.x || r.x == q.x - p.x
    ensures r.y == p.y - q.y || r.y == q.y - p.y
    ensures NoCoordinates(r) <==> p == q
  {
    Point(AbsDiff(p.x, q.x), AbsDiff(p.y, q.y))
  }

  /** A default-constructed point is the sentinel. */
  lemma DefaultHasNoCoordinates()
    ensures Default() == Point(0, 0)
    ensures NoCoordinates(Default())
  {
  }

  /** Subtraction does not depend on the order of its operands. */
  lemma SubSymmetric(p: Point, q: Point)
    ensures Sub(p, q) == Sub(q, p)
  {
  }

  /** A point minus itself is the origin, hence the sentinel. */
  lemma SubSelf(p: Point)
    ensures Sub(p, p) == Point(0, 0)
    ensures NoCoordinates(Sub(p, p))
  {
  }

  /** Each component of a difference obeys the triangle inequality. */
  lemma SubTriangle(p: Point, q: Point, r: Point)
    ensures Sub(p, r).x <= Sub(p, q).x + Sub(q, r).x
    ensures Sub(p, r).y <= Sub(p, q).y + Sub(q, r).y
  {
  }

  /** The two subtraction cases of the unit tests. */
  lemma SubExamples()
    ensures Sub(Point(100, 100), Point(500, 500)) == Point(400, 400)
    ensures Sub(Point(-100, -100), Point(500, 500)) == Point(600, 600)
  {
  }
}
