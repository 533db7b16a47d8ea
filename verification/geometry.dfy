/** Points, line segments and the small amount of planar geometry the
    repository computes itself. Square roots, normalisation, angles,
    segment intersection and line extension are compiled `toolkit.maths`
    routines that are not part of this model; functions that use them take
    them as parameters (oracles). */
module Geometry {
  import opened Functional

  datatype Point = Point(x: real, y: real)

  /** A segment `[x1, y1, x2, y2]`: from `start` to `end`. */
  datatype Line = Line(start: Point, end: Point)

  function Add(p: Point, q: Point): Point { Point(p.x + q.x, p.y + q.y) }
  function Sub(p: Point, q: Point): Point { Point(p.x - q.x, p.y - q.y) }
  function Scale(p: Point, k: real): Point { Point(p.x * k, p.y * k) }

  /** Midpoint of a segment (`line_centers`). */
  function Center(l: Line): Point {
    Point((l.start.x + l.end.x) / 2.0, (l.start.y + l.end.y) / 2.0)
  }

  /** `lerp_point(a, b, t)`: the point a fraction `t` of the way from `a` to `b`. */
  function Lerp(a: Point, b: Point, t: real): (r: Point)
    ensures t == 0.0 ==> r == a
    ensures t == 1.0 ==> r == b
  {
    Add(a, Scale(Sub(b, a), t))
  }

  /* ---------------- distance through a square-root oracle ---------------- */

  type SqrtFn = real -> real

  /** The only property of the square root the model relies on. */
  ghost predicate NonNegativeRoot(sqrt: SqrtFn) {
    forall v :: 0.0 <= v ==> 0.0 <= sqrt(v)
  }

  function SquaredDistance(p: Point, q: Point): (r: real)
    ensures r >= 0.0
  {
    (p.x - q.x) * (p.x - q.x) + (p.y - q.y) * (p.y - q.y)
  }

  /** `distance(p, q)`: Euclidean distance, through the square-root oracle. */
  function Distance(sqrt: SqrtFn, p: Point, q: Point): real {
    sqrt(SquaredDistance(p, q))
  }

  /** `maths.distances(points, q)`: the distance of each point to `q`. */
  function Distances(sqrt: SqrtFn, pts: seq<Point>, q: Point): (r: seq<real>)
    ensures |r| == |pts| && forall j :: 0 <= j < |pts| ==> r[j] == Distance(sqrt, pts[j], q)
  {
    seq(|pts|, j requires 0 <= j < |pts| => Distance(sqrt, pts[j], q))
  }

  /** `line_length`, equivalently `hypot` of the coordinate differences. */
  function Length(sqrt: SqrtFn, l: Line): real {
    Distance(sqrt, l.start, l.end)
  }

  lemma DistanceSymmetric(sqrt: SqrtFn, p: Point, q: Point)
    ensures Distance(sqrt, p, q) == Distance(sqrt, q, p)
  {
    assert SquaredDistance(p, q) == SquaredDistance(q, p);
  }

  lemma DistanceNonNegative(sqrt: SqrtFn, p: Point, q: Point)
    requires NonNegativeRoot(sqrt)
    ensures Distance(sqrt, p, q) >= 0.0
  {
  }

  /* ---------------- closed polylines ---------------- */

  /** `points_to_lines`: segment `i` joins point `i` to point `i + 1`, and the
      last segment closes the loop back to the first point. */
  function PointsToLines(pts: seq<Point>): (r: seq<Line>)
    ensures |r| == |pts|
  {
    seq(|pts|, i requires 0 <= i < |pts| => Line(pts[i], pts[if i + 1 == |pts| then 0 else i + 1]))
  }

  /** Consecutive segments of a closed polyline share their joint, the last
      one included. */
  lemma PointsToLinesChain(pts: seq<Point>, i: int)
    requires 0 <= i < |pts|
    ensures PointsToLines(pts)[i].end == PointsToLines(pts)[(i + 1) % |pts|].start
    ensures PointsToLines(pts)[i].start == pts[i]
  {
    if i + 1 == |pts| {
      ModUnique(i + 1, |pts|, 1, 0);
    } else {
      ModInRange(i + 1, |pts|);
    }
  }

  /** Segment `i` of the closed polyline rolled once is the segment that
      ends at point `i` (it starts at point `i - 1`, wrapping). */
  lemma RolledLinesEndAt(pts: seq<Point>, i: int)
    requires 0 <= i < |pts|
    ensures Roll(PointsToLines(pts), 1)[i] == Line(pts[(i - 1) % |pts|], pts[i])
  {
    var n := |pts|;
    RollAt(PointsToLines(pts), 1, i);
    var j := (i - 1) % n;
    if i == 0 {
      ModUnique(-1, n, -1, n - 1);
    } else {
      ModInRange(i - 1, n);
    }
    assert j + 1 == n ==> i == 0;
  }

  lemma PointsToLinesExample()
    ensures PointsToLines([Point(10.0, 10.0), Point(-10.0, 10.0), Point(2.0, 1.0), Point(3.0, 0.0)])
         == [Line(Point(10.0, 10.0), Point(-10.0, 10.0)), Line(Point(-10.0, 10.0), Point(2.0, 1.0)),
             Line(Point(2.0, 1.0), Point(3.0, 0.0)), Line(Point(3.0, 0.0), Point(10.0, 10.0))]
  {
  }

  /* ---------------- oracles for the compiled geometry ---------------- */

  /** The result of `segment_intersections(line, lines, return_indexes=True)`:
      the crossing points and, for each, the position in `lines` of the
      segment crossed. */
  datatype Hits = Hits(points: seq<Point>, indexes: seq<int>)

  type IntersectFn = (Line, seq<Line>) -> Hits

  /** What callers rely on: one index per crossing point, each naming one of
      the segments that were passed in. */
  ghost predicate WellFormedIntersect(intersect: IntersectFn) {
    forall l: Line, ls: seq<Line> ::
      |intersect(l, ls).points| == |intersect(l, ls).indexes| && IndexesIn(intersect(l, ls).indexes, |ls|)
  }

  /** `extend_lines([line], amount, min)[0]`. */
  type ExtendFn = (Line, real, real) -> Line

  /** `normalise_point`: the direction of a vector scaled to unit length. */
  type NormaliseFn = Point -> Point
}
