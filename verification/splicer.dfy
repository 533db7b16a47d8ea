/** The splicer: lays a racing line's samples (position, velocity,
    acceleration) onto a track's segmentation lines by finding where each
    segmentation crosses the line and interpolating there. */
module Splicer {
  import opened Wrappers
  import opened Functional
  import opened Geometry
  import opened Tracks

  /* ---------------- rounding ---------------- */

  function Pow10(n: nat): (r: real)
    ensures r >= 1.0
  {
    if n == 0 then 1.0 else 10.0 * Pow10(n - 1)
  }

  /** The factor `round(x, digits)` scales by before rounding to an integer. */
  function DigitScale(digits: int): (r: real)
    ensures r > 0.0
  {
    if digits >= 0 then Pow10(digits) else 1.0 / Pow10(-digits)
  }

  /** The nearest integer, ties going to the even one. */
  function RoundHalfEven(x: real): (r: int)
    ensures x - 0.5 <= r as real <= x + 0.5
    ensures (x - 0.5 < r as real < x + 0.5) || r % 2 == 0
  {
    var f := x.Floor;
    var d := x - f as real;
    if d < 0.5 then f
    else if d > 0.5 then f + 1
    else if f % 2 == 0 then f else f + 1
  }

  /** Python's `round(x, digits)` on exact reals. */
  function Round(x: real, digits: int): real {
    RoundHalfEven(x * DigitScale(digits)) as real / DigitScale(digits)
  }

  /** Rounding a value of `[0, 1]` to no digits gives 0 or 1. */
  lemma RoundUnitToNoDigits(x: real)
    requires 0.0 <= x <= 1.0
    ensures Round(x, 0) == 0.0 || Round(x, 0) == 1.0
  {
    assert DigitScale(0) == 1.0;
    assert x * 1.0 == x;
    var r := RoundHalfEven(x);
    assert Round(x, 0) == r as real / 1.0;
    assert -1 < r < 2;
    assert r == 0 || r == 1;
  }

  /* ---------------- path data ---------------- */

  /** One sample of the racing line. */
  datatype PathInput = PathInput(x: real, y: real, vel: Option<real>, acc: Option<real>)

  datatype PathData = PathData(points: seq<Point>, vels: seq<real>, accs: seq<real>)
  {
    ghost predicate Valid() { |vels| == |points| && |accs| == |points| }
  }

  /** `get_path_data(track, optimal_path)`: without samples, the midline
      with zero velocity and acceleration; with samples, their positions,
      missing velocities becoming -1 and missing accelerations 0. */
  function GetPathData(track: Track, path: seq<PathInput>): (r: PathData)
    ensures r.Valid()
    ensures |path| == 0 ==> r.points == track.Midline() && |r.vels| == |track.segmentations|
    ensures |path| == 0 ==> forall i :: 0 <= i < |r.vels| ==> r.vels[i] == 0.0 && r.accs[i] == 0.0
    ensures |path| > 0 ==> |r.points| == |path| && forall i :: 0 <= i < |path| ==>
              && r.points[i] == Point(path[i].x, path[i].y)
              && (path[i].vel.None? ==> r.vels[i] == -1.0)
              && (path[i].vel.Some? && path[i].vel.value == 0.0 ==> r.vels[i] == -1.0)
              && (path[i].vel.Some? && path[i].vel.value != 0.0 ==> r.vels[i] == path[i].vel.value)
              && (path[i].acc.None? ==> r.accs[i] == 0.0)
              && (path[i].acc.Some? ==> r.accs[i] == path[i].acc.value)
  {
    if |path| == 0 then
      var n := |track.segmentations|;
      PathData(track.Midline(), Fill(0.0, n), Fill(0.0, n))
    else
      PathData(seq(|path|, i requires 0 <= i < |path| => Point(path[i].x, path[i].y)),
               seq(|path|, i requires 0 <= i < |path| => OrDefault(path[i].vel, -1.0)),
               seq(|path|, i requires 0 <= i < |path| => OrDefault(path[i].acc, 0.0)))
  }

  /** The samples are read one by one: the data of two runs of samples is
      the data of each, concatenated. */
  lemma GetPathDataAppend(track: Track, a: seq<PathInput>, b: seq<PathInput>)
    requires |a| > 0 && |b| > 0
    ensures var ra, rb := GetPathData(track, a), GetPathData(track, b);
      GetPathData(track, a + b) == PathData(ra.points + rb.points, ra.vels + rb.vels, ra.accs + rb.accs)
  {
    var ra, rb, r := GetPathData(track, a), GetPathData(track, b), GetPathData(track, a + b);
    assert r.points == ra.points + rb.points;
    assert r.vels == ra.vels + rb.vels;
    assert r.accs == ra.accs + rb.accs;
  }

  /* ---------------- finding the crossing ---------------- */

  /** `extend_lines([line], amount)[0]` with the default minimum. */
  type ExtendByFn = (Line, real) -> Line

  /** The extensions tried, in order. */
  function Extensions(): (r: seq<real>)
    ensures |r| == 6 && r[0] == 0.0 && r[5] == 1.0
  {
    [0.0, 0.2, 0.4, 0.6, 0.8, 1.0]
  }

  /** Where the normal meets the path and the index of the path segment. */
  datatype Crossing = Crossing(point: Point, index: int)

  /** With two crossings: the endpoint the two path segments share, checked
      start/start, start/end, end/start, end/end; else the first segment's
      start. */
  function SharedEnd(l1: Line, l2: Line): (r: Point)
    ensures r == l1.start || r == l1.end
  {
    if l1.start == l2.start then l1.start
    else if l1.start == l2.end then l2.end
    else if l1.end == l2.start then l2.start
    else if l1.end == l2.end then l2.end
    else l1.start
  }

  /** The chosen point is an endpoint of both segments whenever they share
      one, and the first segment's start otherwise. */
  lemma SharedEndIsShared(l1: Line, l2: Line)
    ensures var r := SharedEnd(l1, l2);
            (r == l2.start || r == l2.end) <==> (l1.start == l2.start || l1.start == l2.end || l1.end == l2.start || l1.end == l2.end)
    ensures !(l1.start == l2.start || l1.start == l2.end || l1.end == l2.start || l1.end == l2.end) ==> SharedEnd(l1, l2) == l1.start
  {
  }

  /** Whether a crossing count settles the search. */
  predicate Usable(hits: Hits) {
    |hits.indexes| == 1 || |hits.indexes| == 2
  }

  /** The crossing read off a usable set of hits. */
  function CrossingOf(hits: Hits, pathLines: seq<Line>): (r: Crossing)
    requires Usable(hits) && |hits.points| == |hits.indexes| && IndexesIn(hits.indexes, |pathLines|)
    ensures r.index == hits.indexes[0] && 0 <= r.index < |pathLines|
  {
    if |hits.indexes| == 1 then Crossing(hits.points[0], hits.indexes[0])
    else Crossing(SharedEnd(pathLines[hits.indexes[0]], pathLines[hits.indexes[1]]), hits.indexes[0])
  }

  /** The extension loop from extension `e` on. */
  function FindCrossing(normal: Line, pathLines: seq<Line>, extend: ExtendByFn, intersect: IntersectFn, e: nat): (r: Option<Crossing>)
    requires WellFormedIntersect(intersect) && e <= |Extensions()|
    ensures r.Some? ==> 0 <= r.value.index < |pathLines|
    decreases |Extensions()| - e
  {
    if e == |Extensions()| then None
    else
      var hits := intersect(extend(normal, Extensions()[e]), pathLines);
      if Usable(hits) then Some(CrossingOf(hits, pathLines))
      else FindCrossing(normal, pathLines, extend, intersect, e + 1)
  }

  /** The hits of the normal extended by the `e`-th extension. */
  function HitsAt(normal: Line, pathLines: seq<Line>, extend: ExtendByFn, intersect: IntersectFn, e: nat): Hits
    requires e < |Extensions()|
  {
    intersect(extend(normal, Extensions()[e]), pathLines)
  }

  /** The search takes the first extension with one or two crossings, and
      finds nothing exactly when no extension has. */
  lemma {:induction false} FindCrossingFirst(normal: Line, pathLines: seq<Line>, extend: ExtendByFn, intersect: IntersectFn, e: nat)
    requires WellFormedIntersect(intersect) && e <= |Extensions()|
    ensures var r := FindCrossing(normal, pathLines, extend, intersect, e);
            r.None? <==> forall k :: e <= k < |Extensions()| ==> !Usable(HitsAt(normal, pathLines, extend, intersect, k))
    ensures var r := FindCrossing(normal, pathLines, extend, intersect, e);
            r.Some? ==>
              exists k :: e <= k < |Extensions()|
                && Usable(HitsAt(normal, pathLines, extend, intersect, k))
                && (forall j :: e <= j < k ==> !Usable(HitsAt(normal, pathLines, extend, intersect, j)))
                && r.value == CrossingOf(HitsAt(normal, pathLines, extend, intersect, k), pathLines)
    decreases |Extensions()| - e
  {
    if e < |Extensions()| {
      FindCrossingFirst(normal, pathLines, extend, intersect, e + 1);
      var hits := HitsAt(normal, pathLines, extend, intersect, e);
      var r := FindCrossing(normal, pathLines, extend, intersect, e);
      if Usable(hits) {
        assert r == Some(CrossingOf(hits, pathLines));
      } else {
        assert r == FindCrossing(normal, pathLines, extend, intersect, e + 1);
        if r.Some? {
          var k :| e + 1 <= k < |Extensions()|
            && Usable(HitsAt(normal, pathLines, extend, intersect, k))
            && (forall j :: e + 1 <= j < k ==> !Usable(HitsAt(normal, pathLines, extend, intersect, j)))
            && r.value == CrossingOf(HitsAt(normal, pathLines, extend, intersect, k), pathLines);
          assert forall j :: e <= j < k ==> !Usable(HitsAt(normal, pathLines, extend, intersect, j));
        }
      }
    }
  }

  /* ---------------- interpolating onto a normal ---------------- */

  datatype SplicerError =
    | NoCrossing      // no extension met the path once or twice
    | ZeroDivision    // a zero-length normal or path segment

  /** How far along the normal the crossing is: the distance from the
      normal's start over its length, 0 when the crossing is beyond the
      end's reach, and 1 when it is beyond the start's. */
  function Position(sqrt: SqrtFn, normal: Line, point: Point): (r: Result<real, SplicerError>)
    ensures r.Err? <==> Length(sqrt, normal) == 0.0
  {
    var len := Length(sqrt, normal);
    if len == 0.0 then Err(ZeroDivision)
    else
      var p := Distance(sqrt, point, normal.start) / len;
      var p := if Distance(sqrt, point, normal.end) > len then 0.0 else p;
      Ok(if Distance(sqrt, point, normal.start) > len then 1.0 else p)
  }

  /** With non-negative distances the position lies in `[0, 1]`. */
  lemma PositionInUnit(sqrt: SqrtFn, normal: Line, point: Point)
    requires NonNegativeRoot(sqrt) && Position(sqrt, normal, point).Ok?
    ensures 0.0 <= Position(sqrt, normal, point).value <= 1.0
  {
    var len := Length(sqrt, normal);
    var d := Distance(sqrt, point, normal.start);
    DistanceNonNegative(sqrt, normal.start, normal.end);
    DistanceNonNegative(sqrt, point, normal.start);
    if d <= len {
      assert d / len * len == d;
    }
  }

  /** How far along the path segment the crossing is, clamped to `[0, 1]`. */
  function Fraction(sqrt: SqrtFn, segment: Line, point: Point): (r: Result<real, SplicerError>)
    ensures r.Err? <==> Length(sqrt, segment) == 0.0
    ensures r.Ok? ==> 0.0 <= r.value <= 1.0
  {
    var len := Length(sqrt, segment);
    if len == 0.0 then Err(ZeroDivision)
    else
      var l := Distance(sqrt, segment.start, point) / len;
      var l := if l < 1.0 then l else 1.0;
      Ok(if l > 0.0 then l else 0.0)
  }

  /** `a * (1 - l) + b * l`. */
  function Interpolate(a: real, b: real, l: real): (r: real)
    ensures l == 0.0 ==> r == a
    ensures l == 1.0 ==> r == b
  {
    a * (1.0 - l) + b * l
  }

  /** For `l` in `[0, 1]` the interpolation lies between its ends and hits
      each end at 0 and 1. */
  lemma InterpolateBetween(a: real, b: real, l: real)
    requires 0.0 <= l <= 1.0
    ensures (if a <= b then a else b) <= Interpolate(a, b, l) <= (if a <= b then b else a)
    ensures l == 0.0 ==> Interpolate(a, b, l) == a
    ensures l == 1.0 ==> Interpolate(a, b, l) == b
  {
    assert Interpolate(a, b, l) == a + (b - a) * l;
    if a <= b {
      MulNonNegative(b - a, l);
      MulNonNegative(b - a, 1.0 - l);
    } else {
      MulNonNegative(a - b, l);
      MulNonNegative(a - b, 1.0 - l);
    }
  }

  lemma MulNonNegative(x: real, y: real)
    requires x >= 0.0 && y >= 0.0
    ensures x * y >= 0.0
  {
  }

  /** One spliced segmentation: endpoints copied, the position on it and the
      velocity and acceleration interpolated between the samples at the ends
      of the crossed path segment (segment `i` runs from sample `i - 1`). */
  function SpliceOne(sqrt: SqrtFn, seg: SegmentationLine, crossing: Crossing, data: PathData, pathLines: seq<Line>,
                     precision: Option<int>): (r: Result<SegmentationLine, SplicerError>)
    requires data.Valid() && |pathLines| == |data.points| && 0 <= crossing.index < |pathLines|
    ensures r.Ok? && precision.None? ==> r.value.Arr() == seg.Arr()
  {
    var n := |data.points|;
    var p :- Position(sqrt, seg.AsLine(), crossing.point);
    var l :- Fraction(sqrt, pathLines[crossing.index], crossing.point);
    var before := (crossing.index - 1) % n;
    var vel := Interpolate(data.vels[before], data.vels[crossing.index], l);
    var acc := Interpolate(data.accs[before], data.accs[crossing.index], l);
    Ok(match precision
       case None => SegmentationLine(seg.x1, seg.y1, seg.x2, seg.y2, Some(p), Some(vel), Some(acc))
       case Some(d) => SegmentationLine(Round(seg.x1, d), Round(seg.y1, d), Round(seg.x2, d), Round(seg.y2, d),
                                        Some(Round(p, d)), Some(Round(vel, d)), Some(Round(acc, d))))
  }

  /** The path's segments: segment `i` joins sample `i - 1` to sample `i`,
      the first closing the loop from the last sample. */
  function PathLines(data: PathData): (r: seq<Line>)
    ensures |r| == |data.points|
  {
    Roll(PointsToLines(data.points), 1)
  }

  /** Segmentation `i` spliced at its first usable crossing. */
  function SpliceAt(sqrt: SqrtFn, extend: ExtendByFn, intersect: IntersectFn, seg: SegmentationLine, data: PathData,
                    precision: Option<int>): (r: Result<SegmentationLine, SplicerError>)
    requires WellFormedIntersect(intersect) && data.Valid()
    ensures FindCrossing(seg.AsLine(), PathLines(data), extend, intersect, 0).None? ==> r == Err(NoCrossing)
  {
    var lines := PathLines(data);
    var crossing := FindCrossing(seg.AsLine(), lines, extend, intersect, 0);
    if crossing.None? then Err(NoCrossing)
    else SpliceOne(sqrt, seg, crossing.value, data, lines, precision)
  }

  /** The error of the first segmentation from `i` on that cannot be
      spliced, if any. */
  function FirstFailure(sqrt: SqrtFn, extend: ExtendByFn, intersect: IntersectFn, segs: seq<SegmentationLine>, data: PathData,
                        precision: Option<int>, i: nat): (r: Option<SplicerError>)
    requires WellFormedIntersect(intersect) && data.Valid() && i <= |segs|
    ensures r.None? <==> forall k :: i <= k < |segs| ==> SpliceAt(sqrt, extend, intersect, segs[k], data, precision).Ok?
    decreases |segs| - i
  {
    if i == |segs| then None
    else
      match SpliceAt(sqrt, extend, intersect, segs[i], data, precision)
      case Err(e) => Some(e)
      case Ok(_) => FirstFailure(sqrt, extend, intersect, segs, data, precision, i + 1)
  }

  /** `splice(params)`: the segmentations in order, each spliced at its
      first usable crossing; the first one that cannot be spliced raises. */
  function Splice(sqrt: SqrtFn, extend: ExtendByFn, intersect: IntersectFn, track: Track, path: seq<PathInput>,
                  precision: Option<int>): (r: Result<Track, SplicerError>)
    requires WellFormedIntersect(intersect)
    ensures r.Ok? ==> |r.value.segmentations| == |track.segmentations|
    ensures r.Ok? ==> forall k :: 0 <= k < |track.segmentations| ==>
              Ok(r.value.segmentations[k]) == SpliceAt(sqrt, extend, intersect, track.segmentations[k], GetPathData(track, path), precision)
  {
    var data := GetPathData(track, path);
    var segs := track.segmentations;
    match FirstFailure(sqrt, extend, intersect, segs, data, precision, 0)
    case Some(e) => Err(e)
    case None => Ok(Track(seq(|segs|, k requires 0 <= k < |segs| => SpliceAt(sqrt, extend, intersect, segs[k], data, precision).value)))
  }

  /** A normal no extension brings to the path fails the whole splice. */
  lemma SpliceFailsWithoutCrossing(sqrt: SqrtFn, extend: ExtendByFn, intersect: IntersectFn, track: Track, path: seq<PathInput>,
                                   precision: Option<int>, k: int)
    requires WellFormedIntersect(intersect) && 0 <= k < |track.segmentations|
    requires forall e :: 0 <= e < |Extensions()| ==>
               !Usable(HitsAt(track.segmentations[k].AsLine(), PathLines(GetPathData(track, path)), extend, intersect, e))
    ensures Splice(sqrt, extend, intersect, track, path, precision).Err?
  {
    var data := GetPathData(track, path);
    FindCrossingFirst(track.segmentations[k].AsLine(), PathLines(data), extend, intersect, 0);
  }

  /** What a spliced segmentation carries without rounding: the track's
      endpoints, a position in `[0, 1]`, and a velocity and acceleration
      between the samples at the two ends of the crossed path segment. */
  lemma SpliceSegmentation(sqrt: SqrtFn, extend: ExtendByFn, intersect: IntersectFn, track: Track, path: seq<PathInput>, k: int)
    requires WellFormedIntersect(intersect) && NonNegativeRoot(sqrt) && 0 <= k < |track.segmentations|
    requires Splice(sqrt, extend, intersect, track, path, None).Ok?
    ensures var data := GetPathData(track, path);
            var s := Splice(sqrt, extend, intersect, track, path, None).value.segmentations[k];
            var c := FindCrossing(track.segmentations[k].AsLine(), PathLines(data), extend, intersect, 0).value;
            var n := |data.points|;
            && s.Arr() == track.segmentations[k].Arr()
            && s.pos.Some? && 0.0 <= s.pos.value <= 1.0
            && s.vel.Some? && s.acc.Some?
            && var a := data.vels[(c.index - 1) % n];
               var b := data.vels[c.index];
               (if a <= b then a else b) <= s.vel.value <= (if a <= b then b else a)
  {
    var data := GetPathData(track, path);
    var seg := track.segmentations[k];
    assert Ok(Splice(sqrt, extend, intersect, track, path, None).value.segmentations[k])
        == SpliceAt(sqrt, extend, intersect, seg, data, None);
    SplicedLine(sqrt, extend, intersect, seg, data);
  }

  /** One segmentation spliced without rounding, against the path data. */
  lemma SplicedLine(sqrt: SqrtFn, extend: ExtendByFn, intersect: IntersectFn, seg: SegmentationLine, data: PathData)
    requires WellFormedIntersect(intersect) && NonNegativeRoot(sqrt) && data.Valid()
    requires SpliceAt(sqrt, extend, intersect, seg, data, None).Ok?
    ensures var s := SpliceAt(sqrt, extend, intersect, seg, data, None).value;
            var c := FindCrossing(seg.AsLine(), PathLines(data), extend, intersect, 0).value;
            var n := |data.points|;
            && s.Arr() == seg.Arr()
            && s.pos.Some? && 0.0 <= s.pos.value <= 1.0
            && s.vel.Some? && s.acc.Some?
            && var a := data.vels[(c.index - 1) % n];
               var b := data.vels[c.index];
               (if a <= b then a else b) <= s.vel.value <= (if a <= b then b else a)
  {
    var lines := PathLines(data);
    var c := FindCrossing(seg.AsLine(), lines, extend, intersect, 0).value;
    PositionInUnit(sqrt, seg.AsLine(), c.point);
    var l := Fraction(sqrt, lines[c.index], c.point).value;
    var n := |data.points|;
    InterpolateBetween(data.vels[(c.index - 1) % n], data.vels[c.index], l);
  }

  /** With no digits kept, every spliced position is 0 or 1. */
  lemma SpliceNoDigitsPositions(sqrt: SqrtFn, extend: ExtendByFn, intersect: IntersectFn, track: Track, path: seq<PathInput>, k: int)
    requires WellFormedIntersect(intersect) && NonNegativeRoot(sqrt) && 0 <= k < |track.segmentations|
    requires Splice(sqrt, extend, intersect, track, path, Some(0)).Ok?
    ensures var s := Splice(sqrt, extend, intersect, track, path, Some(0)).value.segmentations[k];
            s.pos == Some(0.0) || s.pos == Some(1.0)
  {
    var data := GetPathData(track, path);
    var lines := PathLines(data);
    var c := FindCrossing(track.segmentations[k].AsLine(), lines, extend, intersect, 0).value;
    PositionInUnit(sqrt, track.segmentations[k].AsLine(), c.point);
    RoundUnitToNoDigits(Position(sqrt, track.segmentations[k].AsLine(), c.point).value);
  }

  lemma RoundExamples()
    ensures Round(0.5, 0) == 0.0 && Round(1.5, 0) == 2.0 && Round(0.25, 1) == 0.2 && Round(0.26, 1) == 0.3
  {
    assert DigitScale(1) == 10.0;
    assert (2.5).Floor == 2;
    assert (2.6).Floor == 2;
    assert (1.5).Floor == 1;
    assert (0.5).Floor == 0;
  }
}
