/** Conversion between tracks and the XYRL format (rows `x, y, r, l`: a
    reference point and the right and left widths measured from it). */
module Xyrl {
  import opened Wrappers
  import opened Functional
  import opened Geometry
  import opened Tracks
  import opened Smoother

  /* ---------------- splitting text ---------------- */

  /** `s.split(sep)` for a one-character separator: the pieces between
      separators, always at least one. */
  function Split(s: string, sep: char): (r: seq<string>)
    ensures |r| >= 1
    ensures forall i :: 0 <= i < |r| ==> sep !in r[i]
  {
    SplitFrom(s, sep, 0, 0)
  }

  /** Splitting from `i` with the current piece starting at `start`. */
  function SplitFrom(s: string, sep: char, start: nat, i: nat): (r: seq<string>)
    requires start <= i <= |s| && sep !in s[start..i]
    ensures |r| >= 1
    ensures forall j :: 0 <= j < |r| ==> sep !in r[j]
    decreases |s| - i
  {
    if i == |s| then [s[start..]]
    else if s[i] == sep then [s[start..i]] + SplitFrom(s, sep, i + 1, i + 1)
    else
      assert s[start..i + 1] == s[start..i] + [s[i]];
      SplitFrom(s, sep, start, i + 1)
  }

  /** `sep.join(pieces)`. */
  function Join(pieces: seq<string>, sep: char): string
    requires |pieces| >= 1
  {
    if |pieces| == 1 then pieces[0] else pieces[0] + [sep] + Join(pieces[1..], sep)
  }

  lemma {:induction false} SplitFromJoin(s: string, sep: char, start: nat, i: nat)
    requires start <= i <= |s| && sep !in s[start..i]
    ensures Join(SplitFrom(s, sep, start, i), sep) == s[start..]
    decreases |s| - i
  {
    if i == |s| {
    } else if s[i] == sep {
      SplitFromJoin(s, sep, i + 1, i + 1);
      assert s[start..] == s[start..i] + [sep] + s[i + 1..];
    } else {
      assert s[start..i + 1] == s[start..i] + [s[i]];
      SplitFromJoin(s, sep, start, i + 1);
    }
  }

  /** Splitting loses nothing: joining the pieces back gives the text. */
  lemma SplitJoin(s: string, sep: char)
    ensures Join(Split(s, sep), sep) == s
  {
    SplitFromJoin(s, sep, 0, 0);
  }

  /** Text without the separator is a single piece. */
  lemma SplitNoSeparator(s: string, sep: char)
    requires sep !in s
    ensures Split(s, sep) == [s]
  {
    var i := 0;
    while i < |s|
      invariant 0 <= i <= |s|
      invariant SplitFrom(s, sep, 0, i) == Split(s, sep)
    {
      assert s[0..i + 1] == s[0..i] + [s[i]];
      i := i + 1;
    }
  }

  lemma SplitExample()
    ensures Split("1,2,,3", ',') == ["1", "2", "", "3"]
    ensures Split("", ',') == [""]
  {
    assert Split("", ',') == [""];
    var s := "1,2,,3";
    assert SplitFrom(s, ',', 5, 5) == ["3"] by { assert SplitFrom(s, ',', 5, 6) == [s[5..]]; }
    assert SplitFrom(s, ',', 4, 4) == [""] + ["3"];
    assert SplitFrom(s, ',', 2, 2) == ["2"] + [""] + ["3"] by {
      assert SplitFrom(s, ',', 2, 2) == SplitFrom(s, ',', 2, 3);
      assert s[2..3] == "2";
    }
    assert SplitFrom(s, ',', 0, 0) == ["1"] + ["2", "", "3"] by {
      assert SplitFrom(s, ',', 0, 0) == SplitFrom(s, ',', 0, 1);
      assert s[0..1] == "1";
    }
  }

  /* ---------------- from_xyrl ---------------- */

  datatype XyrlError =
    | AssertionFailed     // not exactly one of `raw` and `data` given
    | NotIterable         // an empty `raw` string falls through to iterating `data = None`
    | NotANumber          // `float(token)` rejected a token
    | MissingColumn       // a row without the `l` column

  /** `float(token)`: Python's float parsing, not modelled; None for a
      rejected token. */
  type ParseFn = string -> Option<real>

  /** `create_line_normals_from_points`: one normal per reference point. */
  type NormalsFn = seq<Point> -> seq<Line>

  ghost predicate NormalPerPoint(create: NormalsFn) {
    forall pts: seq<Point> :: |create(pts)| == |pts|
  }

  /** One XYRL row: reference point, right width, left width. */
  datatype Row = Row(reference: Point, right: real, left: real)

  /** Parses every token of a line; the first rejected token fails it. */
  function ParseTokens(tokens: seq<string>, parse: ParseFn): (r: Option<seq<real>>)
    ensures r.Some? ==> |r.value| == |tokens| && forall i :: 0 <= i < |tokens| ==> parse(tokens[i]) == Some(r.value[i])
    ensures r.None? ==> exists i :: 0 <= i < |tokens| && parse(tokens[i]).None?
  {
    if |tokens| == 0 then Some([])
    else
      match parse(tokens[0])
      case None => None
      case Some(v) =>
        match ParseTokens(tokens[1..], parse)
        case None => None
        case Some(vs) =>
          assert forall i :: 1 <= i < |tokens| ==> tokens[i] == tokens[1..][i - 1];
          Some([v] + vs)
  }

  /** Columns 0 and 1 are the reference point, column 2 the right width and
      column 3 the left width; further columns are ignored. */
  function RowOf(values: seq<real>): (r: Result<Row, XyrlError>)
    ensures r.Ok? <==> |values| >= 4
    ensures r.Ok? ==> r.value == Row(Point(values[0], values[1]), values[2], values[3])
  {
    if |values| < 4 then Err(MissingColumn)
    else Ok(Row(Point(values[0], values[1]), values[2], values[3]))
  }

  /** Lines with at most two comma-separated tokens are skipped. */
  predicate Accepted(line: string) {
    |Split(line, ',')| > 2
  }

  /** The raw-text loop over lines, in order. */
  function ParseLines(lines: seq<string>, parse: ParseFn): (r: Result<seq<Row>, XyrlError>)
    ensures r.Ok? ==> |r.value| == |Filter(lines)|
  {
    if |lines| == 0 then Ok([])
    else
      var tokens := Split(lines[0], ',');
      if |tokens| <= 2 then ParseLines(lines[1..], parse)
      else
        match ParseTokens(tokens, parse)
        case None => Err(NotANumber)
        case Some(values) =>
          match RowOf(values)
          case Err(e) => Err(e)
          case Ok(row) =>
            match ParseLines(lines[1..], parse)
            case Err(e) => Err(e)
            case Ok(rows) => Ok([row] + rows)
  }

  /** The lines that carry a row. */
  function Filter(lines: seq<string>): (r: seq<string>)
    ensures forall i :: 0 <= i < |r| ==> Accepted(r[i])
    ensures forall l :: l in r ==> l in lines
  {
    if |lines| == 0 then []
    else if Accepted(lines[0]) then [lines[0]] + Filter(lines[1..])
    else Filter(lines[1..])
  }

  /** The `data` argument: each row's first four values, any short row
      failing with an index error. */
  function DataRows(data: seq<seq<real>>): (r: Result<seq<Row>, XyrlError>)
    ensures r.Ok? <==> forall i :: 0 <= i < |data| ==> |data[i]| >= 4
    ensures r.Ok? ==> |r.value| == |data| && forall i :: 0 <= i < |data| ==> Ok(r.value[i]) == RowOf(data[i])
  {
    if |data| == 0 then Ok([])
    else
      match RowOf(data[0])
      case Err(e) => Err(e)
      case Ok(row) =>
        match DataRows(data[1..])
        case Err(e) =>
          assert exists i :: 0 <= i < |data[1..]| && |data[1..][i]| < 4;
          Err(e)
        case Ok(rows) =>
          assert forall i :: 1 <= i < |data| ==> data[i] == data[1..][i - 1];
          Ok([row] + rows)
  }

  /** The reference points, in row order. */
  function References(rows: seq<Row>): (r: seq<Point>)
    ensures |r| == |rows| && forall i :: 0 <= i < |rows| ==> r[i] == rows[i].reference
  {
    seq(|rows|, i requires 0 <= i < |rows| => rows[i].reference)
  }

  /** One row's segmentation: the reference point pushed out by the left
      and right widths along the unit directions from it to the normal's
      start and end. */
  function SegmentationOf(row: Row, normal: Line, normalise: NormaliseFn): SegmentationLine {
    var l := Add(Scale(normalise(Sub(normal.start, row.reference)), row.left), row.reference);
    var r := Add(Scale(normalise(Sub(normal.end, row.reference)), row.right), row.reference);
    NewSegmentation(l.x, l.y, r.x, r.y)
  }

  /** One segmentation per row, each built with the normal created for its
      reference point. */
  function Segmentations(rows: seq<Row>, create: NormalsFn, normalise: NormaliseFn): (r: seq<SegmentationLine>)
    requires NormalPerPoint(create)
    ensures |r| == |rows|
  {
    var normals := create(References(rows));
    seq(|rows|, i requires 0 <= i < |rows| => SegmentationOf(rows[i], normals[i], normalise))
  }

  /** `from_xyrl(raw, data, skip_first)`. */
  function FromXyrl(raw: Option<string>, data: Option<seq<seq<real>>>, skipFirst: bool,
                    parse: ParseFn, create: NormalsFn, normalise: NormaliseFn): (r: Result<Track, XyrlError>)
    requires NormalPerPoint(create)
    ensures raw.None? && data.None? ==> r == Err(AssertionFailed)
    ensures raw.Some? && data.Some? ==> r == Err(AssertionFailed)
    ensures raw == Some("") && data.None? ==> r == Err(NotIterable)
    ensures raw.None? && data.Some? ==> (r.Ok? <==> forall i :: 0 <= i < |data.value| ==> |data.value[i]| >= 4)
    ensures raw.None? && r.Ok? ==> |r.value.segmentations| == |data.value|
  {
    if raw.None? && data.None? then Err(AssertionFailed)
    else if raw.Some? && data.Some? then Err(AssertionFailed)
    else
      var rows :- if raw.Some? && raw.value != "" then
                    var lines := Split(raw.value, '\n');
                    ParseLines(if skipFirst then lines[1..] else lines, parse)
                  else if data.None? then Err(NotIterable)
                  else DataRows(data.value);
      Ok(Track(Segmentations(rows, create, normalise)))
  }

  /** The raw path counts one segmentation per accepted line after the
      optional header. */
  lemma FromXyrlRawCount(raw: string, skipFirst: bool, parse: ParseFn, create: NormalsFn, normalise: NormaliseFn)
    requires NormalPerPoint(create) && raw != ""
    ensures var lines := Split(raw, '\n');
            var body := if skipFirst then lines[1..] else lines;
            var r := FromXyrl(Some(raw), None, skipFirst, parse, create, normalise);
            r.Ok? ==> |r.value.segmentations| == |Filter(body)|
  {
  }

  /** The text path and the data path agree: parsing the text's accepted
      lines and handing the numbers over as `data` gives the same track. */
  lemma RawMatchesData(raw: string, skipFirst: bool, parse: ParseFn, create: NormalsFn, normalise: NormaliseFn, data: seq<seq<real>>)
    requires NormalPerPoint(create) && raw != ""
    requires var lines := Split(raw, '\n');
             var body := Filter(if skipFirst then lines[1..] else lines);
             && |data| == |body|
             && forall i :: 0 <= i < |body| ==> ParseTokens(Split(body[i], ','), parse) == Some(data[i])
    ensures FromXyrl(Some(raw), None, skipFirst, parse, create, normalise) == FromXyrl(None, Some(data), skipFirst, parse, create, normalise)
  {
    var lines := Split(raw, '\n');
    var body := if skipFirst then lines[1..] else lines;
    ParseLinesOfParsed(body, parse, data);
  }

  lemma {:induction false} ParseLinesOfParsed(lines: seq<string>, parse: ParseFn, data: seq<seq<real>>)
    requires |data| == |Filter(lines)|
    requires forall i :: 0 <= i < |Filter(lines)| ==> ParseTokens(Split(Filter(lines)[i], ','), parse) == Some(data[i])
    ensures ParseLines(lines, parse) == DataRows(data)
    decreases |lines|
  {
    if |lines| > 0 {
      if Accepted(lines[0]) {
        assert Filter(lines) == [lines[0]] + Filter(lines[1..]);
        assert Filter(lines)[0] == lines[0];
        forall i | 0 <= i < |Filter(lines[1..])|
          ensures ParseTokens(Split(Filter(lines[1..])[i], ','), parse) == Some(data[1..][i])
        {
          assert Filter(lines[1..])[i] == Filter(lines)[i + 1];
        }
        ParseLinesOfParsed(lines[1..], parse, data[1..]);
      } else {
        ParseLinesOfParsed(lines[1..], parse, data);
      }
    }
  }

  /** A zero width pins that end of the segmentation to the reference
      point: column 3 is the left width and column 2 the right width. */
  lemma ZeroWidthsPinEnds(rows: seq<Row>, create: NormalsFn, normalise: NormaliseFn, i: int)
    requires NormalPerPoint(create) && 0 <= i < |rows|
    ensures rows[i].left == 0.0 ==> Segmentations(rows, create, normalise)[i].Left() == rows[i].reference
    ensures rows[i].right == 0.0 ==> Segmentations(rows, create, normalise)[i].Right() == rows[i].reference
  {
    var normal := create(References(rows))[i];
    assert Segmentations(rows, create, normalise)[i] == SegmentationOf(rows[i], normal, normalise);
  }

  /** Widths are taken along the created normal's directions: doubling a
      row's left width doubles the left end's offset from the reference. */
  lemma LeftOffsetScalesWithWidth(rows: seq<Row>, create: NormalsFn, normalise: NormaliseFn, i: int)
    requires NormalPerPoint(create) && 0 <= i < |rows|
    ensures var seg := Segmentations(rows, create, normalise)[i];
            var seg2 := Segmentations(rows[i := rows[i].(left := 2.0 * rows[i].left)], create, normalise)[i];
            Sub(seg2.Left(), rows[i].reference) == Scale(Sub(seg.Left(), rows[i].reference), 2.0)
  {
    var rows2 := rows[i := rows[i].(left := 2.0 * rows[i].left)];
    assert References(rows) == References(rows2);
    var normal := create(References(rows))[i];
    assert Segmentations(rows, create, normalise)[i] == SegmentationOf(rows[i], normal, normalise);
    assert Segmentations(rows2, create, normalise)[i] == SegmentationOf(rows2[i], normal, normalise);
  }

  /* ---------------- to_xyrl ---------------- */

  /** One output row per normal centre: `(x, y, right, left)`, the widths
      being the distances from the centre to the chosen crossings. */
  function Emit(centres: seq<Point>, lefts: seq<Point>, rights: seq<Point>, sqrt: SqrtFn): (r: seq<(real, real, real, real)>)
    requires |lefts| == |centres| && |rights| == |centres|
    ensures |r| == |centres|
    ensures forall i :: 0 <= i < |r| ==> (r[i].0, r[i].1) == (centres[i].x, centres[i].y)
    ensures forall i :: 0 <= i < |r| ==> r[i].2 == Distance(sqrt, centres[i], rights[i]) && r[i].3 == Distance(sqrt, centres[i], lefts[i])
  {
    seq(|centres|, i requires 0 <= i < |centres| =>
      (centres[i].x, centres[i].y, Distance(sqrt, centres[i], rights[i]), Distance(sqrt, centres[i], lefts[i])))
  }

  /** Extends both halves to the track's sides and collapses the crossings
      to one point per normal; `leftCount` is the boundary size given to the
      left collapse, the right collapse being given the right side's size. */
  function SideCrossings(track: Track, leftHalves: seq<Line>, rightHalves: seq<Line>, leftCount: int,
                         sqrt: SqrtFn, intersect: IntersectFn): (r: Result<(seq<Point>, seq<Point>), SmootherError>)
    requires WellFormedIntersect(intersect) && leftCount != 0 && |leftHalves| == |rightHalves|
    ensures r.Ok? ==> |r.value.0| == |leftHalves| && |r.value.1| == |leftHalves|
  {
    var leftCollisions :- ExtendNormalsUntilCollision(leftHalves, track.LeftLine(), 5, sqrt, intersect);
    var rightCollisions :- ExtendNormalsUntilCollision(rightHalves, track.RightLine(), 5, sqrt, intersect);
    assert |track.RightLine()| > 0 by {
      assert IndexesIn(rightCollisions[0].boundaries, |track.RightLine()|);
      assert 0 <= rightCollisions[0].boundaries[0] < |track.RightLine()|;
    }
    Ok((CollapseCollisionPairs(leftHalves, leftCollisions, leftCount, sqrt),
        CollapseCollisionPairs(rightHalves, rightCollisions, |track.RightLine()|, sqrt)))
  }

  /** The half of `to_xyrl` after the path normals are built: smooth them
      (1000 rounds, width 80), split them at their centres, find each half's
      crossing with its side of the track and emit one row per centre. */
  function XyrlRows(track: Track, pathNormals: seq<Line>, leftCount: int, sqrt: SqrtFn, pi: real,
                    angle: AngleFn, normalise: NormaliseFn, intersect: IntersectFn): (r: Result<seq<(real, real, real, real)>, SmootherError>)
    requires WellFormedIntersect(intersect) && leftCount != 0
    ensures r.Ok? ==> |r.value| == |pathNormals|
    ensures r.Ok? ==> forall i :: 0 <= i < |r.value| ==>
              (r.value[i].0, r.value[i].1) == (Center(pathNormals[i]).x, Center(pathNormals[i]).y)
  {
    RowsFromSmoothed(track, pathNormals, SmoothNormals(pathNormals, 1000, 80.0, pi, angle, normalise), leftCount, sqrt, intersect)
  }

  /** The rows once the normals are smoothed; smoothing keeps every
      normal's centre. */
  function RowsFromSmoothed(track: Track, pathNormals: seq<Line>, normals: seq<Line>, leftCount: int,
                            sqrt: SqrtFn, intersect: IntersectFn): (r: Result<seq<(real, real, real, real)>, SmootherError>)
    requires WellFormedIntersect(intersect) && leftCount != 0
    requires |normals| == |pathNormals| && forall i :: 0 <= i < |normals| ==> Center(normals[i]) == Center(pathNormals[i])
    ensures r.Ok? ==> |r.value| == |pathNormals|
    ensures r.Ok? ==> forall i :: 0 <= i < |r.value| ==>
              (r.value[i].0, r.value[i].1) == (Center(pathNormals[i]).x, Center(pathNormals[i]).y)
  {
    var halves := SplitNormals(normals);
    var sides :- SideCrossings(track, halves.0, halves.1, leftCount, sqrt, intersect);
    Ok(Emit(Centers(normals), sides.0, sides.1, sqrt))
  }

  /** `to_xyrl` as written: the left collapse is told the boundary has as
      many segments as there are normals. */
  function ToXyrlAsWritten(track: Track, pathNormals: seq<Line>, sqrt: SqrtFn, pi: real,
                           angle: AngleFn, normalise: NormaliseFn, intersect: IntersectFn): (r: Result<seq<(real, real, real, real)>, SmootherError>)
    requires WellFormedIntersect(intersect)
    ensures |pathNormals| == 0 ==> r == Err(EmptyNormals)
    ensures r.Ok? ==> |r.value| == |pathNormals|
  {
    if |pathNormals| == 0 then Err(EmptyNormals)
    else XyrlRows(track, pathNormals, |pathNormals|, sqrt, pi, angle, normalise, intersect)
  }

  /** `to_xyrl` with the left collapse given the left boundary's own size,
      as the right side is. */
  function ToXyrl(track: Track, pathNormals: seq<Line>, sqrt: SqrtFn, pi: real,
                  angle: AngleFn, normalise: NormaliseFn, intersect: IntersectFn): (r: Result<seq<(real, real, real, real)>, SmootherError>)
    requires WellFormedIntersect(intersect)
    ensures |track.segmentations| == 0 ==> r.Err?
    ensures r.Ok? ==> |r.value| == |pathNormals|
  {
    if |track.segmentations| == 0 then
      if |pathNormals| == 0 then Err(EmptyNormals) else Err(InvalidTrackGeneration)
    else XyrlRows(track, pathNormals, |track.segmentations|, sqrt, pi, angle, normalise, intersect)
  }

  /** What the corrected collapse relies on: every boundary index a half
      normal reports lies on the boundary the count describes, so the gap
      the walk measures between two of them is their distance round that
      boundary. */
  lemma CollapseGapIsCircular(halfNormals: seq<Line>, boundary: seq<Point>, sqrt: SqrtFn, intersect: IntersectFn,
                               c: seq<Collision>, j: int, k: int, previous: int)
    requires WellFormedIntersect(intersect)
    requires ExtendNormalsUntilCollision(halfNormals, boundary, 5, sqrt, intersect) == Ok(c)
    requires 0 <= j < |c| && 0 <= k < |c[j].boundaries| && 0 <= previous < |boundary|
    ensures var b := c[j].boundaries[k];
            var n := |boundary|;
            Delta(PyMod(previous, n), b, n) == if Smoother.Abs(previous - b) <= n - Smoother.Abs(previous - b) then Smoother.Abs(previous - b) else n - Smoother.Abs(previous - b)
  {
    assert IndexesIn(c[j].boundaries, |boundary|);
    ModInRange(previous, |boundary|);
    DeltaIsCircularGap(previous, c[j].boundaries[k], |boundary|);
  }

  /** With a boundary count smaller than the boundary, the walk can leave
      the segment it was following: after segment 5 of a 100-segment
      boundary the next normal, crossing segments 2 and 5, should stay on 5,
      but with a count of 3 (the number of normals) segment 2 looks just as
      close and, coming first, is taken. */
  lemma WrongBoundaryCountLeavesSegment()
    ensures var normals := [Line(Point(0.0, 0.0), Point(0.0, 1.0)), Line(Point(1.0, 0.0), Point(1.0, 1.0)), Line(Point(2.0, 0.0), Point(2.0, 1.0))];
            var cands := [Collision([Point(0.0, 1.0)], [5]),
                          Collision([Point(1.0, 2.0), Point(1.0, 1.0)], [2, 5]),
                          Collision([Point(2.0, 1.0)], [6])];
            && CollapseCollisionPairs(normals, cands, 3, x => x)[1] == Point(1.0, 2.0)
            && CollapseCollisionPairs(normals, cands, 100, x => x)[1] == Point(1.0, 1.0)
  {
    var normals := [Line(Point(0.0, 0.0), Point(0.0, 1.0)), Line(Point(1.0, 0.0), Point(1.0, 1.0)), Line(Point(2.0, 0.0), Point(2.0, 1.0))];
    var c1 := Collision([Point(1.0, 2.0), Point(1.0, 1.0)], [2, 5]);
    var cands := [Collision([Point(0.0, 1.0)], [5]), c1, Collision([Point(2.0, 1.0)], [6])];
    assert FirstSingle(cands, 0) == Some(0);
    ClosestPositionUnique(5, [2, 5], 3, 0);
    ClosestPositionUnique(5, [2, 5], 100, 1);
    assert LastMatchBelow([2, 5], 2, 2) == Some(0);
    assert LastMatchBelow([2, 5], 5, 2) == Some(1);
    assert Pick(c1, 5, 3) == (Point(1.0, 2.0), 2);
    assert Pick(c1, 5, 100) == (Point(1.0, 1.0), 5);
    var p0 := Point(0.0, 0.0);
    var order := VisitOrder(0, 3);
    VisitOrderOnce(0, 3, 1);
    assert order[0] == Slot(0, 3, 0) == 1;
    WalkStep(cands, 3, order, 0, 5, Fill(p0, 3), 1, Point(1.0, 2.0), 2);
    CollapseFromIndexKeeps(0, 5, cands, 3, 1, 2, Fill(p0, 3)[1 := Point(1.0, 2.0)], 1);
    WalkStep(cands, 100, order, 0, 5, Fill(p0, 3), 1, Point(1.0, 1.0), 5);
    CollapseFromIndexKeeps(0, 5, cands, 100, 1, 5, Fill(p0, 3)[1 := Point(1.0, 1.0)], 1);
  }
}
