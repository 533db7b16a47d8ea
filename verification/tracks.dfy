/** The track data model: a track is a list of segmentation lines (normals),
    each running from its left end `(x1, y1)` to its right end `(x2, y2)`,
    optionally carrying the racing line's position, velocity and
    acceleration on it. */
module Tracks {
  import opened Wrappers
  import opened Geometry

  datatype SegmentationLine = SegmentationLine(
    x1: real, y1: real, x2: real, y2: real,
    pos: Option<real>, vel: Option<real>, acc: Option<real>)
  {
    /** `arr()`: the four coordinates. */
    function Arr(): (r: seq<real>)
      ensures |r| == 4 && r[0] == x1 && r[1] == y1 && r[2] == x2 && r[3] == y2
    {
      [x1, y1, x2, y2]
    }

    function Left(): Point { Point(x1, y1) }
    function Right(): Point { Point(x2, y2) }
    function AsLine(): Line { Line(Left(), Right()) }

    /** `length`: `hypot(y1 - y2, x1 - x2)`, the square root (an oracle) of
        the sum of the squared coordinate differences. */
    function Length(sqrt: SqrtFn): real {
      Distance(sqrt, Left(), Right())
    }
  }

  /** A segmentation line built from coordinates alone: `pos`, `vel` and
      `acc` default to None. */
  function NewSegmentation(x1: real, y1: real, x2: real, y2: real): (s: SegmentationLine)
    ensures s.pos.None? && s.vel.None? && s.acc.None?
    ensures s.Arr() == [x1, y1, x2, y2]
  {
    SegmentationLine(x1, y1, x2, y2, None, None, None)
  }

  lemma LengthNonNegative(s: SegmentationLine, sqrt: SqrtFn)
    requires NonNegativeRoot(sqrt)
    ensures s.Length(sqrt) >= 0.0
  {
  }

  /** Swapping the two ends leaves the length unchanged. */
  lemma LengthSwapInvariant(s: SegmentationLine, sqrt: SqrtFn)
    ensures s.(x1 := s.x2, y1 := s.y2, x2 := s.x1, y2 := s.y1).Length(sqrt) == s.Length(sqrt)
  {
    DistanceSymmetric(sqrt, s.Left(), s.Right());
  }

  datatype Track = Track(segmentations: seq<SegmentationLine>)
  {
    /** `midline()`: the centre of every segmentation, in order. */
    function Midline(): (r: seq<Point>)
      ensures |r| == |segmentations|
    {
      seq(|segmentations|, i requires 0 <= i < |segmentations| =>
        Point((segmentations[i].x1 + segmentations[i].x2) / 2.0, (segmentations[i].y1 + segmentations[i].y2) / 2.0))
    }

    /** `left_line()`: the left end of every segmentation, in order. */
    function LeftLine(): (r: seq<Point>)
      ensures |r| == |segmentations|
      ensures forall i :: 0 <= i < |r| ==> r[i] == segmentations[i].Left()
    {
      seq(|segmentations|, i requires 0 <= i < |segmentations| => Point(segmentations[i].x1, segmentations[i].y1))
    }

    /** `right_line()`: the right end of every segmentation, in order. */
    function RightLine(): (r: seq<Point>)
      ensures |r| == |segmentations|
      ensures forall i :: 0 <= i < |r| ==> r[i] == segmentations[i].Right()
    {
      seq(|segmentations|, i requires 0 <= i < |segmentations| => Point(segmentations[i].x2, segmentations[i].y2))
    }
  }

  /** The midline runs halfway between the left and right lines, and is the
      centre of each segmentation seen as a segment. */
  lemma MidlineBetweenSides(t: Track, i: int)
    requires 0 <= i < |t.segmentations|
    ensures t.Midline()[i] == Scale(Add(t.LeftLine()[i], t.RightLine()[i]), 0.5)
    ensures t.Midline()[i] == Center(t.segmentations[i].AsLine())
    ensures t.Midline()[i] == Lerp(t.LeftLine()[i], t.RightLine()[i], 0.5)
  {
  }
}
