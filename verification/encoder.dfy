/** Encoding a spliced track into a partition: per-normal feature rows
    (widths, angles, offsets) and targets (positions, velocities), with an
    optional mirror image of the track. */
module Encoder {
  import opened Wrappers
  import opened Functional
  import opened Geometry
  import opened Tracks

  /** A vehicle as the encoder sees it: a dictionary of numeric values,
      given as its items in insertion order (Python dictionaries are
      ordered, and the order decides which key wins when two keys agree
      once lower-cased). */
  type VehicleDict = seq<(string, real)>

  /** A batch of encoded tracks: one vehicle and one row of every field per
      track. */
  datatype Partition = Partition(
    vehicles: seq<VehicleDict>,
    widths: seq<seq<real>>, angles: seq<seq<real>>, offsets: seq<seq<real>>,
    positions: seq<seq<real>>, velocities: seq<seq<real>>)

  function EmptyPartition(): Partition {
    Partition([], [], [], [], [], [])
  }

  /** Field-wise concatenation. */
  function Append(a: Partition, b: Partition): Partition {
    Partition(a.vehicles + b.vehicles, a.widths + b.widths, a.angles + b.angles, a.offsets + b.offsets,
              a.positions + b.positions, a.velocities + b.velocities)
  }

  /** `Partition.combine(partitions)`: each field appended in turn, in
      partition order. */
  function Combine(ps: seq<Partition>): (r: Partition)
    ensures |ps| == 0 ==> r == EmptyPartition()
    ensures |ps| == 1 ==> r == ps[0]
  {
    if |ps| == 0 then EmptyPartition() else Append(Combine(ps[..|ps| - 1]), ps[|ps| - 1])
  }

  /** The field `f` of every partition, in order. */
  function Widths(ps: seq<Partition>): (r: seq<seq<seq<real>>>)
    ensures |r| == |ps| && forall i :: 0 <= i < |ps| ==> r[i] == ps[i].widths
  {
    seq(|ps|, i requires 0 <= i < |ps| => ps[i].widths)
  }

  function Vehicles(ps: seq<Partition>): (r: seq<seq<VehicleDict>>)
    ensures |r| == |ps| && forall i :: 0 <= i < |ps| ==> r[i] == ps[i].vehicles
  {
    seq(|ps|, i requires 0 <= i < |ps| => ps[i].vehicles)
  }

  lemma {:induction false} FlattenSnoc<T>(rows: seq<seq<T>>)
    requires |rows| > 0
    ensures Flatten(rows) == Flatten(rows[..|rows| - 1]) + rows[|rows| - 1]
  {
    FlattenAppend(rows[..|rows| - 1], [rows[|rows| - 1]]);
    assert rows == rows[..|rows| - 1] + [rows[|rows| - 1]];
    assert Flatten([rows[|rows| - 1]]) == rows[|rows| - 1] + Flatten([]);
  }

  /** Combining concatenates each field in partition order (shown for the
      vehicles and the widths; the other fields are built alike). */
  lemma {:induction false} CombineConcatenates(ps: seq<Partition>)
    ensures Combine(ps).vehicles == Flatten(Vehicles(ps))
    ensures Combine(ps).widths == Flatten(Widths(ps))
  {
    if |ps| > 0 {
      var init := ps[..|ps| - 1];
      CombineConcatenates(init);
      assert Vehicles(ps)[..|ps| - 1] == Vehicles(init);
      assert Widths(ps)[..|ps| - 1] == Widths(init);
      FlattenSnoc(Vehicles(ps));
      FlattenSnoc(Widths(ps));
    }
  }

  /** Combining a list split in two appends the two halves' combines. */
  lemma {:induction false} CombineSplit(a: seq<Partition>, b: seq<Partition>)
    ensures Combine(a + b) == Append(Combine(a), Combine(b))
    decreases |b|
  {
    if |b| == 0 {
      assert a + b == a;
      AppendEmpty(Combine(a));
    } else {
      var b' := b[..|b| - 1];
      var last := b[|b| - 1];
      CombineSplit(a, b');
      assert (a + b)[..|a + b| - 1] == a + b';
      assert (a + b)[|a + b| - 1] == last;
      assert Combine(a + b) == Append(Combine(a + b'), last);
      AppendAssociative(Combine(a), Combine(b'), last);
    }
  }

  lemma AppendAssociative(x: Partition, y: Partition, z: Partition)
    ensures Append(Append(x, y), z) == Append(x, Append(y, z))
  {
    assert (x.vehicles + y.vehicles) + z.vehicles == x.vehicles + (y.vehicles + z.vehicles);
    assert (x.widths + y.widths) + z.widths == x.widths + (y.widths + z.widths);
    assert (x.angles + y.angles) + z.angles == x.angles + (y.angles + z.angles);
    assert (x.offsets + y.offsets) + z.offsets == x.offsets + (y.offsets + z.offsets);
    assert (x.positions + y.positions) + z.positions == x.positions + (y.positions + z.positions);
    assert (x.velocities + y.velocities) + z.velocities == x.velocities + (y.velocities + z.velocities);
  }

  lemma AppendEmpty(x: Partition)
    ensures Append(x, EmptyPartition()) == x && Append(EmptyPartition(), x) == x
  {
    assert x.vehicles + [] == x.vehicles && [] + x.vehicles == x.vehicles;
    assert x.widths + [] == x.widths && [] + x.widths == x.widths;
    assert x.angles + [] == x.angles && [] + x.angles == x.angles;
    assert x.offsets + [] == x.offsets && [] + x.offsets == x.offsets;
    assert x.positions + [] == x.positions && [] + x.positions == x.positions;
    assert x.velocities + [] == x.velocities && [] + x.velocities == x.velocities;
  }

  /** ... which is the combine of the two combines. */
  lemma CombineOfCombines(a: seq<Partition>, b: seq<Partition>)
    ensures Combine(a + b) == Combine([Combine(a), Combine(b)])
  {
    CombineSplit(a, b);
    var two := [Combine(a), Combine(b)];
    assert two[..1] == [Combine(a)];
    assert [Combine(a)][..0] == [];
    assert Combine([Combine(a)]) == Append(EmptyPartition(), Combine(a));
    AppendEmpty(Combine(a));
  }

  /** The empty combine is the empty partition; a single partition combines
      to itself. */
  lemma CombineUnit(p: Partition)
    ensures Combine([]) == EmptyPartition()
    ensures Combine([p]) == p
  {
    assert [p][..0] == [];
    AppendEmpty(p);
  }

  /** The fields' lengths add up. */
  lemma CombineLengths(a: seq<Partition>, b: seq<Partition>)
    ensures |Combine(a + b).vehicles| == |Combine(a).vehicles| + |Combine(b).vehicles|
    ensures |Combine(a + b).widths| == |Combine(a).widths| + |Combine(b).widths|
    ensures |Combine(a + b).velocities| == |Combine(a).velocities| + |Combine(b).velocities|
  {
    CombineSplit(a, b);
  }

  /* ---------------- encoding one track ---------------- */

  datatype EncoderInput = EncoderInput(track: Track, vehicle: VehicleDict, flip: bool)

  datatype EncodeError = TypeError   // flipping a segmentation without a position

  /** Mirrors a segmentation in the x-axis, swapping its ends so that left
      stays left: `(x1, y1, x2, y2)` becomes `(x2, -y2, x1, -y1)` and the
      position `p` becomes `1 - p`. */
  function Flip(s: SegmentationLine): (r: Result<SegmentationLine, EncodeError>)
    ensures r.Ok? <==> s.pos.Some?
    ensures r.Ok? ==> r.value.Arr() == [s.x2, -s.y2, s.x1, -s.y1] && r.value.pos == Some(1.0 - s.pos.value)
    ensures r.Ok? ==> r.value.vel == s.vel && r.value.acc == s.acc
  {
    if s.pos.None? then Err(TypeError)
    else Ok(s.(x1 := s.x2, y1 := -s.y2, x2 := s.x1, y2 := -s.y1, pos := Some(1.0 - s.pos.value)))
  }

  /** Flipping twice restores the segmentation exactly. */
  lemma FlipInvolution(s: SegmentationLine)
    requires s.pos.Some?
    ensures Flip(Flip(s).value) == Ok(s)
  {
  }

  /** Flipping keeps the width of every segmentation. */
  lemma FlipKeepsLength(s: SegmentationLine, sqrt: SqrtFn)
    requires s.pos.Some?
    ensures Flip(s).value.Length(sqrt) == s.Length(sqrt)
  {
    var f := Flip(s).value;
    assert SquaredDistance(f.Left(), f.Right()) == SquaredDistance(s.Left(), s.Right());
  }

  /** Every segmentation flipped, in order; the first without a position
      raises. */
  function FlipAll(lines: seq<SegmentationLine>): (r: Result<seq<SegmentationLine>, EncodeError>)
    ensures r.Ok? <==> forall i :: 0 <= i < |lines| ==> lines[i].pos.Some?
    ensures r.Ok? ==> |r.value| == |lines| && forall i :: 0 <= i < |lines| ==> Ok(r.value[i]) == Flip(lines[i])
  {
    if |lines| == 0 then Ok([])
    else
      var first :- Flip(lines[0]);
      var rest :- FlipAll(lines[1..]);
      assert forall i :: 1 <= i < |lines| ==> lines[i] == lines[1..][i - 1];
      Ok([first] + rest)
  }

  /** `extract_features`' angle and offset rows, from compiled geometry. */
  type AnglesFn = seq<SegmentationLine> -> (seq<real>, seq<real>)

  ghost predicate RowPerLine(angles: AnglesFn) {
    forall lines: seq<SegmentationLine> :: |angles(lines).0| == |lines| && |angles(lines).1| == |lines|
  }

  /** The width row: every segmentation's length. */
  function WidthRow(lines: seq<SegmentationLine>, sqrt: SqrtFn): (r: seq<real>)
    ensures |r| == |lines| && forall i :: 0 <= i < |lines| ==> r[i] == lines[i].Length(sqrt)
  {
    seq(|lines|, i requires 0 <= i < |lines| => lines[i].Length(sqrt))
  }

  /** `encode(input)`: flip if asked, then one row per feature and target;
      a missing or zero position or velocity is written as -1. */
  function Encode(input: EncoderInput, sqrt: SqrtFn, angles: AnglesFn): (r: Result<Partition, EncodeError>)
    requires RowPerLine(angles)
    ensures !input.flip ==> r.Ok?
    ensures r.Ok? ==> r.value.vehicles == [input.vehicle]
    ensures r.Ok? ==> var n := |input.track.segmentations|;
              && |r.value.widths| == 1 && |r.value.widths[0]| == n
              && |r.value.angles| == 1 && |r.value.angles[0]| == n
              && |r.value.offsets| == 1 && |r.value.offsets[0]| == n
              && |r.value.positions| == 1 && |r.value.positions[0]| == n
              && |r.value.velocities| == 1 && |r.value.velocities[0]| == n
  {
    var lines :- if input.flip then FlipAll(input.track.segmentations) else Ok(input.track.segmentations);
    var features := angles(lines);
    Ok(Partition([input.vehicle], [WidthRow(lines, sqrt)], [features.0], [features.1],
                 [seq(|lines|, i requires 0 <= i < |lines| => OrDefault(lines[i].pos, -1.0))],
                 [seq(|lines|, i requires 0 <= i < |lines| => OrDefault(lines[i].vel, -1.0))]))
  }

  /** A flipped encoding keeps the widths and velocities and mirrors every
      position `p` to `1 - p` (written as -1 when that is 0). */
  lemma EncodeFlipped(track: Track, vehicle: VehicleDict, sqrt: SqrtFn, angles: AnglesFn, i: int)
    requires RowPerLine(angles) && 0 <= i < |track.segmentations|
    requires forall k :: 0 <= k < |track.segmentations| ==> track.segmentations[k].pos.Some?
    ensures var plain := Encode(EncoderInput(track, vehicle, false), sqrt, angles);
            var flipped := Encode(EncoderInput(track, vehicle, true), sqrt, angles);
            var p := track.segmentations[i].pos.value;
            && flipped.Ok?
            && flipped.value.widths[0][i] == plain.value.widths[0][i]
            && flipped.value.velocities[0][i] == plain.value.velocities[0][i]
            && flipped.value.positions[0][i] == (if p == 1.0 then -1.0 else 1.0 - p)
  {
    var lines := FlipAll(track.segmentations).value;
    assert Ok(lines[i]) == Flip(track.segmentations[i]);
    FlipKeepsLength(track.segmentations[i], sqrt);
    var flipped := Encode(EncoderInput(track, vehicle, true), sqrt, angles).value;
    var plain := Encode(EncoderInput(track, vehicle, false), sqrt, angles).value;
    assert flipped.widths[0] == WidthRow(lines, sqrt);
    assert plain.widths[0] == WidthRow(track.segmentations, sqrt);
    assert flipped.positions[0][i] == OrDefault(lines[i].pos, -1.0);
    assert flipped.velocities[0][i] == OrDefault(lines[i].vel, -1.0);
  }

  /** Positions and velocities use Python's `or`: a stored 0 is written as
      -1 just like a missing value. */
  lemma EncodeZeroIsMissing(track: Track, vehicle: VehicleDict, sqrt: SqrtFn, angles: AnglesFn, i: int)
    requires RowPerLine(angles) && 0 <= i < |track.segmentations|
    requires track.segmentations[i].pos == Some(0.0) || track.segmentations[i].pos.None?
    ensures Encode(EncoderInput(track, vehicle, false), sqrt, angles).value.positions[0][i] == -1.0
  {
    var lines := track.segmentations;
    assert Encode(EncoderInput(track, vehicle, false), sqrt, angles).value.positions[0]
        == seq(|lines|, k requires 0 <= k < |lines| => OrDefault(lines[k].pos, -1.0));
  }
}
