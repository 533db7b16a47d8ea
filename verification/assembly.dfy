/** Laying per-track blocks out in one array: every transform allocates an
    array with one row per segmentation line of the partition, copies the
    rows of track 0, then those of track 1, and so on, into consecutive
    rows, and copies each track's vehicle vector into the rows of its
    track. */
module Assembly {
  import opened Wrappers
  import opened Functional
  import opened Patching
  import opened Sampling

  /** The array left by the copy loop: the laid-out blocks, cut to `total`
      rows or padded with the array's initial `blank` rows. */
  function Layout<X>(blocks: seq<seq<X>>, blank: X, total: nat): (x: seq<X>)
    ensures |x| == total
  {
    var f := Flatten(blocks);
    if |f| >= total then f[..total] else f + Fill(blank, total - |f|)
  }

  /** The first row of track `i`: the rows of the tracks before it. */
  function Offset<X>(blocks: seq<seq<X>>, i: nat): nat
    requires i <= |blocks|
  {
    |Flatten(blocks[..i])|
  }

  /** Row `ti` of block `i` sits at row `Offset(i) + ti` of the
      concatenation. */
  lemma FlattenAt<X>(blocks: seq<seq<X>>, i: nat, ti: nat)
    requires i < |blocks| && ti < |blocks[i]|
    ensures Offset(blocks, i) + ti < |Flatten(blocks)|
    ensures Flatten(blocks)[Offset(blocks, i) + ti] == blocks[i][ti]
  {
    var before, rest := blocks[..i], blocks[i + 1..];
    assert blocks == before + ([blocks[i]] + rest);
    FlattenAppend(before, [blocks[i]] + rest);
    FlattenAppend([blocks[i]], rest);
    assert Flatten([blocks[i]]) == Flatten([blocks[i]][..0]) + blocks[i];
    assert [blocks[i]][..0] == [];
  }

  /** Blocks are laid out contiguously and in order: row `ti` of track `i`
      is row `Offset(i) + ti` of the array whenever that row exists, and
      rows past every block keep their initial value. */
  lemma LayoutAt<X>(blocks: seq<seq<X>>, blank: X, total: nat, i: nat, ti: nat)
    requires i < |blocks| && ti < |blocks[i]| && Offset(blocks, i) + ti < total
    ensures Layout(blocks, blank, total)[Offset(blocks, i) + ti] == blocks[i][ti]
  {
    FlattenAt(blocks, i, ti);
  }

  lemma LayoutBlank<X>(blocks: seq<seq<X>>, blank: X, total: nat, g: nat)
    requires |Flatten(blocks)| <= g < total
    ensures Layout(blocks, blank, total)[g] == blank
  {
  }

  /** `vehicles[g:g + n] = v` on rows of length `size`: a vector of length
      one is broadcast across the row. */
  function Broadcast(v: seq<real>, size: nat): (r: seq<real>)
    requires |v| == size || |v| == 1
    ensures |r| == size
    ensures forall k :: 0 <= k < size ==> r[k] == if |v| == 1 then v[0] else v[k]
  {
    if |v| == size then v else Fill(v[0], size)
  }

  /** The vehicle rows of every track: vehicle `i` repeated once per line
      of track `i`. */
  function VehicleBlocks(vehicles: seq<seq<real>>, lengths: seq<nat>, size: nat): (r: seq<seq<seq<real>>>)
    requires |lengths| == |vehicles|
    requires forall i :: 0 <= i < |vehicles| ==> |vehicles[i]| == size || |vehicles[i]| == 1
    ensures |r| == |vehicles| && forall i :: 0 <= i < |r| ==> |r[i]| == lengths[i]
  {
    seq(|vehicles|, i requires 0 <= i < |vehicles| => Fill(Broadcast(vehicles[i], size), lengths[i]))
  }

  /** Rows selected by `a[g:g + n]` on an axis of `total` rows. */
  function SliceRows(g: nat, n: nat, total: nat): (m: nat)
    ensures m <= n && (g + n <= total ==> m == n) && (g >= total ==> m == 0)
  {
    if g >= total then 0 else if total - g < n then total - g else n
  }

  /** numpy assigns a block of `n` rows to a slice of `m` rows when the
      counts agree or the block has a single row to broadcast. */
  predicate RowsBroadcast(m: nat, n: nat) {
    m == n || n == 1
  }

  /** The first `i` entries of `lengths`, added up: where track `i` starts. */
  function Start(lengths: seq<nat>, i: nat): nat
    requires i <= |lengths|
  {
    if i == 0 then 0 else Start(lengths, i - 1) + lengths[i - 1]
  }

  lemma {:induction false} StartIsOffset<X>(blocks: seq<seq<X>>, lengths: seq<nat>, i: nat)
    requires |blocks| == |lengths| && i <= |blocks|
    requires forall t :: 0 <= t < |blocks| ==> |blocks[t]| == lengths[t]
    ensures Start(lengths, i) == Offset(blocks, i)
  {
    if i > 0 {
      StartIsOffset(blocks, lengths, i - 1);
      assert blocks[..i] == blocks[..i - 1] + [blocks[i - 1]];
      FlattenAppend(blocks[..i - 1], [blocks[i - 1]]);
      assert Flatten([blocks[i - 1]]) == Flatten([blocks[i - 1]][..0]) + blocks[i - 1];
      assert [blocks[i - 1]][..0] == [];
    }
  }

  /** The vehicle vector of every track broadcasts to a vehicle row. */
  predicate VehiclesBroadcast(vehicles: seq<seq<real>>, size: nat) {
    forall i :: 0 <= i < |vehicles| ==> |vehicles[i]| == size || |vehicles[i]| == 1
  }

  /** How a transform copies a track's block: one row at a time, which
      raises `IndexError` past the end of the array, or as one slice,
      which numpy broadcasts when it can and otherwise refuses with
      `ValueError`. */
  datatype CopyMode = RowByRow | AsSlice

  /** The copy of track `i` goes through: its vehicle broadcasts, its rows
      fit, and any per-method condition on the block's other axes holds. */
  predicate CopyFits(mode: CopyMode, vehicles: seq<seq<real>>, size: nat, lengths: seq<nat>, total: nat,
                     inner: seq<bool>, i: nat)
    requires |lengths| == |vehicles| == |inner| && i < |vehicles|
  {
    && (|vehicles[i]| == size || |vehicles[i]| == 1)
    && inner[i]
    && match mode
       case RowByRow => Start(lengths, i) + lengths[i] <= total
       case AsSlice => RowsBroadcast(SliceRows(Start(lengths, i), lengths[i], total), lengths[i])
  }

  /** The error the copy of track `i` raises: a vehicle that cannot be
      broadcast is a `ValueError`, and so is a block that does not fit,
      except that a row written past the end is an `IndexError`. */
  function CopyTrack(mode: CopyMode, vehicles: seq<seq<real>>, size: nat, lengths: seq<nat>, total: nat,
                     inner: seq<bool>, i: nat): (r: Result<bool, Failure>)
    requires |lengths| == |vehicles| == |inner| && i < |vehicles|
    ensures r.Ok? <==> CopyFits(mode, vehicles, size, lengths, total, inner, i)
    ensures r.Err? && (mode.AsSlice? || !(|vehicles[i]| == size || |vehicles[i]| == 1) || !inner[i]) ==> r.error == ValueError
    ensures r.Err? && mode.RowByRow? && (|vehicles[i]| == size || |vehicles[i]| == 1) && inner[i] ==> r.error == IndexError
  {
    if !(|vehicles[i]| == size || |vehicles[i]| == 1) || !inner[i] then Err(ValueError)
    else if CopyFits(mode, vehicles, size, lengths, total, inner, i) then Ok(true)
    else if mode.RowByRow? then Err(IndexError)
    else Err(ValueError)
  }

  /** The copy checks of every track, in track order. */
  function CopyChecks(mode: CopyMode, vehicles: seq<seq<real>>, size: nat, lengths: seq<nat>, total: nat,
                      inner: seq<bool>): (r: seq<Result<bool, Failure>>)
    requires |lengths| == |vehicles| == |inner|
    ensures |r| == |vehicles|
    ensures forall i :: 0 <= i < |vehicles| ==> r[i] == CopyTrack(mode, vehicles, size, lengths, total, inner, i)
  {
    seq(|vehicles|, i requires 0 <= i < |vehicles| => CopyTrack(mode, vehicles, size, lengths, total, inner, i))
  }

  /** The row counts of the blocks. */
  function Lengths<X>(blocks: seq<seq<X>>): (r: seq<nat>)
    ensures |r| == |blocks| && forall i :: 0 <= i < |blocks| ==> r[i] == |blocks[i]|
  {
    seq(|blocks|, i requires 0 <= i < |blocks| => |blocks[i]|)
  }

  /** The copy loop over every track, in order: the array of `total` rows
      initialised to `blank` receives the blocks, and the vehicle array
      initialised to `vehicleBlank` receives each track's vehicle on the
      rows of that track. The first track that does not fit raises its
      error and later tracks are not looked at. */
  function CopyTracks<X>(mode: CopyMode, vehicles: seq<seq<real>>, size: nat, blocks: seq<seq<X>>, inner: seq<bool>,
                         total: nat, blank: X, vehicleBlank: real): (r: Result<(seq<X>, seq<seq<real>>), Failure>)
    requires |blocks| == |vehicles| == |inner|
    ensures r.Ok? <==> forall i :: 0 <= i < |vehicles| ==>
              CopyFits(mode, vehicles, size, Lengths(blocks), total, inner, i)
    ensures r.Ok? ==> |r.value.0| == total && |r.value.1| == total
    ensures r.Err? ==> exists i :: (&& 0 <= i < |vehicles|
                                   && !CopyFits(mode, vehicles, size, Lengths(blocks), total, inner, i)
                                   && r.error == CopyTrack(mode, vehicles, size, Lengths(blocks), total, inner, i).error
                                   && forall j :: 0 <= j < i ==> CopyFits(mode, vehicles, size, Lengths(blocks), total, inner, j))
  {
    var lengths := Lengths(blocks);
    var checks := CopyChecks(mode, vehicles, size, lengths, total, inner);
    var _ :- AllOk(checks);
    forall i | 0 <= i < |vehicles|
      ensures CopyFits(mode, vehicles, size, lengths, total, inner, i)
      ensures |vehicles[i]| == size || |vehicles[i]| == 1
    {
      assert checks[i].Ok?;
    }
    assert VehiclesBroadcast(vehicles, size);
    Ok((Layout(blocks, blank, total), Layout(VehicleBlocks(vehicles, lengths, size), Fill(vehicleBlank, size), total)))
  }

  /** What a successful copy leaves, as the layout of the blocks and of the
      vehicle rows. */
  lemma CopyTracksLayout<X>(mode: CopyMode, vehicles: seq<seq<real>>, size: nat, blocks: seq<seq<X>>, inner: seq<bool>,
                            total: nat, blank: X, vehicleBlank: real, x: seq<X>, vs: seq<seq<real>>)
    requires |blocks| == |vehicles| == |inner|
    requires CopyTracks(mode, vehicles, size, blocks, inner, total, blank, vehicleBlank) == Ok((x, vs))
    ensures VehiclesBroadcast(vehicles, size)
    ensures x == Layout(blocks, blank, total)
    ensures vs == Layout(VehicleBlocks(vehicles, Lengths(blocks), size), Fill(vehicleBlank, size), total)
  {
    var lengths := Lengths(blocks);
    forall i | 0 <= i < |vehicles| ensures |vehicles[i]| == size || |vehicles[i]| == 1 {
      assert CopyFits(mode, vehicles, size, lengths, total, inner, i);
    }
  }

  /** Row `Start(i) + ti` of a layout is row `ti` of block `i`. */
  lemma LayoutStartAt<X>(blocks: seq<seq<X>>, lengths: seq<nat>, blank: X, total: nat, x: seq<X>, i: nat, ti: nat)
    requires x == Layout(blocks, blank, total)
    requires |lengths| == |blocks| && forall t :: 0 <= t < |blocks| ==> |blocks[t]| == lengths[t]
    requires i < |blocks| && ti < |blocks[i]| && Start(lengths, i) + ti < total
    ensures x[Start(lengths, i) + ti] == blocks[i][ti]
  {
    StartIsOffset(blocks, lengths, i);
    LayoutAt(blocks, blank, total, i, ti);
  }

  /** A block that was copied has its row `ti` inside the array, unless it
      is a single row assigned as a slice past the end. */
  lemma CopiedRowInside(mode: CopyMode, vehicles: seq<seq<real>>, size: nat, lengths: seq<nat>, inner: seq<bool>,
                        total: nat, i: nat, ti: nat)
    requires |lengths| == |vehicles| == |inner| && i < |vehicles| && ti < lengths[i]
    requires CopyFits(mode, vehicles, size, lengths, total, inner, i)
    requires mode.RowByRow? || lengths[i] > 1 || Start(lengths, i) + ti < total
    ensures Start(lengths, i) + ti < total
  {
  }

  /** Row `g` of the copied array is `row` and row `g` of the vehicle
      array is the vehicle `v` broadcast to `size` entries. */
  ghost predicate RowAt<X>(x: seq<X>, vs: seq<seq<real>>, g: int, row: X, v: seq<real>, size: nat) {
    && (|v| == size || |v| == 1)
    && 0 <= g < |x| && g < |vs|
    && x[g] == row && vs[g] == Broadcast(v, size)
  }

  /** After a successful copy, row `Start(i) + ti` holds row `ti` of block
      `i` and the vehicle of track `i`. Every row of a block is inside the
      array, except that a one-row block assigned as a slice past the end
      is dropped without error. */
  lemma CopyTracksRows<X>(mode: CopyMode, vehicles: seq<seq<real>>, size: nat, blocks: seq<seq<X>>, inner: seq<bool>,
                          total: nat, blank: X, vehicleBlank: real, x: seq<X>, vs: seq<seq<real>>, i: nat, ti: nat)
    requires |blocks| == |vehicles| == |inner|
    requires CopyTracks(mode, vehicles, size, blocks, inner, total, blank, vehicleBlank) == Ok((x, vs))
    requires i < |blocks| && ti < |blocks[i]|
    requires mode.RowByRow? || |blocks[i]| > 1 || Start(Lengths(blocks), i) + ti < total
    ensures RowAt(x, vs, Start(Lengths(blocks), i) + ti, blocks[i][ti], vehicles[i], size)
  {
    CopyTracksLayout(mode, vehicles, size, blocks, inner, total, blank, vehicleBlank, x, vs);
    CopiedRowInside(mode, vehicles, size, Lengths(blocks), inner, total, i, ti);
    LaidOutRow(vehicles, size, blocks, total, blank, vehicleBlank, x, vs, i, ti);
  }

  /** Row `Start(i) + ti` of the two layouts, when it is inside them, is
      row `ti` of block `i` and the vehicle of track `i`. */
  lemma LaidOutRow<X>(vehicles: seq<seq<real>>, size: nat, blocks: seq<seq<X>>, total: nat, blank: X, vehicleBlank: real,
                      x: seq<X>, vs: seq<seq<real>>, i: nat, ti: nat)
    requires |blocks| == |vehicles| && VehiclesBroadcast(vehicles, size)
    requires x == Layout(blocks, blank, total)
    requires vs == Layout(VehicleBlocks(vehicles, Lengths(blocks), size), Fill(vehicleBlank, size), total)
    requires i < |blocks| && ti < |blocks[i]| && Start(Lengths(blocks), i) + ti < total
    ensures RowAt(x, vs, Start(Lengths(blocks), i) + ti, blocks[i][ti], vehicles[i], size)
  {
    var lengths := Lengths(blocks);
    LayoutStartAt(blocks, lengths, blank, total, x, i, ti);
    var vb := VehicleBlocks(vehicles, lengths, size);
    LayoutStartAt(vb, lengths, Fill(vehicleBlank, size), total, vs, i, ti);
    assert vb[i][ti] == Broadcast(vehicles[i], size);
  }

  /* ---------------- tracks laid out one after another ---------------- */

  /** The first row of track `i` is the number of lines of the tracks
      before it, so the copy puts row `ti` of track `i` at row
      `|widths[..i]| + ti`. */
  lemma CopiedAtTrackRow<X>(widths: seq<seq<real>>, mode: CopyMode, vehicles: seq<seq<real>>, size: nat,
                            blocks: seq<seq<X>>, inner: seq<bool>, total: nat, blank: X, vehicleBlank: real,
                            x: seq<X>, vs: seq<seq<real>>, i: nat, track: seq<X>, ti: nat)
    requires |blocks| == |vehicles| == |inner| && i < |blocks| && i <= |widths| && blocks[i] == track && ti < |track|
    requires forall t :: 0 <= t < i ==> |blocks[t]| == |widths[t]|
    requires CopyTracks(mode, vehicles, size, blocks, inner, total, blank, vehicleBlank) == Ok((x, vs))
    requires mode.RowByRow? || |blocks[i]| > 1 || |Flatten(widths[..i])| + ti < total
    ensures RowAt(x, vs, |Flatten(widths[..i])| + ti, track[ti], vehicles[i], size)
  {
    StartIsOffset(blocks, Lengths(blocks), i);
    FlattenSameShape(blocks[..i], widths[..i]);
    CopyTracksRows(mode, vehicles, size, blocks, inner, total, blank, vehicleBlank, x, vs, i, ti);
  }


  /* ---------------- right-aligned patch rows ---------------- */

  /** `math.ceil(a / b)` for a track length `a`: a zero divisor raises. */
  function PyCeilDiv(a: nat, b: int): (r: Result<int, Failure>)
    ensures b == 0 ==> r == Err(ZeroDivision)
    ensures b != 0 ==> r.Ok?
    ensures b > 0 ==> r == Ok(CeilDivInt(a, b))
    ensures b < 0 && r.Ok? ==> r.value <= 0 && r.value * b <= a < (r.value - 1) * b
  {
    if b == 0 then Err(ZeroDivision)
    else if b > 0 then Ok(CeilDivInt(a, b))
    else
      var q := a / -b;
      assert q * -b <= a < q * -b + -b;
      Ok(-q)
  }

  /** Whether `x[..., -len:]` on an axis of `target` entries can take a
      block of `len` entries: `-0:` selects the whole axis, a longer block
      is clipped to the axis, and a single entry broadcasts. */
  predicate AlignFits(len: nat, target: nat) {
    var taken := if len == 0 then target else if len < target then len else target;
    taken == len || len == 1
  }

  /** The axis after `x[..., -len(block):] = block` on an axis of `target`
      rows of `width` entries of -1: the block right-aligned behind -1 rows. */
  function RightAlign(block: seq<seq<real>>, target: nat, width: nat): (r: seq<seq<real>>)
    ensures |r| == target
    ensures IsMatrix(block, width) ==> IsMatrix(r, width)
    ensures |block| <= target ==> r[target - |block|..] == block
    ensures |block| <= target ==> forall k :: 0 <= k < target - |block| ==> r[k] == Fill(-1.0, width)
    ensures |block| > target ==> r == block[|block| - target..]
  {
    if |block| <= target then Fill(Fill(-1.0, width), target - |block|) + block
    else block[|block| - target..]
  }

  /** The number of patches of a track of `n` lines. */
  lemma PatchCount(window: seq<seq<real>>, cols: nat, p: int)
    requires p >= 1 && IsMatrix(window, cols)
    ensures Patchify(window, cols, p).Ok?
    ensures |Patchify(window, cols, p).value| == CeilDivInt(|window|, p)
    ensures IsMatrix(Patchify(window, cols, p).value, cols * p)
  {
    var c := CeilDivInt(|window|, p);
    if p == 1 {
      assert c == |window|;
    } else {
      var q := CeilDiv(|window|, p);
      assert q * p >= |window| && (q == 0 || (q - 1) * p < |window|);
      if q > c {
        MulMono(c, q - 1, p);
      } else if q < c {
        MulMono(q, c - 1, p);
      }
    }
  }

  /** One encoded track: the number of patch rows of its array and one
      entry of that many patch rows per segmentation line. */
  datatype Encoded = Encoded(patches: nat, lines: seq<seq<seq<real>>>)

  /** The lines of an encoded track as rows of the whole array: each
      line's patch rows right-aligned in `rows` rows of -1. */
  function AlignedLines(e: Encoded, rows: nat, width: nat): (block: seq<seq<seq<real>>>)
    ensures |block| == |e.lines|
    ensures forall ti :: 0 <= ti < |e.lines| ==> block[ti] == RightAlign(e.lines[ti], rows, width)
  {
    seq(|e.lines|, ti requires 0 <= ti < |e.lines| => RightAlign(e.lines[ti], rows, width))
  }

  /** Every track's lines, aligned. */
  function AlignedTracks(encs: seq<Encoded>, rows: nat, width: nat): (blocks: seq<seq<seq<seq<real>>>>)
    ensures |blocks| == |encs|
    ensures forall i :: 0 <= i < |encs| ==> blocks[i] == AlignedLines(encs[i], rows, width)
  {
    seq(|encs|, i requires 0 <= i < |encs| => AlignedLines(encs[i], rows, width))
  }

  /** Whether each track's patch rows fit the array's patch axis. */
  function TracksFit(encs: seq<Encoded>, rows: nat): (fits: seq<bool>)
    ensures |fits| == |encs|
    ensures forall i :: 0 <= i < |encs| ==> (fits[i] <==> AlignFits(encs[i].patches, rows))
  {
    seq(|encs|, i requires 0 <= i < |encs| => AlignFits(encs[i].patches, rows))
  }

  /** The copy of the aligned tracks puts line `ni` of track `i` at row
      `|widths[..i]| + ni`. */
  lemma AlignedRowAt(widths: seq<seq<real>>, vehicles: seq<seq<real>>, encs: seq<Encoded>, rows: nat, width: nat,
                     total: nat, x: seq<seq<seq<real>>>, vs: seq<seq<real>>, i: nat, e: Encoded, ni: nat)
    requires |encs| == |vehicles| && i < |encs| && i <= |widths| && encs[i] == e && ni < |e.lines|
    requires forall t :: 0 <= t < i ==> |encs[t].lines| == |widths[t]|
    requires CopyTracks(AsSlice, vehicles, |vehicles[0]|, AlignedTracks(encs, rows, width), TracksFit(encs, rows),
                        total, Fill(Fill(-1.0, width), rows), 0.0) == Ok((x, vs))
    requires |e.lines| > 1 || |Flatten(widths[..i])| + ni < total
    ensures RowAt(x, vs, |Flatten(widths[..i])| + ni, RightAlign(e.lines[ni], rows, width), vehicles[i], |vehicles[0]|)
  {
    var blocks := AlignedTracks(encs, rows, width);
    assert blocks[i][ni] == RightAlign(e.lines[ni], rows, width);
    CopiedAtTrackRow(widths, AsSlice, vehicles, |vehicles[0]|, blocks, TracksFit(encs, rows), total,
                     Fill(Fill(-1.0, width), rows), 0.0, x, vs, i, blocks[i], ni);
  }
}
