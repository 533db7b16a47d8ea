/** The bidirectional history transform: every segmentation line is given
    the whole track twice, once running forwards from the line after it
    and once running backwards from the line before it, both ending on the
    line itself, grouped into patches and right-aligned in rows of -1. */
module Bidirectional {
  import opened Wrappers
  import opened Functional
  import opened Patching
  import opened Normalisation
  import opened Sampling
  import opened Desampling
  import opened Assembly
  import opened Windows

  /* ---------------- one line's window ---------------- */

  /** `track[::-1]`. */
  function Reversed<T>(s: seq<T>): (r: seq<T>)
    ensures |r| == |s| && forall i :: 0 <= i < |s| ==> r[i] == s[|s| - 1 - i]
  {
    seq(|s|, i requires 0 <= i < |s| => s[|s| - 1 - i])
  }

  /** The window of line `ni`: `np.roll(track, -ni - 1)` beside
      `np.roll(track[::-1], ni)`, row by row. */
  function BidirectionalWindow(track: seq<seq<real>>, ni: int): (w: seq<seq<real>>)
    ensures |w| == |track|
    ensures forall k :: 0 <= k < |track| ==>
              w[k] == track[(ni + 1 + k) % |track|] + track[(ni - 1 - k) % |track|]
  {
    var m := |track|;
    var history := Roll(track, -ni - 1);
    var reversedHistory := Roll(Reversed(track), ni);
    var w := seq(m, k requires 0 <= k < m => history[k] + reversedHistory[k]);
    forall k | 0 <= k < m
      ensures w[k] == track[(ni + 1 + k) % m] + track[(ni - 1 - k) % m]
    {
      RollAt(track, -ni - 1, k);
      assert k - (-ni - 1) == ni + 1 + k;
      RollAt(Reversed(track), ni, k);
      ReversedIndex(k - ni, m);
      assert m - 1 - (k - ni) == (ni - 1 - k) + 1 * m;
      ModAddMultiple(ni - 1 - k, 1, m);
    }
    w
  }

  /** Reading the reversed track at a rolled index is reading the track at
      the mirrored index. */
  lemma ReversedIndex(a: int, m: int)
    requires m > 0
    ensures m - 1 - a % m == (m - 1 - a) % m
  {
    var r := a % m;
    assert a == (a / m) * m + r;
    assert m - 1 - a == (-(a / m)) * m + (m - 1 - r);
    ModUnique(m - 1 - a, m, -(a / m), m - 1 - r);
  }

  /** Both halves of the window end on the line itself, and its rows are
      one vector of every input for each half. */
  lemma WindowEndsOnLine(track: seq<seq<real>>, cols: nat, ni: int)
    requires |track| > 0 && IsMatrix(track, cols) && 0 <= ni < |track|
    ensures IsMatrix(BidirectionalWindow(track, ni), 2 * cols)
    ensures BidirectionalWindow(track, ni)[|track| - 1] == track[ni] + track[ni]
  {
    var m := |track|;
    ModUnique(ni + 1 + (m - 1), m, 1, ni);
    ModUnique(ni - 1 - (m - 1), m, -1, ni);
  }

  /** The forward half of row `k` and the backward half of row `m - 2 - k`
      are the same line: the two halves walk the track in opposite
      directions. */
  lemma WindowHalvesMirror(track: seq<seq<real>>, ni: int, k: int)
    requires |track| > 0 && 0 <= k < |track| - 1
    ensures var m := |track|;
      track[(ni + 1 + k) % m] == track[(ni - 1 - (m - 2 - k)) % m]
  {
    var m := |track|;
    assert ni - 1 - (m - 2 - k) == (ni + 1 + k) + (-1) * m;
    ModAddMultiple(ni + 1 + k, -1, m);
  }

  /* ---------------- one track ---------------- */

  /** The entries of a bidirectional row: `2 * len(inputs) * p`, both
      directions of every input for each line of a patch. */
  function PairedWidth(inputs: nat, p: int): (w: int)
    ensures p >= 0 ==> w >= 0
  {
    2 * inputs * p
  }

  /** `_bidirectional_transform`: `track_length` lines, each the patched
      window of that line right-aligned in `ceil(track_length / p)` rows of
      `2 * len(inputs) * p` entries of -1. The inputs are stacked as columns
      first; a negative dimension, a window with more patches than the
      array has rows, or an empty window for a non-empty track raises. */
  function BidirectionalTrack(d: NormalisedData, inputs: seq<string>, p: int, t: nat): (r: Result<Encoded, Failure>)
    ensures TrackLen(d, t).Err? ==> r == Err(TrackLen(d, t).error)
    ensures TrackLen(d, t).Ok? && p == 0 ==> r == Err(ZeroDivision)
    ensures r.Ok? ==> TrackLen(d, t).Ok? && |r.value.lines| == TrackLen(d, t).value
    ensures r.Ok? && |r.value.lines| > 0 ==>
              && p >= 1 && |inputs| > 0 && r.value.patches == CeilDivInt(|r.value.lines|, p)
              && forall ni :: 0 <= ni < |r.value.lines| ==> IsMatrix(r.value.lines[ni], PairedWidth(|inputs|, p))
  {
    var n :- TrackLen(d, t);
    var rows :- PyCeilDiv(n, p);
    var width := PairedWidth(|inputs|, p);
    if rows < 0 || width < 0 then Err(ValueError)
    else
      var ins :- InputTracks(d, inputs, t);
      var track :- Combine(ins);
      if n == 0 then Ok(Encoded(rows, []))
      else
        assert p >= 1;
        var window := BidirectionalWindow(track, 0);
        assert IsMatrix(window, 2 * |inputs|);
        PatchCount(window, 2 * |inputs|, p);
        var len := |Patchify(window, 2 * |inputs|, p).value|;
        if !AlignFits(len, rows) then Err(ValueError)
        else Ok(Encoded(rows, BidirectionalLines(track, |inputs|, p, rows, n)))
  }

  /** The entries of the first `n` lines. */
  function BidirectionalLines(track: seq<seq<real>>, cols: nat, p: int, rows: nat, n: nat): (lines: seq<seq<seq<real>>>)
    requires p >= 1 && IsMatrix(track, cols)
    ensures |lines| == n
    ensures forall ni :: 0 <= ni < n ==> lines[ni] == BidirectionalLine(track, cols, p, rows, ni)
    ensures forall ni :: 0 <= ni < n ==> IsMatrix(lines[ni], 2 * cols * p)
  {
    seq(n, ni requires 0 <= ni < n => BidirectionalLine(track, cols, p, rows, ni))
  }

  /** The entry of line `ni`: its patched window, right-aligned. */
  function BidirectionalLine(track: seq<seq<real>>, cols: nat, p: int, rows: nat, ni: int): (line: seq<seq<real>>)
    requires p >= 1 && IsMatrix(track, cols)
    ensures |line| == rows && IsMatrix(line, 2 * cols * p)
  {
    var window := BidirectionalWindow(track, ni);
    WindowShape(track, cols, ni);
    PatchCount(window, 2 * cols, p);
    RightAlign(Patchify(window, 2 * cols, p).value, rows, 2 * cols * p)
  }

  /** A window has both halves of every row: twice the columns. */
  lemma WindowShape(track: seq<seq<real>>, cols: nat, ni: int)
    requires IsMatrix(track, cols)
    ensures IsMatrix(BidirectionalWindow(track, ni), 2 * cols)
  {
    var w := BidirectionalWindow(track, ni);
    var m := |track|;
    forall k | 0 <= k < m
      ensures |w[k]| == 2 * cols
    {
      var a, b := (ni + 1 + k) % m, (ni - 1 - k) % m;
      assert |track[a]| == cols && |track[b]| == cols;
    }
  }

  /** Read as one vector, the entry of line `ni` of a track of `n` lines is
      -1 padding followed by the forward and backward history of every
      line of the window, in order. */
  lemma BidirectionalLineFlattens(track: seq<seq<real>>, cols: nat, p: int, ni: int)
    requires p >= 1 && IsMatrix(track, cols) && |track| > 0
    ensures var rows := CeilDivInt(|track|, p);
            var window := BidirectionalWindow(track, ni);
            var pad := StartPadding(|track|, p);
      Flatten(BidirectionalLine(track, cols, p, rows, ni)) == Fill(-1.0, pad * (2 * cols)) + Flatten(window)
  {
    var rows := CeilDivInt(|track|, p);
    var window := BidirectionalWindow(track, ni);
    PatchCount(window, 2 * cols, p);
    var patched := Patchify(window, 2 * cols, p).value;
    assert |patched| == rows;
    assert RightAlign(patched, rows, 2 * cols * p) == Fill(Fill(-1.0, 2 * cols * p), 0) + patched;
    assert Fill(Fill(-1.0, 2 * cols * p), 0) + patched == patched;
    if p == 1 {
      assert StartPadding(|track|, 1) == 0;
      assert Fill(-1.0, 0) + Flatten(window) == Flatten(window);
    } else {
      PatchifyFlattens(window, 2 * cols, p);
    }
  }

  /** On a track whose inputs agree in length, every line's entry is its
      patched window, with exactly as many patches as the array has
      rows. */
  lemma BidirectionalTrackLines(d: NormalisedData, inputs: seq<string>, p: int, t: nat, ni: nat)
    requires BidirectionalTrack(d, inputs, p, t).Ok?
    requires ni < |BidirectionalTrack(d, inputs, p, t).value.lines|
    ensures InputTracks(d, inputs, t).Ok? && Combine(InputTracks(d, inputs, t).value).Ok? && p >= 1
    ensures var track := Combine(InputTracks(d, inputs, t).value).value;
            var e := BidirectionalTrack(d, inputs, p, t).value;
      && IsMatrix(track, |inputs|)
      && e.lines[ni] == BidirectionalLine(track, |inputs|, p, e.patches, ni)
  {
  }

  /* ---------------- the transform ---------------- */

  /** `perform_parallel_transforms` over `_bidirectional_transform` for the
      first `count` tracks. */
  function BidirectionalTracks(d: NormalisedData, inputs: seq<string>, p: int, count: nat, cores: int)
    : (r: Result<seq<Encoded>, Failure>)
    requires count > 0
    ensures count >= 2 && cores < 1 ==> r == Err(ValueError)
    ensures r.Ok? <==> (cores >= 1 || count == 1) && forall t :: 0 <= t < count ==> BidirectionalTrack(d, inputs, p, t).Ok?
    ensures r.Ok? ==> |r.value| == count && forall t :: 0 <= t < count ==> BidirectionalTrack(d, inputs, p, t) == Ok(r.value[t])
  {
    var f := (t: nat) => BidirectionalTrack(d, inputs, p, t);
    assert forall t :: 0 <= t < count ==> f(t) == BidirectionalTrack(d, inputs, p, t);
    var tracks :- PerformTransforms(count, cores, f);
    Ok(tracks.value)
  }

  /** `BidirectionalTransformMethod.transform`: an array of
      `normals_count` rows of `ceil(longest / p)` patch rows of
      `2 * len(inputs) * p` entries of -1, each track's lines assigned to
      the last patch rows of its own rows, the vehicle of each line (rows
      past the last track stay zeros), and the targets sampled over
      patches. */
  function BidirectionalTransform(d: NormalisedData, inputs: seq<string>, outputs: seq<string>,
                                  sampling: Option<int>, p: int, cores: int)
    : (r: Result<(seq<seq<seq<real>>>, seq<Matrix>, Matrix), Failure>)
    ensures "widths" !in d.data ==> r == Err(KeyError("widths"))
    ensures "widths" in d.data && |d.data["widths"]| == 0 ==> r == Err(ValueError)
    ensures "widths" in d.data && |d.data["widths"]| > 0 && p == 0 ==> r == Err(ZeroDivision)
    ensures r.Ok? ==> "widths" in d.data && |r.value.0| == |Flatten(d.data["widths"])| && |r.value.2| == |r.value.0|
    ensures r.Ok? ==> GetTargetOutput(d, outputs, sampling, Some(0), p) == Ok(r.value.1)
  {
    if "widths" !in d.data then Err(KeyError("widths"))
    else if |d.data["widths"]| == 0 then Err(ValueError)
    else
    var total := |Flatten(d.data["widths"])|;
    var rows :- PyCeilDiv(LongestRow(d.data["widths"]), p);
    var width := PairedWidth(|inputs|, p);
    if rows < 0 || width < 0 then Err(ValueError)
    else if "vehicles" !in d.data then Err(KeyError("vehicles"))
    else if |d.data["vehicles"]| == 0 then Err(IndexError)
    else
      var vehicles := d.data["vehicles"];
      var encs :- BidirectionalTracks(d, inputs, p, |vehicles|, cores);
      var copied :- CopyTracks(AsSlice, vehicles, |vehicles[0]|, AlignedTracks(encs, rows, width),
                               TracksFit(encs, rows), total, Fill(Fill(-1.0, width), rows), 0.0);
      var targets :- GetTargetOutput(d, outputs, sampling, Some(0), p);
      Ok((copied.0, targets, copied.1))
  }

  /** A successful transform encoded every track and copied the aligned
      encodings. */
  lemma BidirectionalTransformCopies(d: NormalisedData, inputs: seq<string>, outputs: seq<string>,
                                     sampling: Option<int>, p: int, cores: int,
                                     x: seq<seq<seq<real>>>, targets: seq<Matrix>, vs: Matrix)
    requires BidirectionalTransform(d, inputs, outputs, sampling, p, cores) == Ok((x, targets, vs))
    ensures "widths" in d.data && |d.data["widths"]| > 0 && "vehicles" in d.data && |d.data["vehicles"]| > 0
    ensures p != 0 && PyCeilDiv(LongestRow(d.data["widths"]), p).Ok?
    ensures var rows := PyCeilDiv(LongestRow(d.data["widths"]), p).value;
            var width := PairedWidth(|inputs|, p);
            var vehicles := d.data["vehicles"];
            var encs := BidirectionalTracks(d, inputs, p, |vehicles|, cores);
      && rows >= 0 && width >= 0 && encs.Ok?
      && CopyTracks(AsSlice, vehicles, |vehicles[0]|, AlignedTracks(encs.value, rows, width), TracksFit(encs.value, rows),
                    |Flatten(d.data["widths"])|, Fill(Fill(-1.0, width), rows), 0.0) == Ok((x, vs))
  {
  }

  /** Row `|widths[..i]| + ni` of the array is line `ni` of track `i`,
      right-aligned among the longest track's patch rows, and the same row
      of the vehicle array is track `i`'s vehicle; every line of a track of
      two lines or more has its row. */
  lemma BidirectionalTransformRows(d: NormalisedData, inputs: seq<string>, outputs: seq<string>,
                                   sampling: Option<int>, p: int, cores: int,
                                   x: seq<seq<seq<real>>>, targets: seq<Matrix>, vs: Matrix,
                                   i: nat, e: Encoded, ni: nat)
    requires BidirectionalTransform(d, inputs, outputs, sampling, p, cores) == Ok((x, targets, vs))
    requires "vehicles" in d.data && i < |d.data["vehicles"]|
    requires BidirectionalTrack(d, inputs, p, i) == Ok(e) && ni < |e.lines|
    requires |e.lines| > 1 || |Flatten(d.data["widths"][..i])| + ni < |x|
    ensures "widths" in d.data && |d.data["widths"]| > 0 && p >= 1
    ensures RowAt(x, vs, |Flatten(d.data["widths"][..i])| + ni,
                  RightAlign(e.lines[ni], CeilDivInt(LongestRow(d.data["widths"]), p), PairedWidth(|inputs|, p)),
                  d.data["vehicles"][i], |d.data["vehicles"][0]|)
  {
    BidirectionalTransformCopies(d, inputs, outputs, sampling, p, cores, x, targets, vs);
    TrackRowFromCopies(d, inputs, p, cores, x, vs, i, e, ni);
  }

  /** The row fact from what a successful transform copied. */
  lemma TrackRowFromCopies(d: NormalisedData, inputs: seq<string>, p: int, cores: int,
                           x: seq<seq<seq<real>>>, vs: Matrix, i: nat, e: Encoded, ni: nat)
    requires "widths" in d.data && |d.data["widths"]| > 0 && "vehicles" in d.data && |d.data["vehicles"]| > 0
    requires p != 0 && PyCeilDiv(LongestRow(d.data["widths"]), p).Ok?
    requires var rows := PyCeilDiv(LongestRow(d.data["widths"]), p).value;
             var width := PairedWidth(|inputs|, p);
             var vehicles := d.data["vehicles"];
             var encs := BidirectionalTracks(d, inputs, p, |vehicles|, cores);
      && rows >= 0 && width >= 0 && encs.Ok?
      && CopyTracks(AsSlice, vehicles, |vehicles[0]|, AlignedTracks(encs.value, rows, width), TracksFit(encs.value, rows),
                    |Flatten(d.data["widths"])|, Fill(Fill(-1.0, width), rows), 0.0) == Ok((x, vs))
    requires i < |d.data["vehicles"]|
    requires BidirectionalTrack(d, inputs, p, i) == Ok(e) && ni < |e.lines|
    requires |e.lines| > 1 || |Flatten(d.data["widths"][..i])| + ni < |x|
    ensures p >= 1
    ensures RowAt(x, vs, |Flatten(d.data["widths"][..i])| + ni,
                  RightAlign(e.lines[ni], CeilDivInt(LongestRow(d.data["widths"]), p), PairedWidth(|inputs|, p)),
                  d.data["vehicles"][i], |d.data["vehicles"][0]|)
  {
    var widths := d.data["widths"];
    var vehicles := d.data["vehicles"];
    var encs := BidirectionalTracks(d, inputs, p, |vehicles|, cores).value;
    TrackEncodingAt(d, inputs, p, cores, encs, i, e);
    CopiedTrackRows(widths, vehicles, encs, CeilDivInt(LongestRow(widths), p), PairedWidth(|inputs|, p),
                    x, vs, i, e, ni);
  }

  /** Track `i`'s encoding is entry `i` of the encoded tracks, and every
      track before it has one line per width. */
  lemma TrackEncodingAt(d: NormalisedData, inputs: seq<string>, p: int, cores: int, encs: seq<Encoded>,
                        i: nat, e: Encoded)
    requires "widths" in d.data && "vehicles" in d.data && |d.data["vehicles"]| > 0
    requires i < |d.data["vehicles"]|
    requires BidirectionalTracks(d, inputs, p, |d.data["vehicles"]|, cores) == Ok(encs)
    requires BidirectionalTrack(d, inputs, p, i) == Ok(e)
    ensures |encs| == |d.data["vehicles"]| && i < |d.data["widths"]| && encs[i] == e
    ensures forall t :: 0 <= t < i ==> |encs[t].lines| == |d.data["widths"][t]|
  {
    TracksFollowWidths(d, inputs, p, |d.data["vehicles"]|, cores);
  }

  /** The row facts from the copy alone, without the rest of the
      transform. */
  lemma CopiedTrackRows(widths: Matrix, vehicles: Matrix, encs: seq<Encoded>, rows: nat, width: nat,
                        x: seq<seq<seq<real>>>, vs: Matrix, i: nat, e: Encoded, ni: nat)
    requires |vehicles| > 0 && |encs| == |vehicles| && i < |vehicles| && i < |widths| && encs[i] == e
    requires forall t :: 0 <= t < i ==> |encs[t].lines| == |widths[t]|
    requires CopyTracks(AsSlice, vehicles, |vehicles[0]|, AlignedTracks(encs, rows, width), TracksFit(encs, rows),
                        |Flatten(widths)|, Fill(Fill(-1.0, width), rows), 0.0) == Ok((x, vs))
    requires ni < |e.lines|
    requires |e.lines| > 1 || |Flatten(widths[..i])| + ni < |x|
    ensures RowAt(x, vs, |Flatten(widths[..i])| + ni, RightAlign(e.lines[ni], rows, width), vehicles[i], |vehicles[0]|)
  {
    AlignedRowAt(widths, vehicles, encs, rows, width, |Flatten(widths)|, x, vs, i, e, ni);
  }

  /** Each encoded track has one entry per line of its widths. */
  lemma TracksFollowWidths(d: NormalisedData, inputs: seq<string>, p: int, count: nat, cores: int)
    requires count > 0 && BidirectionalTracks(d, inputs, p, count, cores).Ok?
    ensures "widths" in d.data && count <= |d.data["widths"]|
    ensures var encs := BidirectionalTracks(d, inputs, p, count, cores).value;
      forall t :: 0 <= t < count ==> |encs[t].lines| == |d.data["widths"][t]|
  {
    var encs := BidirectionalTracks(d, inputs, p, count, cores).value;
    assert BidirectionalTrack(d, inputs, p, count - 1).Ok?;
    forall t | 0 <= t < count
      ensures |encs[t].lines| == |d.data["widths"][t]|
    {
      assert BidirectionalTrack(d, inputs, p, t) == Ok(encs[t]);
    }
  }

  /* ---------------- the detransform ---------------- */

  /** The list, before the modulo, that the first entry of row 0 goes to:
      `1 - p * (S + 1)`, for a sampling `S` and patch size `p`. */
  function FirstSlot(s: int, p: int): int {
    1 - p * (s + 1)
  }

  /** The append loop of `BidirectionalTransformMethod.detransform` for one
      output: entry `k` of row `index` is appended to list
      `(index + k - p * (S + 1) + 1) mod track_length` of `len(output)`
      lists. The first entry raises for a missing sampling and then for a
      zero track length; without entries nothing is computed. */
  function DetransformBins(trackLength: int, output: seq<seq<real>>, sampling: Option<int>, p: int)
    : (r: Result<seq<seq<real>>, Failure>)
    ensures r.Ok? ==> |r.value| == |output|
    ensures |Flatten(output)| == 0 ==> r == Ok(Fill([], |output|))
    ensures |Flatten(output)| > 0 && sampling.None? ==> r == Err(TypeError)
    ensures |Flatten(output)| > 0 && sampling.Some? && trackLength == 0 ==> r == Err(ZeroDivision)
    ensures |Flatten(output)| > 0 && sampling.Some? && trackLength != 0 ==>
              r == Gather(Grid(Widths(output), 1, FirstSlot(sampling.value, p), trackLength), |output|, output)
  {
    if |Flatten(output)| == 0 then Ok(Fill([], |output|))
    else if sampling.None? then Err(TypeError)
    else if trackLength == 0 then Err(ZeroDivision)
    else Gather(Grid(Widths(output), 1, FirstSlot(sampling.value, p), trackLength), |output|, output)
  }

  /** `BidirectionalTransformMethod.detransform` for one output: the lists
      of the append loop, each averaged; an output without entries gives
      one empty (NaN) mean per row. */
  function BidirectionalDetransform(trackLength: int, output: seq<seq<real>>, sampling: Option<int>, p: int)
    : (r: Result<seq<Option<real>>, Failure>)
    ensures r.Ok? ==> |r.value| == |output|
    ensures |Flatten(output)| == 0 ==> r.Ok? && forall j :: 0 <= j < |r.value| ==> r.value[j].None?
    ensures |Flatten(output)| > 0 && sampling.None? ==> r == Err(TypeError)
    ensures |Flatten(output)| > 0 && sampling.Some? && trackLength == 0 ==> r == Err(ZeroDivision)
  {
    var bins :- DetransformBins(trackLength, output, sampling, p);
    Ok(Means(bins))
  }

  /** `detransform` over every output, raising for the first that fails. */
  function BidirectionalDetransformAll(trackLength: int, outputs: seq<seq<seq<real>>>, sampling: Option<int>, p: int)
    : (r: Result<seq<seq<Option<real>>>, Failure>)
    ensures r.Ok? <==> forall i :: 0 <= i < |outputs| ==> BidirectionalDetransform(trackLength, outputs[i], sampling, p).Ok?
    ensures r.Ok? ==> (|r.value| == |outputs|
      && forall i :: 0 <= i < |outputs| ==> r.value[i] == BidirectionalDetransform(trackLength, outputs[i], sampling, p).value)
  {
    var rs := seq(|outputs|, i requires 0 <= i < |outputs| => BidirectionalDetransform(trackLength, outputs[i], sampling, p));
    assert forall i :: 0 <= i < |outputs| ==> rs[i] == BidirectionalDetransform(trackLength, outputs[i], sampling, p);
    AllOk(rs)
  }

  /** Detransforming the targets of a track sampled over patches (no lag)
      gives the track back: list `j` receives every copy of line `j` the
      target rows hold, and there is at least one. */
  lemma BidirectionalRoundTrip(arr: seq<real>, s: int, p: int)
    requires |arr| > 0 && s >= 0 && p >= 1
    ensures ComputeTargets(arr, s, 0, p).Ok?
    ensures BidirectionalDetransform(|arr|, ComputeTargets(arr, s, 0, p).value, Some(s), p)
            == Ok(seq(|arr|, j requires 0 <= j < |arr| => Some(arr[j])))
  {
    var n := |arr|;
    var out := ComputeTargets(arr, s, 0, p).value;
    var c := FirstSlot(s, p);
    var ps := Grid(Widths(out), 1, c, n);
    PatchedTargetsNonEmpty(arr, s, p);
    PatchedPlacements(arr, s, p);
    forall j | 0 <= j < n
      ensures Hits(ps, n, j)
    {
      PatchedHits(arr, s, p, j);
    }
    DesampleRecovers(ps, out, arr);
  }

  lemma PatchedTargetsNonEmpty(arr: seq<real>, s: int, p: int)
    requires |arr| > 0 && s >= 0 && p >= 1
    ensures ComputeTargets(arr, s, 0, p).Ok?
    ensures |Flatten(ComputeTargets(arr, s, 0, p).value)| > 0
  {
    var out := ComputeTargets(arr, s, 0, p).value;
    MulMono(1, 2 * s + 1, p);
    assert TargetWidth(s, p) >= 1;
    FlattenHas(out, 0, 0);
  }

  /** Every placement of the detransform reads the line it is placed at. */
  lemma PatchedPlacements(arr: seq<real>, s: int, p: int)
    requires |arr| > 0 && s >= 0 && p >= 1
    ensures ComputeTargets(arr, s, 0, p).Ok?
    ensures var out := ComputeTargets(arr, s, 0, p).value;
            var ps := Grid(Widths(out), 1, FirstSlot(s, p), |arr|);
      && AllPlaceable(ps, |arr|, out)
      && forall q :: q in ps && Placeable(q, |arr|, out) ==> ValueOf(q, out) == arr[Target(q, |arr|)]
  {
    var n := |arr|;
    var out := ComputeTargets(arr, s, 0, p).value;
    var c := FirstSlot(s, p);
    var ps := Grid(Widths(out), 1, c, n);
    GridPlaceable(out, 1, c, n, n);
    forall q | q in ps && Placeable(q, n, out)
      ensures ValueOf(q, out) == arr[Target(q, n)]
    {
      GridMember(Widths(out), 1, c, n, q);
      var r, k := q.row, q.col;
      ComputeTargetsAt(arr, s, 0, p, r, k);
      assert r + 1 - p - s * p - 0 + k == 1 * r + k + c;
    }
  }

  /** Line `j` is reached from row `(j - c) mod n`, entry 0. */
  lemma PatchedHits(arr: seq<real>, s: int, p: int, j: nat)
    requires |arr| > 0 && s >= 0 && p >= 1 && j < |arr|
    ensures ComputeTargets(arr, s, 0, p).Ok?
    ensures Hits(Grid(Widths(ComputeTargets(arr, s, 0, p).value), 1, FirstSlot(s, p), |arr|), |arr|, j)
  {
    var n := |arr|;
    var out := ComputeTargets(arr, s, 0, p).value;
    var c := FirstSlot(s, p);
    MulMono(1, 2 * s + 1, p);
    var r := (j - c) % n;
    ModShift(r, c, n, j);
    assert 1 * r + 0 + c == r + c;
    GridHits(Widths(out), 1, c, n, n, r, 0, j);
  }
}
