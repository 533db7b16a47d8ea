/** The window transforms: each segmentation line is given the `2f + 1`
    lines around it (its foresight `f` on either side, wrapping round the
    track), either as a matrix with one row per input or flattened into one
    vector; and the shared detransform that averages the sampled network
    outputs back onto the lines they predict. */
module Windows {
  import opened Wrappers
  import opened Functional
  import opened Patching
  import opened Normalisation
  import opened Sampling
  import opened Desampling
  import opened Assembly

  /** `normalised.track_length(t)`: the number of width lines of track `t`. */
  function TrackLen(d: NormalisedData, t: nat): (r: Result<nat, Failure>)
    ensures r.Ok? <==> "widths" in d.data && t < |d.data["widths"]|
    ensures r.Ok? ==> r.value == |d.data["widths"][t]|
    ensures "widths" !in d.data ==> r == Err(KeyError("widths"))
    ensures "widths" in d.data && t >= |d.data["widths"]| ==> r == Err(IndexError)
  {
    if "widths" !in d.data then Err(KeyError("widths"))
    else if t >= |d.data["widths"]| then Err(IndexError)
    else Ok(|d.data["widths"][t]|)
  }

  /** `[normalised[inp][t] for inp in inputs]`: raises for the first input
      key that is missing or has no track `t`. */
  function InputTracks(d: NormalisedData, inputs: seq<string>, t: nat): (r: Result<seq<seq<real>>, Failure>)
    ensures r.Ok? <==> forall i :: 0 <= i < |inputs| ==> inputs[i] in d.data && t < |d.data[inputs[i]]|
    ensures r.Ok? ==> |r.value| == |inputs| && forall i :: 0 <= i < |inputs| ==> r.value[i] == d.data[inputs[i]][t]
    ensures r.Err? ==> exists i :: 0 <= i < |inputs| && (r.error == KeyError(inputs[i]) || r.error == IndexError)
  {
    var rs := seq(|inputs|, i requires 0 <= i < |inputs| =>
      if inputs[i] !in d.data then Err(KeyError(inputs[i]))
      else if t >= |d.data[inputs[i]]| then Err(IndexError)
      else Ok(d.data[inputs[i]][t]));
    assert forall i :: 0 <= i < |inputs| ==> (rs[i].Ok? <==> inputs[i] in d.data && t < |d.data[inputs[i]]|);
    AllOk(rs)
  }

  /** Every input track has at least `n` lines. */
  predicate LongEnough(ins: seq<seq<real>>, n: nat) {
    forall k :: 0 <= k < |ins| ==> |ins[k]| >= n
  }

  /** The window of line `ni`: row `k` holds input `k` at the lines
      `ni - f` to `ni + f`, wrapping round the track, so that its middle
      column is line `ni` itself. */
  function Window(ins: seq<seq<real>>, n: nat, f: nat, ni: int): (w: seq<seq<real>>)
    requires n > 0 && LongEnough(ins, n) && 0 <= ni < n
    ensures |w| == |ins| && IsMatrix(w, 2 * f + 1)
    ensures forall k :: 0 <= k < |ins| ==> w[k][f] == ins[k][ni]
  {
    ModInRange(ni, n);
    assert ni - f + f == ni;
    seq(|ins|, k requires 0 <= k < |ins| =>
      seq(2 * f + 1, i requires 0 <= i < 2 * f + 1 => ins[k][(ni - f + i) % n]))
  }

  /** `_window_transform` for track `t`: one window per line. A missing
      foresight cannot be doubled, a negative window length is a negative
      array dimension, and an input track shorter than the width track is
      read past its end; a track without lines gives no windows. */
  function WindowTrack(d: NormalisedData, inputs: seq<string>, foresight: Option<int>, t: nat)
    : (r: Result<seq<seq<seq<real>>>, Failure>)
    ensures r.Ok? ==> TrackLen(d, t).Ok? && |r.value| == TrackLen(d, t).value
    ensures TrackLen(d, t).Ok? && TrackLen(d, t).value > 0 && InputTracks(d, inputs, t).Ok? && foresight.None? ==>
              r == Err(TypeError)
    ensures TrackLen(d, t).Ok? && TrackLen(d, t).value > 0 && InputTracks(d, inputs, t).Ok? && foresight.Some? ==>
              (r.Ok? <==> foresight.value >= 0 && LongEnough(InputTracks(d, inputs, t).value, TrackLen(d, t).value))
    ensures r.Ok? && |r.value| > 0 ==>
              && foresight.Some? && foresight.value >= 0 && InputTracks(d, inputs, t).Ok?
              && forall ni :: 0 <= ni < |r.value| ==> r.value[ni] == Window(InputTracks(d, inputs, t).value, |r.value|, foresight.value, ni)
  {
    var n :- TrackLen(d, t);
    var ins :- InputTracks(d, inputs, t);
    if n == 0 then Ok([])
    else if foresight.None? then Err(TypeError)
    else if 2 * foresight.value + 1 < 0 then Err(ValueError)
    else if !LongEnough(ins, n) then Err(IndexError)
    else Ok(seq(n, ni requires 0 <= ni < n => Window(ins, n, foresight.value, ni)))
  }

  /** Entry `i` of row `k` of window `ni` is input `k` at line
      `(ni - f + i) mod n`, and consecutive windows slide by one line. */
  lemma WindowTrackAt(d: NormalisedData, inputs: seq<string>, f: int, t: nat, ni: int, k: int, i: int)
    requires WindowTrack(d, inputs, Some(f), t).Ok?
    requires 0 <= ni < |WindowTrack(d, inputs, Some(f), t).value| && 0 <= k < |inputs| && 0 <= i < 2 * f + 1
    ensures var w := WindowTrack(d, inputs, Some(f), t).value; var n := |w|;
      && k < |w[ni]| && i < |w[ni][k]|
      && w[ni][k][i] == d.data[inputs[k]][t][(ni - f + i) % n]
      && (ni + 1 < n && i + 1 < 2 * f + 1 ==> w[ni + 1][k][i] == w[ni][k][i + 1])
  {
  }

  /* ---------------- the flat window ---------------- */

  /** `_flat_window_transform` for track `t`: row `ni` holds, for each input
      `k` in turn, the `2f + 1` lines around `ni`; entry `i + (2f + 1) * k`
      is input `k` at line `(ni - f + i) mod n`. The window length is
      computed first, so a missing foresight raises before anything is
      read. */
  function FlatWindowTrack(d: NormalisedData, inputs: seq<string>, foresight: Option<int>, t: nat)
    : (r: Result<seq<seq<real>>, Failure>)
    ensures foresight.None? ==> r == Err(TypeError)
    ensures r.Ok? ==> TrackLen(d, t).Ok? && |r.value| == TrackLen(d, t).value
    ensures r.Ok? ==> foresight.Some? && (2 * foresight.value + 1) * |inputs| >= 0
                      && IsMatrix(r.value, (2 * foresight.value + 1) * |inputs|)
  {
    if foresight.None? then Err(TypeError)
    else
      var f := foresight.value;
      var w := 2 * f + 1;
      var n :- TrackLen(d, t);
      if w * |inputs| < 0 then Err(ValueError)
      else
        var ins :- InputTracks(d, inputs, t);
        if n > 0 && !LongEnough(ins, n) then Err(IndexError)
        else
          Ok(seq(n, ni requires 0 <= ni < n => FlatRow(ins, n, f, ni)))
  }

  /** Row `ni` of the flat window: entry `i + (2f + 1) * k` is input `k` at
      line `(ni - f + i) mod n`. */
  function FlatRow(ins: seq<seq<real>>, n: nat, f: int, ni: int): (row: seq<real>)
    requires n > 0 && LongEnough(ins, n) && (2 * f + 1) * |ins| >= 0
    ensures |row| == (2 * f + 1) * |ins|
  {
    var w := 2 * f + 1;
    seq(w * |ins|, c requires 0 <= c < w * |ins| => FlatEntry(ins, n, f, ni, c))
  }

  function FlatEntry(ins: seq<seq<real>>, n: nat, f: int, ni: int, c: int): real
    requires n > 0 && LongEnough(ins, n) && 0 <= c < (2 * f + 1) * |ins|
  {
    var w := 2 * f + 1;
    DivBelow(c, |ins|, w);
    ins[c / w][(ni - f + c % w) % n]
  }

  /** The flat layout holds the same values as the window layout, read
      row after row: flat row `ni` is window `ni` flattened. */
  lemma FlatIsFlattenedWindow(d: NormalisedData, inputs: seq<string>, f: int, t: nat)
    requires WindowTrack(d, inputs, Some(f), t).Ok? && |WindowTrack(d, inputs, Some(f), t).value| > 0
    ensures FlatWindowTrack(d, inputs, Some(f), t).Ok?
    ensures var flat := FlatWindowTrack(d, inputs, Some(f), t).value;
            var win := WindowTrack(d, inputs, Some(f), t).value;
      |flat| == |win| && forall ni :: 0 <= ni < |win| ==> flat[ni] == Flatten(win[ni])
  {
    var win := WindowTrack(d, inputs, Some(f), t).value;
    var ins := InputTracks(d, inputs, t).value;
    var n := |win|;
    var flat := FlatWindowTrack(d, inputs, Some(f), t).value;
    assert flat == seq(n, ni requires 0 <= ni < n => FlatRow(ins, n, f, ni));
    forall ni | 0 <= ni < n
      ensures flat[ni] == Flatten(win[ni])
    {
      FlatRowIsFlattenedWindow(ins, n, f, ni);
    }
  }

  lemma FlatRowIsFlattenedWindow(ins: seq<seq<real>>, n: nat, f: nat, ni: int)
    requires n > 0 && LongEnough(ins, n) && 0 <= ni < n
    ensures FlatRow(ins, n, f, ni) == Flatten(Window(ins, n, f, ni))
  {
    var win := Window(ins, n, f, ni);
    var row := FlatRow(ins, n, f, ni);
    var w := 2 * f + 1;
    FlattenMatrix(win, w);
    forall c | 0 <= c < w * |ins|
      ensures row[c] == Flatten(win)[c]
    {
      DivBelow(c, |ins|, w);
      var k, i := c / w, c % w;
      DivMod(c, w);
      assert Flatten(win)[k * w + i] == win[k][i];
    }
    assert |row| == |Flatten(win)| by { assert w * |ins| == |ins| * w; }
  }

  lemma DivMod(c: int, w: int)
    requires w > 0
    ensures c == (c / w) * w + c % w && 0 <= c % w < w
  {
  }

  /* ---------------- the detransform ---------------- */

  /** `BaseWindowTransform.detransform` for one output: entry `s + S` of
      row `index` (for `s` from `-S` to `S`) is appended to list
      `(index + s) mod len(output)` of `track_length` lists, and each list
      is averaged. An output without rows leaves every list empty; a
      missing sampling cannot be negated. */
  function BaseDetransform(trackLength: int, output: seq<seq<real>>, sampling: Option<int>)
    : (r: Result<seq<Option<real>>, Failure>)
    ensures r.Ok? ==> |r.value| == if trackLength < 0 then 0 else trackLength
    ensures |output| == 0 ==> r.Ok? && forall j :: 0 <= j < |r.value| ==> r.value[j].None?
    ensures |output| > 0 && sampling.None? ==> r == Err(TypeError)
  {
    var n: nat := if trackLength < 0 then 0 else trackLength;
    if |output| == 0 then Ok(Fill(None, n))
    else if sampling.None? then Err(TypeError)
    else
      var s := sampling.value;
      var w: nat := if 2 * s + 1 < 0 then 0 else 2 * s + 1;
      Desample(Grid(Fill(w, |output|), 1, -s, |output|), n, output)
  }

  /** `detransform` over every output, raising for the first that fails. */
  function BaseDetransformAll(trackLength: int, outputs: seq<seq<seq<real>>>, sampling: Option<int>)
    : (r: Result<seq<seq<Option<real>>>, Failure>)
    ensures r.Ok? <==> forall i :: 0 <= i < |outputs| ==> BaseDetransform(trackLength, outputs[i], sampling).Ok?
    ensures r.Ok? ==> (|r.value| == |outputs|
      && forall i :: 0 <= i < |outputs| ==> r.value[i] == BaseDetransform(trackLength, outputs[i], sampling).value)
  {
    var rs := seq(|outputs|, i requires 0 <= i < |outputs| => BaseDetransform(trackLength, outputs[i], sampling));
    assert forall i :: 0 <= i < |outputs| ==> rs[i] == BaseDetransform(trackLength, outputs[i], sampling);
    AllOk(rs)
  }

  /** Detransforming the sampled targets of a track (no lag, one line per
      patch) gives the track back: list `j` receives the `2S + 1` copies
      of line `j` held by the rows around it. */
  lemma WindowRoundTrip(arr: seq<real>, s: int)
    requires |arr| > 0 && s >= 0
    ensures ComputeTargets(arr, s, 0, 1).Ok?
    ensures BaseDetransform(|arr|, ComputeTargets(arr, s, 0, 1).value, Some(s))
            == Ok(seq(|arr|, j requires 0 <= j < |arr| => Some(arr[j])))
  {
    var n := |arr|;
    var out := ComputeTargets(arr, s, 0, 1).value;
    var w := 2 * s + 1;
    assert TargetWidth(s, 1) == w;
    var ps := Grid(Fill(w, n), 1, -s, n);
    BaseDetransformIsGrid(n, out, s);
    WindowPlacements(arr, s);
    forall j | 0 <= j < n
      ensures Hits(ps, n, j)
    {
      WindowHits(n, s, j);
    }
    DesampleRecovers(ps, out, arr);
  }

  lemma BaseDetransformIsGrid(trackLength: nat, output: seq<seq<real>>, s: int)
    requires |output| > 0 && s >= 0
    ensures BaseDetransform(trackLength, output, Some(s))
            == Desample(Grid(Fill(2 * s + 1, |output|), 1, -s, |output|), trackLength, output)
  {
    var w: nat := 2 * s + 1;
    assert Fill(w, |output|) == Fill(2 * s + 1, |output|);
  }

  /** Every placement of the window detransform reads the line it is
      placed at. */
  lemma WindowPlacements(arr: seq<real>, s: int)
    requires |arr| > 0 && s >= 0
    ensures ComputeTargets(arr, s, 0, 1).Ok?
    ensures var out := ComputeTargets(arr, s, 0, 1).value;
            var ps := Grid(Fill(2 * s + 1, |arr|), 1, -s, |arr|);
      && AllPlaceable(ps, |arr|, out)
      && forall p :: p in ps && Placeable(p, |arr|, out) ==> ValueOf(p, out) == arr[Target(p, |arr|)]
  {
    var n := |arr|;
    var out := ComputeTargets(arr, s, 0, 1).value;
    var w := 2 * s + 1;
    assert TargetWidth(s, 1) == w;
    var ps := Grid(Fill(w, n), 1, -s, n);
    forall p | p in ps
      ensures Placeable(p, n, out) && ValueOf(p, out) == arr[Target(p, n)]
    {
      GridMember(Fill(w, n), 1, -s, n, p);
      var r, k := p.row, p.col;
      ComputeTargetsAt(arr, s, 0, 1, r, k);
      assert r + 1 - 1 - s * 1 - 0 + k == 1 * r + k + -s;
    }
    assert forall i :: 0 <= i < |ps| ==> ps[i] in ps;
  }

  /** Line `j` is reached from row `(j + S) mod n`, column 0. */
  lemma WindowHits(n: nat, s: int, j: nat)
    requires n > 0 && s >= 0 && j < n
    ensures Hits(Grid(Fill(2 * s + 1, n), 1, -s, n), n, j)
  {
    var r := (j + s) % n;
    ModShift(r, -s, n, j);
    assert 1 * r + 0 + -s == r + -s;
    GridHits(Fill(2 * s + 1, n), 1, -s, n, n, r, 0, j);
  }

  /* ---------------- laying the tracks out ---------------- */

  /** `perform_parallel_transforms` over `_window_transform` for the
      first `count` tracks. */
  function WindowTracks(d: NormalisedData, inputs: seq<string>, foresight: Option<int>, count: nat, cores: int)
    : (r: Result<seq<seq<seq<seq<real>>>>, Failure>)
    requires count > 0
    ensures count >= 2 && cores < 1 ==> r == Err(ValueError)
    ensures r.Ok? <==> (cores >= 1 || count == 1) && forall t :: 0 <= t < count ==> WindowTrack(d, inputs, foresight, t).Ok?
    ensures r.Ok? ==> |r.value| == count && forall t :: 0 <= t < count ==> WindowTrack(d, inputs, foresight, t) == Ok(r.value[t])
  {
    var f := (t: nat) => WindowTrack(d, inputs, foresight, t);
    assert forall t :: 0 <= t < count ==> f(t) == WindowTrack(d, inputs, foresight, t);
    var tracks :- PerformTransforms(count, cores, f);
    Ok(tracks.value)
  }

  /** `WindowTransform.transform`: the windows of every line, `total` rows
      where `total` counts the angle lines, the vehicle of each line
      (rows past the last track stay ones), and the sampled targets with
      no lag and one line per patch. Each track's vehicle is copied to its
      rows as one slice, then its windows one row at a time. */
  function WindowTransform(d: NormalisedData, inputs: seq<string>, outputs: seq<string>,
                           foresight: Option<int>, sampling: Option<int>, cores: int)
    : (r: Result<(seq<seq<seq<real>>>, seq<Matrix>, Matrix), Failure>)
    ensures "angles" !in d.data ==> r == Err(KeyError("angles"))
    ensures "angles" in d.data && foresight.None? ==> r == Err(TypeError)
    ensures "angles" in d.data && foresight.Some? && 2 * foresight.value + 1 < 0 ==> r == Err(ValueError)
    ensures "angles" in d.data && foresight.Some? && 2 * foresight.value + 1 >= 0 && "vehicles" !in d.data
            ==> r == Err(KeyError("vehicles"))
    ensures r.Ok? ==> "angles" in d.data && |r.value.0| == |Flatten(d.data["angles"])| && |r.value.2| == |r.value.0|
    ensures r.Ok? ==> GetTargetOutput(d, outputs, sampling, Some(0), 1) == Ok(r.value.1)
  {
    if "angles" !in d.data then Err(KeyError("angles"))
    else if foresight.None? then Err(TypeError)
    else if 2 * foresight.value + 1 < 0 then Err(ValueError)
    else if "vehicles" !in d.data then Err(KeyError("vehicles"))
    else if |d.data["vehicles"]| == 0 then Err(IndexError)
    else
      var total := |Flatten(d.data["angles"])|;
      var vehicles := d.data["vehicles"];
      var encs :- WindowTracks(d, inputs, foresight, |vehicles|, cores);
      var blank := Fill(Fill(0.0, 2 * foresight.value + 1), |inputs|);
      var copied :- CopyTracks(RowByRow, vehicles, |vehicles[0]|, encs, Fill(true, |vehicles|), total, blank, 1.0);
      var targets :- GetTargetOutput(d, outputs, sampling, Some(0), 1);
      Ok((copied.0, targets, copied.1))
  }

  /** A successful window transform encoded every track and copied the
      encodings. */
  lemma WindowTransformCopies(d: NormalisedData, inputs: seq<string>, outputs: seq<string>,
                              foresight: Option<int>, sampling: Option<int>, cores: int,
                              x: seq<seq<seq<real>>>, targets: seq<Matrix>, vs: Matrix)
    requires WindowTransform(d, inputs, outputs, foresight, sampling, cores) == Ok((x, targets, vs))
    ensures "angles" in d.data && "vehicles" in d.data && |d.data["vehicles"]| > 0 && foresight.Some?
    ensures 2 * foresight.value + 1 >= 0
    ensures WindowTracks(d, inputs, foresight, |d.data["vehicles"]|, cores).Ok?
    ensures CopyTracks(RowByRow, d.data["vehicles"], |d.data["vehicles"][0]|,
                       WindowTracks(d, inputs, foresight, |d.data["vehicles"]|, cores).value,
                       Fill(true, |d.data["vehicles"]|), |Flatten(d.data["angles"])|,
                       Fill(Fill(0.0, 2 * foresight.value + 1), |inputs|), 1.0) == Ok((x, vs))
  {
  }

  /** Row `|widths[..i]| + ni` of the window array is window `ni` of track
      `i`, and the same row of the vehicle array is track `i`'s vehicle:
      the tracks follow each other without gaps, in order, and every
      window has its row. */
  lemma WindowTransformRows(d: NormalisedData, inputs: seq<string>, outputs: seq<string>,
                            foresight: Option<int>, sampling: Option<int>, cores: int,
                            x: seq<seq<seq<real>>>, targets: seq<Matrix>, vs: Matrix,
                            i: nat, track: seq<seq<seq<real>>>, ni: nat)
    requires WindowTransform(d, inputs, outputs, foresight, sampling, cores) == Ok((x, targets, vs))
    requires "vehicles" in d.data && i < |d.data["vehicles"]|
    requires WindowTrack(d, inputs, foresight, i) == Ok(track) && ni < |track|
    ensures "widths" in d.data && i < |d.data["widths"]| && |d.data["vehicles"]| > 0
    ensures RowAt(x, vs, |Flatten(d.data["widths"][..i])| + ni, track[ni], d.data["vehicles"][i], |d.data["vehicles"][0]|)
  {
    WindowTransformCopies(d, inputs, outputs, foresight, sampling, cores, x, targets, vs);
    var blocks := WindowTracks(d, inputs, foresight, |d.data["vehicles"]|, cores).value;
    WindowBlockAt(d, inputs, foresight, cores, blocks, i, track);
    CopiedWindowRows(d, inputs, foresight, blocks, x, vs, i, track, ni);
  }

  /** The copy of the encoded windows puts window `ni` of track `i` at its
      row. */
  lemma CopiedWindowRows(d: NormalisedData, inputs: seq<string>, foresight: Option<int>, blocks: seq<seq<seq<seq<real>>>>,
                         x: seq<seq<seq<real>>>, vs: Matrix, i: nat, track: seq<seq<seq<real>>>, ni: nat)
    requires "angles" in d.data && "widths" in d.data && "vehicles" in d.data && |d.data["vehicles"]| > 0
    requires foresight.Some? && 2 * foresight.value + 1 >= 0
    requires i <= |d.data["widths"]| && |blocks| == |d.data["vehicles"]| && i < |blocks| && blocks[i] == track && ni < |track|
    requires forall t :: 0 <= t < i ==> |blocks[t]| == |d.data["widths"][t]|
    requires CopyTracks(RowByRow, d.data["vehicles"], |d.data["vehicles"][0]|, blocks,
                        Fill(true, |d.data["vehicles"]|), |Flatten(d.data["angles"])|,
                        Fill(Fill(0.0, 2 * foresight.value + 1), |inputs|), 1.0) == Ok((x, vs))
    ensures RowAt(x, vs, |Flatten(d.data["widths"][..i])| + ni, track[ni], d.data["vehicles"][i], |d.data["vehicles"][0]|)
  {
    CopiedAtTrackRow(d.data["widths"], RowByRow, d.data["vehicles"], |d.data["vehicles"][0]|, blocks,
                     Fill(true, |d.data["vehicles"]|), |Flatten(d.data["angles"])|,
                     Fill(Fill(0.0, 2 * foresight.value + 1), |inputs|), 1.0, x, vs, i, track, ni);
  }

  /** Track `i`'s windows are entry `i` of the encoded tracks, and every
      track before it has one window per width. */
  lemma WindowBlockAt(d: NormalisedData, inputs: seq<string>, foresight: Option<int>, cores: int,
                      blocks: seq<seq<seq<seq<real>>>>, i: nat, track: seq<seq<seq<real>>>)
    requires "vehicles" in d.data && i < |d.data["vehicles"]|
    requires WindowTracks(d, inputs, foresight, |d.data["vehicles"]|, cores) == Ok(blocks)
    requires WindowTrack(d, inputs, foresight, i) == Ok(track)
    ensures "widths" in d.data && i < |d.data["widths"]|
    ensures |blocks| == |d.data["vehicles"]| && blocks[i] == track
    ensures forall t :: 0 <= t < i ==> |blocks[t]| == |d.data["widths"][t]|
  {
    forall t | 0 <= t < i
      ensures |blocks[t]| == |d.data["widths"][t]|
    {
      assert WindowTrack(d, inputs, foresight, t) == Ok(blocks[t]);
    }
  }

  /** `perform_parallel_transforms` over `_flat_window_transform` for the
      first `count` tracks. */
  function FlatWindowTracks(d: NormalisedData, inputs: seq<string>, foresight: Option<int>, count: nat, cores: int)
    : (r: Result<seq<seq<seq<real>>>, Failure>)
    requires count > 0
    ensures count >= 2 && cores < 1 ==> r == Err(ValueError)
    ensures r.Ok? <==> (cores >= 1 || count == 1) && forall t :: 0 <= t < count ==> FlatWindowTrack(d, inputs, foresight, t).Ok?
    ensures r.Ok? ==> |r.value| == count && forall t :: 0 <= t < count ==> FlatWindowTrack(d, inputs, foresight, t) == Ok(r.value[t])
  {
    var f := (t: nat) => FlatWindowTrack(d, inputs, foresight, t);
    assert forall t :: 0 <= t < count ==> f(t) == FlatWindowTrack(d, inputs, foresight, t);
    var tracks :- PerformTransforms(count, cores, f);
    Ok(tracks.value)
  }

  /** `FlatWindowTransform.transform`: the flat windows of every line in
      `total` rows of zeros, the vehicle of each line (rows past the last
      track stay zeros), and the sampled targets. Each track's rows, then
      its vehicle, are assigned as slices, so a block that does not fit is
      a `ValueError` unless it has a single row to broadcast. */
  function FlatWindowTransform(d: NormalisedData, inputs: seq<string>, outputs: seq<string>,
                               foresight: Option<int>, sampling: Option<int>, cores: int)
    : (r: Result<(Matrix, seq<Matrix>, Matrix), Failure>)
    ensures "angles" !in d.data ==> r == Err(KeyError("angles"))
    ensures "angles" in d.data && foresight.None? ==> r == Err(TypeError)
    ensures "angles" in d.data && foresight.Some? && (2 * foresight.value + 1) * |inputs| < 0 ==> r == Err(ValueError)
    ensures "angles" in d.data && foresight.Some? && (2 * foresight.value + 1) * |inputs| >= 0 && "vehicles" !in d.data
            ==> r == Err(KeyError("vehicles"))
    ensures r.Ok? ==> "angles" in d.data && |r.value.0| == |Flatten(d.data["angles"])| && |r.value.2| == |r.value.0|
    ensures r.Ok? ==> GetTargetOutput(d, outputs, sampling, Some(0), 1) == Ok(r.value.1)
  {
    if "angles" !in d.data then Err(KeyError("angles"))
    else if foresight.None? then Err(TypeError)
    else if (2 * foresight.value + 1) * |inputs| < 0 then Err(ValueError)
    else if "vehicles" !in d.data then Err(KeyError("vehicles"))
    else if |d.data["vehicles"]| == 0 then Err(IndexError)
    else
      var total := |Flatten(d.data["angles"])|;
      var vehicles := d.data["vehicles"];
      var encs :- FlatWindowTracks(d, inputs, foresight, |vehicles|, cores);
      var blank := Fill(0.0, (2 * foresight.value + 1) * |inputs|);
      var copied :- CopyTracks(AsSlice, vehicles, |vehicles[0]|, encs, Fill(true, |vehicles|), total, blank, 0.0);
      var targets :- GetTargetOutput(d, outputs, sampling, Some(0), 1);
      Ok((copied.0, targets, copied.1))
  }

  /** A successful flat window transform encoded every track and copied
      the encodings. */
  lemma FlatWindowTransformCopies(d: NormalisedData, inputs: seq<string>, outputs: seq<string>,
                                  foresight: Option<int>, sampling: Option<int>, cores: int,
                                  x: Matrix, targets: seq<Matrix>, vs: Matrix)
    requires FlatWindowTransform(d, inputs, outputs, foresight, sampling, cores) == Ok((x, targets, vs))
    ensures "angles" in d.data && "vehicles" in d.data && |d.data["vehicles"]| > 0 && foresight.Some?
    ensures (2 * foresight.value + 1) * |inputs| >= 0
    ensures FlatWindowTracks(d, inputs, foresight, |d.data["vehicles"]|, cores).Ok?
    ensures CopyTracks(AsSlice, d.data["vehicles"], |d.data["vehicles"][0]|,
                       FlatWindowTracks(d, inputs, foresight, |d.data["vehicles"]|, cores).value,
                       Fill(true, |d.data["vehicles"]|), |Flatten(d.data["angles"])|,
                       Fill(0.0, (2 * foresight.value + 1) * |inputs|), 0.0) == Ok((x, vs))
  {
  }

  /** Row `|widths[..i]| + ni` of the flat array is flat window `ni` of
      track `i`, and the same row of the vehicle array is track `i`'s
      vehicle, for every line of a track of two lines or more, and for a
      one-line track whose row exists. */
  lemma FlatWindowTransformRows(d: NormalisedData, inputs: seq<string>, outputs: seq<string>,
                                foresight: Option<int>, sampling: Option<int>, cores: int,
                                x: Matrix, targets: seq<Matrix>, vs: Matrix, i: nat, track: Matrix, ni: nat)
    requires FlatWindowTransform(d, inputs, outputs, foresight, sampling, cores) == Ok((x, targets, vs))
    requires "vehicles" in d.data && i < |d.data["vehicles"]|
    requires FlatWindowTrack(d, inputs, foresight, i) == Ok(track) && ni < |track|
    requires "widths" in d.data && i < |d.data["widths"]|
    requires |track| > 1 || |Flatten(d.data["widths"][..i])| + ni < |x|
    ensures |d.data["vehicles"]| > 0
    ensures RowAt(x, vs, |Flatten(d.data["widths"][..i])| + ni, track[ni], d.data["vehicles"][i], |d.data["vehicles"][0]|)
  {
    FlatWindowTransformCopies(d, inputs, outputs, foresight, sampling, cores, x, targets, vs);
    FlatRowFromCopies(d, inputs, foresight, cores, x, vs, i, track, ni);
  }

  /** The copy step of `FlatWindowTransformRows`, apart from the transform. */
  lemma FlatRowFromCopies(d: NormalisedData, inputs: seq<string>, foresight: Option<int>, cores: int,
                          x: Matrix, vs: Matrix, i: nat, track: Matrix, ni: nat)
    requires "angles" in d.data && "vehicles" in d.data && |d.data["vehicles"]| > 0 && foresight.Some?
    requires (2 * foresight.value + 1) * |inputs| >= 0
    requires FlatWindowTracks(d, inputs, foresight, |d.data["vehicles"]|, cores).Ok?
    requires CopyTracks(AsSlice, d.data["vehicles"], |d.data["vehicles"][0]|,
                        FlatWindowTracks(d, inputs, foresight, |d.data["vehicles"]|, cores).value,
                        Fill(true, |d.data["vehicles"]|), |Flatten(d.data["angles"])|,
                        Fill(0.0, (2 * foresight.value + 1) * |inputs|), 0.0) == Ok((x, vs))
    requires i < |d.data["vehicles"]|
    requires FlatWindowTrack(d, inputs, foresight, i) == Ok(track) && ni < |track|
    requires "widths" in d.data && i < |d.data["widths"]|
    requires |track| > 1 || |Flatten(d.data["widths"][..i])| + ni < |x|
    ensures RowAt(x, vs, |Flatten(d.data["widths"][..i])| + ni, track[ni], d.data["vehicles"][i], |d.data["vehicles"][0]|)
  {
    var vehicles := d.data["vehicles"];
    var blocks := FlatWindowTracks(d, inputs, foresight, |vehicles|, cores).value;
    FlatBlockAt(d, inputs, foresight, cores, blocks, i, track);
    CopiedAtTrackRow(d.data["widths"], AsSlice, vehicles, |vehicles[0]|, blocks, Fill(true, |vehicles|), |Flatten(d.data["angles"])|,
                     Fill(0.0, (2 * foresight.value + 1) * |inputs|), 0.0, x, vs, i, track, ni);
  }

  /** Track `i`'s flat windows are entry `i` of the encoded tracks, and
      every track before it has one row per width. */
  lemma FlatBlockAt(d: NormalisedData, inputs: seq<string>, foresight: Option<int>, cores: int,
                    blocks: seq<Matrix>, i: nat, track: Matrix)
    requires "vehicles" in d.data && i < |d.data["vehicles"]|
    requires FlatWindowTracks(d, inputs, foresight, |d.data["vehicles"]|, cores) == Ok(blocks)
    requires FlatWindowTrack(d, inputs, foresight, i) == Ok(track)
    ensures "widths" in d.data && i < |d.data["widths"]|
    ensures |blocks| == |d.data["vehicles"]| && blocks[i] == track
    ensures forall t :: 0 <= t < i ==> |blocks[t]| == |d.data["widths"][t]|
  {
    forall t | 0 <= t < i
      ensures |blocks[t]| == |d.data["widths"][t]|
    {
      assert FlatWindowTrack(d, inputs, foresight, t) == Ok(blocks[t]);
    }
  }
}
