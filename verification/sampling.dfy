/** The training targets of the transform methods: each segmentation line
    is given the output values (positions, velocities) of a window of
    lines around it, built by rolling the track by a lag and looping it so
    that every window can be sliced out directly. */
module Sampling {
  import opened Wrappers
  import opened Functional
  import opened Patching
  import opened Normalisation

  /** `math.ceil(a / b)` for a positive denominator and any numerator. */
  function CeilDivInt(a: int, b: int): (r: int)
    requires b > 0
    ensures r * b >= a && (r - 1) * b < a
    ensures a >= 0 ==> r >= 0
  {
    var q := (-a) / b;
    assert q * b <= -a < q * b + b;
    -q
  }

  /** The width of one target row: `p` patches of `2s + 1` lines. */
  function TargetWidth(s: int, p: int): int {
    p * (s * 2 + 1)
  }

  /** `loop_track_for_patching_sampling`: the track repeated
      `ceil(p * (2s + 1) / len) + 1` times. An empty track divides by zero,
      and a repeat count below one concatenates nothing, which numpy
      refuses. */
  function LoopTrack(arr: seq<real>, s: int, p: int): (r: Result<seq<real>, Failure>)
    ensures |arr| == 0 ==> r == Err(ZeroDivision)
    ensures |arr| > 0 ==> (r.Ok? <==> CeilDivInt(TargetWidth(s, p), |arr|) >= 0)
    ensures r.Err? && |arr| > 0 ==> r.error == ValueError
    ensures r.Ok? ==> |r.value| == |arr| * (CeilDivInt(TargetWidth(s, p), |arr|) + 1)
  {
    if |arr| == 0 then Err(ZeroDivision)
    else
      var repeats := CeilDivInt(TargetWidth(s, p), |arr|) + 1;
      if repeats <= 0 then Err(ValueError)
      else
        FlattenMatrix(Fill(arr, repeats), |arr|);
        Ok(Flatten(Fill(arr, repeats)))
  }

  /** The looped track at `k` is the track at `k mod len`, and it is long
      enough to slice a whole target row from any start inside the
      track. */
  lemma LoopTrackAt(arr: seq<real>, s: int, p: int, k: int)
    requires LoopTrack(arr, s, p).Ok? && 0 <= k < |LoopTrack(arr, s, p).value|
    ensures LoopTrack(arr, s, p).value[k] == arr[k % |arr|]
  {
    var repeats := CeilDivInt(TargetWidth(s, p), |arr|) + 1;
    assert LoopTrack(arr, s, p).value == Flatten(Fill(arr, repeats));
    RepeatAt(arr, repeats, k);
  }

  lemma LoopTrackLongEnough(arr: seq<real>, s: int, p: int)
    requires LoopTrack(arr, s, p).Ok?
    ensures |LoopTrack(arr, s, p).value| >= |arr| + TargetWidth(s, p)
  {
    var n := |arr|;
    var c := CeilDivInt(TargetWidth(s, p), n);
    assert n * (c + 1) == c * n + n;
  }

  /** `compute_targets_for_track`: row `i` is the slice of width
      `p * (2s + 1)` of the looped, lag-rolled track that starts at
      `(i + 1 - p - s * p) mod len`. A negative width is a negative array
      dimension; an empty track divides by zero. */
  function ComputeTargets(arr: seq<real>, s: int, lag: int, p: int): (r: Result<seq<seq<real>>, Failure>)
    ensures r.Ok? <==> TargetWidth(s, p) >= 0 && |arr| > 0
    ensures TargetWidth(s, p) < 0 ==> r == Err(ValueError)
    ensures TargetWidth(s, p) >= 0 && |arr| == 0 ==> r == Err(ZeroDivision)
    ensures r.Ok? ==> |r.value| == |arr| && IsMatrix(r.value, TargetWidth(s, p))
  {
    var w := TargetWidth(s, p);
    if w < 0 then Err(ValueError)
    else if |arr| == 0 then Err(ZeroDivision)
    else
      var n := |arr|;
      assert CeilDivInt(w, n) >= 0;
      var looped := LoopTrack(Roll(arr, lag), s, p).value;
      LoopTrackLongEnough(Roll(arr, lag), s, p);
      Ok(seq(n, i requires 0 <= i < n => looped[(i + 1 - p - s * p) % n..(i + 1 - p - s * p) % n + w]))
  }

  /** Entry `k` of target row `i` is the track at
      `(i + 1 - p - s * p - lag + k) mod len`. */
  lemma ComputeTargetsAt(arr: seq<real>, s: int, lag: int, p: int, i: int, k: int)
    requires ComputeTargets(arr, s, lag, p).Ok?
    requires 0 <= i < |arr| && 0 <= k < TargetWidth(s, p)
    ensures ComputeTargets(arr, s, lag, p).value[i][k] == arr[(i + 1 - p - s * p - lag + k) % |arr|]
  {
    var n := |arr|;
    var rolled := Roll(arr, lag);
    var looped := LoopTrack(rolled, s, p).value;
    var a := i + 1 - p - s * p;
    var start := a % n;
    LoopTrackLongEnough(rolled, s, p);
    assert ComputeTargets(arr, s, lag, p).value[i] == looped[start..start + TargetWidth(s, p)];
    LoopTrackAt(rolled, s, p, start + k);
    RollAt(arr, lag, (start + k) % n);
    TargetIndex(a, k, lag, n);
  }

  lemma TargetIndex(a: int, k: int, lag: int, n: int)
    requires n > 0
    ensures ((a % n + k) % n - lag) % n == (a - lag + k) % n
  {
    ModOfSum(a, k, n);
    ModOfSum(a + k, -lag, n);
  }

  /** With no lag, one line per patch and no sampling, the targets are the
      track itself, one value per row. */
  lemma TargetsWithoutSampling(arr: seq<real>, i: int)
    requires |arr| > 0 && 0 <= i < |arr|
    ensures ComputeTargets(arr, 0, 0, 1).Ok?
    ensures ComputeTargets(arr, 0, 0, 1).value[i] == [arr[i]]
  {
    ComputeTargetsAt(arr, 0, 0, 1, i, 0);
    ModInRange(i, |arr|);
  }

  /* ---------------- stacking the targets of every track ---------------- */

  /** The target rows of one output of track `t`, stretched to the track's
      `trackLen` rows: a single row is broadcast, any other mismatch
      raises. */
  function TargetBlock(d: NormalisedData, key: string, t: nat, trackLen: nat,
                       sampling: Option<int>, lag: Option<int>, p: int): (r: Result<Matrix, Failure>)
    ensures r.Ok? ==> |r.value| == trackLen
  {
    if key !in d.data then Err(KeyError(key))
    else if t >= |d.data[key]| then Err(IndexError)
    else if sampling.None? || lag.None? then Err(TypeError)
    else
      var targets :- ComputeTargets(d.data[key][t], sampling.value, lag.value, p);
      if |targets| == trackLen then Ok(targets)
      else if |targets| == 1 then Ok(Fill(targets[0], trackLen))
      else Err(ValueError)
  }

  /** One target block per output key for track `t`, in key order. */
  function TrackBlocks(d: NormalisedData, outputs: seq<string>, t: nat,
                       sampling: Option<int>, lag: Option<int>, p: int): (r: Result<seq<Matrix>, Failure>)
    requires "widths" in d.data
    ensures r.Ok? ==> |r.value| == |outputs|
  {
    if t >= |d.data["widths"]| then Err(IndexError)
    else
      var n := |d.data["widths"][t]|;
      AllOk(seq(|outputs|, i requires 0 <= i < |outputs| => TargetBlock(d, outputs[i], t, n, sampling, lag, p)))
  }

  /** Block `i` of every track, stacked in track order. */
  function Stack(blocks: seq<seq<Matrix>>, i: nat): Matrix
    requires forall t :: 0 <= t < |blocks| ==> i < |blocks[t]|
  {
    Flatten(seq(|blocks|, t requires 0 <= t < |blocks| => blocks[t][i]))
  }

  /** `get_target_output`: one matrix per output key with `normals_count`
      rows of width `p * (2s + 1)`; the rows of track `t` are its targets,
      the tracks follow each other in order, and rows past the last
      vehicle's track keep their zeros. */
  function GetTargetOutput(d: NormalisedData, outputs: seq<string>,
                           sampling: Option<int>, lag: Option<int>, p: int): (r: Result<seq<Matrix>, Failure>)
    ensures "widths" !in d.data ==> r == Err(KeyError("widths"))
    ensures |outputs| > 0 && "widths" in d.data && sampling.None? ==> r == Err(TypeError)
    ensures r.Ok? ==> |r.value| == |outputs|
  {
    if "widths" !in d.data then Err(KeyError("widths"))
    else if |outputs| > 0 && sampling.None? then Err(TypeError)
    else if |outputs| > 0 && TargetWidth(sampling.value, p) < 0 then Err(ValueError)
    else if "vehicles" !in d.data then Err(KeyError("vehicles"))
    else
      var widths := d.data["widths"];
      var count := |Flatten(widths)|;
      var tracks := |d.data["vehicles"]|;
      var blocks :- AllOk(seq(tracks, t requires 0 <= t < tracks => TrackBlocks(d, outputs, t, sampling, lag, p)));
      if |outputs| == 0 then Ok([])
      else
        var w := TargetWidth(sampling.value, p);
        Ok(seq(|outputs|, i requires 0 <= i < |outputs| =>
          var stacked := Stack(blocks, i);
          var rest := count - |stacked|;
          stacked + Fill(Fill(0.0, w), if rest < 0 then 0 else rest)))
  }

  /** Data whose output tracks match the width tracks one for one. */
  predicate TargetsShaped(d: NormalisedData, outputs: seq<string>) {
    && "widths" in d.data && "vehicles" in d.data
    && |d.data["vehicles"]| == |d.data["widths"]|
    && (forall t :: 0 <= t < |d.data["widths"]| ==> |d.data["widths"][t]| > 0)
    && forall i :: 0 <= i < |outputs| ==>
         && outputs[i] in d.data
         && |d.data[outputs[i]]| == |d.data["widths"]|
         && forall t :: 0 <= t < |d.data["widths"]| ==> |d.data[outputs[i]][t]| == |d.data["widths"][t]|
  }

  /** On well-shaped data, track `t`'s blocks are its targets, one per
      output key. */
  lemma TrackBlocksTargets(d: NormalisedData, outputs: seq<string>, s: int, lag: int, p: int, t: nat)
    requires TargetsShaped(d, outputs) && TargetWidth(s, p) >= 0 && t < |d.data["widths"]|
    ensures var r := TrackBlocks(d, outputs, t, Some(s), Some(lag), p);
      && r.Ok?
      && forall j :: 0 <= j < |outputs| ==> r.value[j] == ComputeTargets(d.data[outputs[j]][t], s, lag, p).value
  {
    var n := |d.data["widths"][t]|;
    var bs := seq(|outputs|, j requires 0 <= j < |outputs| => TargetBlock(d, outputs[j], t, n, Some(s), Some(lag), p));
    assert forall j :: 0 <= j < |outputs| ==> bs[j] == Ok(ComputeTargets(d.data[outputs[j]][t], s, lag, p).value);
  }

  /** On well-shaped data, output `i` is the targets of every track stacked
      in track order, `normals_count` rows in all. */
  lemma TargetOutputStacksTracks(d: NormalisedData, outputs: seq<string>, s: int, lag: int, p: int, i: int)
    requires TargetsShaped(d, outputs) && TargetWidth(s, p) >= 0 && 0 <= i < |outputs|
    ensures GetTargetOutput(d, outputs, Some(s), Some(lag), p).Ok?
    ensures var out := GetTargetOutput(d, outputs, Some(s), Some(lag), p).value[i];
      var widths := d.data["widths"];
      && |out| == |Flatten(widths)|
      && out == Flatten(seq(|widths|, t requires 0 <= t < |widths| =>
                          ComputeTargets(d.data[outputs[i]][t], s, lag, p).value))
  {
    var tracks := |d.data["vehicles"]|;
    var rs := seq(tracks, t requires 0 <= t < tracks => TrackBlocks(d, outputs, t, Some(s), Some(lag), p));
    EveryTrackBlocks(d, outputs, s, lag, p);
    StackedTargets(d, outputs, s, lag, p, i, AllOk(rs).value);
  }

  /** On well-shaped data every track's blocks succeed, and they are the
      targets of each output key. */
  lemma EveryTrackBlocks(d: NormalisedData, outputs: seq<string>, s: int, lag: int, p: int)
    requires TargetsShaped(d, outputs) && TargetWidth(s, p) >= 0
    ensures var tracks := |d.data["vehicles"]|;
            var r := AllOk(seq(tracks, t requires 0 <= t < tracks => TrackBlocks(d, outputs, t, Some(s), Some(lag), p)));
      && r.Ok? && |r.value| == tracks
      && forall t :: 0 <= t < tracks ==>
           && |r.value[t]| == |outputs|
           && forall j :: 0 <= j < |outputs| ==> r.value[t][j] == ComputeTargets(d.data[outputs[j]][t], s, lag, p).value
  {
    var tracks := |d.data["vehicles"]|;
    var rs := seq(tracks, t requires 0 <= t < tracks => TrackBlocks(d, outputs, t, Some(s), Some(lag), p));
    forall t | 0 <= t < tracks
      ensures rs[t].Ok? && |rs[t].value| == |outputs|
      ensures forall j :: 0 <= j < |outputs| ==> rs[t].value[j] == ComputeTargets(d.data[outputs[j]][t], s, lag, p).value
    {
      TrackBlocksTargets(d, outputs, s, lag, p, t);
    }
  }

  /** Stacking output `i` of blocks that hold every track's targets gives
      those targets in track order, one row per line. */
  lemma StackedTargets(d: NormalisedData, outputs: seq<string>, s: int, lag: int, p: int, i: int, blocks: seq<seq<Matrix>>)
    requires TargetsShaped(d, outputs) && TargetWidth(s, p) >= 0 && 0 <= i < |outputs|
    requires |blocks| == |d.data["widths"]|
    requires forall t :: 0 <= t < |blocks| ==> i < |blocks[t]| && blocks[t][i] == ComputeTargets(d.data[outputs[i]][t], s, lag, p).value
    ensures var widths := d.data["widths"];
      && |Stack(blocks, i)| == |Flatten(widths)|
      && Stack(blocks, i) == Flatten(seq(|widths|, t requires 0 <= t < |widths| =>
                               ComputeTargets(d.data[outputs[i]][t], s, lag, p).value))
  {
    var widths := d.data["widths"];
    var targets := seq(|widths|, t requires 0 <= t < |widths| => ComputeTargets(d.data[outputs[i]][t], s, lag, p).value);
    assert seq(|blocks|, t requires 0 <= t < |blocks| => blocks[t][i]) == targets;
    FlattenSameShape(targets, widths);
  }
}
