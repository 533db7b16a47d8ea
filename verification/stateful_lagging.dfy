/** The lagging history transform for stateful networks: instead of one
    window per segmentation line, each track becomes a single sequence of
    patches, the track fed through twice so the first line has the corner
    before it as history; the targets are one row per patch of the track,
    each the lagged output values around that patch. */
module StatefulLagging {
  import opened Wrappers
  import opened Functional
  import opened Patching
  import opened Normalisation
  import opened Sampling
  import opened Desampling
  import opened Assembly
  import opened Windows
  import opened Lagging

  /* ---------------- the input sequence ---------------- */

  /** The time column: zeros, then `track[:len(v), -1] = v`, then
      `track[-len(v):, -1] = v`. Without a time vector the second slice is
      the whole column, which nothing can fill unless it is empty. */
  function StatefulTimeColumn(n: nat, v: seq<real>): (r: Result<seq<real>, Failure>)
    ensures r.Ok? ==> |r.value| == n
    ensures |v| == 0 ==> (r.Ok? <==> n == 0)
    ensures |v| == 0 && n > 0 ==> r == Err(ValueError)
    ensures 0 < |v| <= n ==> r.Ok?
    ensures r.Ok? && |v| <= n ==>
              && (forall k :: 0 <= k < n - |v| ==> r.value[k] == if k < |v| then v[k] else 0.0)
              && r.value[n - |v|..] == v
  {
    if |v| == 0 then (if n == 0 then Ok([]) else Err(ValueError))
    else
      assert v[..|v|] == v;
      TimeColumn(n, v, |v|)
  }

  /** The input of one track: the combined inputs twice over, patched,
      with the time column appended when `ttv` is set. */
  function StatefulInput(track: seq<seq<real>>, cols: nat, p: int, ps: int, ttv: bool): (r: Result<seq<seq<real>>, Failure>)
    requires IsMatrix(track, cols)
    ensures r.Ok? ==> Patchify(track + track, cols, p).Ok? && |r.value| == |Patchify(track + track, cols, p).value|
    ensures r.Ok? && !ttv ==> r.value == Patchify(track + track, cols, p).value
    ensures r.Ok? && ttv ==> forall k :: 0 <= k < |r.value| ==>
              && StatefulTimeColumn(|r.value|, TimeVector(ps)).Ok?
              && r.value[k] == Patchify(track + track, cols, p).value[k] + [StatefulTimeColumn(|r.value|, TimeVector(ps)).value[k]]
  {
    assert IsMatrix(track + track, cols);
    var patched :- Patchify(track + track, cols, p);
    if !ttv then Ok(patched)
    else
      var col :- StatefulTimeColumn(|patched|, TimeVector(ps));
      Ok(seq(|patched|, k requires 0 <= k < |patched| => patched[k] + [col[k]]))
  }

  /** On a track of `n > 0` lines and a positive patch size, the input is
      `ceil(2n / p)` rows of `cols * p` entries plus the time column; that
      column holds the time vector at its first rows, again at its last
      `ceil(n / p)` rows, and zeros in between. */
  lemma StatefulInputShape(track: seq<seq<real>>, cols: nat, p: int, ttv: bool)
    requires IsMatrix(track, cols) && |track| > 0 && p >= 1
    ensures var ps := CeilDivInt(|track|, p);
            var rows := CeilDivInt(2 * |track|, p);
            var r := StatefulInput(track, cols, p, ps, ttv);
      && r.Ok? && |r.value| == rows && ps <= rows
      && IsMatrix(r.value, LagWidth(cols, p, ttv))
      && (ttv ==> forall k :: 0 <= k < rows ==>
            r.value[k][cols * p] == if k >= rows - ps then TimeVector(ps)[k - (rows - ps)]
                                    else if k < ps then TimeVector(ps)[k] else 0.0)
  {
    var n := |track|;
    var ps := CeilDivInt(n, p);
    var rows := CeilDivInt(2 * n, p);
    assert IsMatrix(track + track, cols);
    PatchCount(track + track, cols, p);
    CeilMono(n, 2 * n, p);
    PatchOfLine(0, n, p);
    var patched := Patchify(track + track, cols, p).value;
    assert |patched| == rows && IsMatrix(patched, cols * p);
    if ttv {
      TimeColumnAt(rows, ps);
      TimedInputShape(patched, cols * p, StatefulTimeColumn(rows, TimeVector(ps)).value);
    }
  }

  /** Appending one entry of a column to each row of a matrix widens it
      by one, and the new last entry is the column's. */
  lemma TimedInputShape(patched: seq<seq<real>>, width: nat, col: seq<real>)
    requires IsMatrix(patched, width) && |col| == |patched|
    ensures var r := seq(|patched|, k requires 0 <= k < |patched| => patched[k] + [col[k]]);
      && IsMatrix(r, width + 1)
      && forall k :: 0 <= k < |patched| ==> r[k][width] == col[k]
  {
  }

  /** The time column over `rows >= ps >= 1` rows, entry by entry. */
  lemma TimeColumnAt(rows: nat, ps: int)
    requires 1 <= ps <= rows
    ensures var v := TimeVector(ps);
            var col := StatefulTimeColumn(rows, v);
      col.Ok? && forall k :: 0 <= k < rows ==>
        col.value[k] == if k >= rows - ps then v[k - (rows - ps)] else if k < ps then v[k] else 0.0
  {
    var v := TimeVector(ps);
    assert |v| == ps;
    var col := StatefulTimeColumn(rows, v).value;
    forall k | 0 <= k < rows
      ensures col[k] == if k >= rows - ps then v[k - (rows - ps)] else if k < ps then v[k] else 0.0
    {
      if k >= rows - ps {
        assert col[rows - ps..][k - (rows - ps)] == col[k];
      }
    }
  }

  /* ---------------- the target rows ---------------- */

  /** `final_outputs[o][i] = patched_outputs[o][start:start + w]`: the
      slice, clipped to the looped output, fills a row of `w` when it has
      `w` entries, or one entry to broadcast; otherwise numpy raises. */
  function AssignRow(looped: seq<real>, start: nat, w: nat): (r: Result<seq<real>, Failure>)
    ensures r.Ok? ==> |r.value| == w
    ensures start + w <= |looped| ==> r == Ok(looped[start..start + w])
  {
    var lo := if start < |looped| then start else |looped|;
    var hi := if start + w < |looped| then start + w else |looped|;
    var slice := looped[lo..hi];
    if |slice| == w then Ok(slice)
    else if |slice| == 1 then Ok(Fill(slice[0], w))
    else Err(ValueError)
  }

  /** The start of target row `i` of `ps` over a track of `n` lines:
      `(N - P * (1 + L + s)) % N` with `L = ps - i - 1` patches still to
      come. */
  function PatchStart(n: nat, p: int, s: int, ps: int, i: int): (start: nat)
    requires n > 0
    ensures start < n
  {
    (n - p * (1 + (ps - i - 1) + s)) % n
  }

  /** The target rows of one looped output over `rows` patches, each the
      `w`-wide slice from its patch start. A track without lines has no
      rows; with rows, a zero track length divides by zero. */
  function TargetRows(looped: seq<real>, n: nat, s: int, p: int, ps: int, rows: nat): (r: Result<seq<seq<real>>, Failure>)
    requires TargetWidth(s, p) >= 0
    ensures r.Ok? ==> |r.value| == rows && IsMatrix(r.value, TargetWidth(s, p))
    ensures rows > 0 && n == 0 ==> r == Err(ZeroDivision)
  {
    var w := TargetWidth(s, p);
    var rs := seq(rows, i requires 0 <= i < rows =>
      if n == 0 then Err(ZeroDivision) else AssignRow(looped, PatchStart(n, p, s, ps, i), w));
    AllOk(rs)
  }

  /** `np.roll(normalised[key][t], lag)`, raising as the lookups do and
      for a missing lag. */
  function RolledOutput(d: NormalisedData, key: string, t: nat, lag: Option<int>): (r: Result<seq<real>, Failure>)
    ensures r.Ok? <==> key in d.data && t < |d.data[key]| && lag.Some?
    ensures r.Ok? ==> r.value == Roll(d.data[key][t], lag.value)
  {
    if key !in d.data then Err(KeyError(key))
    else if t >= |d.data[key]| then Err(IndexError)
    else if lag.None? then Err(TypeError)
    else Ok(Roll(d.data[key][t], lag.value))
  }

  /** The targets of track `t` for every output, in the order the code
      computes them: every output rolled, every rolled output looped, the
      zero arrays shaped, then each patch row assigned. Only a positive
      patch size iterates over the track's patches. */
  function StatefulTargets(d: NormalisedData, outputs: seq<string>, t: nat, n: nat,
                           sampling: Option<int>, lag: Option<int>, p: int, ps: int)
    : (r: Result<seq<Matrix>, Failure>)
    ensures r.Ok? ==> |r.value| == |outputs|
    ensures |outputs| > 0 && sampling.None? ==> r.Err?
    ensures r.Ok? && |outputs| > 0 && p > 0 ==>
              sampling.Some? && lag.Some? && ps >= 0 && TargetWidth(sampling.value, p) >= 0
              && forall o :: 0 <= o < |outputs| ==>
                   && RolledOutput(d, outputs[o], t, lag).Ok?
                   && LoopTrack(RolledOutput(d, outputs[o], t, lag).value, sampling.value, p).Ok?
                   && TargetRows(LoopTrack(RolledOutput(d, outputs[o], t, lag).value, sampling.value, p).value,
                                 n, sampling.value, p, ps, ps) == Ok(r.value[o])
  {
    var rs := seq(|outputs|, o requires 0 <= o < |outputs| => RolledOutput(d, outputs[o], t, lag));
    assert forall o :: 0 <= o < |outputs| ==> rs[o] == RolledOutput(d, outputs[o], t, lag);
    match AllOk(rs)
    case Err(e) => Err(e)
    case Ok(rolled) =>
      if |outputs| == 0 then Ok([])
      else if sampling.None? then Err(TypeError)
      else
        var s := sampling.value;
        var looped :- LoopAll(rolled, s, p);
        if ps < 0 || TargetWidth(s, p) < 0 then Err(ValueError)
        else RowsAll(looped, n, s, p, ps)
  }

  /** Every rolled output looped, raising for the first that does. */
  function LoopAll(rolled: seq<seq<real>>, s: int, p: int): (r: Result<seq<seq<real>>, Failure>)
    ensures r.Ok? <==> forall o :: 0 <= o < |rolled| ==> LoopTrack(rolled[o], s, p).Ok?
    ensures r.Ok? ==> |r.value| == |rolled| && forall o :: 0 <= o < |rolled| ==> LoopTrack(rolled[o], s, p) == Ok(r.value[o])
  {
    var ls := seq(|rolled|, o requires 0 <= o < |rolled| => LoopTrack(rolled[o], s, p));
    assert forall o :: 0 <= o < |rolled| ==> ls[o] == LoopTrack(rolled[o], s, p);
    AllOk(ls)
  }

  /** The target rows of every looped output; only a positive patch size
      fills any row. */
  function RowsAll(looped: seq<seq<real>>, n: nat, s: int, p: int, ps: nat): (r: Result<seq<Matrix>, Failure>)
    requires TargetWidth(s, p) >= 0
    ensures r.Ok? ==> |r.value| == |looped|
    ensures r.Ok? && p > 0 ==> forall o :: 0 <= o < |looped| ==> TargetRows(looped[o], n, s, p, ps, ps) == Ok(r.value[o])
  {
    var rows: nat := if p > 0 then ps else 0;
    var ts := seq(|looped|, o requires 0 <= o < |looped| => TargetRows(looped[o], n, s, p, ps, rows));
    assert forall o :: 0 <= o < |looped| ==> ts[o] == TargetRows(looped[o], n, s, p, ps, rows);
    AllOk(ts)
  }

  /* ---------------- one track ---------------- */

  /** What one track contributes: its input sequence, one target array per
      output, and its vehicle. */
  datatype StatefulEntry = StatefulEntry(input: Matrix, targets: seq<Matrix>, vehicle: seq<real>)

  /** The body of the transform's loop for track `t`. */
  function StatefulTrack(d: NormalisedData, inputs: seq<string>, outputs: seq<string>,
                         sampling: Option<int>, lag: Option<int>, p: int, ttv: bool, t: nat)
    : (r: Result<StatefulEntry, Failure>)
    ensures TrackLen(d, t).Err? ==> r == Err(TrackLen(d, t).error)
    ensures TrackLen(d, t).Ok? && p == 0 ==> r == Err(ZeroDivision)
    ensures r.Ok? ==> TrackLen(d, t).Ok? && p != 0 && |r.value.targets| == |outputs|
    ensures r.Ok? ==> "vehicles" in d.data && t < |d.data["vehicles"]| && r.value.vehicle == d.data["vehicles"][t]
    ensures r.Ok? ==> InputTracks(d, inputs, t).Ok? && Combine(InputTracks(d, inputs, t).value).Ok?
  {
    var n :- TrackLen(d, t);
    var ps :- PyCeilDiv(n, p);
    var ins :- InputTracks(d, inputs, t);
    var track :- Combine(ins);
    var input :- StatefulInput(track, |inputs|, p, ps, ttv);
    if "vehicles" !in d.data then Err(KeyError("vehicles"))
    else if t >= |d.data["vehicles"]| then Err(IndexError)
    else
      var targets :- StatefulTargets(d, outputs, t, n, sampling, lag, p, ps);
      Ok(StatefulEntry(input, targets, d.data["vehicles"][t]))
  }

  /** Data on which track `t` is well formed: its inputs and outputs have
      the widths' `n > 0` lines and it has a vehicle. */
  predicate TrackShaped(d: NormalisedData, inputs: seq<string>, outputs: seq<string>, t: nat) {
    && "widths" in d.data && t < |d.data["widths"]| && |d.data["widths"][t]| > 0
    && "vehicles" in d.data && t < |d.data["vehicles"]|
    && (forall i :: 0 <= i < |inputs| ==>
          inputs[i] in d.data && t < |d.data[inputs[i]]| && |d.data[inputs[i]][t]| == |d.data["widths"][t]|)
    && (forall o :: 0 <= o < |outputs| ==>
          outputs[o] in d.data && t < |d.data[outputs[o]]| && |d.data[outputs[o]][t]| == |d.data["widths"][t]|)
  }

  /** On a well-formed track with at least one input, a positive patch size
      and a non-negative sampling, the track never raises: its input has
      `ceil(2n / p)` rows of `len(inputs) * p + ttv` entries and each
      output has `ceil(n / p)` target rows of `p * (2s + 1)` entries. */
  lemma StatefulTrackSucceeds(d: NormalisedData, inputs: seq<string>, outputs: seq<string>,
                              s: int, lag: int, p: int, ttv: bool, t: nat)
    requires TrackShaped(d, inputs, outputs, t) && |inputs| > 0 && p >= 1 && s >= 0
    ensures var r := StatefulTrack(d, inputs, outputs, Some(s), Some(lag), p, ttv, t);
            var n := |d.data["widths"][t]|;
      && r.Ok?
      && |r.value.input| == CeilDivInt(2 * n, p)
      && IsMatrix(r.value.input, LagWidth(|inputs|, p, ttv))
      && forall o :: 0 <= o < |outputs| ==>
           |r.value.targets[o]| == CeilDivInt(n, p) && IsMatrix(r.value.targets[o], TargetWidth(s, p))
  {
    var n := |d.data["widths"][t]|;
    var ps := CeilDivInt(n, p);
    var ins := InputTracks(d, inputs, t).value;
    var track := Combine(ins).value;
    assert |track| == n;
    StatefulInputShape(track, |inputs|, p, ttv);
    MulMono(1, 2 * s + 1, p);
    StatefulTargetsSucceed(d, outputs, t, n, s, lag, p);
  }

  /** The targets of a well-formed track are computed, one target row per
      patch. */
  lemma StatefulTargetsSucceed(d: NormalisedData, outputs: seq<string>, t: nat, n: nat, s: int, lag: int, p: int)
    requires n > 0 && p >= 1 && s >= 0
    requires forall o :: 0 <= o < |outputs| ==> outputs[o] in d.data && t < |d.data[outputs[o]]| && |d.data[outputs[o]][t]| == n
    ensures var r := StatefulTargets(d, outputs, t, n, Some(s), Some(lag), p, CeilDivInt(n, p));
      r.Ok? && forall o :: 0 <= o < |outputs| ==>
        |r.value[o]| == CeilDivInt(n, p) && IsMatrix(r.value[o], TargetWidth(s, p))
  {
    var ps := CeilDivInt(n, p);
    PatchOfLine(0, n, p);
    MulMono(1, 2 * s + 1, p);
    forall o | 0 <= o < |outputs|
      ensures LoopTrack(RolledOutput(d, outputs[o], t, Some(lag)).value, s, p).Ok?
      ensures TargetRows(LoopTrack(RolledOutput(d, outputs[o], t, Some(lag)).value, s, p).value, n, s, p, ps, ps).Ok?
    {
      var arr := d.data[outputs[o]][t];
      assert RolledOutput(d, outputs[o], t, Some(lag)).value == Roll(arr, lag);
      TargetRowsSucceed(Roll(arr, lag), s, p);
    }
  }

  /** The target rows of a non-empty track, looped, are all computed. */
  lemma TargetRowsSucceed(arr: seq<real>, s: int, p: int)
    requires |arr| > 0 && p >= 1 && s >= 0
    ensures LoopTrack(arr, s, p).Ok?
    ensures TargetWidth(s, p) >= 0
    ensures TargetRows(LoopTrack(arr, s, p).value, |arr|, s, p, CeilDivInt(|arr|, p), CeilDivInt(|arr|, p)).Ok?
  {
    var n := |arr|;
    MulMono(1, 2 * s + 1, p);
    assert CeilDivInt(TargetWidth(s, p), n) >= 0;
    var looped := LoopTrack(arr, s, p).value;
    LoopTrackLongEnough(arr, s, p);
    var ps := CeilDivInt(n, p);
    PatchOfLine(0, n, p);
    forall i | 0 <= i < ps
      ensures AssignRow(looped, PatchStart(n, p, s, ps, i), TargetWidth(s, p)).Ok?
    {
    }
  }

  /* ---------------- the transform ---------------- */

  /** `StatefulLaggingTransformMethod.transform`: for every vehicle's
      track, in order, its input sequence, its target arrays and its
      vehicle; the first track that raises ends the transform. */
  function StatefulTransform(d: NormalisedData, inputs: seq<string>, outputs: seq<string>,
                             sampling: Option<int>, lag: Option<int>, p: int, ttv: bool)
    : (r: Result<(seq<Matrix>, seq<seq<Matrix>>, Matrix), Failure>)
    ensures "vehicles" !in d.data ==> r == Err(KeyError("vehicles"))
    ensures r.Ok? ==> ("vehicles" in d.data
      && |r.value.0| == |d.data["vehicles"]| && |r.value.1| == |d.data["vehicles"]|
      && r.value.2 == d.data["vehicles"])
    ensures r.Ok? ==> forall t :: 0 <= t < |d.data["vehicles"]| ==>
      StatefulTrack(d, inputs, outputs, sampling, lag, p, ttv, t)
        == Ok(StatefulEntry(r.value.0[t], r.value.1[t], r.value.2[t]))
  {
    if "vehicles" !in d.data then Err(KeyError("vehicles"))
    else
      var count := |d.data["vehicles"]|;
      var rs := seq(count, t requires 0 <= t < count => StatefulTrack(d, inputs, outputs, sampling, lag, p, ttv, t));
      var entries :- AllOk(rs);
      assert forall t :: 0 <= t < count ==> rs[t] == Ok(entries[t]) && entries[t].vehicle == d.data["vehicles"][t];
      var u := Unzip(entries);
      assert u.2 == d.data["vehicles"];
      Ok(u)
  }

  /** The inputs, the targets and the vehicles of the entries, each in
      entry order. */
  function Unzip(entries: seq<StatefulEntry>): (r: (seq<Matrix>, seq<seq<Matrix>>, Matrix))
    ensures |r.0| == |entries| && |r.1| == |entries| && |r.2| == |entries|
    ensures forall t :: 0 <= t < |entries| ==> entries[t] == StatefulEntry(r.0[t], r.1[t], r.2[t])
  {
    (seq(|entries|, t requires 0 <= t < |entries| => entries[t].input),
     seq(|entries|, t requires 0 <= t < |entries| => entries[t].targets),
     seq(|entries|, t requires 0 <= t < |entries| => entries[t].vehicle))
  }

  /** On data whose every vehicle's track is well formed, the transform
      never raises and gives one input sequence and one set of targets per
      vehicle. */
  lemma StatefulTransformSucceeds(d: NormalisedData, inputs: seq<string>, outputs: seq<string>,
                                  s: int, lag: int, p: int, ttv: bool)
    requires "vehicles" in d.data && |inputs| > 0 && p >= 1 && s >= 0
    requires forall t :: 0 <= t < |d.data["vehicles"]| ==> TrackShaped(d, inputs, outputs, t)
    ensures StatefulTransform(d, inputs, outputs, Some(s), Some(lag), p, ttv).Ok?
  {
    forall t | 0 <= t < |d.data["vehicles"]|
      ensures StatefulTrack(d, inputs, outputs, Some(s), Some(lag), p, ttv, t).Ok?
    {
      StatefulTrackSucceeds(d, inputs, outputs, s, lag, p, ttv, t);
    }
  }

  /** Detransforming the targets the transform gives output `o` of a
      well-formed track recovers that output's values on the track. */
  lemma StatefulTrackRoundTrip(d: NormalisedData, inputs: seq<string>, outputs: seq<string>,
                               s: int, lag: int, p: int, ttv: bool, t: nat, o: nat)
    requires TrackShaped(d, inputs, outputs, t) && |inputs| > 0 && p >= 1 && s >= 0 && o < |outputs|
    ensures StatefulTrack(d, inputs, outputs, Some(s), Some(lag), p, ttv, t).Ok?
    ensures var arr := d.data[outputs[o]][t];
            var e := StatefulTrack(d, inputs, outputs, Some(s), Some(lag), p, ttv, t).value;
      StatefulDetransform(|d.data["widths"][t]|, e.targets[o], Some(s), p, Some(lag))
        == Ok(seq(|arr|, j requires 0 <= j < |arr| => Some(arr[j])))
  {
    StatefulTrackSucceeds(d, inputs, outputs, s, lag, p, ttv, t);
    var n := |d.data["widths"][t]|;
    var arr := d.data[outputs[o]][t];
    var e := StatefulTrack(d, inputs, outputs, Some(s), Some(lag), p, ttv, t).value;
    assert StatefulTargets(d, outputs, t, n, Some(s), Some(lag), p, CeilDivInt(n, p)) == Ok(e.targets);
    assert RolledOutput(d, outputs[o], t, Some(lag)).value == Roll(arr, lag);
    StatefulRoundTrip(arr, s, lag, p);
  }

  /* ---------------- the detransform ---------------- */

  /** The lists of the detransform's append loop: value `i` of row
      `index` is appended to list
      `(N - P * (1 + (len(output) - index - 1) + s) + i) % N`. A negative
      track length leaves no list to append to. */
  function StatefulBins(trackLength: int, output: seq<seq<real>>, sampling: Option<int>, p: int)
    : (r: Result<seq<seq<real>>, Failure>)
    ensures r.Ok? ==> |r.value| == if trackLength < 0 then 0 else trackLength
    ensures |Flatten(output)| == 0 ==> r == Ok(Fill([], if trackLength < 0 then 0 else trackLength))
    ensures |Flatten(output)| > 0 && sampling.None? ==> r == Err(TypeError)
    ensures |Flatten(output)| > 0 && sampling.Some? && trackLength == 0 ==> r == Err(ZeroDivision)
    ensures |Flatten(output)| > 0 && sampling.Some? && trackLength < 0 ==> r == Err(IndexError)
  {
    var n: nat := if trackLength < 0 then 0 else trackLength;
    if |Flatten(output)| == 0 then Ok(Fill([], n))
    else if sampling.None? then Err(TypeError)
    else if trackLength == 0 then Err(ZeroDivision)
    else
      var c := StatefulOffset(trackLength, p, sampling.value, |output|);
      if trackLength < 0 then NoListToAppend(output, p, c, trackLength); Gather(Grid(Widths(output), p, c, trackLength), n, output)
      else Gather(Grid(Widths(output), p, c, trackLength), n, output)
  }

  /** `StatefulLaggingTransformMethod.detransform` for one output: the
      lists of the append loop, each averaged, the means rolled back by
      the lag. */
  function StatefulDetransform(trackLength: int, output: seq<seq<real>>, sampling: Option<int>, p: int, lag: Option<int>)
    : (r: Result<seq<Option<real>>, Failure>)
    ensures r.Ok? ==> |r.value| == (if trackLength < 0 then 0 else trackLength) && lag.Some?
    ensures |Flatten(output)| > 0 && sampling.None? ==> r == Err(TypeError)
    ensures |Flatten(output)| > 0 && sampling.Some? && trackLength == 0 ==> r == Err(ZeroDivision)
    ensures |Flatten(output)| > 0 && sampling.Some? && trackLength < 0 ==> r == Err(IndexError)
    ensures |Flatten(output)| == 0 && lag.Some? ==> r.Ok? && forall j :: 0 <= j < |r.value| ==> r.value[j].None?
  {
    var bins :- StatefulBins(trackLength, output, sampling, p);
    if lag.None? then Err(TypeError)
    else
      RollNone(Means(bins), -lag.value);
      Ok(Roll(Means(bins), -lag.value))
  }

  /** Rolling keeps a sequence of only `None` so. */
  lemma RollNone<T>(s: seq<Option<T>>, k: int)
    ensures (forall j :: 0 <= j < |s| ==> s[j].None?) ==> forall j :: 0 <= j < |s| ==> Roll(s, k)[j].None?
  {
    forall j | 0 <= j < |s|
      ensures Roll(s, k)[j] == s[(j - k) % |s|]
    {
      RollAt(s, k, j);
    }
  }

  /** A grid placement on a negative list count lands nowhere. */
  lemma NoListToAppend(output: seq<seq<real>>, p: int, c: int, m: int)
    requires m < 0 && |Flatten(output)| > 0
    ensures Gather(Grid(Widths(output), p, c, m), 0, output) == Err(IndexError)
  {
    FlattenMember(output, Flatten(output)[0]);
    var r :| 0 <= r < |output| && Flatten(output)[0] in output[r];
    GridHas(Widths(output), p, c, m, r, 0);
  }

  /** `detransform` over every output, raising for the first that fails. */
  function StatefulDetransformAll(trackLength: int, outputs: seq<seq<seq<real>>>, sampling: Option<int>, p: int, lag: Option<int>)
    : (r: Result<seq<seq<Option<real>>>, Failure>)
    ensures r.Ok? <==> forall i :: 0 <= i < |outputs| ==> StatefulDetransform(trackLength, outputs[i], sampling, p, lag).Ok?
    ensures r.Ok? ==> (|r.value| == |outputs|
      && forall i :: 0 <= i < |outputs| ==> r.value[i] == StatefulDetransform(trackLength, outputs[i], sampling, p, lag).value)
  {
    var rs := seq(|outputs|, i requires 0 <= i < |outputs| => StatefulDetransform(trackLength, outputs[i], sampling, p, lag));
    assert forall i :: 0 <= i < |outputs| ==> rs[i] == StatefulDetransform(trackLength, outputs[i], sampling, p, lag);
    AllOk(rs)
  }

  /* ---------------- the round trip ---------------- */

  /** Cell `(r, k)` of the output holds line `(stride * r + k + c) mod n`. */
  predicate StrideCellsRead(a: seq<real>, stride: int, c: int, out: seq<seq<real>>)
    requires |a| > 0
  {
    forall r, k :: 0 <= r < |out| && 0 <= k < |out[r]| ==> out[r][k] == a[(stride * r + k + c) % |a|]
  }

  /** The list the detransform's grid starts from for `rows` rows of a
      track of `n` lines. */
  function StatefulOffset(n: int, p: int, s: int, rows: int): int {
    n - p * (rows + s)
  }

  /** Entry `k` of target row `i` is the track at
      `(N - P * (1 + L + s) - lag + k) mod N`, the start the transform's
      tests compute; every cell reads the lag-rolled track along the
      detransform's grid. */
  lemma TargetRowsRead(arr: seq<real>, s: int, lag: int, p: int)
    requires |arr| > 0 && p >= 1 && s >= 0
    ensures TargetRowsSucceedFacts(arr, s, lag, p)
    ensures var n := |arr|;
            var ps := CeilDivInt(n, p);
            var out := TargetRows(LoopTrack(Roll(arr, lag), s, p).value, n, s, p, ps, ps).value;
      && StrideCellsRead(Roll(arr, lag), p, StatefulOffset(n, p, s, ps), out)
      && forall i, k :: 0 <= i < |out| && 0 <= k < |out[i]| ==>
           out[i][k] == arr[(n - p * (1 + (ps - i - 1) + s) - lag + k) % n]
  {
    var n := |arr|;
    var ps := CeilDivInt(n, p);
    var rolled := Roll(arr, lag);
    TargetRowsSucceed(rolled, s, p);
    var out := TargetRows(LoopTrack(rolled, s, p).value, n, s, p, ps, ps).value;
    CellsRead(arr, s, lag, p, out);
  }

  /** Every cell of the target rows, read through the loop and the roll. */
  lemma CellsRead(arr: seq<real>, s: int, lag: int, p: int, out: Matrix)
    requires |arr| > 0 && p >= 1 && s >= 0
    requires TargetRowsSucceedFacts(arr, s, lag, p)
    requires out == TargetRows(LoopTrack(Roll(arr, lag), s, p).value, |arr|, s, p, CeilDivInt(|arr|, p), CeilDivInt(|arr|, p)).value
    ensures StrideCellsRead(Roll(arr, lag), p, StatefulOffset(|arr|, p, s, CeilDivInt(|arr|, p)), out)
    ensures forall i, k :: 0 <= i < |out| && 0 <= k < |out[i]| ==>
              out[i][k] == arr[(|arr| - p * (1 + (CeilDivInt(|arr|, p) - i - 1) + s) - lag + k) % |arr|]
  {
    forall i, k | 0 <= i < |out| && 0 <= k < |out[i]|
      ensures out[i][k] == Roll(arr, lag)[(p * i + k + StatefulOffset(|arr|, p, s, CeilDivInt(|arr|, p))) % |arr|]
      ensures out[i][k] == arr[(|arr| - p * (1 + (CeilDivInt(|arr|, p) - i - 1) + s) - lag + k) % |arr|]
    {
      CellRead(arr, s, lag, p, out, i, k);
    }
  }

  predicate TargetRowsSucceedFacts(arr: seq<real>, s: int, lag: int, p: int)
    requires |arr| > 0 && p >= 1
  {
    && LoopTrack(Roll(arr, lag), s, p).Ok? && TargetWidth(s, p) >= 0
    && TargetRows(LoopTrack(Roll(arr, lag), s, p).value, |arr|, s, p, CeilDivInt(|arr|, p), CeilDivInt(|arr|, p)).Ok?
  }

  /** One cell of the target rows, read through the loop and the roll. */
  lemma CellRead(arr: seq<real>, s: int, lag: int, p: int, out: Matrix, i: int, k: int)
    requires |arr| > 0 && p >= 1 && s >= 0
    requires TargetRowsSucceedFacts(arr, s, lag, p)
    requires out == TargetRows(LoopTrack(Roll(arr, lag), s, p).value, |arr|, s, p, CeilDivInt(|arr|, p), CeilDivInt(|arr|, p)).value
    requires 0 <= i < |out| && 0 <= k < |out[i]|
    ensures out[i][k] == Roll(arr, lag)[(p * i + k + StatefulOffset(|arr|, p, s, CeilDivInt(|arr|, p))) % |arr|]
    ensures out[i][k] == arr[(|arr| - p * (1 + (CeilDivInt(|arr|, p) - i - 1) + s) - lag + k) % |arr|]
  {
    CellOfLoop(arr, s, lag, p, out, i, k);
    LoopCellRead(arr, s, lag, p, i, k, out[i][k]);
  }

  /** A value read from the loop `k` after the start of patch row `i` is
      the rolled track on the detransform's grid and the track `lag`
      before it. */
  lemma LoopCellRead(arr: seq<real>, s: int, lag: int, p: int, i: int, k: int, v: real)
    requires |arr| > 0 && p >= 1 && s >= 0 && k >= 0
    requires LoopTrack(Roll(arr, lag), s, p).Ok?
    requires var a := |arr| - p * (1 + (CeilDivInt(|arr|, p) - i - 1) + s);
             var looped := LoopTrack(Roll(arr, lag), s, p).value;
      && a % |arr| + k < |looped|
      && v == looped[a % |arr| + k]
    ensures v == Roll(arr, lag)[(p * i + k + StatefulOffset(|arr|, p, s, CeilDivInt(|arr|, p))) % |arr|]
    ensures v == arr[(|arr| - p * (1 + (CeilDivInt(|arr|, p) - i - 1) + s) - lag + k) % |arr|]
  {
    var n := |arr|;
    var ps := CeilDivInt(n, p);
    var rolled := Roll(arr, lag);
    var looped := LoopTrack(rolled, s, p).value;
    var a := n - p * (1 + (ps - i - 1) + s);
    LoopTrackAt(rolled, s, p, a % n + k);
    LoopedRollRead(arr, lag, looped, a, k);
    assert a + k == p * i + k + StatefulOffset(n, p, s, ps);
  }

  /** One cell of the target rows is an entry of the loop, `k` after the
      start of its patch row. */
  lemma CellOfLoop(arr: seq<real>, s: int, lag: int, p: int, out: Matrix, i: int, k: int)
    requires |arr| > 0 && p >= 1 && s >= 0
    requires TargetRowsSucceedFacts(arr, s, lag, p)
    requires out == TargetRows(LoopTrack(Roll(arr, lag), s, p).value, |arr|, s, p, CeilDivInt(|arr|, p), CeilDivInt(|arr|, p)).value
    requires 0 <= i < |out| && 0 <= k < |out[i]|
    ensures var a := |arr| - p * (1 + (CeilDivInt(|arr|, p) - i - 1) + s);
            var looped := LoopTrack(Roll(arr, lag), s, p).value;
      && a % |arr| + k < |looped|
      && out[i][k] == looped[a % |arr| + k]
  {
    var n := |arr|;
    var ps := CeilDivInt(n, p);
    var rolled := Roll(arr, lag);
    var looped := LoopTrack(rolled, s, p).value;
    LoopTrackLongEnough(rolled, s, p);
    TargetRowCell(looped, n, s, p, ps, ps, i, k);
  }

  /** Cell `k` of target row `i` is the loop's entry `k` after the row's
      patch start. */
  lemma TargetRowCell(looped: seq<real>, n: nat, s: int, p: int, ps: int, rows: nat, i: int, k: int)
    requires n > 0 && TargetWidth(s, p) >= 0 && |looped| >= n + TargetWidth(s, p)
    requires TargetRows(looped, n, s, p, ps, rows).Ok?
    requires 0 <= i < rows && 0 <= k < TargetWidth(s, p)
    ensures PatchStart(n, p, s, ps, i) + k < |looped|
    ensures TargetRows(looped, n, s, p, ps, rows).value[i][k] == looped[PatchStart(n, p, s, ps, i) + k]
  {
    var w := TargetWidth(s, p);
    var start := PatchStart(n, p, s, ps, i);
    assert TargetRows(looped, n, s, p, ps, rows).value[i] == looped[start..start + w];
  }

  /** Entry `a % n + k` of a loop of the rolled track is the rolled track
      at `(a + k) % n`, which is the track at `(a + k - lag) % n`. */
  lemma LoopedRollRead(arr: seq<real>, lag: int, looped: seq<real>, a: int, k: nat)
    requires |arr| > 0 && a % |arr| + k < |looped|
    requires looped[a % |arr| + k] == Roll(arr, lag)[(a % |arr| + k) % |arr|]
    ensures looped[a % |arr| + k] == Roll(arr, lag)[(a + k) % |arr|]
    ensures looped[a % |arr| + k] == arr[(a + k - lag) % |arr|]
  {
    var n := |arr|;
    ModOfSum(a, k, n);
    RollAt(arr, lag, (a + k) % n);
    ModOfSum(a + k, -lag, n);
  }

  /** Detransforming the targets of a track, as the transform lays them out
      over its `ceil(n / p)` patches, gives the track back: every line is
      covered by some patch row, every value placed at a line is the line
      `lag` before it, and the final roll undoes the lag. */
  lemma StatefulRoundTrip(arr: seq<real>, s: int, lag: int, p: int)
    requires |arr| > 0 && s >= 0 && p >= 1
    ensures TargetRowsSucceedFacts(arr, s, lag, p)
    ensures var ps := CeilDivInt(|arr|, p);
      StatefulDetransform(|arr|, TargetRows(LoopTrack(Roll(arr, lag), s, p).value, |arr|, s, p, ps, ps).value, Some(s), p, Some(lag))
        == Ok(seq(|arr|, j requires 0 <= j < |arr| => Some(arr[j])))
  {
    var n := |arr|;
    var ps := CeilDivInt(n, p);
    TargetRowsRead(arr, s, lag, p);
    var out := TargetRows(LoopTrack(Roll(arr, lag), s, p).value, n, s, p, ps, ps).value;
    PatchOfLine(0, n, p);
    MulMono(1, 2 * s + 1, p);
    StatefulRecovers(arr, s, lag, p, ps, out);
  }

  /** The detransform of any `ps` rows of the target width whose cells read
      the lag-rolled track along the grid is the track, when the rows'
      patches cover it. */
  lemma StatefulRecovers(arr: seq<real>, s: int, lag: int, p: int, ps: nat, out: seq<seq<real>>)
    requires |arr| > 0 && s >= 0 && p >= 1 && |arr| <= ps * p
    requires |out| == ps && TargetWidth(s, p) >= p && IsMatrix(out, TargetWidth(s, p))
    requires StrideCellsRead(Roll(arr, lag), p, StatefulOffset(|arr|, p, s, ps), out)
    ensures StatefulDetransform(|arr|, out, Some(s), p, Some(lag)) == Ok(seq(|arr|, j requires 0 <= j < |arr| => Some(arr[j])))
  {
    var n := |arr|;
    var c := StatefulOffset(n, p, s, ps);
    var a := Roll(arr, lag);
    var g := Grid(Widths(out), p, c, n);
    FlattenHas(out, 0, 0);
    GridPlaceable(out, p, c, n, n);
    forall j | 0 <= j < n
      ensures Hits(g, n, j)
    {
      StatefulHits(n, p, c, ps, out, j);
    }
    forall q | q in g && Placeable(q, n, out)
      ensures ValueOf(q, out) == a[Target(q, n)]
    {
      GridMember(Widths(out), p, c, n, q);
    }
    DesampleRecovers(g, out, a);
    StatefulDetransformOfGrid(n, out, s, p, lag);
    Unroll(arr, lag);
  }

  /** A detransform of an output with entries over a positive track length
      is the rolled-back means of its grid. */
  lemma StatefulDetransformOfGrid(n: nat, out: seq<seq<real>>, s: int, p: int, lag: int)
    requires n > 0 && |Flatten(out)| > 0
    requires Gather(Grid(Widths(out), p, StatefulOffset(n, p, s, |out|), n), n, out).Ok?
    ensures StatefulDetransform(n, out, Some(s), p, Some(lag))
            == Ok(Roll(Means(Gather(Grid(Widths(out), p, StatefulOffset(n, p, s, |out|), n), n, out).value), -lag))
  {
    StatefulBinsOfGrid(n, out, s, p);
  }

  lemma StatefulBinsOfGrid(n: nat, out: seq<seq<real>>, s: int, p: int)
    requires n > 0 && |Flatten(out)| > 0
    ensures StatefulBins(n, out, Some(s), p) == Gather(Grid(Widths(out), p, StatefulOffset(n, p, s, |out|), n), n, out)
  {
  }

  /** Line `j` is reached from row `x / p`, entry `x mod p`, where
      `x = (j - c) mod n`: the patch rows cover the track. */
  lemma StatefulHits(n: nat, p: int, c: int, ps: nat, out: seq<seq<real>>, j: nat)
    requires 0 < n <= ps * p && p >= 1 && j < n
    requires |out| == ps && forall r :: 0 <= r < ps ==> |out[r]| >= p
    ensures Hits(Grid(Widths(out), p, c, n), n, j)
  {
    var x := (j - c) % n;
    var r, k := x / p, x % p;
    assert p * r + k == x;
    if r >= ps {
      MulMono(ps, r, p);
    }
    ModShift(x, c, n, j);
    GridHits(Widths(out), p, c, n, n, r, k, j);
  }
}
