/** The lagging history transform for stateless networks: segmentation
    line `ni` is given the whole track followed by the track again up to
    and including line `ni`, grouped into patches and right-aligned in
    rows of -1, so the last patch ends on the line being predicted. */
module Lagging {
  import opened Wrappers
  import opened Functional
  import opened Patching
  import opened Normalisation
  import opened Sampling
  import opened Desampling
  import opened Assembly
  import opened Windows
  import opened Bidirectional

  /* ---------------- apply_sampling ---------------- */

  /** `y` followed by `count` more entries, each the one before it rolled
      back by one: the list `apply_sampling` builds from `y = np.roll(x, s)`. */
  function RollsBack<T>(y: seq<T>, count: nat): (rolls: seq<seq<T>>)
    ensures |rolls| == count + 1
    ensures forall j :: 0 <= j < |rolls| ==> |rolls[j]| == |y|
    decreases count
  {
    if count == 0 then [y] else [y] + RollsBack(Roll(y, -1), count - 1)
  }

  /** Entry `j` of the list is `y` rolled back by `j`. */
  lemma {:induction false} RollsBackAt<T>(y: seq<T>, count: nat, j: int)
    requires 0 <= j <= count
    ensures RollsBack(y, count)[j] == Roll(y, -j)
    decreases count
  {
    if j == 0 {
      RollZero(y);
    } else {
      RollsBackAt(Roll(y, -1), count - 1, j - 1);
      RollsBackStep(y, count, j);
    }
  }

  /** One more entry down the list is one more roll back. */
  lemma RollsBackStep<T>(y: seq<T>, count: nat, j: int)
    requires 1 <= j <= count
    requires RollsBack(Roll(y, -1), count - 1)[j - 1] == Roll(Roll(y, -1), -(j - 1))
    ensures RollsBack(y, count)[j] == Roll(y, -j)
  {
    assert RollsBack(y, count)[j] == RollsBack(Roll(y, -1), count - 1)[j - 1];
    RollCompose(y, -1, -(j - 1));
    assert -1 + -(j - 1) == -j;
  }

  /** The number of column blocks `apply_sampling` concatenates:
      `range(2s)` is empty for a negative `s`. */
  function SamplingBlocks(s: int): (count: nat)
    ensures s >= 0 ==> count == 2 * s + 1
    ensures s < 0 ==> count == 1
  {
    if s > 0 then 2 * s + 1 else 1
  }

  /** Row `row` of every array in the list, side by side. */
  function SideBySide<T>(arrays: seq<seq<seq<T>>>, row: nat): (r: seq<T>)
    requires forall j :: 0 <= j < |arrays| ==> row < |arrays[j]|
    ensures |arrays| == 0 ==> r == []
    ensures |arrays| == 1 ==> r == arrays[0][row]
  {
    var blocks := seq(|arrays|, j requires 0 <= j < |arrays| => arrays[j][row]);
    assert |arrays| == 1 ==> Flatten(blocks) == Flatten(blocks[..0]) + arrays[0][row];
    assert |arrays| == 1 ==> Flatten(blocks[..0]) == [];
    Flatten(blocks)
  }

  /** With rows of `cols` entries, column `c` of block `j` sits at
      `j * cols + c`. */
  lemma SideBySideAt<T>(arrays: seq<seq<seq<T>>>, cols: nat, row: nat, j: nat, c: nat)
    requires forall jj :: 0 <= jj < |arrays| ==> row < |arrays[jj]| && |arrays[jj][row]| == cols
    requires j < |arrays| && c < cols
    ensures |SideBySide(arrays, row)| == |arrays| * cols
    ensures SideBySide(arrays, row)[j * cols + c] == arrays[j][row][c]
  {
    var blocks := seq(|arrays|, jj requires 0 <= jj < |arrays| => arrays[jj][row]);
    assert IsMatrix(blocks, cols);
    assert SideBySide(arrays, row) == Flatten(blocks);
    FlattenMatrix(blocks, cols);
    assert blocks[j] == arrays[j][row];
  }

  /** `apply_sampling(x, s)`: the rolled copies concatenated along the
      columns. */
  function ApplySampling(x: seq<seq<real>>, s: int): (r: seq<seq<real>>)
    ensures |r| == |x|
  {
    var rolls := RollsBack(Roll(x, s), SamplingBlocks(s) - 1);
    seq(|x|, row requires 0 <= row < |x| => SideBySide(rolls, row))
  }

  /** Column `c` of block `j` lies inside `count` blocks of `cols`. */
  lemma BlockIndex(j: int, c: int, cols: int, count: int)
    requires 0 <= j < count && 0 <= c < cols
    ensures j * cols + c < count * cols
  {
    MulMono(j + 1, count, cols);
    assert (j + 1) * cols == j * cols + cols;
  }

  /** Entry `j` of the list built from a matrix is the matrix rolled by
      `s - j`, still a matrix of the same width. */
  lemma RollsBackMatrix(x: seq<seq<real>>, cols: nat, s: int, count: nat, j: int)
    requires IsMatrix(x, cols) && 0 <= j <= count
    ensures RollsBack(Roll(x, s), count)[j] == Roll(x, s - j)
    ensures IsMatrix(Roll(x, s - j), cols)
  {
    RollMatrix(x, cols, s - j);
    RollsBackRolled(x, s, count, j);
  }

  /** Entry `j` of the list built from `x` rolled by `s` is `x` rolled by
      `s - j`. */
  lemma RollsBackRolled<T>(x: seq<T>, s: int, count: nat, j: int)
    requires 0 <= j <= count
    ensures RollsBack(Roll(x, s), count)[j] == Roll(x, s - j)
  {
    calc {
      RollsBack(Roll(x, s), count)[j];
      { RollsBackAt(Roll(x, s), count, j); }
      Roll(Roll(x, s), -j);
      { RollCompose(x, s, -j); }
      Roll(x, s + -j);
      { assert s + -j == s - j; }
      Roll(x, s - j);
    }
  }

  /** Every entry of the list built from a matrix has row `row`, of the
      matrix's width. */
  lemma RollsBackRows(x: seq<seq<real>>, cols: nat, s: int, count: nat, row: nat)
    requires IsMatrix(x, cols) && row < |x|
    ensures forall j :: 0 <= j < count + 1 ==>
      row < |RollsBack(Roll(x, s), count)[j]| && |RollsBack(Roll(x, s), count)[j][row]| == cols
  {
    forall j | 0 <= j < count + 1
      ensures row < |RollsBack(Roll(x, s), count)[j]| && |RollsBack(Roll(x, s), count)[j][row]| == cols
    {
      RollsBackMatrix(x, cols, s, count, j);
    }
  }

  /** A rolled matrix is a matrix of the same width. */
  lemma RollMatrix(x: seq<seq<real>>, cols: nat, k: int)
    requires IsMatrix(x, cols)
    ensures IsMatrix(Roll(x, k), cols)
  {
    forall i | 0 <= i < |x|
      ensures |Roll(x, k)[i]| == cols
    {
      RollAt(x, k, i);
    }
  }

  /** Row `row` of the sampled array holds, in its column block `j`, the
      input row `row - s + j` (cyclically): each row sees the `s` lines
      before it, itself and the `s` lines after it. */
  lemma ApplySamplingAt(x: seq<seq<real>>, cols: nat, s: int, row: nat, j: int, c: nat)
    requires IsMatrix(x, cols) && row < |x| && 0 <= j < SamplingBlocks(s) && c < cols
    ensures j * cols + c < |ApplySampling(x, s)[row]|
    ensures ApplySampling(x, s)[row][j * cols + c] == x[(row - s + j) % |x|][c]
    ensures |ApplySampling(x, s)[row]| == SamplingBlocks(s) * cols
  {
    SampledBlock(x, cols, s, row, j, c);
    RolledEntry(x, cols, s - j, row, c, row - s + j);
  }

  /** Entry `c` of row `row` of a matrix rolled by `k` is entry `c` of
      row `row - k`, cyclically. */
  lemma RolledEntry(x: seq<seq<real>>, cols: nat, k: int, row: nat, c: nat, from: int)
    requires IsMatrix(x, cols) && row < |x| && c < cols && from == row - k
    ensures IsMatrix(Roll(x, k), cols)
    ensures Roll(x, k)[row][c] == x[from % |x|][c]
  {
    RollMatrix(x, cols, k);
    RollAt(x, k, row);
  }

  /** Column `c` of block `j` in row `row` of the sampled array is column
      `c` of row `row` of the input rolled by `s - j`. */
  lemma SampledBlock(x: seq<seq<real>>, cols: nat, s: int, row: nat, j: int, c: nat)
    requires IsMatrix(x, cols) && row < |x| && 0 <= j < SamplingBlocks(s) && c < cols
    ensures |ApplySampling(x, s)[row]| == SamplingBlocks(s) * cols
    ensures j * cols + c < |ApplySampling(x, s)[row]|
    ensures IsMatrix(Roll(x, s - j), cols)
    ensures ApplySampling(x, s)[row][j * cols + c] == Roll(x, s - j)[row][c]
  {
    BlockIndex(j, c, cols, SamplingBlocks(s));
    var rolls := RollsBack(Roll(x, s), SamplingBlocks(s) - 1);
    RollsBackRows(x, cols, s, SamplingBlocks(s) - 1, row);
    SideBySideAt(rolls, cols, row, j, c);
    assert ApplySampling(x, s)[row] == SideBySide(rolls, row);
    RollsBackMatrix(x, cols, s, SamplingBlocks(s) - 1, j);
  }

  /* ---------------- ceiling arithmetic ---------------- */

  /** `ceil(a / p)` grows with `a`. */
  lemma CeilMono(a: int, b: int, p: int)
    requires p > 0 && a <= b
    ensures CeilDivInt(a, p) <= CeilDivInt(b, p)
  {
    var ca, cb := CeilDivInt(a, p), CeilDivInt(b, p);
    if ca > cb {
      MulMono(cb, ca - 1, p);
    }
  }

  /** Twice a track needs at most twice its patches. */
  lemma CeilDouble(a: int, p: int)
    requires p > 0
    ensures CeilDivInt(2 * a, p) <= 2 * CeilDivInt(a, p)
  {
    var c, d := CeilDivInt(a, p), CeilDivInt(2 * a, p);
    if d > 2 * c {
      MulMono(2 * c, d - 1, p);
    }
  }

  /** Line `ni` of a track of `n` lines lies in one of its
      `ceil(n / p)` patches. */
  lemma PatchOfLine(ni: nat, n: nat, p: int)
    requires p > 0 && ni < n
    ensures ni / p + 1 <= CeilDivInt(n, p)
  {
    var c := CeilDivInt(n, p);
    var q := ni / p;
    assert q * p <= ni;
    if q + 1 > c {
      MulMono(c, q, p);
    }
  }

  /* ---------------- one line ---------------- */

  /** `np.concatenate((track, track[:ni + 1]))`. */
  function Subtrack<T>(track: seq<T>, ni: nat): (sub: seq<T>)
    ensures |sub| == |track| + (if ni + 1 <= |track| then ni + 1 else |track|)
    ensures |track| > 0 ==> forall k :: 0 <= k < |sub| ==> sub[k] == track[k % |track|]
  {
    var pre := if ni + 1 <= |track| then ni + 1 else |track|;
    var sub := track + track[..pre];
    forall k | 0 <= k < |sub| && |track| > 0
      ensures sub[k] == track[k % |track|]
    {
      if k < |track| {
        ModInRange(k, |track|);
      } else {
        ModUnique(k, |track|, 1, k - |track|);
      }
    }
    sub
  }

  /** The subtrack ends on line `ni`: its last row is the line itself. */
  lemma SubtrackEndsOnLine<T>(track: seq<T>, ni: nat)
    requires ni < |track|
    ensures |Subtrack(track, ni)| == |track| + ni + 1
    ensures Subtrack(track, ni)[|track| + ni] == track[ni]
  {
    ModUnique(|track| + ni, |track|, 1, ni);
  }

  /** `np.arange(ps) / max(1, ps - 1)`: the patch positions scaled so the
      first is 0 and the last is 1. */
  function TimeVector(ps: int): (v: seq<real>)
    ensures |v| == (if ps > 0 then ps else 0)
    ensures forall k :: 0 <= k < |v| ==> v[k] == k as real / (if ps - 1 > 1 then ps - 1 else 1) as real
  {
    var len := if ps > 0 then ps else 0;
    var d := if ps - 1 > 1 then ps - 1 else 1;
    seq(len, k requires 0 <= k < len => k as real / d as real)
  }

  /** The time vector runs from 0 to 1. */
  lemma TimeVectorInUnit(ps: int, k: nat)
    requires k < |TimeVector(ps)|
    ensures 0.0 <= TimeVector(ps)[k] <= 1.0
    ensures k == 0 ==> TimeVector(ps)[k] == 0.0
    ensures ps > 1 && k == ps - 1 ==> TimeVector(ps)[k] == 1.0
  {
    var d := if ps - 1 > 1 then ps - 1 else 1;
    assert k <= d;
    var kr, dr := k as real, d as real;
    assert TimeVector(ps)[k] == kr / dr;
    DivInUnit(kr, dr);
    ZeroDiv(dr);
    DivSelf(dr);
  }

  /** The time column of the `_lag_transform` loop over `n` patch rows:
      zeros, then `time_vec[:len(v)] = v`, then
      `time_vec[-e:] = v[:e]`. Either assignment raises when its slice and
      its values differ in length and there is more than one value. */
  function TimeColumn(n: nat, v: seq<real>, e: nat): (r: Result<seq<real>, Failure>)
    requires e >= 1
    ensures r.Ok? ==> |r.value| == n
    ensures |v| <= n && e <= |v| ==> r.Ok?
    ensures r.Ok? && |v| <= n && e <= |v| ==>
              && (forall k :: 0 <= k < |v| && k < n - e ==> r.value[k] == v[k])
              && (forall k :: |v| <= k < n - e ==> r.value[k] == 0.0)
              && r.value[n - e..] == v[..e]
  {
    var head := if |v| < n then |v| else n;
    if !(head == |v| || |v| == 1) then Err(ValueError)
    else
      var values := if e < |v| then e else |v|;
      var tail := if e < n then e else n;
      if !(values == tail || values == 1) then Err(ValueError)
      else
        Ok(seq(n, k requires 0 <= k < n =>
          if k >= n - tail then v[if values == 1 then 0 else k - (n - tail)]
          else if k < head then v[if |v| == 1 then 0 else k]
          else 0.0))
  }

  /** The width of a lag row: `p` lines of `cols` values each, and the
      time column when `ttv` is set. */
  function LagWidth(cols: nat, p: int, ttv: bool): (w: int)
    ensures p >= 0 ==> w >= 0
  {
    cols * p + (if ttv then 1 else 0)
  }

  /** The entry of line `ni`: the patched subtrack, with the time column
      when `ttv` is set, right-aligned in `rows` rows. */
  function LagLine(track: seq<seq<real>>, cols: nat, p: int, ps: int, rows: nat, ttv: bool, ni: nat)
    : (r: Result<seq<seq<real>>, Failure>)
    requires p >= 1 && IsMatrix(track, cols)
    ensures r.Ok? ==> |r.value| == rows && IsMatrix(r.value, LagWidth(cols, p, ttv))
  {
    var sub := Subtrack(track, ni);
    assert IsMatrix(sub, cols);
    PatchCount(sub, cols, p);
    var patched := Patchify(sub, cols, p).value;
    var withTime :- if ttv then TimedRows(patched, TimeVector(ps), ni / p + 1) else Ok(patched);
    if !AlignFits(|withTime|, rows) then Err(ValueError)
    else Ok(RightAlign(withTime, rows, LagWidth(cols, p, ttv)))
  }

  /** `np.hstack((subtrack, time_vec))`. */
  function TimedRows(patched: seq<seq<real>>, v: seq<real>, e: nat): (r: Result<seq<seq<real>>, Failure>)
    requires e >= 1
    ensures r.Ok? ==> |r.value| == |patched| && TimeColumn(|patched|, v, e).Ok?
    ensures r.Ok? ==> forall k :: 0 <= k < |patched| ==>
              r.value[k] == patched[k] + [TimeColumn(|patched|, v, e).value[k]]
    ensures r.Err? ==> TimeColumn(|patched|, v, e).Err?
  {
    var col :- TimeColumn(|patched|, v, e);
    Ok(seq(|patched|, k requires 0 <= k < |patched| => patched[k] + [col[k]]))
  }

  /** Every line's entry, raising for the first line that does. */
  function LagLines(track: seq<seq<real>>, cols: nat, p: int, ps: int, rows: nat, ttv: bool, n: nat)
    : (r: Result<seq<seq<seq<real>>>, Failure>)
    requires p >= 1 && IsMatrix(track, cols)
    ensures r.Ok? <==> forall ni :: 0 <= ni < n ==> LagLine(track, cols, p, ps, rows, ttv, ni).Ok?
    ensures r.Ok? ==> |r.value| == n && forall ni :: 0 <= ni < n ==> LagLine(track, cols, p, ps, rows, ttv, ni) == Ok(r.value[ni])
  {
    var rs := seq(n, ni requires 0 <= ni < n => LagLine(track, cols, p, ps, rows, ttv, ni));
    assert forall ni :: 0 <= ni < n ==> rs[ni] == LagLine(track, cols, p, ps, rows, ttv, ni);
    AllOk(rs)
  }

  /** The patch counts of line `ni`'s subtrack: at least the track's own
      `ceil(n / p)` and at most twice that, and the line's own patch is
      among the track's. */
  lemma SubtrackPatches(n: nat, ni: nat, p: int)
    requires p >= 1 && ni < n
    ensures var ps := CeilDivInt(n, p);
            var len := CeilDivInt(n + ni + 1, p);
      1 <= ps <= len <= 2 * ps && ni / p + 1 <= ps
  {
    CeilMono(n, n + ni + 1, p);
    CeilMono(n + ni + 1, 2 * n, p);
    CeilDouble(n, p);
    PatchOfLine(ni, n, p);
    PatchOfLine(0, n, p);
  }

  /** When the track has the `n` lines the widths say, every line's
      patched subtrack fits the `2 * ceil(n / p)` rows and the time
      assignments line up: no line raises. */
  lemma LagLineFits(track: seq<seq<real>>, cols: nat, p: int, ttv: bool, ni: nat)
    requires p >= 1 && IsMatrix(track, cols) && ni < |track|
    ensures LagLine(track, cols, p, CeilDivInt(|track|, p), 2 * CeilDivInt(|track|, p), ttv, ni).Ok?
  {
    var ps := CeilDivInt(|track|, p);
    SubtrackPatched(track, cols, p, ni);
    var patched := Patchify(Subtrack(track, ni), cols, p).value;
    assert 1 <= |patched| <= 2 * ps;
    if ttv {
      TimedFits(patched, ps, ni / p + 1);
      LagLineOk(track, cols, p, ps, 2 * ps, true, ni);
    } else {
      LagLineOk(track, cols, p, ps, 2 * ps, false, ni);
    }
  }

  /** Line `ni`'s patched subtrack has between `ceil(n / p)` and twice
      that many rows, and the line's own patch is among the first
      `ceil(n / p)`. */
  lemma SubtrackPatched(track: seq<seq<real>>, cols: nat, p: int, ni: nat)
    requires p >= 1 && IsMatrix(track, cols) && ni < |track|
    ensures var ps := CeilDivInt(|track|, p);
            var patched := Patchify(Subtrack(track, ni), cols, p);
      patched.Ok? && 1 <= ps <= |patched.value| <= 2 * ps && ni / p + 1 <= ps
  {
    var n := |track|;
    var sub := Subtrack(track, ni);
    assert |sub| == n + ni + 1;
    assert IsMatrix(sub, cols);
    PatchCount(sub, cols, p);
    SubtrackPatches(n, ni, p);
  }

  /** A line's entry is computed when its patched subtrack, with the time
      column if asked for, fits the rows. */
  lemma LagLineOk(track: seq<seq<real>>, cols: nat, p: int, ps: int, rows: nat, ttv: bool, ni: nat)
    requires p >= 1 && IsMatrix(track, cols)
    requires var patched := Patchify(Subtrack(track, ni), cols, p);
      && patched.Ok? && 1 <= |patched.value| <= rows
      && (ttv ==> ni / p + 1 >= 1 && TimedRows(patched.value, TimeVector(ps), ni / p + 1).Ok?
                  && |TimedRows(patched.value, TimeVector(ps), ni / p + 1).value| == |patched.value|)
    ensures LagLine(track, cols, p, ps, rows, ttv, ni).Ok?
  {
  }

  /** The time column of a patched subtrack with at least as many rows as
      the time vector has entries never raises. */
  lemma TimedFits(patched: seq<seq<real>>, ps: int, e: nat)
    requires 1 <= e <= ps <= |patched|
    ensures TimedRows(patched, TimeVector(ps), e).Ok?
    ensures |TimedRows(patched, TimeVector(ps), e).value| == |patched|
  {
    var v := TimeVector(ps);
    assert |v| == ps;
    assert TimeColumn(|patched|, v, e).Ok?;
  }

  /** Without the time column, line `ni`'s entry is its patched subtrack
      behind rows of -1. */
  lemma LagLinePadded(track: seq<seq<real>>, cols: nat, p: int, ni: nat)
    requires p >= 1 && IsMatrix(track, cols) && ni < |track|
    ensures var ps := CeilDivInt(|track|, p);
            var patched := Patchify(Subtrack(track, ni), cols, p);
      && patched.Ok? && ps <= |patched.value| <= 2 * ps
      && LagLine(track, cols, p, ps, 2 * ps, false, ni)
         == Ok(Fill(Fill(-1.0, cols * p), 2 * ps - |patched.value|) + patched.value)
  {
    var n := |track|;
    var ps := CeilDivInt(n, p);
    var sub := Subtrack(track, ni);
    assert |sub| == n + ni + 1;
    assert IsMatrix(sub, cols);
    PatchCount(sub, cols, p);
    SubtrackPatches(n, ni, p);
    var patched := Patchify(sub, cols, p).value;
    var line := RightAlign(patched, 2 * ps, cols * p);
    var pad := Fill(Fill(-1.0, cols * p), 2 * ps - |patched|);
    assert line == pad + patched;
  }

  /* ---------------- one track ---------------- */

  /** `_lag_transform`: `track_length` lines, each an array of
      `2 * ceil(track_length / p)` rows of `len(inputs) * p + ttv`
      entries. The array's dimensions are checked before the inputs are
      read and stacked as columns; every line then raises as its
      subtrack or time column does. */
  function LagTrack(d: NormalisedData, inputs: seq<string>, p: int, ttv: bool, t: nat): (r: Result<Encoded, Failure>)
    ensures TrackLen(d, t).Err? ==> r == Err(TrackLen(d, t).error)
    ensures TrackLen(d, t).Ok? && p == 0 ==> r == Err(ZeroDivision)
    ensures r.Ok? ==> TrackLen(d, t).Ok? && |r.value.lines| == TrackLen(d, t).value
    ensures r.Ok? && |r.value.lines| > 0 ==>
              && p >= 1 && |inputs| > 0 && r.value.patches == 2 * CeilDivInt(|r.value.lines|, p)
              && forall ni :: 0 <= ni < |r.value.lines| ==>
                   |r.value.lines[ni]| == r.value.patches
                   && IsMatrix(r.value.lines[ni], LagWidth(|inputs|, p, ttv))
  {
    var n :- TrackLen(d, t);
    var ps :- PyCeilDiv(n, p);
    var rows := 2 * ps;
    var width := LagWidth(|inputs|, p, ttv);
    if rows < 0 || width < 0 then Err(ValueError)
    else
      var ins :- InputTracks(d, inputs, t);
      var track :- Combine(ins);
      if n == 0 then Ok(Encoded(rows, []))
      else
        assert p >= 1;
        var lines :- LagLines(track, |inputs|, p, ps, rows, ttv, n);
        Ok(Encoded(rows, lines))
  }

  /** On data whose input tracks have as many lines as the widths, the
      lag transform of a track never raises, and line `ni` is the patched
      subtrack of the combined inputs, right-aligned. */
  lemma LagTrackSucceeds(d: NormalisedData, inputs: seq<string>, p: int, ttv: bool, t: nat)
    requires p >= 1 && |inputs| > 0 && TrackLen(d, t).Ok?
    requires forall i :: 0 <= i < |inputs| ==>
               inputs[i] in d.data && t < |d.data[inputs[i]]| && |d.data[inputs[i]][t]| == TrackLen(d, t).value
    ensures LagTrack(d, inputs, p, ttv, t).Ok?
  {
    var n := TrackLen(d, t).value;
    var ins := InputTracks(d, inputs, t).value;
    var track := Combine(ins).value;
    assert |track| == n;
    var ps := CeilDivInt(n, p);
    if n > 0 {
      forall ni | 0 <= ni < n
        ensures LagLine(track, |inputs|, p, ps, 2 * ps, ttv, ni).Ok?
      {
        LagLineFits(track, |inputs|, p, ttv, ni);
      }
    }
  }

  /* ---------------- the transform ---------------- */

  /** `perform_parallel_transforms` over `_lag_transform` for the first
      `count` tracks. */
  function LagTracks(d: NormalisedData, inputs: seq<string>, p: int, ttv: bool, count: nat, cores: int)
    : (r: Result<seq<Encoded>, Failure>)
    requires count > 0
    ensures count >= 2 && cores < 1 ==> r == Err(ValueError)
    ensures r.Ok? <==> (cores >= 1 || count == 1) && forall t :: 0 <= t < count ==> LagTrack(d, inputs, p, ttv, t).Ok?
    ensures r.Ok? ==> |r.value| == count && forall t :: 0 <= t < count ==> LagTrack(d, inputs, p, ttv, t) == Ok(r.value[t])
  {
    var f := (t: nat) => LagTrack(d, inputs, p, ttv, t);
    assert forall t :: 0 <= t < count ==> f(t) == LagTrack(d, inputs, p, ttv, t);
    var tracks :- PerformTransforms(count, cores, f);
    Ok(tracks.value)
  }

  /** `LaggingTransformMethod.transform`: an array of `normals_count`
      rows of `2 * ceil(longest / p)` patch rows of
      `len(inputs) * p + ttv` entries of -1, each track's lines assigned
      to the last patch rows of its own rows, the vehicle of each line,
      and the targets sampled over patches with the lag. */
  function LagTransform(d: NormalisedData, inputs: seq<string>, outputs: seq<string>,
                        sampling: Option<int>, lag: Option<int>, p: int, ttv: bool, cores: int)
    : (r: Result<(seq<seq<seq<real>>>, seq<Matrix>, Matrix), Failure>)
    ensures "widths" !in d.data ==> r == Err(KeyError("widths"))
    ensures "widths" in d.data && |d.data["widths"]| == 0 ==> r == Err(ValueError)
    ensures "widths" in d.data && |d.data["widths"]| > 0 && p == 0 ==> r == Err(ZeroDivision)
    ensures r.Ok? ==> "widths" in d.data && |r.value.0| == |Flatten(d.data["widths"])| && |r.value.2| == |r.value.0|
    ensures r.Ok? ==> GetTargetOutput(d, outputs, sampling, lag, p) == Ok(r.value.1)
  {
    if "widths" !in d.data then Err(KeyError("widths"))
    else if |d.data["widths"]| == 0 then Err(ValueError)
    else
    var total := |Flatten(d.data["widths"])|;
    var ps :- PyCeilDiv(LongestRow(d.data["widths"]), p);
    var rows := 2 * ps;
    var width := LagWidth(|inputs|, p, ttv);
    if rows < 0 || width < 0 then Err(ValueError)
    else if "vehicles" !in d.data then Err(KeyError("vehicles"))
    else if |d.data["vehicles"]| == 0 then Err(IndexError)
    else
      var vehicles := d.data["vehicles"];
      var encs :- LagTracks(d, inputs, p, ttv, |vehicles|, cores);
      var copied :- CopyTracks(AsSlice, vehicles, |vehicles[0]|, AlignedTracks(encs, rows, width),
                               TracksFit(encs, rows), total, Fill(Fill(-1.0, width), rows), 0.0);
      var targets :- GetTargetOutput(d, outputs, sampling, lag, p);
      Ok((copied.0, targets, copied.1))
  }

  /** A successful transform encoded every track and copied the aligned
      encodings. */
  lemma LagTransformCopies(d: NormalisedData, inputs: seq<string>, outputs: seq<string>,
                           sampling: Option<int>, lag: Option<int>, p: int, ttv: bool, cores: int,
                           x: seq<seq<seq<real>>>, targets: seq<Matrix>, vs: Matrix)
    requires LagTransform(d, inputs, outputs, sampling, lag, p, ttv, cores) == Ok((x, targets, vs))
    ensures "widths" in d.data && |d.data["widths"]| > 0 && "vehicles" in d.data && |d.data["vehicles"]| > 0
    ensures p != 0 && PyCeilDiv(LongestRow(d.data["widths"]), p).Ok?
    ensures var rows := 2 * PyCeilDiv(LongestRow(d.data["widths"]), p).value;
            var width := LagWidth(|inputs|, p, ttv);
            var vehicles := d.data["vehicles"];
            var encs := LagTracks(d, inputs, p, ttv, |vehicles|, cores);
      && rows >= 0 && width >= 0 && encs.Ok?
      && CopyTracks(AsSlice, vehicles, |vehicles[0]|, AlignedTracks(encs.value, rows, width), TracksFit(encs.value, rows),
                    |Flatten(d.data["widths"])|, Fill(Fill(-1.0, width), rows), 0.0) == Ok((x, vs))
  {
  }

  /** Row `|widths[..i]| + ni` of the array is line `ni` of track `i`,
      right-aligned among the longest track's rows, and the same row of the
      vehicle array is track `i`'s vehicle; every line of a track of two
      lines or more has its row. */
  lemma LagTransformRows(d: NormalisedData, inputs: seq<string>, outputs: seq<string>,
                         sampling: Option<int>, lag: Option<int>, p: int, ttv: bool, cores: int,
                         x: seq<seq<seq<real>>>, targets: seq<Matrix>, vs: Matrix,
                         i: nat, e: Encoded, ni: nat)
    requires LagTransform(d, inputs, outputs, sampling, lag, p, ttv, cores) == Ok((x, targets, vs))
    requires "vehicles" in d.data && i < |d.data["vehicles"]|
    requires LagTrack(d, inputs, p, ttv, i) == Ok(e) && ni < |e.lines|
    requires |e.lines| > 1 || |Flatten(d.data["widths"][..i])| + ni < |x|
    ensures "widths" in d.data && |d.data["widths"]| > 0 && p >= 1
    ensures RowAt(x, vs, |Flatten(d.data["widths"][..i])| + ni,
                  RightAlign(e.lines[ni], 2 * CeilDivInt(LongestRow(d.data["widths"]), p), LagWidth(|inputs|, p, ttv)),
                  d.data["vehicles"][i], |d.data["vehicles"][0]|)
  {
    LagTransformCopies(d, inputs, outputs, sampling, lag, p, ttv, cores, x, targets, vs);
    assert p >= 1;
    var encs := LagTracks(d, inputs, p, ttv, |d.data["vehicles"]|, cores).value;
    LagBlockAt(d, inputs, p, ttv, cores, encs, i, e);
    CopiedLagRows(d, inputs, p, ttv, encs, x, vs, i, e, ni);
  }

  /** The row facts from the copy alone, once track `i`'s encoding is
      known to sit at index `i` behind encodings of the right lengths. */
  lemma CopiedLagRows(d: NormalisedData, inputs: seq<string>, p: int, ttv: bool, encs: seq<Encoded>,
                      x: seq<seq<seq<real>>>, vs: Matrix, i: nat, e: Encoded, ni: nat)
    requires "widths" in d.data && "vehicles" in d.data && |d.data["vehicles"]| > 0 && p >= 1
    requires i < |d.data["widths"]| && |encs| == |d.data["vehicles"]| && i < |encs| && encs[i] == e && ni < |e.lines|
    requires var rows := 2 * PyCeilDiv(LongestRow(d.data["widths"]), p).value;
             var width := LagWidth(|inputs|, p, ttv);
      && rows >= 0 && width >= 0
      && CopyTracks(AsSlice, d.data["vehicles"], |d.data["vehicles"][0]|, AlignedTracks(encs, rows, width),
                    TracksFit(encs, rows), |Flatten(d.data["widths"])|, Fill(Fill(-1.0, width), rows), 0.0) == Ok((x, vs))
    requires forall t :: 0 <= t < i ==> |encs[t].lines| == |d.data["widths"][t]|
    requires |e.lines| > 1 || |Flatten(d.data["widths"][..i])| + ni < |x|
    ensures RowAt(x, vs, |Flatten(d.data["widths"][..i])| + ni,
                  RightAlign(e.lines[ni], 2 * CeilDivInt(LongestRow(d.data["widths"]), p), LagWidth(|inputs|, p, ttv)),
                  d.data["vehicles"][i], |d.data["vehicles"][0]|)
  {
    var widths := d.data["widths"];
    var rows := 2 * PyCeilDiv(LongestRow(widths), p).value;
    assert rows == 2 * CeilDivInt(LongestRow(widths), p);
    AlignedRowAt(widths, d.data["vehicles"], encs, rows, LagWidth(|inputs|, p, ttv), |Flatten(widths)|, x, vs, i, e, ni);
  }

  /** Track `i`'s encoding sits at index `i` of the encodings, behind
      encodings with one entry per line of their widths. */
  lemma LagBlockAt(d: NormalisedData, inputs: seq<string>, p: int, ttv: bool, cores: int,
                   encs: seq<Encoded>, i: nat, e: Encoded)
    requires "vehicles" in d.data && i < |d.data["vehicles"]|
    requires LagTracks(d, inputs, p, ttv, |d.data["vehicles"]|, cores) == Ok(encs)
    requires LagTrack(d, inputs, p, ttv, i) == Ok(e)
    ensures "widths" in d.data && i < |d.data["widths"]|
    ensures |encs| == |d.data["vehicles"]| && encs[i] == e
    ensures forall t :: 0 <= t < i ==> |encs[t].lines| == |d.data["widths"][t]|
  {
    forall t | 0 <= t < i
      ensures |encs[t].lines| == |d.data["widths"][t]|
    {
      assert LagTrack(d, inputs, p, ttv, t) == Ok(encs[t]);
    }
  }

  /** Each encoded track has one entry per line of its widths. */
  lemma LagTracksFollowWidths(d: NormalisedData, inputs: seq<string>, p: int, ttv: bool, count: nat, cores: int)
    requires count > 0 && LagTracks(d, inputs, p, ttv, count, cores).Ok?
    ensures "widths" in d.data && count <= |d.data["widths"]|
    ensures var encs := LagTracks(d, inputs, p, ttv, count, cores).value;
      forall t :: 0 <= t < count ==> |encs[t].lines| == |d.data["widths"][t]|
  {
    var encs := LagTracks(d, inputs, p, ttv, count, cores).value;
    assert LagTrack(d, inputs, p, ttv, count - 1).Ok?;
    forall t | 0 <= t < count
      ensures |encs[t].lines| == |d.data["widths"][t]|
    {
      assert LagTrack(d, inputs, p, ttv, t) == Ok(encs[t]);
    }
  }

  /* ---------------- the detransform ---------------- */

  /** The lists form a rectangle, as `np.mean(..., axis=1)` needs: at least
      one list, all of one length. */
  predicate Rectangular(bins: seq<seq<real>>) {
    |bins| > 0 && forall j :: 0 <= j < |bins| ==> |bins[j]| == |bins[0]|
  }

  /** `LaggingTransformMethod.detransform` for one output: the bidirectional
      append loop, the mean of each list (which needs the lists to be of
      one length and at least one of them), then `np.roll(..., -lag)`. */
  function LagDetransform(trackLength: int, output: seq<seq<real>>, sampling: Option<int>, p: int, lag: Option<int>)
    : (r: Result<seq<Option<real>>, Failure>)
    ensures r.Ok? ==> |r.value| == |output| && lag.Some?
    ensures |output| == 0 ==> r == Err(ValueError)
    ensures |Flatten(output)| > 0 && sampling.None? ==> r == Err(TypeError)
  {
    MeansRolledBack(DetransformBins(trackLength, output, sampling, p), lag)
  }

  /** The last steps of `detransform`, from the gathered lists: their
      means, rolled back by `lag`. */
  function MeansRolledBack(gathered: Result<seq<seq<real>>, Failure>, lag: Option<int>)
    : (r: Result<seq<Option<real>>, Failure>)
    ensures gathered.Err? ==> r == Err(gathered.error)
    ensures gathered.Ok? && !Rectangular(gathered.value) ==> r == Err(ValueError)
    ensures gathered.Ok? && Rectangular(gathered.value) && lag.None? ==> r == Err(TypeError)
    ensures r.Ok? ==> gathered.Ok? && lag.Some? && |r.value| == |gathered.value|
  {
    match gathered
    case Err(e) => Err(e)
    case Ok(bins) =>
      if !Rectangular(bins) then Err(ValueError)
      else if lag.None? then Err(TypeError)
      else Ok(Roll(Means(bins), -lag.value))
  }

  /** `detransform` over every output, raising for the first that fails. */
  function LagDetransformAll(trackLength: int, outputs: seq<seq<seq<real>>>, sampling: Option<int>, p: int, lag: Option<int>)
    : (r: Result<seq<seq<Option<real>>>, Failure>)
    ensures r.Ok? <==> forall i :: 0 <= i < |outputs| ==> LagDetransform(trackLength, outputs[i], sampling, p, lag).Ok?
    ensures r.Ok? ==> (|r.value| == |outputs|
      && forall i :: 0 <= i < |outputs| ==> r.value[i] == LagDetransform(trackLength, outputs[i], sampling, p, lag).value)
  {
    var rs := seq(|outputs|, i requires 0 <= i < |outputs| => LagDetransform(trackLength, outputs[i], sampling, p, lag));
    assert forall i :: 0 <= i < |outputs| ==> rs[i] == LagDetransform(trackLength, outputs[i], sampling, p, lag);
    AllOk(rs)
  }

  /** Detransforming the lagged targets of a track gives the track back:
      every list receives the same number of values, all of them the line
      `lag` places before it, and the final roll undoes the lag. */
  lemma LagRoundTrip(arr: seq<real>, s: int, lag: int, p: int)
    requires |arr| > 0 && s >= 0 && p >= 1
    ensures ComputeTargets(arr, s, lag, p).Ok?
    ensures LagDetransform(|arr|, ComputeTargets(arr, s, lag, p).value, Some(s), p, Some(lag))
            == Ok(seq(|arr|, j requires 0 <= j < |arr| => Some(arr[j])))
  {
    MulMono(1, 2 * s + 1, p);
    var out := ComputeTargets(arr, s, lag, p).value;
    LagPlacements(arr, s, lag, p, out);
    LagRecovers(arr, s, lag, p, out);
  }

  /** Cell `(r, k)` of the output holds the rolled track's line
      `(r + k + c) mod n`. */
  predicate CellsRead(a: seq<real>, c: int, out: seq<seq<real>>)
    requires |a| > 0
  {
    forall r, k :: 0 <= r < |out| && 0 <= k < |out[r]| ==> out[r][k] == a[(r + k + c) % |a|]
  }

  /** The detransform of any targets laid out like the lagged ones, whose
      every cell holds the line `lag` places before the list it goes to,
      is the track. */
  lemma LagRecovers(arr: seq<real>, s: int, lag: int, p: int, out: seq<seq<real>>)
    requires |arr| > 0 && |out| == |arr| && TargetWidth(s, p) >= 1 && IsMatrix(out, TargetWidth(s, p))
    requires CellsRead(Roll(arr, lag), FirstSlot(s, p), out)
    ensures LagDetransform(|arr|, out, Some(s), p, Some(lag)) == Ok(seq(|arr|, j requires 0 <= j < |arr| => Some(arr[j])))
  {
    var n := |arr|;
    var means := seq(n, j requires 0 <= j < n => Some(Roll(arr, lag)[j]));
    var bins := DetransformBins(n, out, Some(s), p);
    assert bins.Ok? && Rectangular(bins.value) && Means(bins.value) == means by {
      LagBins(arr, s, lag, p, out);
    }
    LagDetransformOfBins(n, out, s, p, lag, bins.value);
    Unroll(arr, lag);
  }

  /** With rectangular lists the detransform is the rolled-back means. */
  lemma LagDetransformOfBins(n: int, out: seq<seq<real>>, s: int, p: int, lag: int, bins: seq<seq<real>>)
    requires DetransformBins(n, out, Some(s), p) == Ok(bins) && Rectangular(bins)
    ensures LagDetransform(n, out, Some(s), p, Some(lag)) == Ok(Roll(Means(bins), -lag))
  {
    calc {
      LagDetransform(n, out, Some(s), p, Some(lag));
      MeansRolledBack(DetransformBins(n, out, Some(s), p), Some(lag));
      MeansRolledBack(Ok(bins), Some(lag));
      Ok(Roll(Means(bins), -lag));
    }
  }

  /** Rolling back the lines of the rolled track gives the track. */
  lemma Unroll(arr: seq<real>, lag: int)
    requires |arr| > 0
    ensures Roll(seq(|arr|, j requires 0 <= j < |arr| => Some(Roll(arr, lag)[j])), -lag)
            == seq(|arr|, j requires 0 <= j < |arr| => Some(arr[j]))
  {
    var n := |arr|;
    var means := seq(n, j requires 0 <= j < n => Some(Roll(arr, lag)[j]));
    forall j | 0 <= j < n
      ensures Roll(means, -lag)[j] == Some(arr[j])
    {
      UnrollAt(arr, lag, j);
      RollAt(means, -lag, j);
    }
  }

  /** Rolling back by `lag` the track rolled by `lag`, entry by entry. */
  lemma UnrollAt(arr: seq<real>, lag: int, j: int)
    requires 0 <= j < |arr|
    ensures Roll(arr, lag)[(j + lag) % |arr|] == arr[j]
    ensures (j - -lag) % |arr| == (j + lag) % |arr|
  {
    var n := |arr|;
    ModInRange((j + lag) % n, n);
    RollAt(arr, lag, (j + lag) % n);
    ModOfSum(j + lag, -lag, n);
    ModInRange(j, n);
  }

  /** The lists the detransform gathers from such targets: all of one
      length, each averaging to the line `lag` places before it. */
  lemma LagBins(arr: seq<real>, s: int, lag: int, p: int, out: seq<seq<real>>)
    requires |arr| > 0 && |out| == |arr| && TargetWidth(s, p) >= 1 && IsMatrix(out, TargetWidth(s, p))
    requires CellsRead(Roll(arr, lag), FirstSlot(s, p), out)
    ensures var bins := DetransformBins(|arr|, out, Some(s), p);
      && bins.Ok? && Rectangular(bins.value)
      && Means(bins.value) == seq(|arr|, j requires 0 <= j < |arr| => Some(Roll(arr, lag)[j]))
  {
    var n := |arr|;
    var c := FirstSlot(s, p);
    LagGathered(out, s, p);
    LagMeans(Roll(arr, lag), c, out, DetransformBins(n, out, Some(s), p).value);
  }

  /** A square output of the target width gathers into a rectangle over
      the detransform's grid. */
  lemma LagGathered(out: seq<seq<real>>, s: int, p: int)
    requires |out| > 0 && TargetWidth(s, p) >= 1 && IsMatrix(out, TargetWidth(s, p))
    ensures var bins := DetransformBins(|out|, out, Some(s), p);
      && bins.Ok? && Rectangular(bins.value)
      && bins == Gather(Grid(Widths(out), 1, FirstSlot(s, p), |out|), |out|, out)
  {
    FilledBinsRectangular(out, TargetWidth(s, p), FirstSlot(s, p));
    BinsGathered(|out|, out, s, p);
  }

  /** An output with entries is gathered over the detransform's grid. */
  lemma BinsGathered(n: nat, out: seq<seq<real>>, s: int, p: int)
    requires n > 0 && |out| == n && |out[0]| > 0
    ensures DetransformBins(n, out, Some(s), p) == Gather(Grid(Widths(out), 1, FirstSlot(s, p), n), n, out)
  {
    FlattenHas(out, 0, 0);
  }

  /** The means of the gathered lists are the lines the cells read. */
  lemma LagMeans(a: seq<real>, c: int, out: seq<seq<real>>, bins: seq<seq<real>>)
    requires |a| > 0 && |out| == |a| && forall r :: 0 <= r < |out| ==> |out[r]| > 0
    requires Gather(Grid(Widths(out), 1, c, |a|), |a|, out) == Ok(bins)
    requires CellsRead(a, c, out)
    ensures Means(bins) == seq(|a|, j requires 0 <= j < |a| => Some(a[j]))
  {
    var ps := Grid(Widths(out), 1, c, |a|);
    LaggedCells(a, c, out);
    DesampleRecovers(ps, out, a);
  }

  /** The cells of the lagged layout fill every list, and each placeable
      cell holds the line of the list it is placed in. */
  lemma LaggedCells(a: seq<real>, c: int, out: seq<seq<real>>)
    requires |a| > 0 && |out| == |a| && forall r :: 0 <= r < |out| ==> |out[r]| > 0
    requires CellsRead(a, c, out)
    ensures forall j :: 0 <= j < |a| ==> Hits(Grid(Widths(out), 1, c, |a|), |a|, j)
    ensures forall q :: q in Grid(Widths(out), 1, c, |a|) && Placeable(q, |a|, out) ==> ValueOf(q, out) == a[Target(q, |a|)]
  {
    var n := |a|;
    var ps := Grid(Widths(out), 1, c, n);
    forall j | 0 <= j < n
      ensures Hits(ps, n, j)
    {
      LagHits(n, c, out, j);
    }
    forall q | q in ps && Placeable(q, n, out)
      ensures ValueOf(q, out) == a[Target(q, n)]
    {
      GridMember(Widths(out), 1, c, n, q);
      CellTarget(a, c, out, q);
    }
  }

  /** A placeable cell whose list is `(row + col + c) % n` holds the line
      it is placed in. */
  lemma CellTarget(a: seq<real>, c: int, out: seq<seq<real>>, q: Placement)
    requires |a| > 0 && CellsRead(a, c, out) && Placeable(q, |a|, out)
    requires q.slot == PyMod(1 * q.row + q.col + c, |a|)
    ensures ValueOf(q, out) == a[Target(q, |a|)]
  {
    assert 1 * q.row + q.col + c == q.row + q.col + c;
    assert out[q.row][q.col] == a[(q.row + q.col + c) % |a|];
  }

  /** An `n`-row output of width `w` spread over `n` lists with a unit
      stride gathers into a rectangle. */
  lemma FilledBinsRectangular(out: seq<seq<real>>, w: nat, c: int)
    requires |out| > 0 && IsMatrix(out, w)
    ensures var bins := Gather(Grid(Widths(out), 1, c, |out|), |out|, out);
      bins.Ok? && Rectangular(bins.value)
  {
    var n := |out|;
    assert Widths(out) == Fill(w, n) by {
      assert forall r :: 0 <= r < n ==> Widths(out)[r] == w;
    }
    FilledBins(out, w, c);
  }

  lemma FilledBins(out: seq<seq<real>>, w: nat, c: int)
    requires |out| > 0 && IsMatrix(out, w)
    ensures var bins := Gather(Grid(Fill(w, |out|), 1, c, |out|), |out|, out);
      bins.Ok? && Rectangular(bins.value)
  {
    var n := |out|;
    var g := Grid(Fill(w, n), 1, c, n);
    EveryListFilled(out, w, c, 0);
    var bins := Gather(g, n, out).value;
    forall j | 0 <= j < n
      ensures |bins[j]| == w
    {
      EveryListFilled(out, w, c, j);
    }
  }

  /** Every cell of the lagged targets reads the rolled track at the list
      it is placed at. */
  lemma LagPlacements(arr: seq<real>, s: int, lag: int, p: int, out: seq<seq<real>>)
    requires |arr| > 0 && s >= 0 && p >= 1
    requires ComputeTargets(arr, s, lag, p) == Ok(out)
    ensures CellsRead(Roll(arr, lag), FirstSlot(s, p), out)
  {
    var n := |arr|;
    var c := FirstSlot(s, p);
    forall r, k | 0 <= r < |out| && 0 <= k < |out[r]|
      ensures out[r][k] == Roll(arr, lag)[(r + k + c) % n]
    {
      ComputeTargetsAt(arr, s, lag, p, r, k);
      ModInRange((r + k + c) % n, n);
      RollAt(arr, lag, (r + k + c) % n);
      assert r + k + c == r + 1 - p - s * p + k;
      ModOfSum(r + 1 - p - s * p + k, -lag, n);
    }
  }

  /** Line `j` is reached from row `(j - c) mod n`, entry 0, of an output
      of `n` non-empty rows. */
  lemma LagHits(n: nat, c: int, out: seq<seq<real>>, j: nat)
    requires |out| == n && j < n && forall r :: 0 <= r < n ==> |out[r]| > 0
    ensures Hits(Grid(Widths(out), 1, c, n), n, j)
  {
    var r := (j - c) % n;
    ModShift(r, c, n, j);
    assert 1 * r + 0 + c == r + c;
    GridHits(Widths(out), 1, c, n, n, r, 0, j);
  }
}
