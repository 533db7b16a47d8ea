/** Helpers shared by every transform method: grouping consecutive
    segmentation lines into patches, stacking vectors as columns, and
    running a per-track transform over every track. */
module Patching {
  import opened Wrappers
  import opened Functional

  /** The exceptions the transforms can raise, by Python class. */
  datatype Failure =
    | ZeroDivision           // a modulo or division by a zero length or size
    | ValueError             // a negative array dimension, a shape numpy cannot broadcast
    | IndexError             // indexing an empty list
    | TypeError              // arithmetic on an unset (None) parameter
    | KeyError(key: string)  // a data key that is not present

  /* ---------------- patchify ---------------- */

  /** The number of -1 lines that pad a track of `n` lines to whole
      patches. */
  function StartPadding(n: nat, p: int): (pad: nat)
    requires p >= 1
    ensures pad < p
  {
    (p - n % p) % p
  }

  /** Padding and patch count agree: the padded track fills its patches
      exactly. */
  lemma PadFacts(n: nat, p: int)
    requires p >= 1
    ensures n + StartPadding(n, p) == CeilDiv(n, p) * p
  {
    var q, m := n / p, n % p;
    assert n == q * p + m;
    if m == 0 {
      ModUnique(p, p, 1, 0);
      ModUnique(n + p - 1, p, q, p - 1);
    } else {
      ModInRange(p - m, p);
      assert n + p - 1 == (q + 1) * p + (m - 1);
      ModUnique(n + p - 1, p, q + 1, m - 1);
    }
  }

  /** The `c`-th patch: the rows `c * p - pad` up to `c * p - pad + p`
      (clipped to the track) flattened; the first patch is right-aligned in
      a row of -1. */
  function PatchRow(x: seq<seq<real>>, cols: nat, p: int, pad: nat, c: nat): (r: seq<real>)
    requires p >= 1 && IsMatrix(x, cols)
  {
    var start := c * p - pad;
    var lo := if start < 0 then 0 else start;
    var hi := if start + p < |x| then start + p else |x|;
    var patch := if lo <= hi then Flatten(x[lo..hi]) else [];
    if c == 0 then
      var fill := cols * p - |patch|;
      Fill(-1.0, if fill < 0 then 0 else fill) + patch
    else patch
  }

  /** `patchify(x, p)` on an array of `|x|` rows and `cols` columns: with
      `p` = 1 the array itself; otherwise `ceil(|x| / p)` rows of
      `cols * p` entries. A zero patch size divides by zero; a negative one
      asks numpy for a negative dimension, except on an empty array without
      columns that has fewer rows than `-p`. */
  function Patchify(x: seq<seq<real>>, cols: nat, p: int): (r: Result<seq<seq<real>>, Failure>)
    requires IsMatrix(x, cols)
    ensures p == 1 ==> r == Ok(x)
    ensures p == 0 ==> r == Err(ZeroDivision)
    ensures p < 0 ==> (r.Ok? <==> cols == 0 && |x| < -p)
    ensures p < 0 && r.Ok? ==> r.value == []
    ensures p < 0 && r.Err? ==> r.error == ValueError
    ensures p > 1 ==> r.Ok? && |r.value| == CeilDiv(|x|, p) && IsMatrix(r.value, cols * p)
  {
    if p == 1 then Ok(x)
    else if p == 0 then Err(ZeroDivision)
    else if p < 0 then
      if cols == 0 && |x| < -p then Ok([]) else Err(ValueError)
    else
      var pad := StartPadding(|x|, p);
      var rows := CeilDiv(|x|, p);
      PatchRowsShape(x, cols, p);
      Ok(seq(rows, c requires 0 <= c < rows => PatchRow(x, cols, p, pad, c)))
  }

  lemma PatchRowsShape(x: seq<seq<real>>, cols: nat, p: int)
    requires p > 1 && IsMatrix(x, cols)
    ensures forall c :: 0 <= c < CeilDiv(|x|, p) ==> |PatchRow(x, cols, p, StartPadding(|x|, p), c)| == cols * p
  {
    forall c | 0 <= c < CeilDiv(|x|, p)
      ensures |PatchRow(x, cols, p, StartPadding(|x|, p), c)| == cols * p
    {
      PatchRowFacts(x, cols, p, c);
    }
  }

  /** Patch `c` of a track padded to `rows` whole patches lies inside the
      track. */
  lemma PatchBounds(n: nat, p: int, pad: nat, rows: nat, c: nat)
    requires p >= 1 && c < rows && n + pad == rows * p && pad < p
    ensures c * p - pad + p <= n
    ensures c > 0 ==> c * p - pad > 0
  {
    MulMono(c + 1, rows, p);
    assert (c + 1) * p == c * p + p;
    if c > 0 {
      MulMono(1, c, p);
    }
  }

  lemma SplitProduct(a: int, b: int, cols: int)
    ensures (a - b) * cols + b * cols == cols * a
  {
  }

  /** Which rows a patch takes, and its length. */
  lemma PatchRowFacts(x: seq<seq<real>>, cols: nat, p: int, c: nat)
    requires p > 1 && IsMatrix(x, cols) && c < CeilDiv(|x|, p)
    ensures var pad := StartPadding(|x|, p);
      && (c == 0 ==> p - pad <= |x| && PatchRow(x, cols, p, pad, c) == Fill(-1.0, pad * cols) + Flatten(x[0..p - pad]))
      && (c > 0 ==> 0 < c * p - pad && c * p - pad + p <= |x| && PatchRow(x, cols, p, pad, c) == Flatten(x[c * p - pad..c * p - pad + p]))
      && |PatchRow(x, cols, p, pad, c)| == cols * p
  {
    var pad := StartPadding(|x|, p);
    PadFacts(|x|, p);
    PatchBounds(|x|, p, pad, CeilDiv(|x|, p), c);
    if c == 0 {
      FirstPatchRow(x, cols, p, pad);
    } else {
      LaterPatchRow(x, cols, p, pad, c);
    }
  }

  /** The first patch: the -1 padding, then the first `p - pad` rows. */
  lemma FirstPatchRow(x: seq<seq<real>>, cols: nat, p: int, pad: nat)
    requires p > 1 && IsMatrix(x, cols) && pad < p && p - pad <= |x|
    ensures PatchRow(x, cols, p, pad, 0) == Fill(-1.0, pad * cols) + Flatten(x[0..p - pad])
    ensures |PatchRow(x, cols, p, pad, 0)| == cols * p
  {
    var s := x[0..p - pad];
    assert IsMatrix(s, cols);
    FlattenMatrix(s, cols);
    SplitProduct(p, pad, cols);
  }

  /** A later patch: the `p` rows from `c * p - pad`. */
  lemma LaterPatchRow(x: seq<seq<real>>, cols: nat, p: int, pad: nat, c: nat)
    requires p > 1 && IsMatrix(x, cols) && c > 0 && 0 < c * p - pad && c * p - pad + p <= |x|
    ensures PatchRow(x, cols, p, pad, c) == Flatten(x[c * p - pad..c * p - pad + p])
    ensures |PatchRow(x, cols, p, pad, c)| == cols * p
  {
    var start := c * p - pad;
    var s := x[start..start + p];
    assert IsMatrix(s, cols);
    FlattenMatrix(s, cols);
    assert |Flatten(s)| == p * cols;
  }

  /** The first `c + 1` patches, flattened, are the -1 padding followed
      by the track's first `(c + 1) * p - pad` rows. */
  lemma {:induction false} PatchPrefix(x: seq<seq<real>>, cols: nat, p: int, c: nat)
    requires p > 1 && IsMatrix(x, cols) && c < CeilDiv(|x|, p)
    ensures var pad := StartPadding(|x|, p);
      && 0 <= (c + 1) * p - pad <= |x|
      && Flatten(Patchify(x, cols, p).value[..c + 1]) == Fill(-1.0, pad * cols) + Flatten(x[..(c + 1) * p - pad])
  {
    var pad := StartPadding(|x|, p);
    var r := Patchify(x, cols, p).value;
    PadFacts(|x|, p);
    PatchBounds(|x|, p, pad, CeilDiv(|x|, p), c);
    PatchRowFacts(x, cols, p, c);
    PatchifyRow(x, cols, p, c);
    var e := c * p - pad;
    assert (c + 1) * p - pad == e + p;
    if c == 0 {
      FlattenStep(r, x, 0, 0, p - pad, Fill(-1.0, pad * cols));
    } else {
      PatchPrefix(x, cols, p, c - 1);
      assert (c - 1 + 1) * p - pad == e;
      FlattenStep(r, x, c, e, e + p, Fill(-1.0, pad * cols));
    }
  }

  /** One more patch in front extends the flattened prefix by its rows. */
  lemma FlattenStep(r: seq<seq<real>>, x: seq<seq<real>>, c: nat, e: nat, e2: nat, fill: seq<real>)
    requires c < |r| && e <= e2 <= |x|
    requires c == 0 ==> e == 0 && r[0] == fill + Flatten(x[..e2])
    requires c > 0 ==> Flatten(r[..c]) == fill + Flatten(x[..e]) && r[c] == Flatten(x[e..e2])
    ensures Flatten(r[..c + 1]) == fill + Flatten(x[..e2])
  {
    assert r[..c + 1][..c] == r[..c];
    assert Flatten(r[..c + 1]) == Flatten(r[..c]) + r[c];
    if c > 0 {
      assert x[..e] + x[e..e2] == x[..e2];
      FlattenAppend(x[..e], x[e..e2]);
    }
  }

  /** The patches, flattened, are the row-major track after `pad * cols`
      entries of -1. */
  lemma PatchifyFlattens(x: seq<seq<real>>, cols: nat, p: int)
    requires p > 1 && IsMatrix(x, cols)
    ensures Flatten(Patchify(x, cols, p).value) == Fill(-1.0, StartPadding(|x|, p) * cols) + Flatten(x)
  {
    if |x| == 0 {
      PatchifyEmpty(x, cols, p);
    } else {
      PatchifyWhole(x, cols, p);
    }
  }

  lemma PatchifyEmpty(x: seq<seq<real>>, cols: nat, p: int)
    requires p > 1 && IsMatrix(x, cols) && |x| == 0
    ensures Patchify(x, cols, p) == Ok([]) && StartPadding(|x|, p) == 0
  {
    ModUnique(p, p, 1, 0);
  }

  lemma PatchifyWhole(x: seq<seq<real>>, cols: nat, p: int)
    requires p > 1 && IsMatrix(x, cols) && |x| > 0
    ensures Flatten(Patchify(x, cols, p).value) == Fill(-1.0, StartPadding(|x|, p) * cols) + Flatten(x)
  {
    var rows := CeilDiv(|x|, p);
    PadFacts(|x|, p);
    PatchPrefix(x, cols, p, rows - 1);
    WholePrefix(Patchify(x, cols, p).value, x, rows - 1 + 1, (rows - 1 + 1) * p - StartPadding(|x|, p),
                Fill(-1.0, StartPadding(|x|, p) * cols));
  }

  /** A prefix that covers both sequences is the whole. */
  lemma WholePrefix(r: seq<seq<real>>, x: seq<seq<real>>, rows: nat, e: int, fill: seq<real>)
    requires |r| == rows && e == |x|
    requires Flatten(r[..rows]) == fill + Flatten(x[..e])
    ensures Flatten(r) == fill + Flatten(x)
  {
    assert r[..rows] == r;
    assert x[..e] == x;
  }

  lemma PatchifyRow(x: seq<seq<real>>, cols: nat, p: int, c: nat)
    requires p > 1 && IsMatrix(x, cols) && c < CeilDiv(|x|, p)
    ensures Patchify(x, cols, p).value[c] == PatchRow(x, cols, p, StartPadding(|x|, p), c)
  {
  }

  /** The first patch starts with `pad * cols` entries of -1. */
  lemma PatchifyLeadingPadding(x: seq<seq<real>>, cols: nat, p: int, k: int)
    requires p > 1 && IsMatrix(x, cols) && |x| > 0 && 0 <= k < StartPadding(|x|, p) * cols
    ensures |Patchify(x, cols, p).value| > 0 && k < |Patchify(x, cols, p).value[0]|
    ensures Patchify(x, cols, p).value[0][k] == -1.0
  {
    var pad := StartPadding(|x|, p);
    PadFacts(|x|, p);
    PatchRowFacts(x, cols, p, 0);
    PatchifyRow(x, cols, p, 0);
    var fill := Fill(-1.0, pad * cols);
    var row := fill + Flatten(x[0..p - pad]);
    assert row[k] == fill[k];
    MulMono(pad, p, cols);
    assert k < cols * p;
    var r := Patchify(x, cols, p).value;
    assert r[0] == row;
    assert r[0][k] == -1.0;
  }

  /** The docstring's example: thirteen lines in patches of five. */
  lemma PatchifyPaddingExample()
    ensures StartPadding(13, 5) == 2 && CeilDiv(13, 5) == 3
  {
    PadFacts(13, 5);
  }

  /* ---------------- combine ---------------- */

  /** `combine(*items)`: the vectors as the columns of a matrix with
      `len(items[0])` rows; a vector of one entry is broadcast down its
      column, any other length mismatch raises, and no vectors at all is an
      index error. */
  function Combine(items: seq<seq<real>>): (r: Result<seq<seq<real>>, Failure>)
    ensures |items| == 0 ==> r == Err(IndexError)
    ensures |items| > 0 ==> (r.Ok? <==> forall i :: 0 <= i < |items| ==> |items[i]| == |items[0]| || |items[i]| == 1)
    ensures r.Err? && |items| > 0 ==> r.error == ValueError
    ensures r.Ok? ==> |r.value| == |items[0]| && IsMatrix(r.value, |items|)
    ensures r.Ok? ==> forall row, i :: 0 <= row < |r.value| && 0 <= i < |items| ==>
      r.value[row][i] == (if |items[i]| == |items[0]| then items[i][row] else items[i][0])
  {
    if |items| == 0 then Err(IndexError)
    else if exists i :: 0 <= i < |items| && |items[i]| != |items[0]| && |items[i]| != 1 then Err(ValueError)
    else
      var n := |items[0]|;
      Ok(seq(n, row requires 0 <= row < n =>
        seq(|items|, i requires 0 <= i < |items| => if |items[i]| == n then items[i][row] else items[i][0])))
  }

  /** Column `i` of a matrix. */
  function Column(m: seq<seq<real>>, i: nat): (r: seq<real>)
    requires forall row :: 0 <= row < |m| ==> i < |m[row]|
    ensures |r| == |m|
  {
    seq(|m|, row requires 0 <= row < |m| => m[row][i])
  }

  /** Reading a column back out of `combine` gives the vector put in. */
  lemma CombineColumns(items: seq<seq<real>>, i: nat)
    requires |items| > 0 && i < |items|
    requires forall j :: 0 <= j < |items| ==> |items[j]| == |items[0]|
    ensures Combine(items).Ok?
    ensures Column(Combine(items).value, i) == items[i]
  {
  }

  /* ---------------- running a transform over the tracks ---------------- */

  /** The values of a list of outcomes, or the first failure among them:
      a Python loop or comprehension stops at the first exception. */
  function AllOk<T>(rs: seq<Result<T, Failure>>): (r: Result<seq<T>, Failure>)
    ensures r.Ok? <==> forall i :: 0 <= i < |rs| ==> rs[i].Ok?
    ensures r.Ok? ==> |r.value| == |rs| && forall i :: 0 <= i < |rs| ==> r.value[i] == rs[i].value
    ensures r.Err? ==> exists i :: (0 <= i < |rs| && rs[i] == Err(r.error)
                                    && forall j :: 0 <= j < i ==> rs[j].Ok?)
  {
    if |rs| == 0 then Ok([])
    else if rs[0].Err? then Err(rs[0].error)
    else
      var rest := AllOk(rs[1..]);
      if rest.Err? then
        assert forall j :: 0 <= j < |rs[1..]| ==> rs[1..][j] == rs[j + 1];
        rest
      else Ok([rs[0].value] + rest.value)
  }

  /** The track indices `0` to `count - 1`, transformed in order. */
  function MapTracks<T>(count: nat, f: nat -> Result<T, Failure>): (r: Result<seq<T>, Failure>)
    ensures r.Ok? <==> forall t :: 0 <= t < count ==> f(t).Ok?
    ensures r.Ok? ==> |r.value| == count && forall t :: 0 <= t < count ==> r.value[t] == f(t).value
  {
    var rs := seq(count, t requires 0 <= t < count => f(t));
    assert forall t :: 0 <= t < count ==> rs[t] == f(t);
    AllOk(rs)
  }

  /** `perform_parallel_transforms` over `count` tracks. One core, or at
      most one track, takes the sequential path, which returns inside its
      loop over the vehicles and so yields nothing (`None`) for zero
      tracks; otherwise a pool of `cores` workers maps the tracks in order,
      and a pool of fewer than one worker raises. */
  function PerformTransforms<T>(count: nat, cores: int, f: nat -> Result<T, Failure>): (r: Result<Option<seq<T>>, Failure>)
    ensures count == 0 ==> r == Ok(None)
    ensures count >= 2 && cores < 1 ==> r == Err(ValueError)
    ensures count > 0 && (cores >= 1 || count == 1) ==> r == MapTracks(count, f).MapOk(rs => Some(rs))
    ensures r.Ok? && count > 0 ==>
              && r.value.Some? && |r.value.value| == count
              && forall t :: 0 <= t < count ==> f(t).Ok? && r.value.value[t] == f(t).value
  {
    if cores == 1 || count <= 1 then
      if count == 0 then Ok(None) else MapTracks(count, f).MapOk(rs => Some(rs))
    else if cores < 1 then Err(ValueError)
    else MapTracks(count, f).MapOk(rs => Some(rs))
  }

  /** With at least one track, every track index is transformed, in
      order. */
  lemma PerformTransformsInOrder<T>(count: nat, cores: int, f: nat -> Result<T, Failure>)
    requires count > 0 && (cores >= 1 || count == 1)
    requires forall t :: 0 <= t < count ==> f(t).Ok?
    ensures PerformTransforms(count, cores, f).Ok?
    ensures var r := PerformTransforms(count, cores, f).value;
      r.Some? && |r.value| == count && forall t :: 0 <= t < count ==> r.value[t] == f(t).value
  {
  }
}
