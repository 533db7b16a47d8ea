/** The shared shape of every detransform: a list of empty lists, one per
    segmentation line, to which each network output value is appended at the
    line it predicts, followed by the mean of each list. The methods differ
    only in which line each value belongs to, so the values are described
    here as placements: an output cell and the Python list index it is
    appended at. */
module Desampling {
  import opened Wrappers
  import opened Functional
  import opened Patching

  /** Output cell `(row, col)` is appended to list `slot`; a negative slot
      counts from the end, as Python list indexing does. */
  datatype Placement = Placement(slot: int, row: int, col: int)

  /** Python's `lst[i]` on a list of `n` elements: in range from `-n` up
      to `n - 1`, negative indices counting from the end. */
  function ListIndex(i: int, n: nat): (r: Result<nat, Failure>)
    ensures r.Ok? <==> -(n as int) <= i < n
    ensures r.Ok? ==> r.value < n && (r.value == i || r.value == i + n)
    ensures r.Err? ==> r.error == IndexError
  {
    if i < -(n as int) || i >= n then Err(IndexError)
    else if i < 0 then Ok(i + n)
    else Ok(i)
  }

  /** The placement addresses a real list and a real output cell. */
  predicate Placeable(p: Placement, n: nat, output: seq<seq<real>>) {
    -(n as int) <= p.slot < n && 0 <= p.row < |output| && 0 <= p.col < |output[p.row]|
  }

  predicate AllPlaceable(ps: seq<Placement>, n: nat, output: seq<seq<real>>) {
    forall i :: 0 <= i < |ps| ==> Placeable(ps[i], n, output)
  }

  /** The list a placeable placement lands in. */
  function Target(p: Placement, n: nat): (j: nat)
    requires -(n as int) <= p.slot < n
    ensures j < n && ListIndex(p.slot, n) == Ok(j)
  {
    if p.slot < 0 then p.slot + n else p.slot
  }

  function ValueOf(p: Placement, output: seq<seq<real>>): real
    requires 0 <= p.row < |output| && 0 <= p.col < |output[p.row]|
  {
    output[p.row][p.col]
  }

  /** Some placement lands in list `j`. */
  predicate Hits(ps: seq<Placement>, n: nat, j: nat) {
    exists i :: 0 <= i < |ps| && -(n as int) <= ps[i].slot < n && Target(ps[i], n) == j
  }

  /** The values that land in list `j`, in placement order. */
  function Collect(ps: seq<Placement>, n: nat, output: seq<seq<real>>, j: nat): seq<real>
    requires AllPlaceable(ps, n, output)
  {
    if |ps| == 0 then []
    else
      var p := ps[|ps| - 1];
      Collect(ps[..|ps| - 1], n, output, j) + (if Target(p, n) == j then [ValueOf(p, output)] else [])
  }

  /** The append loop: `n` empty lists, then each placement's value appended
      to its list in turn. The first placement outside the lists or the
      output raises `IndexError`; otherwise list `j` holds exactly the
      values placed at `j`, in placement order. */
  function Gather(ps: seq<Placement>, n: nat, output: seq<seq<real>>): (r: Result<seq<seq<real>>, Failure>)
    ensures r.Ok? <==> AllPlaceable(ps, n, output)
    ensures r.Err? ==> r.error == IndexError
    ensures r.Ok? ==> |r.value| == n && forall j :: 0 <= j < n ==> r.value[j] == Collect(ps, n, output, j)
  {
    if |ps| == 0 then Ok(Fill([], n))
    else
      var init := ps[..|ps| - 1];
      var p := ps[|ps| - 1];
      assert forall i :: 0 <= i < |init| ==> init[i] == ps[i];
      var bins :- Gather(init, n, output);
      var j :- ListIndex(p.slot, n);
      if !(0 <= p.row < |output| && 0 <= p.col < |output[p.row]|) then Err(IndexError)
      else Ok(bins[j := bins[j] + [output[p.row][p.col]]])
  }

  /** numpy's `mean` of every list; an empty list's NaN is `None`. */
  function Means(bins: seq<seq<real>>): (r: seq<Option<real>>)
    ensures |r| == |bins| && forall j :: 0 <= j < |bins| ==> (r[j].None? <==> |bins[j]| == 0)
  {
    seq(|bins|, j requires 0 <= j < |bins| => Mean(bins[j]))
  }

  /** Gather, then the mean of each list. */
  function Desample(ps: seq<Placement>, n: nat, output: seq<seq<real>>): (r: Result<seq<Option<real>>, Failure>)
    ensures r.Ok? <==> AllPlaceable(ps, n, output)
    ensures r.Ok? ==> |r.value| == n
  {
    var bins :- Gather(ps, n, output);
    Ok(Means(bins))
  }

  /* ---------------- facts about collected values ---------------- */

  lemma {:induction false} CollectAppend(a: seq<Placement>, b: seq<Placement>, n: nat, output: seq<seq<real>>, j: nat)
    requires AllPlaceable(a, n, output) && AllPlaceable(b, n, output)
    ensures AllPlaceable(a + b, n, output)
    ensures Collect(a + b, n, output, j) == Collect(a, n, output, j) + Collect(b, n, output, j)
    decreases |b|
  {
    if |b| == 0 {
      assert a + b == a;
    } else {
      var b' := b[..|b| - 1];
      assert (a + b)[..|a + b| - 1] == a + b';
      CollectAppend(a, b', n, output, j);
    }
  }

  /** When every placement at `j` reads the value `v`, list `j` holds only `v`. */
  lemma {:induction false} CollectUniform(ps: seq<Placement>, n: nat, output: seq<seq<real>>, j: nat, v: real)
    requires AllPlaceable(ps, n, output)
    requires forall p :: p in ps && Placeable(p, n, output) && Target(p, n) == j ==> ValueOf(p, output) == v
    ensures forall x :: x in Collect(ps, n, output, j) ==> x == v
  {
    if |ps| > 0 {
      var init := ps[..|ps| - 1];
      assert forall p :: p in init ==> p in ps;
      CollectUniform(init, n, output, j, v);
    }
  }

  /** A placement at `j` leaves list `j` non-empty. */
  lemma {:induction false} CollectHas(ps: seq<Placement>, n: nat, output: seq<seq<real>>, j: nat, i: int)
    requires AllPlaceable(ps, n, output) && 0 <= i < |ps| && Target(ps[i], n) == j
    ensures |Collect(ps, n, output, j)| > 0
  {
    if i < |ps| - 1 {
      CollectHas(ps[..|ps| - 1], n, output, j, i);
    }
  }

  /** The mean of a non-empty list of equal values is that value. */
  lemma UniformMean(s: seq<real>, v: real)
    requires |s| > 0 && forall x :: x in s ==> x == v
    ensures Mean(s) == Some(v)
  {
    assert forall i :: 0 <= i < |s| ==> s[i] in s;
    MeanConstant(s, v);
  }

  /** The round-trip principle of every detransform: if each list receives
      at least one value and every value at list `j` is `a[j]`, the means
      give back `a`. */
  lemma DesampleRecovers(ps: seq<Placement>, output: seq<seq<real>>, a: seq<real>)
    requires AllPlaceable(ps, |a|, output)
    requires forall p :: p in ps && Placeable(p, |a|, output) ==> ValueOf(p, output) == a[Target(p, |a|)]
    requires forall j :: 0 <= j < |a| ==> Hits(ps, |a|, j)
    ensures Desample(ps, |a|, output) == Ok(seq(|a|, j requires 0 <= j < |a| => Some(a[j])))
  {
    var n := |a|;
    var bins := Gather(ps, n, output).value;
    forall j | 0 <= j < n
      ensures Mean(bins[j]) == Some(a[j])
    {
      assert Hits(ps, n, j);
      var i :| 0 <= i < |ps| && -(n as int) <= ps[i].slot < n && Target(ps[i], n) == j;
      CollectHas(ps, n, output, j, i);
      CollectUniform(ps, n, output, j, a[j]);
      UniformMean(bins[j], a[j]);
    }
    assert Means(bins) == seq(n, j requires 0 <= j < n => Some(a[j]));
  }

  /* ---------------- placements laid out row by row ---------------- */

  /** The placements of output row `r`: its first `w` cells in column
      order, cell `k` going to list `(stride * r + k + c) mod m` with
      Python's `%`. */
  function GridRow(r: nat, w: nat, stride: int, c: int, m: int): (row: seq<Placement>)
    requires m != 0
    ensures |row| == w
  {
    seq(w, k requires 0 <= k < w => Placement(PyMod(stride * r + k + c, m), r, k))
  }

  /** The placements of the nested `for index ... for i ...` loops: row
      after row, row `r` contributing `widths[r]` cells. */
  function Grid(widths: seq<nat>, stride: int, c: int, m: int): seq<Placement>
    requires m != 0
  {
    Flatten(seq(|widths|, r requires 0 <= r < |widths| => GridRow(r, widths[r], stride, c, m)))
  }

  /** The row lengths of an output. */
  function Widths(output: seq<seq<real>>): (w: seq<nat>)
    ensures |w| == |output| && forall r :: 0 <= r < |output| ==> w[r] == |output[r]|
  {
    seq(|output|, r requires 0 <= r < |output| => |output[r]|)
  }

  /** A grid placement is some cell `(r, k)` of the grid's rows. */
  lemma GridMember(widths: seq<nat>, stride: int, c: int, m: int, p: Placement)
    requires m != 0 && p in Grid(widths, stride, c, m)
    ensures 0 <= p.row < |widths| && 0 <= p.col < widths[p.row]
    ensures p.slot == PyMod(stride * p.row + p.col + c, m)
  {
    var rows := seq(|widths|, r requires 0 <= r < |widths| => GridRow(r, widths[r], stride, c, m));
    FlattenMember(rows, p);
    var r :| 0 <= r < |rows| && p in rows[r];
  }

  /** Every cell `(r, k)` of the grid's rows is placed. */
  lemma GridHas(widths: seq<nat>, stride: int, c: int, m: int, r: nat, k: nat)
    requires m != 0 && r < |widths| && k < widths[r]
    ensures Placement(PyMod(stride * r + k + c, m), r, k) in Grid(widths, stride, c, m)
  {
    var rows := seq(|widths|, r requires 0 <= r < |widths| => GridRow(r, widths[r], stride, c, m));
    FlattenHas(rows, r, k);
  }

  /** A grid over the output's own rows with a positive modulus no larger
      than the list count never raises. */
  lemma GridPlaceable(output: seq<seq<real>>, stride: int, c: int, m: int, n: nat)
    requires 0 < m <= n
    ensures AllPlaceable(Grid(Widths(output), stride, c, m), n, output)
  {
    var ps := Grid(Widths(output), stride, c, m);
    forall i | 0 <= i < |ps|
      ensures Placeable(ps[i], n, output)
    {
      GridMember(Widths(output), stride, c, m, ps[i]);
    }
  }

  /** List `j` is hit by the grid when some cell of it maps there. */
  lemma GridHits(widths: seq<nat>, stride: int, c: int, m: int, n: nat, r: nat, k: nat, j: nat)
    requires 0 < m <= n && r < |widths| && k < widths[r] && (stride * r + k + c) % m == j
    ensures Hits(Grid(widths, stride, c, m), n, j)
  {
    var ps := Grid(widths, stride, c, m);
    GridHas(widths, stride, c, m, r, k);
    var i :| 0 <= i < |ps| && ps[i] == Placement(PyMod(stride * r + k + c, m), r, k);
  }

  /* ---------------- every list of a unit-stride grid receives the same count ---------------- */

  /** Cells `0 .. w - 1` of row `r` that land in list `j`. */
  function RowHits(r: int, w: nat, c: int, n: int, j: int): nat
    requires n > 0
  {
    if w == 0 then 0 else RowHits(r, w - 1, c, n, j) + (if (r + (w - 1) + c) % n == j then 1 else 0)
  }

  /** Rows `0 .. m - 1` of column `k` that land in list `j`. */
  function ColumnHits(m: nat, k: int, c: int, n: int, j: int): nat
    requires n > 0
  {
    if m == 0 then 0 else ColumnHits(m - 1, k, c, n, j) + (if (m - 1 + k + c) % n == j then 1 else 0)
  }

  /** Cells of rows `0 .. m - 1`, `w` per row, that land in list `j`. */
  function TotalHits(m: nat, w: nat, c: int, n: int, j: int): nat
    requires n > 0
  {
    if m == 0 then 0 else TotalHits(m - 1, w, c, n, j) + RowHits(m - 1, w, c, n, j)
  }

  /** Shifting by `d` modulo `n` is a bijection of `[0, n)`. */
  lemma ModShift(x: int, d: int, n: int, j: int)
    requires 0 <= x < n && 0 <= j < n
    ensures (x + d) % n == j <==> x == (j - d) % n
  {
    if (x + d) % n == j {
      var q := (x + d) / n;
      assert x + d == q * n + j;
      ModUnique(j - d, n, -q, x);
    }
    if x == (j - d) % n {
      var q := (j - d) / n;
      assert j - d == q * n + x;
      ModUnique(x + d, n, -q, j);
    }
  }

  lemma {:induction false} ColumnHitsOnce(m: nat, k: int, c: int, n: int, j: int)
    requires 0 < n && m <= n && 0 <= j < n
    ensures ColumnHits(m, k, c, n, j) == if (j - k - c) % n < m then 1 else 0
  {
    if m > 0 {
      ColumnHitsOnce(m - 1, k, c, n, j);
      ModShift(m - 1, k + c, n, j);
      assert m - 1 + k + c == (m - 1) + (k + c);
    }
  }

  lemma {:induction false} TotalHitsStep(m: nat, w: nat, c: int, n: int, j: int)
    requires n > 0
    ensures TotalHits(m, w + 1, c, n, j) == TotalHits(m, w, c, n, j) + ColumnHits(m, w, c, n, j)
  {
    if m > 0 {
      TotalHitsStep(m - 1, w, c, n, j);
    }
  }

  lemma {:induction false} TotalHitsNone(m: nat, c: int, n: int, j: int)
    requires n > 0
    ensures TotalHits(m, 0, c, n, j) == 0
  {
    if m > 0 {
      TotalHitsNone(m - 1, c, n, j);
    }
  }

  /** Over `n` rows of `w` cells each, every list receives `w` cells. */
  lemma {:induction false} TotalHitsIsWidth(w: nat, c: int, n: int, j: int)
    requires 0 < n && 0 <= j < n
    ensures TotalHits(n, w, c, n, j) == w
  {
    if w == 0 {
      TotalHitsNone(n, c, n, j);
    } else {
      TotalHitsIsWidth(w - 1, c, n, j);
      TotalHitsStep(n, w - 1, c, n, j);
      ColumnHitsOnce(n, w - 1, c, n, j);
    }
  }

  lemma {:induction false} RowCollectCount(output: seq<seq<real>>, r: nat, w: nat, c: int, n: nat, j: nat)
    requires 0 < n && r < |output| && w <= |output[r]|
    requires AllPlaceable(GridRow(r, w, 1, c, n), n, output)
    ensures |Collect(GridRow(r, w, 1, c, n), n, output, j)| == RowHits(r, w, c, n, j)
  {
    if w > 0 {
      var row := GridRow(r, w, 1, c, n);
      assert row[..w - 1] == GridRow(r, w - 1, 1, c, n);
      RowCollectCount(output, r, w - 1, c, n, j);
      assert row[w - 1].slot == PyMod(1 * r + (w - 1) + c, n);
      assert 1 * r + (w - 1) + c == r + (w - 1) + c;
    }
  }

  lemma {:induction false} GridCollectCount(output: seq<seq<real>>, m: nat, w: nat, c: int, n: nat, j: nat)
    requires 0 < n && m <= |output| && IsMatrix(output, w)
    ensures AllPlaceable(Grid(Fill(w, m), 1, c, n), n, output)
    ensures |Collect(Grid(Fill(w, m), 1, c, n), n, output, j)| == TotalHits(m, w, c, n, j)
  {
    var ps := Grid(Fill(w, m), 1, c, n);
    forall i | 0 <= i < |ps|
      ensures Placeable(ps[i], n, output)
    {
      GridMember(Fill(w, m), 1, c, n, ps[i]);
    }
    if m > 0 {
      var rows := seq(m, r requires 0 <= r < m => GridRow(r, Fill(w, m)[r], 1, c, n));
      assert rows[..m - 1] == seq(m - 1, r requires 0 <= r < m - 1 => GridRow(r, Fill(w, m - 1)[r], 1, c, n));
      assert ps == Grid(Fill(w, m - 1), 1, c, n) + GridRow(m - 1, w, 1, c, n);
      GridCollectCount(output, m - 1, w, c, n, j);
      var last := GridRow(m - 1, w, 1, c, n);
      assert forall i :: 0 <= i < |last| ==> last[i] == ps[|ps| - w + i];
      RowCollectCount(output, m - 1, w, c, n, j);
      CollectAppend(Grid(Fill(w, m - 1), 1, c, n), last, n, output, j);
    }
  }

  /** When an `n`-row output of width `w` is spread over `n` lists with a
      unit stride, every list receives exactly `w` values, so the lists
      form a rectangle. */
  lemma EveryListFilled(output: seq<seq<real>>, w: nat, c: int, j: nat)
    requires |output| > 0 && IsMatrix(output, w) && j < |output|
    ensures AllPlaceable(Grid(Fill(w, |output|), 1, c, |output|), |output|, output)
    ensures |Collect(Grid(Fill(w, |output|), 1, c, |output|), |output|, output, j)| == w
  {
    GridCollectCount(output, |output|, w, c, |output|, j);
    TotalHitsIsWidth(w, c, |output|, j);
  }
}
