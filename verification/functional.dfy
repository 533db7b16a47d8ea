/** Sequence helpers the repository takes from numpy and from its compiled
    `toolkit.maths` functional helpers: `roll`, `at_indexes`, concatenation,
    sums and means. The compiled helpers are not part of this model; they are
    given numpy's documented behaviour. */
module Functional {
  import opened Wrappers

  /* ---------------- modular arithmetic (Python `%` for a positive modulus) ---------------- */

  /** A remainder is determined by any decomposition `x == q * n + r` with `0 <= r < n`. */
  lemma ModUnique(x: int, n: int, q: int, r: int)
    requires 0 < n && 0 <= r < n && x == q * n + r
    ensures x % n == r && x / n == q
  {
    var q' := x / n;
    var r' := x % n;
    assert x == q' * n + r';
    if q' < q {
      assert (q - q') * n == r' - r;
      assert (q - q') * n >= n by { MulAtLeast(q - q', n); }
    } else if q' > q {
      assert (q' - q) * n == r - r';
      assert (q' - q) * n >= n by { MulAtLeast(q' - q, n); }
    }
  }

  lemma MulAtLeast(k: int, n: int)
    requires 1 <= k && 0 < n
    ensures k * n >= n
  {
  }

  /** Adding a whole number of periods does not change a remainder. */
  lemma ModAddMultiple(x: int, m: int, n: int)
    requires 0 < n
    ensures (x + m * n) % n == x % n
  {
    ModUnique(x + m * n, n, x / n + m, x % n);
  }

  /** Reducing an operand first does not change the remainder of a sum. */
  lemma ModOfSum(x: int, a: int, n: int)
    requires 0 < n
    ensures (x % n + a) % n == (x + a) % n
  {
    ModAddMultiple(x % n + a, x / n, n);
  }

  /** A value already in `[0, n)` is its own remainder. */
  lemma ModInRange(x: int, n: int)
    requires 0 <= x < n
    ensures x % n == x
  {
    ModUnique(x, n, 0, x);
  }

  /* ---------------- real division ---------------- */

  /** A share of a positive whole lies in `[0, 1]`. */
  lemma DivInUnit(a: real, d: real)
    requires 0.0 <= a <= d && d > 0.0
    ensures 0.0 <= a / d <= 1.0
  {
  }

  lemma DivSelf(d: real)
    requires d != 0.0
    ensures d / d == 1.0
  {
  }

  lemma DivCancel(a: real, d: real)
    requires d != 0.0
    ensures (a / d) * d == a
  {
  }

  lemma ZeroDiv(d: real)
    requires d != 0.0
    ensures 0.0 / d == 0.0
  {
  }

  lemma DivStrictMono(a: real, b: real, d: real)
    requires a < b && d > 0.0
    ensures a / d < b / d
  {
  }

  lemma DivNegate(v: real, d: real)
    requires d != 0.0
    ensures v / d == -((-v) / d)
  {
  }

  /** Python's `%`, whose result takes the sign of the modulus. */
  function PyMod(a: int, n: int): (r: int)
    requires n != 0
    ensures n > 0 ==> 0 <= r < n && r == a % n
    ensures n < 0 ==> n < r <= 0
  {
    if n > 0 then a % n else -((-a) % (-n))
  }

  /* ---------------- numpy.roll on a one-dimensional sequence ---------------- */

  /** Moves the last element to the front. */
  function RotateOnce<T>(s: seq<T>): (r: seq<T>)
    ensures |r| == |s|
  {
    if |s| == 0 then [] else [s[|s| - 1]] + s[..|s| - 1]
  }

  /** `m` successive single rotations. */
  function Rotate<T>(s: seq<T>, m: nat): (r: seq<T>)
    ensures |r| == |s|
    decreases m
  {
    if m == 0 then s else Rotate(RotateOnce(s), m - 1)
  }

  /** `Roll(s, k)` is numpy's `roll`: every element moves `k` places to the
      right, wrapping around, so that element `i` of the result is element
      `(i - k) mod |s|` of `s` (see `RollAt`). */
  function Roll<T>(s: seq<T>, k: int): (r: seq<T>)
    ensures |r| == |s|
  {
    if |s| == 0 then [] else Rotate(s, k % |s|)
  }

  lemma RotateOnceAt<T>(s: seq<T>, j: int)
    requires 0 <= j < |s|
    ensures RotateOnce(s)[j] == s[(j - 1) % |s|]
  {
    if j == 0 {
      ModUnique(-1, |s|, -1, |s| - 1);
    } else {
      ModInRange(j - 1, |s|);
    }
  }

  lemma {:induction false} RotateAt<T>(s: seq<T>, m: nat, i: int)
    requires 0 <= i < |s|
    ensures Rotate(s, m)[i] == s[(i - m) % |s|]
    decreases m
  {
    if m == 0 {
      ModInRange(i, |s|);
    } else {
      RotateAt(RotateOnce(s), m - 1, i);
      RotateStep(s, m, i);
    }
  }

  /** One more rotation reads one place further back. */
  lemma RotateStep<T>(s: seq<T>, m: nat, i: int)
    requires 0 <= i < |s| && m >= 1
    requires Rotate(RotateOnce(s), m - 1)[i] == RotateOnce(s)[(i - (m - 1)) % |s|]
    ensures Rotate(s, m)[i] == s[(i - m) % |s|]
  {
    assert Rotate(s, m) == Rotate(RotateOnce(s), m - 1);
    RotateOnceAt(s, (i - (m - 1)) % |s|);
    ModPrev(i, m, |s|);
  }

  /** The remainder arithmetic of `RotateStep`. */
  lemma ModPrev(i: int, m: int, n: int)
    requires n > 0
    ensures ((i - (m - 1)) % n - 1) % n == (i - m) % n
  {
    ModOfSum(i - (m - 1), -1, n);
  }

  /** Element formula of `Roll`: the wrap-around read of numpy's `roll`. */
  lemma RollAt<T>(s: seq<T>, k: int, i: int)
    requires 0 <= i < |s|
    ensures Roll(s, k)[i] == s[(i - k) % |s|]
  {
    RotateAt(s, k % |s|, i);
    ModOfReduced(i, k, |s|);
  }

  /** Subtracting a reduced operand leaves the same remainder. */
  lemma ModOfReduced(x: int, k: int, n: int)
    requires 0 < n
    ensures (x - k % n) % n == (x - k) % n
  {
    ModAddMultiple(x - k, k / n, n);
  }

  lemma RollComposeAt<T>(s: seq<T>, a: int, b: int, i: int)
    requires 0 <= i < |s|
    ensures Roll(Roll(s, a), b)[i] == Roll(s, a + b)[i]
  {
    var n := |s|;
    var j := (i - b) % n;
    assert (j - a) % n == (i - (a + b)) % n by { ModOfSum(i - b, -a, n); }
    var r := Roll(s, a);
    calc {
      Roll(r, b)[i];
      { RollAt(r, b, i); }
      r[j];
      { RollAt(s, a, j); }
      s[(j - a) % n];
      s[(i - (a + b)) % n];
      { RollAt(s, a + b, i); }
      Roll(s, a + b)[i];
    }
  }

  /** Rolling by `a` and then by `b` is rolling by `a + b`. */
  lemma {:induction false} RollCompose<T>(s: seq<T>, a: int, b: int)
    ensures Roll(Roll(s, a), b) == Roll(s, a + b)
  {
    forall i | 0 <= i < |s|
      ensures Roll(Roll(s, a), b)[i] == Roll(s, a + b)[i]
    {
      RollComposeAt(s, a, b, i);
    }
  }

  /** Rolling by nothing changes nothing. */
  lemma {:induction false} RollZero<T>(s: seq<T>)
    ensures Roll(s, 0) == s
  {
    if |s| > 0 {
      forall i | 0 <= i < |s|
        ensures Roll(s, 0)[i] == s[i]
      {
        ModInRange(i, |s|);
      }
    }
  }

  /** Rolling by `-k` undoes rolling by `k`. */
  lemma {:induction false} RollInverse<T>(s: seq<T>, k: int)
    ensures Roll(Roll(s, k), -k) == s
  {
    RollCompose(s, k, -k);
    RollZero(s);
  }

  /** A shift by a whole number of lengths is no shift at all, which is why
      `roll([0, 1, 2, 3], 100)` equals `roll([0, 1, 2, 3], 0)`. */
  lemma {:induction false} RollPeriodic<T>(s: seq<T>, k: int, m: int)
    requires |s| > 0
    ensures Roll(s, k + m * |s|) == Roll(s, k)
  {
    forall i | 0 <= i < |s|
      ensures Roll(s, k + m * |s|)[i] == Roll(s, k)[i]
    {
      RollAt(s, k + m * |s|, i);
      RollAt(s, k, i);
      ModAddMultiple(i - k - m * |s|, m, |s|);
    }
  }

  lemma RollExamples()
    ensures Roll([0, 1, 2, 3], 1) == [3, 0, 1, 2]
    ensures Roll([0, 1, 2, 3], -1) == [1, 2, 3, 0]
    ensures Roll([0, 1, 2, 3], 100) == [0, 1, 2, 3]
    ensures Roll([0, 1, 2, 3], -100) == [0, 1, 2, 3]
  {
    var s := [0, 1, 2, 3];
    RollAt(s, 1, 0); RollAt(s, 1, 1); RollAt(s, 1, 2); RollAt(s, 1, 3);
    RollAt(s, -1, 0); RollAt(s, -1, 1); RollAt(s, -1, 2); RollAt(s, -1, 3);
    RollPeriodic(s, 0, 25);
    RollPeriodic(s, 0, -25);
    RollZero(s);
  }

  /* ---------------- at_indexes ---------------- */

  predicate IndexesIn(idx: seq<int>, n: int) {
    forall i :: 0 <= i < |idx| ==> 0 <= idx[i] < n
  }

  /** The elements of `s` at the positions `idx`, in the order of `idx`. */
  function AtIndexes<T>(s: seq<T>, idx: seq<int>): (r: seq<T>)
    requires IndexesIn(idx, |s|)
    ensures |r| == |idx|
  {
    seq(|idx|, i requires 0 <= i < |idx| => s[idx[i]])
  }

  /** Picking twice is picking once with the composed index list. */
  lemma AtIndexesCompose<T>(s: seq<T>, a: seq<int>, b: seq<int>)
    requires IndexesIn(a, |s|) && IndexesIn(b, |a|)
    ensures IndexesIn(AtIndexes(a, b), |s|)
    ensures AtIndexes(AtIndexes(s, a), b) == AtIndexes(s, AtIndexes(a, b))
  {
  }

  lemma AtIndexesExample()
    ensures AtIndexes([3, 4, 5, 6, 7], [0, 3, 4]) == [3, 6, 7]
  {
  }

  /* ---------------- fills and concatenation ---------------- */

  function Fill<T>(v: T, n: nat): (r: seq<T>)
    ensures |r| == n && forall i :: 0 <= i < n ==> r[i] == v
  {
    seq(n, _ => v)
  }

  /** Row-major concatenation of a list of rows (numpy's `flatten`, `concatenate`). */
  function Flatten<T>(rows: seq<seq<T>>): seq<T>
  {
    if |rows| == 0 then [] else Flatten(rows[..|rows| - 1]) + rows[|rows| - 1]
  }

  lemma {:induction false} FlattenAppend<T>(a: seq<seq<T>>, b: seq<seq<T>>)
    ensures Flatten(a + b) == Flatten(a) + Flatten(b)
    decreases |b|
  {
    if |b| == 0 {
      assert a + b == a;
    } else {
      assert (a + b)[..|a + b| - 1] == a + b[..|b| - 1];
      FlattenAppend(a, b[..|b| - 1]);
    }
  }

  predicate IsMatrix<T>(x: seq<seq<T>>, cols: nat) {
    forall i :: 0 <= i < |x| ==> |x[i]| == cols
  }

  /** Flattening a matrix with `cols` columns lays element `(i, j)` at `i * cols + j`. */
  lemma {:induction false} FlattenMatrix<T>(x: seq<seq<T>>, cols: nat)
    requires IsMatrix(x, cols)
    ensures |Flatten(x)| == |x| * cols
    ensures forall i, j :: 0 <= i < |x| && 0 <= j < cols ==> Flatten(x)[i * cols + j] == x[i][j]
    decreases |x|
  {
    if |x| > 0 {
      var init := x[..|x| - 1];
      FlattenMatrix(init, cols);
      assert Flatten(x) == Flatten(init) + x[|x| - 1];
      forall i, j | 0 <= i < |x| && 0 <= j < cols
        ensures i * cols + j < |Flatten(x)| && Flatten(x)[i * cols + j] == x[i][j]
      {
        if i < |x| - 1 {
          assert i * cols + j < (|x| - 1) * cols by { MulMono(i + 1, |x| - 1, cols); }
          assert Flatten(x)[i * cols + j] == Flatten(init)[i * cols + j];
        } else {
          assert i * cols == (|x| - 1) * cols;
        }
      }
    }
  }

  /** Every element of a flattened list comes from one of its rows. */
  lemma {:induction false} FlattenMember<T>(rows: seq<seq<T>>, x: T)
    requires x in Flatten(rows)
    ensures exists r :: 0 <= r < |rows| && x in rows[r]
  {
    var init := rows[..|rows| - 1];
    if x !in rows[|rows| - 1] {
      FlattenMember(init, x);
      var r :| 0 <= r < |init| && x in init[r];
      assert rows[r] == init[r];
    }
  }

  /** Every element of every row is in the flattened list. */
  lemma {:induction false} FlattenHas<T>(rows: seq<seq<T>>, r: int, k: int)
    requires 0 <= r < |rows| && 0 <= k < |rows[r]|
    ensures rows[r][k] in Flatten(rows)
  {
    var init := rows[..|rows| - 1];
    if r < |rows| - 1 {
      FlattenHas(init, r, k);
    }
  }

  /** Row lists of the same shape flatten to the same length. */
  lemma {:induction false} FlattenSameShape<A, B>(a: seq<seq<A>>, b: seq<seq<B>>)
    requires |a| == |b| && forall i :: 0 <= i < |a| ==> |a[i]| == |b[i]|
    ensures |Flatten(a)| == |Flatten(b)|
  {
    if |a| > 0 {
      FlattenSameShape(a[..|a| - 1], b[..|b| - 1]);
    }
  }

  /** The row of a row-major index inside a matrix of `n` rows. */
  lemma DivBelow(t: int, n: int, cols: int)
    requires 0 <= t < n * cols && cols > 0
    ensures 0 <= t / cols < n
  {
    if t / cols >= n {
      MulMono(n, t / cols, cols);
    }
  }

  /** A list repeated `m` times holds its entry `k mod len` at `k`. */
  lemma RepeatAt<T>(arr: seq<T>, m: nat, k: int)
    requires |arr| > 0 && 0 <= k < m * |arr|
    ensures |Flatten(Fill(arr, m))| == m * |arr|
    ensures Flatten(Fill(arr, m))[k] == arr[k % |arr|]
  {
    var n := |arr|;
    var rows := Fill(arr, m);
    assert |rows| == m && IsMatrix(rows, n);
    FlattenMatrix(rows, n);
    var i, j := k / n, k % n;
    DivBelow(k, m, n);
    assert k == i * n + j;
    assert rows[i] == arr;
    assert Flatten(rows)[i * n + j] == rows[i][j];
  }

  lemma MulMono(a: int, b: int, c: nat)
    requires a <= b
    ensures a * c <= b * c
  {
  }

  /** `np.argmin`: position of the first smallest value. */
  function ArgMin(xs: seq<real>): (j: nat)
    requires |xs| > 0
    ensures j < |xs|
    ensures forall m :: 0 <= m < |xs| ==> xs[j] <= xs[m]
    ensures forall m :: 0 <= m < j ==> xs[j] < xs[m]
  {
    if |xs| == 1 then 0
    else
      var j := ArgMin(xs[..|xs| - 1]);
      if xs[|xs| - 1] < xs[j] then |xs| - 1 else j
  }

  /** Python's `max` (and numpy's `max`) of a non-empty list of numbers. */
  function MaxOf(xs: seq<real>): (r: real)
    requires |xs| > 0
    ensures r in xs && forall j :: 0 <= j < |xs| ==> xs[j] <= r
  {
    if |xs| == 1 then xs[0]
    else
      var m := MaxOf(xs[..|xs| - 1]);
      assert m in xs[..|xs| - 1];
      if xs[|xs| - 1] > m then xs[|xs| - 1] else m
  }

  /* ---------------- Python's abs, min and max on numbers ---------------- */

  function Abs(x: real): (r: real)
    ensures r >= 0.0 && (r == x || r == -x)
  {
    if x < 0.0 then -x else x
  }

  function Max(a: real, b: real): (r: real)
    ensures r >= a && r >= b && (r == a || r == b)
  {
    if a >= b then a else b
  }

  function Min(a: real, b: real): (r: real)
    ensures r <= a && r <= b && (r == a || r == b)
  {
    if a <= b then a else b
  }

  /* ---------------- Python truthiness ---------------- */

  /** Python's `value or default`: a missing value and a zero both fall
      back to the default. */
  function OrDefault(v: Option<real>, default: real): (r: real)
    ensures v.None? ==> r == default
    ensures v.Some? && v.value == 0.0 ==> r == default
    ensures v.Some? && v.value != 0.0 ==> r == v.value
  {
    if v.None? || v.value == 0.0 then default else v.value
  }

  /* ---------------- sums and means ---------------- */

  function Sum(s: seq<real>): real
  {
    if |s| == 0 then 0.0 else s[0] + Sum(s[1..])
  }

  lemma {:induction false} SumConstant(s: seq<real>, c: real)
    requires forall i :: 0 <= i < |s| ==> s[i] == c
    ensures Sum(s) == |s| as real * c
  {
    if |s| > 0 {
      SumConstant(s[1..], c);
    }
  }

  /** numpy's `mean`; the NaN of an empty mean is `None`. */
  function Mean(s: seq<real>): (r: Option<real>)
    ensures r.None? <==> |s| == 0
  {
    if |s| == 0 then None else Some(Sum(s) / |s| as real)
  }

  /** The mean of values that all agree is that value. */
  lemma MeanConstant(s: seq<real>, c: real)
    requires |s| > 0 && forall i :: 0 <= i < |s| ==> s[i] == c
    ensures Mean(s) == Some(c)
  {
    SumConstant(s, c);
    var n := |s| as real;
    assert n > 0.0;
    assert Sum(s) == n * c;
    assert (n * c) / n == c;
    assert Mean(s) == Some(Sum(s) / n);
  }

  /** `math.ceil(a / b)` for a non-negative numerator and a positive denominator. */
  function CeilDiv(a: nat, b: nat): (r: nat)
    requires b > 0
    ensures r * b >= a && (r == 0 || (r - 1) * b < a)
  {
    var q := (a + b - 1) / b;
    assert q * b + (a + b - 1) % b == a + b - 1;
    q
  }
}
