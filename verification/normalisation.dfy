/** Normalisation bounds: the running extremes of every feature over the
    partitions seen so far, and the scaling of a partition by them. Widths
    and velocities are mapped from their range onto `[0, 1]`, angles and
    offsets are divided by their largest magnitude, and the vectorised
    vehicles are scaled element by element.

    A bound that has not been set yet is Python's `-inf` (for a maximum) or
    `inf` (for a minimum); here it is `None`. */
module Normalisation {
  import opened Wrappers
  import opened Functional
  import opened Encoder

  type Matrix = seq<seq<real>>

  datatype NormError =
    | BoundsNotLoaded   // a bound is still at its initial infinity, or the vehicle bounds are missing
    | ShapeMismatch     // numpy cannot stack vehicle vectors of different lengths

  predicate SameShape(a: Matrix, b: Matrix) {
    |a| == |b| && forall i :: 0 <= i < |a| ==> |a[i]| == |b[i]|
  }

  /** Every entry of `m` lies in `[lo, hi]`. */
  predicate Within(m: Matrix, lo: real, hi: real) {
    forall i, j :: 0 <= i < |m| && 0 <= j < |m[i]| ==> lo <= m[i][j] <= hi
  }

  /* ---------------- scaling ---------------- */

  /** `range_normalise(values, max, min)`: unset bounds raise; a zero range
      maps every value to 0; otherwise `v` becomes `(v - min) / (max - min)`. */
  function RangeNormalise(values: Matrix, max: Option<real>, min: Option<real>): (r: Result<Matrix, NormError>)
    ensures r.Err? <==> max.None? || min.None?
    ensures r.Ok? ==> SameShape(r.value, values)
    ensures r.Ok? && max.value == min.value ==> Within(r.value, 0.0, 0.0)
    ensures r.Ok? && max.value != min.value ==>
      forall i, j :: 0 <= i < |values| && 0 <= j < |values[i]| ==>
        r.value[i][j] * (max.value - min.value) + min.value == values[i][j]
  {
    if max.None? || min.None? then Err(BoundsNotLoaded)
    else
      var divisor := max.value - min.value;
      if divisor == 0.0 then Ok(seq(|values|, i requires 0 <= i < |values| => Fill(0.0, |values[i]|)))
      else Ok(seq(|values|, i requires 0 <= i < |values| =>
                seq(|values[i]|, j requires 0 <= j < |values[i]| => (values[i][j] - min.value) / divisor)))
  }

  /** Values inside the bounds land in `[0, 1]`. */
  lemma RangeNormaliseInUnit(values: Matrix, max: real, min: real)
    requires Within(values, min, max)
    ensures Within(RangeNormalise(values, Some(max), Some(min)).value, 0.0, 1.0)
  {
    var r := RangeNormalise(values, Some(max), Some(min)).value;
    if max != min {
      forall i, j | 0 <= i < |r| && 0 <= j < |r[i]|
        ensures 0.0 <= r[i][j] <= 1.0
      {
        var d := max - min;
        assert min <= values[i][j] <= max;
        assert d > 0.0;
        assert r[i][j] == (values[i][j] - min) / d;
        DivInUnit(values[i][j] - min, d);
      }
    }
  }

  /** `scalar_normalise(values, scale)`: a zero scale maps every value to 0,
      otherwise `v` becomes `v / scale`. */
  function ScalarNormalise(values: Matrix, scale: real): (r: Matrix)
    ensures SameShape(r, values)
    ensures scale == 0.0 ==> Within(r, 0.0, 0.0)
    ensures scale != 0.0 ==>
      forall i, j :: 0 <= i < |values| && 0 <= j < |values[i]| ==> r[i][j] * scale == values[i][j]
  {
    if scale == 0.0 then seq(|values|, i requires 0 <= i < |values| => Fill(0.0, |values[i]|))
    else seq(|values|, i requires 0 <= i < |values| =>
           seq(|values[i]|, j requires 0 <= j < |values[i]| => values[i][j] / scale))
  }

  /** Magnitudes up to the scale land in `[-1, 1]`. */
  lemma ScalarNormaliseInRange(values: Matrix, scale: real)
    requires forall i, j :: 0 <= i < |values| && 0 <= j < |values[i]| ==> Abs(values[i][j]) <= scale
    ensures Within(ScalarNormalise(values, scale), -1.0, 1.0)
  {
    var r := ScalarNormalise(values, scale);
    if scale != 0.0 {
      forall i, j | 0 <= i < |r| && 0 <= j < |r[i]|
        ensures -1.0 <= r[i][j] <= 1.0
      {
        var v := values[i][j];
        assert r[i][j] == v / scale;
        if v >= 0.0 {
          DivInUnit(v, scale);
        } else {
          DivInUnit(-v, scale);
          DivNegate(v, scale);
        }
      }
    }
  }

  /* ---------------- running extremes ---------------- */

  function MaxAbs(row: seq<real>): (r: real)
    requires |row| > 0
    ensures forall j :: 0 <= j < |row| ==> Abs(row[j]) <= r
    ensures exists j :: 0 <= j < |row| && r == Abs(row[j])
  {
    if |row| == 1 then Abs(row[0])
    else
      var m := MaxAbs(row[..|row| - 1]);
      assert forall j :: 0 <= j < |row| - 1 ==> row[..|row| - 1][j] == row[j];
      Max(m, Abs(row[|row| - 1]))
  }

  function MinAbs(row: seq<real>): (r: real)
    requires |row| > 0
    ensures forall j :: 0 <= j < |row| ==> r <= Abs(row[j])
    ensures exists j :: 0 <= j < |row| && r == Abs(row[j])
  {
    if |row| == 1 then Abs(row[0])
    else
      var m := MinAbs(row[..|row| - 1]);
      assert forall j :: 0 <= j < |row| - 1 ==> row[..|row| - 1][j] == row[j];
      Min(m, Abs(row[|row| - 1]))
  }

  /** Some entry of a non-empty row of `items` has magnitude `v`. */
  ghost predicate AttainedIn(v: real, items: Matrix) {
    exists i, j :: 0 <= i < |items| && 0 <= j < |items[i]| && v == Abs(items[i][j])
  }

  /** The largest magnitude in `items` and `curr` (`None` is `-inf`): empty
      rows are skipped. */
  function UpperBound(curr: Option<real>, items: Matrix): (r: Option<real>)
    ensures r.None? <==> curr.None? && forall i :: 0 <= i < |items| ==> |items[i]| == 0
    ensures curr.Some? ==> r.Some? && r.value >= curr.value
    ensures forall i, j :: 0 <= i < |items| && 0 <= j < |items[i]| ==> r.Some? && Abs(items[i][j]) <= r.value
    ensures r.Some? ==> r == curr || AttainedIn(r.value, items)
  {
    if |items| == 0 then curr
    else
      var init := items[..|items| - 1];
      var last := items[|items| - 1];
      var v := UpperBound(curr, init);
      assert forall i :: 0 <= i < |init| ==> init[i] == items[i];
      if |last| == 0 then v
      else
        var m := MaxAbs(last);
        if v.None? then Some(m) else Some(Max(v.value, m))
  }

  /** The smallest magnitude in `items` and `curr` (`None` is `inf`). */
  function LowerBound(curr: Option<real>, items: Matrix): (r: Option<real>)
    ensures r.None? <==> curr.None? && forall i :: 0 <= i < |items| ==> |items[i]| == 0
    ensures curr.Some? ==> r.Some? && r.value <= curr.value
    ensures forall i, j :: 0 <= i < |items| && 0 <= j < |items[i]| ==> r.Some? && r.value <= Abs(items[i][j])
    ensures r.Some? ==> r == curr || AttainedIn(r.value, items)
  {
    if |items| == 0 then curr
    else
      var init := items[..|items| - 1];
      var last := items[|items| - 1];
      var v := LowerBound(curr, init);
      assert forall i :: 0 <= i < |init| ==> init[i] == items[i];
      if |last| == 0 then v
      else
        var m := MinAbs(last);
        if v.None? then Some(m) else Some(Min(v.value, m))
  }

  /** `get_max_from_lists(curr, items)`: never below `curr`, never below a
      magnitude in `items`, and equal to one of them. */
  function GetMaxFromLists(curr: real, items: Matrix): (r: real)
    ensures r >= curr
    ensures forall i, j :: 0 <= i < |items| && 0 <= j < |items[i]| ==> Abs(items[i][j]) <= r
    ensures r == curr || AttainedIn(r, items)
  {
    UpperBound(Some(curr), items).value
  }

  /** `_get_min_and_max_from_lists(min, max, items)`: the minimum never
      rises and the maximum never falls. */
  function MinAndMaxFromLists(currMin: Option<real>, currMax: Option<real>, items: Matrix): (r: (Option<real>, Option<real>))
    ensures currMin.Some? ==> r.0.Some? && r.0.value <= currMin.value
    ensures currMax.Some? ==> r.1.Some? && r.1.value >= currMax.value
    ensures forall i, j :: 0 <= i < |items| && 0 <= j < |items[i]| ==>
      && r.0.Some? && r.0.value <= Abs(items[i][j])
      && r.1.Some? && Abs(items[i][j]) <= r.1.value
    ensures (forall i :: 0 <= i < |items| ==> |items[i]| == 0) ==> r == (currMin, currMax)
  {
    (LowerBound(currMin, items), UpperBound(currMax, items))
  }

  /** With no bound set, the extremes are attained: the minimum is at most
      the maximum and both are magnitudes from `items`. */
  lemma MinAndMaxOrdered(items: Matrix)
    requires exists i :: 0 <= i < |items| && |items[i]| > 0
    ensures var (lo, hi) := MinAndMaxFromLists(None, None, items);
            lo.Some? && hi.Some? && 0.0 <= lo.value <= hi.value
            && AttainedIn(lo.value, items) && AttainedIn(hi.value, items)
  {
    var i :| 0 <= i < |items| && |items[i]| > 0;
    var (lo, hi) := MinAndMaxFromLists(None, None, items);
    assert lo.value <= Abs(items[i][0]) <= hi.value;
    var i', j' :| 0 <= i' < |items| && 0 <= j' < |items[i']| && lo.value == Abs(items[i'][j']);
  }

  /* ---------------- vehicle bounds ---------------- */

  datatype VehicleBounds = VehicleBounds(min: seq<real>, max: seq<real>)

  /** `not self.min_vehicle`: no bounds, or an empty minimum. */
  predicate Unset(b: Option<VehicleBounds>) {
    b.None? || |b.value.min| == 0
  }

  /** `v` lies between the bounds, element by element. */
  predicate Covers(b: VehicleBounds, v: seq<real>) {
    && |b.min| == |v| && |b.max| == |v|
    && forall c :: 0 <= c < |v| ==> b.min[c] <= v[c] <= b.max[c]
  }

  /** `outer` is at least as wide as `inner`, element by element. */
  predicate Encloses(outer: VehicleBounds, inner: VehicleBounds) {
    && |outer.min| == |inner.min| && |outer.max| == |inner.max|
    && (forall c :: 0 <= c < |inner.min| ==> outer.min[c] <= inner.min[c])
    && (forall c :: 0 <= c < |inner.max| ==> outer.max[c] >= inner.max[c])
  }

  /** Every extreme is some vehicle's value. */
  ghost predicate Attained(b: VehicleBounds, vs: seq<seq<real>>) {
    && (forall c :: 0 <= c < |b.min| ==> exists i :: 0 <= i < |vs| && c < |vs[i]| && vs[i][c] == b.min[c])
    && (forall c :: 0 <= c < |b.max| ==> exists i :: 0 <= i < |vs| && c < |vs[i]| && vs[i][c] == b.max[c])
  }

  /** The extension can stack every vehicle: all non-empty vehicles share
      one length, which set bounds already have. */
  ghost predicate Consistent(b: Option<VehicleBounds>, vs: seq<seq<real>>) {
    forall i :: 0 <= i < |vs| && |vs[i]| > 0 ==>
      && (forall k :: 0 <= k < |vs| && |vs[k]| > 0 ==> |vs[k]| == |vs[i]|)
      && (!Unset(b) ==> |b.value.min| == |vs[i]| && |b.value.max| == |vs[i]|)
  }

  /** One pass of the vehicle loop in `extend`. */
  function StepVehicle(b: Option<VehicleBounds>, v: seq<real>): (r: Result<Option<VehicleBounds>, NormError>)
  {
    if |v| == 0 then Ok(b)
    else if Unset(b) then Ok(Some(VehicleBounds(v, v)))
    else if |b.value.min| != |v| || |b.value.max| != |v| then Err(ShapeMismatch)
    else Ok(Some(VehicleBounds(seq(|v|, c requires 0 <= c < |v| => Min(b.value.min[c], v[c])),
                               seq(|v|, c requires 0 <= c < |v| => Max(b.value.max[c], v[c])))))
  }

  /** The vehicle loop of `extend`: the first non-empty vehicle sets both
      bounds, later ones widen them element by element. */
  function ExtendVehicles(b: Option<VehicleBounds>, vs: seq<seq<real>>): (r: Result<Option<VehicleBounds>, NormError>)
    ensures r.Ok? <==> Consistent(b, vs)
    ensures r.Ok? ==> forall i :: 0 <= i < |vs| && |vs[i]| > 0 ==> r.value.Some? && Covers(r.value.value, vs[i])
    ensures r.Ok? && !Unset(b) ==> r.value.Some? && Encloses(r.value.value, b.value)
    ensures (forall i :: 0 <= i < |vs| ==> |vs[i]| == 0) ==> r == Ok(b)
  {
    if |vs| == 0 then Ok(b)
    else
      var init := vs[..|vs| - 1];
      var last := vs[|vs| - 1];
      assert forall i :: 0 <= i < |init| ==> init[i] == vs[i];
      match ExtendVehicles(b, init)
      case Err(e) =>
        assert !Consistent(b, vs) by { ConsistentPrefix(b, vs); }
        Err(e)
      case Ok(mid) =>
        var r := StepVehicle(mid, last);
        StepVehicleCases(b, vs, mid);
        r
  }

  lemma ConsistentPrefix(b: Option<VehicleBounds>, vs: seq<seq<real>>)
    requires |vs| > 0
    ensures Consistent(b, vs) ==> Consistent(b, vs[..|vs| - 1])
  {
    var init := vs[..|vs| - 1];
    assert forall i :: 0 <= i < |init| ==> init[i] == vs[i];
  }

  /** What `ExtendVehicles` promises about the prefix `vs[..|vs| - 1]`, with
      `mid` its result. */
  ghost predicate PrefixFacts(b: Option<VehicleBounds>, vs: seq<seq<real>>, mid: Option<VehicleBounds>)
    requires |vs| > 0
  {
    var init := vs[..|vs| - 1];
    && Consistent(b, init)
    && (forall i :: 0 <= i < |init| && |init[i]| > 0 ==> mid.Some? && Covers(mid.value, init[i]))
    && (!Unset(b) ==> mid.Some? && Encloses(mid.value, b.value))
    && ((forall i :: 0 <= i < |init| ==> |init[i]| == 0) ==> mid == b)
  }

  /** The last step of `ExtendVehicles`, given what the prefix produced. */
  lemma StepVehicleCases(b: Option<VehicleBounds>, vs: seq<seq<real>>, mid: Option<VehicleBounds>)
    requires |vs| > 0 && PrefixFacts(b, vs, mid)
    ensures var r := StepVehicle(mid, vs[|vs| - 1]);
      && (r.Ok? <==> Consistent(b, vs))
      && (r.Ok? ==> forall i :: 0 <= i < |vs| && |vs[i]| > 0 ==> r.value.Some? && Covers(r.value.value, vs[i]))
      && (r.Ok? && !Unset(b) ==> r.value.Some? && Encloses(r.value.value, b.value))
      && ((forall i :: 0 <= i < |vs| ==> |vs[i]| == 0) ==> r == Ok(b))
  {
    var init := vs[..|vs| - 1];
    var last := vs[|vs| - 1];
    assert forall i :: 0 <= i < |init| ==> init[i] == vs[i];
    if |last| == 0 {
      StepEmptyVehicle(b, vs, mid);
    } else if exists i :: 0 <= i < |init| && |init[i]| > 0 {
      var i :| 0 <= i < |init| && |init[i]| > 0;
      StepAfterSet(b, vs, mid, i);
    } else {
      StepFirstSet(b, vs, mid);
    }
  }

  lemma StepEmptyVehicle(b: Option<VehicleBounds>, vs: seq<seq<real>>, mid: Option<VehicleBounds>)
    requires |vs| > 0 && PrefixFacts(b, vs, mid) && |vs[|vs| - 1]| == 0
    ensures var r := StepVehicle(mid, vs[|vs| - 1]);
      && r == Ok(mid) && Consistent(b, vs)
      && (forall i :: 0 <= i < |vs| && |vs[i]| > 0 ==> mid.Some? && Covers(mid.value, vs[i]))
      && ((forall i :: 0 <= i < |vs| ==> |vs[i]| == 0) ==> mid == b)
  {
    var init := vs[..|vs| - 1];
    assert forall i :: 0 <= i < |init| ==> init[i] == vs[i];
  }

  /** A vehicle after an earlier non-empty one: stacked with the bounds. */
  lemma StepAfterSet(b: Option<VehicleBounds>, vs: seq<seq<real>>, mid: Option<VehicleBounds>, i: int)
    requires |vs| > 0 && PrefixFacts(b, vs, mid) && |vs[|vs| - 1]| > 0
    requires 0 <= i < |vs| - 1 && |vs[i]| > 0
    ensures var r := StepVehicle(mid, vs[|vs| - 1]);
      && (r.Ok? <==> Consistent(b, vs))
      && (r.Ok? ==> forall k :: 0 <= k < |vs| && |vs[k]| > 0 ==> r.value.Some? && Covers(r.value.value, vs[k]))
      && (r.Ok? && !Unset(b) ==> r.value.Some? && Encloses(r.value.value, b.value))
  {
    var init := vs[..|vs| - 1];
    var last := vs[|vs| - 1];
    assert init[i] == vs[i];
    var m := mid.value;
    assert Covers(m, vs[i]);
    var r := StepVehicle(mid, last);
    if |vs[i]| != |last| {
      assert r.Err?;
      assert !Consistent(b, vs);
    } else {
      assert r.value == Some(VehicleBounds(seq(|last|, c requires 0 <= c < |last| => Min(m.min[c], last[c])),
                                           seq(|last|, c requires 0 <= c < |last| => Max(m.max[c], last[c]))));
      forall k | 0 <= k < |vs| && |vs[k]| > 0
        ensures |vs[k]| == |vs[i]|
      {
        if k < |vs| - 1 {
          assert init[k] == vs[k];
          assert Covers(m, vs[k]);
        }
      }
      assert Consistent(b, vs) by {
        forall k | 0 <= k < |vs| && |vs[k]| > 0 && !Unset(b)
          ensures |b.value.min| == |vs[k]| && |b.value.max| == |vs[k]|
        {
          assert Encloses(m, b.value);
        }
      }
      forall k | 0 <= k < |vs| - 1 && |vs[k]| > 0
        ensures Covers(r.value.value, vs[k])
      {
        assert init[k] == vs[k];
        assert Covers(m, vs[k]);
      }
    }
  }

  /** The first non-empty vehicle: it becomes both bounds when none are
      set, and is stacked with bounds that are. */
  lemma StepFirstSet(b: Option<VehicleBounds>, vs: seq<seq<real>>, mid: Option<VehicleBounds>)
    requires |vs| > 0 && PrefixFacts(b, vs, mid) && |vs[|vs| - 1]| > 0
    requires forall i :: 0 <= i < |vs| - 1 ==> |vs[i]| == 0
    ensures var r := StepVehicle(mid, vs[|vs| - 1]);
      && (r.Ok? <==> Consistent(b, vs))
      && (r.Ok? ==> forall k :: 0 <= k < |vs| && |vs[k]| > 0 ==> r.value.Some? && Covers(r.value.value, vs[k]))
      && (r.Ok? && !Unset(b) ==> r.value.Some? && Encloses(r.value.value, b.value))
  {
    var init := vs[..|vs| - 1];
    var last := vs[|vs| - 1];
    assert forall k :: 0 <= k < |init| ==> init[k] == vs[k];
    assert mid == b;
    var r := StepVehicle(mid, last);
    if Unset(b) {
      assert r == Ok(Some(VehicleBounds(last, last)));
    } else if |b.value.min| != |last| || |b.value.max| != |last| {
      assert r.Err?;
      assert !Consistent(b, vs);
    } else {
      assert Consistent(b, vs);
    }
  }

  /** Starting from no bounds, every extreme is some vehicle's value. */
  lemma {:induction false} ExtendVehiclesAttained(vs: seq<seq<real>>)
    requires ExtendVehicles(None, vs).Ok? && ExtendVehicles(None, vs).value.Some?
    ensures Attained(ExtendVehicles(None, vs).value.value, vs)
  {
    var init := vs[..|vs| - 1];
    var last := vs[|vs| - 1];
    assert forall i :: 0 <= i < |init| ==> init[i] == vs[i];
    var mid := ExtendVehicles(None, init).value;
    var b := ExtendVehicles(None, vs).value.value;
    if mid.Some? && !Unset(mid) {
      ExtendVehiclesAttained(init);
      if |last| > 0 {
        forall c | 0 <= c < |b.min|
          ensures exists i :: 0 <= i < |vs| && c < |vs[i]| && vs[i][c] == b.min[c]
        {
          if b.min[c] == last[c] {
            assert vs[|vs| - 1] == last;
          } else {
            assert b.min[c] == mid.value.min[c];
            var i :| 0 <= i < |init| && c < |init[i]| && init[i][c] == mid.value.min[c];
            assert vs[i] == init[i];
          }
        }
        forall c | 0 <= c < |b.max|
          ensures exists i :: 0 <= i < |vs| && c < |vs[i]| && vs[i][c] == b.max[c]
        {
          if b.max[c] == last[c] {
            assert vs[|vs| - 1] == last;
          } else {
            assert b.max[c] == mid.value.max[c];
            var i :| 0 <= i < |init| && c < |init[i]| && init[i][c] == mid.value.max[c];
            assert vs[i] == init[i];
          }
        }
      } else {
        forall c | 0 <= c < |b.min|
          ensures exists i :: 0 <= i < |vs| && c < |vs[i]| && vs[i][c] == b.min[c]
        {
          var i :| 0 <= i < |init| && c < |init[i]| && init[i][c] == mid.value.min[c];
          assert vs[i] == init[i];
        }
        forall c | 0 <= c < |b.max|
          ensures exists i :: 0 <= i < |vs| && c < |vs[i]| && vs[i][c] == b.max[c]
        {
          var i :| 0 <= i < |init| && c < |init[i]| && init[i][c] == mid.value.max[c];
          assert vs[i] == init[i];
        }
      }
    } else {
      assert vs[|vs| - 1] == last;
    }
  }

  /** `_normalise_vehicles`: the divisor of each element is `max - min`,
      or 1 where that is 0. */
  function VehicleDivisor(b: VehicleBounds): (r: seq<real>)
    ensures |r| == if |b.min| <= |b.max| then |b.min| else |b.max|
    ensures forall c :: 0 <= c < |r| ==> r[c] != 0.0
    ensures forall c :: 0 <= c < |r| ==> (b.max[c] == b.min[c] ==> r[c] == 1.0) && (b.max[c] != b.min[c] ==> r[c] == b.max[c] - b.min[c])
  {
    var n := if |b.min| <= |b.max| then |b.min| else |b.max|;
    seq(n, c requires 0 <= c < n => if b.max[c] - b.min[c] == 0.0 then 1.0 else b.max[c] - b.min[c])
  }

  function NormaliseVehicle(b: VehicleBounds, v: seq<real>): (r: seq<real>)
    ensures var d := VehicleDivisor(b);
      && |r| == (if |v| <= |d| then |v| else |d|)
      && forall c :: 0 <= c < |r| ==> r[c] * d[c] + b.min[c] == v[c]
  {
    var d := VehicleDivisor(b);
    var n := if |v| <= |d| then |v| else |d|;
    seq(n, c requires 0 <= c < n => (v[c] - b.min[c]) / d[c])
  }

  /** Missing vehicle bounds raise; every vehicle is scaled element-wise. */
  function NormaliseVehicles(b: Option<VehicleBounds>, vs: seq<seq<real>>): (r: Result<Matrix, NormError>)
    ensures r.Err? <==> b.None?
    ensures r.Ok? ==> |r.value| == |vs| && forall i :: 0 <= i < |vs| ==> r.value[i] == NormaliseVehicle(b.value, vs[i])
  {
    if b.None? then Err(BoundsNotLoaded)
    else Ok(seq(|vs|, i requires 0 <= i < |vs| => NormaliseVehicle(b.value, vs[i])))
  }

  /** A covered vehicle lands in `[0, 1]`. */
  lemma NormaliseVehicleInUnit(b: VehicleBounds, v: seq<real>)
    requires Covers(b, v)
    ensures |NormaliseVehicle(b, v)| == |v|
    ensures forall c :: 0 <= c < |v| ==> 0.0 <= NormaliseVehicle(b, v)[c] <= 1.0
  {
    var r := NormaliseVehicle(b, v);
    var d := VehicleDivisor(b);
    forall c | 0 <= c < |v|
      ensures 0.0 <= r[c] <= 1.0
    {
      assert r[c] == (v[c] - b.min[c]) / d[c];
      if b.max[c] == b.min[c] {
        assert v[c] - b.min[c] == 0.0;
      } else {
        DivInUnit(v[c] - b.min[c], d[c]);
      }
    }
  }

  /** After extending from no bounds over the same vehicles, each element's
      smallest value is normalised to exactly 0 and, where the values
      differ, its largest to exactly 1. */
  lemma NormalisedVehiclesSpanUnit(vs: seq<seq<real>>, b: VehicleBounds, c: int)
    requires ExtendVehicles(None, vs) == Ok(Some(b)) && 0 <= c < |b.min|
    ensures exists i :: 0 <= i < |vs| && c < |vs[i]| && NormaliseVehicle(b, vs[i])[c] == 0.0
    ensures b.max[c] != b.min[c] ==> exists i :: 0 <= i < |vs| && c < |vs[i]| && NormaliseVehicle(b, vs[i])[c] == 1.0
  {
    ExtendVehiclesAttained(vs);
    var i :| 0 <= i < |vs| && c < |vs[i]| && vs[i][c] == b.min[c];
    NormaliseAtExtremes(b, vs[i], c);
    if b.max[c] != b.min[c] {
      var k :| 0 <= k < |vs| && c < |vs[k]| && vs[k][c] == b.max[c];
      NormaliseAtExtremes(b, vs[k], c);
    }
  }

  lemma NormaliseAtExtremes(b: VehicleBounds, v: seq<real>, c: int)
    requires Covers(b, v) && 0 <= c < |v|
    ensures v[c] == b.min[c] ==> NormaliseVehicle(b, v)[c] == 0.0
    ensures v[c] == b.max[c] && b.max[c] != b.min[c] ==> NormaliseVehicle(b, v)[c] == 1.0
  {
    var d := VehicleDivisor(b)[c];
    var x := NormaliseVehicle(b, v)[c];
    assert x == (v[c] - b.min[c]) / d;
    if v[c] == b.max[c] && b.max[c] != b.min[c] {
      assert d == b.max[c] - b.min[c];
      assert x == d / d;
      DivSelf(d);
    }
  }

  /* ---------------- the bounds object ---------------- */

  datatype Bounds = Bounds(
    maxWidth: Option<real>, minWidth: Option<real>,
    maxAngle: real, maxOffset: real,
    maxVelocity: Option<real>, minVelocity: Option<real>,
    vehicle: Option<VehicleBounds>)

  /** A fresh `NormalisationBounds()`: infinite width and velocity bounds,
      zero angle and offset maxima, no vehicle bounds. */
  function DefaultBounds(): Bounds {
    Bounds(None, None, 0.0, 0.0, None, None, None)
  }

  /** `NormalisationBounds.extend(partition, vehicles)`. */
  function Extend(b: Bounds, p: Partition, vehicles: seq<seq<real>>): (r: Result<Bounds, NormError>)
    ensures r.Ok? <==> Consistent(b.vehicle, vehicles)
    ensures r.Ok? ==> r.value.maxAngle >= b.maxAngle && r.value.maxOffset >= b.maxOffset
    ensures r.Ok? ==> forall i, j :: 0 <= i < |p.angles| && 0 <= j < |p.angles[i]| ==> Abs(p.angles[i][j]) <= r.value.maxAngle
    ensures r.Ok? ==> forall i, j :: 0 <= i < |p.offsets| && 0 <= j < |p.offsets[i]| ==> Abs(p.offsets[i][j]) <= r.value.maxOffset
    ensures r.Ok? ==> forall i, j :: 0 <= i < |p.widths| && 0 <= j < |p.widths[i]| ==>
      r.value.minWidth.Some? && r.value.maxWidth.Some? && r.value.minWidth.value <= Abs(p.widths[i][j]) <= r.value.maxWidth.value
    ensures r.Ok? ==> forall i, j :: 0 <= i < |p.velocities| && 0 <= j < |p.velocities[i]| ==>
      r.value.minVelocity.Some? && r.value.maxVelocity.Some? && r.value.minVelocity.value <= Abs(p.velocities[i][j]) <= r.value.maxVelocity.value
    ensures r.Ok? ==> forall i :: 0 <= i < |vehicles| && |vehicles[i]| > 0 ==> r.value.vehicle.Some? && Covers(r.value.vehicle.value, vehicles[i])
  {
    var (minWidth, maxWidth) := MinAndMaxFromLists(b.minWidth, b.maxWidth, p.widths);
    var (minVelocity, maxVelocity) := MinAndMaxFromLists(b.minVelocity, b.maxVelocity, p.velocities);
    var vehicle :- ExtendVehicles(b.vehicle, vehicles);
    Ok(Bounds(maxWidth, minWidth, GetMaxFromLists(b.maxAngle, p.angles), GetMaxFromLists(b.maxOffset, p.offsets),
              maxVelocity, minVelocity, vehicle))
  }

  /** Nothing to learn from: a partition whose rows are all empty, with
      empty vehicle vectors, leaves fresh bounds exactly as they were. */
  lemma ExtendWithNothingKeepsDefaults(p: Partition, vehicles: seq<seq<real>>)
    requires forall i :: 0 <= i < |p.widths| ==> |p.widths[i]| == 0
    requires forall i :: 0 <= i < |p.angles| ==> |p.angles[i]| == 0
    requires forall i :: 0 <= i < |p.offsets| ==> |p.offsets[i]| == 0
    requires forall i :: 0 <= i < |p.velocities| ==> |p.velocities[i]| == 0
    requires forall i :: 0 <= i < |vehicles| ==> |vehicles[i]| == 0
    ensures Extend(DefaultBounds(), p, vehicles) == Ok(DefaultBounds())
  {
  }

  /* ---------------- normalised data ---------------- */

  /** `NormalisedData`: a dictionary of matrices, one row per track (one
      row per vehicle under "vehicles"). */
  datatype NormalisedData = NormalisedData(data: map<string, Matrix>)
  {
    /** `data[key]`; a missing key raises (`None`). */
    function Get(key: string): (r: Option<Matrix>)
      ensures r.Some? <==> key in data
      ensures r.Some? ==> r.value == data[key]
    {
      if key in data then Some(data[key]) else None
    }

    /** `len(data)`: the number of vehicles, one per track. */
    function Len(): (r: Option<nat>)
      ensures r.Some? <==> "vehicles" in data
      ensures r.Some? ==> r.value == |data["vehicles"]|
    {
      if "vehicles" in data then Some(|data["vehicles"]|) else None
    }

    /** `track_length(t)`: the number of widths of track `t`; a negative
        index counts from the end, as Python's does. */
    function TrackLength(t: int): (r: Option<nat>)
      ensures r.Some? <==> "widths" in data && -|data["widths"]| <= t < |data["widths"]|
      ensures r.Some? ==> r.value == |data["widths"][if t < 0 then t + |data["widths"]| else t]|
    {
      if "widths" in data && -|data["widths"]| <= t < |data["widths"]| then
        Some(|data["widths"][if t < 0 then t + |data["widths"]| else t]|)
      else None
    }

    /** `normals_count()`: the widths of every track, counted together. */
    function NormalsCount(): (r: Option<nat>)
      ensures r.Some? <==> "widths" in data
      ensures r.Some? ==> r.value == |Flatten(data["widths"])|
    {
      if "widths" in data then Some(|Flatten(data["widths"])|) else None
    }

    /** `longest_track_length()`: the maximum of an empty list raises. */
    function LongestTrackLength(): (r: Option<nat>)
      ensures r.Some? <==> "widths" in data && |data["widths"]| > 0
      ensures r.Some? ==> forall t :: 0 <= t < |data["widths"]| ==> |data["widths"][t]| <= r.value
      ensures r.Some? ==> exists t :: 0 <= t < |data["widths"]| && |data["widths"][t]| == r.value
    {
      if "widths" in data && |data["widths"]| > 0 then Some(LongestRow(data["widths"])) else None
    }

    /** `vehicle_size()`: the length of the first vehicle vector. */
    function VehicleSize(): (r: Option<nat>)
      ensures r.Some? <==> "vehicles" in data && |data["vehicles"]| > 0
      ensures r.Some? ==> r.value == |data["vehicles"][0]|
    {
      if "vehicles" in data && |data["vehicles"]| > 0 then Some(|data["vehicles"][0]|) else None
    }
  }

  function LongestRow(m: Matrix): (r: nat)
    requires |m| > 0
    ensures forall t :: 0 <= t < |m| ==> |m[t]| <= r
    ensures exists t :: 0 <= t < |m| && |m[t]| == r
  {
    if |m| == 1 then |m[0]|
    else
      var rest := LongestRow(m[1..]);
      assert forall t :: 1 <= t < |m| ==> m[t] == m[1..][t - 1];
      if |m[0]| >= rest then |m[0]| else rest
  }

  /** The longest track is at least as long as every track. */
  lemma LongestBoundsEveryTrack(d: NormalisedData, t: int)
    requires d.LongestTrackLength().Some? && d.TrackLength(t).Some?
    ensures d.TrackLength(t).value <= d.LongestTrackLength().value
  {
  }

  /** The normals count adds up the track lengths. */
  lemma {:induction false} NormalsCountIsSumOfLengths(m: Matrix)
    ensures |Flatten(m)| == SumOfLengths(m)
  {
    if |m| > 0 {
      NormalsCountIsSumOfLengths(m[..|m| - 1]);
      SumOfLengthsSnoc(m);
    }
  }

  function SumOfLengths(m: Matrix): nat {
    if |m| == 0 then 0 else |m[0]| + SumOfLengths(m[1..])
  }

  lemma {:induction false} SumOfLengthsSnoc(m: Matrix)
    requires |m| > 0
    ensures SumOfLengths(m) == SumOfLengths(m[..|m| - 1]) + |m[|m| - 1]|
  {
    if |m| > 1 {
      assert m[1..][..|m[1..]| - 1] == m[..|m| - 1][1..];
      SumOfLengthsSnoc(m[1..]);
    }
  }

  /** `NormalisationBounds.normalise(partition, vehicles)`: widths and
      velocities by range, angles and offsets by scale, positions as they
      are, and the vehicles element-wise. */
  function Normalise(b: Bounds, p: Partition, vehicles: seq<seq<real>>): (r: Result<NormalisedData, NormError>)
    ensures r.Err? <==> b.maxWidth.None? || b.minWidth.None? || b.maxVelocity.None? || b.minVelocity.None? || b.vehicle.None?
    ensures r.Ok? ==> r.value.data.Keys == {"widths", "angles", "offsets", "positions", "velocities", "vehicles"}
    ensures r.Ok? ==> r.value.data["positions"] == p.positions
    ensures r.Ok? ==> SameShape(r.value.data["widths"], p.widths) && SameShape(r.value.data["angles"], p.angles)
    ensures r.Ok? ==> SameShape(r.value.data["offsets"], p.offsets) && SameShape(r.value.data["velocities"], p.velocities)
    ensures r.Ok? ==> |r.value.data["vehicles"]| == |vehicles|
  {
    var widths :- RangeNormalise(p.widths, b.maxWidth, b.minWidth);
    var velocities :- RangeNormalise(p.velocities, b.maxVelocity, b.minVelocity);
    var vs :- NormaliseVehicles(b.vehicle, vehicles);
    Ok(NormalisedData(map[
      "widths" := widths,
      "angles" := ScalarNormalise(p.angles, b.maxAngle),
      "offsets" := ScalarNormalise(p.offsets, b.maxOffset),
      "positions" := p.positions,
      "velocities" := velocities,
      "vehicles" := vs]))
  }

  /** Extending fresh bounds by a partition and then normalising that same
      partition keeps angles and offsets within `[-1, 1]` and non-negative
      widths within `[0, 1]`. */
  lemma ExtendThenNormaliseBounded(p: Partition, vehicles: seq<seq<real>>)
    requires Extend(DefaultBounds(), p, vehicles).Ok?
    requires Normalise(Extend(DefaultBounds(), p, vehicles).value, p, vehicles).Ok?
    requires forall i, j :: 0 <= i < |p.widths| && 0 <= j < |p.widths[i]| ==> p.widths[i][j] >= 0.0
    ensures var d := Normalise(Extend(DefaultBounds(), p, vehicles).value, p, vehicles).value.data;
      Within(d["angles"], -1.0, 1.0) && Within(d["offsets"], -1.0, 1.0) && Within(d["widths"], 0.0, 1.0)
  {
    var b := Extend(DefaultBounds(), p, vehicles).value;
    NormalisedFields(b, p, vehicles);
    ScalarNormaliseInRange(p.angles, b.maxAngle);
    ScalarNormaliseInRange(p.offsets, b.maxOffset);
    assert Within(p.widths, b.minWidth.value, b.maxWidth.value);
    RangeNormaliseInUnit(p.widths, b.maxWidth.value, b.minWidth.value);
  }

  /** The scaled fields of normalised data: the angles and offsets divided
      by their bounds, the widths scaled into their range. */
  lemma NormalisedFields(b: Bounds, p: Partition, vehicles: seq<seq<real>>)
    requires Normalise(b, p, vehicles).Ok?
    ensures var d := Normalise(b, p, vehicles).value.data;
      && d["angles"] == ScalarNormalise(p.angles, b.maxAngle)
      && d["offsets"] == ScalarNormalise(p.offsets, b.maxOffset)
      && d["widths"] == RangeNormalise(p.widths, b.maxWidth, b.minWidth).value
  {
  }
}
