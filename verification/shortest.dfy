/** The shortest path round a track, in two steps: a discrete sweep over
    evenly spaced points on every normal (`shortest_path_walk_track`), then
    rounds of local refinement that move each point to where the segment
    joining its neighbours crosses its normal (`shortest_path`). */
module Shortest {
  import opened Wrappers
  import opened Functional
  import opened Geometry
  import opened Tracks

  /** The Python exceptions the two functions can raise. */
  datatype ShortestError =
    | ZeroDivision   // `step / steps` with no steps, or a crossing on a zero-length normal
    | IndexError     // no lines, or no step values to start from

  /* ---------------- the discrete sweep ---------------- */

  /** `[step / steps for step in range(steps + 1)]`. */
  function StepValues(steps: nat): (r: seq<real>)
    requires steps >= 1
    ensures |r| == steps + 1
  {
    seq(steps + 1, k requires 0 <= k <= steps => k as real / steps as real)
  }

  /** The step values run evenly from 0 to 1. */
  lemma StepValuesInUnit(steps: nat, k: int)
    requires steps >= 1 && 0 <= k <= steps
    ensures StepValues(steps)[k] * steps as real == k as real
    ensures 0.0 <= StepValues(steps)[k] <= 1.0
    ensures StepValues(steps)[0] == 0.0 && StepValues(steps)[steps] == 1.0
    ensures k < steps ==> StepValues(steps)[k] < StepValues(steps)[k + 1]
  {
    var s := steps as real;
    assert StepValues(steps)[k] == k as real / s;
    DivCancel(k as real, s);
    DivInUnit(k as real, s);
    assert StepValues(steps)[0] == 0.0 / s;
    ZeroDiv(s);
    assert StepValues(steps)[steps] == s / s;
    DivSelf(s);
    if k < steps {
      assert StepValues(steps)[k + 1] == (k + 1) as real / s;
      DivStrictMono(k as real, (k + 1) as real, s);
    }
  }

  /** A point on a normal with the interpolations of the cheapest chain
      found so far that ends there, and that chain's length. */
  datatype ReferencePoint = ReferencePoint(position: Point, interpolations: seq<real>, total: real)

  /** The cost of reaching `point` through reference point `j`. */
  function Cost(sqrt: SqrtFn, point: Point, refs: seq<ReferencePoint>, j: nat): real
    requires j < |refs|
  {
    Distance(sqrt, point, refs[j].position) + refs[j].total
  }

  /** The forward walk: from `best`, try `best + 1` while it is cheaper and
      below `steps`; the first one that is not cheaper stops the walk. */
  function Forward(sqrt: SqrtFn, point: Point, refs: seq<ReferencePoint>, steps: nat, best: nat, bestCost: real): (r: (nat, real))
    requires best < |refs| && steps <= |refs|
    ensures best <= r.0 < |refs| && r.1 <= bestCost
    ensures r.0 == best || r.0 < steps
    ensures r.0 != best ==> r.1 < bestCost
    decreases |refs| - best
  {
    if best + 1 >= steps then (best, bestCost)
    else
      var c := Cost(sqrt, point, refs, best + 1);
      if c >= bestCost then (best, bestCost)
      else Forward(sqrt, point, refs, steps, best + 1, c)
  }

  /** The backward walk, the same way down to index 0. */
  function Backward(sqrt: SqrtFn, point: Point, refs: seq<ReferencePoint>, best: nat, bestCost: real): (r: (nat, real))
    requires best < |refs|
    ensures r.0 <= best && r.1 <= bestCost
    ensures r.0 != best ==> r.1 < bestCost
  {
    if best == 0 then (best, bestCost)
    else
      var c := Cost(sqrt, point, refs, best - 1);
      if c >= bestCost then (best, bestCost)
      else Backward(sqrt, point, refs, best - 1, c)
  }

  /** The predecessor chosen for step `i` on the next line and the cost
      through it: start at the same step, walk forward, then backward. */
  function Choose(sqrt: SqrtFn, point: Point, refs: seq<ReferencePoint>, steps: nat, i: nat): (r: (nat, real))
    requires i < |refs| && steps <= |refs|
    ensures r.0 < |refs| && r.1 <= Cost(sqrt, point, refs, i)
  {
    var f := Forward(sqrt, point, refs, steps, i, Cost(sqrt, point, refs, i));
    Backward(sqrt, point, refs, f.0, f.1)
  }

  /** The walks carry a cost that is the cost through the index they carry. */
  lemma {:induction false} ForwardCost(sqrt: SqrtFn, point: Point, refs: seq<ReferencePoint>, steps: nat, best: nat, bestCost: real)
    requires best < |refs| && steps <= |refs| && bestCost == Cost(sqrt, point, refs, best)
    ensures var r := Forward(sqrt, point, refs, steps, best, bestCost);
            r.1 == Cost(sqrt, point, refs, r.0)
    ensures var r := Forward(sqrt, point, refs, steps, best, bestCost);
            r.0 + 1 >= steps || Cost(sqrt, point, refs, r.0 + 1) >= r.1
    decreases |refs| - best
  {
    if best + 1 < steps {
      var c := Cost(sqrt, point, refs, best + 1);
      if c < bestCost {
        ForwardCost(sqrt, point, refs, steps, best + 1, c);
      }
    }
  }

  lemma {:induction false} BackwardCost(sqrt: SqrtFn, point: Point, refs: seq<ReferencePoint>, best: nat, bestCost: real)
    requires best < |refs| && bestCost == Cost(sqrt, point, refs, best)
    ensures var r := Backward(sqrt, point, refs, best, bestCost);
            r.1 == Cost(sqrt, point, refs, r.0)
    ensures var r := Backward(sqrt, point, refs, best, bestCost);
            r.0 == 0 || Cost(sqrt, point, refs, r.0 - 1) >= r.1
  {
    if best > 0 {
      var c := Cost(sqrt, point, refs, best - 1);
      if c < bestCost {
        BackwardCost(sqrt, point, refs, best - 1, c);
      }
    }
  }

  /** The chosen predecessor's cost is the distance to it plus its total,
      and no neighbouring step below it is cheaper. */
  lemma ChooseCost(sqrt: SqrtFn, point: Point, refs: seq<ReferencePoint>, steps: nat, i: nat)
    requires i < |refs| && steps <= |refs|
    ensures var r := Choose(sqrt, point, refs, steps, i);
            r.1 == Distance(sqrt, point, refs[r.0].position) + refs[r.0].total
    ensures var r := Choose(sqrt, point, refs, steps, i);
            r.0 == 0 || Cost(sqrt, point, refs, r.0 - 1) >= r.1
  {
    var f := Forward(sqrt, point, refs, steps, i, Cost(sqrt, point, refs, i));
    ForwardCost(sqrt, point, refs, steps, i, Cost(sqrt, point, refs, i));
    BackwardCost(sqrt, point, refs, f.0, f.1);
  }

  /** The reference points of the first line: one per step value, each
      starting a chain of length 0. */
  function FirstReferences(line: Line, values: seq<real>): (r: seq<ReferencePoint>)
    ensures |r| == |values|
    ensures forall i :: 0 <= i < |r| ==> r[i].total == 0.0 && r[i].interpolations == [values[i]]
  {
    seq(|values|, i requires 0 <= i < |values| => ReferencePoint(Lerp(line.start, line.end, values[i]), [values[i]], 0.0))
  }

  /** The reference points of the next line. */
  function NextReferences(sqrt: SqrtFn, refs: seq<ReferencePoint>, line: Line, values: seq<real>, steps: nat): (r: seq<ReferencePoint>)
    requires |refs| == |values| && steps <= |refs|
    ensures |r| == |values|
  {
    seq(|values|, i requires 0 <= i < |values| =>
      var point := Lerp(line.start, line.end, values[i]);
      var c := Choose(sqrt, point, refs, steps, i);
      ReferencePoint(point, refs[c.0].interpolations + [values[i]], c.1))
  }

  /** Each new reference point extends the chain of a predecessor on the
      previous line, its total being the distance to that predecessor plus
      the predecessor's total. */
  lemma NextReferencesExtend(sqrt: SqrtFn, refs: seq<ReferencePoint>, line: Line, values: seq<real>, steps: nat, i: int)
    requires |refs| == |values| && steps <= |refs| && 0 <= i < |values|
    ensures var r := NextReferences(sqrt, refs, line, values, steps)[i];
            exists p :: 0 <= p < |refs|
              && r.position == Lerp(line.start, line.end, values[i])
              && r.interpolations == refs[p].interpolations + [values[i]]
              && r.total == Distance(sqrt, r.position, refs[p].position) + refs[p].total
  {
    var point := Lerp(line.start, line.end, values[i]);
    var c := Choose(sqrt, point, refs, steps, i);
    ChooseCost(sqrt, point, refs, steps, i);
    assert NextReferences(sqrt, refs, line, values, steps)[i] == ReferencePoint(point, refs[c.0].interpolations + [values[i]], c.1);
  }

  /** Every chain has one interpolation per line swept, each a step value. */
  ghost predicate Chains(refs: seq<ReferencePoint>, m: nat, values: seq<real>) {
    forall i :: 0 <= i < |refs| ==>
      |refs[i].interpolations| == m && forall k :: 0 <= k < m ==> refs[i].interpolations[k] in values
  }

  lemma NextReferencesChain(sqrt: SqrtFn, refs: seq<ReferencePoint>, line: Line, values: seq<real>, steps: nat, m: nat)
    requires |refs| == |values| && steps <= |refs| && Chains(refs, m, values)
    ensures Chains(NextReferences(sqrt, refs, line, values, steps), m + 1, values)
  {
    var r := NextReferences(sqrt, refs, line, values, steps);
    forall i | 0 <= i < |r|
      ensures |r[i].interpolations| == m + 1 && forall k :: 0 <= k < m + 1 ==> r[i].interpolations[k] in values
    {
      NextReferencesExtend(sqrt, refs, line, values, steps, i);
    }
  }

  /** The sweep over lines `m..`. */
  function Sweep(sqrt: SqrtFn, lines: seq<Line>, m: nat, refs: seq<ReferencePoint>, values: seq<real>, steps: nat): (r: seq<ReferencePoint>)
    requires m <= |lines| && |refs| == |values| && steps <= |refs|
    ensures |r| == |values|
    decreases |lines| - m
  {
    if m == |lines| then refs
    else Sweep(sqrt, lines, m + 1, NextReferences(sqrt, refs, lines[m], values, steps), values, steps)
  }

  lemma {:induction false} SweepChains(sqrt: SqrtFn, lines: seq<Line>, m: nat, refs: seq<ReferencePoint>, values: seq<real>, steps: nat)
    requires m <= |lines| && |refs| == |values| && steps <= |refs| && Chains(refs, m, values)
    ensures Chains(Sweep(sqrt, lines, m, refs, values, steps), |lines|, values)
    decreases |lines| - m
  {
    if m < |lines| {
      NextReferencesChain(sqrt, refs, lines[m], values, steps, m);
      SweepChains(sqrt, lines, m + 1, NextReferences(sqrt, refs, lines[m], values, steps), values, steps);
    }
  }

  function Totals(refs: seq<ReferencePoint>): (r: seq<real>)
    ensures |r| == |refs| && forall i :: 0 <= i < |refs| ==> r[i] == refs[i].total
  {
    seq(|refs|, i requires 0 <= i < |refs| => refs[i].total)
  }

  /** The reference points of the last line. */
  function LastReferences(sqrt: SqrtFn, lines: seq<Line>, steps: nat): (r: seq<ReferencePoint>)
    requires steps >= 1 && |lines| >= 1
    ensures |r| == steps + 1
  {
    var values := StepValues(steps);
    Sweep(sqrt, lines, 1, FirstReferences(lines[0], values), values, steps)
  }

  /** `shortest_path_walk_track(lines, steps)`: the interpolations of the
      cheapest chain over all the lines. */
  function WalkTrack(sqrt: SqrtFn, lines: seq<Line>, steps: int): (r: Result<seq<real>, ShortestError>)
    ensures steps == 0 ==> r == Err(ZeroDivision)
    ensures steps != 0 && (|lines| == 0 || steps < 0) ==> r == Err(IndexError)
    ensures steps >= 1 && |lines| >= 1 ==> r.Ok?
  {
    if steps == 0 then Err(ZeroDivision)
    else if |lines| == 0 || steps < 0 then Err(IndexError)
    else
      var last := LastReferences(sqrt, lines, steps);
      Ok(last[ArgMin(Totals(last))].interpolations)
  }

  /** Every final chain has one interpolation per line, each a step value. */
  lemma LastReferencesChain(sqrt: SqrtFn, lines: seq<Line>, steps: nat)
    requires steps >= 1 && |lines| >= 1
    ensures Chains(LastReferences(sqrt, lines, steps), |lines|, StepValues(steps))
  {
    var values := StepValues(steps);
    var first := FirstReferences(lines[0], values);
    assert Chains(first, 1, values) by {
      forall i | 0 <= i < |first| ensures |first[i].interpolations| == 1 && first[i].interpolations[0] in values {
      }
    }
    SweepChains(sqrt, lines, 1, first, values, steps);
  }

  /** The sweep's result: one interpolation per line, each a step value in
      `[0, 1]`. */
  lemma WalkTrackSteps(sqrt: SqrtFn, lines: seq<Line>, steps: int)
    requires steps >= 1 && |lines| >= 1
    ensures var r := WalkTrack(sqrt, lines, steps).value;
            && |r| == |lines|
            && forall k :: 0 <= k < |r| ==> r[k] in StepValues(steps) && 0.0 <= r[k] <= 1.0
  {
    var last := LastReferences(sqrt, lines, steps);
    LastReferencesChain(sqrt, lines, steps);
    var r := last[ArgMin(Totals(last))].interpolations;
    assert WalkTrack(sqrt, lines, steps).value == r;
    forall k | 0 <= k < |r| ensures 0.0 <= r[k] <= 1.0 {
      StepValueInUnit(steps, r[k]);
    }
  }

  /** Every step value lies in `[0, 1]`. */
  lemma StepValueInUnit(steps: nat, v: real)
    requires steps >= 1 && v in StepValues(steps)
    ensures 0.0 <= v <= 1.0
  {
    var j :| 0 <= j < |StepValues(steps)| && StepValues(steps)[j] == v;
    StepValuesInUnit(steps, j);
  }

  /** The sweep's result is read off the final reference point with the
      smallest total, the earliest of equal totals. */
  lemma WalkTrackMinimal(sqrt: SqrtFn, lines: seq<Line>, steps: int)
    requires steps >= 1 && |lines| >= 1
    ensures var last := LastReferences(sqrt, lines, steps);
            exists m :: 0 <= m < |last|
              && WalkTrack(sqrt, lines, steps).value == last[m].interpolations
              && (forall j :: 0 <= j < |last| ==> last[m].total <= last[j].total)
              && (forall j :: 0 <= j < m ==> last[m].total < last[j].total)
  {
    var last := LastReferences(sqrt, lines, steps);
    var m := ArgMin(Totals(last));
    assert WalkTrack(sqrt, lines, steps).value == last[m].interpolations;
  }

  lemma StepValuesExample()
    ensures StepValues(2) == [0.0, 0.5, 1.0]
  {
  }

  /* ---------------- refinement ---------------- */

  /** `{i for i in range(n)}`. */
  function IndexSet(n: nat): (r: set<int>)
    ensures forall k :: k in r <==> 0 <= k < n
  {
    if n == 0 then {} else IndexSet(n - 1) + {n - 1}
  }

  /** The indices whose neighbours moved: `i`, `(i + 1) % n`, `(i + n - 1) % n`. */
  function Neighbours(i: int, n: int): (r: set<int>)
    requires n > 0
    ensures forall k :: k in r ==> 0 <= k < n || k == i
  {
    {i, (i + 1) % n, (i + n - 1) % n}
  }

  /** The distance from `prev` to an end of a normal plus the distance
      from `next` to it: what moving the point to that end costs. */
  function EndCost(sqrt: SqrtFn, prev: Point, next: Point, end: Point): real {
    Distance(sqrt, prev, end) + Distance(sqrt, next, end)
  }

  /** The new interpolation of normal `i`: where the segment between its
      neighbours' points crosses it, as a fraction of its length; with no
      crossing, its nearer end for the two neighbours (1 when the left end
      costs more). */
  function Recompute(sqrt: SqrtFn, intersect: IntersectFn, normals: seq<Line>, points: seq<Point>, i: nat): (r: Result<real, ShortestError>)
    requires i < |normals| == |points|
    ensures r.Err? ==> r.error == ZeroDivision && Length(sqrt, normals[i]) == 0.0
    ensures var n := |normals|;
            var prev, next := points[(i - 1) % n], points[(i + 1) % n];
            var hits := intersect(normals[i], [Line(prev, next)]);
      && (|hits.points| == 0 ==>
            r == Ok(if EndCost(sqrt, prev, next, normals[i].start) > EndCost(sqrt, prev, next, normals[i].end)
                    then 1.0 else 0.0))
      && (|hits.points| > 0 && Length(sqrt, normals[i]) != 0.0 ==>
            r == Ok(Distance(sqrt, normals[i].start, hits.points[0]) / Length(sqrt, normals[i])))
  {
    var n := |normals|;
    var prev := points[(i - 1) % n];
    var next := points[(i + 1) % n];
    var hits := intersect(normals[i], [Line(prev, next)]);
    if |hits.points| == 0 then
      var left := EndCost(sqrt, prev, next, normals[i].start);
      var right := EndCost(sqrt, prev, next, normals[i].end);
      Ok(if left > right then 1.0 else 0.0)
    else if Length(sqrt, normals[i]) == 0.0 then Err(ZeroDivision)
    else Ok(Distance(sqrt, normals[i].start, hits.points[0]) / Length(sqrt, normals[i]))
  }

  /** A recomputed interpolation lies in `[0, 1]` when the crossing is no
      farther from the left end than the normal is long; without a crossing
      it is an end. */
  lemma RecomputeInUnit(sqrt: SqrtFn, intersect: IntersectFn, normals: seq<Line>, points: seq<Point>, i: nat)
    requires i < |normals| == |points| && NonNegativeRoot(sqrt)
    requires Recompute(sqrt, intersect, normals, points, i).Ok?
    requires var n := |normals|;
             var hits := intersect(normals[i], [Line(points[(i - 1) % n], points[(i + 1) % n])]);
             |hits.points| > 0 ==> Distance(sqrt, normals[i].start, hits.points[0]) <= Length(sqrt, normals[i])
    ensures var v := Recompute(sqrt, intersect, normals, points, i).value;
            0.0 <= v <= 1.0
    ensures var n := |normals|;
            var hits := intersect(normals[i], [Line(points[(i - 1) % n], points[(i + 1) % n])]);
            var prev, next := points[(i - 1) % n], points[(i + 1) % n];
            |hits.points| == 0 ==>
              Recompute(sqrt, intersect, normals, points, i).value in {0.0, 1.0} &&
              (Recompute(sqrt, intersect, normals, points, i).value == 1.0
               <==> EndCost(sqrt, prev, next, normals[i].start) > EndCost(sqrt, prev, next, normals[i].end))
  {
    var n := |normals|;
    var hits := intersect(normals[i], [Line(points[(i - 1) % n], points[(i + 1) % n])]);
    if |hits.points| > 0 {
      DistanceNonNegative(sqrt, normals[i].start, hits.points[0]);
      DistanceNonNegative(sqrt, normals[i].start, normals[i].end);
      var d := Distance(sqrt, normals[i].start, hits.points[0]);
      var len := Length(sqrt, normals[i]);
      assert len > 0.0;
      assert d / len <= 1.0 by {
        assert d / len * len == d;
      }
    }
  }

  /** One refinement round over normals `i..`: every normal in `toCheck`
      is recomputed against the points of the previous round, and the
      neighbourhoods of the ones that moved are collected. */
  function RoundFrom(sqrt: SqrtFn, intersect: IntersectFn, normals: seq<Line>, points: seq<Point>, toCheck: set<int>,
                     i: nat, interps: seq<real>, changed: set<int>): (r: Result<(seq<real>, set<int>), ShortestError>)
    requires |points| == |normals| == |interps| && i <= |normals|
    ensures r.Ok? ==> |r.value.0| == |normals|
    decreases |normals| - i
  {
    var n := |normals|;
    if i == n then Ok((interps, changed))
    else if i !in toCheck then RoundFrom(sqrt, intersect, normals, points, toCheck, i + 1, interps, changed)
    else
      var v :- Recompute(sqrt, intersect, normals, points, i);
      var changed' := if v != interps[i] then changed + Neighbours(i, n) else changed;
      RoundFrom(sqrt, intersect, normals, points, toCheck, i + 1, interps[i := v], changed')
  }

  /** Whether normal `i` was checked and moved. */
  ghost predicate Moved(sqrt: SqrtFn, intersect: IntersectFn, normals: seq<Line>, points: seq<Point>, toCheck: set<int>, interps: seq<real>, i: int)
    requires |points| == |normals| == |interps|
  {
    0 <= i < |normals| && i in toCheck && Recompute(sqrt, intersect, normals, points, i) != Ok(interps[i])
  }

  /** The round's result: a checked normal takes its recomputed value, an
      unchecked one keeps its value, and the next round checks exactly the
      neighbourhoods of the normals that moved. */
  lemma {:induction false} RoundFromResult(sqrt: SqrtFn, intersect: IntersectFn, normals: seq<Line>, points: seq<Point>, toCheck: set<int>,
                                           i: nat, interps: seq<real>, changed: set<int>, original: seq<real>)
    requires |points| == |normals| == |interps| == |original| && i <= |normals|
    requires forall j :: i <= j < |normals| ==> interps[j] == original[j]
    requires RoundFrom(sqrt, intersect, normals, points, toCheck, i, interps, changed).Ok?
    ensures var r := RoundFrom(sqrt, intersect, normals, points, toCheck, i, interps, changed).value;
            forall j :: i <= j < |normals| ==>
              (j in toCheck ==> Recompute(sqrt, intersect, normals, points, j) == Ok(r.0[j])) &&
              (j !in toCheck ==> r.0[j] == original[j])
    ensures var r := RoundFrom(sqrt, intersect, normals, points, toCheck, i, interps, changed).value;
            forall j :: 0 <= j < i ==> r.0[j] == interps[j]
    ensures var r := RoundFrom(sqrt, intersect, normals, points, toCheck, i, interps, changed).value;
            forall k :: k in r.1 <==>
              k in changed || exists j :: i <= j < |normals| && Moved(sqrt, intersect, normals, points, toCheck, original, j) && k in Neighbours(j, |normals|)
    decreases |normals| - i
  {
    var n := |normals|;
    if i < n {
      if i !in toCheck {
        RoundFromResult(sqrt, intersect, normals, points, toCheck, i + 1, interps, changed, original);
        assert !Moved(sqrt, intersect, normals, points, toCheck, original, i);
      } else {
        var v := Recompute(sqrt, intersect, normals, points, i).value;
        var changed' := if v != interps[i] then changed + Neighbours(i, n) else changed;
        RoundFromResult(sqrt, intersect, normals, points, toCheck, i + 1, interps[i := v], changed', original);
        assert Moved(sqrt, intersect, normals, points, toCheck, original, i) <==> v != interps[i];
      }
    }
  }

  /** `lerp_points_on_lines`. */
  function LerpPoints(normals: seq<Line>, interps: seq<real>): (r: seq<Point>)
    requires |normals| == |interps|
    ensures |r| == |normals|
  {
    seq(|normals|, i requires 0 <= i < |normals| => Lerp(normals[i].start, normals[i].end, interps[i]))
  }

  /** The length of the closed path through the points. */
  function PathLength(sqrt: SqrtFn, points: seq<Point>): real {
    var lines := PointsToLines(points);
    Sum(seq(|lines|, i requires 0 <= i < |lines| => Length(sqrt, lines[i])))
  }

  /** Where the refinement stopped: final points and interpolations, and the
      number of rounds run. */
  datatype Refinement = Refinement(points: seq<Point>, interpolations: seq<real>, rounds: nat)

  /** The refinement loop with `remaining` rounds left; a round whose
      improvement on the path length is below the threshold is the last. */
  function Refine(sqrt: SqrtFn, intersect: IntersectFn, normals: seq<Line>, points: seq<Point>, interps: seq<real>,
                  toCheck: set<int>, total: real, threshold: real, remaining: nat, rounds: nat): (r: Result<Refinement, ShortestError>)
    requires |points| == |normals| == |interps|
    ensures r.Ok? ==> |r.value.points| == |normals| && |r.value.interpolations| == |normals|
    ensures r.Ok? ==> rounds <= r.value.rounds <= rounds + remaining
    decreases remaining
  {
    if remaining == 0 then Ok(Refinement(points, interps, rounds))
    else
      var round :- RoundFrom(sqrt, intersect, normals, points, toCheck, 0, interps, {});
      var newPoints := LerpPoints(normals, round.0);
      var newLength := PathLength(sqrt, newPoints);
      if total - newLength < threshold then Ok(Refinement(newPoints, round.0, rounds + 1))
      else Refine(sqrt, intersect, normals, newPoints, round.0, round.1, newLength, threshold, remaining - 1, rounds + 1)
  }

  /** Early stopping: a first round that improves the length by less than
      the threshold ends the loop with that round's points. */
  lemma RefineStopsEarly(sqrt: SqrtFn, intersect: IntersectFn, normals: seq<Line>, points: seq<Point>, interps: seq<real>,
                         toCheck: set<int>, total: real, threshold: real, remaining: nat)
    requires |points| == |normals| == |interps| && remaining >= 1
    requires RoundFrom(sqrt, intersect, normals, points, toCheck, 0, interps, {}).Ok?
    requires var round := RoundFrom(sqrt, intersect, normals, points, toCheck, 0, interps, {}).value;
             total - PathLength(sqrt, LerpPoints(normals, round.0)) < threshold
    ensures var round := RoundFrom(sqrt, intersect, normals, points, toCheck, 0, interps, {}).value;
            Refine(sqrt, intersect, normals, points, interps, toCheck, total, threshold, remaining, 0)
              == Ok(Refinement(LerpPoints(normals, round.0), round.0, 1))
  {
  }

  /** A round in which nothing is checked changes nothing, and the loop
      then stops when the threshold is positive. */
  lemma RefineNothingToCheck(sqrt: SqrtFn, intersect: IntersectFn, normals: seq<Line>, interps: seq<real>, threshold: real, remaining: nat)
    requires |normals| == |interps| && remaining >= 1 && threshold > 0.0
    ensures var points := LerpPoints(normals, interps);
            Refine(sqrt, intersect, normals, points, interps, {}, PathLength(sqrt, points), threshold, remaining, 0)
              == Ok(Refinement(points, interps, 1))
  {
    var points := LerpPoints(normals, interps);
    RoundFromNothing(sqrt, intersect, normals, points, 0, interps, {});
  }

  lemma {:induction false} RoundFromNothing(sqrt: SqrtFn, intersect: IntersectFn, normals: seq<Line>, points: seq<Point>,
                                            i: nat, interps: seq<real>, changed: set<int>)
    requires |points| == |normals| == |interps| && i <= |normals|
    ensures RoundFrom(sqrt, intersect, normals, points, {}, i, interps, changed) == Ok((interps, changed))
    decreases |normals| - i
  {
    if i < |normals| {
      RoundFromNothing(sqrt, intersect, normals, points, i + 1, interps, changed);
    }
  }

  /** The result of `shortest_path`: the path's points, one interpolation
      per normal, and the inset normals they lie on. */
  datatype ShortestPathResponse = ShortestPathResponse(positions: seq<Point>, normals: seq<Line>, interpolations: seq<real>, rounds: nat)

  /** `shortest_path(track, padding, max_iterations, early_stop_threshold)`:
      inset the normals by `padding` (keeping at least 0.1 of each), sweep
      with 70 steps, then refine. */
  function ShortestPath(track: Track, padding: real, maxIterations: int, threshold: real,
                        sqrt: SqrtFn, extend: ExtendFn, intersect: IntersectFn): (r: Result<ShortestPathResponse, ShortestError>)
    ensures |track.segmentations| == 0 ==> r == Err(IndexError)
    ensures r.Ok? ==> |r.value.positions| == |track.segmentations| && |r.value.interpolations| == |track.segmentations|
    ensures r.Ok? ==> r.value.rounds <= (if maxIterations < 0 then 0 else maxIterations)
  {
    var segs := track.segmentations;
    var normals := seq(|segs|, i requires 0 <= i < |segs| => extend(segs[i].AsLine(), -padding, 0.1));
    var interps :- WalkTrack(sqrt, normals, 70);
    assert |interps| == |normals| by { WalkTrackSteps(sqrt, normals, 70); }
    var points := LerpPoints(normals, interps);
    var all := IndexSet(|normals|);
    var refined :- Refine(sqrt, intersect, normals, points, interps, all, PathLength(sqrt, points), threshold,
                          if maxIterations < 0 then 0 else maxIterations, 0);
    Ok(ShortestPathResponse(refined.points, normals, refined.interpolations, refined.rounds))
  }
}
