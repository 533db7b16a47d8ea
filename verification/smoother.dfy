/** Track smoothing (src/toolkit/tracks/smoother/smoother.py): smoothing the
    direction of the normals, splitting them into half normals, extending the
    half normals until they cross the boundary, and collapsing several
    crossings per normal down to one. */
module Smoother {
  import opened Wrappers
  import opened Functional
  import opened Geometry
  import opened SpatialMaps

  /* ================= _get_closest_collision_index ================= */

  function Abs(v: int): nat { if v < 0 then -v else v }

  function Min4(a: nat, b: nat, c: nat, d: nat): (r: nat)
    ensures r <= a && r <= b && r <= c && r <= d
    ensures r == a || r == b || r == c || r == d
  {
    var ab := if a <= b then a else b;
    var cd := if c <= d then c else d;
    if ab <= cd then ab else cd
  }

  /** The circular gap between boundary index `idx` and candidate `p` on a
      boundary of `n` segments, with the four terms exactly as written (the
      fourth, `|idx - n - p|`, repeats the second). */
  function Delta(idx: int, p: int, n: int): nat {
    Min4(Abs(idx - p), Abs(idx - (p + n)), Abs(idx + n - p), Abs(idx - n - p))
  }

  /** For indexes already on the boundary, the gap is the shorter way round. */
  lemma DeltaIsCircularGap(idx: int, p: int, n: int)
    requires 0 <= idx < n && 0 <= p < n
    ensures Delta(idx, p, n) == if Abs(idx - p) <= n - Abs(idx - p) then Abs(idx - p) else n - Abs(idx - p)
  {
  }

  /** The gap from `idx` to every candidate, in order. */
  function Gaps(idx: int, cands: seq<int>, n: int): (g: seq<nat>)
    ensures |g| == |cands| && forall m :: 0 <= m < |cands| ==> g[m] == Delta(idx, cands[m], n)
  {
    seq(|cands|, m requires 0 <= m < |cands| => Delta(idx, cands[m], n))
  }

  /** `best` is the first position of a smallest gap among `g[..k]`. */
  ghost predicate FirstMinimumUpTo(g: seq<nat>, k: int, best: int)
    requires 0 <= best < k <= |g|
  {
    && (forall m :: 0 <= m < k ==> g[best] <= g[m])
    && (forall m :: 0 <= m < best ==> g[best] < g[m])
  }

  /** The scan of the candidate loop from position `k` over the gaps,
      `best` being the position kept so far (replaced only on a strictly
      smaller gap). */
  function ClosestFrom(g: seq<nat>, k: nat, best: nat): (j: nat)
    requires best < k <= |g|
    ensures j < |g|
    decreases |g| - k
  {
    if k == |g| then best
    else if g[k] < g[best] then ClosestFrom(g, k + 1, k)
    else ClosestFrom(g, k + 1, best)
  }

  /** The scan keeps the first smallest gap seen so far. */
  lemma {:induction false} ClosestFromIsFirstMinimum(g: seq<nat>, k: nat, best: nat)
    requires best < k <= |g|
    requires FirstMinimumUpTo(g, k, best)
    ensures FirstMinimumUpTo(g, |g|, ClosestFrom(g, k, best))
    decreases |g| - k
  {
    if k < |g| {
      if g[k] < g[best] {
        ClosestFromIsFirstMinimum(g, k + 1, k);
      } else {
        ClosestFromIsFirstMinimum(g, k + 1, best);
      }
    }
  }

  /** Position in `cands` of the candidate `_get_closest_collision_index`
      returns. */
  function ClosestPosition(idx: int, cands: seq<int>, n: int): (j: nat)
    requires n != 0 && |cands| > 0
    ensures j < |cands|
  {
    ClosestFrom(Gaps(PyMod(idx, n), cands, n), 1, 0)
  }

  /** The chosen candidate is the first of those with the smallest gap to
      `idx mod n`. */
  lemma ClosestPositionIsFirstMinimum(idx: int, cands: seq<int>, n: int)
    requires n != 0 && |cands| > 0
    ensures forall m :: 0 <= m < |cands| ==>
              Delta(PyMod(idx, n), cands[ClosestPosition(idx, cands, n)], n) <= Delta(PyMod(idx, n), cands[m], n)
    ensures forall m :: 0 <= m < ClosestPosition(idx, cands, n) ==>
              Delta(PyMod(idx, n), cands[ClosestPosition(idx, cands, n)], n) < Delta(PyMod(idx, n), cands[m], n)
  {
    ClosestFromIsFirstMinimum(Gaps(PyMod(idx, n), cands, n), 1, 0);
  }

  /** `_get_closest_collision_index(idx, candidates, n)`. */
  function ClosestCollisionIndex(idx: int, cands: seq<int>, n: int): (r: int)
    requires n != 0 && |cands| > 0
    ensures r in cands
  {
    cands[ClosestPosition(idx, cands, n)]
  }

  /** No candidate is closer to `idx mod n` than the one returned. */
  lemma ClosestCollisionIndexMinimal(idx: int, cands: seq<int>, n: int, p: int)
    requires n != 0 && p in cands
    ensures Delta(PyMod(idx, n), ClosestCollisionIndex(idx, cands, n), n) <= Delta(PyMod(idx, n), p, n)
  {
    ClosestPositionIsFirstMinimum(idx, cands, n);
    var m :| 0 <= m < |cands| && cands[m] == p;
  }

  /** The first-minimum rule pins the answer down: any position that is a
      smallest gap with no smallest gap before it is the one chosen. */
  lemma ClosestPositionUnique(idx: int, cands: seq<int>, n: int, j: nat)
    requires n != 0 && j < |cands|
    requires forall m :: 0 <= m < |cands| ==> Delta(PyMod(idx, n), cands[j], n) <= Delta(PyMod(idx, n), cands[m], n)
    requires forall m :: 0 <= m < j ==> Delta(PyMod(idx, n), cands[j], n) < Delta(PyMod(idx, n), cands[m], n)
    ensures ClosestPosition(idx, cands, n) == j
  {
    ClosestPositionIsFirstMinimum(idx, cands, n);
  }

  lemma ClosestExamples()
    ensures ClosestCollisionIndex(10, [5, 20, 100], 100) == 5
    ensures ClosestCollisionIndex(99, [5, 20, 90], 100) == 5
    ensures ClosestCollisionIndex(2, [30, 20, 99], 100) == 99
  {
    ClosestPositionUnique(10, [5, 20, 100], 100, 0);
    ClosestPositionUnique(99, [5, 20, 90], 100, 0);
    ClosestPositionUnique(2, [30, 20, 99], 100, 2);
  }

  /* ================= _collapse_collisions_from_index ================= */

  /** One entry of `CollisionPairs`: the crossing points of a half normal and,
      for each, the boundary segment crossed. */
  datatype Collision = Collision(points: seq<Point>, boundaries: seq<int>)

  predicate Usable(c: Collision) {
    |c.points| > 0 && |c.boundaries| > 0
  }

  /** The inner `zip` loop over the first `n` pairs: the position of the
      last pair whose boundary index is `target`, if any (a later match
      overwrites an earlier one). */
  function LastMatchBelow(bounds: seq<int>, target: int, n: nat): (r: Option<nat>)
    requires n <= |bounds|
    ensures r.Some? ==> r.value < n && bounds[r.value] == target
  {
    if n == 0 then None
    else if bounds[n - 1] == target then Some(n - 1)
    else LastMatchBelow(bounds, target, n - 1)
  }

  /** No later pair matches, and `None` means no pair matches at all. */
  lemma {:induction false} LastMatchBelowIsLast(bounds: seq<int>, target: int, n: nat)
    requires n <= |bounds|
    ensures LastMatchBelow(bounds, target, n).Some? ==>
              forall m :: LastMatchBelow(bounds, target, n).value < m < n ==> bounds[m] != target
    ensures LastMatchBelow(bounds, target, n).None? <==> forall m :: 0 <= m < n ==> bounds[m] != target
  {
    if n > 0 && bounds[n - 1] != target {
      LastMatchBelowIsLast(bounds, target, n - 1);
    }
  }

  /** `zip` stops at the shorter of the two lists. */
  function LastMatch(pts: seq<Point>, bounds: seq<int>, target: int): (r: Option<nat>)
    ensures r.Some? ==> r.value < |pts| && r.value < |bounds| && bounds[r.value] == target
  {
    LastMatchBelow(bounds, target, if |pts| < |bounds| then |pts| else |bounds|)
  }

  /** What one visit of a normal picks: its point and the boundary index the
      walk carries on from. */
  function Pick(c: Collision, previous: int, nBoundaries: int): (r: (Point, int))
    requires Usable(c) && nBoundaries != 0
    ensures r.0 in c.points && r.1 in c.boundaries
  {
    var closest := ClosestCollisionIndex(previous, c.boundaries, nBoundaries);
    match LastMatch(c.points, c.boundaries, closest)
    case Some(m) => (c.points[m], c.boundaries[m])
    case None => (c.points[0], c.boundaries[0])
  }

  /** With one boundary index per point, the walk always carries on from
      the closest boundary index, taking the point of its last occurrence. */
  lemma PickFollowsClosest(c: Collision, previous: int, nBoundaries: int)
    requires Usable(c) && nBoundaries != 0 && |c.points| == |c.boundaries|
    ensures var closest := ClosestCollisionIndex(previous, c.boundaries, nBoundaries);
            var m := LastMatch(c.points, c.boundaries, closest);
            && m.Some?
            && Pick(c, previous, nBoundaries) == (c.points[m.value], closest)
            && forall j :: m.value < j < |c.boundaries| ==> c.boundaries[j] != closest
  {
    var closest := ClosestCollisionIndex(previous, c.boundaries, nBoundaries);
    LastMatchBelowIsLast(c.boundaries, closest, |c.boundaries|);
    var j :| 0 <= j < |c.boundaries| && c.boundaries[j] == closest;
  }

  /** The normal visited at step `t` of a walk that starts after `start`. */
  function Slot(start: int, n: int, t: int): (k: int)
    requires n > 0
    ensures 0 <= k < n
  {
    (start + 1 + t) % n
  }

  /** The step at which a walk starting after `start` visits normal `k`. */
  function StepOf(start: int, n: int, k: int): (t: int)
    requires n > 0
    ensures 0 <= t < n
  {
    (k - start - 1) % n
  }

  /** Two integers less than `n` apart with the same residue are equal. */
  lemma SameResidue(a: int, b: int, n: int)
    requires n > 0 && a % n == b % n && 0 <= a - b < n
    ensures a == b
  {
    var qa, qb := a / n, b / n;
    assert a - b == (qa - qb) * n;
    if qa - qb >= 1 {
      MulAtLeast(qa - qb, n);
    } else if qa - qb <= -1 {
      MulAtLeast(qb - qa, n);
    }
  }

  /** Each normal is visited at exactly one step of a walk round all of them. */
  lemma SlotStepOf(start: int, n: int, k: int, t: int)
    requires n > 0 && 0 <= k < n && 0 <= t < n
    ensures Slot(start, n, t) == k <==> t == StepOf(start, n, k)
  {
    var s := StepOf(start, n, k);
    assert Slot(start, n, s) == k by {
      ModOfSum(k - start - 1, start + 1, n);
      ModInRange(k, n);
    }
    if Slot(start, n, t) == k {
      if t >= s {
        SameResidue(start + 1 + t, start + 1 + s, n);
      } else {
        SameResidue(start + 1 + s, start + 1 + t, n);
      }
    }
  }

  /** The normals in the order the loop visits them: `i % n` for `i` from
      `start + 1` to `start + n`. */
  function VisitOrder(start: int, n: nat): (order: seq<nat>)
    ensures |order| == n
    ensures forall t :: 0 <= t < n ==> order[t] == Slot(start, n, t)
  {
    seq(n, t requires 0 <= t < n => Slot(start, n, t))
  }

  /** An order of visits of `n` normals. */
  ghost predicate OrderOf(order: seq<nat>, n: nat) {
    |order| == n && forall t :: 0 <= t < n ==> order[t] < n
  }

  /** The loop visits every normal at exactly one step. */
  lemma VisitOrderOnce(start: int, n: nat, k: int)
    requires 0 <= k < n
    ensures OrderOf(VisitOrder(start, n), n)
    ensures forall t :: 0 <= t < n ==> (VisitOrder(start, n)[t] == k <==> t == StepOf(start, n, k))
  {
    forall t | 0 <= t < n
      ensures VisitOrder(start, n)[t] == k <==> t == StepOf(start, n, k)
    {
      SlotStepOf(start, n, k, t);
    }
  }

  /** Visits normals `order[t]` for `t` in `[step, n)`, carrying the chosen
      boundary index from each normal to the next. */
  function Walk(cands: seq<Collision>, nBoundaries: int, order: seq<nat>, step: nat, carried: int, acc: seq<Point>): (r: seq<Point>)
    requires nBoundaries != 0 && |acc| == |cands| && OrderOf(order, |cands|) && step <= |cands|
    requires forall k :: 0 <= k < |cands| ==> Usable(cands[k])
    ensures |r| == |cands|
    decreases |cands| - step
  {
    if step == |cands| then acc
    else
      var k := order[step];
      var pick := Pick(cands[k], carried, nBoundaries);
      Walk(cands, nBoundaries, order, step + 1, pick.1, acc[k := pick.0])
  }

  /** One step of the walk, spelled out. */
  lemma WalkStep(cands: seq<Collision>, nBoundaries: int, order: seq<nat>, step: nat, carried: int, acc: seq<Point>, k: int, p: Point, b: int)
    requires nBoundaries != 0 && |acc| == |cands| && OrderOf(order, |cands|) && step < |cands|
    requires forall j :: 0 <= j < |cands| ==> Usable(cands[j])
    requires k == order[step] && Pick(cands[k], carried, nBoundaries) == (p, b)
    ensures Walk(cands, nBoundaries, order, step, carried, acc) == Walk(cands, nBoundaries, order, step + 1, b, acc[k := p])
  {
  }

  /** One step of the walk: the normal visited takes one of its own points
      and the walk goes on from there. */
  lemma WalkNext(cands: seq<Collision>, nBoundaries: int, order: seq<nat>, step: nat, carried: int, acc: seq<Point>)
    returns (p: Point, b: int)
    requires nBoundaries != 0 && |acc| == |cands| && OrderOf(order, |cands|) && step < |cands|
    requires forall j :: 0 <= j < |cands| ==> Usable(cands[j])
    ensures p in cands[order[step]].points
    ensures Walk(cands, nBoundaries, order, step, carried, acc)
         == Walk(cands, nBoundaries, order, step + 1, b, acc[order[step] := p])
  {
    var k := order[step];
    var pick := Pick(cands[k], carried, nBoundaries);
    p, b := pick.0, pick.1;
    WalkStep(cands, nBoundaries, order, step, carried, acc, k, p, b);
  }

  /** A walk with no steps left returns what it was given. */
  lemma WalkDone(cands: seq<Collision>, nBoundaries: int, order: seq<nat>, step: nat, carried: int, acc: seq<Point>)
    requires nBoundaries != 0 && |acc| == |cands| && OrderOf(order, |cands|) && step == |cands|
    requires forall j :: 0 <= j < |cands| ==> Usable(cands[j])
    ensures Walk(cands, nBoundaries, order, step, carried, acc) == acc
  {
  }

  /** A normal still to be visited (at step `s`, its only step), or
      already holding one of its own points, ends up holding one of its own
      points. */
  lemma {:induction false} WalkReaches(cands: seq<Collision>, nBoundaries: int, order: seq<nat>, step: nat, carried: int, acc: seq<Point>, k: int, s: int)
    requires nBoundaries != 0 && |acc| == |cands| && OrderOf(order, |cands|) && step <= |cands|
    requires forall j :: 0 <= j < |cands| ==> Usable(cands[j])
    requires 0 <= k < |cands| && s < |cands|
    requires forall t :: 0 <= t < |cands| ==> (order[t] == k <==> t == s)
    requires step <= s || acc[k] in cands[k].points
    ensures Walk(cands, nBoundaries, order, step, carried, acc)[k] in cands[k].points
    decreases |cands| - step
  {
    if step < |cands| {
      var j := order[step];
      var p, b := WalkNext(cands, nBoundaries, order, step, carried, acc);
      ReachStep(k, j, step, s, acc[k], acc[j := p][k], p, cands[k].points);
      WalkReaches(cands, nBoundaries, order, step + 1, b, acc[j := p], k, s);
    } else {
      WalkDone(cands, nBoundaries, order, step, carried, acc);
    }
  }

  /** The condition of `WalkReaches` carries over one step: a normal is
      either still ahead, visited now, or already holding its point. */
  lemma ReachStep(k: int, j: int, step: nat, s: int, before: Point, after: Point, p: Point, pts: seq<Point>)
    requires j == k <==> step == s
    requires j == k ==> after == p && p in pts
    requires j != k ==> after == before
    requires step <= s || before in pts
    ensures step + 1 <= s || after in pts
  {
  }

  /** A normal whose step `s` has passed is left as it is. */
  lemma {:induction false} WalkPassed(cands: seq<Collision>, nBoundaries: int, order: seq<nat>, step: nat, carried: int, acc: seq<Point>, k: int, s: int)
    requires nBoundaries != 0 && |acc| == |cands| && OrderOf(order, |cands|) && step <= |cands|
    requires forall j :: 0 <= j < |cands| ==> Usable(cands[j])
    requires 0 <= k < |cands| && s < step
    requires forall t :: 0 <= t < |cands| ==> (order[t] == k <==> t == s)
    ensures Walk(cands, nBoundaries, order, step, carried, acc)[k] == acc[k]
    decreases |cands| - step
  {
    if step < |cands| {
      var j := order[step];
      var p, b := WalkNext(cands, nBoundaries, order, step, carried, acc);
      assert order[step] == k <==> step == s;
      assert acc[j := p][k] == acc[k];
      WalkPassed(cands, nBoundaries, order, step + 1, b, acc[j := p], k, s);
    } else {
      WalkDone(cands, nBoundaries, order, step, carried, acc);
    }
  }

  /** `_collapse_collisions_from_index`: walks once round all normals,
      starting after `start`, each normal taking the crossing on the boundary
      segment closest to the one taken by the normal before it. */
  function CollapseFromIndex(start: int, startBoundary: int, cands: seq<Collision>, nBoundaries: int): (r: seq<Point>)
    requires nBoundaries != 0
    requires forall k :: 0 <= k < |cands| ==> Usable(cands[k])
    ensures |r| == |cands|
  {
    var order := VisitOrder(start, |cands|);
    assert OrderOf(order, |cands|);
    Walk(cands, nBoundaries, order, 0, startBoundary, Fill(Point(0.0, 0.0), |cands|))
  }

  /** Every normal gets exactly one point, and it is one of its own crossings. */
  lemma CollapseFromIndexPicksOwnPoints(start: int, startBoundary: int, cands: seq<Collision>, nBoundaries: int, k: int)
    requires nBoundaries != 0
    requires forall j :: 0 <= j < |cands| ==> Usable(cands[j])
    requires 0 <= k < |cands|
    ensures CollapseFromIndex(start, startBoundary, cands, nBoundaries)[k] in cands[k].points
  {
    VisitOrderOnce(start, |cands|, k);
    WalkReaches(cands, nBoundaries, VisitOrder(start, |cands|), 0, startBoundary, Fill(Point(0.0, 0.0), |cands|),
                k, StepOf(start, |cands|, k));
  }

  /** A normal visited at step `s` keeps, to the end of the walk, the point
      that step gave it: no later step writes to it again. */
  lemma CollapseFromIndexKeeps(start: int, startBoundary: int, cands: seq<Collision>, nBoundaries: int,
                               step: nat, carried: int, acc: seq<Point>, k: int)
    requires nBoundaries != 0
    requires forall j :: 0 <= j < |cands| ==> Usable(cands[j])
    requires 0 <= k < |cands| && |acc| == |cands| && StepOf(start, |cands|, k) < step <= |cands|
    ensures Walk(cands, nBoundaries, VisitOrder(start, |cands|), step, carried, acc)[k] == acc[k]
  {
    VisitOrderOnce(start, |cands|, k);
    WalkPassed(cands, nBoundaries, VisitOrder(start, |cands|), step, carried, acc, k, StepOf(start, |cands|, k));
  }

  /** Where every normal has a single crossing there is nothing to choose:
      the result is each normal's only point, whatever the start. */
  lemma CollapseSingletons(start: int, startBoundary: int, cands: seq<Collision>, nBoundaries: int)
    requires nBoundaries != 0
    requires forall j :: 0 <= j < |cands| ==> Usable(cands[j]) && |cands[j].points| == 1
    ensures CollapseFromIndex(start, startBoundary, cands, nBoundaries) == seq(|cands|, k requires 0 <= k < |cands| => cands[k].points[0])
  {
    forall k | 0 <= k < |cands|
      ensures CollapseFromIndex(start, startBoundary, cands, nBoundaries)[k] == cands[k].points[0]
    {
      CollapseFromIndexPicksOwnPoints(start, startBoundary, cands, nBoundaries, k);
    }
  }

  /* ================= _collapse_collisions_pairs ================= */

  /** First normal with exactly one crossing point, if any. */
  function FirstSingle(cands: seq<Collision>, from: nat): (r: Option<nat>)
    requires from <= |cands|
    ensures r.Some? ==> from <= r.value < |cands| && |cands[r.value].points| == 1
    ensures r.Some? ==> forall j :: from <= j < r.value ==> |cands[j].points| != 1
    ensures r.None? ==> forall j :: from <= j < |cands| ==> |cands[j].points| != 1
    decreases |cands| - from
  {
    if from == |cands| then None
    else if |cands[from].points| == 1 then Some(from)
    else FirstSingle(cands, from + 1)
  }

  /** First position where the two runs agree, if any. */
  function FirstAgreement(a: seq<Point>, b: seq<Point>, from: nat): (r: Option<nat>)
    requires |a| == |b| && from <= |a|
    ensures r.Some? ==> from <= r.value < |a| && a[r.value] == b[r.value]
    ensures r.Some? ==> forall j :: from <= j < r.value ==> a[j] != b[j]
    ensures r.None? ==> forall j :: from <= j < |a| ==> a[j] != b[j]
    decreases |a| - from
  {
    if from == |a| then None
    else if a[from] == b[from] then Some(from)
    else FirstAgreement(a, b, from + 1)
  }

  /** First position of `p` in `pts`. */
  function IndexOf(pts: seq<Point>, p: Point): (j: nat)
    requires p in pts
    ensures j < |pts| && pts[j] == p && forall m :: 0 <= m < j ==> pts[m] != p
  {
    if pts[0] == p then 0 else 1 + IndexOf(pts[1..], p)
  }

  /** The crossing of normal `idx` closest to the normal's centre: the
      first one on ties, as `np.argmin` of the distances. */
  function ClosestCrossing(halfNormals: seq<Line>, cands: seq<Collision>, idx: nat, sqrt: SqrtFn): (j: nat)
    requires idx < |cands| && |halfNormals| == |cands| && Usable(cands[idx])
    ensures var d := Distances(sqrt, cands[idx].points, Center(halfNormals[idx]));
      && j < |d|
      && (forall m :: 0 <= m < |d| ==> d[j] <= d[m])
      && (forall m :: 0 <= m < j ==> d[j] < d[m])
  {
    ArgMin(Distances(sqrt, cands[idx].points, Center(halfNormals[idx])))
  }

  /** One trial collapse of the fallback: the walk from normal `idx`,
      starting at the boundary of its crossing closest to its centre. */
  function TrialRun(halfNormals: seq<Line>, cands: seq<Collision>, nBoundaries: int, idx: nat, sqrt: SqrtFn)
    : (r: seq<Point>)
    requires nBoundaries != 0 && idx < |cands| && |halfNormals| == |cands|
    requires forall k :: 0 <= k < |cands| ==> Usable(cands[k]) && |cands[k].points| <= |cands[k].boundaries|
    ensures |r| == |cands|
    ensures forall k :: 0 <= k < |cands| ==> r[k] in cands[k].points
  {
    var start := cands[idx].boundaries[ClosestCrossing(halfNormals, cands, idx, sqrt)];
    var r := CollapseFromIndex(idx, start, cands, nBoundaries);
    assert forall k :: 0 <= k < |cands| ==> r[k] in cands[k].points by {
      forall k | 0 <= k < |cands| ensures r[k] in cands[k].points {
        CollapseFromIndexPicksOwnPoints(idx, start, cands, nBoundaries, k);
      }
    }
    r
  }

  /** The normal and boundary index the final walk starts from: the first
      normal with a single crossing; failing that, the first normal on
      which the trial runs from normal 0 and normal `len // 2` agree, with
      the boundary of the first run's point there; failing that, normal 0
      with its first boundary. */
  function CollapseAnchor(halfNormals: seq<Line>, cands: seq<Collision>, nBoundaries: int, sqrt: SqrtFn): (r: (int, int))
    requires nBoundaries != 0 && |cands| > 0 && |halfNormals| == |cands|
    requires forall k :: 0 <= k < |cands| ==> Usable(cands[k]) && |cands[k].points| <= |cands[k].boundaries|
    ensures 0 <= r.0 < |cands| && r.1 in cands[r.0].boundaries
    ensures FirstSingle(cands, 0).Some? ==> r == (FirstSingle(cands, 0).value, cands[FirstSingle(cands, 0).value].boundaries[0])
    ensures FirstSingle(cands, 0).None? ==>
              var run1 := TrialRun(halfNormals, cands, nBoundaries, 0, sqrt);
              var run2 := TrialRun(halfNormals, cands, nBoundaries, |cands| / 2, sqrt);
              match FirstAgreement(run1, run2, 0)
              case None => r == (0, cands[0].boundaries[0])
              case Some(i) => r == (i, cands[i].boundaries[IndexOf(cands[i].points, run1[i])])
  {
    match FirstSingle(cands, 0)
    case Some(i) => (i, cands[i].boundaries[0])
    case None =>
      var run1 := TrialRun(halfNormals, cands, nBoundaries, 0, sqrt);
      var run2 := TrialRun(halfNormals, cands, nBoundaries, |cands| / 2, sqrt);
      match FirstAgreement(run1, run2, 0)
      case None => (0, cands[0].boundaries[0])
      case Some(i) => (i, cands[i].boundaries[IndexOf(cands[i].points, run1[i])])
  }

  /** `_collapse_collisions_pairs`: one boundary point per half normal. */
  function CollapseCollisionPairs(halfNormals: seq<Line>, cands: seq<Collision>, nBoundaries: int, sqrt: SqrtFn): (r: seq<Point>)
    requires nBoundaries != 0 && |cands| > 0 && |halfNormals| == |cands|
    requires forall k :: 0 <= k < |cands| ==> Usable(cands[k]) && |cands[k].points| <= |cands[k].boundaries|
    ensures |r| == |cands|
    ensures forall k :: 0 <= k < |cands| ==> r[k] in cands[k].points
  {
    var (start, boundary) := CollapseAnchor(halfNormals, cands, nBoundaries, sqrt);
    var r := CollapseFromIndex(start, boundary, cands, nBoundaries);
    assert forall k :: 0 <= k < |cands| ==> r[k] in cands[k].points by {
      forall k | 0 <= k < |cands| ensures r[k] in cands[k].points {
        CollapseFromIndexPicksOwnPoints(start, boundary, cands, nBoundaries, k);
      }
    }
    r
  }

  lemma PickExample1()
    ensures Pick(Collision([Point(1.0, 2.0), Point(3.0, 4.0)], [1, 2]), 0, 100) == (Point(1.0, 2.0), 1)
  {
    ClosestPositionUnique(0, [1, 2], 100, 0);
    assert LastMatchBelow([1, 2], 1, 2) == Some(0);
  }

  lemma PickExample2()
    ensures Pick(Collision([Point(-1.0, -2.0), Point(5.0, 6.0)], [99, 20]), 1, 100) == (Point(-1.0, -2.0), 99)
  {
    ClosestPositionUnique(1, [99, 20], 100, 0);
    assert LastMatchBelow([99, 20], 99, 2) == Some(0);
  }

  lemma PickExample3()
    ensures Pick(Collision([Point(0.0, 0.0)], [0]), 99, 100) == (Point(0.0, 0.0), 0)
  {
    ClosestPositionUnique(99, [0], 100, 0);
  }

  function ExampleCandidates(): seq<Collision> {
    [Collision([Point(0.0, 0.0)], [0]),
     Collision([Point(1.0, 2.0), Point(3.0, 4.0)], [1, 2]),
     Collision([Point(-1.0, -2.0), Point(5.0, 6.0)], [99, 20])]
  }

  function ExampleNormals(): seq<Line> {
    [Line(Point(0.0, 0.0), Point(0.0, 0.0)), Line(Point(1.0, 2.0), Point(1.0, 2.0)), Line(Point(-1.0, -2.0), Point(-1.0, -2.0))]
  }

  lemma ExampleWalk()
    ensures CollapseFromIndex(0, 0, ExampleCandidates(), 100) == [Point(0.0, 0.0), Point(1.0, 2.0), Point(-1.0, -2.0)]
  {
    var cands := ExampleCandidates();
    PickExample1();
    PickExample2();
    PickExample3();
    var p0, p1, p2 := Point(0.0, 0.0), Point(1.0, 2.0), Point(-1.0, -2.0);
    var order := VisitOrder(0, 3);
    assert order == [1, 2, 0];
    WalkStep(cands, 100, order, 0, 0, [p0, p0, p0], 1, p1, 1);
    WalkStep(cands, 100, order, 1, 1, [p0, p1, p0], 2, p2, 99);
    WalkStep(cands, 100, order, 2, 99, [p0, p1, p2], 0, p0, 0);
    assert [p0, p0, p0][1 := p1] == [p0, p1, p0];
    assert [p0, p1, p0][2 := p2] == [p0, p1, p2];
    assert [p0, p1, p2][0 := p0] == [p0, p1, p2];
    assert Fill(p0, 3) == [p0, p0, p0];
  }

  /** The looping example of the repository's tests: a single-crossing normal
      anchors the walk, and each later normal follows the closest boundary
      segment round the wrap (99 is one step from 0 on 100 segments). */
  lemma CollapseExample()
    ensures CollapseCollisionPairs(ExampleNormals(), ExampleCandidates(), 100, x => x)
         == [Point(0.0, 0.0), Point(1.0, 2.0), Point(-1.0, -2.0)]
  {
    assert FirstSingle(ExampleCandidates(), 0) == Some(0);
    ExampleWalk();
  }

  /* ================= _smooth_normals ================= */

  /** `multi_angle_between_lines`, taken pairwise: the angle between two lines. */
  type AngleFn = (Line, Line) -> real

  function RealAbs(v: real): real { if v < 0.0 then -v else v }

  function Centers(normals: seq<Line>): (r: seq<Point>)
    ensures |r| == |normals| && forall i :: 0 <= i < |r| ==> r[i] == Center(normals[i])
  {
    seq(|normals|, i requires 0 <= i < |normals| => Center(normals[i]))
  }

  /** The direction proposed for vector `i`: the sum of it and its two
      neighbours round the closed track (`roll(v, -1) + v + roll(v, 1)`). */
  function Neighbourly(vectors: seq<Point>): (r: seq<Point>)
    ensures |r| == |vectors|
  {
    var ahead := Roll(vectors, -1);
    var behind := Roll(vectors, 1);
    seq(|vectors|, i requires 0 <= i < |vectors| => Add(Add(ahead[i], vectors[i]), behind[i]))
  }

  lemma NeighbourlyAt(vectors: seq<Point>, i: int)
    requires 0 <= i < |vectors|
    ensures Neighbourly(vectors)[i]
         == Add(Add(vectors[(i + 1) % |vectors|], vectors[i]), vectors[(i - 1) % |vectors|])
  {
    RollAt(vectors, -1, i);
    RollAt(vectors, 1, i);
  }

  /** Whether the proposed direction at `i` turns too far from the original
      normal: the line from `centre + proposed` to `centre` against it. */
  predicate TooSharp(centre: Point, proposed: Point, normal: Line, maxAngle: real, angle: AngleFn) {
    RealAbs(angle(Line(Add(centre, proposed), centre), normal)) > maxAngle
  }

  /** One smoothing round: each vector becomes the normalised neighbourly
      sum, unless that turns too far, in which case it keeps its direction
      (and is normalised all the same). */
  function SmoothRound(centres: seq<Point>, normals: seq<Line>, vectors: seq<Point>, maxAngle: real,
                       angle: AngleFn, normalise: NormaliseFn): (r: seq<Point>)
    requires |centres| == |normals| == |vectors|
    ensures |r| == |vectors|
  {
    var proposed := Neighbourly(vectors);
    seq(|vectors|, i requires 0 <= i < |vectors| =>
      normalise(if TooSharp(centres[i], proposed[i], normals[i], maxAngle, angle) then vectors[i] else proposed[i]))
  }

  /** A round either accepts the neighbours' average direction or keeps the
      old one; nothing else can come out of it. */
  lemma SmoothRoundChoice(centres: seq<Point>, normals: seq<Line>, vectors: seq<Point>, maxAngle: real,
                          angle: AngleFn, normalise: NormaliseFn, i: int)
    requires |centres| == |normals| == |vectors| && 0 <= i < |vectors|
    ensures var n := |vectors|;
            var proposed := Add(Add(vectors[(i + 1) % n], vectors[i]), vectors[(i - 1) % n]);
            SmoothRound(centres, normals, vectors, maxAngle, angle, normalise)[i]
              == normalise(if TooSharp(centres[i], proposed, normals[i], maxAngle, angle) then vectors[i] else proposed)
  {
    NeighbourlyAt(vectors, i);
  }

  function SmoothRounds(centres: seq<Point>, normals: seq<Line>, vectors: seq<Point>, rounds: nat, maxAngle: real,
                        angle: AngleFn, normalise: NormaliseFn): (r: seq<Point>)
    requires |centres| == |normals| == |vectors|
    ensures |r| == |vectors|
    decreases rounds
  {
    if rounds == 0 then vectors
    else SmoothRounds(centres, normals, SmoothRound(centres, normals, vectors, maxAngle, angle, normalise), rounds - 1, maxAngle, angle, normalise)
  }

  /** `_smooth_normals(normals, iterations, width)`: the normals keep their
      centres and are re-pointed by `iterations` smoothing rounds, the angle
      limit being a third of `pi` (`math.pi`, passed in), then rescaled to
      `width` (a unit direction gives length `width`). */
  function SmoothNormals(normals: seq<Line>, iterations: int, width: real, pi: real,
                         angle: AngleFn, normalise: NormaliseFn): (r: seq<Line>)
    ensures |r| == |normals|
    ensures forall i :: 0 <= i < |normals| ==> Center(r[i]) == Center(normals[i])
    ensures forall i :: 0 <= i < |normals| ==> Sub(r[i].start, Center(normals[i])) == Sub(Center(normals[i]), r[i].end)
  {
    var centres := Centers(normals);
    var initial := seq(|normals|, i requires 0 <= i < |normals| => Sub(normals[i].start, centres[i]));
    var rounds := if iterations < 0 then 0 else iterations;
    var vectors := SmoothRounds(centres, normals, initial, rounds, pi / 3.0, angle, normalise);
    var half := width / 2.0;
    seq(|normals|, i requires 0 <= i < |normals| =>
      Line(Add(centres[i], Scale(vectors[i], half)), Sub(centres[i], Scale(vectors[i], half))))
  }

  /** With no smoothing round and width 2 the normals come back unchanged:
      the start minus the centre is half the normal. */
  lemma SmoothNormalsIdentity(normals: seq<Line>, iterations: int, pi: real, angle: AngleFn, normalise: NormaliseFn)
    requires iterations <= 0
    ensures SmoothNormals(normals, iterations, 2.0, pi, angle, normalise) == normals
  {
    var r := SmoothNormals(normals, iterations, 2.0, pi, angle, normalise);
    forall i | 0 <= i < |normals| ensures r[i] == normals[i] {
      var c := Center(normals[i]);
      assert r[i] == Line(Add(c, Sub(normals[i].start, c)), Sub(c, Sub(normals[i].start, c)));
    }
  }

  /* ================= _split_normals ================= */

  /** `_split_normals`: each normal becomes two half normals from its centre,
      one out to its start (left) and one out to its end (right). */
  function SplitNormals(normals: seq<Line>): (r: (seq<Line>, seq<Line>))
    ensures |r.0| == |normals| && |r.1| == |normals|
    ensures forall i :: 0 <= i < |normals| ==> r.0[i].start == Center(normals[i]) && r.1[i].start == Center(normals[i])
    ensures forall i :: 0 <= i < |normals| ==> Line(r.0[i].end, r.1[i].end) == normals[i]
  {
    var centres := Centers(normals);
    (seq(|normals|, i requires 0 <= i < |normals| => Line(centres[i], normals[i].start)),
     seq(|normals|, i requires 0 <= i < |normals| => Line(centres[i], normals[i].end)))
  }

  /** Each half is half as long as the normal it was cut from. */
  lemma SplitHalvesLength(normals: seq<Line>, i: int)
    requires 0 <= i < |normals|
    ensures 4.0 * SquaredDistance(SplitNormals(normals).0[i].start, SplitNormals(normals).0[i].end) == SquaredDistance(normals[i].start, normals[i].end)
    ensures 4.0 * SquaredDistance(SplitNormals(normals).1[i].start, SplitNormals(normals).1[i].end) == SquaredDistance(normals[i].start, normals[i].end)
  {
  }

  /* ================= _extend_normals_until_collision ================= */

  datatype SmootherError =
    | EmptyNormals              // `max` of no lengths
    | DegenerateCellSize        // a zero cell size divides by zero in the spatial map
    | InvalidTrackGeneration    // some half normal found no boundary within its extensions

  /** Spatial item `i`: the boundary segment from point `i - 1` to point `i`. */
  function BoundaryItem(pts: seq<Point>, i: int): SpatialLineItem
    requires 0 <= i < |pts|
  {
    SpatialLineItem(pts[(i - 1) % |pts|], pts[i])
  }

  /** The spatial map after the first `k` boundary segments are added. */
  function BoundaryMap(pts: seq<Point>, cellSize: real, k: nat): (m: SpatialMap)
    requires cellSize != 0.0 && k <= |pts|
    ensures Valid(m) && m.cachedCell.None? && CacheFresh(m) && m.cellSize == cellSize
    ensures |m.items| == k && forall i :: 0 <= i < k ==> m.items[i] == BoundaryItem(pts, i)
  {
    if k == 0 then NewMap(cellSize)
    else
      var prev := BoundaryMap(pts, cellSize, k - 1);
      var m := AddItem(prev, BoundaryItem(pts, k - 1));
      assert forall i :: 0 <= i < k ==> m.items[i] == BoundaryItem(pts, i) by {
        forall i | 0 <= i < k ensures m.items[i] == BoundaryItem(pts, i) {
          if i < k - 1 {
            assert m.items[i] == prev.items[i];
          }
        }
      }
      m
  }

  /** Item `i` of the map and segment `i` of the rolled boundary lines are
      the same segment, so an index found in the map names the right line. */
  lemma BoundaryItemIsBoundaryLine(pts: seq<Point>, i: int)
    requires 0 <= i < |pts|
    ensures BoundaryItem(pts, i).ToLine() == Roll(PointsToLines(pts), 1)[i]
  {
    RolledLinesEndAt(pts, i);
  }

  /** The half normal pushed out `e` more lengths along its own direction. */
  function Extended(normal: Line, e: nat): (r: Line)
    ensures r.start == normal.start
    ensures Sub(r.end, r.start) == Scale(Sub(normal.end, normal.start), (e + 1) as real)
  {
    var v := Sub(normal.end, normal.start);
    Line(normal.start, Add(normal.end, Scale(v, e as real)))
  }

  /** The map answers every query from its grid once all items are in. */
  ghost predicate Ready(m: SpatialMap, boundaryLines: seq<Line>) {
    Valid(m) && CacheFresh(m) && |m.items| == |boundaryLines|
  }

  lemma NeighbourhoodInRange(m: SpatialMap, c: Cell)
    requires Valid(m)
    ensures IndexesIn(Neighbourhood(m.grid, c), |m.items|)
  {
    forall j | 0 <= j < |Neighbourhood(m.grid, c)| ensures 0 <= Neighbourhood(m.grid, c)[j] < |m.items| {
      NeighbourhoodMembers(m, c, Neighbourhood(m.grid, c)[j]);
    }
  }

  /** What one extension finds against the boundary segments filed near the
      centre of the extended line, as the grid alone says. */
  function ProbeAt(m: SpatialMap, boundaryLines: seq<Line>, normal: Line, e: nat, intersect: IntersectFn): (r: Collision)
    requires Valid(m) && |m.items| == |boundaryLines| && WellFormedIntersect(intersect)
    ensures |r.points| == |r.boundaries| && IndexesIn(r.boundaries, |boundaryLines|)
  {
    var ext := Extended(normal, e);
    var possible := Neighbourhood(m.grid, CellOf(m.cellSize, Center(ext)));
    NeighbourhoodInRange(m, CellOf(m.cellSize, Center(ext)));
    var hits := intersect(ext, AtIndexes(boundaryLines, possible));
    AtIndexesCompose(boundaryLines, possible, hits.indexes);
    Collision(hits.points, AtIndexes(possible, hits.indexes))
  }

  /** One extension as `_extend_normals_until_collision` runs it, through the map's cache. */
  function Probe(m: SpatialMap, boundaryLines: seq<Line>, normal: Line, e: nat, intersect: IntersectFn): (r: (SpatialMap, Collision))
    requires Ready(m, boundaryLines) && WellFormedIntersect(intersect)
    ensures Ready(r.0, boundaryLines) && r.0.grid == m.grid && r.0.items == m.items && r.0.cellSize == m.cellSize
    ensures r.1 == ProbeAt(m, boundaryLines, normal, e, intersect)
  {
    var ext := Extended(normal, e);
    GetItemsFresh(m, Center(ext));
    var (m', possible) := GetItems(m, Center(ext));
    NeighbourhoodInRange(m, CellOf(m.cellSize, Center(ext)));
    var hits := intersect(ext, AtIndexes(boundaryLines, possible));
    (m', Collision(hits.points, AtIndexes(possible, hits.indexes)))
  }

  /** The extension loop from extension `e`: stop at the first extension
      with a crossing; `last` is what the previous extension found. */
  function Search(m: SpatialMap, boundaryLines: seq<Line>, normal: Line, e: nat, maxExt: int, intersect: IntersectFn, last: Collision): (r: (SpatialMap, Collision))
    requires Ready(m, boundaryLines) && WellFormedIntersect(intersect)
    ensures Ready(r.0, boundaryLines) && r.0.grid == m.grid && r.0.items == m.items && r.0.cellSize == m.cellSize
    decreases maxExt - e
  {
    if e >= maxExt then (m, last)
    else
      var (m', c) := Probe(m, boundaryLines, normal, e, intersect);
      if |c.points| > 0 then (m', c)
      else Search(m', boundaryLines, normal, e + 1, maxExt, intersect, c)
  }

  /** The stateless reading of the extension loop: the first extension in
      `[e, maxExt)` whose probe crosses the boundary, if there is one. */
  function FirstCrossing(m: SpatialMap, boundaryLines: seq<Line>, normal: Line, e: nat, maxExt: int, intersect: IntersectFn): (r: Option<nat>)
    requires Valid(m) && |m.items| == |boundaryLines| && WellFormedIntersect(intersect)
    ensures r.Some? ==> e <= r.value < maxExt && |ProbeAt(m, boundaryLines, normal, r.value, intersect).points| > 0
    ensures r.Some? ==> forall j: nat :: e <= j < r.value ==> |ProbeAt(m, boundaryLines, normal, j, intersect).points| == 0
    ensures r.None? ==> forall j: nat :: e <= j < maxExt ==> |ProbeAt(m, boundaryLines, normal, j, intersect).points| == 0
    decreases maxExt - e
  {
    if e >= maxExt then None
    else if |ProbeAt(m, boundaryLines, normal, e, intersect).points| > 0 then Some(e)
    else FirstCrossing(m, boundaryLines, normal, e + 1, maxExt, intersect)
  }

  /** The cached loop finds what the stateless reading says: a crossing at
      the first extension that has one, or nothing. */
  lemma {:induction false} SearchFindsFirstCrossing(m: SpatialMap, boundaryLines: seq<Line>, normal: Line, e: nat, maxExt: int, intersect: IntersectFn, last: Collision)
    requires Ready(m, boundaryLines) && WellFormedIntersect(intersect) && |last.points| == 0
    ensures var found := FirstCrossing(m, boundaryLines, normal, e, maxExt, intersect);
            var c := Search(m, boundaryLines, normal, e, maxExt, intersect, last).1;
            && (found.Some? ==> c == ProbeAt(m, boundaryLines, normal, found.value, intersect))
            && (found.None? <==> |c.points| == 0)
    decreases maxExt - e
  {
    if e < maxExt {
      var (m', c) := Probe(m, boundaryLines, normal, e, intersect);
      if |c.points| == 0 {
        SearchFindsFirstCrossing(m', boundaryLines, normal, e + 1, maxExt, intersect, c);
        FirstCrossingSameGrid(m, m', boundaryLines, normal, e + 1, maxExt, intersect);
      }
    }
  }

  /** Probes only look at the grid, the cell size and the number of items. */
  lemma ProbeAtSameGrid(m: SpatialMap, m': SpatialMap, boundaryLines: seq<Line>, normal: Line, e: nat, intersect: IntersectFn)
    requires Valid(m) && |m.items| == |boundaryLines| && WellFormedIntersect(intersect)
    requires Valid(m') && m'.grid == m.grid && m'.items == m.items && m'.cellSize == m.cellSize
    ensures ProbeAt(m', boundaryLines, normal, e, intersect) == ProbeAt(m, boundaryLines, normal, e, intersect)
  {
  }


  lemma {:induction false} FirstCrossingSameGrid(m: SpatialMap, m': SpatialMap, boundaryLines: seq<Line>, normal: Line, e: nat, maxExt: int, intersect: IntersectFn)
    requires Valid(m) && |m.items| == |boundaryLines| && WellFormedIntersect(intersect)
    requires Valid(m') && m'.grid == m.grid && m'.items == m.items && m'.cellSize == m.cellSize
    ensures FirstCrossing(m', boundaryLines, normal, e, maxExt, intersect) == FirstCrossing(m, boundaryLines, normal, e, maxExt, intersect)
    decreases maxExt - e
  {
    if e < maxExt {
      FirstCrossingSameGrid(m, m', boundaryLines, normal, e + 1, maxExt, intersect);
    }
  }

  /** The loop over half normals from normal `i`, with the map threaded
      through; the first normal without a crossing raises. */
  function ExtendFrom(m: SpatialMap, normals: seq<Line>, boundaryLines: seq<Line>, maxExt: int, intersect: IntersectFn, i: nat, acc: seq<Collision>): (r: Result<seq<Collision>, SmootherError>)
    requires Ready(m, boundaryLines) && WellFormedIntersect(intersect) && i <= |normals|
    decreases |normals| - i
  {
    if i == |normals| then Ok(acc)
    else
      var (m', c) := Search(m, boundaryLines, normals[i], 0, maxExt, intersect, Collision([], []));
      if |c.points| == 0 then Err(InvalidTrackGeneration)
      else ExtendFrom(m', normals, boundaryLines, maxExt, intersect, i + 1, acc + [c])
  }

  /** What every half normal crosses, found independently per normal. */
  ghost predicate AllCross(m: SpatialMap, normals: seq<Line>, boundaryLines: seq<Line>, maxExt: int, intersect: IntersectFn, from: nat)
    requires Valid(m) && |m.items| == |boundaryLines| && WellFormedIntersect(intersect)
  {
    forall j :: from <= j < |normals| ==> FirstCrossing(m, boundaryLines, normals[j], 0, maxExt, intersect).Some?
  }

  /** The threaded loop succeeds exactly when every remaining half normal
      crosses the boundary within its extensions. */
  lemma {:induction false} ExtendFromSucceeds(m: SpatialMap, normals: seq<Line>, boundaryLines: seq<Line>, maxExt: int, intersect: IntersectFn, i: nat, acc: seq<Collision>)
    requires Ready(m, boundaryLines) && WellFormedIntersect(intersect) && i <= |normals|
    ensures ExtendFrom(m, normals, boundaryLines, maxExt, intersect, i, acc).Ok? <==> AllCross(m, normals, boundaryLines, maxExt, intersect, i)
    decreases |normals| - i
  {
    if i < |normals| {
      var (m', c) := Search(m, boundaryLines, normals[i], 0, maxExt, intersect, Collision([], []));
      SearchFindsFirstCrossing(m, boundaryLines, normals[i], 0, maxExt, intersect, Collision([], []));
      if |c.points| > 0 {
        ExtendFromSucceeds(m', normals, boundaryLines, maxExt, intersect, i + 1, acc + [c]);
        AllCrossSameGrid(m, m', normals, boundaryLines, maxExt, intersect, i + 1);
        AllCrossStep(m, normals, boundaryLines, maxExt, intersect, i);
        assert ExtendFrom(m, normals, boundaryLines, maxExt, intersect, i, acc)
            == ExtendFrom(m', normals, boundaryLines, maxExt, intersect, i + 1, acc + [c]);
      } else {
        AllCrossStep(m, normals, boundaryLines, maxExt, intersect, i);
        assert ExtendFrom(m, normals, boundaryLines, maxExt, intersect, i, acc) == Err(InvalidTrackGeneration);
      }
    }
  }

  /** Every normal from `from` on crosses when normal `from` does and
      every one after it does. */
  lemma AllCrossStep(m: SpatialMap, normals: seq<Line>, boundaryLines: seq<Line>, maxExt: int, intersect: IntersectFn, from: nat)
    requires Valid(m) && |m.items| == |boundaryLines| && WellFormedIntersect(intersect) && from < |normals|
    ensures AllCross(m, normals, boundaryLines, maxExt, intersect, from) <==>
      FirstCrossing(m, boundaryLines, normals[from], 0, maxExt, intersect).Some? && AllCross(m, normals, boundaryLines, maxExt, intersect, from + 1)
  {
  }

  /** Whether every half normal crosses depends only on the grid, the cell
      size and the items. */
  lemma AllCrossSameGrid(m: SpatialMap, m': SpatialMap, normals: seq<Line>, boundaryLines: seq<Line>, maxExt: int, intersect: IntersectFn, from: nat)
    requires Valid(m) && |m.items| == |boundaryLines| && WellFormedIntersect(intersect)
    requires Valid(m') && m'.grid == m.grid && m'.items == m.items && m'.cellSize == m.cellSize
    ensures AllCross(m', normals, boundaryLines, maxExt, intersect, from) == AllCross(m, normals, boundaryLines, maxExt, intersect, from)
  {
    forall j | from <= j < |normals|
      ensures FirstCrossing(m', boundaryLines, normals[j], 0, maxExt, intersect) == FirstCrossing(m, boundaryLines, normals[j], 0, maxExt, intersect)
    {
      FirstCrossingSameGrid(m, m', boundaryLines, normals[j], 0, maxExt, intersect);
    }
  }

  /** On success entry `j` is what half normal `j` finds at its first
      crossing extension, as if each normal were searched on its own. */
  lemma {:induction false} ExtendFromEntries(m: SpatialMap, normals: seq<Line>, boundaryLines: seq<Line>, maxExt: int, intersect: IntersectFn, i: nat, acc: seq<Collision>)
    requires Ready(m, boundaryLines) && WellFormedIntersect(intersect) && i <= |normals| && |acc| == i
    requires ExtendFrom(m, normals, boundaryLines, maxExt, intersect, i, acc).Ok?
    ensures var r := ExtendFrom(m, normals, boundaryLines, maxExt, intersect, i, acc).value;
            && |r| == |normals| && r[..i] == acc
            && forall j :: i <= j < |normals| ==>
                 && FirstCrossing(m, boundaryLines, normals[j], 0, maxExt, intersect).Some?
                 && r[j] == ProbeAt(m, boundaryLines, normals[j], FirstCrossing(m, boundaryLines, normals[j], 0, maxExt, intersect).value, intersect)
    decreases |normals| - i
  {
    if i < |normals| {
      var (m', c) := Search(m, boundaryLines, normals[i], 0, maxExt, intersect, Collision([], []));
      SearchFindsFirstCrossing(m, boundaryLines, normals[i], 0, maxExt, intersect, Collision([], []));
      var r := ExtendFrom(m, normals, boundaryLines, maxExt, intersect, i, acc);
      assert r == ExtendFrom(m', normals, boundaryLines, maxExt, intersect, i + 1, acc + [c]);
      ExtendFromEntries(m', normals, boundaryLines, maxExt, intersect, i + 1, acc + [c]);
      assert r.value[..i + 1] == acc + [c];
      assert r.value[..i] == (acc + [c])[..i];
      forall j | i <= j < |normals|
        ensures FirstCrossing(m, boundaryLines, normals[j], 0, maxExt, intersect).Some?
        ensures r.value[j] == ProbeAt(m, boundaryLines, normals[j], FirstCrossing(m, boundaryLines, normals[j], 0, maxExt, intersect).value, intersect)
      {
        if j == i {
          assert r.value[i] == (acc + [c])[i];
        } else {
          FirstCrossingSameGrid(m, m', boundaryLines, normals[j], 0, maxExt, intersect);
          ProbeAtSameGrid(m, m', boundaryLines, normals[j], FirstCrossing(m, boundaryLines, normals[j], 0, maxExt, intersect).value, intersect);
        }
      }
    }
  }

  /** On success every entry has a crossing, one boundary index per point,
      and every index names a boundary segment. */
  lemma ExtendFromWellFormed(m: SpatialMap, normals: seq<Line>, boundaryLines: seq<Line>, maxExt: int, intersect: IntersectFn)
    requires Ready(m, boundaryLines) && WellFormedIntersect(intersect)
    requires ExtendFrom(m, normals, boundaryLines, maxExt, intersect, 0, []).Ok?
    ensures var r := ExtendFrom(m, normals, boundaryLines, maxExt, intersect, 0, []).value;
            && |r| == |normals|
            && forall j :: 0 <= j < |r| ==>
                 && |r[j].points| > 0
                 && |r[j].points| == |r[j].boundaries|
                 && IndexesIn(r[j].boundaries, |boundaryLines|)
  {
    ExtendFromEntries(m, normals, boundaryLines, maxExt, intersect, 0, []);
  }

  /** `_extend_normals_until_collision(half_normal, boundary_points,
      max_extensions)`. The cell size is twice the longest half normal times
      `max_extensions`. */
  function ExtendNormalsUntilCollision(halfNormals: seq<Line>, boundaryPoints: seq<Point>, maxExt: int,
                                       sqrt: SqrtFn, intersect: IntersectFn): (r: Result<seq<Collision>, SmootherError>)
    requires WellFormedIntersect(intersect)
    ensures |halfNormals| == 0 ==> r == Err(EmptyNormals)
    ensures r.Ok? ==> |r.value| == |halfNormals|
    ensures r.Ok? ==> forall j :: 0 <= j < |r.value| ==>
              && |r.value[j].points| > 0
              && |r.value[j].points| == |r.value[j].boundaries|
              && IndexesIn(r.value[j].boundaries, |boundaryPoints|)
  {
    if |halfNormals| == 0 then Err(EmptyNormals)
    else
      var longest := MaxOf(seq(|halfNormals|, i requires 0 <= i < |halfNormals| => Length(sqrt, halfNormals[i])));
      var cellSize := longest * (maxExt as real) * 2.0;
      if cellSize == 0.0 then
        if |boundaryPoints| > 0 || maxExt >= 1 then Err(DegenerateCellSize) else Err(InvalidTrackGeneration)
      else
        var m := BoundaryMap(boundaryPoints, cellSize, |boundaryPoints|);
        var lines := Roll(PointsToLines(boundaryPoints), 1);
        var r := ExtendFrom(m, halfNormals, lines, maxExt, intersect, 0, []);
        if r.Ok? then
          ExtendFromWellFormed(m, halfNormals, lines, maxExt, intersect);
          r
        else r
  }
}
