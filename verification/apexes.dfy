/** Apex detection (`find_apexes` of `lapsim.eval`): the lines where the
    racing line touches an edge of the track in a bend, grouped into runs
    of consecutive lines, one apex per run.

    The turning angle of each line comes from `extract_features`, which is
    not part of this model: the angles are an input. */
module Apexes {
  import opened Wrappers
  import opened Functional
  import opened Tracks
  import opened Patching

  /** A line that qualifies as an apex: its index and its position. */
  datatype Candidate = Candidate(index: nat, pos: real)

  /** The racing line is within 2% of the track width of either edge. */
  predicate NearEdge(pos: real) {
    pos < 0.02 || pos > 1.0 - 0.02
  }

  /** The track turns at this line by more than 0.01 radians either way. */
  predicate Turning(angle: real) {
    Abs(angle) > 0.01
  }

  predicate Increasing(c: seq<Candidate>) {
    forall a, b :: 0 <= a < b < |c| ==> c[a].index < c[b].index
  }

  /** The scan of lines `i..`: a line without a position raises TypeError
      (comparing None) before a missing angle raises IndexError. */
  function CandidatesFrom(segs: seq<SegmentationLine>, angles: seq<real>, i: nat): (r: Result<seq<Candidate>, Failure>)
    requires i <= |segs|
    ensures r.Ok? <==> forall j :: i <= j < |segs| ==> segs[j].pos.Some? && j < |angles|
    ensures r.Err? ==> r.error == TypeError || r.error == IndexError
    ensures r.Ok? ==> Increasing(r.value) && |r.value| <= |segs| - i
    ensures r.Ok? ==> forall k :: 0 <= k < |r.value| ==>
              i <= r.value[k].index < |segs| && Some(r.value[k].pos) == segs[r.value[k].index].pos
              && NearEdge(r.value[k].pos) && Turning(angles[r.value[k].index])
    decreases |segs| - i
  {
    if i == |segs| then Ok([])
    else if segs[i].pos.None? then Err(TypeError)
    else if i >= |angles| then Err(IndexError)
    else
      var rest :- CandidatesFrom(segs, angles, i + 1);
      var pos := segs[i].pos.value;
      if NearEdge(pos) && Turning(angles[i]) then Ok([Candidate(i, pos)] + rest) else Ok(rest)
  }

  /** Every qualifying line is found. */
  lemma {:induction false} CandidatesComplete(segs: seq<SegmentationLine>, angles: seq<real>, i: nat, j: nat)
    requires i <= j < |segs| && CandidatesFrom(segs, angles, i).Ok?
    requires segs[j].pos.Some? && NearEdge(segs[j].pos.value) && Turning(angles[j])
    ensures Candidate(j, segs[j].pos.value) in CandidatesFrom(segs, angles, i).value
    decreases j - i
  {
    if i < j {
      CandidatesComplete(segs, angles, i + 1, j);
    }
  }

  /* ---------------- grouping into runs ---------------- */

  /** Consecutive line indexes. */
  predicate Run(g: seq<Candidate>) {
    |g| > 0 && forall j :: 0 <= j < |g| ==> g[j].index == g[0].index + j
  }

  /** At least one line lies between the end of run `a` and the start of run `b`. */
  predicate Gap(a: seq<Candidate>, b: seq<Candidate>) {
    |a| > 0 && |b| > 0 && a[|a| - 1].index + 1 < b[0].index
  }

  /** Every group is a run and consecutive groups do not touch. */
  predicate Separated(gs: seq<seq<Candidate>>) {
    (forall i :: 0 <= i < |gs| ==> Run(gs[i]))
    && forall i :: 0 <= i < |gs| - 1 ==> Gap(gs[i], gs[i + 1])
  }

  /** The grouping loop from candidate `k` on: a candidate closes the current
      group unless the next one (the first one, after the last) has the
      following index. A group still open at the end is dropped. */
  function GroupFrom(c: seq<Candidate>, k: nat, current: seq<Candidate>, groups: seq<seq<Candidate>>): seq<seq<Candidate>>
    requires k <= |c|
    decreases |c| - k
  {
    if k == |c| then groups
    else
      var cur := current + [c[k]];
      var next := c[Following(k, |c|)];
      if next.index != c[k].index + 1 then GroupFrom(c, k + 1, [], groups + [cur])
      else GroupFrom(c, k + 1, cur, groups)
  }

  /** Python's `apexes[i + 1 - len(apexes)]`: the index is negative except
      for the last candidate, where it is 0. */
  function Following(k: nat, n: nat): (j: nat)
    requires k < n
    ensures j < n && (k + 1 < n ==> j == k + 1) && (k + 1 == n ==> j == 0)
  {
    var i := k + 1 - n;
    if i < 0 then n + i else i
  }

  function Groups(c: seq<Candidate>): seq<seq<Candidate>> {
    GroupFrom(c, 0, [], [])
  }

  /** The last closed group ends at least one line before `first`. */
  predicate Follows(groups: seq<seq<Candidate>>, first: Candidate) {
    |groups| == 0 || Gap(groups[|groups| - 1], [first])
  }

  /** The invariant of the grouping loop before candidate `k`: the closed
      groups and the open one are the candidates so far, the closed groups
      are separated runs, the open group is a run that candidate `k`
      continues, and the next group will start after a gap. */
  predicate GroupInv(c: seq<Candidate>, k: nat, current: seq<Candidate>, groups: seq<seq<Candidate>>)
    requires k <= |c|
  {
    Increasing(c) && Flatten(groups) + current == c[..k] && Separated(groups)
    && (current != [] ==> Run(current) && k < |c| && c[k].index == current[|current| - 1].index + 1)
    && (k < |c| ==> Follows(groups, if current == [] then c[k] else current[0]))
  }

  lemma FlattenSnoc(groups: seq<seq<Candidate>>, g: seq<Candidate>)
    ensures Flatten(groups + [g]) == Flatten(groups) + g
  {
    assert (groups + [g])[..|groups|] == groups;
  }

  /** Candidate `k` closes the open group. */
  lemma CloseStep(c: seq<Candidate>, k: nat, current: seq<Candidate>, groups: seq<seq<Candidate>>)
    requires k < |c| && GroupInv(c, k, current, groups)
    requires c[Following(k, |c|)].index != c[k].index + 1
    ensures GroupInv(c, k + 1, [], groups + [current + [c[k]]])
  {
    var cur := current + [c[k]];
    var gs := groups + [cur];
    assert Run(cur);
    assert Flatten(gs) == c[..k + 1] by {
      FlattenSnoc(groups, cur);
      assert c[..k + 1] == c[..k] + [c[k]];
    }
    assert Separated(gs) by {
      CloseSeparated(groups, cur);
    }
    if k + 1 < |c| {
      assert c[k].index < c[k + 1].index;
      assert Gap(gs[|gs| - 1], [c[k + 1]]);
    }
  }

  lemma CloseSeparated(groups: seq<seq<Candidate>>, cur: seq<Candidate>)
    requires Separated(groups) && Run(cur) && Follows(groups, cur[0])
    ensures Separated(groups + [cur])
  {
    var gs := groups + [cur];
    assert forall i :: 0 <= i < |groups| ==> gs[i] == groups[i];
    if |groups| > 0 {
      assert Gap(gs[|groups| - 1], gs[|groups|]);
    }
  }

  /** Candidate `k` joins the open group, which the next candidate continues. */
  lemma ContinueStep(c: seq<Candidate>, k: nat, current: seq<Candidate>, groups: seq<seq<Candidate>>)
    requires k < |c| && GroupInv(c, k, current, groups)
    requires c[Following(k, |c|)].index == c[k].index + 1
    ensures GroupInv(c, k + 1, current + [c[k]], groups)
  {
    var cur := current + [c[k]];
    assert k + 1 < |c|;
    assert Run(cur);
    assert c[..k + 1] == c[..k] + [c[k]];
  }

  lemma {:induction false} GroupFromInvariant(c: seq<Candidate>, k: nat, current: seq<Candidate>, groups: seq<seq<Candidate>>)
    requires k <= |c| && GroupInv(c, k, current, groups)
    ensures Flatten(GroupFrom(c, k, current, groups)) == c
    ensures Separated(GroupFrom(c, k, current, groups))
    decreases |c| - k
  {
    if k == |c| {
      assert c[..k] == c;
    } else if c[Following(k, |c|)].index != c[k].index + 1 {
      CloseStep(c, k, current, groups);
      GroupFromInvariant(c, k + 1, [], groups + [current + [c[k]]]);
    } else {
      ContinueStep(c, k, current, groups);
      GroupFromInvariant(c, k + 1, current + [c[k]], groups);
    }
  }

  /** The groups are the maximal runs of the candidates: together they are
      the candidates in order, each is a run, and two groups never touch. */
  lemma GroupsAreMaximalRuns(c: seq<Candidate>)
    requires Increasing(c)
    ensures Flatten(Groups(c)) == c
    ensures Separated(Groups(c))
  {
    assert c[..0] == [];
    assert GroupInv(c, 0, [], []);
    GroupFromInvariant(c, 0, [], []);
  }

  /* ---------------- one apex per run ---------------- */

  /** How far the racing line is from the nearer edge. */
  function EdgeDistance(pos: real): real {
    if pos < 0.5 then pos else 1.0 - pos
  }

  function EdgeDistances(g: seq<Candidate>): (r: seq<real>)
    ensures |r| == |g| && forall j :: 0 <= j < |g| ==> r[j] == EdgeDistance(g[j].pos)
  {
    seq(|g|, j requires 0 <= j < |g| => EdgeDistance(g[j].pos))
  }

  /** The position in a group of its apex: the line closest to an edge, the
      first one on a tie (`np.argmin`). */
  function Pick(g: seq<Candidate>): (k: nat)
    requires |g| > 0
    ensures k < |g|
    ensures forall j :: 0 <= j < |g| ==> EdgeDistance(g[k].pos) <= EdgeDistance(g[j].pos)
    ensures forall j :: 0 <= j < k ==> EdgeDistance(g[k].pos) < EdgeDistance(g[j].pos)
  {
    var ds := EdgeDistances(g);
    var k := ArgMin(ds);
    assert forall j :: 0 <= j < |g| ==> ds[j] == EdgeDistance(g[j].pos);
    k
  }

  function ApexOf(g: seq<Candidate>): nat
    requires |g| > 0
  {
    g[Pick(g)].index
  }

  function ApexesOf(gs: seq<seq<Candidate>>): (r: seq<nat>)
    requires forall i :: 0 <= i < |gs| ==> |gs[i]| > 0
    ensures |r| == |gs|
  {
    seq(|gs|, i requires 0 <= i < |gs| => ApexOf(gs[i]))
  }

  /** `find_apexes(segmentations)`: the apex line of every run of qualifying lines. */
  function FindApexes(segs: seq<SegmentationLine>, angles: seq<real>): (r: Result<seq<nat>, Failure>)
    ensures r.Ok? <==> forall j :: 0 <= j < |segs| ==> segs[j].pos.Some? && j < |angles|
    ensures r.Err? ==> r.error == TypeError || r.error == IndexError
    ensures r.Ok? ==> |r.value| <= |segs|
  {
    var c :- CandidatesFrom(segs, angles, 0);
    GroupsAreMaximalRuns(c);
    GroupsFewer(Groups(c), c);
    assert |Groups(c)| <= |c| <= |segs|;
    Ok(ApexesOf(Groups(c)))
  }

  /* ---------------- what `find_apexes` promises ---------------- */

  /** Line `j` is near an edge in a bend. */
  predicate Qualifies(segs: seq<SegmentationLine>, angles: seq<real>, j: nat) {
    j < |segs| && j < |angles| && segs[j].pos.Some? && NearEdge(segs[j].pos.value) && Turning(angles[j])
  }

  /** The runs of qualifying lines that `find_apexes` picks its apexes from. */
  function Runs(segs: seq<SegmentationLine>, angles: seq<real>): seq<seq<Candidate>>
    requires CandidatesFrom(segs, angles, 0).Ok?
  {
    Groups(CandidatesFrom(segs, angles, 0).value)
  }

  /** There are no more runs than candidates, and no more candidates than lines. */
  lemma {:induction false} GroupsFewer(gs: seq<seq<Candidate>>, c: seq<Candidate>)
    requires Flatten(gs) == c && forall i :: 0 <= i < |gs| ==> Run(gs[i])
    ensures |gs| <= |c|
    decreases |gs|
  {
    if |gs| > 0 {
      GroupsFewer(gs[..|gs| - 1], Flatten(gs[..|gs| - 1]));
    }
  }

  /** Earlier runs hold smaller line indexes, with at least one line between. */
  lemma {:induction false} SeparatedOrdered(gs: seq<seq<Candidate>>, p: nat, kp: nat, q: nat, kq: nat)
    requires Separated(gs) && p < q < |gs| && kp < |gs[p]| && kq < |gs[q]|
    ensures gs[p][kp].index + 1 < gs[q][kq].index
    decreases q - p
  {
    assert Run(gs[p]) && Run(gs[p + 1]) && Gap(gs[p], gs[p + 1]);
    if p + 1 < q {
      SeparatedOrdered(gs, p + 1, 0, q, kq);
    }
  }

  /** The runs consist of exactly the qualifying lines, with their positions. */
  lemma RunsAreQualifyingLines(segs: seq<SegmentationLine>, angles: seq<real>)
    requires CandidatesFrom(segs, angles, 0).Ok?
    ensures Separated(Runs(segs, angles))
    ensures forall i, k :: 0 <= i < |Runs(segs, angles)| && 0 <= k < |Runs(segs, angles)[i]| ==>
              Qualifies(segs, angles, Runs(segs, angles)[i][k].index)
              && segs[Runs(segs, angles)[i][k].index].pos == Some(Runs(segs, angles)[i][k].pos)
    ensures forall j: nat :: Qualifies(segs, angles, j) ==>
              exists i, k :: 0 <= i < |Runs(segs, angles)| && 0 <= k < |Runs(segs, angles)[i]|
                             && Runs(segs, angles)[i][k].index == j
  {
    var c := CandidatesFrom(segs, angles, 0).value;
    var gs: seq<seq<Candidate>> := Runs(segs, angles);
    GroupsAreMaximalRuns(c);
    forall i: int, k: int | 0 <= i < |gs| && 0 <= k < |gs[i]|
      ensures Qualifies(segs, angles, gs[i][k].index) && segs[gs[i][k].index].pos == Some(gs[i][k].pos)
    {
      FlattenHas(gs, i, k);
    }
    forall j: nat | Qualifies(segs, angles, j)
      ensures exists i: int, k: int :: 0 <= i < |gs| && 0 <= k < |gs[i]| && gs[i][k].index == j
    {
      var x := Candidate(j, segs[j].pos.value);
      CandidatesComplete(segs, angles, 0, j);
      FlattenMember(gs, x);
      var i :| 0 <= i < |gs| && x in gs[i];
      var k :| 0 <= k < |gs[i]| && gs[i][k] == x;
    }
  }

  lemma FindApexesRuns(segs: seq<SegmentationLine>, angles: seq<real>)
    requires FindApexes(segs, angles).Ok?
    ensures CandidatesFrom(segs, angles, 0).Ok?
    ensures Separated(Runs(segs, angles))
    ensures FindApexes(segs, angles).value == ApexesOf(Runs(segs, angles))
  {
    GroupsAreMaximalRuns(CandidatesFrom(segs, angles, 0).value);
  }

  /** Apexes come out in track order, one per run. */
  lemma ApexesIncreasing(segs: seq<SegmentationLine>, angles: seq<real>)
    requires FindApexes(segs, angles).Ok?
    ensures forall a, b :: 0 <= a < b < |FindApexes(segs, angles).value| ==>
              FindApexes(segs, angles).value[a] < FindApexes(segs, angles).value[b]
  {
    FindApexesRuns(segs, angles);
    var gs: seq<seq<Candidate>> := Runs(segs, angles);
    forall a, b | 0 <= a < b < |gs|
      ensures ApexOf(gs[a]) < ApexOf(gs[b])
    {
      SeparatedOrdered(gs, a, Pick(gs[a]), b, Pick(gs[b]));
    }
  }

  /** Every apex is a line near an edge in a bend. */
  lemma ApexesQualify(segs: seq<SegmentationLine>, angles: seq<real>)
    requires FindApexes(segs, angles).Ok?
    ensures forall a :: 0 <= a < |FindApexes(segs, angles).value| ==>
              Qualifies(segs, angles, FindApexes(segs, angles).value[a])
  {
    FindApexesRuns(segs, angles);
    RunsAreQualifyingLines(segs, angles);
    var gs: seq<seq<Candidate>> := Runs(segs, angles);
    assert forall a :: 0 <= a < |gs| ==> ApexOf(gs[a]) == gs[a][Pick(gs[a])].index;
  }

  /** The apex of run `a` is the line of the run closest to an edge, the
      first such line on a tie. */
  lemma ApexIsClosest(segs: seq<SegmentationLine>, angles: seq<real>, a: nat)
    requires FindApexes(segs, angles).Ok? && a < |FindApexes(segs, angles).value|
    ensures var gs := Runs(segs, angles);
            var j := FindApexes(segs, angles).value[a];
            a < |gs| && |gs[a]| > 0
            && gs[a][0].index <= j <= gs[a][|gs[a]| - 1].index
            && j < |segs| && segs[j].pos.Some?
            && forall k :: 0 <= k < |gs[a]| ==>
                 EdgeDistance(segs[j].pos.value) <= EdgeDistance(gs[a][k].pos)
                 && (gs[a][k].index < j ==> EdgeDistance(segs[j].pos.value) < EdgeDistance(gs[a][k].pos))
  {
    FindApexesRuns(segs, angles);
    RunsAreQualifyingLines(segs, angles);
    var gs: seq<seq<Candidate>> := Runs(segs, angles);
    var g := gs[a];
    var p := Pick(g);
    assert Run(g);
    assert segs[g[p].index].pos == Some(g[p].pos);
  }

  /** The line just after a run that another run follows belongs to no run. */
  lemma GapIsEmpty(gs: seq<seq<Candidate>>, a: nat)
    requires Separated(gs) && a + 1 < |gs|
    ensures |gs[a]| > 0
    ensures forall i, k :: 0 <= i < |gs| && 0 <= k < |gs[i]| ==> gs[i][k].index != gs[a][|gs[a]| - 1].index + 1
  {
    var g, h := gs[a], gs[a + 1];
    assert Run(g) && Run(h) && Gap(g, h);
    forall i, k | 0 <= i < |gs| && 0 <= k < |gs[i]|
      ensures gs[i][k].index != g[|g| - 1].index + 1
    {
      assert Run(gs[i]);
      if i < a {
        SeparatedOrdered(gs, i, k, a, |g| - 1);
      } else if i > a + 1 {
        SeparatedOrdered(gs, a + 1, 0, i, k);
      }
    }
  }

  /** Two apexes are never in the same run: between consecutive apexes lies
      a line that does not qualify. */
  lemma ApexesSeparated(segs: seq<SegmentationLine>, angles: seq<real>, a: nat)
    requires FindApexes(segs, angles).Ok? && a + 1 < |FindApexes(segs, angles).value|
    ensures exists m :: FindApexes(segs, angles).value[a] < m < FindApexes(segs, angles).value[a + 1]
                        && !Qualifies(segs, angles, m)
  {
    FindApexesRuns(segs, angles);
    RunsAreQualifyingLines(segs, angles);
    var gs: seq<seq<Candidate>> := Runs(segs, angles);
    GapIsEmpty(gs, a);
    var g, h := gs[a], gs[a + 1];
    assert Run(g) && Run(h) && Gap(g, h);
    var m := g[|g| - 1].index + 1;
    assert !Qualifies(segs, angles, m);
    assert ApexOf(g) <= g[|g| - 1].index && h[0].index <= ApexOf(h);
  }
}
