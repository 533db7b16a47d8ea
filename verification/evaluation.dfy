/** Scoring a predicted racing line against the ground truth
    (`lapsim.eval`): the per-line velocity and position errors, the suvat
    lap-time estimate, apex detection, and the summary records
    `EvaluationError`, `EvaluationLapTime` and `Evaluation` with their
    combination over several tracks.

    Square roots (distances, the RMSE) go through the oracle of `Geometry`.
    The turning angles `find_apexes` takes from `extract_features` are an
    input. Every number in a summary record is an `Option<real>`: `None` is
    Python's None (and numpy's NaN for a mean of nothing). */
module Eval {
  import opened Wrappers
  import opened Functional
  import opened Geometry
  import opened Tracks
  import opened Patching
  import Apexes

  /* ---------------- None-skipping aggregates: `_mean` and `_max` ---------------- */

  /** The values of `xs` that are not None, in order. */
  function Present(xs: seq<Option<real>>): (r: seq<real>)
    ensures |r| <= |xs|
  {
    if |xs| == 0 then []
    else (if xs[0].Some? then [xs[0].value] else []) + Present(xs[1..])
  }

  /** A value is present exactly when it occurs as `Some`. */
  lemma {:induction false} PresentMember(xs: seq<Option<real>>)
    ensures forall k :: 0 <= k < |Present(xs)| ==> Some(Present(xs)[k]) in xs
    ensures forall i :: 0 <= i < |xs| && xs[i].Some? ==> xs[i].value in Present(xs)
  {
    if |xs| > 0 {
      PresentMember(xs[1..]);
      assert xs == [xs[0]] + xs[1..];
      var head: seq<real> := if xs[0].Some? then [xs[0].value] else [];
      assert Present(xs) == head + Present(xs[1..]);
      forall k | 0 <= k < |Present(xs)| ensures Some(Present(xs)[k]) in xs {
        if k >= |head| {
          assert Present(xs)[k] == Present(xs[1..])[k - |head|];
        }
      }
      forall i | 0 <= i < |xs| && xs[i].Some? ensures xs[i].value in Present(xs) {
        if i > 0 {
          assert xs[i] == xs[1..][i - 1];
        }
      }
    }
  }

  /** Nothing is present exactly when every entry is None. */
  lemma PresentEmpty(xs: seq<Option<real>>)
    ensures |Present(xs)| == 0 <==> forall i :: 0 <= i < |xs| ==> xs[i].None?
  {
    var p := Present(xs);
    PresentMember(xs);
    if |p| > 0 {
      assert p[0] in p;
    }
    if i :| 0 <= i < |xs| && xs[i].Some? {
      assert xs[i] in xs;
      assert xs[i].value in p;
    }
  }

  /** `Present` distributes over concatenation. */
  lemma {:induction false} PresentAppend(a: seq<Option<real>>, b: seq<Option<real>>)
    ensures Present(a + b) == Present(a) + Present(b)
    decreases |a|
  {
    if |a| > 0 {
      assert (a + b)[1..] == a[1..] + b;
      PresentAppend(a[1..], b);
    } else {
      assert a + b == b;
    }
  }

  /** `_mean(x)`: the mean of the entries that are not None, None when there are none. */
  function NoneMean(xs: seq<Option<real>>): (r: Option<real>)
    ensures r.None? <==> forall i :: 0 <= i < |xs| ==> xs[i].None?
  {
    PresentEmpty(xs);
    Mean(Present(xs))
  }

  /** `_max(x)`: the largest entry that is not None, None when there are none. */
  function NoneMax(xs: seq<Option<real>>): (r: Option<real>)
    ensures r.None? <==> forall i :: 0 <= i < |xs| ==> xs[i].None?
    ensures r.Some? ==> Some(r.value) in xs
    ensures r.Some? ==> forall i :: 0 <= i < |xs| && xs[i].Some? ==> xs[i].value <= r.value
  {
    PresentEmpty(xs);
    var p := Present(xs);
    if |p| == 0 then None
    else
      var m := MaxOf(p);
      PresentMember(xs);
      assert forall i :: 0 <= i < |xs| && xs[i].Some? ==> xs[i].value in p by {
        forall i | 0 <= i < |xs| && xs[i].Some? ensures xs[i].value in p {
          assert xs[i] in xs;
        }
      }
      Some(m)
  }

  /** A None among the entries changes neither `_mean` nor `_max`. */
  lemma NoneIgnored(a: seq<Option<real>>, b: seq<Option<real>>)
    ensures NoneMean(a + [None] + b) == NoneMean(a + b)
    ensures NoneMax(a + [None] + b) == NoneMax(a + b)
  {
    assert Present(a + [None] + b) == Present(a + b) by {
      assert Present([None]) == [] + Present([None][1..]);
      PresentAppend(a, [None]);
      PresentAppend(a + [None], b);
      PresentAppend(a, b);
    }
  }

  /** When every present entry is `c` and one is present, `_mean` is `c`. */
  lemma NoneMeanConstant(xs: seq<Option<real>>, c: real)
    requires exists i :: 0 <= i < |xs| && xs[i].Some?
    requires forall i :: 0 <= i < |xs| && xs[i].Some? ==> xs[i].value == c
    ensures NoneMean(xs) == Some(c)
  {
    var p := Present(xs);
    PresentEmpty(xs);
    PresentMember(xs);
    forall k | 0 <= k < |p| ensures p[k] == c {
      assert p[k] in p;
      assert Some(p[k]) in xs;
    }
    MeanConstant(p, c);
  }

  /** An aggregate of a single entry is that entry. */
  lemma SingleAggregates(x: Option<real>)
    ensures NoneMean([x]) == x && NoneMax([x]) == x
  {
    assert [x][1..] == [];
    if x.Some? {
      assert Present([x]) == [x.value];
      assert Sum([x.value]) == x.value + Sum([]);
    }
  }

  /* ---------------- Python's builtin `min`/`max` on a list ---------------- */

  /** Python's `max` on a list that may hold None: an empty list raises
      ValueError, a single item is returned without being compared, and
      comparing None with anything raises TypeError. */
  function PyMax(xs: seq<Option<real>>): (r: Result<Option<real>, Failure>)
    ensures |xs| == 0 <==> r == Err(ValueError)
    ensures |xs| == 1 ==> r == Ok(xs[0])
    ensures |xs| >= 2 ==> (r.Err? <==> exists i :: 0 <= i < |xs| && xs[i].None?)
    ensures r.Err? ==> r.error == ValueError || r.error == TypeError
    ensures r.Ok? ==> r.value in xs
    ensures r.Ok? && |xs| >= 2 ==> (r.value.Some? &&
              forall i :: 0 <= i < |xs| ==> xs[i].Some? && xs[i].value <= r.value.value)
  {
    if |xs| == 0 then Err(ValueError)
    else if |xs| == 1 then Ok(xs[0])
    else if exists i :: 0 <= i < |xs| && xs[i].None? then Err(TypeError)
    else
      var vs := seq(|xs|, i requires 0 <= i < |xs| => xs[i].value);
      var m := MaxOf(vs);
      assert forall i :: 0 <= i < |xs| ==> xs[i].value == vs[i];
      assert Some(m) in xs by {
        var k :| 0 <= k < |vs| && vs[k] == m;
        assert xs[k] == Some(m);
      }
      Ok(Some(m))
  }

  /** Python's `min`, with the same failures as `PyMax`. */
  function PyMin(xs: seq<Option<real>>): (r: Result<Option<real>, Failure>)
    ensures |xs| == 0 <==> r == Err(ValueError)
    ensures |xs| == 1 ==> r == Ok(xs[0])
    ensures |xs| >= 2 ==> (r.Err? <==> exists i :: 0 <= i < |xs| && xs[i].None?)
    ensures r.Err? ==> r.error == ValueError || r.error == TypeError
    ensures r.Ok? ==> r.value in xs
    ensures r.Ok? && |xs| >= 2 ==> (r.value.Some? &&
              forall i :: 0 <= i < |xs| ==> xs[i].Some? && r.value.value <= xs[i].value)
  {
    if |xs| == 0 then Err(ValueError)
    else if |xs| == 1 then Ok(xs[0])
    else if exists i :: 0 <= i < |xs| && xs[i].None? then Err(TypeError)
    else
      var vs := seq(|xs|, i requires 0 <= i < |xs| => -xs[i].value);
      var m := MaxOf(vs);
      assert forall i :: 0 <= i < |xs| ==> -xs[i].value == vs[i];
      assert Some(-m) in xs by {
        var k :| 0 <= k < |vs| && vs[k] == m;
        assert xs[k] == Some(-m);
      }
      Ok(Some(-m))
  }

  /* ---------------- list statistics numpy computes ---------------- */

  function AbsAll(s: seq<real>): (r: seq<real>)
    ensures |r| == |s| && forall i :: 0 <= i < |s| ==> r[i] == Abs(s[i])
  {
    seq(|s|, i requires 0 <= i < |s| => Abs(s[i]))
  }

  function Squares(s: seq<real>): (r: seq<real>)
    ensures |r| == |s|
  {
    seq(|s|, i requires 0 <= i < |s| => s[i] * s[i])
  }

  /** The triangle inequality for a sum. */
  lemma {:induction false} SumAbsBound(s: seq<real>)
    ensures Abs(Sum(s)) <= Sum(AbsAll(s))
    decreases |s|
  {
    if |s| > 0 {
      SumAbsBound(s[1..]);
      assert AbsAll(s)[1..] == AbsAll(s[1..]);
    }
  }

  /** The magnitude of a mean is at most the mean magnitude. */
  lemma MeanAbsBound(s: seq<real>)
    requires |s| > 0
    ensures Abs(Mean(s).value) <= Mean(AbsAll(s)).value
  {
    SumAbsBound(s);
    var n := |s| as real;
    var a, b := Sum(s), Sum(AbsAll(s));
    assert Abs(a / n) == Abs(a) / n;
    DivMono(Abs(a), b, n);
  }

  lemma DivMono(a: real, b: real, n: real)
    requires a <= b && n > 0.0
    ensures a / n <= b / n
  {
  }

  predicate Ascending(s: seq<real>) {
    forall i, j :: 0 <= i < j < |s| ==> s[i] <= s[j]
  }

  function Insert(x: real, s: seq<real>): (r: seq<real>)
    requires Ascending(s)
    ensures Ascending(r) && multiset(r) == multiset(s) + multiset{x}
  {
    if |s| == 0 then [x]
    else if x <= s[0] then [x] + s
    else
      var t := Insert(x, s[1..]);
      assert s == [s[0]] + s[1..];
      assert forall k :: 0 <= k < |t| ==> s[0] <= t[k] by {
        forall k | 0 <= k < |t| ensures s[0] <= t[k] {
          assert t[k] in multiset(t);
          if t[k] != x {
            assert t[k] in multiset(s[1..]);
            var j :| 0 <= j < |s| - 1 && s[1..][j] == t[k];
            assert s[j + 1] == t[k];
          }
        }
      }
      [s[0]] + t
  }

  /** Python's `sorted` on numbers. */
  function SortAsc(s: seq<real>): (r: seq<real>)
    ensures Ascending(r) && multiset(r) == multiset(s)
  {
    if |s| == 0 then []
    else
      assert s == [s[0]] + s[1..];
      Insert(s[0], SortAsc(s[1..]))
  }

  /** `int(len * 0.95)`, the position of the 95th percentile in a sorted list. */
  function Ci95Index(n: nat): (k: nat)
    ensures n > 0 ==> k < n
  {
    (n * 95) / 100
  }

  /** `sorted(s)[int(len(s) * 0.95)]`: an entry of `s`. */
  function Ci95(s: seq<real>): (r: real)
    requires |s| > 0
    ensures r in s
  {
    var t := SortAsc(s);
    assert t[Ci95Index(|s|)] in multiset(t);
    t[Ci95Index(|s|)]
  }

  /** numpy's integer-array indexing: an index in `[-n, n)`, negative ones
      counting from the end. */
  predicate NumpyIndexesIn(idx: seq<int>, n: int) {
    forall i :: 0 <= i < |idx| ==> -n <= idx[i] < n
  }

  function NumpyTake(s: seq<real>, idx: seq<int>): (r: seq<real>)
    requires NumpyIndexesIn(idx, |s|)
    ensures |r| == |idx|
    ensures forall i :: 0 <= i < |idx| ==> r[i] in s
  {
    seq(|idx|, i requires 0 <= i < |idx| => s[if idx[i] < 0 then idx[i] + |s| else idx[i]])
  }

  /* ---------------- the summary records ---------------- */

  datatype EvaluationError = EvaluationError(
    max: Option<real>, mean: Option<real>, meanAbsolute: Option<real>, rmse: Option<real>, ci95: Option<real>,
    percentageMean: Option<real>, percentageMax: Option<real>, percentageCi95: Option<real>,
    apexMean: Option<real>, apexMeanAbsolute: Option<real>, apexMax: Option<real>)

  datatype EvaluationLapTime = EvaluationLapTime(
    truth: Option<real>, predicted: Option<real>, error: Option<real>,
    absError: Option<real>, percentage: Option<real>, errorPerMinute: Option<real>)

  datatype Evaluation = Evaluation(
    laptime: EvaluationLapTime, position: EvaluationError, velocity: EvaluationError, apexes: seq<int>)

  /** The apex fields of `EvaluationError.from_errors`; all None without apexes. */
  function ApexFields(d: seq<real>, apexes: seq<int>): (r: (Option<real>, Option<real>, Option<real>))
    requires NumpyIndexesIn(apexes, |d|)
    ensures |apexes| == 0 <==> r.0.None?
    ensures |apexes| == 0 <==> r.1.None?
    ensures |apexes| == 0 <==> r.2.None?
    ensures r.2.Some? ==> forall v :: v in NumpyTake(d, apexes) ==> Abs(v) <= r.2.value
  {
    if |apexes| == 0 then (None, None, None)
    else
      var ad := NumpyTake(d, apexes);
      var m := MaxOf(AbsAll(ad));
      assert forall v :: v in ad ==> Abs(v) <= m by {
        forall v | v in ad ensures Abs(v) <= m {
          var k :| 0 <= k < |ad| && ad[k] == v;
          assert AbsAll(ad)[k] == Abs(v);
        }
      }
      (Mean(ad), Mean(AbsAll(ad)), Some(m))
  }

  /** `EvaluationError.from_errors(deltas, percentage_errors, apexes)`. The
      None deltas are dropped first; the apexes index the remaining ones. */
  function ErrorsFrom(sqrt: SqrtFn, deltas: seq<Option<real>>, percentages: seq<real>, apexes: seq<int>)
    : (r: Result<EvaluationError, Failure>)
    ensures r == Err(ValueError) <==> |Present(deltas)| == 0 || |percentages| == 0
    ensures r == Err(IndexError) <==>
              |Present(deltas)| > 0 && |percentages| > 0 && !NumpyIndexesIn(apexes, |Present(deltas)|)
    ensures r.Err? ==> r.error == ValueError || r.error == IndexError
    ensures r.Ok? ==> (r.value.apexMean.None? <==> |apexes| == 0)
    ensures r.Ok? ==> (r.value.apexMeanAbsolute.None? <==> |apexes| == 0)
    ensures r.Ok? ==> (r.value.apexMax.None? <==> |apexes| == 0)
    ensures r.Ok? ==> r.value.max.Some? && r.value.ci95.Some? && r.value.percentageMax.Some? && r.value.percentageCi95.Some?
    ensures r.Ok? ==> forall v :: v in Present(deltas) ==> Abs(v) <= r.value.max.value
    ensures r.Ok? ==> forall v :: v in percentages ==> v <= r.value.percentageMax.value
  {
    var d := Present(deltas);
    if |d| == 0 || |percentages| == 0 then Err(ValueError)
    else if !NumpyIndexesIn(apexes, |d|) then Err(IndexError)
    else
      var a := AbsAll(d);
      var m := MaxOf(a);
      assert forall v :: v in d ==> Abs(v) <= m by {
        forall v | v in d ensures Abs(v) <= m {
          var k :| 0 <= k < |d| && d[k] == v;
          assert a[k] == Abs(v);
        }
      }
      var apex := ApexFields(d, apexes);
      Ok(EvaluationError(
        max := Some(m),
        mean := Mean(d),
        meanAbsolute := Mean(a),
        rmse := Some(sqrt(Mean(Squares(d)).value)),
        ci95 := Some(Ci95(a)),
        percentageMean := Mean(percentages),
        percentageMax := Some(MaxOf(percentages)),
        percentageCi95 := Some(Ci95(percentages)),
        apexMean := apex.0,
        apexMeanAbsolute := apex.1,
        apexMax := apex.2))
  }

  /** The order statistics of a successful `from_errors` are consistent:
      the 95th percentile and the apex maximum are at most the maximum, and
      the mean's magnitude is at most the mean absolute error. */
  lemma ErrorsFromOrdered(sqrt: SqrtFn, deltas: seq<Option<real>>, percentages: seq<real>, apexes: seq<int>)
    requires ErrorsFrom(sqrt, deltas, percentages, apexes).Ok?
    ensures var e := ErrorsFrom(sqrt, deltas, percentages, apexes).value;
            && e.ci95.value <= e.max.value
            && e.percentageCi95.value <= e.percentageMax.value
            && (e.apexMax.Some? ==> e.apexMax.value <= e.max.value)
            && Abs(e.mean.value) <= e.meanAbsolute.value
  {
    var e := ErrorsFrom(sqrt, deltas, percentages, apexes).value;
    var d := Present(deltas);
    var a := AbsAll(d);
    var k :| 0 <= k < |a| && a[k] == Ci95(a);
    assert d[k] in d;
    assert Ci95(percentages) in percentages;
    MeanAbsBound(d);
    if e.apexMax.Some? {
      var ad := NumpyTake(d, apexes);
      var m := MaxOf(AbsAll(ad));
      var j :| 0 <= j < |ad| && AbsAll(ad)[j] == m;
      assert ad[j] in d;
    }
  }

  /** The maxima are attained: the maximum error is the size of some delta
      and the maximum percentage is one of the percentages. */
  lemma ErrorsFromAttained(sqrt: SqrtFn, deltas: seq<Option<real>>, percentages: seq<real>, apexes: seq<int>)
    requires ErrorsFrom(sqrt, deltas, percentages, apexes).Ok?
    ensures var e := ErrorsFrom(sqrt, deltas, percentages, apexes).value;
            && (exists k :: 0 <= k < |Present(deltas)| && e.max.value == Abs(Present(deltas)[k]))
            && e.percentageMax.value in percentages
  {
    var d := Present(deltas);
    var a := AbsAll(d);
    var k :| 0 <= k < |a| && a[k] == MaxOf(a);
    assert Abs(d[k]) == MaxOf(a);
  }

  /** `EvaluationLapTime.from_values(truth, predicted)`. */
  function LapTimeFromValues(truth: real, predicted: real): (r: Result<EvaluationLapTime, Failure>)
    ensures truth == 0.0 <==> r == Err(ZeroDivision)
    ensures r.Ok? ==> var e := r.value;
              && e.truth == Some(truth) && e.predicted == Some(predicted)
              && e.error.Some? && e.absError.Some? && e.percentage.Some? && e.errorPerMinute.Some?
              && predicted + e.error.value == truth
              && e.absError.value >= 0.0
              && (e.absError.value == 0.0 <==> predicted == truth)
              && e.percentage.value * truth == e.absError.value * 100.0
              && e.errorPerMinute.value * 100.0 == e.percentage.value * 60.0
  {
    if truth == 0.0 then Err(ZeroDivision)
    else
      var absolute := Abs(truth - predicted);
      Ok(EvaluationLapTime(
        truth := Some(truth),
        predicted := Some(predicted),
        error := Some(truth - predicted),
        absError := Some(absolute),
        percentage := Some((absolute / truth) * 100.0),
        errorPerMinute := Some(absolute / truth * 60.0)))
  }

  /** A numeric field of `EvaluationLapTime`. */
  datatype LapTimeField = Truth | Predicted | Error | AbsError | Percentage | ErrorPerMinute

  function LapTimeValue(l: EvaluationLapTime, f: LapTimeField): Option<real> {
    match f
    case Truth => l.truth
    case Predicted => l.predicted
    case Error => l.error
    case AbsError => l.absError
    case Percentage => l.percentage
    case ErrorPerMinute => l.errorPerMinute
  }

  /** `[item.<f> for item in comparisons]`. */
  function LapTimeColumn(cs: seq<EvaluationLapTime>, f: LapTimeField): (r: seq<Option<real>>)
    ensures |r| == |cs| && forall i :: 0 <= i < |cs| ==> r[i] == LapTimeValue(cs[i], f)
  {
    seq(|cs|, i requires 0 <= i < |cs| => LapTimeValue(cs[i], f))
  }

  /** `EvaluationLapTime.combine`: the `_mean` of every field. */
  function CombineLapTimes(cs: seq<EvaluationLapTime>): (r: EvaluationLapTime)
    ensures |cs| == 0 ==> r.truth.None? && r.predicted.None? && r.error.None? && r.absError.None?
                          && r.percentage.None? && r.errorPerMinute.None?
  {
    EvaluationLapTime(
      truth := NoneMean(LapTimeColumn(cs, Truth)),
      predicted := NoneMean(LapTimeColumn(cs, Predicted)),
      error := NoneMean(LapTimeColumn(cs, Error)),
      absError := NoneMean(LapTimeColumn(cs, AbsError)),
      percentage := NoneMean(LapTimeColumn(cs, Percentage)),
      errorPerMinute := NoneMean(LapTimeColumn(cs, ErrorPerMinute)))
  }

  /** Every combined lap-time field is the `_mean` of that field over the
      records, so it is None exactly when the field is None in all of them. */
  lemma CombineLapTimesFieldwise(cs: seq<EvaluationLapTime>, f: LapTimeField)
    ensures LapTimeValue(CombineLapTimes(cs), f) == NoneMean(LapTimeColumn(cs, f))
    ensures LapTimeValue(CombineLapTimes(cs), f).None? <==> forall i :: 0 <= i < |cs| ==> LapTimeValue(cs[i], f).None?
  {
  }

  /** A numeric field of `EvaluationError`. */
  datatype ErrorField =
    | MaxError | MeanError | MeanAbsolute | Rmse | Ci95Error
    | PercentageMean | PercentageMax | PercentageCi95
    | ApexMean | ApexMeanAbsolute | ApexMax

  function ErrorValue(e: EvaluationError, f: ErrorField): Option<real> {
    match f
    case MaxError => e.max
    case MeanError => e.mean
    case MeanAbsolute => e.meanAbsolute
    case Rmse => e.rmse
    case Ci95Error => e.ci95
    case PercentageMean => e.percentageMean
    case PercentageMax => e.percentageMax
    case PercentageCi95 => e.percentageCi95
    case ApexMean => e.apexMean
    case ApexMeanAbsolute => e.apexMeanAbsolute
    case ApexMax => e.apexMax
  }

  function ErrorColumn(cs: seq<EvaluationError>, f: ErrorField): (r: seq<Option<real>>)
    ensures |r| == |cs| && forall i :: 0 <= i < |cs| ==> r[i] == ErrorValue(cs[i], f)
  {
    seq(|cs|, i requires 0 <= i < |cs| => ErrorValue(cs[i], f))
  }

  /** The fields `EvaluationError.combine` averages with `_mean`. */
  predicate Averaged(f: ErrorField) {
    f != MaxError && f != PercentageMax && f != ApexMax
  }

  /** The record `EvaluationError.combine` builds once both maxima are known. */
  function CombinedRecord(cs: seq<EvaluationError>, mx: Option<real>, pmx: Option<real>): EvaluationError {
    EvaluationError(
      max := mx,
      mean := NoneMean(ErrorColumn(cs, MeanError)),
      meanAbsolute := NoneMean(ErrorColumn(cs, MeanAbsolute)),
      rmse := NoneMean(ErrorColumn(cs, Rmse)),
      ci95 := NoneMean(ErrorColumn(cs, Ci95Error)),
      percentageMean := NoneMean(ErrorColumn(cs, PercentageMean)),
      percentageMax := pmx,
      percentageCi95 := NoneMean(ErrorColumn(cs, PercentageCi95)),
      apexMean := NoneMean(ErrorColumn(cs, ApexMean)),
      apexMeanAbsolute := NoneMean(ErrorColumn(cs, ApexMeanAbsolute)),
      apexMax := NoneMax(ErrorColumn(cs, ApexMax)))
  }

  /** `EvaluationError.combine`: Python's `max` of `max` and
      `percentage_max` (evaluated in that order, so the first failure is
      reported), `_max` of `apex_max`, `_mean` of the rest. */
  function CombineErrors(cs: seq<EvaluationError>): (r: Result<EvaluationError, Failure>)
    ensures |cs| == 0 ==> r == Err(ValueError)
    ensures r.Ok? && |cs| >= 2 ==> (r.value.max.Some? &&
              forall i :: 0 <= i < |cs| ==> cs[i].max.Some? && cs[i].max.value <= r.value.max.value)
  {
    var mx :- PyMax(ErrorColumn(cs, MaxError));
    var pmx :- PyMax(ErrorColumn(cs, PercentageMax));
    Ok(CombinedRecord(cs, mx, pmx))
  }

  /** Every averaged field of a combination is the `_mean` of that field. */
  lemma CombineErrorsFieldwise(cs: seq<EvaluationError>, f: ErrorField)
    requires CombineErrors(cs).Ok? && Averaged(f)
    ensures ErrorValue(CombineErrors(cs).value, f) == NoneMean(ErrorColumn(cs, f))
    ensures ErrorValue(CombineErrors(cs).value, f).None? <==> forall i :: 0 <= i < |cs| ==> ErrorValue(cs[i], f).None?
  {
  }

  /** The combined `apex_max` is the largest apex maximum, and None exactly
      when every record's is None. */
  lemma CombineApexMax(cs: seq<EvaluationError>)
    requires CombineErrors(cs).Ok?
    ensures var m := CombineErrors(cs).value.apexMax;
            && (m.None? <==> forall i :: 0 <= i < |cs| ==> cs[i].apexMax.None?)
            && (m.Some? ==> forall i :: 0 <= i < |cs| && cs[i].apexMax.Some? ==> cs[i].apexMax.value <= m.value)
  {
    assert CombineErrors(cs).value.apexMax == NoneMax(ErrorColumn(cs, ApexMax));
    ApexColumnMax(cs);
  }

  /** `_max` of the apex maxima: None exactly when every one is None, and
      otherwise at least each of them. */
  lemma ApexColumnMax(cs: seq<EvaluationError>)
    ensures var m := NoneMax(ErrorColumn(cs, ApexMax));
            && (m.None? <==> forall i :: 0 <= i < |cs| ==> cs[i].apexMax.None?)
            && (m.Some? ==> forall i :: 0 <= i < |cs| && cs[i].apexMax.Some? ==> cs[i].apexMax.value <= m.value)
  {
    var col := ErrorColumn(cs, ApexMax);
    assert forall i :: 0 <= i < |cs| ==> col[i] == cs[i].apexMax;
  }

  /** `Evaluation.combine`: the apexes of the combination are always empty. */
  function CombineEvaluations(cs: seq<Evaluation>): (r: Result<Evaluation, Failure>)
    ensures |cs| == 0 ==> r == Err(ValueError)
    ensures r.Ok? ==> r.value.apexes == []
  {
    var lap := CombineLapTimes(seq(|cs|, i requires 0 <= i < |cs| => cs[i].laptime));
    var pos :- CombineErrors(seq(|cs|, i requires 0 <= i < |cs| => cs[i].position));
    var vel :- CombineErrors(seq(|cs|, i requires 0 <= i < |cs| => cs[i].velocity));
    Ok(Evaluation(lap, pos, vel, []))
  }

  /** The column of a single record holds that record's field. */
  lemma SingleColumn(e: EvaluationError, f: ErrorField)
    ensures ErrorColumn([e], f) == [ErrorValue(e, f)]
    ensures NoneMean(ErrorColumn([e], f)) == ErrorValue(e, f)
    ensures NoneMax(ErrorColumn([e], f)) == ErrorValue(e, f)
  {
    SingleAggregates(ErrorValue(e, f));
  }

  /** Combining one error record gives it back. */
  lemma CombineOneError(e: EvaluationError)
    ensures CombineErrors([e]) == Ok(e)
  {
    SingleColumn(e, MaxError);
    SingleColumn(e, PercentageMax);
    SingleRecord(e);
  }

  lemma SingleRecord(e: EvaluationError)
    ensures CombinedRecord([e], e.max, e.percentageMax) == e
  {
    SingleColumn(e, MeanError);
    SingleColumn(e, MeanAbsolute);
    SingleColumn(e, Rmse);
    SingleColumn(e, Ci95Error);
    SingleColumn(e, PercentageMean);
    SingleColumn(e, PercentageCi95);
    SingleColumn(e, ApexMean);
    SingleColumn(e, ApexMeanAbsolute);
    SingleColumn(e, ApexMax);
  }

  /** Combining one lap-time record gives it back. */
  lemma CombineOneLapTime(l: EvaluationLapTime)
    ensures CombineLapTimes([l]) == l
  {
    forall f ensures LapTimeColumn([l], f) == [LapTimeValue(l, f)] && NoneMean(LapTimeColumn([l], f)) == LapTimeValue(l, f) {
      SingleAggregates(LapTimeValue(l, f));
    }
  }

  /** Combining a single evaluation keeps every figure, None apex fields
      included, and only empties the apex list. */
  lemma CombineOne(e: Evaluation)
    ensures CombineEvaluations([e]) == Ok(e.(apexes := []))
  {
    assert seq(1, i requires 0 <= i < 1 => [e][i].laptime) == [e.laptime];
    assert seq(1, i requires 0 <= i < 1 => [e][i].position) == [e.position];
    assert seq(1, i requires 0 <= i < 1 => [e][i].velocity) == [e.velocity];
    CombineOneLapTime(e.laptime);
    CombineOneError(e.position);
    CombineOneError(e.velocity);
  }

  /** `Evaluation.from_errors`: the lap times first, then the position and
      velocity errors, each with the same apexes. */
  function EvaluationFrom(sqrt: SqrtFn, laptime: real, predictedLaptime: real,
                          positionDeltas: seq<Option<real>>, positionPercentages: seq<real>,
                          velocityDeltas: seq<Option<real>>, velocityPercentages: seq<real>,
                          apexes: seq<int>): (r: Result<Evaluation, Failure>)
    ensures laptime == 0.0 ==> r == Err(ZeroDivision)
    ensures r.Ok? ==> r.value.apexes == apexes
    ensures r.Ok? ==> r.value.laptime.truth == Some(laptime) && r.value.laptime.predicted == Some(predictedLaptime)
  {
    var lap :- LapTimeFromValues(laptime, predictedLaptime);
    var pos :- ErrorsFrom(sqrt, positionDeltas, positionPercentages, apexes);
    var vel :- ErrorsFrom(sqrt, velocityDeltas, velocityPercentages, apexes);
    Ok(Evaluation(lap, pos, vel, apexes))
  }

  /* ---------------- the optimal line and the lap-time estimate ---------------- */

  /** Row `i` of `calculate_optimal_positions`: the point a fraction `pos`
      along the segmentation line from its left end. */
  function OptimalPoint(s: SegmentationLine): (r: Point)
    requires s.pos.Some?
    ensures s.pos.value == 0.0 ==> r == s.Left()
    ensures s.pos.value == 1.0 ==> r == s.Right()
    ensures 0.0 <= s.pos.value <= 1.0 ==>
              Min(s.x1, s.x2) <= r.x <= Max(s.x1, s.x2) && Min(s.y1, s.y2) <= r.y <= Max(s.y1, s.y2)
  {
    var p := s.pos.value;
    Between(s.x1, s.x2, p);
    Between(s.y1, s.y2, p);
    Point(s.x1 + (s.x2 - s.x1) * p, s.y1 + (s.y2 - s.y1) * p)
  }

  /** Interpolating with a weight in `[0, 1]` stays between the ends. */
  lemma Between(a: real, b: real, p: real)
    ensures 0.0 <= p <= 1.0 ==> Min(a, b) <= a + (b - a) * p <= Max(a, b)
  {
    if 0.0 <= p <= 1.0 {
      var d := b - a;
      assert d * p + d * (1.0 - p) == d;
      if a <= b {
        MulNonNegative(d, p);
        MulNonNegative(d, 1.0 - p);
      } else {
        MulNonNegative(-d, p);
        MulNonNegative(-d, 1.0 - p);
      }
    }
  }

  lemma MulNonNegative(x: real, y: real)
    requires x >= 0.0 && y >= 0.0
    ensures x * y >= 0.0
  {
  }

  /** `calculate_optimal_positions(track)`: one point per segmentation line;
      a line without a position makes the arithmetic raise TypeError. */
  function OptimalPositions(t: Track): (r: Result<seq<Point>, Failure>)
    ensures r.Err? <==> exists i :: 0 <= i < |t.segmentations| && t.segmentations[i].pos.None?
    ensures r.Err? ==> r.error == TypeError
    ensures r.Ok? ==> |r.value| == |t.segmentations|
    ensures r.Ok? ==> forall i :: 0 <= i < |r.value| ==> r.value[i] == OptimalPoint(t.segmentations[i])
  {
    var segs := t.segmentations;
    if exists i :: 0 <= i < |segs| && segs[i].pos.None? then Err(TypeError)
    else Ok(seq(|segs|, i requires 0 <= i < |segs| => OptimalPoint(segs[i])))
  }

  /** Python's `xs[i - 1]`: for `i == 0` the index -1 is the last element. */
  function Prev(i: nat, n: nat): (j: nat)
    requires i < n
    ensures j < n && (i > 0 ==> j + 1 == i)
  {
    if i == 0 then n - 1 else i - 1
  }

  /** Why the step into line `i` cannot be timed: a missing velocity at
      either end, or opposite velocities (a zero denominator). */
  predicate StepFails(segs: seq<SegmentationLine>, i: nat)
    requires i < |segs|
  {
    var u, v := segs[i].vel, segs[Prev(i, |segs|)].vel;
    u.None? || v.None? || u.value + v.value == 0.0
  }

  /** The time of the step from line `i - 1` to line `i`: `2 s / (u + v)`,
      the suvat time for distance `s` between speeds `v` and `u`. */
  function StepTime(sqrt: SqrtFn, path: seq<Point>, segs: seq<SegmentationLine>, i: nat): (r: Result<real, Failure>)
    requires |path| == |segs| && i < |segs|
    ensures r.Err? <==> StepFails(segs, i)
    ensures r.Err? ==> (r.error == TypeError <==> segs[i].vel.None? || segs[Prev(i, |segs|)].vel.None?)
    ensures r.Err? ==> r.error == TypeError || r.error == ZeroDivision
    ensures (r.Ok? && NonNegativeRoot(sqrt) && segs[i].vel.value > 0.0 && segs[Prev(i, |segs|)].vel.value > 0.0)
              ==> r.value >= 0.0
  {
    var j := Prev(i, |segs|);
    var u, v := segs[i].vel, segs[j].vel;
    if u.None? || v.None? then Err(TypeError)
    else if u.value + v.value == 0.0 then Err(ZeroDivision)
    else Ok(2.0 * Distance(sqrt, path[j], path[i]) / (u.value + v.value))
  }

  /** The loop of `estimate_lap_time` from line `i` on: the step times are
      added in order and the first failing step raises. */
  function TimeFrom(sqrt: SqrtFn, path: seq<Point>, segs: seq<SegmentationLine>, i: nat): (r: Result<real, Failure>)
    requires |path| == |segs| && i <= |segs|
    ensures r.Err? <==> exists j :: i <= j < |segs| && StepFails(segs, j)
    ensures r.Err? ==> exists j :: i <= j < |segs| && StepTime(sqrt, path, segs, j) == Err(r.error)
    ensures (r.Ok? && NonNegativeRoot(sqrt) && forall j :: 0 <= j < |segs| ==> segs[j].vel.Some? && segs[j].vel.value > 0.0)
              ==> r.value >= 0.0
    decreases |segs| - i
  {
    if i == |segs| then Ok(0.0)
    else
      var t :- StepTime(sqrt, path, segs, i);
      var rest :- TimeFrom(sqrt, path, segs, i + 1);
      Ok(t + rest)
  }

  /** `estimate_lap_time(track)`: the sum of the suvat times between
      consecutive points of the optimal line, the first line joined to the
      last. */
  function EstimateLapTime(sqrt: SqrtFn, t: Track): (r: Result<real, Failure>)
    ensures (exists i :: 0 <= i < |t.segmentations| && t.segmentations[i].pos.None?) ==> r == Err(TypeError)
    ensures r.Err? <==> (exists i :: 0 <= i < |t.segmentations| && t.segmentations[i].pos.None?)
                        || (exists i :: 0 <= i < |t.segmentations| && StepFails(t.segmentations, i))
    ensures (forall i :: 0 <= i < |t.segmentations| ==> t.segmentations[i].pos.Some? && t.segmentations[i].vel.Some?)
              ==> r != Err(TypeError)
    ensures (NonNegativeRoot(sqrt) && forall i :: 0 <= i < |t.segmentations| ==>
               t.segmentations[i].pos.Some? && t.segmentations[i].vel.Some? && t.segmentations[i].vel.value > 0.0)
              ==> r.Ok? && r.value >= 0.0
  {
    var path :- OptimalPositions(t);
    TimeFrom(sqrt, path, t.segmentations, 0)
  }

  /** Once every line has a position, the lap time is the sum over the optimal path. */
  lemma LapTimeOfPath(sqrt: SqrtFn, t: Track)
    requires OptimalPositions(t).Ok?
    ensures EstimateLapTime(sqrt, t) == TimeFrom(sqrt, OptimalPositions(t).value, t.segmentations, 0)
  {
  }

  /** A track of two lines, as in the repository's test: the car goes from
      one optimal point to the other and back, so the lap is twice the
      distance between them covered at the mean of the two speeds. */
  lemma TwoLineLapTime(sqrt: SqrtFn, a: SegmentationLine, b: SegmentationLine, u: real, w: real)
    requires a.pos.Some? && b.pos.Some? && a.vel == Some(u) && b.vel == Some(w) && u + w != 0.0
    ensures EstimateLapTime(sqrt, Track([a, b]))
            == Ok(4.0 * Distance(sqrt, OptimalPoint(a), OptimalPoint(b)) / (u + w))
  {
    var segs := [a, b];
    var t := Track(segs);
    assert forall i :: 0 <= i < |segs| ==> segs[i].pos.Some?;
    var path := OptimalPositions(t).value;
    assert path[0] == OptimalPoint(a) && path[1] == OptimalPoint(b);
    var d := Distance(sqrt, path[0], path[1]);
    DistanceSymmetric(sqrt, path[0], path[1]);
    var step := 2.0 * d / (u + w);
    assert StepTime(sqrt, path, segs, 0) == Ok(step);
    assert w + u == u + w;
    assert StepTime(sqrt, path, segs, 1) == Ok(step);
    assert TimeFrom(sqrt, path, segs, 2) == Ok(0.0);
    assert TimeFrom(sqrt, path, segs, 1) == Ok(step);
    assert TimeFrom(sqrt, path, segs, 0) == Ok(step + step);
    DoubleQuotient(2.0 * d, u + w);
    LapTimeOfPath(sqrt, t);
  }

  lemma DoubleQuotient(x: real, s: real)
    requires s != 0.0
    ensures x / s + x / s == 2.0 * x / s
  {
  }

  /* ---------------- `evaluate`: comparing a prediction with the truth ---------------- */

  /** The errors of one segmentation line. */
  datatype LineError = LineError(
    velocityDelta: real, velocityPercentage: real, positionDelta: real, positionPercentage: real)

  /** The velocities of a track's lines, in order. */
  function Velocities(t: Track): (r: seq<Option<real>>)
    ensures |r| == |t.segmentations| && forall i :: 0 <= i < |r| ==> r[i] == t.segmentations[i].vel
  {
    seq(|t.segmentations|, i requires 0 <= i < |t.segmentations| => t.segmentations[i].vel)
  }

  /** Iteration `n` of the loop of `evaluate`: the velocity error, as a
      percentage of the spread `hi - lo` of all velocities, and the position
      error, the distance between the two optimal points, negative when the
      prediction lies further to the left. Indexing the prediction fails
      first, then subtracting a missing velocity, then dividing by a zero
      spread. */
  function LineErrorAt(sqrt: SqrtFn, truth: seq<SegmentationLine>, predicted: seq<SegmentationLine>,
                       tPath: seq<Point>, pPath: seq<Point>, lo: Option<real>, hi: Option<real>, n: nat)
    : (r: Result<LineError, Failure>)
    requires n < |truth| && |tPath| == |truth| && |pPath| == |predicted|
    requires truth[n].pos.Some? && (n < |predicted| ==> predicted[n].pos.Some?)
    ensures r == Err(IndexError) <==> n >= |predicted|
    ensures r == Err(TypeError) <==>
              n < |predicted| && (truth[n].vel.None? || predicted[n].vel.None? || lo.None? || hi.None?)
    ensures r == Err(ZeroDivision) <==>
              n < |predicted| && truth[n].vel.Some? && predicted[n].vel.Some? && lo.Some? && hi.Some?
              && hi.value == lo.value
    ensures r.Ok? ==> var e := r.value;
              && predicted[n].vel.value + e.velocityDelta == truth[n].vel.value
              && e.velocityPercentage * (hi.value - lo.value) == Abs(e.velocityDelta) * 100.0
              && (NonNegativeRoot(sqrt) ==> Abs(e.positionDelta) == Distance(sqrt, tPath[n], pPath[n]))
              && e.positionPercentage == Abs(predicted[n].pos.value - truth[n].pos.value) * 100.0
  {
    if n >= |predicted| then Err(IndexError)
    else if truth[n].vel.None? || predicted[n].vel.None? || lo.None? || hi.None? then Err(TypeError)
    else if hi.value - lo.value == 0.0 then Err(ZeroDivision)
    else
      var delta := truth[n].vel.value - predicted[n].vel.value;
      var distance := Distance(sqrt, tPath[n], pPath[n]);
      var tp, pp := truth[n].pos.value, predicted[n].pos.value;
      ScaledQuotient(Abs(delta), hi.value - lo.value);
      Ok(LineError(
        velocityDelta := delta,
        velocityPercentage := Abs(delta) / (hi.value - lo.value) * 100.0,
        positionDelta := if pp < tp then -distance else distance,
        positionPercentage := Abs(pp - tp) * 100.0))
  }

  lemma ScaledQuotient(a: real, s: real)
    requires s != 0.0
    ensures a / s * 100.0 * s == a * 100.0
  {
    assert a / s * s == a;
  }

  /** When both velocities lie within `lo..hi`, the velocity percentage is
      at most 100; the sign of the position error says on which side the
      prediction lies. */
  lemma LineErrorBounds(sqrt: SqrtFn, truth: seq<SegmentationLine>, predicted: seq<SegmentationLine>,
                        tPath: seq<Point>, pPath: seq<Point>, lo: Option<real>, hi: Option<real>, n: nat)
    requires n < |truth| && |tPath| == |truth| && |pPath| == |predicted|
    requires truth[n].pos.Some? && (n < |predicted| ==> predicted[n].pos.Some?)
    requires LineErrorAt(sqrt, truth, predicted, tPath, pPath, lo, hi, n).Ok?
    requires lo.value <= truth[n].vel.value <= hi.value && lo.value <= predicted[n].vel.value <= hi.value
    ensures var e := LineErrorAt(sqrt, truth, predicted, tPath, pPath, lo, hi, n).value;
            0.0 <= e.velocityPercentage <= 100.0
            && (NonNegativeRoot(sqrt) ==>
                  (e.positionDelta < 0.0 ==> predicted[n].pos.value < truth[n].pos.value)
                  && (predicted[n].pos.value < truth[n].pos.value ==> e.positionDelta <= 0.0))
  {
    var delta := truth[n].vel.value - predicted[n].vel.value;
    var spread := hi.value - lo.value;
    assert spread > 0.0;
    assert Abs(delta) <= spread;
    DivMono(Abs(delta), spread, spread);
    assert spread / spread == 1.0;
    if NonNegativeRoot(sqrt) {
      assert Distance(sqrt, tPath[n], pPath[n]) >= 0.0;
    }
  }

  /** The loop of `evaluate` from line `n` on. */
  function LinesFrom(sqrt: SqrtFn, truth: seq<SegmentationLine>, predicted: seq<SegmentationLine>,
                     tPath: seq<Point>, pPath: seq<Point>, lo: Option<real>, hi: Option<real>, n: nat)
    : (r: Result<seq<LineError>, Failure>)
    requires n <= |truth| && |tPath| == |truth| && |pPath| == |predicted|
    requires forall i :: 0 <= i < |truth| ==> truth[i].pos.Some?
    requires forall i :: 0 <= i < |predicted| ==> predicted[i].pos.Some?
    ensures r.Ok? <==> forall j :: n <= j < |truth| ==> LineErrorAt(sqrt, truth, predicted, tPath, pPath, lo, hi, j).Ok?
    ensures r.Err? ==> exists j :: n <= j < |truth| && LineErrorAt(sqrt, truth, predicted, tPath, pPath, lo, hi, j) == Err(r.error)
    ensures r.Ok? ==> |r.value| == |truth| - n
    ensures r.Ok? ==> forall k :: 0 <= k < |r.value| ==>
              r.value[k] == LineErrorAt(sqrt, truth, predicted, tPath, pPath, lo, hi, n + k).value
    decreases |truth| - n
  {
    if n == |truth| then Ok([])
    else
      var e :- LineErrorAt(sqrt, truth, predicted, tPath, pPath, lo, hi, n);
      var rest :- LinesFrom(sqrt, truth, predicted, tPath, pPath, lo, hi, n + 1);
      assert forall k :: 0 < k < |rest| + 1 ==> ([e] + rest)[k] == rest[k - 1];
      Ok([e] + rest)
  }

  function PositionDeltas(lines: seq<LineError>): (r: seq<Option<real>>)
    ensures |r| == |lines| && forall i :: 0 <= i < |r| ==> r[i] == Some(lines[i].positionDelta)
  {
    seq(|lines|, i requires 0 <= i < |lines| => Some(lines[i].positionDelta))
  }

  function PositionPercentages(lines: seq<LineError>): (r: seq<real>)
    ensures |r| == |lines| && forall i :: 0 <= i < |r| ==> r[i] == lines[i].positionPercentage
  {
    seq(|lines|, i requires 0 <= i < |lines| => lines[i].positionPercentage)
  }

  function VelocityDeltas(lines: seq<LineError>): (r: seq<Option<real>>)
    ensures |r| == |lines| && forall i :: 0 <= i < |r| ==> r[i] == Some(lines[i].velocityDelta)
  {
    seq(|lines|, i requires 0 <= i < |lines| => Some(lines[i].velocityDelta))
  }

  function VelocityPercentages(lines: seq<LineError>): (r: seq<real>)
    ensures |r| == |lines| && forall i :: 0 <= i < |r| ==> r[i] == lines[i].velocityPercentage
  {
    seq(|lines|, i requires 0 <= i < |lines| => lines[i].velocityPercentage)
  }

  lemma PositionsPresent(t: Track)
    requires OptimalPositions(t).Ok?
    ensures |OptimalPositions(t).value| == |t.segmentations|
    ensures forall i :: 0 <= i < |t.segmentations| ==> t.segmentations[i].pos.Some?
  {
  }

  /** `min` and then `max` of the velocities of both tracks. */
  function VelocityRange(truth: Track, predicted: Track): (r: Result<(Option<real>, Option<real>), Failure>)
    ensures var all := Velocities(truth) + Velocities(predicted);
            && (r.Ok? <==> PyMin(all).Ok? && PyMax(all).Ok?)
            && (r.Ok? ==> r.value.0 == PyMin(all).value && r.value.1 == PyMax(all).value)
            && (r.Err? ==> r.error == (if PyMin(all).Err? then PyMin(all).error else PyMax(all).error))
  {
    var all := Velocities(truth) + Velocities(predicted);
    var lo :- PyMin(all);
    var hi :- PyMax(all);
    Ok((lo, hi))
  }

  /** With at least two velocities, a successful range bounds every velocity of either track. */
  lemma VelocityRangeBounds(truth: Track, predicted: Track)
    requires VelocityRange(truth, predicted).Ok?
    requires |truth.segmentations| + |predicted.segmentations| >= 2
    ensures var (lo, hi) := VelocityRange(truth, predicted).value;
            lo.Some? && hi.Some?
            && (forall i :: 0 <= i < |truth.segmentations| ==>
                  truth.segmentations[i].vel.Some? && lo.value <= truth.segmentations[i].vel.value <= hi.value)
            && (forall i :: 0 <= i < |predicted.segmentations| ==>
                  predicted.segmentations[i].vel.Some? && lo.value <= predicted.segmentations[i].vel.value <= hi.value)
  {
    var all := Velocities(truth) + Velocities(predicted);
    var t := |truth.segmentations|;
    assert forall i :: 0 <= i < t ==> all[i] == truth.segmentations[i].vel;
    assert forall i :: 0 <= i < |predicted.segmentations| ==> all[t + i] == predicted.segmentations[i].vel;
  }

  /** The optimal lines of both tracks and the loop over the truth's lines. */
  function LineErrors(sqrt: SqrtFn, truth: Track, predicted: Track, lo: Option<real>, hi: Option<real>)
    : (r: Result<seq<LineError>, Failure>)
    ensures r.Ok? ==> OptimalPositions(truth).Ok? && OptimalPositions(predicted).Ok?
    ensures r.Ok? ==> |r.value| == |truth.segmentations|
    ensures r.Ok? && |truth.segmentations| > 0 ==> |truth.segmentations| <= |predicted.segmentations|
    ensures (exists i :: 0 <= i < |truth.segmentations| && truth.segmentations[i].pos.None?) ==> r == Err(TypeError)
  {
    var tPath :- OptimalPositions(truth);
    var pPath :- OptimalPositions(predicted);
    PositionsPresent(truth);
    PositionsPresent(predicted);
    var lines :- LinesFrom(sqrt, truth.segmentations, predicted.segmentations, tPath, pPath, lo, hi, 0);
    assert |truth.segmentations| > 0 ==>
      LineErrorAt(sqrt, truth.segmentations, predicted.segmentations, tPath, pPath, lo, hi, |truth.segmentations| - 1).Ok?;
    Ok(lines)
  }

  /** `evaluate(truth, predicted)`; `angles` are the turning angles of the
      truth's lines that `find_apexes` takes from `extract_features`. */
  function Evaluate(sqrt: SqrtFn, angles: seq<real>, truth: Track, predicted: Track): (r: Result<Evaluation, Failure>)
    ensures r.Ok? ==> Apexes.FindApexes(truth.segmentations, angles).Ok?
                      && r.value.apexes == Apexes.FindApexes(truth.segmentations, angles).value
    ensures r.Ok? ==> EstimateLapTime(sqrt, truth).Ok? && EstimateLapTime(sqrt, predicted).Ok?
                      && r.value.laptime.truth == Some(EstimateLapTime(sqrt, truth).value)
                      && r.value.laptime.predicted == Some(EstimateLapTime(sqrt, predicted).value)
  {
    var (lo, hi) :- VelocityRange(truth, predicted);
    var lines :- LineErrors(sqrt, truth, predicted, lo, hi);
    var apexes :- Apexes.FindApexes(truth.segmentations, angles);
    var lap :- EstimateLapTime(sqrt, truth);
    var predictedLap :- EstimateLapTime(sqrt, predicted);
    EvaluationFrom(sqrt, lap, predictedLap, PositionDeltas(lines), PositionPercentages(lines),
                   VelocityDeltas(lines), VelocityPercentages(lines), apexes)
  }

  /** Line `k` of a successful loop is `LineErrorAt` over the two optimal lines. */
  lemma LineErrorsAt(sqrt: SqrtFn, truth: Track, predicted: Track, lo: Option<real>, hi: Option<real>, k: nat)
    requires LineErrors(sqrt, truth, predicted, lo, hi).Ok? && k < |truth.segmentations|
    ensures OptimalPositions(truth).Ok? && OptimalPositions(predicted).Ok?
    ensures |OptimalPositions(truth).value| == |truth.segmentations|
    ensures |OptimalPositions(predicted).value| == |predicted.segmentations|
    ensures truth.segmentations[k].pos.Some?
    ensures k < |predicted.segmentations| && predicted.segmentations[k].pos.Some?
    ensures LineErrorAt(sqrt, truth.segmentations, predicted.segmentations,
                        OptimalPositions(truth).value, OptimalPositions(predicted).value, lo, hi, k).Ok?
    ensures LineErrors(sqrt, truth, predicted, lo, hi).value[k]
            == LineErrorAt(sqrt, truth.segmentations, predicted.segmentations,
                           OptimalPositions(truth).value, OptimalPositions(predicted).value, lo, hi, k).value
  {
    PositionsPresent(truth);
    PositionsPresent(predicted);
  }

  /** The parts of a successful `evaluate`. */
  lemma EvaluateParts(sqrt: SqrtFn, angles: seq<real>, truth: Track, predicted: Track)
    requires Evaluate(sqrt, angles, truth, predicted).Ok?
    ensures VelocityRange(truth, predicted).Ok?
    ensures var (lo, hi) := VelocityRange(truth, predicted).value;
            && LineErrors(sqrt, truth, predicted, lo, hi).Ok?
            && var lines := LineErrors(sqrt, truth, predicted, lo, hi).value;
               var r := Evaluate(sqrt, angles, truth, predicted).value;
               && ErrorsFrom(sqrt, VelocityDeltas(lines), VelocityPercentages(lines), r.apexes).Ok?
               && r.velocity == ErrorsFrom(sqrt, VelocityDeltas(lines), VelocityPercentages(lines), r.apexes).value
               && ErrorsFrom(sqrt, PositionDeltas(lines), PositionPercentages(lines), r.apexes).Ok?
               && r.position == ErrorsFrom(sqrt, PositionDeltas(lines), PositionPercentages(lines), r.apexes).value
               && LapTimeFromValues(EstimateLapTime(sqrt, truth).value, EstimateLapTime(sqrt, predicted).value).Ok?
               && r.laptime == LapTimeFromValues(EstimateLapTime(sqrt, truth).value, EstimateLapTime(sqrt, predicted).value).value
  {
  }

  /** Every velocity error is at most 100% of the spread of velocities. */
  lemma EvaluateVelocityPercentage(sqrt: SqrtFn, angles: seq<real>, truth: Track, predicted: Track)
    requires Evaluate(sqrt, angles, truth, predicted).Ok?
    ensures var e := Evaluate(sqrt, angles, truth, predicted).value.velocity;
            e.percentageMax.Some? && 0.0 <= e.percentageMax.value <= 100.0
  {
    EvaluateParts(sqrt, angles, truth, predicted);
    var (lo, hi) := VelocityRange(truth, predicted).value;
    var lines := LineErrors(sqrt, truth, predicted, lo, hi).value;
    var r := Evaluate(sqrt, angles, truth, predicted).value;
    var ps := VelocityPercentages(lines);
    ErrorsFromAttained(sqrt, VelocityDeltas(lines), ps, r.apexes);
    var k :| 0 <= k < |ps| && ps[k] == r.velocity.percentageMax.value;
    LineErrorsAt(sqrt, truth, predicted, lo, hi, k);
    VelocityRangeBounds(truth, predicted);
    LineErrorBounds(sqrt, truth.segmentations, predicted.segmentations,
                    OptimalPositions(truth).value, OptimalPositions(predicted).value, lo, hi, k);
  }

  /** A track compared with itself has no velocity error. */
  lemma EvaluateSelfVelocity(sqrt: SqrtFn, angles: seq<real>, t: Track)
    requires Evaluate(sqrt, angles, t, t).Ok? && sqrt(0.0) == 0.0
    ensures Evaluate(sqrt, angles, t, t).value.velocity.max == Some(0.0)
    ensures Evaluate(sqrt, angles, t, t).value.velocity.percentageMax == Some(0.0)
  {
    EvaluateParts(sqrt, angles, t, t);
    var r := Evaluate(sqrt, angles, t, t).value;
    var range := VelocityRange(t, t).value;
    var lines := LineErrors(sqrt, t, t, range.0, range.1).value;
    SelfLines(sqrt, t, range.0, range.1);
    SelfVelocityErrors(sqrt, lines, r.apexes);
  }

  /** A track compared with itself has no position error. */
  lemma EvaluateSelfPosition(sqrt: SqrtFn, angles: seq<real>, t: Track)
    requires Evaluate(sqrt, angles, t, t).Ok? && sqrt(0.0) == 0.0
    ensures Evaluate(sqrt, angles, t, t).value.position.max == Some(0.0)
    ensures Evaluate(sqrt, angles, t, t).value.position.percentageMax == Some(0.0)
  {
    EvaluateParts(sqrt, angles, t, t);
    var r := Evaluate(sqrt, angles, t, t).value;
    var range := VelocityRange(t, t).value;
    var lines := LineErrors(sqrt, t, t, range.0, range.1).value;
    SelfLines(sqrt, t, range.0, range.1);
    SelfPositionErrors(sqrt, lines, r.apexes);
  }

  /** A track compared with itself has no lap-time error. */
  lemma EvaluateSelfLapTime(sqrt: SqrtFn, angles: seq<real>, t: Track)
    requires Evaluate(sqrt, angles, t, t).Ok?
    ensures Evaluate(sqrt, angles, t, t).value.laptime.error == Some(0.0)
    ensures Evaluate(sqrt, angles, t, t).value.laptime.absError == Some(0.0)
  {
    EvaluateParts(sqrt, angles, t, t);
  }

  /** Every line of a track compared with itself has zero errors. */
  lemma SelfLines(sqrt: SqrtFn, t: Track, lo: Option<real>, hi: Option<real>)
    requires LineErrors(sqrt, t, t, lo, hi).Ok? && sqrt(0.0) == 0.0
    ensures forall k :: 0 <= k < |LineErrors(sqrt, t, t, lo, hi).value| ==>
              LineErrors(sqrt, t, t, lo, hi).value[k] == LineError(0.0, 0.0, 0.0, 0.0)
  {
    var lines := LineErrors(sqrt, t, t, lo, hi).value;
    forall k | 0 <= k < |lines|
      ensures lines[k] == LineError(0.0, 0.0, 0.0, 0.0)
    {
      LineErrorsAt(sqrt, t, t, lo, hi, k);
      var p := OptimalPositions(t).value[k];
      assert SquaredDistance(p, p) == 0.0;
    }
  }

  lemma SelfVelocityErrors(sqrt: SqrtFn, lines: seq<LineError>, apexes: seq<int>)
    requires forall k :: 0 <= k < |lines| ==> lines[k] == LineError(0.0, 0.0, 0.0, 0.0)
    requires ErrorsFrom(sqrt, VelocityDeltas(lines), VelocityPercentages(lines), apexes).Ok?
    ensures ErrorsFrom(sqrt, VelocityDeltas(lines), VelocityPercentages(lines), apexes).value.max == Some(0.0)
    ensures ErrorsFrom(sqrt, VelocityDeltas(lines), VelocityPercentages(lines), apexes).value.percentageMax == Some(0.0)
  {
    SelfErrors(sqrt, VelocityDeltas(lines), VelocityPercentages(lines), apexes);
  }

  lemma SelfPositionErrors(sqrt: SqrtFn, lines: seq<LineError>, apexes: seq<int>)
    requires forall k :: 0 <= k < |lines| ==> lines[k] == LineError(0.0, 0.0, 0.0, 0.0)
    requires ErrorsFrom(sqrt, PositionDeltas(lines), PositionPercentages(lines), apexes).Ok?
    ensures ErrorsFrom(sqrt, PositionDeltas(lines), PositionPercentages(lines), apexes).value.max == Some(0.0)
    ensures ErrorsFrom(sqrt, PositionDeltas(lines), PositionPercentages(lines), apexes).value.percentageMax == Some(0.0)
  {
    SelfErrors(sqrt, PositionDeltas(lines), PositionPercentages(lines), apexes);
  }

  /** All-zero errors have a zero maximum and a zero maximum percentage. */
  lemma SelfErrors(sqrt: SqrtFn, deltas: seq<Option<real>>, percentages: seq<real>, apexes: seq<int>)
    requires ErrorsFrom(sqrt, deltas, percentages, apexes).Ok?
    requires forall i :: 0 <= i < |deltas| ==> deltas[i] == Some(0.0)
    requires forall i :: 0 <= i < |percentages| ==> percentages[i] == 0.0
    ensures ErrorsFrom(sqrt, deltas, percentages, apexes).value.max == Some(0.0)
    ensures ErrorsFrom(sqrt, deltas, percentages, apexes).value.percentageMax == Some(0.0)
  {
    ErrorsFromAttained(sqrt, deltas, percentages, apexes);
    PresentMember(deltas);
  }

  /** Comparing a complete track with an empty prediction fails on the first
      line, indexing the prediction. */
  lemma EvaluateEmptyPrediction(sqrt: SqrtFn, angles: seq<real>, truth: Track, predicted: Track)
    requires |predicted.segmentations| == 0 < |truth.segmentations|
    requires forall i :: 0 <= i < |truth.segmentations| ==>
               truth.segmentations[i].vel.Some? && truth.segmentations[i].pos.Some?
    ensures Evaluate(sqrt, angles, truth, predicted) == Err(IndexError)
  {
    var all := Velocities(truth) + Velocities(predicted);
    assert forall i :: 0 <= i < |all| ==> all[i].Some?;
    assert VelocityRange(truth, predicted).Ok?;
    var range := VelocityRange(truth, predicted).value;
    assert OptimalPositions(truth).Ok? && OptimalPositions(predicted).Ok?;
    PositionsPresent(truth);
    assert LineErrorAt(sqrt, truth.segmentations, predicted.segmentations, OptimalPositions(truth).value,
                       OptimalPositions(predicted).value, range.0, range.1, 0) == Err(IndexError);
    assert LineErrors(sqrt, truth, predicted, range.0, range.1) == Err(IndexError);
  }
}
