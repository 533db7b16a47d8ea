/** The training logger (`toolkit.utils.logger.training_logger`): per-epoch
    loss accumulators, the best validation loss with its callback, and the
    `History` of epoch means.

    Printing is not modelled. A mean of no values is numpy's NaN, written
    `None`; a best loss of `None` is the initial +infinity. The callback
    itself is outside the model: `Flush` reports whether it is called. */
module TrainingLogger {
  import opened Wrappers
  import opened Functional

  datatype LogError =
    | AssertionError          // `History.write` with a method other than 'train' or 'val'
    | IndexError              // more losses than labels
    | KeyError(key: string)   // a label without an accumulator
    | ZeroDivision            // `log_every` of 0

  /* ---------------- History ---------------- */

  /** Every value written, per label, for training and for validation. */
  datatype History = History(training: map<string, seq<Option<real>>>, validation: map<string, seq<Option<real>>>)

  function EmptyHistory(): History {
    History(map[], map[])
  }

  /** The values of `name` so far, none if it was never written. */
  function Entries(m: map<string, seq<Option<real>>>, name: string): seq<Option<real>> {
    if name in m then m[name] else []
  }

  /** `History.write(method, label, value)`: the value goes to the end of
      the label's list in the training or the validation dictionary; any
      other method fails the assertion. */
  function HistoryWrite(h: History, mode: string, name: string, value: Option<real>): (r: Result<History, LogError>)
    ensures r.Err? <==> mode != "train" && mode != "val"
    ensures r.Err? ==> r.error == AssertionError
    ensures r.Ok? ==> forall k :: (Entries(r.value.training, k)
                      == Entries(h.training, k) + (if mode == "train" && k == name then [value] else []))
    ensures r.Ok? ==> forall k :: (Entries(r.value.validation, k)
                      == Entries(h.validation, k) + (if mode == "val" && k == name then [value] else []))
    ensures r.Ok? && mode == "train" ==> r.value.training.Keys == h.training.Keys + {name}
                                           && r.value.validation == h.validation
    ensures r.Ok? && mode == "val" ==> r.value.validation.Keys == h.validation.Keys + {name}
                                         && r.value.training == h.training
  {
    if mode != "train" && mode != "val" then Err(AssertionError)
    else if mode == "train" then Ok(h.(training := h.training[name := Entries(h.training, name) + [value]]))
    else Ok(h.(validation := h.validation[name := Entries(h.validation, name) + [value]]))
  }

  /** Writing several values one after another. */
  function HistoryWriteAll(h: History, mode: string, name: string, values: seq<Option<real>>): (r: Result<History, LogError>)
    decreases |values|
  {
    if |values| == 0 then Ok(h)
    else
      var h' :- HistoryWrite(h, mode, name, values[0]);
      HistoryWriteAll(h', mode, name, values[1..])
  }

  /** Values are kept in the order they were written, and other labels and
      the other dictionary are untouched. */
  lemma {:induction false} HistoryKeepsOrder(h: History, name: string, values: seq<Option<real>>, k: string)
    ensures HistoryWriteAll(h, "train", name, values).Ok?
    ensures Entries(HistoryWriteAll(h, "train", name, values).value.training, k)
            == Entries(h.training, k) + (if k == name then values else [])
    ensures HistoryWriteAll(h, "train", name, values).value.validation == h.validation
    decreases |values|
  {
    if |values| > 0 {
      var h' := HistoryWrite(h, "train", name, values[0]).value;
      HistoryKeepsOrder(h', name, values[1..], k);
      assert values == [values[0]] + values[1..];
    }
  }

  /* ---------------- Logger ---------------- */

  /** The logger's state; `best` is None while it is still +infinity. */
  datatype Logger = Logger(
    labels: seq<string>, nPartitions: int, logEvery: int, history: History,
    avgLoss: map<string, seq<real>>, avgValLoss: map<string, seq<real>>,
    best: Option<real>, hasCallback: bool)

  /** The state every public operation keeps: an accumulator for each label
      and nothing else. */
  predicate Valid(l: Logger) {
    |l.labels| > 0
    && (forall k :: k in l.avgLoss ==> k in l.labels) && (forall k :: k in l.labels ==> k in l.avgLoss)
    && (forall k :: k in l.avgValLoss ==> k in l.labels) && (forall k :: k in l.labels ==> k in l.avgValLoss)
  }

  /** An empty accumulator for every label. */
  function Accumulators(labels: seq<string>): (r: map<string, seq<real>>)
    ensures forall k :: k in r <==> k in labels
    ensures forall k :: k in r ==> r[k] == []
  {
    map k | k in labels :: []
  }

  /** `_reset`: the accumulators of the epoch are emptied. */
  function Reset(l: Logger): (r: Logger)
    ensures |l.labels| > 0 ==> Valid(r)
    ensures forall k :: k in l.labels ==> k in r.avgLoss && r.avgLoss[k] == [] && k in r.avgValLoss && r.avgValLoss[k] == []
    ensures r.history == l.history && r.best == l.best && r.labels == l.labels
  {
    l.(avgLoss := Accumulators(l.labels), avgValLoss := Accumulators(l.labels))
  }

  /** `Logger(labels, n_partitions, log_every)`: no labels (None or an empty
      list) means the single label 'Loss'; the best loss starts at +infinity. */
  function NewLogger(labels: Option<seq<string>>, nPartitions: int, logEvery: int): (r: Logger)
    ensures Valid(r)
    ensures r.labels == if labels.None? || |labels.value| == 0 then ["Loss"] else labels.value
    ensures r.best.None? && !r.hasCallback && r.history == EmptyHistory()
    ensures forall k :: k in r.labels ==> r.avgLoss[k] == [] && r.avgValLoss[k] == []
  {
    var ls := if labels.None? || |labels.value| == 0 then ["Loss"] else labels.value;
    Reset(Logger(ls, nPartitions, logEvery, EmptyHistory(), map[], map[], None, false))
  }

  /** `set_best_val_loss_callback`. */
  function SetCallback(l: Logger): (r: Logger)
    ensures Valid(l) ==> Valid(r)
    ensures r.hasCallback
  {
    l.(hasCallback := true)
  }

  /** The losses of `losses[i..]` whose label is `k`, in order. */
  function LossesFor(labels: seq<string>, losses: seq<real>, k: string, i: nat): (r: seq<real>)
    requires i <= |losses|
    ensures |r| <= |losses| - i
    decreases |losses| - i
  {
    if i == |losses| then []
    else (if i < |labels| && labels[i] == k then [losses[i]] else []) + LossesFor(labels, losses, k, i + 1)
  }

  /** The loop `for i, l in enumerate(losses): acc[labels[i]].append(l)` from `i` on. */
  function AppendLosses(acc: map<string, seq<real>>, labels: seq<string>, losses: seq<real>, i: nat)
    : (r: Result<map<string, seq<real>>, LogError>)
    requires i <= |losses|
    ensures r.Ok? <==> (i < |losses| ==> |losses| <= |labels|)
                       && forall j :: i <= j < |losses| && j < |labels| ==> labels[j] in acc
    ensures r.Err? ==> r.error == IndexError || r.error.KeyError?
    ensures r.Err? && (forall j :: i <= j < |labels| ==> labels[j] in acc) ==> r.error == IndexError
    ensures r.Ok? ==> r.value.Keys == acc.Keys
    decreases |losses| - i
  {
    if i == |losses| then Ok(acc)
    else if i >= |labels| then Err(IndexError)
    else if labels[i] !in acc then Err(KeyError(labels[i]))
    else AppendLosses(acc[labels[i] := acc[labels[i]] + [losses[i]]], labels, losses, i + 1)
  }

  /** Each loss is appended to the accumulator of its label, in order. */
  lemma {:induction false} AppendLossesValues(acc: map<string, seq<real>>, labels: seq<string>, losses: seq<real>, i: nat, k: string)
    requires i <= |losses| && AppendLosses(acc, labels, losses, i).Ok? && k in acc
    ensures k in AppendLosses(acc, labels, losses, i).value
    ensures AppendLosses(acc, labels, losses, i).value[k] == acc[k] + LossesFor(labels, losses, k, i)
    decreases |losses| - i
  {
    if i < |losses| {
      var acc' := acc[labels[i] := acc[labels[i]] + [losses[i]]];
      AppendLossesValues(acc', labels, losses, i + 1, k);
      var here := if labels[i] == k then [losses[i]] else [];
      assert acc'[k] == acc[k] + here;
      assert LossesFor(labels, losses, k, i) == here + LossesFor(labels, losses, k, i + 1);
    }
  }

  /** `write` (training) and `write_val` (validation): every loss goes to
      the accumulator of the label at its position; then `(batch + 1) %
      log_every` fails when `log_every` is 0. */
  function Write(l: Logger, losses: seq<real>, validation: bool): (r: Result<Logger, LogError>)
    ensures Valid(l) ==> (r.Ok? <==> |losses| <= |l.labels| && l.logEvery != 0)
    ensures Valid(l) && r.Err? ==> r.error == (if |losses| > |l.labels| then IndexError else ZeroDivision)
    ensures r.Ok? ==> Valid(l) == Valid(r.value)
    ensures r.Ok? ==> r.value.labels == l.labels && r.value.history == l.history && r.value.best == l.best
    ensures r.Ok? && validation ==> r.value.avgLoss == l.avgLoss
    ensures r.Ok? && !validation ==> r.value.avgValLoss == l.avgValLoss
  {
    var acc :- AppendLosses(if validation then l.avgValLoss else l.avgLoss, l.labels, losses, 0);
    if l.logEvery == 0 then Err(ZeroDivision)
    else if validation then Ok(l.(avgValLoss := acc))
    else Ok(l.(avgLoss := acc))
  }

  /** After a write every label's accumulator has gained exactly the losses
      at that label's positions, in order. */
  lemma WriteAppends(l: Logger, losses: seq<real>, validation: bool, k: string)
    requires Valid(l) && Write(l, losses, validation).Ok? && k in l.labels
    ensures var acc := if validation then l.avgValLoss else l.avgLoss;
            var acc' := if validation then Write(l, losses, validation).value.avgValLoss
                        else Write(l, losses, validation).value.avgLoss;
            k in acc' && acc'[k] == acc[k] + LossesFor(l.labels, losses, k, 0)
  {
    AppendLossesValues(if validation then l.avgValLoss else l.avgLoss, l.labels, losses, 0, k);
  }

  /** With distinct labels, one write adds one loss per label written. */
  lemma WriteOnePerLabel(labels: seq<string>, losses: seq<real>, j: nat)
    requires Distinct(labels) && j < |losses| <= |labels|
    ensures LossesFor(labels, losses, labels[j], 0) == [losses[j]]
  {
    LossesForDistinct(labels, losses, j, 0);
  }

  lemma {:induction false} LossesForDistinct(labels: seq<string>, losses: seq<real>, j: nat, i: nat)
    requires Distinct(labels) && j < |losses| <= |labels| && i <= |losses|
    ensures LossesFor(labels, losses, labels[j], i) == if i <= j then [losses[j]] else []
    decreases |losses| - i
  {
    if i < |losses| {
      LossesForDistinct(labels, losses, j, i + 1);
    }
  }

  /** No label repeats. */
  predicate Distinct(s: seq<string>) {
    forall a, b :: 0 <= a < b < |s| ==> s[a] != s[b]
  }

  /** The keys of `{label: [] for label in labels}` in dictionary order:
      each label at its first occurrence. */
  function Unique(s: seq<string>): (r: seq<string>)
    ensures Distinct(r)
    ensures forall k :: k in r <==> k in s
  {
    if |s| == 0 then []
    else
      var u := Unique(s[..|s| - 1]);
      assert forall k :: k in s <==> k in s[..|s| - 1] || k == s[|s| - 1];
      if s[|s| - 1] in u then u else u + [s[|s| - 1]]
  }

  /** `sum(np.mean(x) for x in avg_val_loss.values())`, NaN (None) as soon
      as one accumulator is empty. */
  function TotalMean(acc: map<string, seq<real>>, keys: seq<string>): (r: Option<real>)
    requires forall k :: k in keys ==> k in acc
    ensures r.Some? <==> forall k :: k in keys ==> |acc[k]| > 0
  {
    if |keys| == 0 then Some(0.0)
    else
      var rest := TotalMean(acc, keys[1..]);
      assert forall k :: k in keys ==> k == keys[0] || k in keys[1..];
      match Mean(acc[keys[0]])
      case None => None
      case Some(m) => if rest.None? then None else Some(m + rest.value)
  }

  /** `total < best_val_loss`, with +infinity for no best yet and a false
      comparison for NaN. */
  predicate Improves(total: Option<real>, best: Option<real>) {
    total.Some? && (best.None? || total.value < best.value)
  }

  /** The validation total of the epoch, if the validation dictionary is
      non-empty. */
  function EpochTotal(l: Logger): Option<real>
    requires Valid(l)
  {
    if |l.avgValLoss| == 0 then None else TotalMean(l.avgValLoss, Unique(l.labels))
  }

  /** The loop that writes each label's training mean and then its
      validation mean to the history, from position `i` on. */
  function FlushHistory(h: History, labels: seq<string>, acc: map<string, seq<real>>, vacc: map<string, seq<real>>, i: nat)
    : (r: History)
    requires i <= |labels|
    requires forall k :: k in labels ==> k in acc && k in vacc
    decreases |labels| - i
  {
    if i == |labels| then h
    else FlushHistory(WriteMeans(h, labels[i], Mean(acc[labels[i]]), Mean(vacc[labels[i]])), labels, acc, vacc, i + 1)
  }

  /** One label's step of the loop: its training mean, then its validation
      mean. */
  function WriteMeans(h: History, name: string, train: Option<real>, val: Option<real>): (r: History)
    ensures forall k :: Entries(r.training, k) == Entries(h.training, k) + (if k == name then [train] else [])
    ensures forall k :: Entries(r.validation, k) == Entries(h.validation, k) + (if k == name then [val] else [])
  {
    History(h.training[name := Entries(h.training, name) + [train]],
            h.validation[name := Entries(h.validation, name) + [val]])
  }

  /** How often `k` occurs in `labels[i..]`. */
  function Count(labels: seq<string>, k: string, i: nat): (n: nat)
    requires i <= |labels|
    ensures n <= |labels| - i
    decreases |labels| - i
  {
    if i == |labels| then 0
    else
      (if labels[i] == k then 1 else 0) + Count(labels, k, i + 1)
  }

  /** The epoch mean of `k`'s accumulator, NaN for a label without one. */
  function MeanOf(acc: map<string, seq<real>>, k: string): Option<real> {
    if k in acc then Mean(acc[k]) else None
  }

  /** Unfolding one step of the history loop. */
  lemma FlushHistoryStep(h: History, labels: seq<string>, acc: map<string, seq<real>>, vacc: map<string, seq<real>>, i: nat)
    requires i < |labels|
    requires forall k :: k in labels ==> k in acc && k in vacc
    ensures FlushHistory(h, labels, acc, vacc, i)
            == FlushHistory(WriteMeans(h, labels[i], Mean(acc[labels[i]]), Mean(vacc[labels[i]])), labels, acc, vacc, i + 1)
  {
  }

  lemma CountStep(labels: seq<string>, k: string, i: nat)
    requires i < |labels|
    ensures Count(labels, k, i) == Count(labels, k, i + 1) + (if labels[i] == k then 1 else 0)
  {
  }

  /** Appending one value (or none) and then `c` copies of it is appending
      the copies. */
  lemma AppendStep(e: seq<Option<real>>, e2: seq<Option<real>>, e3: seq<Option<real>>, hit: bool, v: Option<real>, c: nat)
    requires e2 == e + (if hit then [v] else [])
    requires e3 == e2 + Fill(v, c)
    ensures e3 == e + Fill(v, c + (if hit then 1 else 0))
  {
    if hit {
      assert Fill(v, c + 1) == [v] + Fill(v, c);
    }
  }

  /** Every label's training history grows by its epoch mean, once per
      occurrence of the label, and a label of no logger is not written. */
  lemma {:induction false} FlushHistoryTraining(h: History, labels: seq<string>, acc: map<string, seq<real>>,
                                                vacc: map<string, seq<real>>, i: nat, k: string)
    requires i <= |labels|
    requires forall k :: k in labels ==> k in acc && k in vacc
    ensures Entries(FlushHistory(h, labels, acc, vacc, i).training, k)
            == Entries(h.training, k) + Fill(MeanOf(acc, k), Count(labels, k, i))
    decreases |labels| - i
  {
    if i < |labels| {
      var x := labels[i];
      var h2 := WriteMeans(h, x, Mean(acc[x]), Mean(vacc[x]));
      FlushHistoryStep(h, labels, acc, vacc, i);
      FlushHistoryTraining(h2, labels, acc, vacc, i + 1, k);
      CountStep(labels, k, i);
      AppendStep(Entries(h.training, k), Entries(h2.training, k), Entries(FlushHistory(h2, labels, acc, vacc, i + 1).training, k),
                 x == k, MeanOf(acc, k), Count(labels, k, i + 1));
    }
  }

  /** The same for the validation history. */
  lemma {:induction false} FlushHistoryValidation(h: History, labels: seq<string>, acc: map<string, seq<real>>,
                                                  vacc: map<string, seq<real>>, i: nat, k: string)
    requires i <= |labels|
    requires forall k :: k in labels ==> k in acc && k in vacc
    ensures Entries(FlushHistory(h, labels, acc, vacc, i).validation, k)
            == Entries(h.validation, k) + Fill(MeanOf(vacc, k), Count(labels, k, i))
    decreases |labels| - i
  {
    if i < |labels| {
      var x := labels[i];
      var h2 := WriteMeans(h, x, Mean(acc[x]), Mean(vacc[x]));
      FlushHistoryStep(h, labels, acc, vacc, i);
      FlushHistoryValidation(h2, labels, acc, vacc, i + 1, k);
      CountStep(labels, k, i);
      AppendStep(Entries(h.validation, k), Entries(h2.validation, k), Entries(FlushHistory(h2, labels, acc, vacc, i + 1).validation, k),
                 x == k, MeanOf(vacc, k), Count(labels, k, i + 1));
    }
  }

  /** With distinct labels each label occurs once, so it gets exactly one
      value in each dictionary. */
  lemma {:induction false} CountDistinct(labels: seq<string>, j: nat, i: nat)
    requires Distinct(labels) && j < |labels| && i <= |labels|
    ensures Count(labels, labels[j], i) == if i <= j then 1 else 0
    decreases |labels| - i
  {
    if i < |labels| {
      CountDistinct(labels, j, i + 1);
    }
  }

  /** `flush`: a strictly lower validation total becomes the best loss (and
      fires the callback, if one is set); the epoch means go to the history
      and the accumulators are emptied. The flag says whether the callback
      was called. */
  function Flush(l: Logger): (r: (Logger, bool))
    requires Valid(l)
    ensures Valid(r.0) && r.0.labels == l.labels && r.0.hasCallback == l.hasCallback
    ensures r.1 <==> l.hasCallback && Improves(EpochTotal(l), l.best)
    ensures r.0.best == if Improves(EpochTotal(l), l.best) then EpochTotal(l) else l.best
    ensures forall k :: k in l.labels ==> r.0.avgLoss[k] == [] && r.0.avgValLoss[k] == []
    ensures r.0.history == FlushHistory(l.history, l.labels, l.avgLoss, l.avgValLoss, 0)
  {
    var total := EpochTotal(l);
    var best := if Improves(total, l.best) then total else l.best;
    var h := FlushHistory(l.history, l.labels, l.avgLoss, l.avgValLoss, 0);
    (Reset(l.(history := h, best := best)), Improves(total, l.best) && l.hasCallback)
  }

  /** One step of the history loop is the two `History.write` calls. */
  lemma WriteMeansIsTwoWrites(h: History, name: string, train: Option<real>, val: Option<real>)
    ensures HistoryWrite(h, "train", name, train).Ok?
    ensures HistoryWrite(HistoryWrite(h, "train", name, train).value, "val", name, val).Ok?
    ensures WriteMeans(h, name, train, val) == HistoryWrite(HistoryWrite(h, "train", name, train).value, "val", name, val).value
  {
  }

  /** A label that occurs nowhere from `i` on is counted 0 times. */
  lemma {:induction false} CountAbsent(labels: seq<string>, k: string, i: nat)
    requires i <= |labels| && forall j :: i <= j < |labels| ==> labels[j] != k
    ensures Count(labels, k, i) == 0
    decreases |labels| - i
  {
    if i < |labels| {
      CountAbsent(labels, k, i + 1);
    }
  }

  /** With distinct labels, a flush appends each label's training and
      validation means to its history once. */
  lemma FlushWritesMeans(l: Logger, k: string)
    requires Valid(l) && Distinct(l.labels) && k in l.labels
    ensures Entries(Flush(l).0.history.training, k) == Entries(l.history.training, k) + [Mean(l.avgLoss[k])]
    ensures Entries(Flush(l).0.history.validation, k) == Entries(l.history.validation, k) + [Mean(l.avgValLoss[k])]
  {
    FlushHistoryTraining(l.history, l.labels, l.avgLoss, l.avgValLoss, 0, k);
    FlushHistoryValidation(l.history, l.labels, l.avgLoss, l.avgValLoss, 0, k);
    var j :| 0 <= j < |l.labels| && l.labels[j] == k;
    CountDistinct(l.labels, j, 0);
    assert Fill(MeanOf(l.avgLoss, k), 1) == [Mean(l.avgLoss[k])];
    assert Fill(MeanOf(l.avgValLoss, k), 1) == [Mean(l.avgValLoss[k])];
  }

  /** A flush leaves the history of every name that is not a label alone. */
  lemma FlushLeavesOthers(l: Logger, k: string)
    requires Valid(l) && k !in l.labels
    ensures Entries(Flush(l).0.history.training, k) == Entries(l.history.training, k)
    ensures Entries(Flush(l).0.history.validation, k) == Entries(l.history.validation, k)
  {
    FlushHistoryTraining(l.history, l.labels, l.avgLoss, l.avgValLoss, 0, k);
    FlushHistoryValidation(l.history, l.labels, l.avgLoss, l.avgValLoss, 0, k);
    CountAbsent(l.labels, k, 0);
    assert Fill(MeanOf(l.avgLoss, k), 0) == [];
    assert Fill(MeanOf(l.avgValLoss, k), 0) == [];
  }

  /** The best loss never rises, and it is set once a total exists. */
  lemma FlushBestMonotone(l: Logger)
    requires Valid(l)
    ensures l.best.Some? ==> Flush(l).0.best.Some? && Flush(l).0.best.value <= l.best.value
    ensures EpochTotal(l).Some? ==> Flush(l).0.best.Some? && Flush(l).0.best.value <= EpochTotal(l).value
  {
  }
}
