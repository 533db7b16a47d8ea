/** Bulk encoding: inputs dealt round-robin into partition groups, encoded
    batch by batch, and each group combined into one partition. The process
    pool only changes where each `encode` runs, not its result or the order
    of the results, so the model encodes sequentially. */
module ParallelEncoder {
  import opened Wrappers
  import opened Functional
  import opened Geometry
  import opened Encoder

  /* ---------------- round-robin grouping ---------------- */

  /** Deals `items` into `n` groups: item `k` is appended to group `k % n`. */
  function Distribute<T>(items: seq<T>, n: nat): (r: seq<seq<T>>)
    requires n >= 1
    ensures |r| == n
  {
    if |items| == 0 then Fill([], n)
    else
      var groups := Distribute(items[..|items| - 1], n);
      var g := (|items| - 1) % n;
      groups[g := groups[g] + [items[|items| - 1]]]
  }

  /** Group `g` holds exactly the items at `g, g + n, g + 2n, ...`, in that
      order: entry `j` is `items[g + j * n]`, and the group stops at the
      first such index past the end. */
  ghost predicate GroupDealt<T>(items: seq<T>, n: nat, g: int, row: seq<T>) {
    && g + |row| * n >= |items|
    && forall j :: 0 <= j < |row| ==> 0 <= g + j * n < |items| && row[j] == items[g + j * n]
  }

  /** Every group is dealt its items. */
  ghost predicate DealtInto<T>(items: seq<T>, n: nat, groups: seq<seq<T>>)
    requires n >= 1 && |groups| == n
  {
    forall g :: 0 <= g < n ==> GroupDealt(items, n, g, groups[g])
  }

  lemma {:induction false} DistributeDeals<T>(items: seq<T>, n: nat)
    requires n >= 1
    ensures DealtInto(items, n, Distribute(items, n))
    decreases |items|
  {
    if |items| > 0 {
      var last := |items| - 1;
      var before := Distribute(items[..last], n);
      DistributeDeals(items[..last], n);
      var groups := Distribute(items, n);
      assert groups == before[last % n := before[last % n] + [items[last]]];
      forall g | 0 <= g < n
        ensures GroupDealt(items, n, g, groups[g])
      {
        assert GroupDealt(items[..last], n, g, before[g]);
        GroupOfPrefix(items, n, g, before[g]);
        if g == last % n {
          DealtLast(items, n, before[g], g);
        } else {
          DealtOther(|items|, n, |before[g]|, g);
        }
      }
    }
  }

  /** A group dealt from all but the last item, restated over the whole list. */
  lemma GroupOfPrefix<T>(items: seq<T>, n: nat, g: int, row: seq<T>)
    requires |items| > 0 && GroupDealt(items[..|items| - 1], n, g, row)
    ensures g + |row| * n >= |items| - 1
    ensures forall j :: 0 <= j < |row| ==> 0 <= g + j * n < |items| - 1 && row[j] == items[g + j * n]
  {
    var init := items[..|items| - 1];
    forall j | 0 <= j < |row|
      ensures 0 <= g + j * n < |items| - 1 && row[j] == items[g + j * n]
    {
      assert row[j] == init[g + j * n];
    }
  }

  /** The group that receives the new last item: it held the `q` items
      before it, and the new item lands at place `q`. */
  lemma DealtLast<T>(items: seq<T>, n: nat, row: seq<T>, g: int)
    requires n >= 1 && |items| > 0 && g == (|items| - 1) % n
    requires g + |row| * n >= |items| - 1
    requires forall j :: 0 <= j < |row| ==> 0 <= g + j * n < |items| - 1 && row[j] == items[g + j * n]
    ensures GroupDealt(items, n, g, row + [items[|items| - 1]])
  {
    var last := |items| - 1;
    var q := last / n;
    assert last == g + q * n;
    var m := |row|;
    if m > 0 {
      assert g + (m - 1) * n < last;
    }
    assert m == q by { CountFromBounds(g, m, n, last); CountOfLast(g, q, n); }
    var grown := row + [items[last]];
    assert g + |grown| * n >= |items| by {
      assert (m + 1) * n == m * n + n;
    }
    forall j | 0 <= j < |grown|
      ensures 0 <= g + j * n < |items| && grown[j] == items[g + j * n]
    {
      if j == m {
        assert g + j * n == last;
        assert grown[j] == items[last];
      } else {
        assert g + j * n < last && grown[j] == row[j];
      }
    }
  }

  /** A group that does not receive the new item already reaches past it. */
  lemma DealtOther(len: int, n: nat, m: int, g: int)
    requires n >= 1 && len > 0 && 0 <= g < n && g != (len - 1) % n && m >= 0
    requires g + m * n >= len - 1
    ensures g + m * n >= len
  {
    ModUnique(g + m * n, n, m, g);
  }

  /** The size of a group pinned down by where its items sit. */
  lemma CountFromBounds(g: int, m: int, n: int, len: int)
    requires 0 <= g < n && 0 <= m && 0 <= len
    requires g + m * n >= len
    requires m > 0 ==> g + (m - 1) * n < len
    ensures m == if len <= g then 0 else (len - g + n - 1) / n
  {
    if m > 0 {
      assert (m - 1) * n == m * n - n;
      var c := len - g + n - 1;
      ModUnique(c, n, m, c - m * n);
    }
  }

  lemma CountOfLast(g: int, q: int, n: int)
    requires 0 <= g < n && 0 <= q
    ensures q == if g + q * n <= g then 0 else (g + q * n - g + n - 1) / n
  {
    ModUnique(q * n + n - 1, n, q, n - 1);
    if q > 0 {
      MulAtLeast(q, n);
    }
  }

  /** The closed form: group `g` of `len` dealt items has
      `ceil((len - g) / n)` entries. */
  lemma DistributeSizes<T>(items: seq<T>, n: nat, g: int)
    requires n >= 1 && 0 <= g < n
    ensures |Distribute(items, n)[g]| == if |items| <= g then 0 else (|items| - g + n - 1) / n
  {
    var groups := Distribute(items, n);
    DistributeDeals(items, n);
    var m := |groups[g]|;
    if m > 0 {
      assert g + (m - 1) * n < |items|;
    }
    CountFromBounds(g, m, n, |items|);
  }

  /** Sizes are balanced: earlier groups are never smaller, and no group
      holds more than one item more than a later one. */
  lemma DistributeBalanced<T>(items: seq<T>, n: nat, g1: int, g2: int)
    requires n >= 1 && 0 <= g1 < g2 < n
    ensures |Distribute(items, n)[g2]| <= |Distribute(items, n)[g1]| <= |Distribute(items, n)[g2]| + 1
  {
    DistributeSizes(items, n, g1);
    DistributeSizes(items, n, g2);
    var len := |items|;
    if len > g2 {
      DivBalanced(len - g2 + n - 1, len - g1 + n - 1, n);
    } else if len > g1 {
      assert (len - g1 + n - 1) / n == 1 by {
        ModUnique(len - g1 + n - 1, n, 1, len - g1 - 1);
      }
    }
  }

  /** Quotients of numerators less than `n` apart differ by at most one. */
  lemma DivBalanced(a: int, b: int, n: int)
    requires 0 <= a <= b < a + n && n >= 1
    ensures a / n <= b / n <= a / n + 1
  {
    var q := a / n;
    var r := a % n;
    assert a == q * n + r;
    if b - q * n < n {
      ModUnique(b, n, q, b - q * n);
    } else {
      ModUnique(b, n, q + 1, b - q * n - n);
    }
  }

  /** Dealing loses and invents nothing: the groups together are a
      permutation of the items. */
  lemma {:induction false} DistributePermutes<T>(items: seq<T>, n: nat)
    requires n >= 1
    ensures multiset(Flatten(Distribute(items, n))) == multiset(items)
    decreases |items|
  {
    if |items| == 0 {
      FlattenEmpties<T>(n);
    } else {
      var last := |items| - 1;
      DistributePermutes(items[..last], n);
      FlattenSnocInto(Distribute(items[..last], n), last % n, items[last]);
      assert items == items[..last] + [items[last]];
    }
  }

  lemma {:induction false} FlattenEmpties<T>(n: nat)
    ensures Flatten(Fill<seq<T>>([], n)) == []
  {
    if n > 0 {
      assert Fill<seq<T>>([], n)[..n - 1] == Fill<seq<T>>([], n - 1);
      FlattenEmpties<T>(n - 1);
    }
  }

  /** Appending one item to one row adds exactly that item to the
      flattened multiset. */
  lemma {:induction false} FlattenSnocInto<T>(rows: seq<seq<T>>, g: int, x: T)
    requires 0 <= g < |rows|
    ensures multiset(Flatten(rows[g := rows[g] + [x]])) == multiset(Flatten(rows)) + multiset{x}
    decreases |rows|
  {
    var rows' := rows[g := rows[g] + [x]];
    var k := |rows| - 1;
    assert Flatten(rows') == Flatten(rows'[..k]) + rows'[k];
    assert Flatten(rows) == Flatten(rows[..k]) + rows[k];
    if g == k {
      assert rows'[..k] == rows[..k];
    } else {
      assert rows'[..k] == rows[..k][g := rows[g] + [x]];
      FlattenSnocInto(rows[..k], g, x);
    }
  }

  /** The grouping test's cases: 29 items into 2, 30 and 5 groups. */
  lemma DistributeExamples()
    ensures var r := Distribute(seq(29, i => i), 2); |r[0]| == 15 && |r[1]| == 14
    ensures var r := Distribute(seq(29, i => i), 30); |r[29]| == 0 && |r[28]| == 1
    ensures var r := Distribute(seq(29, i => i), 5); |r[3]| == 6 && |r[4]| == 5
  {
    var items := seq(29, i => i);
    DistributeSizes(items, 2, 0);
    DistributeSizes(items, 2, 1);
    DistributeSizes(items, 30, 28);
    DistributeSizes(items, 30, 29);
    DistributeSizes(items, 5, 3);
    DistributeSizes(items, 5, 4);
  }

  /** `create_partition_groups(inputs, n_partitions)`: fewer than one
      partition means one; the inputs are shuffled (`shuffled` is that
      shuffle's outcome, any permutation of the inputs) and dealt
      round-robin. */
  function CreatePartitionGroups<T>(inputs: seq<T>, nPartitions: int, shuffled: seq<T>): (r: seq<seq<T>>)
    requires multiset(shuffled) == multiset(inputs)
    ensures |r| == if nPartitions < 1 then 1 else nPartitions
    ensures multiset(Flatten(r)) == multiset(inputs)
    ensures forall k :: 0 <= k < |shuffled| ==> k / |r| < |r[k % |r|]| && r[k % |r|][k / |r|] == shuffled[k]
  {
    var n := if nPartitions < 1 then 1 else nPartitions;
    DistributePermutes(shuffled, n);
    DistributePositions(shuffled, n);
    Distribute(shuffled, n)
  }

  /** Item `k` sits in group `k % n` at place `k / n`. */
  lemma DistributePositions<T>(items: seq<T>, n: nat)
    requires n >= 1
    ensures forall k :: 0 <= k < |items| ==>
      k / n < |Distribute(items, n)[k % n]| && Distribute(items, n)[k % n][k / n] == items[k]
  {
    var groups := Distribute(items, n);
    DistributeDeals(items, n);
    forall k | 0 <= k < |items|
      ensures k / n < |groups[k % n]| && groups[k % n][k / n] == items[k]
    {
      var g, j := k % n, k / n;
      assert k == g + j * n;
      MulMonoImplies(|groups[g]|, j, n);
    }
  }

  lemma ShiftByOne(b: int, size: int)
    ensures (b - 1) * size + size == b * size && b * size + size == (b + 1) * size
    ensures (b - 1 + 1) * size == b * size
  {
  }

  lemma MulMonoImplies(a: int, b: int, n: nat)
    ensures a <= b ==> a * n <= b * n
  {
    if a <= b {
      MulMono(a, b, n);
    }
  }

  /* ---------------- batches ---------------- */

  datatype ParallelError =
    | ValueError   // a zero batch step, or a pool of fewer than one process
    | EncodeRaised(cause: EncodeError)   // `encode` raised on one of the inputs

  /** `items[i:i + size]` for `i` in `range(0, len(items), size)`: a zero
      step raises, a negative one yields no batch at all. */
  function Batches<T>(items: seq<T>, size: int): (r: Result<seq<seq<T>>, ParallelError>)
    ensures r.Err? <==> size == 0
    ensures size < 0 ==> r == Ok([])
    ensures size > 0 ==> r.Ok? && Flatten(r.value) == items
    ensures size > 0 ==> forall b :: 0 <= b < |r.value| ==> 0 < |r.value[b]| <= size
    ensures size > 0 ==> forall b :: 0 <= b < |r.value| - 1 ==> |r.value[b]| == size
    decreases if size > 0 then |items| else 0
  {
    if size == 0 then Err(ValueError)
    else if size < 0 || |items| == 0 then Ok([])
    else if |items| <= size then
      assert Flatten([items]) == Flatten<T>([]) + items;
      Ok([items])
    else
      var rest := Batches(items[size..], size).value;
      ConsBatch(items, size, rest);
      Ok([items[..size]] + rest)
  }

  /** A full first batch in front of the batches of the remaining items
      batches all the items. */
  lemma ConsBatch<T>(items: seq<T>, size: int, rest: seq<seq<T>>)
    requires 0 < size < |items| && Flatten(rest) == items[size..]
    requires forall b :: 0 <= b < |rest| ==> 0 < |rest[b]| <= size
    requires forall b :: 0 <= b < |rest| - 1 ==> |rest[b]| == size
    ensures var r := [items[..size]] + rest;
      && Flatten(r) == items
      && (forall b :: 0 <= b < |r| ==> 0 < |r[b]| <= size)
      && (forall b :: 0 <= b < |r| - 1 ==> |r[b]| == size)
  {
    var r := [items[..size]] + rest;
    FlattenAppend([items[..size]], rest);
    assert Flatten([items[..size]]) == Flatten<T>([]) + items[..size];
    assert items == items[..size] + items[size..];
    assert forall b :: 0 < b < |r| ==> r[b] == rest[b - 1];
  }

  /** Batch `b` starts at item `b * size`. */
  lemma {:induction false} BatchesAreSlices<T>(items: seq<T>, size: int, b: int)
    requires size > 0 && 0 <= b < |Batches(items, size).value|
    ensures b * size < |items|
    ensures Batches(items, size).value[b] == items[b * size .. Stop(b, size, |items|)]
    decreases |items|
  {
    if |items| > size {
      var rest := Batches(items[size..], size).value;
      assert Batches(items, size).value == [items[..size]] + rest;
      if b > 0 {
        BatchesAreSlices(items[size..], size, b - 1);
        SliceOfTail(items, size, b, rest[b - 1]);
      }
    }
  }

  /** Where batch `b` ends: `b * size + size`, cut at the end of the list. */
  function Stop(b: int, size: int, len: int): int {
    if (b + 1) * size <= len then (b + 1) * size else len
  }

  lemma SliceOfTail<T>(items: seq<T>, size: int, b: int, batch: seq<T>)
    requires 0 < size < |items| && b > 0
    requires (b - 1) * size < |items| - size
    requires batch == items[size..][(b - 1) * size .. Stop(b - 1, size, |items| - size)]
    ensures b * size < |items| && batch == items[b * size .. Stop(b, size, |items|)]
  {
    ShiftByOne(b, size);
  }

  /* ---------------- encoding many inputs ---------------- */

  /** `encode` over every input, in order; the first failure is raised. */
  function EncodeAll(items: seq<EncoderInput>, sqrt: SqrtFn, angles: AnglesFn): (r: Result<seq<Partition>, ParallelError>)
    requires RowPerLine(angles)
    ensures r.Ok? <==> forall i :: 0 <= i < |items| ==> Encode(items[i], sqrt, angles).Ok?
    ensures r.Ok? ==> |r.value| == |items| && forall i :: 0 <= i < |items| ==> Ok(r.value[i]) == Encode(items[i], sqrt, angles)
    ensures r.Err? ==> r.error.EncodeRaised?
  {
    if |items| == 0 then Ok([])
    else
      var init :- EncodeAll(items[..|items| - 1], sqrt, angles);
      match Encode(items[|items| - 1], sqrt, angles)
      case Err(e) => Err(EncodeRaised(e))
      case Ok(p) => Ok(init + [p])
  }

  /** `__encode_items`: the items are cut into batches, a pool of `cores`
      processes is opened (fewer than one raises), and each batch's
      partitions are appended in order. */
  function EncodeItems(items: seq<EncoderInput>, batchSize: int, cores: int, sqrt: SqrtFn, angles: AnglesFn)
    : (r: Result<seq<Partition>, ParallelError>)
    requires RowPerLine(angles)
    ensures batchSize == 0 || cores < 1 ==> r == Err(ValueError)
    ensures batchSize < 0 && cores >= 1 ==> r == Ok([])
    ensures batchSize > 0 && cores >= 1 ==> r == EncodeAll(items, sqrt, angles)
  {
    var batches :- Batches(items, batchSize);
    if cores < 1 then Err(ValueError)
    else EncodeAll(Flatten(batches), sqrt, angles)
  }

  /** One combined partition per group; the first failing group raises. */
  function EncodeGroups(groups: seq<seq<EncoderInput>>, batchSize: int, cores: int, sqrt: SqrtFn, angles: AnglesFn)
    : (r: Result<seq<Partition>, ParallelError>)
    requires RowPerLine(angles)
    ensures r.Ok? ==> |r.value| == |groups|
    ensures r.Ok? ==> forall g :: 0 <= g < |groups| ==> Ok(r.value[g]) == Combined(groups[g], batchSize, cores, sqrt, angles)
    ensures r.Ok? <==> forall g :: 0 <= g < |groups| ==> Combined(groups[g], batchSize, cores, sqrt, angles).Ok?
    ensures |groups| > 0 && (batchSize == 0 || cores < 1) ==> r == Err(ValueError)
  {
    var rs := seq(|groups|, g requires 0 <= g < |groups| => Combined(groups[g], batchSize, cores, sqrt, angles));
    assert forall g :: 0 <= g < |groups| ==> rs[g] == Combined(groups[g], batchSize, cores, sqrt, angles);
    EachOk(rs)
  }

  /** The values of a list of outcomes, or the first failure among them:
      a Python loop or comprehension stops at the first exception. */
  function EachOk<T>(rs: seq<Result<T, ParallelError>>): (r: Result<seq<T>, ParallelError>)
    ensures r.Ok? <==> forall i :: 0 <= i < |rs| ==> rs[i].Ok?
    ensures r.Ok? ==> |r.value| == |rs| && forall i :: 0 <= i < |rs| ==> r.value[i] == rs[i].value
    ensures r.Err? ==> exists i :: (0 <= i < |rs| && rs[i] == Err(r.error)
                                    && forall j :: 0 <= j < i ==> rs[j].Ok?)
  {
    if |rs| == 0 then Ok([])
    else if rs[0].Err? then Err(rs[0].error)
    else
      var rest := EachOk(rs[1..]);
      if rest.Err? then
        assert forall j :: 0 <= j < |rs[1..]| ==> rs[1..][j] == rs[j + 1];
        rest
      else Ok([rs[0].value] + rest.value)
  }

  function Combined(group: seq<EncoderInput>, batchSize: int, cores: int, sqrt: SqrtFn, angles: AnglesFn)
    : (r: Result<Partition, ParallelError>)
    requires RowPerLine(angles)
    ensures batchSize == 0 || cores < 1 ==> r == Err(ValueError)
  {
    var ps :- EncodeItems(group, batchSize, cores, sqrt, angles);
    Ok(Combine(ps))
  }

  /** `parallel_encode`'s arguments; `None` stands for Python's `None`. */
  datatype Settings = Settings(nPartitions: Option<int>, batchSize: Option<int>, cores: Option<int>, returnPartitions: bool)

  /** The defaults: no partition count means 0 (one partition per input),
      no core count means the machine's `cpuCount`, and no batch size means
      eight items per core. */
  function Resolve(s: Settings, cpuCount: int): (r: (int, int, int))
    ensures s.nPartitions.None? ==> r.0 == 0
    ensures s.nPartitions.Some? ==> r.0 == s.nPartitions.value
    ensures s.cores.None? ==> r.2 == cpuCount
    ensures s.cores.Some? ==> r.2 == s.cores.value
    ensures s.batchSize.None? ==> r.1 == r.2 * 8
    ensures s.batchSize.Some? ==> r.1 == s.batchSize.value
  {
    var cores := s.cores.GetOr(cpuCount);
    (s.nPartitions.GetOr(0), s.batchSize.GetOr(cores * 8), cores)
  }

  /** `parallel_encode(inputs, ...)`: fewer than one partition encodes every
      input into its own partition; otherwise the shuffled inputs are
      grouped and each group is combined. The partitions are returned only
      when asked for. Saving to disk is not modelled. */
  function ParallelEncode(inputs: seq<EncoderInput>, s: Settings, cpuCount: int, shuffled: seq<EncoderInput>,
                          sqrt: SqrtFn, angles: AnglesFn): (r: Result<Option<seq<Partition>>, ParallelError>)
    requires RowPerLine(angles) && multiset(shuffled) == multiset(inputs)
    ensures var (n, batchSize, cores) := Resolve(s, cpuCount);
            batchSize == 0 || cores < 1 ==> r == Err(ValueError)
    ensures r.Ok? ==> (r.value.Some? <==> s.returnPartitions)
    ensures var (n, batchSize, cores) := Resolve(s, cpuCount);
            r.Ok? && s.returnPartitions && n >= 1 ==> |r.value.value| == n
    ensures var (n, batchSize, cores) := Resolve(s, cpuCount);
            r.Ok? && s.returnPartitions && n < 1 && batchSize > 0 ==>
              |r.value.value| == |inputs| && forall i :: 0 <= i < |inputs| ==> Ok(r.value.value[i]) == Encode(inputs[i], sqrt, angles)
  {
    var (n, batchSize, cores) := Resolve(s, cpuCount);
    var partitions :-
      if n < 1 then EncodeItems(inputs, batchSize, cores, sqrt, angles)
      else EncodeGroups(CreatePartitionGroups(inputs, n, shuffled), batchSize, cores, sqrt, angles);
    Ok(if s.returnPartitions then Some(partitions) else None)
  }

  /** Every input is encoded exactly once: across the returned partitions
      there is one vehicle per input, whichever way the inputs were grouped. */
  lemma ParallelEncodeKeepsEveryInput(inputs: seq<EncoderInput>, s: Settings, cpuCount: int, shuffled: seq<EncoderInput>,
                                      sqrt: SqrtFn, angles: AnglesFn)
    requires RowPerLine(angles) && multiset(shuffled) == multiset(inputs)
    requires Resolve(s, cpuCount).1 > 0 && s.returnPartitions
    requires ParallelEncode(inputs, s, cpuCount, shuffled, sqrt, angles).Ok?
    ensures |Flatten(Vehicles(ParallelEncode(inputs, s, cpuCount, shuffled, sqrt, angles).value.value))| == |inputs|
  {
    var (n, batchSize, cores) := Resolve(s, cpuCount);
    var out := ParallelEncode(inputs, s, cpuCount, shuffled, sqrt, angles).value.value;
    if n < 1 {
      assert forall i :: 0 <= i < |out| ==> |Vehicles(out)[i]| == 1;
      FlattenMatrix(Vehicles(out), 1);
    } else {
      GroupsKeepEveryInput(inputs, n, shuffled, batchSize, cores, sqrt, angles);
    }
  }

  /** The grouped case: each group's combined partition holds one vehicle
      per member of the group, and the groups partition the inputs. */
  lemma GroupsKeepEveryInput(inputs: seq<EncoderInput>, n: int, shuffled: seq<EncoderInput>,
                             batchSize: int, cores: int, sqrt: SqrtFn, angles: AnglesFn)
    requires RowPerLine(angles) && multiset(shuffled) == multiset(inputs) && batchSize > 0
    requires EncodeGroups(CreatePartitionGroups(inputs, n, shuffled), batchSize, cores, sqrt, angles).Ok?
    ensures |Flatten(Vehicles(EncodeGroups(CreatePartitionGroups(inputs, n, shuffled), batchSize, cores, sqrt, angles).value))| == |inputs|
  {
    var groups := CreatePartitionGroups(inputs, n, shuffled);
    var out := EncodeGroups(groups, batchSize, cores, sqrt, angles).value;
    forall g | 0 <= g < |groups|
      ensures |Vehicles(out)[g]| == |groups[g]|
    {
      GroupVehicleCount(groups[g], batchSize, cores, sqrt, angles, out[g]);
    }
    FlattenSameShape(Vehicles(out), groups);
    assert |multiset(Flatten(groups))| == |multiset(inputs)|;
  }

  /** A group's combined partition holds one vehicle per member. */
  lemma GroupVehicleCount(group: seq<EncoderInput>, batchSize: int, cores: int, sqrt: SqrtFn, angles: AnglesFn, part: Partition)
    requires RowPerLine(angles) && batchSize > 0
    requires Ok(part) == Combined(group, batchSize, cores, sqrt, angles)
    ensures |part.vehicles| == |group|
  {
    var ps := EncodeAll(group, sqrt, angles).value;
    assert part == Combine(ps);
    forall i | 0 <= i < |ps|
      ensures |Vehicles(ps)[i]| == 1
    {
      assert Ok(ps[i]) == Encode(group[i], sqrt, angles);
    }
    CombinedVehicleCount(ps);
  }

  /** A combine of single-track partitions holds one vehicle per partition. */
  lemma CombinedVehicleCount(ps: seq<Partition>)
    ensures (forall i :: 0 <= i < |ps| ==> |Vehicles(ps)[i]| == 1) ==> |Combine(ps).vehicles| == |ps|
  {
    CombineConcatenates(ps);
    if forall i :: 0 <= i < |ps| ==> |Vehicles(ps)[i]| == 1 {
      FlattenMatrix(Vehicles(ps), 1);
    }
  }
}
