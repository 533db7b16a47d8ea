/** The object the rest of the system normalises and transforms through:
    the transform settings together with the normalisation bounds. It
    learns bounds from partitions, turns network outputs back into
    positions and velocities, and reads its saved settings back, dropping
    the bounds that were saved as null. */
module TransformNormalisation {
  import opened Wrappers
  import opened Functional
  import opened Encoder
  import opened Normalisation
  import opened Transformer
  import opened Patching
  import opened Windows
  import opened Bidirectional
  import opened Lagging
  import opened StatefulLagging
  import opened Sampling

  /** `TransformNormalisation(transform, bounds)`. */
  datatype Pipeline = Pipeline(transform: Transform, bounds: Bounds)

  function DefaultPipeline(): Pipeline {
    Pipeline(DefaultTransform(), DefaultBounds())
  }

  /** What the pipeline can raise, by where it is raised. */
  datatype PipelineError =
    | Settings(e: TransformError)  // a vehicle key or the method name
    | Bounding(n: NormError)       // unset bounds, vehicle vectors of different lengths
    | Raised(f: Failure)           // the detransform itself
    | Invalid(key: string)         // a saved bound that is not a number

  /* ---------------- extend ---------------- */

  /** `extend(partition)`: the partition's vehicles vectorised by the
      transform's encoding, then the bounds extended by the partition and
      those vectors; the transform settings are kept. */
  function ExtendPipeline(tn: Pipeline, p: Partition): (r: Result<Pipeline, PipelineError>)
    ensures VectoriseVehicles(tn.transform.encoding, p.vehicles).Err? ==>
              r == Err(Settings(VectoriseVehicles(tn.transform.encoding, p.vehicles).error))
    ensures r.Ok? <==> VectoriseVehicles(tn.transform.encoding, p.vehicles).Ok?
                       && Extend(tn.bounds, p, VectoriseVehicles(tn.transform.encoding, p.vehicles).value).Ok?
    ensures r.Ok? ==> r.value.transform == tn.transform
    ensures r.Ok? ==> forall i, j :: 0 <= i < |p.angles| && 0 <= j < |p.angles[i]| ==>
                        Abs(p.angles[i][j]) <= r.value.bounds.maxAngle
    ensures r.Ok? ==> forall i, j :: 0 <= i < |p.velocities| && 0 <= j < |p.velocities[i]| ==>
                        r.value.bounds.minVelocity.Some? && r.value.bounds.maxVelocity.Some?
                        && r.value.bounds.minVelocity.value <= Abs(p.velocities[i][j]) <= r.value.bounds.maxVelocity.value
  {
    var vehicles :- MapError(VectoriseVehicles(tn.transform.encoding, p.vehicles), (e: TransformError) => Settings(e));
    var bounds :- MapError(Extend(tn.bounds, p, vehicles), (e: NormError) => Bounding(e));
    Ok(Pipeline(tn.transform, bounds))
  }

  function MapError<T, E>(r: Result<T, E>, f: E -> PipelineError): (m: Result<T, PipelineError>)
    ensures m.Ok? <==> r.Ok?
    ensures m.Ok? ==> m.value == r.value
    ensures m.Err? ==> m.error == f(r.error)
  {
    match r
    case Ok(v) => Ok(v)
    case Err(e) => Err(f(e))
  }

  /** Extending a fresh pipeline by a partition and normalising that same
      partition keeps the angles and offsets within `[-1, 1]` and
      non-negative widths within `[0, 1]`. */
  lemma ExtendedPipelineNormalisesInRange(p: Partition)
    requires ExtendPipeline(DefaultPipeline(), p).Ok?
    requires forall i, j :: 0 <= i < |p.widths| && 0 <= j < |p.widths[i]| ==> p.widths[i][j] >= 0.0
    ensures var vehicles := VectoriseVehicles(DefaultTransform().encoding, p.vehicles).value;
            var n := Normalise(ExtendPipeline(DefaultPipeline(), p).value.bounds, p, vehicles);
      n.Ok? ==> Within(n.value.data["angles"], -1.0, 1.0) && Within(n.value.data["offsets"], -1.0, 1.0)
                && Within(n.value.data["widths"], 0.0, 1.0)
  {
    var vehicles := VectoriseVehicles(DefaultTransform().encoding, p.vehicles).value;
    if Normalise(Extend(DefaultBounds(), p, vehicles).value, p, vehicles).Ok? {
      ExtendThenNormaliseBounded(p, vehicles);
    }
  }

  /* ---------------- normalise_and_transform ---------------- */

  /** What a transform method returns: per-normal input windows (window,
      bidirectional, lag), flat per-normal rows (flat window), or per-track
      inputs and targets (stateful lag); each with its targets and vehicles. */
  datatype Transformed =
    | PerNormal(windows: seq<seq<seq<real>>>, targets: seq<Matrix>, vehicles: Matrix)
    | FlatRows(rows: Matrix, targets: seq<Matrix>, vehicles: Matrix)
    | PerTrack(tracks: seq<Matrix>, trackTargets: seq<seq<Matrix>>, vehicles: Matrix)

  /** The lag the targets of a method are sampled with: only the lag
      method reads the setting, the others use no lag. */
  function TargetLag(m: Method, lag: Option<int>): Option<int> {
    if m == Lag then lag else Some(0)
  }

  /** The patch size the targets of a method are sampled with: the window
      methods do not patch. */
  function TargetPatch(m: Method, patchSize: int): int {
    if m == Window || m == FlatWindow then 1 else patchSize
  }

  /** `Transform.transform(normalised_data, cores)`: the registered method
      named by the settings transforms the data with the settings copied
      onto it. */
  function TransformData(t: Transform, d: NormalisedData, cores: int): (r: Result<Transformed, PipelineError>)
    ensures GetTransform(t).Err? ==> r == Err(Settings(GetTransform(t).error))
    ensures r.Ok? ==> (r.value.FlatRows? <==> t.methodName == "flat-window")
    ensures r.Ok? ==> (r.value.PerTrack? <==> t.methodName == "stateful-lag")
    ensures r.Ok? && !r.value.PerTrack? ==>
      var m := GetTransform(t).value.kind;
      GetTargetOutput(d, t.outputs, t.sampling, TargetLag(m, t.lag), TargetPatch(m, t.patchSize)) == Ok(r.value.targets)
    ensures r.Ok? && r.value.PerNormal? ==> |r.value.vehicles| == |r.value.windows|
    ensures r.Ok? && r.value.FlatRows? ==> |r.value.vehicles| == |r.value.rows|
    ensures r.Ok? && r.value.PerTrack? ==> "vehicles" in d.data && r.value.vehicles == d.data["vehicles"]
    ensures r.Err? ==> r.error.Settings? || r.error.Raised?
  {
    var cfg :- MapError(GetTransform(t), (e: TransformError) => Settings(e));
    var ps := cfg.params;
    match cfg.kind
    case Window =>
      var (w, y, v) :- MapError(WindowTransform(d, ps.inputs, ps.outputs, ps.foresight, ps.sampling, cores), (f: Failure) => Raised(f));
      Ok(PerNormal(w, y, v))
    case FlatWindow =>
      var (x, y, v) :- MapError(FlatWindowTransform(d, ps.inputs, ps.outputs, ps.foresight, ps.sampling, cores), (f: Failure) => Raised(f));
      Ok(FlatRows(x, y, v))
    case Bidirectional =>
      var (w, y, v) :- MapError(BidirectionalTransform(d, ps.inputs, ps.outputs, ps.sampling, ps.patchSize, cores), (f: Failure) => Raised(f));
      Ok(PerNormal(w, y, v))
    case Lag =>
      var (w, y, v) :- MapError(LagTransform(d, ps.inputs, ps.outputs, ps.sampling, ps.lag, ps.patchSize, ps.timeToVec, cores), (f: Failure) => Raised(f));
      Ok(PerNormal(w, y, v))
    case StatefulLag =>
      var (x, y, v) :- MapError(StatefulTransform(d, ps.inputs, ps.outputs, ps.sampling, ps.lag, ps.patchSize, ps.timeToVec), (f: Failure) => Raised(f));
      Ok(PerTrack(x, y, v))
  }

  /** The bounds `normalise` needs have all been learnt. */
  predicate Loaded(b: Bounds) {
    b.maxWidth.Some? && b.minWidth.Some? && b.maxVelocity.Some? && b.minVelocity.Some? && b.vehicle.Some?
  }

  /** `normalise_and_transform(partition, cores)`: the partition's vehicles
      vectorised, the partition normalised by the bounds, then transformed
      by the settings' method; each stage's error stops the pipeline. */
  function NormaliseAndTransform(tn: Pipeline, p: Partition, cores: int): (r: Result<Transformed, PipelineError>)
    ensures VectoriseVehicles(tn.transform.encoding, p.vehicles).Err? ==>
              r == Err(Settings(VectoriseVehicles(tn.transform.encoding, p.vehicles).error))
    ensures VectoriseVehicles(tn.transform.encoding, p.vehicles).Ok? && !Loaded(tn.bounds) ==>
              r.Err? && r.error.Bounding?
    ensures Loaded(tn.bounds) && r.Err? ==> r.error.Settings? || r.error.Raised?
    ensures r.Ok? ==> exists d: NormalisedData ::
              && Normalise(tn.bounds, p, VectoriseVehicles(tn.transform.encoding, p.vehicles).value) == Ok(d)
              && TransformData(tn.transform, d, cores) == r
  {
    match VectoriseVehicles(tn.transform.encoding, p.vehicles)
    case Err(e) => Err(Settings(e))
    case Ok(vehicles) =>
      match Normalise(tn.bounds, p, vehicles)
      case Err(e) => Err(Bounding(e))
      case Ok(d) => TransformData(tn.transform, d, cores)
  }

  /** Once a pipeline has been extended by a partition with some width,
      some velocity and some non-empty vehicle, its bounds are loaded. */
  lemma ExtendedPipelineLoaded(tn: Pipeline, p: Partition, i: int, j: int, k: int)
    requires ExtendPipeline(tn, p).Ok?
    requires 0 <= i < |p.widths| && |p.widths[i]| > 0
    requires 0 <= j < |p.velocities| && |p.velocities[j]| > 0
    requires 0 <= k < |p.vehicles|
    requires var vs := VectoriseVehicles(tn.transform.encoding, p.vehicles); vs.Ok? && |vs.value[k]| > 0
    ensures Loaded(ExtendPipeline(tn, p).value.bounds)
  {
    var vs := VectoriseVehicles(tn.transform.encoding, p.vehicles).value;
    var b := Extend(tn.bounds, p, vs).value;
    assert b == ExtendPipeline(tn, p).value.bounds;
    assert b.minWidth.Some? by { assert 0 <= 0 < |p.widths[i]|; }
    assert b.minVelocity.Some? by { assert 0 <= 0 < |p.velocities[j]|; }
    assert b.vehicle.Some? by { assert |vs[k]| > 0; }
  }

  /* ---------------- detransform_and_denormalise ---------------- */

  /** `Transform.detransform(track_length, outputs)`: the registered
      method named by the settings detransforms every output. The two
      window methods share the base window detransform. */
  function Detransform(t: Transform, trackLength: int, outputs: seq<seq<seq<real>>>)
    : (r: Result<seq<seq<Option<real>>>, PipelineError>)
    ensures GetTransform(t).Err? ==> r == Err(Settings(GetTransform(t).error))
    ensures r.Ok? ==> |r.value| == |outputs|
  {
    var cfg :- MapError(GetTransform(t), (e: TransformError) => Settings(e));
    var ps := cfg.params;
    var detransformed := match cfg.kind
      case Bidirectional => BidirectionalDetransformAll(trackLength, outputs, ps.sampling, ps.patchSize)
      case Lag => LagDetransformAll(trackLength, outputs, ps.sampling, ps.patchSize, ps.lag)
      case StatefulLag => StatefulDetransformAll(trackLength, outputs, ps.sampling, ps.patchSize, ps.lag)
      case Window => BaseDetransformAll(trackLength, outputs, ps.sampling)
      case FlatWindow => BaseDetransformAll(trackLength, outputs, ps.sampling);
    MapError(detransformed, (f: Failure) => Raised(f))
  }

  /** `velocity * (max_velocity - min_velocity) + min_velocity`. An unset
      bound is still infinite, which leaves no finite velocity (`None`);
      a NaN mean stays NaN. */
  function Denormalise(b: Bounds, velocity: seq<Option<real>>): (r: seq<Option<real>>)
    ensures |r| == |velocity|
    ensures b.maxVelocity.None? || b.minVelocity.None? ==> forall j :: 0 <= j < |r| ==> r[j].None?
    ensures b.maxVelocity.Some? && b.minVelocity.Some? ==> forall j :: 0 <= j < |r| ==> (r[j].Some? <==> velocity[j].Some?)
  {
    if b.maxVelocity.None? || b.minVelocity.None? then Fill(None, |velocity|)
    else
      seq(|velocity|, j requires 0 <= j < |velocity| =>
        if velocity[j].None? then None else Some(Unscale(velocity[j].value, b.maxVelocity.value, b.minVelocity.value)))
  }

  /** A value of `[0, 1]` scaled back into `[min, max]`. */
  function Unscale(v: real, max: real, min: real): real {
    v * (max - min) + min
  }

  /** `detransform_and_denormalise(track_length, position, velocity)`: both
      outputs detransformed by the settings' method; the position is
      returned as it is and the velocity scaled back into the bounds. */
  function DetransformAndDenormalise(tn: Pipeline, trackLength: int, position: seq<seq<real>>, velocity: seq<seq<real>>)
    : (r: Result<(seq<Option<real>>, seq<Option<real>>), PipelineError>)
    ensures r.Ok? <==> Detransform(tn.transform, trackLength, [position, velocity]).Ok?
    ensures r.Ok? ==> r.value.0 == Detransform(tn.transform, trackLength, [position, velocity]).value[0]
    ensures r.Ok? ==> |r.value.1| == |Detransform(tn.transform, trackLength, [position, velocity]).value[1]|
  {
    var outs :- Detransform(tn.transform, trackLength, [position, velocity]);
    Ok((outs[0], Denormalise(tn.bounds, outs[1])))
  }

  /** Denormalising undoes the range normalisation of a velocity track
      whenever the bounds differ: a detransform that recovers the
      normalised velocities gives back the velocities themselves. */
  lemma DenormaliseInvertsRangeNormalise(b: Bounds, vel: seq<real>)
    requires b.maxVelocity.Some? && b.minVelocity.Some? && b.maxVelocity.value != b.minVelocity.value
    ensures RangeNormalise([vel], b.maxVelocity, b.minVelocity).Ok?
    ensures var n := RangeNormalise([vel], b.maxVelocity, b.minVelocity).value[0];
      Denormalise(b, seq(|n|, j requires 0 <= j < |n| => Some(n[j]))) == seq(|vel|, j requires 0 <= j < |vel| => Some(vel[j]))
  {
    var n := RangeNormalise([vel], b.maxVelocity, b.minVelocity).value[0];
    var back := Denormalise(b, seq(|n|, j requires 0 <= j < |n| => Some(n[j])));
    forall j | 0 <= j < |vel|
      ensures back[j] == Some(vel[j])
    {
      var rn := RangeNormalise([vel], b.maxVelocity, b.minVelocity);
      assert 0 <= j < |[vel][0]|;
      assert rn.value[0][j] * (b.maxVelocity.value - b.minVelocity.value) + b.minVelocity.value == [vel][0][j];
      assert Unscale(n[j], b.maxVelocity.value, b.minVelocity.value) == vel[j];
    }
  }

  /** End to end: when the method's detransform recovers the normalised
      velocity track, the pipeline returns the velocity track itself. */
  lemma DenormaliseRecoversVelocities(tn: Pipeline, trackLength: int, position: seq<seq<real>>, velocity: seq<seq<real>>,
                                      vel: seq<real>)
    requires tn.bounds.maxVelocity.Some? && tn.bounds.minVelocity.Some?
    requires tn.bounds.maxVelocity.value != tn.bounds.minVelocity.value
    requires RangeNormalise([vel], tn.bounds.maxVelocity, tn.bounds.minVelocity).Ok?
    requires var n := RangeNormalise([vel], tn.bounds.maxVelocity, tn.bounds.minVelocity).value[0];
      && Detransform(tn.transform, trackLength, [position, velocity]).Ok?
      && Detransform(tn.transform, trackLength, [position, velocity]).value[1] == seq(|n|, j requires 0 <= j < |n| => Some(n[j]))
    ensures DetransformAndDenormalise(tn, trackLength, position, velocity).Ok?
    ensures DetransformAndDenormalise(tn, trackLength, position, velocity).value.1 == seq(|vel|, j requires 0 <= j < |vel| => Some(vel[j]))
  {
    DenormaliseInvertsRangeNormalise(tn.bounds, vel);
  }

  /* ---------------- save and load ---------------- */

  /** A JSON value as far as the bounds need it: `Num` is any value
      pydantic reads as a float, `Nums` a list of such values, and `Other`
      anything else. */
  datatype Json = Null | Num(x: real) | Nums(xs: seq<real>) | Other

  /** The fields of `NormalisationBounds`, in declaration order. */
  const BoundFields: seq<string> :=
    ["max_width", "min_width", "max_angle", "max_offset", "max_velocity", "min_velocity", "max_vehicle", "min_vehicle"]

  /** The float bounds whose default is infinite: an infinite float is
      saved as null, and these are dropped on loading so their defaults
      apply. */
  const NullableBounds: set<string> := {"max_width", "min_width", "min_velocity", "max_velocity"}

  /** The float bounds that default to 0. */
  const ZeroBounds: set<string> := {"max_angle", "max_offset"}

  /** The `Optional[List[float]]` bounds. */
  const VehicleFields: set<string> := {"max_vehicle", "min_vehicle"}

  /** What pydantic accepts for one field: absent always, otherwise a
      number for a float field and null or a list of numbers for a
      vehicle bound. */
  predicate FieldValid(bounds: map<string, Json>, key: string) {
    key !in bounds
    || (if key in VehicleFields then bounds[key].Null? || bounds[key].Nums? else bounds[key].Num?)
  }

  /** The loop in `load` over the saved `bounds` dictionary: each nullable
      bound saved as null is deleted. */
  function StripNullBounds(bounds: map<string, Json>): (r: map<string, Json>)
    ensures forall k :: k in NullableBounds ==> (k in r <==> k in bounds && bounds[k] != Null)
    ensures forall k :: k !in NullableBounds ==> (k in r <==> k in bounds)
    ensures forall k :: k in r ==> k in bounds && r[k] == bounds[k]
  {
    map k | k in bounds && !(k in NullableBounds && bounds[k] == Null) :: bounds[k]
  }

  /** The saved document: the `transform` and `bounds` dictionaries (and
      whatever else was saved). */
  type Document = map<string, map<string, Json>>

  /** `load` before validation: only the `bounds` dictionary is touched,
      and only when it is present. */
  function LoadDocument(doc: Document): (r: Document)
    ensures r.Keys == doc.Keys
    ensures forall k :: k in doc && k != "bounds" ==> r[k] == doc[k]
    ensures "bounds" in doc ==> r["bounds"] == StripNullBounds(doc["bounds"])
  {
    if "bounds" in doc then doc["bounds" := StripNullBounds(doc["bounds"])] else doc
  }

  /** A width or velocity bound: absent means the infinite default
      (`None`), a number is read, and anything else, null included, is
      rejected. */
  function ValidateInfinite(bounds: map<string, Json>, key: string): (r: Result<Option<real>, PipelineError>)
    ensures r.Ok? <==> key !in bounds || bounds[key].Num?
    ensures key !in bounds ==> r == Ok(None)
    ensures key in bounds && bounds[key].Num? ==> r == Ok(Some(bounds[key].x))
    ensures r.Err? ==> r.error == Invalid(key)
  {
    if key !in bounds then Ok(None)
    else if bounds[key].Num? then Ok(Some(bounds[key].x))
    else Err(Invalid(key))
  }

  /** `max_angle` or `max_offset`: absent means 0, a number is read, and
      anything else, null included, is rejected. */
  function ValidateFloat(bounds: map<string, Json>, key: string): (r: Result<real, PipelineError>)
    ensures r.Ok? <==> key !in bounds || bounds[key].Num?
    ensures key !in bounds ==> r == Ok(0.0)
    ensures key in bounds && bounds[key].Num? ==> r == Ok(bounds[key].x)
    ensures r.Err? ==> r.error == Invalid(key)
  {
    if key !in bounds then Ok(0.0)
    else if bounds[key].Num? then Ok(bounds[key].x)
    else Err(Invalid(key))
  }

  /** `max_vehicle` or `min_vehicle`: absent or null means `None`, a list
      of numbers is read, and anything else is rejected. */
  function ValidateList(bounds: map<string, Json>, key: string): (r: Result<Option<seq<real>>, PipelineError>)
    ensures r.Ok? <==> key !in bounds || bounds[key].Null? || bounds[key].Nums?
    ensures key !in bounds || bounds[key].Null? ==> r == Ok(None)
    ensures key in bounds && bounds[key].Nums? ==> r == Ok(Some(bounds[key].xs))
    ensures r.Err? ==> r.error == Invalid(key)
  {
    if key !in bounds || bounds[key].Null? then Ok(None)
    else if bounds[key].Nums? then Ok(Some(bounds[key].xs))
    else Err(Invalid(key))
  }

  /** The two vehicle lists as the pair the bounds keep: set only when
      both are. */
  function PairVehicles(min: Option<seq<real>>, max: Option<seq<real>>): Option<VehicleBounds> {
    if min.Some? && max.Some? then Some(VehicleBounds(min.value, max.value)) else None
  }

  /** The first field, from index `from` on, that pydantic rejects. */
  function FirstInvalid(bounds: map<string, Json>, from: nat): Option<nat>
    decreases |BoundFields| - from
  {
    if from >= |BoundFields| then None
    else if !FieldValid(bounds, BoundFields[from]) then Some(from)
    else FirstInvalid(bounds, from + 1)
  }

  /** `FirstInvalid` finds nothing exactly when every field from `from` on
      is valid, and otherwise an invalid field with only valid fields
      before it. */
  lemma {:induction false} FirstInvalidSpec(bounds: map<string, Json>, from: nat)
    requires from <= |BoundFields|
    ensures FirstInvalid(bounds, from).None? <==> forall i :: from <= i < |BoundFields| ==> FieldValid(bounds, BoundFields[i])
    ensures FirstInvalid(bounds, from).Some? ==>
              var n := FirstInvalid(bounds, from).value;
              && from <= n < |BoundFields|
              && !FieldValid(bounds, BoundFields[n])
              && forall j :: from <= j < n ==> FieldValid(bounds, BoundFields[j])
    decreases |BoundFields| - from
  {
    if from < |BoundFields| && FieldValid(bounds, BoundFields[from]) {
      FirstInvalidSpec(bounds, from + 1);
    }
  }

  /** `FirstInvalid` over the eight fields written out. */
  lemma FirstInvalidUnrolled(bounds: map<string, Json>)
    ensures FirstInvalid(bounds, 0) ==
              if !FieldValid(bounds, "max_width") then Some(0)
              else if !FieldValid(bounds, "min_width") then Some(1)
              else if !FieldValid(bounds, "max_angle") then Some(2)
              else if !FieldValid(bounds, "max_offset") then Some(3)
              else if !FieldValid(bounds, "max_velocity") then Some(4)
              else if !FieldValid(bounds, "min_velocity") then Some(5)
              else if !FieldValid(bounds, "max_vehicle") then Some(6)
              else if !FieldValid(bounds, "min_vehicle") then Some(7)
              else None
  {
    assert FirstInvalid(bounds, 8) == None;
    assert FirstInvalid(bounds, 7) == if !FieldValid(bounds, "min_vehicle") then Some(7) else None;
    assert FirstInvalid(bounds, 6) == if !FieldValid(bounds, "max_vehicle") then Some(6) else FirstInvalid(bounds, 7);
    assert FirstInvalid(bounds, 5) == if !FieldValid(bounds, "min_velocity") then Some(5) else FirstInvalid(bounds, 6);
    assert FirstInvalid(bounds, 4) == if !FieldValid(bounds, "max_velocity") then Some(4) else FirstInvalid(bounds, 5);
    assert FirstInvalid(bounds, 3) == if !FieldValid(bounds, "max_offset") then Some(3) else FirstInvalid(bounds, 4);
    assert FirstInvalid(bounds, 2) == if !FieldValid(bounds, "max_angle") then Some(2) else FirstInvalid(bounds, 3);
    assert FirstInvalid(bounds, 1) == if !FieldValid(bounds, "min_width") then Some(1) else FirstInvalid(bounds, 2);
  }

  /** `NormalisationBounds.model_validate(bounds)`: every field read by
      its type, with its default when absent; keys that name no field are
      ignored; the first invalid field, in declaration order, is
      reported. */
  function ValidateBounds(bounds: map<string, Json>): (r: Result<Bounds, PipelineError>)
    ensures r.Err? <==> FirstInvalid(bounds, 0).Some?
    ensures r.Err? ==> r.error == Invalid(BoundFields[FirstInvalid(bounds, 0).value])
    ensures r.Ok? ==>
              && ValidateInfinite(bounds, "max_width") == Ok(r.value.maxWidth)
              && ValidateInfinite(bounds, "min_width") == Ok(r.value.minWidth)
              && ValidateFloat(bounds, "max_angle") == Ok(r.value.maxAngle)
              && ValidateFloat(bounds, "max_offset") == Ok(r.value.maxOffset)
              && ValidateInfinite(bounds, "max_velocity") == Ok(r.value.maxVelocity)
              && ValidateInfinite(bounds, "min_velocity") == Ok(r.value.minVelocity)
              && ValidateList(bounds, "min_vehicle").Ok?
              && ValidateList(bounds, "max_vehicle").Ok?
              && r.value.vehicle == PairVehicles(ValidateList(bounds, "min_vehicle").value, ValidateList(bounds, "max_vehicle").value)
  {
    FirstInvalidUnrolled(bounds);
    var maxWidth :- ValidateInfinite(bounds, "max_width");
    var minWidth :- ValidateInfinite(bounds, "min_width");
    var maxAngle :- ValidateFloat(bounds, "max_angle");
    var maxOffset :- ValidateFloat(bounds, "max_offset");
    var maxVelocity :- ValidateInfinite(bounds, "max_velocity");
    var minVelocity :- ValidateInfinite(bounds, "min_velocity");
    var maxVehicle :- ValidateList(bounds, "max_vehicle");
    var minVehicle :- ValidateList(bounds, "min_vehicle");
    Ok(Bounds(maxWidth, minWidth, maxAngle, maxOffset, maxVelocity, minVelocity, PairVehicles(minVehicle, maxVehicle)))
  }

  /** Validation succeeds exactly when every field is valid, and a failure
      names an invalid field with only valid fields declared before it. */
  lemma ValidateBoundsAccepts(bounds: map<string, Json>)
    ensures ValidateBounds(bounds).Ok? <==> forall i :: 0 <= i < |BoundFields| ==> FieldValid(bounds, BoundFields[i])
    ensures ValidateBounds(bounds).Err? ==>
              exists n :: && 0 <= n < |BoundFields|
                          && ValidateBounds(bounds).error == Invalid(BoundFields[n])
                          && !FieldValid(bounds, BoundFields[n])
                          && forall j :: 0 <= j < n ==> FieldValid(bounds, BoundFields[j])
  {
    FirstInvalidSpec(bounds, 0);
  }

  /** Two dictionaries that agree on every field. */
  predicate SameFields(a: map<string, Json>, b: map<string, Json>) {
    forall i :: 0 <= i < |BoundFields| ==>
      && (BoundFields[i] in a <==> BoundFields[i] in b)
      && (BoundFields[i] in a ==> a[BoundFields[i]] == b[BoundFields[i]])
  }

  /** Validation reads nothing but the fields. */
  lemma SameFieldsValidate(a: map<string, Json>, b: map<string, Json>)
    requires SameFields(a, b)
    ensures ValidateBounds(a) == ValidateBounds(b)
  {
    assert BoundFields[0] == "max_width" && BoundFields[1] == "min_width";
    assert BoundFields[2] == "max_angle" && BoundFields[3] == "max_offset";
    assert BoundFields[4] == "max_velocity" && BoundFields[5] == "min_velocity";
    assert BoundFields[6] == "max_vehicle" && BoundFields[7] == "min_vehicle";
    FirstInvalidUnrolled(a);
    FirstInvalidUnrolled(b);
    assert ValidateInfinite(a, "max_width") == ValidateInfinite(b, "max_width");
    assert ValidateInfinite(a, "min_width") == ValidateInfinite(b, "min_width");
    assert ValidateFloat(a, "max_angle") == ValidateFloat(b, "max_angle");
    assert ValidateFloat(a, "max_offset") == ValidateFloat(b, "max_offset");
    assert ValidateInfinite(a, "max_velocity") == ValidateInfinite(b, "max_velocity");
    assert ValidateInfinite(a, "min_velocity") == ValidateInfinite(b, "min_velocity");
    assert ValidateList(a, "max_vehicle") == ValidateList(b, "max_vehicle");
    assert ValidateList(a, "min_vehicle") == ValidateList(b, "min_vehicle");
  }

  /** `TransformNormalisation.load` as far as the bounds go: missing bounds
      are the defaults; saved bounds have their null width and velocity
      bounds stripped and are then validated. */
  function LoadBounds(doc: Document): (r: Result<Bounds, PipelineError>)
    ensures "bounds" !in doc ==> r == Ok(DefaultBounds())
    ensures "bounds" in doc ==> r == ValidateBounds(StripNullBounds(doc["bounds"]))
  {
    var loaded := LoadDocument(doc);
    if "bounds" !in loaded then Ok(DefaultBounds()) else ValidateBounds(loaded["bounds"])
  }

  /** A float bound as `model_dump_json` writes it: an infinite bound as
      null. */
  function InfiniteJson(b: Option<real>): Json {
    if b.Some? then Num(b.value) else Null
  }

  /** `save` as far as the bounds go: `model_dump_json(exclude_none=True)`
      writes every float bound, infinite ones as null, and the vehicle
      bounds only when they are set. */
  function SaveBounds(b: Bounds): (r: map<string, Json>)
    ensures forall i :: 0 <= i < |BoundFields| && BoundFields[i] !in VehicleFields ==> BoundFields[i] in r
    ensures forall k :: k in VehicleFields ==> (k in r <==> b.vehicle.Some?)
    ensures forall k :: k in r ==> k in BoundFields
    ensures "max_width" in r && r["max_width"] == InfiniteJson(b.maxWidth)
    ensures "min_width" in r && r["min_width"] == InfiniteJson(b.minWidth)
    ensures "max_velocity" in r && r["max_velocity"] == InfiniteJson(b.maxVelocity)
    ensures "min_velocity" in r && r["min_velocity"] == InfiniteJson(b.minVelocity)
    ensures "max_angle" in r && r["max_angle"] == Num(b.maxAngle)
    ensures "max_offset" in r && r["max_offset"] == Num(b.maxOffset)
  {
    FieldNamesDiffer();
    var floats := map["max_width" := InfiniteJson(b.maxWidth), "min_width" := InfiniteJson(b.minWidth),
                      "max_angle" := Num(b.maxAngle), "max_offset" := Num(b.maxOffset),
                      "max_velocity" := InfiniteJson(b.maxVelocity), "min_velocity" := InfiniteJson(b.minVelocity)];
    if b.vehicle.Some? then floats["max_vehicle" := Nums(b.vehicle.value.max)]["min_vehicle" := Nums(b.vehicle.value.min)]
    else floats
  }

  /** The field names of equal length differ. */
  lemma FieldNamesDiffer()
    ensures "max_angle" != "max_width" && "max_angle" != "min_width" && "max_width" != "min_width"
    ensures "max_velocity" != "min_velocity" && "max_vehicle" != "min_vehicle"
  {
    assert "max_angle"[4] == 'a' && "max_width"[4] == 'w' && "min_width"[4] == 'w';
    assert "max_width"[1] == 'a' && "min_width"[1] == 'i';
    assert "max_velocity"[1] == 'a' && "min_velocity"[1] == 'i';
    assert "max_vehicle"[1] == 'a' && "min_vehicle"[1] == 'i';
  }

  /** Loading what was saved gives the bounds back, infinite ones
      included. */
  lemma LoadSaveRoundTrip(b: Bounds, doc: Document)
    requires doc == map["bounds" := SaveBounds(b)]
    ensures LoadBounds(doc) == Ok(b)
  {
    var stripped := StripNullBounds(SaveBounds(b));
    SavedInfiniteLoad(b, stripped);
    SavedFloatLoad(b, stripped);
    SavedVehicleLoad(b, stripped);
  }

  /** The width and velocity bounds survive saving and stripping. */
  lemma SavedInfiniteLoad(b: Bounds, stripped: map<string, Json>)
    requires stripped == StripNullBounds(SaveBounds(b))
    ensures ValidateInfinite(stripped, "max_width") == Ok(b.maxWidth)
    ensures ValidateInfinite(stripped, "min_width") == Ok(b.minWidth)
    ensures ValidateInfinite(stripped, "max_velocity") == Ok(b.maxVelocity)
    ensures ValidateInfinite(stripped, "min_velocity") == Ok(b.minVelocity)
  {
  }

  /** The angle and offset maxima survive saving and stripping. */
  lemma SavedFloatLoad(b: Bounds, stripped: map<string, Json>)
    requires stripped == StripNullBounds(SaveBounds(b))
    ensures ValidateFloat(stripped, "max_angle") == Ok(b.maxAngle)
    ensures ValidateFloat(stripped, "max_offset") == Ok(b.maxOffset)
  {
    assert "max_angle" !in NullableBounds && "max_offset" !in NullableBounds;
  }

  /** The vehicle bounds survive saving and stripping. */
  lemma SavedVehicleLoad(b: Bounds, stripped: map<string, Json>)
    requires stripped == StripNullBounds(SaveBounds(b))
    ensures ValidateList(stripped, "min_vehicle").Ok? && ValidateList(stripped, "max_vehicle").Ok?
    ensures PairVehicles(ValidateList(stripped, "min_vehicle").value, ValidateList(stripped, "max_vehicle").value) == b.vehicle
  {
    FieldNamesDiffer();
    if b.vehicle.Some? {
      assert ValidateList(stripped, "max_vehicle") == Ok(Some(b.vehicle.value.max));
      assert ValidateList(stripped, "min_vehicle") == Ok(Some(b.vehicle.value.min));
    }
  }

  /** Without the stripping, the saved defaults would not load: the
      infinite `max_width` is written as null, which a float rejects. */
  lemma SavedDefaultsNeedStripping()
    ensures SaveBounds(DefaultBounds())["max_width"] == Null
    ensures ValidateBounds(SaveBounds(DefaultBounds())) == Err(Invalid("max_width"))
  {
    assert !FieldValid(SaveBounds(DefaultBounds()), "max_width");
  }

  /** A document without saved bounds, or with an empty bounds
      dictionary, loads the class defaults: infinite width and velocity
      bounds, zero angle and offset maxima, no vehicle bounds. */
  lemma LoadEmptyIsDefault(doc: Document)
    requires "bounds" !in doc || doc["bounds"] == map[]
    ensures LoadBounds(doc) == Ok(DefaultBounds())
  {
    if "bounds" in doc {
      assert StripNullBounds(doc["bounds"]) == map[];
    }
  }

  /** After `load` strips the nulls, no nullable bound saved as null or as
      a number is rejected: a null becomes the infinite default and a
      number is kept. */
  lemma LoadAcceptsNullBounds(doc: Document, key: string)
    requires "bounds" in doc && key in NullableBounds
    requires key in doc["bounds"] ==> doc["bounds"][key].Null? || doc["bounds"][key].Num?
    ensures var b := LoadDocument(doc)["bounds"];
      && ValidateInfinite(b, key).Ok?
      && (key in doc["bounds"] && doc["bounds"][key].Num? ==> ValidateInfinite(b, key) == Ok(Some(doc["bounds"][key].x)))
      && (key !in doc["bounds"] || doc["bounds"][key].Null? ==> ValidateInfinite(b, key) == Ok(None))
  {
  }

  /** A null saved for the angle or offset maximum is not stripped, and
      validation rejects it, so the whole load fails. */
  lemma LoadKeepsOtherNulls(doc: Document, key: string)
    requires "bounds" in doc && key in ZeroBounds && key in doc["bounds"] && doc["bounds"][key] == Null
    ensures ValidateFloat(LoadDocument(doc)["bounds"], key) == Err(Invalid(key))
    ensures LoadBounds(doc).Err?
  {
    var b := StripNullBounds(doc["bounds"]);
    var n := if key == "max_angle" then 2 else 3;
    assert BoundFields[n] == key && !FieldValid(b, key);
    ValidateBoundsAccepts(b);
  }

  /** A null vehicle bound loads exactly as a missing one: `None`. */
  lemma LoadNullVehicleIsAbsent(doc: Document, key: string)
    requires "bounds" in doc && key in VehicleFields && key in doc["bounds"] && doc["bounds"][key] == Null
    ensures ValidateList(LoadDocument(doc)["bounds"], key) == Ok(None)
    ensures LoadBounds(doc) == LoadBounds(doc["bounds" := doc["bounds"] - {key}])
  {
    var s := StripNullBounds(doc["bounds"]);
    var s' := StripNullBounds(doc["bounds"] - {key});
    var less := s - {key};
    assert SameFields(s', less);
    SameFieldsValidate(s', less);
    NullListDropped(s, key);
  }

  /** Dropping a vehicle bound that is null changes nothing. */
  lemma NullListDropped(bounds: map<string, Json>, key: string)
    requires key in VehicleFields && key in bounds && bounds[key] == Null
    ensures ValidateBounds(bounds - {key}) == ValidateBounds(bounds)
  {
    var less := bounds - {key};
    FieldNamesDiffer();
    FirstInvalidUnrolled(less);
    FirstInvalidUnrolled(bounds);
    assert ValidateList(less, "max_vehicle") == ValidateList(bounds, "max_vehicle");
    assert ValidateList(less, "min_vehicle") == ValidateList(bounds, "min_vehicle");
  }

  /** Keys that name no field are ignored, whatever their value. */
  lemma LoadIgnoresUnknownKeys(doc: Document, key: string, v: Json)
    requires "bounds" in doc && key !in BoundFields
    ensures LoadBounds(doc["bounds" := doc["bounds"][key := v]]) == LoadBounds(doc)
  {
    var s := StripNullBounds(doc["bounds"]);
    var s' := StripNullBounds(doc["bounds"][key := v]);
    assert key !in NullableBounds;
    assert SameFields(s', s);
    SameFieldsValidate(s', s);
  }
}
