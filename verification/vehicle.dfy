/** The vehicle parameters (`lapsim.vehicles.Vehicle`): eighteen numbers,
    each 0 unless given, settable by attribute name, and flattened by
    `to_array` in a fixed order. */
module Vehicles {
  import opened Wrappers

  datatype Vehicle = Vehicle(
    width: real, trackFront: real, trackRear: real, wheelBaseFront: real, wheelBaseRear: real,
    mass: real, kDriveFront: real, kRoll: real, tyreFriction: real, maxPower: real,
    cogHeight: real, fDriveMax: real, liftCoeffFront: real, liftCoeffRear: real, vMax: real,
    dragCoeff: real, yawInertia: real, kBrakeFront: real)

  /** One parameter of a vehicle. */
  datatype Field =
    | Width | TrackFront | TrackRear | WheelBaseFront | WheelBaseRear
    | Mass | KDriveFront | KRoll | TyreFriction | MaxPower
    | CogHeight | FDriveMax | LiftCoeffFront | LiftCoeffRear | VMax
    | DragCoeff | YawInertia | KBrakeFront

  /** The order of `to_array`. */
  const FieldOrder: seq<Field> := [
    Width, TrackFront, TrackRear, WheelBaseFront, WheelBaseRear,
    Mass, KDriveFront, KRoll, TyreFriction, MaxPower,
    CogHeight, FDriveMax, LiftCoeffFront, LiftCoeffRear, VMax,
    DragCoeff, YawInertia, KBrakeFront]

  /** The Python attribute name of a field (not its camel-case alias). */
  function Name(f: Field): string {
    match f
    case Width => "width"
    case TrackFront => "track_front"
    case TrackRear => "track_rear"
    case WheelBaseFront => "wheel_base_front"
    case WheelBaseRear => "wheel_base_rear"
    case Mass => "mass"
    case KDriveFront => "k_drive_front"
    case KRoll => "k_roll"
    case TyreFriction => "tyre_friction"
    case MaxPower => "max_power"
    case CogHeight => "cog_height"
    case FDriveMax => "f_drive_max"
    case LiftCoeffFront => "lift_coeff_front"
    case LiftCoeffRear => "lift_coeff_rear"
    case VMax => "v_max"
    case DragCoeff => "drag_coeff"
    case YawInertia => "yaw_inertia"
    case KBrakeFront => "k_brake_front"
  }

  function Get(v: Vehicle, f: Field): real {
    match f
    case Width => v.width
    case TrackFront => v.trackFront
    case TrackRear => v.trackRear
    case WheelBaseFront => v.wheelBaseFront
    case WheelBaseRear => v.wheelBaseRear
    case Mass => v.mass
    case KDriveFront => v.kDriveFront
    case KRoll => v.kRoll
    case TyreFriction => v.tyreFriction
    case MaxPower => v.maxPower
    case CogHeight => v.cogHeight
    case FDriveMax => v.fDriveMax
    case LiftCoeffFront => v.liftCoeffFront
    case LiftCoeffRear => v.liftCoeffRear
    case VMax => v.vMax
    case DragCoeff => v.dragCoeff
    case YawInertia => v.yawInertia
    case KBrakeFront => v.kBrakeFront
  }

  function Set(v: Vehicle, f: Field, x: real): Vehicle {
    match f
    case Width => v.(width := x)
    case TrackFront => v.(trackFront := x)
    case TrackRear => v.(trackRear := x)
    case WheelBaseFront => v.(wheelBaseFront := x)
    case WheelBaseRear => v.(wheelBaseRear := x)
    case Mass => v.(mass := x)
    case KDriveFront => v.(kDriveFront := x)
    case KRoll => v.(kRoll := x)
    case TyreFriction => v.(tyreFriction := x)
    case MaxPower => v.(maxPower := x)
    case CogHeight => v.(cogHeight := x)
    case FDriveMax => v.(fDriveMax := x)
    case LiftCoeffFront => v.(liftCoeffFront := x)
    case LiftCoeffRear => v.(liftCoeffRear := x)
    case VMax => v.(vMax := x)
    case DragCoeff => v.(dragCoeff := x)
    case YawInertia => v.(yawInertia := x)
    case KBrakeFront => v.(kBrakeFront := x)
  }

  /** Setting a field changes that field and no other. */
  lemma SetGet(v: Vehicle, f: Field, x: real, g: Field)
    ensures Get(Set(v, f, x), g) == if f == g then x else Get(v, g)
  {
  }

  /** A vehicle built with no arguments: every field defaults to 0. */
  function Default(): (v: Vehicle)
    ensures v.width == 0.0 && v.kBrakeFront == 0.0
  {
    Vehicle(0.0, 0.0, 0.0, 0.0, 0.0, 0.0, 0.0, 0.0, 0.0, 0.0, 0.0, 0.0, 0.0, 0.0, 0.0, 0.0, 0.0, 0.0)
  }

  lemma DefaultIsZero(f: Field)
    ensures Get(Default(), f) == 0.0
  {
  }

  /** The field whose attribute name is `key`, if any. */
  function FieldNamed(key: string): (r: Option<Field>)
    ensures r.Some? ==> Name(r.value) == key
    ensures r.None? ==> forall i :: 0 <= i < |FieldOrder| ==> Name(FieldOrder[i]) != key
  {
    FieldNamedFrom(key, 0)
  }

  function FieldNamedFrom(key: string, i: nat): (r: Option<Field>)
    requires i <= |FieldOrder|
    ensures r.Some? ==> Name(r.value) == key
    ensures r.None? ==> forall j :: i <= j < |FieldOrder| ==> Name(FieldOrder[j]) != key
    decreases |FieldOrder| - i
  {
    if i == |FieldOrder| then None
    else if Name(FieldOrder[i]) == key then Some(FieldOrder[i])
    else FieldNamedFrom(key, i + 1)
  }

  /** Every field is in the order, so an attribute name is always found. */
  lemma FieldOrderComplete(f: Field)
    ensures f in FieldOrder
  {
  }

  /** `vehicle[key] = value`: an attribute name sets that field, any other
      key raises. */
  function SetItem(v: Vehicle, key: string, value: real): (r: Result<Vehicle, string>)
    ensures r.Err? <==> forall f: Field :: Name(f) != key
    ensures r.Err? ==> r.error == key
    ensures r.Ok? ==> exists f :: Name(f) == key && r.value == Set(v, f, value)
  {
    match FieldNamed(key)
    case None =>
      assert forall f: Field :: Name(f) != key by {
        forall f: Field ensures Name(f) != key {
          FieldOrderComplete(f);
        }
      }
      Err(key)
    case Some(f) => Ok(Set(v, f, value))
  }

  /** Setting an existing attribute changes only that field. */
  lemma SetItemOnlyThatField(v: Vehicle, f: Field, value: real, g: Field)
    ensures SetItem(v, Name(f), value).Ok?
    ensures Get(SetItem(v, Name(f), value).value, g) == if g == f then value else Get(v, g)
  {
    var r := SetItem(v, Name(f), value).value;
    var h :| Name(h) == Name(f) && r == Set(v, h, value);
    NameInjective(f, h);
    SetGet(v, f, value, g);
  }

  /** Distinct fields have distinct attribute names. */
  lemma NameInjective(f: Field, g: Field)
    requires Name(f) == Name(g)
    ensures f == g
  {
  }

  /** `to_array`: the eighteen fields, `width` first and `k_brake_front` last. */
  function ToArray(v: Vehicle): (r: seq<real>)
    ensures |r| == |FieldOrder| == 18
    ensures forall i :: 0 <= i < |r| ==> r[i] == Get(v, FieldOrder[i])
  {
    [v.width, v.trackFront, v.trackRear, v.wheelBaseFront, v.wheelBaseRear,
     v.mass, v.kDriveFront, v.kRoll, v.tyreFriction, v.maxPower,
     v.cogHeight, v.fDriveMax, v.liftCoeffFront, v.liftCoeffRear, v.vMax,
     v.dragCoeff, v.yawInertia, v.kBrakeFront]
  }

  /** `to_array` loses nothing: two vehicles with the same array are the same. */
  lemma ToArrayInjective(a: Vehicle, b: Vehicle)
    requires ToArray(a) == ToArray(b)
    ensures a == b
  {
    assert forall i :: 0 <= i < 18 ==> ToArray(a)[i] == ToArray(b)[i];
  }

  /** The slot of a field in `to_array`. */
  function Slot(f: Field): (i: nat)
    ensures i < |FieldOrder| && FieldOrder[i] == f
  {
    match f
    case Width => 0
    case TrackFront => 1
    case TrackRear => 2
    case WheelBaseFront => 3
    case WheelBaseRear => 4
    case Mass => 5
    case KDriveFront => 6
    case KRoll => 7
    case TyreFriction => 8
    case MaxPower => 9
    case CogHeight => 10
    case FDriveMax => 11
    case LiftCoeffFront => 12
    case LiftCoeffRear => 13
    case VMax => 14
    case DragCoeff => 15
    case YawInertia => 16
    case KBrakeFront => 17
  }

  /** Setting a field changes exactly its slot of the array. */
  lemma SetItemArray(v: Vehicle, f: Field, value: real)
    ensures SetItem(v, Name(f), value).Ok?
    ensures ToArray(SetItem(v, Name(f), value).value) == ToArray(v)[Slot(f) := value]
  {
    var r := SetItem(v, Name(f), value).value;
    SetItemOnlyThatField(v, f, value, f);
    forall j | 0 <= j < 18
      ensures ToArray(r)[j] == ToArray(v)[Slot(f) := value][j]
    {
      SetItemOnlyThatField(v, f, value, FieldOrder[j]);
      if j != Slot(f) {
        SlotOf(j);
      }
    }
  }

  /** The slot of the field at position `j` is `j`. */
  lemma SlotOf(j: nat)
    requires j < |FieldOrder|
    ensures Slot(FieldOrder[j]) == j
  {
  }
}
