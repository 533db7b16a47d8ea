/** The transform settings object: turning vehicle dictionaries into
    vectors by a named or explicit key order, and choosing the transform
    method that turns normalised data into model inputs. */
module Transformer {
  import opened Wrappers
  import opened Encoder

  /** The published vehicle encodings; `V1` lists sixteen keys. */
  const V1Keys: seq<string> := [
    "track_front", "track_rear", "wheel_base_front", "wheel_base_rear",
    "mass", "k_drive_front", "k_roll", "tyre_friction",
    "max_power", "cog_height", "lift_coeff_front", "lift_coeff_rear",
    "v_max", "drag_coeff", "yaw_inertia", "k_brake_front"]

  const DefaultInputs: seq<string> := ["widths", "angles", "offsets"]
  const DefaultOutputs: seq<string> := ["positions", "velocities"]

  /** A vehicle encoding: the name of a published key list, or the keys
      themselves. */
  datatype Encoding = Named(name: string) | Keys(keys: seq<string>)

  datatype TransformError =
    | UnknownEncoding(name: string)                   // KeyError from the encodings table
    | MissingAttribute(snake: string, camel: string)  // ValueError naming both spellings
    | UnknownMethod(name: string)

  /** The key order of an encoding; only `V1` is published. */
  function KeysOrder(e: Encoding): (r: Result<seq<string>, TransformError>)
    ensures e.Keys? ==> r == Ok(e.keys)
    ensures e.Named? ==> (r.Ok? <==> e.name == "V1")
    ensures e.Named? && r.Ok? ==> |r.value| == 16
    ensures r.Err? ==> r.error == UnknownEncoding(e.name)
  {
    match e
    case Keys(ks) => Ok(ks)
    case Named(n) => if n == "V1" then Ok(V1Keys) else Err(UnknownEncoding(n))
  }

  /* ---------------- key spelling ---------------- */

  /** ASCII lower-casing of one character. */
  function LowerChar(c: char): (r: char)
    ensures 'A' <= c <= 'Z' ==> r as int == c as int + 32
    ensures !('A' <= c <= 'Z') ==> r == c
    ensures !('A' <= r <= 'Z')
  {
    if 'A' <= c <= 'Z' then (c as int + 32) as char else c
  }

  function Lower(s: string): (r: string)
    ensures |r| == |s|
    ensures forall i :: 0 <= i < |s| ==> r[i] == LowerChar(s[i])
  {
    seq(|s|, i requires 0 <= i < |s| => LowerChar(s[i]))
  }

  /** Lower-casing twice is lower-casing once. */
  lemma LowerIdempotent(s: string)
    ensures Lower(Lower(s)) == Lower(s)
  {
    forall i | 0 <= i < |s|
      ensures Lower(Lower(s))[i] == Lower(s)[i]
    {
      assert !('A' <= Lower(s)[i] <= 'Z');
    }
  }

  /** `s` with every underscore removed. */
  function RemoveUnderscores(s: string): (r: string)
    ensures '_' !in r
    ensures |r| <= |s|
    ensures '_' !in s ==> r == s
  {
    if |s| == 0 then []
    else if s[0] == '_' then RemoveUnderscores(s[1..])
    else [s[0]] + RemoveUnderscores(s[1..])
  }

  /** The camel-case spelling a snake-case key is also looked up under. */
  function CamelKey(key: string): (r: string)
    ensures '_' !in r
    ensures forall i :: 0 <= i < |r| ==> !('A' <= r[i] <= 'Z')
  {
    Lower(RemoveUnderscores(key))
  }

  /** The vehicle re-keyed by lower-cased names; when two names agree once
      lower-cased, the later item wins, as in a dictionary comprehension. */
  function LowerKeyed(v: VehicleDict): (r: map<string, real>)
    ensures forall i :: 0 <= i < |v| ==> Lower(v[i].0) in r
    ensures forall k :: k in r ==> exists i :: 0 <= i < |v| && Lower(v[i].0) == k
  {
    if |v| == 0 then map[]
    else LowerKeyed(v[..|v| - 1])[Lower(v[|v| - 1].0) := v[|v| - 1].1]
  }

  /** The value kept under a lower-cased name is that of the last item
      carrying the name. */
  lemma {:induction false} LowerKeyedLastWins(v: VehicleDict, i: int)
    requires 0 <= i < |v|
    requires forall j :: i < j < |v| ==> Lower(v[j].0) != Lower(v[i].0)
    ensures LowerKeyed(v)[Lower(v[i].0)] == v[i].1
    decreases |v|
  {
    if i < |v| - 1 {
      var w := v[..|v| - 1];
      assert w[i] == v[i];
      forall j | i < j < |w|
        ensures Lower(w[j].0) != Lower(w[i].0)
      {
        assert w[j] == v[j];
      }
      LowerKeyedLastWins(w, i);
    }
  }

  /** A key resolves when it is present as written, or in its camel-case
      spelling. */
  predicate Matches(lk: map<string, real>, key: string) {
    key in lk || CamelKey(key) in lk
  }

  /** The value a matching key resolves to: the exact spelling first. */
  function Resolved(lk: map<string, real>, key: string): real
    requires Matches(lk, key)
  {
    if key in lk then lk[key] else lk[CamelKey(key)]
  }

  /** Looks the keys up in order; the first key that matches neither
      spelling raises. */
  function LookupAll(lk: map<string, real>, keys: seq<string>): (r: Result<seq<real>, TransformError>)
    ensures r.Ok? <==> forall i :: 0 <= i < |keys| ==> Matches(lk, keys[i])
    ensures r.Ok? ==> |r.value| == |keys| && forall i :: 0 <= i < |keys| ==> r.value[i] == Resolved(lk, keys[i])
    ensures r.Err? ==> exists i :: (0 <= i < |keys| && !Matches(lk, keys[i])
                                    && (forall j :: 0 <= j < i ==> Matches(lk, keys[j]))
                                    && r.error == MissingAttribute(keys[i], CamelKey(keys[i])))
  {
    if |keys| == 0 then Ok([])
    else if !Matches(lk, keys[0]) then Err(MissingAttribute(keys[0], CamelKey(keys[0])))
    else
      var rest := LookupAll(lk, keys[1..]);
      if rest.Err? then
        assert forall j :: 0 <= j < |keys[1..]| ==> keys[1..][j] == keys[j + 1];
        rest
      else
        Ok([Resolved(lk, keys[0])] + rest.value)
  }

  /** Encodes one vehicle as the values of the encoding's keys, in order. */
  function TransformVehicle(e: Encoding, v: VehicleDict): (r: Result<seq<real>, TransformError>)
    ensures KeysOrder(e).Err? ==> r == Err(KeysOrder(e).error)
    ensures KeysOrder(e).Ok? ==> r == LookupAll(LowerKeyed(v), KeysOrder(e).value)
  {
    var keys :- KeysOrder(e);
    LookupAll(LowerKeyed(v), keys)
  }

  /** A vehicle encoded with `V1` has sixteen entries. */
  lemma V1VectorLength(v: VehicleDict)
    ensures TransformVehicle(Named("V1"), v).Ok? ==> |TransformVehicle(Named("V1"), v).value| == 16
  {
  }

  /** The exact spelling is preferred over the camel-case one. */
  lemma ExactSpellingPreferred(v: VehicleDict, key: string, i: int)
    requires 0 <= i < |v| && Lower(v[i].0) == key
    requires forall j :: i < j < |v| ==> Lower(v[j].0) != key
    ensures TransformVehicle(Keys([key]), v) == Ok([v[i].1])
  {
    LowerKeyedLastWins(v, i);
    var lk := LowerKeyed(v);
    assert key in lk && Resolved(lk, key) == v[i].1;
    var r := LookupAll(lk, [key]);
    assert Matches(lk, [key][0]);
    assert r.value[0] == v[i].1;
    assert r.value == [v[i].1];
  }

  /** A camel-case vehicle answers a snake-case key, and a key found in
      neither spelling raises with both spellings. */
  lemma CamelSpellingExample()
    ensures TransformVehicle(Keys(["k_roll"]), [("KRoll", 6.0)]) == Ok([6.0])
    ensures TransformVehicle(Keys(["k_roll", "mass"]), [("KRoll", 6.0)]) == Err(MissingAttribute("mass", "mass"))
  {
    SpellingsOfKRoll();
    var lk := LowerKeyed([("KRoll", 6.0)]);
    assert lk == map["kroll" := 6.0];
    assert "k_roll" !in lk;
    assert Resolved(lk, "k_roll") == 6.0;
    var r := LookupAll(lk, ["k_roll"]);
    assert Matches(lk, ["k_roll"][0]);
    assert r.value[0] == 6.0;
    assert r.value == [6.0];
    SpellingOfMass();
    assert !Matches(lk, "mass");
    assert LookupAll(lk, ["k_roll", "mass"][1..]) == Err(MissingAttribute("mass", "mass"));
  }

  lemma SpellingOfMass()
    ensures CamelKey("mass") == "mass"
  {
    assert '_' !in "mass";
    var c := Lower("mass");
    assert c[0] == 'm' && c[1] == 'a' && c[2] == 's' && c[3] == 's';
  }

  lemma SpellingsOfKRoll()
    ensures Lower("KRoll") == "kroll"
    ensures CamelKey("k_roll") == "kroll"
  {
    var l := Lower("KRoll");
    assert l[0] == 'k' && l[1] == 'r' && l[2] == 'o' && l[3] == 'l' && l[4] == 'l';
    assert '_' !in "roll";
    assert RemoveUnderscores("_roll") == "roll" by {
      assert "_roll"[1..] == "roll";
    }
    assert RemoveUnderscores("k_roll") == ['k'] + "roll" by {
      assert "k_roll"[1..] == "_roll";
    }
    var c := Lower(['k'] + "roll");
    assert c[0] == 'k' && c[1] == 'r' && c[2] == 'o' && c[3] == 'l' && c[4] == 'l';
  }

  /** Vectorises each vehicle in order; the first vehicle that fails
      raises. */
  function VectoriseVehicles(e: Encoding, vs: seq<VehicleDict>): (r: Result<seq<seq<real>>, TransformError>)
    ensures r.Ok? <==> forall i :: 0 <= i < |vs| ==> TransformVehicle(e, vs[i]).Ok?
    ensures r.Ok? ==> |r.value| == |vs| && forall i :: 0 <= i < |vs| ==> r.value[i] == TransformVehicle(e, vs[i]).value
    ensures r.Err? ==> exists i :: (0 <= i < |vs| && TransformVehicle(e, vs[i]) == Err(r.error)
                                    && forall j :: 0 <= j < i ==> TransformVehicle(e, vs[j]).Ok?)
  {
    if |vs| == 0 then Ok([])
    else
      var head := TransformVehicle(e, vs[0]);
      if head.Err? then Err(head.error)
      else
        var rest := VectoriseVehicles(e, vs[1..]);
        if rest.Err? then
          FailureShifts(v => TransformVehicle(e, v), vs, rest.error);
          rest
        else
          Ok([head.value] + rest.value)
  }

  /** A failure among the items after a first one that succeeds is a
      failure of all of them, one place further on. */
  lemma FailureShifts<T, V, E>(f: T -> Result<V, E>, vs: seq<T>, err: E)
    requires |vs| > 0 && f(vs[0]).Ok?
    requires exists i :: (0 <= i < |vs[1..]| && f(vs[1..][i]) == Err(err)
                          && forall j :: 0 <= j < i ==> f(vs[1..][j]).Ok?)
    ensures exists i :: (0 <= i < |vs| && f(vs[i]) == Err(err) && forall j :: 0 <= j < i ==> f(vs[j]).Ok?)
    ensures !(forall i :: 0 <= i < |vs| ==> f(vs[i]).Ok?)
  {
    var i :| 0 <= i < |vs[1..]| && f(vs[1..][i]) == Err(err) && forall j :: 0 <= j < i ==> f(vs[1..][j]).Ok?;
    assert vs[1..][i] == vs[i + 1];
    forall j | 0 <= j < i + 1
      ensures f(vs[j]).Ok?
    {
      if j > 0 {
        assert vs[1..][j - 1] == vs[j];
      }
    }
  }

  /* ---------------- choosing the transform method ---------------- */

  datatype Method = Bidirectional | Lag | StatefulLag | Window | FlatWindow

  /** The transform settings; `randomRepeats` and `decimation` are carried
      but never read by the transforms. */
  datatype Transform = Transform(
    methodName: string, encoding: Encoding,
    inputs: seq<string>, outputs: seq<string>,
    foresight: Option<int>, sampling: Option<int>, lag: Option<int>,
    patchSize: int, timeToVec: bool)

  function DefaultTransform(): Transform {
    Transform("window", Named("V1"), DefaultInputs, DefaultOutputs, None, None, None, 1, false)
  }

  /** The parameters copied onto the chosen method. */
  datatype MethodParams = MethodParams(
    inputs: seq<string>, outputs: seq<string>,
    sampling: Option<int>, patchSize: int, lag: Option<int>, foresight: Option<int>, timeToVec: bool)

  datatype Configured = Configured(kind: Method, params: MethodParams)

  /** The name each method is registered under. */
  function MethodName(m: Method): string {
    match m
    case Bidirectional => "bidirectional"
    case Lag => "lag"
    case StatefulLag => "stateful-lag"
    case Window => "window"
    case FlatWindow => "flat-window"
  }

  function MethodNamed(name: string): (r: Option<Method>)
    ensures r.Some? ==> MethodName(r.value) == name
    ensures r.None? ==> forall m: Method :: MethodName(m) != name
  {
    if name == "bidirectional" then Some(Bidirectional)
    else if name == "lag" then Some(Lag)
    else if name == "stateful-lag" then Some(StatefulLag)
    else if name == "window" then Some(Window)
    else if name == "flat-window" then Some(FlatWindow)
    else None
  }

  /** Names the registered method and hands it the settings' parameters;
      an unknown name raises. */
  function GetTransform(t: Transform): (r: Result<Configured, TransformError>)
    ensures r.Err? <==> forall m: Method :: MethodName(m) != t.methodName
    ensures r.Err? ==> r.error == UnknownMethod(t.methodName)
    ensures r.Ok? ==> MethodName(r.value.kind) == t.methodName
    ensures r.Ok? ==> (r.value.params.inputs == t.inputs && r.value.params.outputs == t.outputs
                       && r.value.params.sampling == t.sampling && r.value.params.patchSize == t.patchSize
                       && r.value.params.lag == t.lag && r.value.params.foresight == t.foresight
                       && r.value.params.timeToVec == t.timeToVec)
  {
    match MethodNamed(t.methodName)
    case None => Err(UnknownMethod(t.methodName))
    case Some(m) => Ok(Configured(m, MethodParams(t.inputs, t.outputs, t.sampling, t.patchSize, t.lag, t.foresight, t.timeToVec)))
  }

  /** Every method is found under its own name. */
  lemma MethodNamesRoundTrip(m: Method)
    ensures MethodNamed(MethodName(m)) == Some(m)
  {
  }
}
