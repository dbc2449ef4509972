/**
 * The canonical telemetry sample (telemetry_objects/transport.py): one position fix of one
 * vehicle, the row it becomes in the buffered-state table, and the envelope sent to the sink.
 */
module TelemetryTransport {
  import opened Wrappers
  import opened PyBuiltins

  /** A normalised sample. Coordinates and readings are plain numbers; timestamps are whole seconds. */
  datatype Transport = Transport(
    ts: int,
    isSent: bool,
    latitude: real,
    longitude: real,
    velocity: real,
    fuelLevel: Option<real>,
    carId: int,
    ignition: Option<real>,
    light: Option<real>,
    lastConn: int,
    name: string)

  /** The fuel rule: a reading is kept only when it is present and positive. */
  function KeptFuel(fuelLevel: Option<real>): (r: Option<real>)
    ensures r.Some? <==> fuelLevel.Some? && fuelLevel.value > 0.0
    ensures r.Some? ==> r == fuelLevel
  {
    if fuelLevel.Some? && fuelLevel.value > 0.0 then fuelLevel else None
  }

  /** `Transport.__init__`: timestamps truncated to whole seconds, non-positive fuel dropped. */
  function NewTransport(
    ts: real, isSent: bool, latitude: real, longitude: real, velocity: real,
    fuelLevel: Option<real>, carId: int, ignition: Option<real>, light: Option<real>,
    lastConn: real, name: string): (t: Transport)
    ensures TruncatesTo(ts, t.ts) && TruncatesTo(lastConn, t.lastConn)
    ensures t.fuelLevel.Some? <==> fuelLevel.Some? && fuelLevel.value > 0.0
    ensures t.fuelLevel.Some? ==> t.fuelLevel == fuelLevel
    ensures t.fuelLevel.None? || t.fuelLevel.value > 0.0
    ensures t.isSent == isSent && t.latitude == latitude && t.longitude == longitude
    ensures t.velocity == velocity && t.carId == carId && t.ignition == ignition
    ensures t.light == light && t.name == name
  {
    Transport(Trunc(ts), isSent, latitude, longitude, velocity, KeptFuel(fuelLevel),
              carId, ignition, light, Trunc(lastConn), name)
  }

  /** What the constructor establishes about every sample it builds. */
  ghost predicate WellFormed(t: Transport) {
    t.fuelLevel.None? || t.fuelLevel.value > 0.0
  }

  /** A sample as a row of the buffered-state table (the dictionary `to_model` returns). */
  datatype StateModel = StateModel(
    ts: int,
    isSent: bool,
    lat: real,
    lon: real,
    velocity: real,
    carId: int,
    fuelLevel: Option<real>,
    ignition: Option<real>,
    light: Option<real>,
    lastConn: int)

  /** `Transport.to_model`: the sample under the table's column names (`lat`, `lon`), without its name. */
  function ToModel(t: Transport): (m: StateModel)
    ensures m.ts == t.ts && m.isSent == t.isSent && m.carId == t.carId && m.lastConn == t.lastConn
    ensures m.lat == t.latitude && m.lon == t.longitude && m.velocity == t.velocity
    ensures m.fuelLevel == t.fuelLevel && m.ignition == t.ignition && m.light == t.light
  {
    StateModel(t.ts, t.isSent, t.latitude, t.longitude, t.velocity, t.carId,
               t.fuelLevel, t.ignition, t.light, t.lastConn)
  }

  /** The row keeps every field of the sample except its name, and nothing else. */
  lemma ToModelForgetsOnlyName(t1: Transport, t2: Transport)
    ensures ToModel(t1) == ToModel(t2) <==> t1.(name := "") == t2.(name := "")
  {
  }

  /** A JSON scalar of the envelope. */
  datatype Scalar = Num(r: real) | Int(i: int)

  /** The payload handed to the sink: a millisecond timestamp and a dictionary of values. */
  datatype Envelope = Envelope(ts: int, values: map<string, Scalar>)

  const LatitudeKey := "latitude"
  const LongitudeKey := "longitude"
  const LastConnKey := "last_conn"
  const VelocityKey := "velocity"
  const FuelKey := "fuel_level"
  const LightKey := "light"
  const IgnitionKey := "ignition"

  /** Adds `key` only when the reading is truthy (`if self.light: data['light'] = ...`). */
  function PutIfTruthy(m: map<string, Scalar>, key: string, v: Option<real>): map<string, Scalar> {
    if Truthy(v) then m[key := Num(v.value)] else m
  }

  /** `Transport.__dict__`: the envelope of one sample. */
  function ToEnvelope(t: Transport): (e: Envelope)
    ensures e.ts == t.ts * 1000
    ensures LatitudeKey in e.values && e.values[LatitudeKey] == Num(t.latitude)
    ensures LongitudeKey in e.values && e.values[LongitudeKey] == Num(t.longitude)
    ensures LastConnKey in e.values && e.values[LastConnKey] == Int(t.lastConn * 1000)
    ensures VelocityKey in e.values <==> t.velocity != 0.0
    ensures FuelKey in e.values <==> Truthy(t.fuelLevel)
    ensures LightKey in e.values <==> Truthy(t.light)
    ensures IgnitionKey in e.values <==> Truthy(t.ignition)
    ensures e.values.Keys <= {LatitudeKey, LongitudeKey, LastConnKey, VelocityKey, FuelKey, LightKey, IgnitionKey}
  {
    var base := map[LatitudeKey := Num(t.latitude), LongitudeKey := Num(t.longitude),
                    LastConnKey := Int(t.lastConn * 1000)];
    var withVelocity := if t.velocity != 0.0 then base[VelocityKey := Num(t.velocity)] else base;
    var withFuel := PutIfTruthy(withVelocity, FuelKey, t.fuelLevel);
    var withLight := PutIfTruthy(withFuel, LightKey, t.light);
    Envelope(t.ts * 1000, PutIfTruthy(withLight, IgnitionKey, t.ignition))
  }

  /** `Transport.form_mqtt_message`: the device name and the envelope. */
  function FormMqttMessage(t: Transport): (m: (string, Envelope))
    ensures m.0 == t.name
    ensures m.1.ts == t.ts * 1000 && m.1 == ToEnvelope(t)
  {
    (t.name, ToEnvelope(t))
  }

  /** What a reader of the envelope can recover of a sample. */
  datatype Reading = Reading(
    ts: int, latitude: real, longitude: real, lastConn: int, velocity: real,
    fuelLevel: Option<real>, light: Option<real>, ignition: Option<real>)

  /** A falsy optional reading reads back as absent. */
  function Visible(v: Option<real>): Option<real> {
    if Truthy(v) then v else None
  }

  /** The reading an envelope is meant to convey: zero velocity and falsy optional readings are absent. */
  function ReadingOf(t: Transport): Reading {
    Reading(t.ts, t.latitude, t.longitude, t.lastConn, t.velocity,
            Visible(t.fuelLevel), Visible(t.light), Visible(t.ignition))
  }

  function NumAt(m: map<string, Scalar>, key: string): Option<real> {
    if key in m && m[key].Num? then Some(m[key].r) else None
  }

  /** Reads an envelope back, in seconds; None when a mandatory key is missing or mistyped. */
  function ReadEnvelope(e: Envelope): Option<Reading> {
    var v := e.values;
    if LatitudeKey in v && v[LatitudeKey].Num? && LongitudeKey in v && v[LongitudeKey].Num?
       && LastConnKey in v && v[LastConnKey].Int?
    then Some(Reading(e.ts / 1000, v[LatitudeKey].r, v[LongitudeKey].r, v[LastConnKey].i / 1000,
                      NumAt(v, VelocityKey).GetOr(0.0), NumAt(v, FuelKey), NumAt(v, LightKey),
                      NumAt(v, IgnitionKey)))
    else None
  }

  /**
   * The envelope loses nothing but what the dropping rules drop: reading it back gives the
   * sample's timestamps in seconds, its coordinates, and exactly its truthy readings.
   */
  lemma EnvelopeRoundTrip(t: Transport)
    ensures ReadEnvelope(ToEnvelope(t)) == Some(ReadingOf(t))
  {
    var e := ToEnvelope(t);
    assert e.ts / 1000 == t.ts;
    assert e.values[LastConnKey].i / 1000 == t.lastConn;
    assert NumAt(e.values, VelocityKey).GetOr(0.0) == t.velocity;
    assert NumAt(e.values, FuelKey) == Visible(t.fuelLevel);
    assert NumAt(e.values, LightKey) == Visible(t.light);
    assert NumAt(e.values, IgnitionKey) == Visible(t.ignition);
  }

  /** For a constructed sample the fuel level survives the envelope whenever it was kept. */
  lemma EnvelopeKeepsKeptFuel(t: Transport)
    requires WellFormed(t)
    ensures FuelKey in ToEnvelope(t).values <==> t.fuelLevel.Some?
  {
  }
}
