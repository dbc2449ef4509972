/** The shapes of the REST-polled provider's records, as the connector and the repository read them. */
module CityPointRecords {
  import opened Wrappers

  /** A string attribute of a listed vehicle: the key absent (or no `attributes` object), JSON null, or a string. */
  datatype Attr = Absent | Null | Text(text: string)

  /** `attributes.get(key, default)`: the default for an absent key, None for a JSON null. */
  function AttrGet(a: Attr, default: string): (r: Option<string>)
    ensures r.None? <==> a.Null?
    ensures a.Absent? ==> r == Some(default)
    ensures a.Text? ==> r == Some(a.text)
  {
    match a
    case Absent => Some(default)
    case Null => None
    case Text(t) => Some(t)
  }

  /**
   * A vehicle of the vehicle list. `isHidden` is None when the key is absent or null; SQL
   * inserts it as the column default then.
   */
  datatype CpCar = CpCar(id: int, model: Attr, regNumber: Attr, isHidden: Option<bool>)

  /** The registration number is JSON null: calling a string method on it raises. */
  predicate RegNumberIsNull(c: CpCar) {
    c.regNumber.Null?
  }

  /** A sensor of the sensor catalogue. */
  datatype CpSensor = CpSensor(id: int, sensorName: string, destination: int, sensorType: int)

  /** One sensor reading of a current state. */
  datatype SensorReading = SensorReading(id: int, value: real)

  /** A current state: parsed RecordDate and LattestGpsDate are whole seconds of the provider's clock. */
  datatype CpState = CpState(
    id: int,
    lat: real,
    lon: real,
    velocity: real,
    recordDate: int,
    latestGpsDate: int,
    sensors: seq<SensorReading>)

  /** `[s for s in sensors if s['id'] == id]` and its first element, if any. */
  function FirstWithId(sensors: seq<SensorReading>, id: int): (r: Option<SensorReading>)
    ensures r.None? <==> forall i :: 0 <= i < |sensors| ==> sensors[i].id != id
    ensures r.Some? ==> r.value.id == id && r.value in sensors
    ensures r.Some? ==> exists i :: 0 <= i < |sensors| && sensors[i] == r.value
                                    && forall j :: 0 <= j < i ==> sensors[j].id != id
  {
    if sensors == [] then None
    else if sensors[0].id == id then Some(sensors[0])
    else
      var rest := FirstWithId(sensors[1..], id);
      assert forall j :: 1 <= j < |sensors| ==> sensors[j] == sensors[1..][j - 1];
      rest
  }

  /** `[s for s in sensors if s['id'] in ids]` and its first element, if any. */
  function FirstWithIdIn(sensors: seq<SensorReading>, ids: set<int>): (r: Option<SensorReading>)
    ensures r.None? <==> forall i :: 0 <= i < |sensors| ==> sensors[i].id !in ids
    ensures r.Some? ==> r.value.id in ids && r.value in sensors
    ensures r.Some? ==> exists i :: 0 <= i < |sensors| && sensors[i] == r.value
                                    && forall j :: 0 <= j < i ==> sensors[j].id !in ids
  {
    if sensors == [] then None
    else if sensors[0].id in ids then Some(sensors[0])
    else
      var rest := FirstWithIdIn(sensors[1..], ids);
      assert forall j :: 1 <= j < |sensors| ==> sensors[j] == sensors[1..][j - 1];
      rest
  }
}
