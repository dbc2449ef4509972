/** The sensors table's queries (database/queries/sensor_orm.py). */
module SensorQueries {
  import opened CityPointRecords
  import opened Repository

  /** The destination code of fuel sensors. */
  const FuelDestination := 100

  function CpSensorId(s: CpSensor): int { s.id }

  function SensorId(r: Sensor): int { r.id }

  /** The row a catalogue sensor becomes. */
  function SensorRow(s: CpSensor): (r: Sensor)
    ensures r.id == s.id && r.sensorName == s.sensorName
    ensures r.destination == s.destination && r.sensorType == s.sensorType
  {
    Sensor(s.id, s.sensorName, s.destination, s.sensorType)
  }

  /** `add_sensors_if_not_exist`. */
  method AddSensorsIfNotExist(db: Database, sensors: seq<CpSensor>)
    requires db.Valid()
    modifies db`sensors
    ensures db.Valid()
    ensures db.sensors == InsertAllIfAbsent(old(db.sensors), sensors, CpSensorId, SensorRow)
  {
    db.sensors := InsertEachIfAbsent(db.sensors, sensors, CpSensorId, SensorRow);
    InsertKeepsKeying(old(db.sensors), sensors, CpSensorId, SensorRow, SensorId);
  }

  /** `get_sensors_by_destination`. */
  function GetSensorsByDestination(sensors: map<int, Sensor>, destination: int): (r: set<int>)
    ensures forall id :: id in r <==> id in sensors && sensors[id].destination == destination
  {
    set id | id in sensors && sensors[id].destination == destination
  }

  /** `get_fuel_sensors_ids`, written with its own literal. */
  function GetFuelSensorsIds(sensors: map<int, Sensor>): (r: set<int>)
    ensures forall id :: id in r ==> id in sensors
  {
    set id | id in sensors && sensors[id].destination == 100
  }

  /** The fuel query is the destination query at destination 100. */
  lemma FuelIsDestination100(sensors: map<int, Sensor>)
    ensures GetFuelSensorsIds(sensors) == GetSensorsByDestination(sensors, FuelDestination)
  {
  }

  /** `get_all_sensors`: every row of the table. */
  function GetAllSensors(sensors: map<int, Sensor>): (r: set<Sensor>)
    ensures forall id :: id in sensors ==> sensors[id] in r
    ensures SensorsKeyed(sensors) ==> forall s :: s in r ==> s.id in sensors && sensors[s.id] == s
  {
    set id | id in sensors :: sensors[id]
  }

  /** Distinct destinations select disjoint sensor sets. */
  lemma DestinationsPartition(sensors: map<int, Sensor>, d1: int, d2: int)
    requires d1 != d2
    ensures GetSensorsByDestination(sensors, d1) !! GetSensorsByDestination(sensors, d2)
  {
  }

  /**
   * After the insert, a catalogue sensor that was new is found by its destination; a sensor
   * already present keeps its old destination, whatever the catalogue now says.
   */
  lemma {:induction false} NewSensorsFoundByDestination(sensors: map<int, Sensor>, batch: seq<CpSensor>)
    ensures var after := InsertAllIfAbsent(sensors, batch, CpSensorId, SensorRow);
            && (forall i :: 0 <= i < |batch| && batch[i].id !in sensors
                            && (forall j :: 0 <= j < i ==> batch[j].id != batch[i].id) ==>
                  batch[i].id in GetSensorsByDestination(after, batch[i].destination))
            && (forall id :: id in sensors ==>
                  (id in GetSensorsByDestination(after, sensors[id].destination)))
  {
    var after := InsertAllIfAbsent(sensors, batch, CpSensorId, SensorRow);
    InsertKeepsExisting(sensors, batch, CpSensorId, SensorRow);
    forall i | 0 <= i < |batch| && batch[i].id !in sensors
               && (forall j :: 0 <= j < i ==> batch[j].id != batch[i].id)
      ensures batch[i].id in GetSensorsByDestination(after, batch[i].destination)
    {
      InsertFirstWins(sensors, batch, CpSensorId, SensorRow, i);
    }
  }
}
