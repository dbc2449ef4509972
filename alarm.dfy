/**
 * A provider-raised violation (telemetry_objects/alarm.py): the severity bucket, its table row
 * and the alarm object sent to the sink's REST interface.
 */
module TelemetryAlarm {
  import opened Wrappers
  import opened PyBuiltins

  /** The two severity buckets. */
  datatype Severity = Warning | Critical

  function SeverityName(s: Severity): string {
    match s
    case Warning => "WARNING"
    case Critical => "CRITICAL"
  }

  /** The threshold: raw levels up to 6 are warnings, anything above is critical. */
  function SeverityOf(level: real): (s: Severity)
    ensures s == Warning <==> level <= 6.0
    ensures s == Critical <==> level > 6.0
  {
    if level <= 6.0 then Warning else Critical
  }

  /** A higher raw level never gives a milder bucket. */
  lemma SeverityMonotone(low: real, high: real)
    requires low <= high
    ensures SeverityOf(high) == Warning ==> SeverityOf(low) == Warning
    ensures SeverityOf(low) == Critical ==> SeverityOf(high) == Critical
  {
  }

  datatype Alarm = Alarm(
    id: string,
    title: string,
    message: string,
    level: Severity,
    latitude: real,
    longitude: real,
    recordDate: int,
    dateOfCreation: int,
    carId: int,
    driverFirstName: string,
    driverLastName: string,
    place: string)

  /**
   * `Alarm.__init__`. The three trailing arguments are keyword arguments with default `''`;
   * `None` here stands for "not passed".
   */
  function NewAlarm(
    id: string, title: string, message: string, level: real, latitude: real, longitude: real,
    recordDate: real, dateOfCreation: real, carId: int,
    driverFirstName: Option<string>, driverLastName: Option<string>, place: Option<string>): (a: Alarm)
    ensures a.level == Warning <==> level <= 6.0
    ensures TruncatesTo(recordDate, a.recordDate) && TruncatesTo(dateOfCreation, a.dateOfCreation)
    ensures driverFirstName.None? ==> a.driverFirstName == ""
    ensures driverLastName.None? ==> a.driverLastName == ""
    ensures place.None? ==> a.place == ""
    ensures driverFirstName.Some? ==> a.driverFirstName == driverFirstName.value
    ensures driverLastName.Some? ==> a.driverLastName == driverLastName.value
    ensures place.Some? ==> a.place == place.value
    ensures a.id == id && a.title == title && a.message == message && a.carId == carId
    ensures a.latitude == latitude && a.longitude == longitude
  {
    Alarm(id, title, message, SeverityOf(level), latitude, longitude, Trunc(recordDate),
          Trunc(dateOfCreation), carId, driverFirstName.GetOr(""), driverLastName.GetOr(""),
          place.GetOr(""))
  }

  /** The dictionary `Alarm.to_model` returns. */
  datatype AlarmModel = AlarmModel(
    id: string,
    title: string,
    message: string,
    level: string,
    lat: real,
    lon: real,
    recordDate: int,
    dateOfCreation: int,
    carId: int,
    driverFirstName: string,
    driverLastName: string,
    place: string)

  /** `Alarm.to_model`: latitude and longitude renamed to lat and lon, the rest copied. */
  function AlarmToModel(a: Alarm): (m: AlarmModel)
    ensures m.lat == a.latitude && m.lon == a.longitude
    ensures m.level == SeverityName(a.level) && (m.level == "WARNING" || m.level == "CRITICAL")
    ensures m.id == a.id && m.title == a.title && m.message == a.message && m.carId == a.carId
    ensures m.recordDate == a.recordDate && m.dateOfCreation == a.dateOfCreation
    ensures m.driverFirstName == a.driverFirstName && m.driverLastName == a.driverLastName && m.place == a.place
  {
    AlarmModel(a.id, a.title, a.message, SeverityName(a.level), a.latitude, a.longitude,
               a.recordDate, a.dateOfCreation, a.carId, a.driverFirstName, a.driverLastName, a.place)
  }

  /** The row loses nothing: two alarms with the same row are the same alarm. */
  lemma AlarmToModelInjective(a1: Alarm, a2: Alarm)
    requires AlarmToModel(a1) == AlarmToModel(a2)
    ensures a1 == a2
  {
  }

  /** The alarm object of the sink's REST interface. */
  datatype RestAlarm = RestAlarm(
    alarmType: string,
    name: string,
    severity: string,
    acknowledged: bool,
    cleared: bool,
    startTs: int,
    propagateToOwner: bool,
    propagateToOwnerHierarchy: bool,
    propagate: bool,
    propagateToTenant: bool,
    propagateRelationTypes: seq<string>,
    details: map<string, string>,
    originator: string,
    status: string)

  /** `Alarm.to_rest_object`; `deviceId` is the sink's identifier of the vehicle. */
  function ToRestObject(a: Alarm, deviceId: string): (r: RestAlarm)
    ensures r.alarmType == a.title && r.name == a.title
    ensures r.severity == SeverityName(a.level)
    ensures !r.acknowledged && !r.cleared
    ensures r.startTs == a.dateOfCreation * 1000
    ensures r.details.Keys == {"message"} && r.details["message"] == a.message
    ensures r.status == "ACTIVE_UNACK" && r.originator == deviceId
  {
    RestAlarm(a.title, a.title, SeverityName(a.level), false, false, a.dateOfCreation * 1000,
              true, true, true, true, ["string"], map["message" := a.message], deviceId,
              "ACTIVE_UNACK")
  }

  /** The REST object and the row agree: same severity, same message, creation time in milliseconds. */
  lemma RestAgreesWithModel(a: Alarm, deviceId: string)
    ensures ToRestObject(a, deviceId).severity == AlarmToModel(a).level
    ensures ToRestObject(a, deviceId).startTs == AlarmToModel(a).dateOfCreation * 1000
    ensures ToRestObject(a, deviceId).details["message"] == AlarmToModel(a).message
    ensures ToRestObject(a, deviceId).alarmType == AlarmToModel(a).title
  {
  }

  /** Only the two bucket names can ever reach the sink. */
  lemma SeverityHasTwoNames(a: Alarm, deviceId: string)
    ensures ToRestObject(a, deviceId).severity in {"WARNING", "CRITICAL"}
  {
  }
}
