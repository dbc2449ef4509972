# Fleet-telemetry bridge: the verified core

The bridge polls two fleet-telemetry providers and forwards what it receives to a telemetry sink:

- **the REST-polled provider** ("CityPoint"), which uses OAuth-style tokens;
- **the session/event provider** ("Wialon"), which reports the units' last messages.

Everything on the way is kept in a small relational database: cars, sensors, buffered unsent states, counters and run-time windows.

This project models the deterministic rules underneath the HTTP, MQTT, ORM and asyncio glue, and proves properties of them:

- **Value objects.** The canonical sample (`Transport`) and the alarm: how they normalise their inputs, the record stored for them, and the envelope published for them. Modules: `TelemetryTransport`, `TelemetryAlarm`, `PyBuiltins`.
- **Vehicle naming.** The name derivation for the session/event provider's units: separator stripping and the mobile-group pattern. Module: `VehicleNaming`.
- **Per-record conversion.** What each connector does with the provider's records, one pass of each polling loop at a time. Modules: `CityPointConnector`, `WialonConnector`, `ConnectorCommon`, `CityPointRecords`, `WialonRecords`.
- **The database as in-memory tables.** The generic insert-if-absent loop, the filters, the counter aggregate, the buffered-state page and the run-time log. Modules: `Repository`, `CarQueries`, `SensorQueries`, `LegacyOperations`, `CounterQueries`, `CarStateQueries`, `RunTimeQueries`.
  - Cars and sensors are maps keyed by primary key.
  - Buffered states, counters and run times are sequences in insertion order, with auto-incremented ids.
- **The buffer flush to the MQTT gateway.** An imperative loop proved against a replay of its own attempt log. Module: `CubaMqttClient`.
- **The token life cycle of the REST-polled provider's adapter.** Two revisions:
  - `MonitoringCityPoint` (monitoring_source/citypoint_source.py);
  - `TmCityPoint` (tm_source/citypoint_source.py).

  They share the rules in `CityPointToken`: the password grant and the refresh_token grant (sections 4.3 and 6 of RFC 6749), the header, the 2xx-or-None reply rule and the expiry test.

**How the outside world enters the model.** The clock, the providers' replies, the broker's result codes and the authentication answers are all parameters.

- The clock is whole seconds.
- A reply is either an exception the request raised or a status with a body.
- The broker's answers are a sequence of result codes consumed in order.
- Each endless loop (`while True` with a sleep) is modelled as one pass of its body.
- A retry loop (`while not f(): sleep(10)`) is modelled over a finite sequence of attempts. It ends in a distinguished "still retrying" result when the attempts run out.

**Python and SQL semantics made explicit.**

- Python's `int()` truncates toward zero.
- Truthiness: `None` and `0` are false.
- `is_hidden == False` excludes NULL. The modelled inserts never store NULL there: the ORM leaves a None attribute out of the INSERT, so the column default False applies.
- A vehicle attribute is absent, JSON null or a string. `get(key, default)` gives the default only for an absent key; a null stays None, which an f-string renders as `None`.
- MIN and MAX ignore NULL.
- Exceptions become an `Err` result: `TypeError` for subscripting `None`, `AttributeError` for calling a method on `None`, `IndexError` for `[0]` of an empty list, and `IntegrityError` for a foreign-key violation at commit.

**The older query module.** database/operations.py repeats several of the class-based queries: `get_fuel_sensors_ids`, `get_sensors_by_destination`, `get_all_cars_ids`, `add_sensors_if_not_exist`, `add_wialon_transport_if_not_exists`, `save_unsent_telemetry` and `save_unsent_telemetry_list`. They behave as the members of `SensorQueries`, `CarQueries` and `CarStateQueries` of the same name, which model both. Only its `add_transport_if_not_exists` builds a different row; `LegacyOperations` models it.

**The cars table's schema.** database/models.py is older than the queries. It has no `source` column on `cars` and no `counters` or `run_times` tables. The model takes those columns from the queries that use them. Rows inserted by code that does not set `source` hold None there.

## Model

| member | source | states |
|---|---|---|
| TelemetryTransport.KeptFuel | telemetry_objects/transport.py:10 | the fuel level is kept exactly when it is given and positive, and is then unchanged |
| TelemetryTransport.NewTransport | telemetry_objects/transport.py:4-15 | ts and last_conn are the integer truncations of their inputs; fuel is kept only when positive; every other field is stored as given |
| TelemetryTransport.ToModel | telemetry_objects/transport.py:20-32 | the record carries the sample's fields, latitude and longitude under `lat` and `lon` |
| TelemetryTransport.ToModelForgetsOnlyName | telemetry_objects/transport.py:20-32 | two samples have the same stored record exactly when they differ at most in their name |
| TelemetryTransport.ToEnvelope | telemetry_objects/transport.py:34-51 | the envelope time is ts in milliseconds; latitude, longitude and last_conn (in milliseconds) are always present; velocity, fuel, light and ignition are present exactly when truthy; no other key |
| TelemetryTransport.FormMqttMessage | telemetry_objects/transport.py:53-54 | the message is the pair of the sample's name and its envelope |
| TelemetryTransport.EnvelopeRoundTrip | telemetry_objects/transport.py:34-51 | reading the envelope back gives the sample's time, position, last connection and every reading the envelope keeps |
| TelemetryTransport.EnvelopeKeepsKeptFuel | telemetry_objects/transport.py:10 | for a constructed sample, the envelope carries a fuel level exactly when the sample kept one |
| PyBuiltins.Trunc | telemetry_objects/transport.py:5 | `int(x)` truncates toward zero |
| PyBuiltins.TruncOfInt | telemetry_objects/transport.py:5 | `int()` of a whole number is that number |
| PyBuiltins.ReplaceChar | connectors/city_point_connector.py:100 | `replace` of one character keeps the length and changes exactly the occurrences of that character |
| PyBuiltins.RemoveChar | async_code.py:55 | removing a character never lengthens the string |
| PyBuiltins.RemoveCharCounts | async_code.py:55 | removing a character leaves no occurrence of it and keeps every other character's number of occurrences |
| PyBuiltins.RemoveCharConcat | async_code.py:55 | removal distributes over concatenation, so the kept characters stay in their order |
| PyBuiltins.Render | monitoring_source/citypoint_source.py:183 | an f-string renders a present string as itself and None as the word `None` |
| TelemetryAlarm.SeverityOf | telemetry_objects/alarm.py:23 | a level of at most 6 is a warning, above 6 critical |
| TelemetryAlarm.SeverityMonotone | telemetry_objects/alarm.py:23 | a higher level is never less severe |
| TelemetryAlarm.NewAlarm | telemetry_objects/alarm.py:5-31 | the severity bucket; truncated record and creation dates; driver names and place default to the empty string; the other fields stored as given |
| TelemetryAlarm.AlarmToModel | telemetry_objects/alarm.py:33-47 | the record renames latitude and longitude to `lat` and `lon`, stores the severity name (WARNING or CRITICAL) as the level, and copies every other field |
| TelemetryAlarm.AlarmToModelInjective | telemetry_objects/alarm.py:33-47 | the stored record loses nothing: equal records come from equal alarms |
| TelemetryAlarm.ToRestObject | telemetry_objects/alarm.py:49-65 | type and name are the title; the severity name of the bucket; start_ts is the creation date in milliseconds; status ACTIVE_UNACK; neither acknowledged nor cleared; details hold only the message |
| TelemetryAlarm.RestAgreesWithModel | telemetry_objects/alarm.py:33-65 | the REST object and the stored record agree on severity, start time, message and title |
| TelemetryAlarm.SeverityHasTwoNames | telemetry_objects/alarm.py:53 | the severity sent is WARNING or CRITICAL, nothing else |
| VehicleNaming.StripSeparators | async_code.py:41 | the stripped registration number holds no `_`, `-`, `\|` or whitespace and is no longer than the input |
| VehicleNaming.StripConcat | async_code.py:41 | stripping distributes over concatenation |
| VehicleNaming.StripKeepsClean | async_code.py:41 | a string without separators is left as it is |
| VehicleNaming.StripIdempotent | async_code.py:41 | stripping twice is stripping once |
| VehicleNaming.StripKeepsOthers | async_code.py:41 | every character that is not a separator keeps its number of occurrences |
| VehicleNaming.MatchLength | async_code.py:31 | a match at a position stays inside the string and is 5 to 10 characters long |
| VehicleNaming.DigitRun | async_code.py:31 | the run of digits at a position is maximal |
| VehicleNaming.DigitRunExact | async_code.py:31 | a run of digits followed by a non-digit is the maximal run |
| VehicleNaming.MatchIsPattern | async_code.py:31 | a match of the mobile-group pattern at a position is a letter pair, an optional space, a dash, an optional space, one to four digits and a non-digit |
| VehicleNaming.PatternIsMatch | async_code.py:31 | every such text is matched, with exactly its length |
| VehicleNaming.FiveDigitsDoNotMatch | async_code.py:31 | five digits after the dash never match at that start |
| VehicleNaming.FirstMatchFrom | async_code.py:53 | what is found starts at or after the starting position and ends inside the string |
| VehicleNaming.FirstMatchFromIsMatch | async_code.py:53 | what is found is a match, with the engine's length |
| VehicleNaming.FirstMatchFromSkips | async_code.py:53 | a position before what is found, or any position when nothing is found, does not match |
| VehicleNaming.FirstMatchFromIsLeftmost | async_code.py:53 | what is found is the leftmost match; nothing found means no position matches |
| VehicleNaming.FirstMatchIs | async_code.py:53 | a match with no match before it is what is found |
| VehicleNaming.MobileGroupFoundIff | async_code.py:53-54 | the mobile group is absent exactly when no position of the name matches |
| VehicleNaming.MobileGroupHasNoSpace | async_code.py:55 | a present group holds no space |
| VehicleNaming.MobileGroupOfFirstMatch | async_code.py:53-55 | the group is the text of the match found first, with its spaces dropped |
| VehicleNaming.MobileGroupIsLeftmostMatch | async_code.py:53-55 | when a text of the pattern starts at p and no match starts before p, the group is that text with its spaces dropped |
| VehicleNaming.MatchWithoutSpaces | async_code.py:55 | dropping spaces from a match keeps the two letters, the hyphen and the digits, and drops only plain spaces from the optional whitespace and the closing character |
| VehicleNaming.MobileGroupExample | async_code.py:53-55 | the match includes the trailing non-digit and spaces are then removed, as on a concrete name |
| VehicleNaming.DeriveName | async_code.py:36-59 | a unit without a registration-number field is skipped; otherwise an update is made exactly when there is a mobile group, and the name is the stripped registration number, prefixed by the group when there is one |
| VehicleNaming.DeriveNameIdempotent | async_code.py:41 | a name derived without a group is already stripped |
| VehicleNaming.NameUpdates | async_code.py:33-59 | at most one update per unit |
| VehicleNaming.NameUpdatesPrefix | async_code.py:33-59 | the calls for the first units are the first calls of the pass |
| VehicleNaming.NameUpdatesFromMatchingUnits | async_code.py:53-57 | every update is the call for a listed unit that has a mobile group, with the name derived for it, right after the calls for the units before it |
| VehicleNaming.MatchingUnitUpdated | async_code.py:53-57 | conversely, every unit with a mobile group gets its update, with its id and derived name, right after the calls for the units before it |
| VehicleNaming.UpdatesInUnitOrder | async_code.py:33-59 | the updates follow the unit order: a unit's update comes before every later unit's |
| VehicleNaming.RunNaming | async_code.py:33-59 | the loop over the units issues exactly the updates the derivation prescribes, in order |
| WialonRecords.FirstFieldValue | connectors/wialon_connector.py:57-65 | the first profile field with the name, or None exactly when no field has it |
| CityPointRecords.FirstWithId | connectors/city_point_connector.py:83-85 | the first sensor reading with the id, or None exactly when none has it |
| CityPointRecords.FirstWithIdIn | connectors/city_point_connector.py:80-82 | the first sensor reading whose id is in the set, or None exactly when none is |
| ConnectorCommon.IndexLastWins | connectors/city_point_connector.py:115-116 | the map built from a list has exactly the listed ids as keys |
| ConnectorCommon.LastOccurrenceWins | connectors/wialon_connector.py:71-72 | the entry for an id is its last occurrence in the list |
| ConnectorCommon.EntriesAreItems | connectors/wialon_connector.py:71-72 | every entry is one of the listed items, under its own id |
| ConnectorCommon.Messages | connectors/city_point_connector.py:103 | one message per sample, in order, each the sample's name and envelope |
| ConnectorCommon.FirstAccepted | connectors/city_point_connector.py:34-36 | the authentication loop stops at the first attempt that is not a refusal; none when all are refusals |
| ConnectorCommon.AwaitAuth | connectors/city_point_connector.py:34-36 | the loop returns at the first accepted attempt after refusals only, raises the first exception, or is still retrying when every attempt is refused |
| CityPointConnector.CpSample | connectors/city_point_connector.py:79-101 | a listed vehicle's state becomes a sample with the +5 h offset on both times; the CAN velocity if present, else the native one; fuel from the first fuel sensor, kept only when positive; ignition and light from their sensors; the display name, with a null model rendered as `None`. It raises AttributeError for an unknown vehicle or a null registration number, and IndexError without an ignition or light reading |
| CityPointConnector.SampleEnvelopeTime | connectors/city_point_connector.py:89-103 | the published time is the record date plus five hours, in milliseconds, under the display name |
| CityPointConnector.ListedStates | connectors/city_point_connector.py:77-79 | a state is converted exactly when its vehicle id is listed |
| CityPointConnector.ListedStatesConcat | connectors/city_point_connector.py:77-79 | the filter distributes over concatenation, so the kept states stay in their order |
| CityPointConnector.PassSamples | connectors/city_point_connector.py:75-107 | a completed pass has one sample per listed state |
| CityPointConnector.PassFollowsListed | connectors/city_point_connector.py:77-107 | a completed pass holds the conversion of each listed state, in order |
| CityPointConnector.PassCompletes | connectors/city_point_connector.py:77-107 | a pass completes exactly when every listed state converts and there is a destination or no listed state; a failed send does not stop it |
| CityPointConnector.LoadedVehiclesConvert | connectors/city_point_connector.py:86-88 | after the vehicle list is loaded, a listed vehicle is known; its state fails with IndexError exactly when the registration number is not null, so only for a missing ignition or light reading |
| CityPointConnector.Connector.constructor | connectors/abs_connector.py:6-17 | the destination as given, an empty vehicle map and empty id lists |
| CityPointConnector.Connector.StartLoop | connectors/city_point_connector.py:34-37 | authentication is retried after every refusal and stops at the first acceptance |
| CityPointConnector.Connector.LoadTransportInMemory | connectors/city_point_connector.py:115-116 | the vehicle map is replaced wholesale; the later of two equal ids wins |
| CityPointConnector.Connector.CheckTransports | connectors/city_point_connector.py:46-50 | new vehicles are inserted if absent and the map reloaded; a new vehicle with a null registration number raises AttributeError, keeping the rows committed before it and the old map; a refused list request raises TypeError and changes nothing |
| CityPointConnector.Connector.PrepareStates | connectors/city_point_connector.py:61-66 | the visible car ids, the new sensors inserted if absent, and the fuel, ignition and light sensor ids by destination |
| CityPointConnector.Connector.FetchTransportStates | connectors/city_point_connector.py:68-107 | the loop computes exactly the pass's samples and hands each one's message to the destination, in order; when a state raises, what was published is the messages of the states before it; a refused state request raises TypeError |
| WialonConnector.ParamOrNone | connectors/wialon_connector.py:34 | `p.get(key)`: the value exactly when the key is present |
| WialonConnector.WialonSample | connectors/wialon_connector.py:25-38 | a positioned unit's last message becomes a sample with the provider's times, position and speed, the io_239 ignition, no fuel or light, and the unit's name; a unit missing from the map raises TypeError |
| WialonConnector.SampleEnvelope | connectors/wialon_connector.py:26-40 | the published message carries the unit's name and the message time in milliseconds, and never a fuel level |
| WialonConnector.Positioned | connectors/wialon_connector.py:24-25 | a unit is converted exactly when its last message has a position |
| WialonConnector.PositionedConcat | connectors/wialon_connector.py:24-25 | the filter distributes over concatenation, so the kept units stay in their order |
| WialonConnector.PassSamples | connectors/wialon_connector.py:24-41 | a completed pass has one sample per positioned unit |
| WialonConnector.PassFollowsPositioned | connectors/wialon_connector.py:24-41 | a completed pass holds the conversion of each positioned unit, in order |
| WialonConnector.PassCompletes | connectors/wialon_connector.py:24-41 | a pass completes exactly when every positioned unit is in the map and there is a destination or nothing to send |
| WialonConnector.PropsOf | connectors/wialon_connector.py:57-66 | id and name copied; department, model and registration number are the first vehicle_type, brand and color field values, None exactly when absent |
| WialonConnector.NamingUsesStoredRegNumber | connectors/wialon_connector.py:59-65 | the naming pass skips exactly the units stored without a registration number, and otherwise strips the stored one |
| WialonConnector.LoadedUnitsConvert | connectors/wialon_connector.py:37 | after the unit list is loaded, every positioned listed unit converts, under a listed unit's name |
| WialonConnector.Connector.constructor | connectors/abs_connector.py:6-17 | the destination as given and an empty unit map |
| WialonConnector.Connector.StartLoop | connectors/wialon_connector.py:11-14 | authentication is retried after every refusal and stops at the first acceptance |
| WialonConnector.Connector.LoadTransportInMemory | connectors/wialon_connector.py:71-72 | the unit map is replaced wholesale; the later of two equal ids wins |
| WialonConnector.Connector.CollectProps | connectors/wialon_connector.py:54-66 | one property dictionary per listed unit, in list order |
| WialonConnector.Connector.CheckTransports | connectors/wialon_connector.py:52-68 | the collected properties are inserted if absent and the map reloaded; a refused list request raises TypeError and changes nothing |
| WialonConnector.Connector.FetchTransportStates | connectors/wialon_connector.py:21-41 | the loop computes exactly the pass's samples, appending each before sending it and ignoring the send's answer; when a unit raises, what was published is the messages of the units before it |
| Repository.Database.constructor | database/models.py:15-49 | empty tables, ids ordered |
| Repository.InsertAllIfAbsent | database/queries/car_orm.py:41-47 | no key of the table is lost |
| Repository.InsertKeepsExisting | database/queries/car_orm.py:54 | rows that were there stay exactly as they were |
| Repository.InsertKeys | database/queries/car_orm.py:52-67 | afterwards the table holds exactly the old keys and the batch's keys |
| Repository.InsertFirstWins | database/queries/car_orm.py:52-67 | a new key gets the row built from its first occurrence in the batch; later duplicates are swallowed |
| Repository.InsertNewRowsBuilt | database/queries/car_orm.py:52-67 | every new row is built from an item of the batch carrying its key |
| Repository.InsertKeepsKeying | database/queries/car_orm.py:41-47 | rows built with their own key as id keep the table keyed by id |
| Repository.FirstRaisingFrom | database/queries/car_orm.py:52-67 | the first item that is new when reached and whose row raises; no earlier item is both |
| Repository.InsertEachIfAbsentOrRaise | database/queries/car_orm.py:52-67 | the check-add-commit loop stops at the first new item whose row raises, with the items before it committed; otherwise it gives the whole insert-if-absent |
| Repository.InsertEachIfAbsent | database/queries/car_orm.py:41-47 | the check-add-commit loop, one item at a time, gives the table the insert-if-absent function describes |
| CarQueries.CityPointCarRow | database/queries/car_orm.py:55-63 | a new car's registration number is stripped of separators and is also its name; the model is the attribute, the empty string when absent and None when null; is_hidden is true only when given true, the column default False otherwise; the source is city_point |
| CarQueries.WialonCarRow | database/queries/car_orm.py:44 | the unit's properties as columns; is_hidden at its default false |
| CarQueries.AddTransportIfNotExists | database/queries/car_orm.py:50-67 | the cars table after the insert-if-absent of the batch; a new vehicle with a null registration number raises TypeError, keeping the rows committed before it |
| CarQueries.AddWialonTransportIfNotExists | database/queries/car_orm.py:39-47 | the cars table after the insert-if-absent of the batch |
| CarQueries.GetTransportIds | database/queries/car_orm.py:17-20 | the ids with the given source, or every id when the source is falsy |
| CarQueries.GetAllCarsIds | database/queries/car_orm.py:25-26 | exactly the ids of cars explicitly not hidden |
| CarQueries.GetCarById | database/queries/car_orm.py:29-31 | the row with the id, None exactly when there is none |
| CarQueries.GetAllCars | database/queries/car_orm.py:36 | name, department and model of exactly the rows whose source is wialon |
| CarQueries.GetAllTransportNames | database/queries/car_orm.py:70-72 | one name per car id, the row's name |
| CarQueries.VisibleAreListed | database/queries/car_orm.py:17-26 | the visible ids are among all ids |
| CarQueries.AddTransportListsBatch | database/queries/car_orm.py:52-67 | after the insert every vehicle of the batch is listed; new ones have the city_point source and a separator-free name; old rows are unchanged |
| CarQueries.WialonUnitsAreVisible | database/queries/car_orm.py:41-47 | a new unit is visible and carries no source |
| SensorQueries.SensorRow | database/queries/sensor_orm.py:54-59 | the row carries the catalogue's id, name, destination and type |
| SensorQueries.AddSensorsIfNotExist | database/queries/sensor_orm.py:50-62 | the sensors table after the insert-if-absent of the catalogue |
| SensorQueries.GetSensorsByDestination | database/queries/sensor_orm.py:40-41 | exactly the ids of sensors with the destination |
| SensorQueries.GetFuelSensorsIds | database/queries/sensor_orm.py:29-30 | only ids of the table |
| SensorQueries.FuelIsDestination100 | database/queries/sensor_orm.py:29-30 | the fuel query is the destination query at 100 |
| SensorQueries.GetAllSensors | database/queries/sensor_orm.py:19-20 | every row, and only rows, of the table |
| SensorQueries.DestinationsPartition | database/queries/sensor_orm.py:40-41 | distinct destinations select disjoint sensors |
| SensorQueries.NewSensorsFoundByDestination | database/queries/sensor_orm.py:53-62 | after the insert a new sensor is found by its catalogue destination; an existing one keeps its old destination |
| LegacyOperations.DisplayName | database/operations.py:68-72 | "{registration number with `_` turned into spaces} {model}", a null model rendered as `None` |
| LegacyOperations.LegacyCarRow | database/operations.py:68-75 | the older revision's new car: underscores turned into spaces, the display name, the model as given (None when null), is_hidden true only when given true and the column default False otherwise, no source |
| LegacyOperations.AddTransportIfNotExists | database/operations.py:63-79 | the cars table after the insert-if-absent of the batch; a new vehicle with a null registration number raises AttributeError, keeping the rows committed before it |
| LegacyOperations.LegacyNameIsSampleName | database/operations.py:68-72 | a new vehicle's stored name, when its registration number is not null, is the name the REST connector gives its samples |
| CounterQueries.SaveCounter | database/queries/counter_orm.py:11-22 | nothing is saved when both readings are missing or the car is unknown; otherwise exactly one row is appended |
| CounterQueries.AddCounter | database/queries/counter_orm.py:34-38 | exactly one row is appended with the given fields |
| CounterQueries.Mileages | database/queries/counter_orm.py:45-46 | the non-NULL mileages of the car's rows in the window, and only those |
| CounterQueries.EngineSeconds | database/queries/counter_orm.py:47-48 | the non-NULL engine seconds of the car's rows in the window, and only those |
| CounterQueries.MaxOf | database/queries/counter_orm.py:46 | a reading that is at least every reading |
| CounterQueries.MinOf | database/queries/counter_orm.py:45 | a reading that is at most every reading |
| CounterQueries.Spread | database/queries/counter_orm.py:62-63 | max minus min: NULL exactly for no readings, never negative, and the largest difference of two readings |
| CounterQueries.CarsInWindow | database/queries/counter_orm.py:57 | exactly the cars with a row in the window |
| CounterQueries.GetDayStats | database/queries/counter_orm.py:41-67 | one result per car with a row in the half-open window, holding both spreads |
| CounterQueries.DayStatsBounds | database/queries/counter_orm.py:45-63 | the mileage result bounds the difference of any two mileages of the car in the window |
| CounterQueries.CarsIgnoreOutside | database/queries/counter_orm.py:52-55 | a row outside the window adds no group |
| CounterQueries.RowOutsideWindowIgnored | database/queries/counter_orm.py:52-55 | a row outside the window, end included, changes no result |
| CounterQueries.ReadingsIgnoreOutside | database/queries/counter_orm.py:52-55 | a row outside the window adds no reading |
| CounterQueries.RowInWindowWidens | database/queries/counter_orm.py:41-67 | a row in the window keeps every group and never narrows a spread |
| CounterQueries.ReadingsAppend | database/queries/counter_orm.py:45-55 | a new row adds its own reading, if any, after the car's readings |
| CounterQueries.SpreadWidens | database/queries/counter_orm.py:62-63 | more readings never shrink the spread |
| CarStateQueries.RowsOfCarMembers | database/queries/car_state_orm.py:18 | exactly the rows of the car |
| CarStateQueries.InsertByTsSpec | database/queries/car_state_orm.py:19 | inserting into a sorted page keeps it sorted and adds exactly the row |
| CarStateQueries.SortByTsSpec | database/queries/car_state_orm.py:19 | ordering by ts is sorted and a permutation |
| CarStateQueries.HistoryData | database/queries/car_state_orm.py:15-21 | at most 30 rows; empty exactly when the car has no row |
| CarStateQueries.HistoryDataSpec | database/queries/car_state_orm.py:18-20 | the page is sorted by ascending ts, holds only the car's rows, and is full unless the car has fewer than 30 |
| CarStateQueries.HistoryIsOldest | database/queries/car_state_orm.py:19-20 | every row of the car left off the page is at least as new as every row on it |
| CarStateQueries.RemoveIds | database/queries/car_state_orm.py:24-28 | deleting never adds rows |
| CarStateQueries.RemoveIdsMembers | database/queries/car_state_orm.py:24-28 | exactly the rows whose id was not given survive |
| CarStateQueries.RemoveIdsTwice | database/queries/car_state_orm.py:24-28 | deleting in two steps is deleting the union |
| CarStateQueries.RemoveIdsKeepsOrder | database/queries/car_state_orm.py:24-28 | deleting keeps the ids increasing |
| CarStateQueries.RemoveNothing | database/queries/car_state_orm.py:24-28 | deleting no rows changes nothing |
| CarStateQueries.DeleteCarStates | database/queries/car_state_orm.py:24-28 | every given row goes, by primary key, and nothing else changes |
| CarStateQueries.NewRows | database/queries/car_state_orm.py:33-38 | one row per sample, in order, each built from its stored record with consecutive ids |
| CarStateQueries.AppendKeepsOrder | database/queries/car_state_orm.py:33-38 | appending fresh ids keeps the ids increasing |
| CarStateQueries.SaveUnsentTelemetry | database/queries/car_state_orm.py:41-47 | exactly one row built from the stored record; the commit fails, saving nothing, for an unknown car |
| CarStateQueries.SaveUnsentTelemetryList | database/queries/car_state_orm.py:31-38 | one row per sample in one commit; a single unknown car makes the commit fail and saves nothing |
| CarStateQueries.SavedRowIsBuffered | database/queries/car_state_orm.py:41-47 | a saved sample joins the end of its car's rows, so the car has a page to flush |
| CarStateQueries.AppendRowsOfCar | database/queries/car_state_orm.py:33-38 | a new row joins only its own car's rows |
| RunTimeQueries.GetLastRuntime | database/queries/run_time_orm.py:23 | the row with the largest id, None exactly for an empty table |
| RunTimeQueries.LastRuntimeIsLastRow | database/queries/run_time_orm.py:23 | with auto-incremented ids the newest row is the last appended |
| RunTimeQueries.CreateRuntime | database/queries/run_time_orm.py:39-41 | exactly one row appended and the others untouched; the next `get_last_runtime` returns it |
| CubaMqttClient.SendData | destinations/cuba_mqtt_client.py:29-33 | a publish succeeds exactly when its result code is TB_ERR_SUCCESS |
| CubaMqttClient.SentIds | destinations/cuba_mqtt_client.py:49-50 | the ids of every successfully published page |
| CubaMqttClient.ReplayRemovesSent | destinations/cuba_mqtt_client.py:47-50 | after the flush the table is the start without exactly the rows of successful pages |
| CubaMqttClient.NoDeleteWithoutSuccess | destinations/cuba_mqtt_client.py:49-50 | a row disappears only if a page holding it was published successfully |
| CubaMqttClient.ExtendLog | destinations/cuba_mqtt_client.py:43-51 | an attempt made as the loop makes it keeps the log faithful |
| CubaMqttClient.RetrySamePage | destinations/cuba_mqtt_client.py:43-51 | after a failed publish the next page of the same car is the same page |
| CubaMqttClient.FailedPageStaysPending | destinations/cuba_mqtt_client.py:43-51 | after a failed publish the car's page is still that non-empty page |
| CubaMqttClient.Client.constructor | destinations/cuba_mqtt_client.py:18-20 | the device names are read once, one per car id |
| CubaMqttClient.Client.PublishOnce | destinations/cuba_mqtt_client.py:44-51 | the car's oldest page is published to its device and deleted exactly when the publish succeeded; the page is then refetched |
| CubaMqttClient.Client.DrainCar | destinations/cuba_mqtt_client.py:43-51 | the loop for a car ends only when the car has no buffered row, unless the broker's answers run out; the table is the replay of the attempts |
| CubaMqttClient.Client.SendHistoryData | destinations/cuba_mqtt_client.py:35-52 | every car of the table is drained; a car without a device name raises; on completion no buffered row remains for any car, and every deletion followed a successful publish |
| CityPointToken.Updated | monitoring_source/citypoint_source.py:120-126 | every token field is replaced from the reply, and the expiry is the clock plus the lifetime |
| CityPointToken.UpdateForgetsOldToken | monitoring_source/citypoint_source.py:120-126 | the new token depends only on the reply and the clock |
| CityPointToken.BodyIfSuccess | monitoring_source/citypoint_source.py:53-55 | the body exactly when the status is 2xx, else None |
| CityPointToken.Header | monitoring_source/citypoint_source.py:180-184 | the JSON:API Accept header and "{token_type} {access_token}" as Authorization, nothing else |
| CityPointToken.FirstSpace | monitoring_source/citypoint_source.py:183 | the first space of a string, None exactly when there is none |
| CityPointToken.ParseAuthorization | monitoring_source/citypoint_source.py:183 | a parsed Authorization value is its two parts joined by a space |
| CityPointToken.FirstSpaceOfJoin | monitoring_source/citypoint_source.py:183 | the separator is the first space when the token type has none |
| CityPointToken.AuthorizationRoundTrip | monitoring_source/citypoint_source.py:180-184 | after a grant, the Authorization value reads back as exactly the granted type and token |
| CityPointToken.IsConnectedAsWritten | monitoring_source/citypoint_source.py:174 | raises TypeError before the first grant; true exactly once the clock has passed the expiry |
| CityPointToken.AsWrittenRefreshesOnlyUnexpired | monitoring_source/citypoint_source.py:208-218 | as written, the refresh happens exactly while the token has not yet expired |
| CityPointToken.ExpiredTokenKeptAsWritten | monitoring_source/citypoint_source.py:174 | a token that expired at 100 is kept, unrefreshed, at 101 |
| CityPointToken.IsConnected | monitoring_source/citypoint_source.py:169-174 | intended: true exactly while the token is valid; TypeError before the first grant |
| CityPointToken.CorrectedRefreshesExactlyExpired | monitoring_source/citypoint_source.py:208-218 | with the intended test, a granted token is refreshed exactly when it is no longer valid |
| CityPointToken.FreshTokenValid | monitoring_source/citypoint_source.py:120-126 | a fresh token with a positive lifetime is valid until the lifetime has elapsed |
| CityPointToken.FirstDecisive | monitoring_source/citypoint_source.py:217-218 | the refresh loop stops at the first attempt that is granted or raises |
| MonitoringCityPoint.SessionAfter | monitoring_source/citypoint_source.py:141-143 | a connection-level failure replaces the session, any other exception does not |
| MonitoringCityPoint.CityPointSource.constructor | monitoring_source/citypoint_source.py:18-25 | every token field is None |
| MonitoringCityPoint.CityPointSource.UpdateToken | monitoring_source/citypoint_source.py:120-126 | the token becomes the reply's token, expiring lifetime seconds after the clock |
| MonitoringCityPoint.CityPointSource.Grant | monitoring_source/citypoint_source.py:133-148 | on 2xx install the token and return true; otherwise return false and change nothing; a raising request replaces the session on a connection failure and raises |
| MonitoringCityPoint.CityPointSource.Auth | monitoring_source/citypoint_source.py:128-148 | the password grant, with the same outcomes |
| MonitoringCityPoint.CityPointSource.GetAccessToken | monitoring_source/citypoint_source.py:186-206 | the refresh_token grant, with the same outcomes |
| MonitoringCityPoint.CityPointSource.RefreshUntilGranted | monitoring_source/citypoint_source.py:217-218 | the loop stops at the first grant, installing it, or at the first exception; it still retries while refused |
| MonitoringCityPoint.CityPointSource.GetTokenIfExpiredAsWritten | monitoring_source/citypoint_source.py:208-218 | as written: TypeError before the first grant; no refresh exactly when the token has expired, so an expired token stays; otherwise the token is replaced by the first granted refresh, or is unchanged and still retrying when no attempt is decisive |
| MonitoringCityPoint.CityPointSource.GetTokenIfExpired | monitoring_source/citypoint_source.py:208-218 | intended: a valid token is kept; otherwise the first granted refresh is installed and is then valid |
| MonitoringCityPoint.CityPointSource.Fetch | monitoring_source/citypoint_source.py:57-74 | the getter as written: it runs the inverted refresh check, so an expired token is sent unchanged and an unexpired one is first replaced by the granted refresh; the request carries the current header; the body exactly on 2xx, else None; a raising request replaces the session only on a connection failure |
| MonitoringCityPoint.CityPointSource.FetchIntended | monitoring_source/citypoint_source.py:57-74 | the getter with the intended check: a valid token is sent unchanged; an invalid one is replaced by the granted refresh before the request |
| TmCityPoint.CityPointSource.constructor | tm_source/citypoint_source.py:18-24 | every token field is None |
| TmCityPoint.CityPointSource.UpdateToken | tm_source/citypoint_source.py:105-111 | the token becomes the reply's token, expiring lifetime seconds after the clock |
| TmCityPoint.CityPointSource.Auth | tm_source/citypoint_source.py:113-126 | True and the new token exactly on 2xx, else False and nothing changed; an exception propagates |
| TmCityPoint.CityPointSource.GetAccessToken | tm_source/citypoint_source.py:129-141 | True and the new token on 2xx, None and nothing changed otherwise |
| TmCityPoint.CityPointSource.RefreshUntilGranted | tm_source/citypoint_source.py:54-57 | None is falsy, so a refused refresh is retried; the loop stops at the first grant or exception |
| TmCityPoint.CityPointSource.GetTokenIfExpiredAsWritten | tm_source/citypoint_source.py:54-57 | as written: TypeError before the first grant; no refresh exactly when the token has expired; otherwise the token is replaced by the first granted refresh, or is unchanged and still retrying when no attempt is decisive |
| TmCityPoint.CityPointSource.GetTokenIfExpired | tm_source/citypoint_source.py:54-57 | intended: a valid token is kept; otherwise the first granted refresh is installed |
| TmCityPoint.CityPointSource.Fetch | tm_source/citypoint_source.py:89-103 | the getter as written: an expired token is sent unchanged and an unexpired one is first replaced by the granted refresh; the request carries the current header; the body exactly on 2xx, else None; a raising request propagates |
| TmCityPoint.CityPointSource.FetchIntended | tm_source/citypoint_source.py:89-103 | the getter with the intended check: a valid token is sent unchanged; an invalid one is replaced by the granted refresh before the request |

## Left out

- Transport.model_to_mqtt_message, CarORM.update_car_name and DeviceORM: they are called but their source is not part of this model. The flush publishes each page without modelling the message body, and name updates are a list of (id, name) pairs.
- CounterORM.get_counters_for_period: it has no return statement and returns nothing.
- The HTTP requests, URLs and `requests` sessions: a reply is an input, either an exception or a status with a body. `jwt.decode` is not modelled: the access token's `user_id` claim is part of the reply.
- Malformed reply bodies: a missing key in `update_token` and a `res.json()` that fails are not modelled.
- The clock, `strptime`, host-timezone `timestamp()` and sleeps: times are whole seconds given as inputs, and sleeps are left out.
- asyncio scheduling and the endless polling loops: each loop is one pass of its body. The timezone coroutine only sleeps and is left out.
- The retry loops that never give up (authentication, token refresh, the flush): they run over a finite sequence of attempts. When the attempts run out the result is "still retrying" or "out of attempts".
- Floating point: coordinates, speeds and sensor values are Dafny reals; rounding of float arithmetic is not modelled.
- Python's `\d` matches every Unicode decimal digit: the model takes the ASCII digits only. `\s` is the set of characters `str.isspace()` accepts.
- Duplicate-key errors that only concurrent writers can cause: with one writer the existence check rules them out, so the swallowed IntegrityError is never raised in the model.
- Ids are integers: the `str(id)` keys of the in-memory maps are injective, so keying by the integer is the same map.
- Logging, `print` and the `report_error` helper.
- The Wialon adapter, the REST sink clients and the MQTT client wrapper: they are thin HTTP or foreign-library wrappers.
- CarQueries.GetAllCars: SQL returns a list of rows, the model a set, so rows with equal (name, department, model) are not counted twice.
- CarQueries.GetTransportIds, CarQueries.GetAllCarsIds, SensorQueries.GetSensorsByDestination: unordered SQL results are sets, so the order the flush visits cars in is left open.
- CarStateQueries.HistoryData: rows with equal ts are ordered by insertion; SQL leaves their order open.
- CubaMqttClient.Client.SendHistoryData: the flush ends in OutOfAttempts when the broker's answers run out, whereas the source keeps publishing; the publish body is not modelled.
- CityPointRecords.CpCar: a vehicle whose `attributes` is JSON null (so `.get` raises) is not modelled; a missing `attributes` object is an absent attribute.
- The getters (both Fetch members) model the source as written, with the inverted expiry test; FetchIntended is the same getter with the intended test.
- WialonConnector.WialonSample: `lmsg` is assumed present; a unit that has never sent a message (lmsg None) is not modelled.
- CityPointConnector.Connector.FetchTransportStates and WialonConnector.Connector.FetchTransportStates: the send's answer is ignored as in the source; the destination is modelled only as present or absent.

## Findings

| source | as written | input that shows it | evidently intended | confidence | as-written member | corrected member |
|---|---|---|---|---|---|---|
| monitoring_source/citypoint_source.py:169-218 | `is_connected` returns `now > expires_at`, true once the token has expired, and `get_token_if_expired` refreshes when it is false: the token is refreshed while still valid and an expired token is never refreshed | a token expiring at 100, checked at 101: `is_connected` is true, so the expired token is sent unrefreshed | connected while `now < expires_at`; refresh exactly when the token is no longer valid | not executed | CityPointToken.ExpiredTokenKeptAsWritten, MonitoringCityPoint.CityPointSource.GetTokenIfExpiredAsWritten | CityPointToken.CorrectedRefreshesExactlyExpired, MonitoringCityPoint.CityPointSource.GetTokenIfExpired, MonitoringCityPoint.CityPointSource.FetchIntended |
| tm_source/citypoint_source.py:54-159 | the same inverted test in the revision the entry point runs | a token expiring at 100, checked at 101, is kept unrefreshed | the same intended test | not executed | TmCityPoint.CityPointSource.GetTokenIfExpiredAsWritten | TmCityPoint.CityPointSource.GetTokenIfExpired, TmCityPoint.CityPointSource.FetchIntended |
