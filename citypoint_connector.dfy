/**
 * The connector for the REST-polled provider (connectors/city_point_connector.py): it keeps the
 * listed vehicle ids, the sensor ids by destination and the vehicle map, turns each current
 * state into a sample, and hands every sample to the destination. Each endless coroutine is modelled
 * as one pass of its loop; the provider's replies are inputs, None where the adapter returned
 * None for a refused request.
 */
module CityPointConnector {
  import opened Wrappers
  import opened PyBuiltins
  import opened TelemetryTransport
  import opened CityPointRecords
  import opened Repository
  import opened CityPointToken
  import opened ConnectorCommon
  import CarQueries
  import SensorQueries
  import LegacyOperations

  /** The sensor ids the conversion looks up, and the destinations of the sensor catalogue it loads. */
  const IgnitionSensorId := 1
  const LightSensorId := 104
  const CanVelocitySensorId := 41
  const FuelDestination := 100
  const IgnitionDestination := 1
  const LightDestination := 1300

  /** Five hours, added to both parsed provider times. */
  const ProviderOffset := 5 * 3600

  /** The vehicle id of a list entry, the key of the in-memory map. */
  function VehicleId(c: CpCar): int { c.id }

  /**
   * One current state turned into a sample, or the exception the conversion raises: no map entry
   * for the vehicle gives AttributeError (calling `.get` on None), so does a null registration
   * number (calling `.replace` on None), and a missing ignition or light sensor gives IndexError,
   * in that order.
   */
  function CpSample(s: CpState, vehicles: map<int, CpCar>, fuelIds: set<int>): (r: Result<Transport, Exception>)
    ensures r.Err? <==> s.id !in vehicles || RegNumberIsNull(vehicles[s.id])
                        || FirstWithId(s.sensors, IgnitionSensorId).None?
                        || FirstWithId(s.sensors, LightSensorId).None?
    ensures r.Err? ==> r.error == (if s.id !in vehicles || RegNumberIsNull(vehicles[s.id]) then AttributeError
                                   else IndexError)
    ensures r.Ok? ==> && r.value.ts == s.recordDate + ProviderOffset
                      && r.value.lastConn == s.latestGpsDate + ProviderOffset
                      && r.value.carId == s.id && !r.value.isSent
                      && r.value.latitude == s.lat && r.value.longitude == s.lon
    ensures r.Ok? ==> r.value.velocity == (match FirstWithId(s.sensors, CanVelocitySensorId)
                                           case Some(can) => Trunc(can.value) as real
                                           case None => s.velocity)
    ensures r.Ok? ==> r.value.fuelLevel == KeptFuel(match FirstWithIdIn(s.sensors, fuelIds)
                                                    case Some(f) => Some(f.value)
                                                    case None => None)
    ensures r.Ok? ==> && r.value.ignition == Some(FirstWithId(s.sensors, IgnitionSensorId).value.value)
                      && r.value.light == Some(FirstWithId(s.sensors, LightSensorId).value.value)
    ensures r.Ok? ==> r.value.name == LegacyOperations.DisplayName(AttrGet(vehicles[s.id].regNumber, "").value,
                                                                   AttrGet(vehicles[s.id].model, ""))
  {
    if s.id !in vehicles || RegNumberIsNull(vehicles[s.id]) then Err(AttributeError)
    else
      var vehicle := vehicles[s.id];
      match (FirstWithId(s.sensors, IgnitionSensorId), FirstWithId(s.sensors, LightSensorId))
      case (Some(ignition), Some(light)) =>
        var velocity := match FirstWithId(s.sensors, CanVelocitySensorId)
                        case Some(can) => Trunc(can.value) as real
                        case None => s.velocity;
        var fuel := match FirstWithIdIn(s.sensors, fuelIds)
                    case Some(f) => Some(f.value)
                    case None => None;
        var ts := s.recordDate + ProviderOffset;
        var lastConn := s.latestGpsDate + ProviderOffset;
        TruncOfInt(ts);
        TruncOfInt(lastConn);
        Ok(NewTransport(ts as real, false, s.lat, s.lon, velocity, fuel, s.id,
                        Some(ignition.value), Some(light.value), lastConn as real,
                        LegacyOperations.DisplayName(AttrGet(vehicle.regNumber, "").value, AttrGet(vehicle.model, ""))))
      case _ => Err(IndexError)
  }

  /** The sample is sent with the shifted provider time, in milliseconds. */
  lemma SampleEnvelopeTime(s: CpState, vehicles: map<int, CpCar>, fuelIds: set<int>)
    requires CpSample(s, vehicles, fuelIds).Ok?
    ensures FormMqttMessage(CpSample(s, vehicles, fuelIds).value).1.ts == (s.recordDate + ProviderOffset) * 1000
    ensures FormMqttMessage(CpSample(s, vehicles, fuelIds).value).0
            == LegacyOperations.DisplayName(AttrGet(vehicles[s.id].regNumber, "").value, AttrGet(vehicles[s.id].model, ""))
  {
  }

  /** The states of listed vehicles, in order: the ones the pass converts. */
  function ListedStates(states: seq<CpState>, listed: set<int>): (r: seq<CpState>)
    ensures |r| <= |states|
    ensures forall x :: x in r <==> x in states && x.id in listed
  {
    if states == [] then []
    else
      var prev := ListedStates(states[..|states| - 1], listed);
      var s := states[|states| - 1];
      assert states == states[..|states| - 1] + [s];
      if s.id in listed then prev + [s] else prev
  }

  /** The filter keeps the order: filtering a concatenation concatenates the filtered parts. */
  lemma {:induction false} ListedStatesConcat(a: seq<CpState>, b: seq<CpState>, listed: set<int>)
    ensures ListedStates(a + b, listed) == ListedStates(a, listed) + ListedStates(b, listed)
    decreases |b|
  {
    if b != [] {
      var init := b[..|b| - 1];
      assert (a + b)[..|a + b| - 1] == a + init;
      assert (a + b)[|a + b| - 1] == b[|b| - 1];
      ListedStatesConcat(a, init, listed);
    } else {
      assert a + b == a;
    }
  }

  /**
   * One pass of the state loop: the telemetry it builds, or the exception that ends the loop.
   * Each converted sample is handed to the destination before it is appended, and the send's
   * answer is ignored; without a destination the first send raises AttributeError.
   */
  function PassSamples(states: seq<CpState>, vehicles: map<int, CpCar>, listed: set<int>,
                       fuelIds: set<int>, hasDestination: bool): (r: Result<seq<Transport>, Exception>)
    ensures r.Ok? ==> |r.value| == |ListedStates(states, listed)|
  {
    if states == [] then Ok([])
    else
      var prev := PassSamples(states[..|states| - 1], vehicles, listed, fuelIds, hasDestination);
      var s := states[|states| - 1];
      if prev.Err? || s.id !in listed then prev
      else
        match CpSample(s, vehicles, fuelIds)
        case Err(e) => Err(e)
        case Ok(t) => if hasDestination then Ok(prev.value + [t]) else Err(AttributeError)
  }

  /** A completed pass holds exactly the converted listed states, in order. */
  lemma {:induction false} PassFollowsListed(states: seq<CpState>, vehicles: map<int, CpCar>, listed: set<int>,
                                             fuelIds: set<int>, hasDestination: bool)
    requires PassSamples(states, vehicles, listed, fuelIds, hasDestination).Ok?
    ensures var ts := PassSamples(states, vehicles, listed, fuelIds, hasDestination).value;
            var ls := ListedStates(states, listed);
            forall k :: 0 <= k < |ts| ==> CpSample(ls[k], vehicles, fuelIds) == Ok(ts[k])
  {
    if states != [] {
      var init := states[..|states| - 1];
      PassFollowsListed(init, vehicles, listed, fuelIds, hasDestination);
    }
  }

  /** Every state of a listed vehicle converts. */
  ghost predicate ListedConvert(states: seq<CpState>, vehicles: map<int, CpCar>, listed: set<int>, fuelIds: set<int>) {
    forall x :: x in states && x.id in listed ==> CpSample(x, vehicles, fuelIds).Ok?
  }

  /** Some state belongs to a listed vehicle, so the pass sends something. */
  ghost predicate AnyListed(states: seq<CpState>, listed: set<int>) {
    exists x :: x in states && x.id in listed
  }

  /** A pass completes exactly when every listed state converts, and there is a destination or nothing to send. */
  lemma {:induction false} PassCompletes(states: seq<CpState>, vehicles: map<int, CpCar>, listed: set<int>,
                                         fuelIds: set<int>, hasDestination: bool)
    ensures PassSamples(states, vehicles, listed, fuelIds, hasDestination).Ok? <==>
            ListedConvert(states, vehicles, listed, fuelIds) && (hasDestination || !AnyListed(states, listed))
  {
    if states != [] {
      var init := states[..|states| - 1];
      var s := states[|states| - 1];
      assert states == init + [s];
      PassCompletes(init, vehicles, listed, fuelIds, hasDestination);
      ListedConvertSnoc(init, s, vehicles, listed, fuelIds);
      AnyListedSnoc(init, s, listed);
    }
  }

  /** One more state keeps every listed state converting exactly when it converts, or is not listed. */
  lemma ListedConvertSnoc(init: seq<CpState>, s: CpState, vehicles: map<int, CpCar>, listed: set<int>, fuelIds: set<int>)
    ensures ListedConvert(init + [s], vehicles, listed, fuelIds)
            <==> ListedConvert(init, vehicles, listed, fuelIds) && (s.id in listed ==> CpSample(s, vehicles, fuelIds).Ok?)
  {
    assert forall x :: x in init + [s] <==> x in init || x == s;
  }

  /** One more state makes the pass send something exactly when it is listed, or something was sent already. */
  lemma AnyListedSnoc(init: seq<CpState>, s: CpState, listed: set<int>)
    ensures AnyListed(init + [s], listed) <==> AnyListed(init, listed) || s.id in listed
  {
    assert forall x :: x in init + [s] <==> x in init || x == s;
  }

  /**
   * State `i` ends the pass with an exception, and `published` is what was handed to the
   * destination before it: the messages of the samples of the states before `i`.
   */
  ghost predicate PublishedBeforeRaise(states: seq<CpState>, vehicles: map<int, CpCar>, listed: set<int>,
                                       fuelIds: set<int>, hasDestination: bool, published: seq<(string, Envelope)>, i: nat)
    requires i < |states|
  {
    && PassSamples(states[..i], vehicles, listed, fuelIds, hasDestination).Ok?
    && PassSamples(states[..i + 1], vehicles, listed, fuelIds, hasDestination).Err?
    && published == Messages(PassSamples(states[..i], vehicles, listed, fuelIds, hasDestination).value)
  }

  /** One more state of the pass: skipped, appended, or the exception that ends it. */
  lemma PassStep(states: seq<CpState>, vehicles: map<int, CpCar>, listed: set<int>,
                 fuelIds: set<int>, hasDestination: bool, i: nat)
    requires i < |states|
    requires PassSamples(states[..i], vehicles, listed, fuelIds, hasDestination).Ok?
    ensures states[i].id !in listed ==>
              PassSamples(states[..i + 1], vehicles, listed, fuelIds, hasDestination)
              == PassSamples(states[..i], vehicles, listed, fuelIds, hasDestination)
    ensures states[i].id in listed && CpSample(states[i], vehicles, fuelIds).Ok? && hasDestination ==>
              PassSamples(states[..i + 1], vehicles, listed, fuelIds, hasDestination)
              == Ok(PassSamples(states[..i], vehicles, listed, fuelIds, hasDestination).value
                    + [CpSample(states[i], vehicles, fuelIds).value])
    ensures states[i].id in listed && (CpSample(states[i], vehicles, fuelIds).Err? || !hasDestination) ==>
              PassSamples(states[..i + 1], vehicles, listed, fuelIds, hasDestination).Err?
  {
    assert states[..i + 1][..i] == states[..i];
  }

  /** A listed state that fails, or has nowhere to go, ends the pass after the messages of the states before it. */
  lemma PassStopsAt(states: seq<CpState>, vehicles: map<int, CpCar>, listed: set<int>,
                    fuelIds: set<int>, hasDestination: bool, i: nat, telemetry: seq<Transport>)
    requires i < |states|
    requires PassSamples(states[..i], vehicles, listed, fuelIds, hasDestination) == Ok(telemetry)
    requires states[i].id in listed && (CpSample(states[i], vehicles, fuelIds).Err? || !hasDestination)
    ensures PassSamples(states, vehicles, listed, fuelIds, hasDestination).Err?
    ensures PublishedBeforeRaise(states, vehicles, listed, fuelIds, hasDestination, Messages(telemetry), i)
  {
    PassStep(states, vehicles, listed, fuelIds, hasDestination, i);
    PassErrorPersists(states, vehicles, listed, fuelIds, hasDestination, i + 1);
  }

  /** Once a prefix of the pass has raised, the pass raises the same exception. */
  lemma {:induction false} PassErrorPersists(states: seq<CpState>, vehicles: map<int, CpCar>, listed: set<int>,
                                             fuelIds: set<int>, hasDestination: bool, i: nat)
    requires i <= |states|
    requires PassSamples(states[..i], vehicles, listed, fuelIds, hasDestination).Err?
    ensures PassSamples(states, vehicles, listed, fuelIds, hasDestination)
            == PassSamples(states[..i], vehicles, listed, fuelIds, hasDestination)
    decreases |states| - i
  {
    if i < |states| {
      var init := states[..|states| - 1];
      assert states[..i] == init[..i];
      PassErrorPersists(init, vehicles, listed, fuelIds, hasDestination, i);
    } else {
      assert states[..i] == states;
    }
  }

  class Connector {
    var vehicles: map<int, CpCar>
    var transportsId: set<int>
    var fuelSensorsId: set<int>
    var ignitionSensorsId: set<int>
    var lightSensorsId: set<int>
    const hasDestination: bool

    /** A connector with an empty vehicle map; the entry point passes no destination. */
    constructor (hasDestination: bool)
      ensures this.hasDestination == hasDestination
      ensures vehicles == map[] && transportsId == {}
      ensures fuelSensorsId == {} && ignitionSensorsId == {} && lightSensorsId == {}
    {
      this.hasDestination := hasDestination;
      vehicles := map[];
      transportsId := {};
      fuelSensorsId := {};
      ignitionSensorsId := {};
      lightSensorsId := {};
    }

    /** `start_loop`: authenticate, retrying after every refusal. */
    method StartLoop(auths: seq<Result<bool, Exception>>) returns (r: Result<nat, Halt>)
      ensures FirstAccepted(auths).None? <==> r == Err(StillRetrying)
      ensures r.Ok? ==> 1 <= r.value <= |auths| && auths[r.value - 1] == Ok(true)
                        && forall j :: 0 <= j < r.value - 1 ==> auths[j] == Ok(false)
    {
      r := AwaitAuth(auths);
    }

    /** `load_transport_in_memory`: the map is replaced wholesale; the later of two equal ids wins. */
    method LoadTransportInMemory(transports: seq<CpCar>)
      modifies this`vehicles
      ensures vehicles == IndexLastWins(transports, VehicleId)
    {
      vehicles := IndexLastWins(transports, VehicleId);
    }

    /**
     * One pass of `check_transport_with_discreteness`: store the new vehicles, then reload the
     * map. A refused list request (None) raises TypeError when subscripted, changing nothing; a
     * new vehicle with a null registration number raises AttributeError in the insert, after
     * the earlier vehicles were stored and before the map is reloaded.
     */
    method CheckTransports(db: Database, list: Option<seq<CpCar>>) returns (r: Result<(), Exception>)
      requires db.Valid()
      modifies db`cars, this`vehicles
      ensures db.Valid()
      ensures list.None? ==> r == Err(TypeError) && db.cars == old(db.cars) && vehicles == old(vehicles)
      ensures list.Some? ==>
                var stop := FirstRaisingFrom(old(db.cars), list.value, CarQueries.CpCarId, LegacyOperations.LegacyCarRow,
                                             RegNumberIsNull, 0);
                && (stop.None? ==> r == Ok(())
                                   && db.cars == InsertAllIfAbsent(old(db.cars), list.value, CarQueries.CpCarId,
                                                                   LegacyOperations.LegacyCarRow)
                                   && vehicles == IndexLastWins(list.value, VehicleId))
                && (stop.Some? ==> r == Err(AttributeError) && stop.value < |list.value|
                                   && db.cars == InsertAllIfAbsent(old(db.cars), list.value[..stop.value],
                                                                   CarQueries.CpCarId, LegacyOperations.LegacyCarRow)
                                   && vehicles == old(vehicles))
    {
      if list.None? {
        return Err(TypeError);
      }
      r := LegacyOperations.AddTransportIfNotExists(db, list.value);
      if r.Err? {
        return;
      }
      LoadTransportInMemory(list.value);
    }

    /**
     * The set-up of `fetch_transport_states`: the visible vehicle ids, then the sensor catalogue
     * stored and the sensor ids by destination read back. A refused catalogue request raises
     * TypeError after the ids were taken.
     */
    method PrepareStates(db: Database, catalogue: Option<seq<CpSensor>>) returns (r: Result<(), Exception>)
      requires db.Valid()
      modifies db`sensors, this`transportsId, this`fuelSensorsId, this`ignitionSensorsId, this`lightSensorsId
      ensures db.Valid()
      ensures transportsId == CarQueries.GetAllCarsIds(db.cars)
      ensures catalogue.None? ==> r == Err(TypeError) && db.sensors == old(db.sensors)
                                  && fuelSensorsId == old(fuelSensorsId)
                                  && ignitionSensorsId == old(ignitionSensorsId)
                                  && lightSensorsId == old(lightSensorsId)
      ensures catalogue.Some? ==>
                && r == Ok(())
                && db.sensors == InsertAllIfAbsent(old(db.sensors), catalogue.value, SensorQueries.CpSensorId,
                                                   SensorQueries.SensorRow)
                && fuelSensorsId == SensorQueries.GetSensorsByDestination(db.sensors, FuelDestination)
                && ignitionSensorsId == SensorQueries.GetSensorsByDestination(db.sensors, IgnitionDestination)
                && lightSensorsId == SensorQueries.GetSensorsByDestination(db.sensors, LightDestination)
    {
      transportsId := CarQueries.GetAllCarsIds(db.cars);
      if catalogue.None? {
        return Err(TypeError);
      }
      SensorQueries.AddSensorsIfNotExist(db, catalogue.value);
      fuelSensorsId := SensorQueries.GetSensorsByDestination(db.sensors, FuelDestination);
      ignitionSensorsId := SensorQueries.GetSensorsByDestination(db.sensors, IgnitionDestination);
      lightSensorsId := SensorQueries.GetSensorsByDestination(db.sensors, LightDestination);
      r := Ok(());
    }

    /**
     * One pass of the state loop of `fetch_transport_states`: `published` is every message handed
     * to the destination, in order; the pass's telemetry is returned. A refused state request
     * raises TypeError.
     */
    method FetchTransportStates(states: Option<seq<CpState>>)
      returns (r: Result<seq<Transport>, Exception>, published: seq<(string, Envelope)>)
      ensures states.None? ==> r == Err(TypeError) && published == []
      ensures states.Some? ==> r == PassSamples(states.value, vehicles, transportsId, fuelSensorsId, hasDestination)
      ensures r.Ok? ==> published == Messages(r.value)
      ensures states.Some? && r.Err? ==>
                exists i :: 0 <= i < |states.value|
                            && PublishedBeforeRaise(states.value, vehicles, transportsId, fuelSensorsId, hasDestination, published, i)
    {
      published := [];
      if states.None? {
        return Err(TypeError), [];
      }
      var all := states.value;
      var telemetry: seq<Transport> := [];
      var i := 0;
      while i < |all|
        invariant 0 <= i <= |all|
        invariant PassSamples(all[..i], vehicles, transportsId, fuelSensorsId, hasDestination) == Ok(telemetry)
        invariant published == Messages(telemetry)
      {
        var s := all[i];
        if s.id in transportsId {
          var sample := CpSample(s, vehicles, fuelSensorsId);
          if sample.Err? || !hasDestination {
            PassStopsAt(all, vehicles, transportsId, fuelSensorsId, hasDestination, i, telemetry);
            r := PassSamples(all, vehicles, transportsId, fuelSensorsId, hasDestination);
            return;
          }
          assert PassSamples(all[..i + 1], vehicles, transportsId, fuelSensorsId, hasDestination)
                 == Ok(telemetry + [sample.value]) by {
            PassStep(all, vehicles, transportsId, fuelSensorsId, hasDestination, i);
          }
          MessagesAppend(telemetry, sample.value);
          published := published + [FormMqttMessage(sample.value)];
          telemetry := telemetry + [sample.value];
        } else {
          PassStep(all, vehicles, transportsId, fuelSensorsId, hasDestination, i);
        }
        i := i + 1;
      }
      assert all[..|all|] == all;
      r := Ok(telemetry);
    }
  }

  /**
   * After a vehicle list is loaded, no state of a listed vehicle fails for want of a map entry;
   * only a null registration number (AttributeError) or a missing ignition or light sensor
   * (IndexError) can still stop the conversion.
   */
  lemma LoadedVehiclesConvert(list: seq<CpCar>, s: CpState, fuelIds: set<int>)
    requires s.id in KeysOf(list, VehicleId)
    ensures var vehicles := IndexLastWins(list, VehicleId);
            && s.id in vehicles
            && (CpSample(s, vehicles, fuelIds).Err? ==>
                  (CpSample(s, vehicles, fuelIds).error == IndexError <==> !RegNumberIsNull(vehicles[s.id])))
  {
  }
}
